/**
 * Reading a company's detail flyout once it is shown. The panel is given
 * abstractly by what the browser's selectors find inside it.
 */
module Flyout {
  import opened Wrappers
  import opened Text
  import opened Company

  /**
   * What the selectors find in the shown flyout: the inner text of the
   * description paragraph if there is one, one entry per general-details
   * `div` holding the `href` of its first link (absent when the `div` has no
   * link with an `href`), and the inner text of the headquarters line if
   * there is one.
   */
  datatype Panel = Panel(
    description: Option<string>,
    generalDetails: seq<Option<string>>,
    headquarters: Option<string>)

  /** The details read from a flyout; each is `""` when its element is missing. */
  datatype FlyoutDetails = FlyoutDetails(headquarters: string, website: string, description: string)

  /** The `forEach` over the general-details divs: each link found overwrites `website`. */
  function ScanWebsite(divs: seq<Option<string>>, website: string): string {
    if divs == [] then website
    else ScanWebsite(divs[1..], if divs[0].Some? then divs[0].value else website)
  }

  /** The website of a flyout: the scan started from `""`. */
  function Website(divs: seq<Option<string>>): string {
    ScanWebsite(divs, "")
  }

  /** Div `k` is the last general-details div that has a link. */
  ghost predicate IsLastLink(divs: seq<Option<string>>, k: int) {
    0 <= k < |divs| && divs[k].Some? && forall i :: k < i < |divs| ==> divs[i].None?
  }

  /** The scan yields the link of the last div that has one, or the starting value when none has. */
  lemma {:induction false} ScanWebsiteIsLastLink(divs: seq<Option<string>>, website: string)
    ensures (forall i :: 0 <= i < |divs| ==> divs[i].None?) ==> ScanWebsite(divs, website) == website
    ensures forall k :: IsLastLink(divs, k) ==> ScanWebsite(divs, website) == divs[k].value
  {
    if divs != [] {
      var w := if divs[0].Some? then divs[0].value else website;
      ScanWebsiteIsLastLink(divs[1..], w);
      forall k | IsLastLink(divs, k)
        ensures ScanWebsite(divs, website) == divs[k].value
      {
        if k > 0 {
          assert IsLastLink(divs[1..], k - 1);
        } else {
          assert forall i :: 0 <= i < |divs[1..]| ==> divs[1..][i] == divs[i + 1];
        }
      }
    }
  }

  /** Some div has a link exactly when some div is the last one with a link. */
  lemma {:induction false} LastLinkExists(divs: seq<Option<string>>)
    requires exists i :: 0 <= i < |divs| && divs[i].Some?
    ensures exists k :: IsLastLink(divs, k)
  {
    var last := |divs| - 1;
    if divs[last].Some? {
      assert IsLastLink(divs, last);
    } else {
      var i :| 0 <= i < |divs| && divs[i].Some?;
      assert i < last && divs[..last][i] == divs[i];
      LastLinkExists(divs[..last]);
      var k :| IsLastLink(divs[..last], k);
      assert IsLastLink(divs, k);
    }
  }

  /**
   * The website is `""` when no general-details div has a link, and otherwise
   * the link of the last div that has one.
   */
  lemma WebsiteIsLastLink(divs: seq<Option<string>>)
    ensures (forall i :: 0 <= i < |divs| ==> divs[i].None?) ==> Website(divs) == ""
    ensures (exists i :: 0 <= i < |divs| && divs[i].Some?) ==>
      exists k :: IsLastLink(divs, k) && Website(divs) == divs[k].value
  {
    ScanWebsiteIsLastLink(divs, "");
    if exists i :: 0 <= i < |divs| && divs[i].Some? {
      LastLinkExists(divs);
    }
  }

  /** The text after a label: one optional `:` and then the white space that follows it are dropped. */
  function AfterLabel(rest: string): string {
    TrimStart(DropColon(rest))
  }

  /** The optional `:` right after a label, dropped. */
  function DropColon(rest: string): string {
    if |rest| > 0 && rest[0] == ':' then rest[1..] else rest
  }

  /** The `replace` at the start of the line: a leading `Headquarters` or `HQ` in any letter case, if present, removed with what `AfterLabel` drops. */
  function StripLabel(t: string): string {
    if StartsWithIgnoreCase(t, "headquarters") then AfterLabel(t[12..])
    else if StartsWithIgnoreCase(t, "hq") then AfterLabel(t[2..])
    else t
  }

  /** The headquarters line: trimmed, its label removed when it is non-empty, and trimmed again. */
  function Headquarters(line: Option<string>): string {
    var text := if line.Some? then Trim(line.value) else "";
    if text != "" then Trim(StripLabel(text)) else text
  }

  /** A flyout without a headquarters line gives `""`. */
  lemma HeadquartersMissing()
    ensures Headquarters(None) == ""
  {
  }

  /** A headquarters line that does not start with a label comes back trimmed and otherwise unchanged. */
  lemma HeadquartersUnlabelled(raw: string)
    requires !StartsWithIgnoreCase(Trim(raw), "headquarters") && !StartsWithIgnoreCase(Trim(raw), "hq")
    ensures Headquarters(Some(raw)) == Trim(raw)
  {
    TrimIdempotent(raw);
  }

  /** A text starting with `HQ` in any case does not start with `Headquarters`: their second letters differ. */
  lemma HqIsNotHeadquarters(t: string)
    requires StartsWithIgnoreCase(t, "hq")
    ensures !StartsWithIgnoreCase(t, "headquarters")
  {
    if |t| >= 12 {
      assert Lower(t[..12])[1] == LowerChar(t[1]) == Lower(t[..2])[1] == 'q';
    }
  }

  /** On a text starting with `Headquarters` in any case, the `replace` leaves what follows the label. */
  lemma StripLabelHeadquarters(t: string)
    requires StartsWithIgnoreCase(t, "headquarters")
    ensures StripLabel(t) == AfterLabel(t[12..])
  {
  }

  /** On a text starting with `HQ` in any case, the `replace` leaves what follows the label. */
  lemma StripLabelHq(t: string)
    requires StartsWithIgnoreCase(t, "hq")
    ensures StripLabel(t) == AfterLabel(t[2..])
  {
    HqIsNotHeadquarters(t);
  }

  /** When the `replace` leaves what follows the first `n` characters of the trimmed line, the value is that rest without its `:`, trimmed. */
  lemma HeadquartersAfter(raw: string, n: nat)
    requires 0 < n <= |Trim(raw)|
    requires StripLabel(Trim(raw)) == AfterLabel(Trim(raw)[n..])
    ensures Headquarters(Some(raw)) == Trim(DropColon(Trim(raw)[n..]))
  {
    TrimStartThenTrim(DropColon(Trim(raw)[n..]));
  }

  /** A headquarters line that starts with `Headquarters` in any case comes back as the text after it and an optional `:`, trimmed. */
  lemma HeadquartersLabelledFull(raw: string)
    requires StartsWithIgnoreCase(Trim(raw), "headquarters")
    ensures Headquarters(Some(raw)) == Trim(DropColon(Trim(raw)[12..]))
  {
    StripLabelHeadquarters(Trim(raw));
    HeadquartersAfter(raw, 12);
  }

  /** A headquarters line that starts with `HQ` in any case comes back as the text after it and an optional `:`, trimmed. */
  lemma HeadquartersLabelledHq(raw: string)
    requires StartsWithIgnoreCase(Trim(raw), "hq")
    ensures Headquarters(Some(raw)) == Trim(DropColon(Trim(raw)[2..]))
  {
    StripLabelHq(Trim(raw));
    HeadquartersAfter(raw, 2);
  }

  /** Dropping leading white space first does not change a trim. */
  lemma TrimStartThenTrim(s: string)
    ensures Trim(TrimStart(s)) == Trim(s)
  {
    var u := TrimStart(s);
    if u != [] {
      assert TrimStart(u) == u;
    }
  }

  /** The headquarters value never has white space at either end. */
  lemma HeadquartersTrimmed(line: Option<string>)
    ensures IsTrimmed(Headquarters(line))
  {
    if line.Some? {
      TrimShape(line.value);
      var text := Trim(line.value);
      if text != "" {
        TrimShape(StripLabel(text));
      }
    }
  }

  /** The flyout evaluation: `null` when no shown flyout is found, the three details otherwise. */
  function ReadFlyout(flyout: Option<Panel>): (d: Option<FlyoutDetails>)
    ensures d.None? <==> flyout.None?
    ensures flyout.Some? && flyout.value.description.None? ==> d.value.description == ""
    ensures flyout.Some? && flyout.value.description.Some? ==> d.value.description == Trim(flyout.value.description.value)
    ensures flyout.Some? ==> d.value.website == Website(flyout.value.generalDetails)
    ensures flyout.Some? ==> d.value.headquarters == Headquarters(flyout.value.headquarters)
    ensures flyout.Some? && flyout.value.headquarters.None? ==> d.value.headquarters == ""
  {
    match flyout
    case None => None
    case Some(p) =>
      var description := if p.description.Some? then Trim(p.description.value) else "";
      Some(FlyoutDetails(Headquarters(p.headquarters), Website(p.generalDetails), description))
  }

  /** `{...basicInfo, ...(flyoutDetails || {})}`: the basic record with the details laid over it. */
  function Enrich(basic: Company, details: Option<FlyoutDetails>): (c: Company)
    ensures details.None? ==> c == basic
    ensures details.Some? ==>
      c == basic.(description := Some(details.value.description),
                  website := Some(details.value.website),
                  headquarters := Some(details.value.headquarters))
  {
    match details
    case None => basic
    case Some(d) => basic.(description := Some(d.description), website := Some(d.website), headquarters := Some(d.headquarters))
  }
}
