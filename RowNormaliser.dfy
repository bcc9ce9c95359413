/**
 * Turning the cell texts of one table row into a basic company record: the
 * closure evaluated in the browser for each row of the current page.
 */
module RowNormaliser {
  import opened Wrappers
  import opened Text
  import opened Company

  /** The overflow key of the cell at 0-based position `j`: `column_{j+1}`. */
  function CellKey(j: nat): string {
    "column_" + NatToString(j + 1)
  }

  /** Cells at different positions get different overflow keys. */
  lemma CellKeyInjective(a: nat, b: nat)
    requires CellKey(a) == CellKey(b)
    ensures a == b
  {
    assert CellKey(a)[7..] == NatToString(a + 1);
    assert CellKey(b)[7..] == NatToString(b + 1);
    NatToStringInjective(a + 1, b + 1);
  }

  /** Cells at different positions have different keys. */
  lemma CellKeysDistinct(a: nat, b: nat)
    requires a != b
    ensures CellKey(a) != CellKey(b)
  {
    if CellKey(a) == CellKey(b) {
      CellKeyInjective(a, b);
    }
  }

  /** The trimmed text of every cell of a row. */
  function CellTexts(cells: seq<string>): (texts: seq<string>)
    ensures |texts| == |cells|
    ensures forall j :: 0 <= j < |cells| ==> texts[j] == Trim(cells[j])
  {
    seq(|cells|, j requires 0 <= j < |cells| => Trim(cells[j]))
  }

  /**
   * The overflow map after the `forEach` over cells 4 .. n-1 has run, given
   * the cells' trimmed texts: each non-empty text writes its cell's key, in
   * cell order.
   */
  function Overflow(texts: seq<string>, n: nat): map<string, string>
    requires n <= |texts|
  {
    if n <= 4 then map[]
    else
      var m := Overflow(texts, n - 1);
      if texts[n - 1] != "" then m[CellKey(n - 1) := texts[n - 1]] else m
  }

  /** A later cell's write leaves the other keys of the overflow map as they were. */
  lemma OverflowKeepsOtherKey(texts: seq<string>, n: nat, key: string)
    requires 4 < n <= |texts| && key in Overflow(texts, n - 1) && key != CellKey(n - 1)
    ensures key in Overflow(texts, n) && Overflow(texts, n)[key] == Overflow(texts, n - 1)[key]
  {
  }

  /** An overflow cell with non-empty text has its key in the map, bound to that text. */
  lemma {:induction false} OverflowHasCell(texts: seq<string>, n: nat, j: nat)
    requires n <= |texts| && 4 <= j < n && texts[j] != ""
    ensures CellKey(j) in Overflow(texts, n) && Overflow(texts, n)[CellKey(j)] == texts[j]
  {
    if j < n - 1 {
      OverflowHasCell(texts, n - 1, j);
      CellKeysDistinct(j, n - 1);
      OverflowKeepsOtherKey(texts, n, CellKey(j));
    }
  }

  /** Every key of the overflow map belongs to an overflow cell with non-empty text. */
  lemma {:induction false} OverflowKeyFromCell(texts: seq<string>, n: nat, k: string)
    requires n <= |texts| && k in Overflow(texts, n)
    ensures exists j :: 4 <= j < n && k == CellKey(j) && texts[j] != ""
  {
    if k != CellKey(n - 1) || texts[n - 1] == "" {
      OverflowKeyFromCell(texts, n - 1, k);
    }
  }

  /**
   * The overflow map has exactly one key per overflow cell with non-empty
   * text, bound to that text, and no other key.
   */
  lemma OverflowContents(texts: seq<string>, n: nat)
    requires n <= |texts|
    ensures forall j :: 4 <= j < n ==> (CellKey(j) in Overflow(texts, n) <==> texts[j] != "")
    ensures forall j :: 4 <= j < n && texts[j] != "" ==> Overflow(texts, n)[CellKey(j)] == texts[j]
    ensures forall k :: k in Overflow(texts, n) ==> exists j :: 4 <= j < n && k == CellKey(j) && texts[j] != ""
  {
    var m := Overflow(texts, n);
    forall j | 4 <= j < n && texts[j] != ""
      ensures CellKey(j) in m && m[CellKey(j)] == texts[j]
    {
      OverflowHasCell(texts, n, j);
    }
    forall k | k in m
      ensures exists j :: 4 <= j < n && k == CellKey(j) && texts[j] != ""
    {
      OverflowKeyFromCell(texts, n, k);
    }
    forall j | 4 <= j < n && CellKey(j) in m
      ensures texts[j] != ""
    {
      OverflowKeyFromCell(texts, n, CellKey(j));
      var i :| 4 <= i < n && CellKey(j) == CellKey(i) && texts[i] != "";
      CellKeyInjective(i, j);
    }
  }

  /** The `extraData` property: the overflow map, or absent when it is empty. */
  function ExtraData(cells: seq<string>): Option<map<string, string>> {
    var extra := if |cells| > 4 then Overflow(CellTexts(cells), |cells|) else map[];
    if |extra| > 0 then Some(extra) else None
  }

  /**
   * The basic record of a row, or `None` (the closure's `null`) for a row with
   * fewer than four cells or a blank or header name.
   */
  function NormaliseRow(cells: seq<string>): Option<Company> {
    if |cells| < 4 then None
    else
      var name := Trim(cells[0]);
      var assetClass := Trim(cells[1]);
      var industry := Trim(cells[2]);
      var region := Trim(cells[3]);
      if IsHeaderOrBlank(name) then None
      else
        Some(Company(name, if assetClass == "" then "N/A" else assetClass,
                     Some(industry), Some(region), ExtraData(cells), None, None, None))
  }

  /**
   * A row yields no record exactly when it has fewer than four cells or a
   * blank or header name. A record's name, industry and region are the
   * trimmed cells 0, 2 and 3; its asset class is trimmed cell 1, or `"N/A"`
   * when that is empty; it carries the row's `extraData` and no flyout details.
   */
  lemma NormaliseRowSpec(cells: seq<string>)
    ensures |cells| < 4 ==> NormaliseRow(cells) == None
    ensures |cells| >= 4 ==> (NormaliseRow(cells) == None <==> IsHeaderOrBlank(Trim(cells[0])))
    ensures var r := NormaliseRow(cells);
      r.Some? ==>
      && r.value.name == Trim(cells[0])
      && (Trim(cells[1]) == "" ==> r.value.assetClass == "N/A")
      && (Trim(cells[1]) != "" ==> r.value.assetClass == Trim(cells[1]))
      && r.value.industry == Some(Trim(cells[2]))
      && r.value.region == Some(Trim(cells[3]))
      && r.value.extraData == ExtraData(cells)
      && r.value.description.None? && r.value.website.None? && r.value.headquarters.None?
  {
  }

  /**
   * `extraData` is present exactly when some cell after the fourth has
   * non-empty trimmed text; it then maps `column_{j+1}` to the trimmed text of
   * each such cell j and has no other keys.
   */
  lemma ExtraDataContents(cells: seq<string>)
    ensures var texts := CellTexts(cells);
      ExtraData(cells).Some? <==> exists j :: 4 <= j < |cells| && texts[j] != ""
    ensures var texts := CellTexts(cells);
      ExtraData(cells).Some? ==>
      var m := ExtraData(cells).value;
      && (forall j :: 4 <= j < |cells| ==> (CellKey(j) in m <==> texts[j] != ""))
      && (forall j :: 4 <= j < |cells| && texts[j] != "" ==> m[CellKey(j)] == texts[j])
      && (forall k :: k in m ==> exists j :: 4 <= j < |cells| && k == CellKey(j))
  {
    var texts := CellTexts(cells);
    if |cells| > 4 {
      OverflowContents(texts, |cells|);
      var m := Overflow(texts, |cells|);
      if exists j :: 4 <= j < |cells| && texts[j] != "" {
        var j :| 4 <= j < |cells| && texts[j] != "";
        assert CellKey(j) in m;
        assert |m| > 0;
      } else {
        assert m.Keys == {};
      }
    }
  }

  /** Every basic record carries a name the scraper accepts. */
  lemma NormalisedNameAccepted(cells: seq<string>)
    requires NormaliseRow(cells).Some?
    ensures !IsHeaderOrBlank(NormaliseRow(cells).value.name)
    ensures IsTrimmed(NormaliseRow(cells).value.name)
  {
    NormaliseRowSpec(cells);
    TrimShape(cells[0]);
  }

  /** The header row of the portfolio table yields no record. */
  lemma HeaderRowRejected(cells: seq<string>)
    requires |cells| >= 4 && cells[0] == "Name"
    ensures NormaliseRow(cells) == None
  {
    var name := "Name";
    assert IsTrimmed(name);
    TrimmedIsFixed(name);
    var lowered := Lower(name);
    assert lowered[0] == 'n' && lowered[1] == 'a' && lowered[2] == 'm' && lowered[3] == 'e';
    assert lowered == "name";
    assert IsHeaderOrBlank(Trim(cells[0]));
  }
}
