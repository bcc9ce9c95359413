/**
 * The scraping loops of `scrapeKKR`: the per-row sequence of browser steps
 * with its catch-all recovery, the harvest of one page, and the pagination
 * loop over the `data-search-page-index` row sets. The browser is replaced by
 * scripted outcomes: for each step, what it returns or whether it throws or
 * times out.
 */
module Harvest {
  import opened Wrappers
  import opened Company
  import opened RowNormaliser
  import opened Flyout

  /**
   * The scripted outcome of the browser steps for one row handle, in the
   * order the scraper takes them: reading the cell texts, clicking the row,
   * waiting for the flyout to show, reading the flyout (`None` when the
   * evaluation finds no shown flyout), and closing it (pressing Escape and
   * waiting for it to hide).
   */
  datatype RowScript = RowScript(
    cells: Attempt<seq<string>>,
    clickThrows: bool,
    flyoutAppears: bool,
    flyout: Attempt<Option<Panel>>,
    closeThrows: bool)

  /**
   * What processing one row did: the record appended to the run's list, if
   * any, and whether the catch block ran (logging a warning, pressing Escape
   * again and pausing before the next row).
   */
  datatype RowResult = RowResult(appended: Option<Company>, recovered: bool)

  /**
   * One iteration of the row loop. A throw or timeout before the push
   * appends nothing; a throw while closing comes after the push and keeps
   * the record; a row without a basic record is skipped without entering the
   * catch block.
   */
  function ProcessRow(row: RowScript): RowResult {
    match row.cells
    case Throws => RowResult(None, true)
    case Returns(cells) =>
      match NormaliseRow(cells)
      case None => RowResult(None, false)
      case Some(basic) =>
        if row.clickThrows || !row.flyoutAppears then RowResult(None, true)
        else
          match row.flyout
          case Throws => RowResult(None, true)
          case Returns(panel) => RowResult(Some(Enrich(basic, ReadFlyout(panel))), row.closeThrows)
  }

  /**
   * A row appends a record exactly when its cells were read and gave a basic
   * record and the click, the flyout wait and the flyout read all succeeded;
   * the record is the basic record enriched with the flyout's details. The
   * catch block runs exactly when the cell read threw, or a later step threw
   * for a row that had a basic record.
   */
  lemma ProcessRowSpec(row: RowScript)
    ensures var res := ProcessRow(row);
      res.appended.Some? <==>
      && row.cells.Returns? && NormaliseRow(row.cells.value).Some?
      && !row.clickThrows && row.flyoutAppears && row.flyout.Returns?
    ensures var res := ProcessRow(row);
      res.appended.Some? ==>
      res.appended.value == Enrich(NormaliseRow(row.cells.value).value, ReadFlyout(row.flyout.value))
    ensures ProcessRow(row).recovered <==>
      || row.cells.Throws?
      || (NormaliseRow(row.cells.value).Some? &&
          (row.clickThrows || !row.flyoutAppears || row.flyout.Throws? || row.closeThrows))
  {
  }

  /** A failing close never costs a row its record. */
  lemma CloseFailureKeepsRecord(row: RowScript)
    ensures ProcessRow(row.(closeThrows := true)).appended == ProcessRow(row.(closeThrows := false)).appended
  {
  }

  /** The records a page's rows append, in row order. */
  function PageRecords(rows: seq<RowScript>): seq<Company> {
    if rows == [] then []
    else
      var last := ProcessRow(rows[|rows| - 1]).appended;
      PageRecords(rows[..|rows| - 1]) + (if last.Some? then [last.value] else [])
  }

  /** Every record of a page comes from a row whose processing appended exactly it. */
  lemma {:induction false} PageRecordsFromRows(rows: seq<RowScript>)
    ensures forall c :: c in PageRecords(rows) ==> exists i :: 0 <= i < |rows| && ProcessRow(rows[i]).appended == Some(c)
  {
    if rows != [] {
      var front := rows[..|rows| - 1];
      PageRecordsFromRows(front);
      forall c | c in PageRecords(rows)
        ensures exists i :: 0 <= i < |rows| && ProcessRow(rows[i]).appended == Some(c)
      {
        if c in PageRecords(front) {
          var i :| 0 <= i < |front| && ProcessRow(front[i]).appended == Some(c);
          assert rows[i] == front[i];
        } else {
          assert ProcessRow(rows[|rows| - 1]).appended == Some(c);
        }
      }
    }
  }

  /** No record of a page has a blank or header name. */
  lemma PageRecordsAcceptedNames(rows: seq<RowScript>)
    ensures forall c :: c in PageRecords(rows) ==> !IsHeaderOrBlank(c.name)
  {
    PageRecordsFromRows(rows);
    forall c | c in PageRecords(rows)
      ensures !IsHeaderOrBlank(c.name)
    {
      var i :| 0 <= i < |rows| && ProcessRow(rows[i]).appended == Some(c);
      ProcessRowSpec(rows[i]);
      NormalisedNameAccepted(rows[i].cells.value);
    }
  }

  /**
   * The `for` loop over a page's row handles: appends each row's record to
   * `allCompanies` and counts the records in `scrapedOnThisPage`.
   */
  method HarvestPage(rows: seq<RowScript>, allCompanies: seq<Company>)
    returns (companies: seq<Company>, scrapedOnThisPage: nat)
    ensures companies == allCompanies + PageRecords(rows)
    ensures scrapedOnThisPage == |PageRecords(rows)|
  {
    companies := allCompanies;
    scrapedOnThisPage := 0;
    for i := 0 to |rows|
      invariant companies == allCompanies + PageRecords(rows[..i])
      invariant scrapedOnThisPage == |PageRecords(rows[..i])|
    {
      assert rows[..i + 1][..i] == rows[..i];
      var result := ProcessRow(rows[i]);
      if result.appended.Some? {
        companies := companies + [result.appended.value];
        scrapedOnThisPage := scrapedOnThisPage + 1;
      }
    }
    assert rows[..|rows|] == rows;
  }

  /**
   * The scripted outcome for the rows tagged with one page index: whether
   * they appear within the wait, the row handles found, whether the next
   * arrow is present, and whether clicking its parent throws.
   */
  datatype PageScript = PageScript(appears: bool, rows: seq<RowScript>, nextArrow: bool, clickThrows: bool)

  /**
   * The site as the scraper sees it after navigating: whether navigation
   * fails, and the row sets for page indexes 1 .. |pages| (`pages[i - 1]` is
   * index i). No row set with a larger index ever appears.
   */
  datatype Site = Site(navigationFails: bool, pages: seq<PageScript>)

  /** The rows tagged with page index `i` appear within the wait. */
  predicate Appears(site: Site, i: nat) {
    1 <= i <= |site.pages| && site.pages[i - 1].appears
  }

  /** After harvesting page `i` the loop clicks through to index `i + 1`. */
  predicate Advances(site: Site, i: nat)
    requires Appears(site, i)
  {
    site.pages[i - 1].nextArrow && !site.pages[i - 1].clickThrows
  }

  /** The page indexes the loop harvests when it reaches index `i`. */
  function PagesFrom(site: Site, i: nat): seq<nat>
    decreases |site.pages| + 1 - i
  {
    if !Appears(site, i) then []
    else if !Advances(site, i) then [i]
    else [i] + PagesFrom(site, i + 1)
  }

  /** The page indexes a run harvests, starting from index 1. */
  function HarvestedPages(site: Site): seq<nat> {
    PagesFrom(site, 1)
  }

  /** The row handles of page index `i`; an index outside the site has none. */
  function PageRows(site: Site, i: nat): seq<RowScript> {
    if 1 <= i <= |site.pages| then site.pages[i - 1].rows else []
  }

  /** The concatenation of the records of the given pages, in the given order. */
  function ConcatPages(site: Site, indexes: seq<nat>): seq<Company> {
    if indexes == [] then []
    else ConcatPages(site, indexes[..|indexes| - 1]) + PageRecords(PageRows(site, indexes[|indexes| - 1]))
  }

  /** The harvested pages are consecutive from the starting index, each one appearing. */
  lemma {:induction false} PagesFromConsecutive(site: Site, i: nat)
    ensures forall k :: 0 <= k < |PagesFrom(site, i)| ==> PagesFrom(site, i)[k] == i + k && Appears(site, i + k)
    decreases |site.pages| + 1 - i
  {
    if Appears(site, i) && Advances(site, i) {
      PagesFromConsecutive(site, i + 1);
      var ps := PagesFrom(site, i);
      assert ps == [i] + PagesFrom(site, i + 1);
      forall k | 1 <= k < |ps|
        ensures ps[k] == i + k && Appears(site, i + k)
      {
        assert ps[k] == PagesFrom(site, i + 1)[k - 1];
      }
    }
  }

  /**
   * Why the loop stops: every harvested page but the last advanced, and the
   * run ends at the first index whose rows do not appear, or at a page with no
   * next arrow or whose click throws.
   */
  lemma {:induction false} PagesFromStop(site: Site, i: nat)
    ensures var ps := PagesFrom(site, i);
      && (forall p :: i <= p < i + |ps| - 1 ==> Appears(site, p) && Advances(site, p))
      && (ps == [] <==> !Appears(site, i))
      && (ps != [] ==> Appears(site, i + |ps| - 1) &&
                       (!Advances(site, i + |ps| - 1) || !Appears(site, i + |ps|)))
    decreases |site.pages| + 1 - i
  {
    if Appears(site, i) && Advances(site, i) {
      PagesFromStop(site, i + 1);
      PagesFromConsecutive(site, i + 1);
    }
  }

  /** The harvested pages of a run are exactly 1 .. k, and each lies within the site. */
  lemma HarvestedPagesAreOneToK(site: Site)
    ensures forall k :: 0 <= k < |HarvestedPages(site)| ==> HarvestedPages(site)[k] == k + 1
    ensures forall k :: 0 <= k < |HarvestedPages(site)| ==> 1 <= HarvestedPages(site)[k] <= |site.pages|
  {
    PagesFromConsecutive(site, 1);
  }

  /** A run over pages 1 and 2 that both click through ends without error when index 3 never appears. */
  lemma PaginationStopsAtMissingIndex(site: Site)
    requires Appears(site, 1) && Advances(site, 1) && Appears(site, 2) && Advances(site, 2)
    requires !Appears(site, 3)
    ensures HarvestedPages(site) == [1, 2]
  {
    assert PagesFrom(site, 3) == [];
    assert PagesFrom(site, 2) == [2];
  }

  /** The records of a run: the per-page lists of the harvested pages, concatenated in page order. */
  function SiteRecords(site: Site): seq<Company> {
    ConcatPages(site, HarvestedPages(site))
  }

  /** No record of a run has a blank or header name. */
  lemma SiteRecordsAcceptedNames(site: Site)
    ensures forall c :: c in SiteRecords(site) ==> !IsHeaderOrBlank(c.name)
  {
    ConcatPagesAcceptedNames(site, HarvestedPages(site));
  }

  lemma {:induction false} ConcatPagesAcceptedNames(site: Site, indexes: seq<nat>)
    ensures forall c :: c in ConcatPages(site, indexes) ==> !IsHeaderOrBlank(c.name)
  {
    if indexes != [] {
      PageRecordsAcceptedNames(PageRows(site, indexes[|indexes| - 1]));
      ConcatPagesAcceptedNames(site, indexes[..|indexes| - 1]);
    }
  }

  /** Harvesting page `i` after the pages of a run appends page `i`'s records to the run's list. */
  lemma ConcatPagesSnoc(site: Site, pages: seq<nat>, i: nat)
    ensures ConcatPages(site, pages + [i]) == ConcatPages(site, pages) + PageRecords(PageRows(site, i))
  {
    assert (pages + [i])[..|pages|] == pages;
  }

  /** The run goes on from `i + 1` after page `i` exactly when page `i` advances. */
  lemma PagesFromStep(site: Site, pages: seq<nat>, i: nat)
    requires Appears(site, i)
    requires HarvestedPages(site) == pages + PagesFrom(site, i)
    ensures Advances(site, i) ==> HarvestedPages(site) == (pages + [i]) + PagesFrom(site, i + 1)
    ensures !Advances(site, i) ==> HarvestedPages(site) == pages + [i]
  {
    if Advances(site, i) {
      assert pages + ([i] + PagesFrom(site, i + 1)) == (pages + [i]) + PagesFrom(site, i + 1);
    }
  }

  /**
   * The `while (true)` loop of `scrapeKKR`: wait for the rows of
   * `currentPageIndex`, harvest them, and click through to the next index
   * until the rows do not appear, the next arrow is missing, or the click
   * throws. `pages` records the indexes harvested.
   */
  method Paginate(site: Site) returns (allCompanies: seq<Company>, ghost pages: seq<nat>)
    ensures pages == HarvestedPages(site)
    ensures allCompanies == SiteRecords(site)
  {
    allCompanies := [];
    pages := [];
    var currentPageIndex := 1;
    while true
      invariant 1 <= currentPageIndex
      invariant HarvestedPages(site) == pages + PagesFrom(site, currentPageIndex)
      invariant allCompanies == ConcatPages(site, pages)
      decreases |site.pages| + 1 - currentPageIndex
    {
      if !Appears(site, currentPageIndex) {
        assert PagesFrom(site, currentPageIndex) == [];
        assert pages + [] == pages;
        break;
      }
      var page := site.pages[currentPageIndex - 1];
      var scrapedOnThisPage;
      allCompanies, scrapedOnThisPage := HarvestPage(page.rows, allCompanies);
      ConcatPagesSnoc(site, pages, currentPageIndex);
      PagesFromStep(site, pages, currentPageIndex);
      pages := pages + [currentPageIndex];
      if !page.nextArrow {
        break;
      }
      if page.clickThrows {
        break;
      }
      currentPageIndex := currentPageIndex + 1;
    }
  }
}
