/**
 * The scraper service: a browser session driven through the portfolio
 * pages, and the company collection it saves into and queries.
 */
module Scraper {
  import opened Wrappers
  import opened Company
  import opened Store
  import opened Harvest

  /** The one error a run rethrows: the initial navigation failed or timed out. */
  datatype ScrapeError = NavigationFailed

  /** The externally visible steps of the service: a browser launched, a batch saved, the browser closed. */
  datatype Event = Launched | Saved(companies: seq<Company>) | Closed

  /** What a run returns: the harvested records, or the rethrown navigation error. */
  function ScrapeOutcome(site: Site): (r: Result<seq<Company>, ScrapeError>)
    ensures r.Err? <==> site.navigationFails
    ensures r.Ok? ==> r.value == SiteRecords(site)
  {
    if site.navigationFails then Err(NavigationFailed) else Ok(SiteRecords(site))
  }

  /** A successful run returns only records with accepted names. */
  lemma ScrapeOutcomeAcceptedNames(site: Site)
    requires ScrapeOutcome(site).Ok?
    ensures forall c :: c in ScrapeOutcome(site).value ==> !IsHeaderOrBlank(c.name)
  {
    SiteRecordsAcceptedNames(site);
  }

  /** With the empty filter, `findAll` returns every stored document. */
  lemma FindAllUnfiltered(service: ScraperService)
    ensures service.FindAll(map[]) == service.store.Values
  {
    assert forall c :: Matches(c, map[]);
  }

  class ScraperService {
    /** The company collection behind the `companyModel`. */
    var store: Collection
    /** Whether a browser launched by this service is still open. */
    var browserOpen: bool
    /** The launches, saves and closes performed so far, in order. */
    ghost var events: seq<Event>

    /**
     * Every document sits under its own name. This is what lets the lookup
     * `store[c.name]` in `Store.Upsert` stand for the `{ name: company.name }`
     * filter of `findOneAndUpdate`.
     */
    ghost predicate Valid()
      reads this
    {
      KeyedByName(store)
    }

    constructor(initial: Collection)
      requires KeyedByName(initial)
      ensures Valid() && store == initial && !browserOpen && events == []
    {
      store := initial;
      browserOpen := false;
      events := [];
    }

    /** `findAll(filter)`: the stored documents that match the equality filter. */
    function FindAll(filter: map<string, string>): (r: set<Company>)
      reads this
      ensures forall c :: c in r <==> c in store.Values && Matches(c, filter)
    {
      set n | n in store && Matches(store[n], filter) :: store[n]
    }

    /**
     * `saveCompanies`: upserts the companies one by one, in order. Call number
     * k (from 0) throws when k is in `failingCalls`; the single `try` around
     * the loop catches it and abandons the rest of the batch.
     */
    method SaveCompanies(companies: seq<Company>, failingCalls: set<nat>)
      requires Valid()
      modifies this`store, this`events
      ensures Valid()
      ensures store == SavedStore(old(store), companies, failingCalls)
      ensures events == old(events) + [Saved(companies)]
    {
      events := events + [Saved(companies)];
      ghost var attempted := FirstFailure(failingCalls, 0, |companies|);
      var i := 0;
      while i < |companies|
        invariant i <= attempted
        invariant store == UpsertAll(old(store), companies[..i])
        invariant events == old(events) + [Saved(companies)]
      {
        if i in failingCalls {
          break;
        }
        UpsertAllStep(old(store), companies, i);
        store := Upsert(store, companies[i]);
        i := i + 1;
      }
      assert i == attempted;
      UpsertAllKeyedByName(old(store), companies[..attempted]);
    }

    /**
     * `scrapeKKR`: launches the browser, navigates to the portfolio page,
     * harvests every page, saves the whole list once and returns it. A failed
     * navigation is rethrown. The browser is closed on every exit path.
     */
    method ScrapeKKR(site: Site, failingCalls: set<nat>) returns (r: Result<seq<Company>, ScrapeError>)
      requires Valid()
      modifies this
      ensures Valid()
      ensures r == ScrapeOutcome(site)
      ensures r.Ok? ==> store == SavedStore(old(store), r.value, failingCalls)
      ensures r.Err? ==> store == old(store)
      ensures !browserOpen
      ensures events == old(events) + [Launched] + (if r.Ok? then [Saved(r.value)] else []) + [Closed]
    {
      events := events + [Launched];
      browserOpen := true;
      if site.navigationFails {
        // finally: the browser is closed before the error is rethrown
        browserOpen := false;
        events := events + [Closed];
        return Err(NavigationFailed);
      }
      var allCompanies;
      ghost var pages;
      allCompanies, pages := Paginate(site);
      SaveCompanies(allCompanies, failingCalls);
      // finally
      browserOpen := false;
      events := events + [Closed];
      r := Ok(allCompanies);
    }
  }
}
