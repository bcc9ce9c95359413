/** The HTTP controller over the scraper service: trigger a run, query the stored companies. */
module Controller {
  import opened Wrappers
  import opened Company
  import opened Store
  import opened Harvest
  import opened Scraper

  /** The body returned by a completed scrape. */
  datatype ScrapeResponse = ScrapeResponse(message: string, count: nat)

  const ScrapeMessage: string := "Scraping completed successfully"

  /**
   * The filter of `getCompanies`: `region` and `industry` are set from the
   * query parameters that are present and non-empty, and nothing else is.
   */
  function CompaniesFilter(region: Option<string>, industry: Option<string>): (f: map<string, string>)
    ensures "region" in f <==> region.Some? && region.value != ""
    ensures "region" in f ==> f["region"] == region.value
    ensures "industry" in f <==> industry.Some? && industry.value != ""
    ensures "industry" in f ==> f["industry"] == industry.value
    ensures f.Keys <= {"region", "industry"}
  {
    var filter := map[];
    var filter := if region.Some? && region.value != "" then filter["region" := region.value] else filter;
    if industry.Some? && industry.value != "" then filter["industry" := industry.value] else filter
  }

  /** With neither parameter given, or both empty, the filter is empty. */
  lemma EmptyFilterWithoutParameters()
    ensures CompaniesFilter(None, None) == map[]
    ensures CompaniesFilter(Some(""), Some("")) == map[]
  {
  }

  /** The query of the controller's test yields the filter with both properties. */
  lemma FilterOfBothParameters()
    ensures CompaniesFilter(Some("Americas"), Some("Technology")) == map["region" := "Americas", "industry" := "Technology"]
  {
  }

  class PortfolioController {
    const scraperService: ScraperService

    constructor(scraperService: ScraperService)
      ensures this.scraperService == scraperService
    {
      this.scraperService := scraperService;
    }

    /** `POST /portfolio/scrape`: runs the scraper and reports how many companies it returned. */
    method Scrape(site: Site, failingCalls: set<nat>) returns (r: Result<ScrapeResponse, ScrapeError>)
      requires scraperService.Valid()
      modifies scraperService
      ensures scraperService.Valid()
      ensures r.Err? <==> site.navigationFails
      ensures r.Err? ==> r.error == NavigationFailed
      ensures r.Ok? ==> r.value == ScrapeResponse(ScrapeMessage, |SiteRecords(site)|)
      ensures r.Ok? ==> scraperService.store == SavedStore(old(scraperService.store), SiteRecords(site), failingCalls)
      ensures r.Err? ==> scraperService.store == old(scraperService.store)
      ensures !scraperService.browserOpen
      ensures scraperService.events ==
        old(scraperService.events) + [Launched] + (if r.Ok? then [Saved(SiteRecords(site))] else []) + [Closed]
    {
      var results := scraperService.ScrapeKKR(site, failingCalls);
      match results
      case Err(e) =>
        r := Err(e);
      case Ok(companies) =>
        r := Ok(ScrapeResponse(ScrapeMessage, |companies|));
    }

    /**
     * `GET /portfolio`: the stored companies whose region and industry equal
     * the non-empty query parameters; an absent or empty parameter constrains nothing.
     */
    function GetCompanies(region: Option<string>, industry: Option<string>): (r: set<Company>)
      reads this, scraperService
      ensures r == scraperService.FindAll(CompaniesFilter(region, industry))
      ensures forall c :: c in r <==>
        && c in scraperService.store.Values
        && (region.Some? && region.value != "" ==> c.region == region)
        && (industry.Some? && industry.value != "" ==> c.industry == industry)
    {
      var filter := CompaniesFilter(region, industry);
      var found := scraperService.FindAll(filter);
      assert forall c :: Matches(c, filter) <==>
        && (region.Some? && region.value != "" ==> c.region == region)
        && (industry.Some? && industry.value != "" ==> c.industry == industry)
      by {
        forall c ensures Matches(c, filter) <==>
          && (region.Some? && region.value != "" ==> c.region == region)
          && (industry.Some? && industry.value != "" ==> c.industry == industry)
        {
          if region.Some? && region.value != "" {
            assert Field(c, "region") == c.region;
          }
          if industry.Some? && industry.value != "" {
            assert Field(c, "industry") == c.industry;
          }
        }
      }
      found
    }
  }
}
