# KKR portfolio scraper — a Dafny model

This project models the scraping core of a NestJS service that harvests the
KKR investment-portfolio table. The service drives a headless browser through
the table's pages, one `data-search-page-index` row set at a time. It turns
each row into a company record and opens each company's detail flyout to add
a description, a website and a headquarters line. It then saves the records
with one upsert per company, keyed by its name. An HTTP controller triggers a run and
queries the stored companies by region and industry.

The browser and the database are replaced by scripted outcomes. For each
browser step the model is given what the step returns, or whether it throws
or times out. Each upsert either succeeds or throws. Given those outcomes,
everything else is deterministic, and the model states what follows from
them, within the limits listed under "Left out":

- `RowNormaliser`: the closure that maps a row's cell texts to a basic record.
  It trims the cells, needs at least four of them, and rejects blank and
  header names. A blank asset class becomes `"N/A"`. Overflow cells go into
  `extraData` under positional `column_N` keys.
- `Flyout`: reading the shown flyout. The website is the link of the last
  general-details `div` that has one. The headquarters line loses a leading
  `Headquarters`/`HQ` label, matched in any letter case, plus an optional
  `:` and the white space after it.
- `Harvest`: the row loop and the pagination loop of `scrapeKKR`, as
  imperative methods proved against specification functions.
- `Store`: upsert-by-name and equality filters over the company collection.
- `Scraper`: the `ScraperService` class. It holds the collection, the
  browser's open/closed state and a ghost log of launches, saves and closes.
- `Controller`: the `PortfolioController` class, with its filter builder and
  its scrape response.
- `Text` and `Wrappers`: JavaScript's `trim()` and `\s`, ASCII lower-casing,
  decimal rendering of numbers, and `Option`/`Attempt`/`Result`.

Modelling choices:

- White space is the full ECMAScript WhiteSpace and LineTerminator set.
  JavaScript's `trim()` and the regular-expression class `\s` both use this
  set.
- Lower-casing is ASCII only. The model compares lower-cased text only with
  the fixed words `company`, `name`, `headquarters` and `hq`. The `/i` flag
  without `u` never folds a non-ASCII character into ASCII. No non-ASCII
  character lowers to a letter of `company` or `name`. So ASCII lowering
  decides these comparisons as JavaScript does.
- The model follows the code. Four consequences a reader might not expect:
  - A row whose flyout wait times out, or whose click or flyout read throws,
    is dropped entirely (scraper.service.ts:102-113, 173-187). The catch
    block logs "Skipping details", but the push at line 156 was never
    reached, so no basic record is kept.
  - A flyout element that is missing gives `""`, not an absent property
    (lines 121-123, 126 and 141).
  - `industry` and `region` of a scraped record are always present, possibly
    as `""` (lines 77-78 and 96-97).
  - A failing upsert ends the whole batch, because a single `try` surrounds
    the loop (lines 234-248).
- Upsert semantics: the model lets an update set every property the company
  defines and keep the stored value of every property it leaves undefined
  (Mongoose's `$set` wrapping). `Store.Agrees`, `Store.UpsertAllKeys` and
  `Store.UpsertAllOthersUnchanged` hold under replace semantics too.
- Page indexes above `|site.pages|` never appear. This bound is what makes
  the pagination loop terminate.

## Model

| member | source | states |
|---|---|---|
| Text.IsSpace | src/portfolio/scraper.service.ts:75 | the ECMAScript WhiteSpace and LineTerminator characters that `trim()` and `\s` remove; `Text.TrimStart`, `Text.TrimEnd` and `Text.TrimEmptyIff` state what is removed in its terms |
| Text.TrimStart | src/portfolio/scraper.service.ts:75 | the result is a suffix of the input, the dropped characters are all white space, and it is empty or starts with a non-space |
| Text.TrimEnd | src/portfolio/scraper.service.ts:75 | the result is a prefix of the input, the dropped characters are all white space, and it is empty or ends with a non-space |
| Text.Trim | src/portfolio/scraper.service.ts:75-78 | JavaScript's `trim()`: both ends stripped of white space; its properties are stated by `Text.TrimShape`, `Text.TrimmedIsFixed`, `Text.TrimIdempotent` and `Text.TrimEmptyIff` |
| Text.TrimShape | src/portfolio/scraper.service.ts:75-78 | a trimmed text has no white space at either end |
| Text.TrimmedIsFixed | src/portfolio/scraper.service.ts:145 | trimming a text that has no white space at its ends changes nothing |
| Text.TrimEmptyIff | src/portfolio/scraper.service.ts:75-81 | a cell trims to the empty string exactly when it is all white space, which is the `!name` rejection |
| Text.LowerChar | src/portfolio/scraper.service.ts:80 | an ASCII capital maps to its small letter, 32 code points on; every other character is unchanged |
| Text.Lower | src/portfolio/scraper.service.ts:80 | `toLowerCase()` over ASCII: same length, each character lowered by `Text.LowerChar` |
| Text.StartsWithIgnoreCase | src/portfolio/scraper.service.ts:145 | the `/i` match of a label at the start of the line: the first characters, lowered, are the label; `Flyout.StripLabelHeadquarters` and `Flyout.StripLabelHq` state its effect |
| Text.NatToString | src/portfolio/scraper.service.ts:88 | the `${index + 5}` rendering of a number; `Text.ParseNatToString` states that it reads back |
| Text.TrimIdempotent | src/portfolio/scraper.service.ts:141-146 | trimming an already trimmed text changes nothing, so the second `trim()` at line 145 is harmless |
| Text.ParseNatToString | src/portfolio/scraper.service.ts:88 | reading back the digits of a number gives the number |
| Text.NatToStringInjective | src/portfolio/scraper.service.ts:88 | distinct column numbers render to distinct key suffixes |
| Company.IsHeaderOrBlank | src/portfolio/scraper.service.ts:80-81 | the rejection test: the name lowered is `company` or `name`, or it is empty; `RowNormaliser.NormaliseRowSpec` states that exactly these rows give no record |
| RowNormaliser.CellKey | src/portfolio/scraper.service.ts:85-88 | the key `column_${index + 5}` of cell j = index + 4; its distinctness is stated by `RowNormaliser.CellKeyInjective` |
| RowNormaliser.CellTexts | src/portfolio/scraper.service.ts:75-86 | the trimmed text of every cell, one per cell in order |
| RowNormaliser.Overflow | src/portfolio/scraper.service.ts:83-91 | the overflow map after the `forEach` has visited the cells before n; its contents are stated by `RowNormaliser.OverflowContents` |
| RowNormaliser.ExtraData | src/portfolio/scraper.service.ts:83-98 | the `extraData` property; its contents are stated by `RowNormaliser.ExtraDataContents` |
| RowNormaliser.NormaliseRow | src/portfolio/scraper.service.ts:71-100 | the row closure; its behaviour is stated by `RowNormaliser.NormaliseRowSpec`, `RowNormaliser.NormalisedNameAccepted` and `RowNormaliser.HeaderRowRejected` |
| RowNormaliser.CellKeyInjective | src/portfolio/scraper.service.ts:85-88 | cells whose `column_N` keys are equal are the same cell |
| RowNormaliser.CellKeysDistinct | src/portfolio/scraper.service.ts:85-88 | distinct cells get distinct `column_N` keys, so no overflow write overwrites another |
| RowNormaliser.OverflowKeepsOtherKey | src/portfolio/scraper.service.ts:83-91 | a later overflow cell never removes or rebinds the key of an earlier one |
| RowNormaliser.OverflowHasCell | src/portfolio/scraper.service.ts:83-91 | every overflow cell whose trimmed text is non-empty ends with its key bound to that text |
| RowNormaliser.OverflowKeyFromCell | src/portfolio/scraper.service.ts:83-91 | every key of the overflow map comes from an overflow cell with non-empty trimmed text |
| RowNormaliser.OverflowContents | src/portfolio/scraper.service.ts:83-91 | the overflow map has exactly one key per non-blank overflow cell, bound to its trimmed text, and no other key |
| RowNormaliser.NormaliseRowSpec | src/portfolio/scraper.service.ts:71-100 | no record for fewer than 4 cells or a blank/header name and a record otherwise; name, industry and region are the trimmed cells 0, 2 and 3; asset class is trimmed cell 1 or `"N/A"` when that is empty; no flyout fields |
| RowNormaliser.ExtraDataContents | src/portfolio/scraper.service.ts:83-98 | `extraData` is present exactly when some cell after the fourth is non-blank; it then maps `column_{j+1}` to trimmed cell j for each such cell and has no other key |
| RowNormaliser.NormalisedNameAccepted | src/portfolio/scraper.service.ts:75-81 | a produced record's name is neither blank nor a header word and has no white space at its ends |
| RowNormaliser.HeaderRowRejected | src/portfolio/scraper.service.ts:80-81 | a row whose first cell is `Name` yields no record |
| Flyout.ScanWebsite | src/portfolio/scraper.service.ts:126-137 | the `forEach` that overwrites `website` with each link; its result is stated by `Flyout.ScanWebsiteIsLastLink` |
| Flyout.Website | src/portfolio/scraper.service.ts:126-137 | the website of a flyout; its value is stated by `Flyout.WebsiteIsLastLink` |
| Flyout.ScanWebsiteIsLastLink | src/portfolio/scraper.service.ts:126-137 | the `forEach` over the divs ends with the link of the last div that has one, or with its start value when none has |
| Flyout.LastLinkExists | src/portfolio/scraper.service.ts:127-137 | when some div has a link, there is a last div with a link |
| Flyout.WebsiteIsLastLink | src/portfolio/scraper.service.ts:126-137 | the website is `""` when no div has a link, and otherwise the link of the last div that has one |
| Flyout.HeadquartersMissing | src/portfolio/scraper.service.ts:140-141 | a flyout without a headquarters line gives `""` |
| Flyout.HeadquartersUnlabelled | src/portfolio/scraper.service.ts:140-146 | a line without a leading label comes back trimmed and otherwise unchanged |
| Flyout.DropColon | src/portfolio/scraper.service.ts:145 | the `:?` of the label pattern: one leading `:` dropped if present |
| Flyout.AfterLabel | src/portfolio/scraper.service.ts:145 | the `:?\s*` of the label pattern; `Flyout.HeadquartersAfter` states that the final `trim()` absorbs its `\s*` |
| Flyout.StripLabel | src/portfolio/scraper.service.ts:145 | the `replace` of a leading `Headquarters` or `HQ` label, matched in any case; its effect is stated by `Flyout.StripLabelHeadquarters`, `Flyout.StripLabelHq` and `Flyout.HeadquartersUnlabelled` |
| Flyout.Headquarters | src/portfolio/scraper.service.ts:140-146 | the headquarters value; it is stated by `Flyout.HeadquartersMissing`, `Flyout.HeadquartersUnlabelled`, `Flyout.HeadquartersLabelledFull`, `Flyout.HeadquartersLabelledHq` and `Flyout.HeadquartersTrimmed` |
| Flyout.HqIsNotHeadquarters | src/portfolio/scraper.service.ts:145 | a text starting with `HQ` in any case cannot start with `Headquarters`, so the two alternatives never both match |
| Flyout.StripLabelHeadquarters | src/portfolio/scraper.service.ts:145 | proof step, unfolding the definition: on a text starting with `Headquarters` in any case the pattern removes those 12 characters, an optional `:` and the white space after it |
| Flyout.StripLabelHq | src/portfolio/scraper.service.ts:145 | on a text starting with `HQ` in any case the pattern removes those 2 characters, an optional `:` and the white space after it |
| Flyout.HeadquartersAfter | src/portfolio/scraper.service.ts:141-146 | when the pattern removes the first n characters, the value is the rest without its `:`, trimmed |
| Flyout.HeadquartersLabelledFull | src/portfolio/scraper.service.ts:140-146 | a line starting with `Headquarters` in any case comes back as the rest after the label and an optional `:`, trimmed |
| Flyout.HeadquartersLabelledHq | src/portfolio/scraper.service.ts:140-146 | a line starting with `HQ` in any case comes back as the rest after the label and an optional `:`, trimmed |
| Flyout.TrimStartThenTrim | src/portfolio/scraper.service.ts:145 | the `\s*` of the label pattern followed by `trim()` is one trim of the rest |
| Flyout.HeadquartersTrimmed | src/portfolio/scraper.service.ts:141-146 | the headquarters value never has white space at either end |
| Flyout.ReadFlyout | src/portfolio/scraper.service.ts:113-149 | `null` exactly when no shown flyout is found; otherwise the trimmed description or `""`, the website of the divs, and the de-labelled headquarters line or `""` when there is none |
| Flyout.Enrich | src/portfolio/scraper.service.ts:151-154 | with no details the record is the basic record unchanged; with details it is the basic record with description, website and headquarters set to them |
| Harvest.ProcessRow | src/portfolio/scraper.service.ts:69-187 | one iteration of the row loop; its behaviour is stated by `Harvest.ProcessRowSpec` and `Harvest.CloseFailureKeepsRecord` |
| Harvest.ProcessRowSpec | src/portfolio/scraper.service.ts:69-187 | a record is appended exactly when the cells were read, gave a basic record, and the click, the flyout wait and the flyout read all succeeded; the appended record is the enriched basic record; the catch block runs exactly when a step threw for a row with a basic record or the cell read threw |
| Harvest.CloseFailureKeepsRecord | src/portfolio/scraper.service.ts:156-165 | a throw while closing the flyout does not change what the row appends |
| Harvest.PageRecords | src/portfolio/scraper.service.ts:68-188 | the records a page's rows append, in row order; `Harvest.HarvestPage` is proved to compute it and `Harvest.PageRecordsFromRows` states where each comes from |
| Harvest.PageRecordsFromRows | src/portfolio/scraper.service.ts:68-188 | every record of a page is exactly what some row of that page appended |
| Harvest.PageRecordsAcceptedNames | src/portfolio/scraper.service.ts:68-102 | no record of a page has a blank or header name |
| Harvest.HarvestPage | src/portfolio/scraper.service.ts:66-188 | the row loop appends the page's records in row order, and `scrapedOnThisPage` is their number |
| Harvest.Appears | src/portfolio/scraper.service.ts:50-59 | the wait for the rows of an index succeeds; an index outside the site never appears |
| Harvest.Advances | src/portfolio/scraper.service.ts:193-210 | the next arrow is found and clicking its parent does not throw; `Harvest.PagesFromStep` and `Harvest.PagesFromStop` state how it continues and ends the run |
| Harvest.PagesFrom | src/portfolio/scraper.service.ts:47-213 | the page indexes the loop harvests from index i on; stated by `Harvest.PagesFromConsecutive` and `Harvest.PagesFromStop` |
| Harvest.HarvestedPages | src/portfolio/scraper.service.ts:45-213 | the page indexes of a run, from index 1; stated by `Harvest.HarvestedPagesAreOneToK` |
| Harvest.PagesFromConsecutive | src/portfolio/scraper.service.ts:45-213 | the pages harvested from index i are i, i+1, … with the counter raised by one per iteration, and each one appeared |
| Harvest.PagesFromStop | src/portfolio/scraper.service.ts:47-213 | every harvested page but the last clicked through; the run ends at the first index whose rows do not appear, or at a page with no next arrow or whose click throws |
| Harvest.PaginationStopsAtMissingIndex | src/portfolio/scraper.service.ts:50-59 | when index 3 never appears after pages 1 and 2, exactly pages 1 and 2 are harvested |
| Harvest.HarvestedPagesAreOneToK | src/portfolio/scraper.service.ts:45-213 | the harvested pages of a run are exactly 1..k in increasing order |
| Harvest.ConcatPages | src/portfolio/scraper.service.ts:44-214 | the records of the given pages concatenated in their order, as `allCompanies` collects them across pages; `Harvest.ConcatPagesSnoc` states one page's step |
| Harvest.SiteRecords | src/portfolio/scraper.service.ts:44-214 | the records of a run: the harvested pages' records in page order; `Harvest.Paginate` is proved to compute it |
| Harvest.ConcatPagesSnoc | src/portfolio/scraper.service.ts:44-214 | proof step, unfolding the definition: harvesting one more page appends exactly that page's records to the run's list |
| Harvest.PagesFromStep | src/portfolio/scraper.service.ts:192-213 | proof step, unfolding the definition: after harvesting page i the run continues from i+1 when page i clicks through, and otherwise ends with page i |
| Harvest.ConcatPagesAcceptedNames | src/portfolio/scraper.service.ts:68-102 | no record of any harvested page has a blank or header name |
| Harvest.SiteRecordsAcceptedNames | src/portfolio/scraper.service.ts:44-214 | no record of a run has a blank or header name |
| Harvest.Paginate | src/portfolio/scraper.service.ts:44-214 | the pagination loop returns the concatenation of the harvested pages' records in page order, and harvests exactly the pages `HarvestedPages` gives |
| Store.Override | src/portfolio/scraper.service.ts:236-242 | one property under `$set`: the given value when the update defines it, the stored one otherwise |
| Store.MergeInto | src/portfolio/scraper.service.ts:236-242 | the stored document after a `$set` update with a company: name and asset class from the company, every other property by `Store.Override`; `Store.Upsert` states what it guarantees |
| Store.Upsert | src/portfolio/scraper.service.ts:236-242 | only the document named by the company changes; it is created from, or updated to hold, every property the company defines |
| Store.UpsertIdempotent | src/portfolio/scraper.service.ts:236-242 | upserting the same company twice leaves the collection as upserting it once |
| Store.UpsertAll | src/portfolio/scraper.service.ts:235-243 | the upserts of a batch in order; stated by `Store.UpsertAllKeys`, `Store.UpsertAllOthersUnchanged`, `Store.UpsertAllLastWins` and `Store.UpsertAllKeyedByName` |
| Store.UpsertAllStep | src/portfolio/scraper.service.ts:235-243 | proof step, unfolding the definition: one more loop iteration upserts the next company on top of the batch so far |
| Store.NamesOfFrontAndLast | src/portfolio/scraper.service.ts:235 | proof step, unfolding the definition: the names of a batch are those of its front and of its last company |
| Store.UpsertAllKeys | src/portfolio/scraper.service.ts:235-243 | after the batch the collection holds the old names and the batch's names, one document each, and no others |
| Store.UpsertAllOthersUnchanged | src/portfolio/scraper.service.ts:235-243 | documents whose name is not in the batch are unchanged |
| Store.UpsertAllLastWins | src/portfolio/scraper.service.ts:235-243 | the document of a name holds every property of the last company of that name in the batch |
| Store.UpsertAllKeyedByName | src/portfolio/scraper.service.ts:235-243 | an upsert batch keeps every document stored under its own name |
| Store.FirstFailure | src/portfolio/scraper.service.ts:234-248 | the number of upserts attempted: no earlier call throws, and the call at that number throws unless the batch completed |
| Store.SavedStore | src/portfolio/scraper.service.ts:232-249 | the collection after `saveCompanies`: the companies before the first failing upsert, upserted in order; `Scraper.ScraperService.SaveCompanies` is proved to compute it |
| Store.Matches | src/portfolio/scraper.service.ts:16-18 | a document matches an equality filter when each filtered property is present with the filter's value; `Scraper.ScraperService.FindAll` states the result through it |
| Scraper.ScrapeOutcome | src/portfolio/scraper.service.ts:36-229 | a run rethrows exactly when navigation fails, and otherwise returns the records of the harvested pages |
| Scraper.ScrapeOutcomeAcceptedNames | src/portfolio/scraper.service.ts:44-222 | a successful run returns no record with a blank or header name |
| Scraper.FindAllUnfiltered | src/portfolio/scraper.service.spec.ts:72-77 | `findAll({})` returns every stored document |
| Scraper.ScraperService.constructor | src/portfolio/scraper.service.ts:11-14 | the service starts over the given collection with no browser open |
| Scraper.ScraperService.FindAll | src/portfolio/scraper.service.ts:16-18 | the result is exactly the stored documents that match the equality filter |
| Scraper.ScraperService.SaveCompanies | src/portfolio/scraper.service.ts:232-249 | the collection becomes the companies before the first failing upsert upserted in order; no error escapes; documents stay keyed by name |
| Scraper.ScraperService.ScrapeKKR | src/portfolio/scraper.service.ts:20-229 | returns the run's outcome; on success saves the full list once and returns that same list; on navigation failure leaves the collection alone and rethrows; the browser is closed on every path, after the save |
| Controller.CompaniesFilter | src/portfolio/portfolio.controller.ts:35-43 | the filter has `region` exactly when the region parameter is non-empty, `industry` exactly when the industry parameter is non-empty, each with the parameter's value, and no other key |
| Controller.EmptyFilterWithoutParameters | src/portfolio/portfolio.controller.ts:35 | with both parameters absent or empty the filter is empty |
| Controller.FilterOfBothParameters | src/portfolio/portfolio.controller.spec.ts:47-49 | region `Americas` and industry `Technology` give exactly the filter of those two |
| Controller.PortfolioController.constructor | src/portfolio/portfolio.controller.ts:9 | the controller holds the given service |
| Controller.PortfolioController.Scrape | src/portfolio/portfolio.controller.ts:14-19 | responds `Scraping completed successfully` with the number of records the run returned, or passes on the navigation error; on success the collection is the saved batch and on error it is unchanged; the browser ends closed; the log is launch, then the save on success, then close |
| Controller.PortfolioController.GetCompanies | src/portfolio/portfolio.controller.ts:31-46 | returns `findAll(filter)` unchanged: the stored companies whose region and industry equal the non-empty parameters |

## Left out

- Browser control: launching the browser, its flags, `newPage`, `goto`, `waitForSelector`, `$$`, `$`, `evaluate`, `keyboard.press` and DOM querying. Each becomes a scripted outcome (`Harvest.RowScript`, `Harvest.PageScript`, `Harvest.Site`). How `innerText`, `textContent` and `href` are resolved stays with the browser.
- Throws from `launch`, `newPage`, `$$`, `$` and `browser.close()` are not modelled. A throw from `newPage`, `$$` or `$` would reach the same rethrow path as a failed navigation. `launch` sits outside the `try`.
- Scraper.ScrapeOutcome: a throw from `browser.close()` in the `finally` (lines 227-228) would make `scrapeKKR` reject even after a successful harvest and save. The model's close always succeeds, so `Scraper.ScrapeOutcome` and `Scraper.ScraperService.ScrapeKKR` do not cover that case.
- The selector in the close wait (line 162) has no leading `.`. The close step is a scripted success or throw whatever that selector matches.
- Timeouts and delays (60 s, 10 s, 3 s, 1 s, 500 ms) reduce to appear or time out. Wall-clock time is not modelled. The awaits are sequential, so there is no concurrency.
- The row name read for the warning in the catch block, and all logging and `console.log` output, are not modelled. Only the fact that the catch block ran is kept (`RowResult.recovered`). `PUPPETEER_EXECUTABLE_PATH` is not modelled either.
- Scraper.ScraperService.FindAll: returns a set, not MongoDB's ordered array. Matching is plain equality on string properties.
- Scraper.ScraperService.SaveCompanies: a failing upsert is assumed to leave the collection unchanged.
- Store.Upsert: follows `$set` merge semantics. The schema's strict mode is not modelled: it could drop `description`, `website` and `headquarters`, which the schema does not declare. Timestamps, defaults on insert and the unique index on `name` are not modelled either.
- Controller.PortfolioController.GetCompanies: a query parameter given several times (an array in NestJS) is not modelled; parameters are absent or one string.
- RowNormaliser.ExtraData: a Dafny map has no key order, so the model does not record that the JavaScript object, and the stored document, keep the `column_N` keys in cell order. Nothing in the core depends on that order.
- Text.Trim: a cell whose `textContent` is `null` is not modelled; every cell is read as a string.
- Unicode lower-casing beyond ASCII is not modelled. See the modelling choices above for why the fixed-word comparisons are unaffected.
- The NestJS wiring, the bootstrap, the Swagger decorators and the constant redirect in `src/app.controller.ts` carry no logic and are not modelled.
