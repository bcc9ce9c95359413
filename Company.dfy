/**
 * The portfolio-company record: what a scraped row becomes and what the
 * document store holds, one document per company name.
 */
module Company {
  import opened Wrappers
  import opened Text

  /**
   * A portfolio company. `name` and `assetClass` are required; every other
   * property may be absent (`undefined`). `extraData` holds the overflow
   * columns of a table row; `description`, `website` and `headquarters` come
   * from the company's detail flyout.
   */
  datatype Company = Company(
    name: string,
    assetClass: string,
    industry: Option<string>,
    region: Option<string>,
    extraData: Option<map<string, string>>,
    description: Option<string>,
    website: Option<string>,
    headquarters: Option<string>)

  /**
   * A name the scraper rejects: empty, or a table header (`company` or
   * `name`, in any letter case) that the site renders as a data row.
   */
  predicate IsHeaderOrBlank(name: string) {
    Lower(name) == "company" || Lower(name) == "name" || name == ""
  }

}
