/**
 * The company collection as the scraper uses it: one document per company
 * name, written by upsert-by-name and read back by equality filters.
 */
module Store {
  import opened Wrappers
  import opened Company

  /** The collection: the stored document of each company name. */
  type Collection = map<string, Company>

  /** Every document is stored under its own name. */
  ghost predicate KeyedByName(store: Collection) {
    forall n :: n in store ==> store[n].name == n
  }

  /** An update's value for one property: the new value when it is given, the stored one otherwise. */
  function Override<T>(stored: Option<T>, given: Option<T>): Option<T> {
    if given.Some? then given else stored
  }

  /** The stored document after an update with `c`, which sets every property `c` defines. */
  function MergeInto(stored: Company, c: Company): Company {
    Company(c.name, c.assetClass,
            Override(stored.industry, c.industry),
            Override(stored.region, c.region),
            Override(stored.extraData, c.extraData),
            Override(stored.description, c.description),
            Override(stored.website, c.website),
            Override(stored.headquarters, c.headquarters))
  }

  /** A document holds every property a company defines. */
  ghost predicate Agrees(doc: Company, c: Company) {
    && doc.name == c.name
    && doc.assetClass == c.assetClass
    && (c.industry.Some? ==> doc.industry == c.industry)
    && (c.region.Some? ==> doc.region == c.region)
    && (c.extraData.Some? ==> doc.extraData == c.extraData)
    && (c.description.Some? ==> doc.description == c.description)
    && (c.website.Some? ==> doc.website == c.website)
    && (c.headquarters.Some? ==> doc.headquarters == c.headquarters)
  }

  /**
   * `findOneAndUpdate({ name }, company, { upsert: true })`: the document
   * named `c.name` is created from `c` or updated with it; no other document changes.
   */
  function Upsert(store: Collection, c: Company): (s: Collection)
    ensures s.Keys == store.Keys + {c.name}
    ensures Agrees(s[c.name], c)
    ensures c.name !in store ==> s[c.name] == c
    ensures forall n :: n in store && n != c.name ==> s[n] == store[n]
  {
    store[c.name := if c.name in store then MergeInto(store[c.name], c) else c]
  }

  /** Upserting the same company twice leaves what upserting it once leaves. */
  lemma UpsertIdempotent(store: Collection, c: Company)
    ensures Upsert(Upsert(store, c), c) == Upsert(store, c)
  {
    var once := Upsert(store, c);
    assert MergeInto(once[c.name], c) == once[c.name];
  }

  /** The collection after the given upserts, issued one after another in order. */
  function UpsertAll(store: Collection, companies: seq<Company>): Collection {
    if companies == [] then store
    else Upsert(UpsertAll(store, companies[..|companies| - 1]), companies[|companies| - 1])
  }

  /** Upserting one more company of a batch extends the batch's upserts by one. */
  lemma UpsertAllStep(store: Collection, companies: seq<Company>, i: nat)
    requires i < |companies|
    ensures UpsertAll(store, companies[..i + 1]) == Upsert(UpsertAll(store, companies[..i]), companies[i])
  {
    assert companies[..i + 1][..i] == companies[..i];
  }

  /** The names of the given companies. */
  function Names(companies: seq<Company>): set<string> {
    set i | 0 <= i < |companies| :: companies[i].name
  }

  /** The names of a batch are those of all but its last company, and the last company's. */
  lemma NamesOfFrontAndLast(companies: seq<Company>)
    requires companies != []
    ensures Names(companies) == Names(companies[..|companies| - 1]) + {companies[|companies| - 1].name}
  {
    var front := companies[..|companies| - 1];
    forall n | n in Names(companies) ensures n in Names(front) + {companies[|companies| - 1].name} {
      var i :| 0 <= i < |companies| && companies[i].name == n;
      if i < |companies| - 1 {
        assert front[i] == companies[i];
      }
    }
    forall n | n in Names(front) ensures n in Names(companies) {
      var i :| 0 <= i < |front| && front[i].name == n;
      assert companies[i] == front[i];
    }
  }

  /** After the upserts, the collection holds the names it held and the names upserted, and no others. */
  lemma {:induction false} UpsertAllKeys(store: Collection, companies: seq<Company>)
    ensures UpsertAll(store, companies).Keys == store.Keys + Names(companies)
  {
    if companies != [] {
      UpsertAllKeys(store, companies[..|companies| - 1]);
      NamesOfFrontAndLast(companies);
    }
  }

  /** A document whose name is not upserted is left as it was. */
  lemma {:induction false} UpsertAllOthersUnchanged(store: Collection, companies: seq<Company>, n: string)
    requires n in store && n !in Names(companies)
    ensures n in UpsertAll(store, companies) && UpsertAll(store, companies)[n] == store[n]
  {
    if companies != [] {
      NamesOfFrontAndLast(companies);
      UpsertAllOthersUnchanged(store, companies[..|companies| - 1], n);
    }
  }

  /**
   * The document of an upserted name holds every property of the last
   * company of that name in the batch.
   */
  lemma {:induction false} UpsertAllLastWins(store: Collection, companies: seq<Company>, k: nat)
    requires k < |companies|
    requires forall i :: k < i < |companies| ==> companies[i].name != companies[k].name
    ensures companies[k].name in UpsertAll(store, companies)
    ensures Agrees(UpsertAll(store, companies)[companies[k].name], companies[k])
  {
    var last := |companies| - 1;
    if k < last {
      var front := companies[..last];
      assert front[k] == companies[k];
      assert forall i :: k < i < |front| ==> front[i] == companies[i];
      UpsertAllLastWins(store, front, k);
      assert UpsertAll(store, companies) == Upsert(UpsertAll(store, front), companies[last]);
      assert companies[last].name != companies[k].name;
    }
  }

  /** Upserts keep every document under its own name. */
  lemma {:induction false} UpsertAllKeyedByName(store: Collection, companies: seq<Company>)
    requires KeyedByName(store)
    ensures KeyedByName(UpsertAll(store, companies))
  {
    if companies != [] {
      UpsertAllKeyedByName(store, companies[..|companies| - 1]);
    }
  }

  /**
   * The number of upserts attempted before the first one that throws:
   * the smallest call number from `i` on in `failingCalls`, or `n` when none below `n` is.
   */
  function FirstFailure(failingCalls: set<nat>, i: nat, n: nat): (r: nat)
    requires i <= n
    ensures i <= r <= n
    ensures forall k :: i <= k < r ==> k !in failingCalls
    ensures r < n ==> r in failingCalls
    decreases n - i
  {
    if i == n then n
    else if i in failingCalls then i
    else FirstFailure(failingCalls, i + 1, n)
  }

  /**
   * `saveCompanies`: one upsert per company in order, stopped by the first
   * that throws; the companies before it are saved, the rest are not attempted.
   */
  function SavedStore(store: Collection, companies: seq<Company>, failingCalls: set<nat>): Collection {
    UpsertAll(store, companies[..FirstFailure(failingCalls, 0, |companies|)])
  }

  /** A stored property as an equality filter sees it; a key that names no string property matches nothing. */
  function Field(doc: Company, key: string): Option<string> {
    if key == "name" then Some(doc.name)
    else if key == "assetClass" then Some(doc.assetClass)
    else if key == "industry" then doc.industry
    else if key == "region" then doc.region
    else if key == "description" then doc.description
    else if key == "website" then doc.website
    else if key == "headquarters" then doc.headquarters
    else None
  }

  /** A document matches a filter when it holds every filtered property with exactly the filtered value. */
  predicate Matches(doc: Company, filter: map<string, string>) {
    forall key :: key in filter ==> Field(doc, key) == Some(filter[key])
  }
}
