/** The search orchestration once the three provider calls have settled:
    the query and year inputs, the combination of the settled results into
    records and an error map, then dedup, the two filters and the facets. */
module Search {
  import opened Wrappers
  import opened Text
  import opened Records
  import opened Seqs
  import opened Dedup
  import opened Filters
  import opened Facets

  /** The outcome of one provider call, as `Promise.allSettled` reports it;
      `reason` is the text of the rejection. */
  datatype Settled<T> = Fulfilled(value: T) | Rejected(reason: string)

  type Outcome = Settled<seq<Record>>

  const DefaultFrom: int := 2019
  const DefaultTo: int := 2025

  /** A year input read as a number, falling back to `default` when it is
      falsy. `input` is what the field reads as: none when it is not a
      number, `Some(0)` for an empty field. */
  function YearOrDefault(input: Option<int>, default: int): (y: int)
    ensures YearTruthy(input) ==> y == input.value
    ensures !YearTruthy(input) ==> y == default
  {
    if YearTruthy(input) then input.value else default
  }

  /** The years handed to the providers are never zero, and reading a
      year back in gives the same year. */
  lemma YearInputs(input: Option<int>)
    ensures YearOrDefault(input, DefaultFrom) != 0 && YearOrDefault(input, DefaultTo) != 0
    ensures YearOrDefault(None, DefaultFrom) == 2019 && YearOrDefault(Some(0), DefaultFrom) == 2019
    ensures YearOrDefault(None, DefaultTo) == 2025 && YearOrDefault(Some(0), DefaultTo) == 2025
    ensures YearOrDefault(Some(YearOrDefault(input, DefaultFrom)), DefaultTo) == YearOrDefault(input, DefaultFrom)
  {
  }

  /** The records a call delivered: its value when fulfilled, none otherwise. */
  function Delivered(o: Outcome): seq<Record> {
    if o.Fulfilled? then o.value else []
  }

  /** The error entry a call contributes under `name`. */
  function ErrorEntry(name: string, o: Outcome): map<string, string> {
    if o.Rejected? then map[name := o.reason] else map[]
  }

  function Combined(c: Outcome, p: Outcome, d: Outcome): seq<Record> {
    Delivered(c) + Delivered(p) + Delivered(d)
  }

  function ErrorsOf(c: Outcome, p: Outcome, d: Outcome): map<string, string> {
    ErrorEntry("crossref", c) + ErrorEntry("pubmed", p) + ErrorEntry("doaj", d)
  }

  /** The combination step: the fulfilled results are appended in the
      order Crossref, PubMed, DOAJ, and each rejected call records its
      reason under its provider's name. */
  method Combine(c: Outcome, p: Outcome, d: Outcome) returns (records: seq<Record>, errors: map<string, string>)
    ensures records == Combined(c, p, d)
    ensures errors == ErrorsOf(c, p, d)
  {
    errors := map[];
    records := [];
    if c.Fulfilled? {
      records := records + c.value;
    } else {
      errors := errors["crossref" := c.reason];
    }
    assert records == Delivered(c) && errors == ErrorEntry("crossref", c);
    if p.Fulfilled? {
      records := records + p.value;
    } else {
      errors := errors["pubmed" := p.reason];
    }
    assert records == Delivered(c) + Delivered(p);
    assert errors == ErrorEntry("crossref", c) + ErrorEntry("pubmed", p);
    if d.Fulfilled? {
      records := records + d.value;
    } else {
      errors := errors["doaj" := d.reason];
    }
  }

  /** The error map holds one entry per rejected call, under the
      provider's name and with the rejection's text, and the combined
      records are exactly the delivered ones, one segment per call. */
  lemma ErrorsAndRecords(c: Outcome, p: Outcome, d: Outcome)
    ensures ErrorsOf(c, p, d).Keys == (if c.Rejected? then {"crossref"} else {}) + (if p.Rejected? then {"pubmed"} else {})
                                      + (if d.Rejected? then {"doaj"} else {})
    ensures c.Rejected? ==> ErrorsOf(c, p, d)["crossref"] == c.reason
    ensures p.Rejected? ==> ErrorsOf(c, p, d)["pubmed"] == p.reason
    ensures d.Rejected? ==> ErrorsOf(c, p, d)["doaj"] == d.reason
    ensures |Combined(c, p, d)| == |Delivered(c)| + |Delivered(p)| + |Delivered(d)|
  {
  }

  /** What the search shows: the combined records deduplicated, then
      filtered by language when a language is ticked, then by open access
      when that box is ticked. */
  function Shown(v: Variant, langs: seq<string>, oaOnly: bool, c: Outcome, p: Outcome, d: Outcome): seq<Record> {
    OaFilter(oaOnly, LanguageFilter(v, langs, DedupSpec(v, Combined(c, p, d))))
  }

  datatype SearchResult = SearchResult(
    query: string,
    yearFrom: int,
    yearTo: int,
    items: seq<Record>,
    errors: map<string, string>,
    facets: Facets)

  /** `search()` after the provider calls have settled with `c`, `p` and
      `d`: the trimmed query and the two years are what the calls were
      made with. */
  method Search(v: Variant, queryInput: string, fromInput: Option<int>, toInput: Option<int>,
                langs: seq<string>, oaOnly: bool, c: Outcome, p: Outcome, d: Outcome)
    returns (res: SearchResult)
    ensures res.query == Trim(queryInput)
    ensures res.yearFrom == YearOrDefault(fromInput, DefaultFrom) && res.yearTo == YearOrDefault(toInput, DefaultTo)
    ensures res.items == Shown(v, langs, oaOnly, c, p, d)
    ensures res.errors == ErrorsOf(c, p, d)
    ensures res.facets == FacetsOf(res.items)
  {
    var q := Trim(queryInput);
    var y1 := YearOrDefault(fromInput, DefaultFrom);
    var y2 := YearOrDefault(toInput, DefaultTo);
    var arr, errors := Combine(c, p, d);
    var merged := Dedup.Dedup(v, arr);
    if |langs| > 0 {
      merged := LanguageFilter(v, langs, merged);
    }
    if oaOnly {
      merged := OaFilter(true, merged);
    }
    var facets := BuildFacets(merged);
    res := SearchResult(q, y1, y2, merged, errors, facets);
  }

  /** All three calls failing is not an exception: nothing is shown, every
      facet is empty, and there are three error entries. */
  lemma AllRejected(v: Variant, langs: seq<string>, oaOnly: bool, rc: string, rp: string, rd: string)
    ensures Shown(v, langs, oaOnly, Rejected(rc), Rejected(rp), Rejected(rd)) == []
    ensures FacetsOf([]) == Facets(multiset{}, multiset{}, multiset{}, multiset{}, multiset{}, multiset{})
    ensures ErrorsOf(Rejected(rc), Rejected(rp), Rejected(rd)) == map["crossref" := rc, "pubmed" := rp, "doaj" := rd]
    ensures |ErrorsOf(Rejected(rc), Rejected(rp), Rejected(rd))| == 3
  {
    assert Combined(Rejected(rc), Rejected(rp), Rejected(rd)) == [];
    var e := ErrorsOf(Rejected(rc), Rejected(rp), Rejected(rd));
    assert e.Keys == {"crossref", "pubmed", "doaj"};
  }

  /** No more records are shown than the providers delivered. */
  lemma ShownBound(v: Variant, langs: seq<string>, oaOnly: bool, c: Outcome, p: Outcome, d: Outcome)
    ensures |Shown(v, langs, oaOnly, c, p, d)| <= |Delivered(c)| + |Delivered(p)| + |Delivered(d)|
  {
  }

  /** The records a call delivers all name that provider alone, as the
      provider adapters make them. */
  predicate FromProvider(o: Outcome, name: string) {
    o.Fulfilled? ==> forall i | 0 <= i < |o.value| :: o.value[i].sources == [name]
  }

  /** Every provider named on a shown record is one whose call succeeded. */
  lemma ShownFromFulfilled(v: Variant, langs: seq<string>, oaOnly: bool, c: Outcome, p: Outcome, d: Outcome,
                           k: int, s: string)
    requires FromProvider(c, "Crossref") && FromProvider(p, "PubMed") && FromProvider(d, "DOAJ")
    requires 0 <= k < |Shown(v, langs, oaOnly, c, p, d)| && s in Shown(v, langs, oaOnly, c, p, d)[k].sources
    ensures (s == "Crossref" && c.Fulfilled?) || (s == "PubMed" && p.Fulfilled?) || (s == "DOAJ" && d.Fulfilled?)
  {
    var all := Combined(c, p, d);
    var j := ShownComesFromDedup(v, langs, oaOnly, all, k);
    DedupSourcesFromInput(v, all, j, s);
    var i :| 0 <= i < |all| && s in all[i].sources;
    CombinedFrom(c, p, d, i, s);
  }

  /** A shown record is one of the deduplicated records. */
  lemma ShownComesFromDedup(v: Variant, langs: seq<string>, oaOnly: bool, all: seq<Record>, k: int) returns (j: int)
    requires 0 <= k < |OaFilter(oaOnly, LanguageFilter(v, langs, DedupSpec(v, all)))|
    ensures 0 <= j < |DedupSpec(v, all)|
    ensures DedupSpec(v, all)[j] == OaFilter(oaOnly, LanguageFilter(v, langs, DedupSpec(v, all)))[k]
  {
    var deduped := DedupSpec(v, all);
    var r := OaFilter(oaOnly, LanguageFilter(v, langs, deduped))[k];
    assert r in LanguageFilter(v, langs, deduped);
    assert r in deduped;
    j :| 0 <= j < |deduped| && deduped[j] == r;
  }

  /** A provider named on a combined record is the provider whose result
      held that record. */
  lemma CombinedFrom(c: Outcome, p: Outcome, d: Outcome, i: int, s: string)
    requires FromProvider(c, "Crossref") && FromProvider(p, "PubMed") && FromProvider(d, "DOAJ")
    requires 0 <= i < |Combined(c, p, d)| && s in Combined(c, p, d)[i].sources
    ensures (s == "Crossref" && c.Fulfilled?) || (s == "PubMed" && p.Fulfilled?) || (s == "DOAJ" && d.Fulfilled?)
  {
    var nc, np := |Delivered(c)|, |Delivered(p)|;
    ConcatAt(Delivered(c), Delivered(p), Delivered(d), i);
  }

  lemma ConcatAt<T>(a: seq<T>, b: seq<T>, c: seq<T>, i: int)
    requires 0 <= i < |a + b + c|
    ensures i < |a| ==> (a + b + c)[i] == a[i]
    ensures |a| <= i < |a| + |b| ==> (a + b + c)[i] == b[i - |a|]
    ensures |a| + |b| <= i ==> (a + b + c)[i] == c[i - |a| - |b|]
  {
  }
}
