/** `buildFacets(items)`: how many of the shown records have each year,
    language, provider, study type, method and population. A facet is a
    multiset: the count of a value is its multiplicity, and a value with
    no record is absent, as a key is absent from the source's counter
    object. */
module Facets {
  import opened Wrappers
  import opened Text
  import opened Records
  import opened Seqs

  datatype Facets = Facets(
    year: multiset<int>,
    language: multiset<string>,
    source: multiset<string>,
    studyType: multiset<string>,
    studyMethod: multiset<string>,
    population: multiset<string>)

  /** The language facet key: the record's language, lower-cased. */
  function LanguageKey(l: string): string {
    LowerStr(l)
  }

  /** The years counted: each truthy year once per record. */
  function YearTally(items: seq<Record>): multiset<int> {
    if items == [] then multiset{} else YearTally(items[..|items| - 1]) + YearOne(items[|items| - 1])
  }

  function YearOne(r: Record): multiset<int> {
    if YearTruthy(r.year) then multiset{r.year.value} else multiset{}
  }

  /** The values of a string field counted: each truthy value once per
      record, the language lower-cased. */
  function FieldTally(items: seq<Record>, f: Field): multiset<string> {
    if items == [] then multiset{} else FieldTally(items[..|items| - 1], f) + FieldOne(items[|items| - 1], f)
  }

  function FieldOne(r: Record, f: Field): multiset<string> {
    var v := Get(r, f);
    if Truthy(v) then multiset{if f == Language then LanguageKey(v.value) else v.value} else multiset{}
  }

  /** The facets `buildFacets(items)` is specified to return. */
  function FacetsOf(items: seq<Record>): Facets {
    Facets(YearTally(items), FieldTally(items, Language), multiset(AllSources(items)),
           FieldTally(items, StudyType), FieldTally(items, StudyMethod), FieldTally(items, Population))
  }

  /** What one record adds to each facet. */
  function Contribution(r: Record): Facets {
    Facets(YearOne(r), FieldOne(r, Language), multiset(r.sources),
           FieldOne(r, StudyType), FieldOne(r, StudyMethod), FieldOne(r, Population))
  }

  function Plus(a: Facets, b: Facets): Facets {
    Facets(a.year + b.year, a.language + b.language, a.source + b.source,
           a.studyType + b.studyType, a.studyMethod + b.studyMethod, a.population + b.population)
  }

  lemma FacetsSnoc(items: seq<Record>, r: Record)
    ensures FacetsOf(items + [r]) == Plus(FacetsOf(items), Contribution(r))
  {
    var s := items + [r];
    assert s[..|s| - 1] == items;
    assert AllSources(s) == AllSources(items) + r.sources;
  }

  /** Adds one to the count of `x`. */
  function Bump<T>(m: multiset<T>, x: T): (m': multiset<T>)
    ensures m' == m + multiset{x}
  {
    m[x := m[x] + 1]
  }

  /** The counters of one string facet for one record. */
  method CountField(m: multiset<string>, r: Record, f: Field) returns (m': multiset<string>)
    ensures m' == m + FieldOne(r, f)
  {
    m' := m;
    var v := Get(r, f);
    if Truthy(v) {
      m' := Bump(m, if f == Language then LanguageKey(v.value) else v.value);
    }
  }

  /** The body of `buildFacets`' loop for one record. */
  method CountRecord(f: Facets, r: Record) returns (g: Facets)
    ensures g == Plus(f, Contribution(r))
  {
    var year := f.year;
    if YearTruthy(r.year) {
      year := Bump(year, r.year.value);
    }
    var language := CountField(f.language, r, Language);
    var source := f.source;
    for j := 0 to |r.sources|
      invariant source == f.source + multiset(r.sources[..j])
    {
      SliceSnoc(r.sources, j);
      source := Bump(source, r.sources[j]);
    }
    SliceAll(r.sources);
    var studyType := CountField(f.studyType, r, StudyType);
    var studyMethod := CountField(f.studyMethod, r, StudyMethod);
    var population := CountField(f.population, r, Population);
    g := Facets(year, language, source, studyType, studyMethod, population);
  }

  /** `buildFacets(items)`: one pass over the records, counting each
      truthy year, language, type, method and population and each entry of
      the provider list. */
  method BuildFacets(items: seq<Record>) returns (f: Facets)
    ensures f == FacetsOf(items)
    ensures |f.source| == |AllSources(items)|
  {
    f := Facets(multiset{}, multiset{}, multiset{}, multiset{}, multiset{}, multiset{});
    assert items[..0] == [];
    for i := 0 to |items|
      invariant f == FacetsOf(items[..i])
    {
      SliceSnoc(items, i);
      FacetsSnoc(items[..i], items[i]);
      f := CountRecord(f, items[i]);
    }
    SliceAll(items);
  }

  // ---- what the facets count ----

  function HasYear(y: int): Record -> bool {
    (r: Record) => r.year == Some(y)
  }

  function HasValue(f: Field, x: string): Record -> bool {
    (r: Record) => Truthy(Get(r, f)) && (if f == Language then LanguageKey(Get(r, f).value) else Get(r, f).value) == x
  }

  lemma FilterSnoc<T>(s: seq<T>, x: T, p: T -> bool)
    ensures Filter(s + [x], p) == Filter(s, p) + if p(x) then [x] else []
  {
    FilterAppend(s, [x], p);
    assert [x][1..] == [];
  }

  /** The count of year `y` is the number of records with that year; the
      falsy year 0 is never counted. */
  lemma {:induction false} YearCount(items: seq<Record>, y: int)
    ensures YearTally(items)[y] == if y == 0 then 0 else |Filter(items, HasYear(y))|
  {
    if items != [] {
      var p, r := items[..|items| - 1], items[|items| - 1];
      assert items == p + [r];
      YearCount(p, y);
      FilterSnoc(p, r, HasYear(y));
    }
  }

  /** The count of a value in a string facet is the number of records
      whose field has that value (lower-cased for the language); the empty
      string is never counted. */
  lemma {:induction false} FieldCount(items: seq<Record>, f: Field, x: string)
    ensures FieldTally(items, f)[x] == if x == "" then 0 else |Filter(items, HasValue(f, x))|
  {
    if items != [] {
      var p, r := items[..|items| - 1], items[|items| - 1];
      assert items == p + [r];
      assert FieldTally(items, f) == FieldTally(p, f) + FieldOne(r, f);
      FieldCount(p, f, x);
      FilterSnoc(p, r, HasValue(f, x));
      FieldOneCount(r, f, x);
      if x != "" {
        assert |Filter(items, HasValue(f, x))| == |Filter(p, HasValue(f, x))| + FieldOne(r, f)[x];
      }
    }
  }

  lemma FieldOneCount(r: Record, f: Field, x: string)
    ensures FieldOne(r, f)[x] == if x != "" && HasValue(f, x)(r) then 1 else 0
  {
    var v := Get(r, f);
    if Truthy(v) && f == Language {
      assert |LanguageKey(v.value)| == |v.value| > 0;
    }
  }

  function HasSource(s: string): Record -> bool {
    (r: Record) => s in r.sources
  }

  /** When no record names a provider twice (as after `dedup`), the count
      of a provider is the number of records that name it. */
  lemma {:induction false} SourceCount(items: seq<Record>, s: string)
    requires forall i | 0 <= i < |items| :: NoDups(items[i].sources)
    ensures FacetsOf(items).source[s] == |Filter(items, HasSource(s))|
  {
    if items != [] {
      var p, r := items[..|items| - 1], items[|items| - 1];
      assert items == p + [r];
      SourceCount(p, s);
      FilterSnoc(p, r, HasSource(s));
      NoDupsMultiplicity(r.sources, s);
    }
  }
}
