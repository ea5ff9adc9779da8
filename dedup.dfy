/** `dedup(items)`: records from different providers that describe the same
    work are grouped by a key and each group is merged into one record. */
module Dedup {
  import opened Wrappers
  import opened Text
  import opened Records
  import opened Normalize
  import opened Seqs
  import opened Grouping

  // ---- the key ----

  /** The DOI part of the key: the DOI, empty when falsy, trimmed and
      lower-cased. */
  function DoiKey(r: Record): string {
    LowerStr(Trim(OrEmpty(r.doi)))
  }

  /** The year part of the key: its decimal text, empty when the year is
      falsy. */
  function YearText(y: Option<int>): string {
    if YearTruthy(y) then IntToDecimal(y.value) else ""
  }

  /** The grouping key: the DOI key when it is not empty, otherwise the
      normalised title, a bar, and the year. */
  function Key(r: Record): (k: string)
    ensures DoiKey(r) != "" ==> k == DoiKey(r)
    ensures DoiKey(r) == "" ==> k == NormalizeTitle(r.title) + "|" + YearText(r.year)
    ensures DoiKey(r) == "" && r.title.Some? && Collapsed(r.title.value) ==>
      k == LowerStr(r.title.value) + "|" + YearText(r.year)
  {
    var doi := DoiKey(r);
    if doi != "" then doi else NormalizeTitle(r.title) + "|" + YearText(r.year)
  }

  /** Without DOIs, two titles that are equal once lower-cased, with each
      run of white space counted as one space, give the same key for the
      same year. */
  lemma TitleVariantsShareKey(r1: Record, r2: Record)
    requires DoiKey(r1) == "" && DoiKey(r2) == "" && r1.year == r2.year
    requires LowerStr(CollapseWs(OrEmpty(r1.title))) == LowerStr(CollapseWs(OrEmpty(r2.title)))
    ensures Key(r1) == Key(r2)
  {
    LowerCollapseCommute(OrEmpty(r1.title));
    LowerCollapseCommute(OrEmpty(r2.title));
  }

  /** Without DOIs, two records with the same normalised title share a key
      exactly when both years are falsy or both are the same truthy year. */
  lemma KeyYears(r1: Record, r2: Record)
    requires DoiKey(r1) == "" && DoiKey(r2) == "" && NormalizeTitle(r1.title) == NormalizeTitle(r2.title)
    ensures Key(r1) == Key(r2) <==>
      (!YearTruthy(r1.year) && !YearTruthy(r2.year)) || (YearTruthy(r1.year) && YearTruthy(r2.year) && r1.year.value == r2.year.value)
  {
    var p := NormalizeTitle(r1.title) + "|";
    var a, b := YearText(r1.year), YearText(r2.year);
    if Key(r1) == Key(r2) {
      assert a == (p + a)[|p|..];
      assert b == (p + b)[|p|..];
      if YearTruthy(r1.year) && YearTruthy(r2.year) {
        IntToDecimalInjective(r1.year.value, r2.year.value);
      }
    }
  }

  /** Two DOIs that differ only in letter case and surrounding white space
      give the same key, whatever the titles and years. */
  lemma DoiVariantsShareKey(r1: Record, r2: Record,
                            pre1: string, core1: string, post1: string,
                            pre2: string, core2: string, post2: string)
    requires r1.doi == Some(pre1 + core1 + post1) && r2.doi == Some(pre2 + core2 + post2)
    requires AllWs(pre1) && AllWs(post1) && AllWs(pre2) && AllWs(post2)
    requires NoEdgeWs(core1) && NoEdgeWs(core2) && core1 != []
    requires LowerStr(core1) == LowerStr(core2)
    ensures Key(r1) == Key(r2) == LowerStr(core1)
  {
    TrimPadded(pre1, core1, post1);
    assert core2 != [];
    TrimPadded(pre2, core2, post2);
  }

  // ---- merging two records ----

  /** The string fields each variant's merge combines with `||`; the
      modern merge keeps every other field of the earlier record through
      `{...prev}`. */
  function MergedFields(v: Variant): set<Field> {
    match v
    case Modern => {Title, Journal, Abstract, Language, Url}
    case Compat => {Id, Title, Journal, Doi, Abstract, Language, Url, StudyType, StudyMethod, Population}
  }

  predicate HasAuthors(a: seq<string>) {
    |a| > 0
  }

  /** The record that replaces `prev` when `r` has the same key. */
  function Merge(v: Variant, prev: Record, r: Record): Record {
    var authors := if HasAuthors(prev.authors) then prev.authors else r.authors;
    var sources := Distinct(prev.sources + r.sources);
    match v
    case Modern =>
      prev.(title := OrStr(prev.title, r.title),
            authors := authors,
            journal := OrStr(prev.journal, r.journal),
            abstractText := if prev.abstractText != "" then prev.abstractText else r.abstractText,
            language := OrStr(prev.language, r.language),
            url := OrStr(prev.url, r.url),
            oa := prev.oa || r.oa,
            sources := sources)
    case Compat =>
      Record(
        id := if prev.id != "" then prev.id else r.id,
        title := OrStr(prev.title, r.title),
        authors := authors,
        year := OrYear(prev.year, r.year),
        journal := OrStr(prev.journal, r.journal),
        doi := OrStr(prev.doi, r.doi),
        abstractText := if prev.abstractText != "" then prev.abstractText else r.abstractText,
        oa := prev.oa || r.oa,
        language := OrStr(prev.language, r.language),
        url := OrStr(prev.url, r.url),
        studyType := OrStr(prev.studyType, r.studyType),
        studyMethod := OrStr(prev.studyMethod, r.studyMethod),
        population := OrStr(prev.population, r.population),
        sources := sources)
  }

  /** Field by field, a merge is `prev.f || r.f` or keeps `prev.f`. */
  lemma MergeGet(v: Variant, prev: Record, r: Record, f: Field)
    ensures Get(Merge(v, prev, r), f) == if f in MergedFields(v) then OrStr(Get(prev, f), Get(r, f)) else Get(prev, f)
  {
    match v
    case Modern =>
    case Compat =>
  }

  function MergeWith(v: Variant): (Record, Record) -> Record {
    (prev, r) => Merge(v, prev, r)
  }

  /** What `byKey` holds for a group once all its members have been seen:
      the first member, merged in turn with each later one. */
  function MergeGroup(v: Variant, g: seq<Record>): Record
    requires |g| > 0
  {
    Fold(g, MergeWith(v))
  }

  // ---- what a merged group holds ----

  function Values(g: seq<Record>, f: Field): (vs: seq<Option<string>>)
    ensures |vs| == |g| && forall i :: 0 <= i < |g| ==> vs[i] == Get(g[i], f)
  {
    seq(|g|, i requires 0 <= i < |g| => Get(g[i], f))
  }

  function Years(g: seq<Record>): (ys: seq<Option<int>>)
    ensures |ys| == |g| && forall i :: 0 <= i < |g| ==> ys[i] == g[i].year
  {
    seq(|g|, i requires 0 <= i < |g| => g[i].year)
  }

  function AuthorLists(g: seq<Record>): (ls: seq<seq<string>>)
    ensures |ls| == |g| && forall i :: 0 <= i < |g| ==> ls[i] == g[i].authors
  {
    seq(|g|, i requires 0 <= i < |g| => g[i].authors)
  }

  lemma ValuesSnoc(g: seq<Record>, f: Field)
    requires |g| > 0
    ensures Values(g, f) == Values(g[..|g| - 1], f) + [Get(g[|g| - 1], f)]
  {
  }

  lemma YearsSnoc(g: seq<Record>)
    requires |g| > 0
    ensures Years(g) == Years(g[..|g| - 1]) + [g[|g| - 1].year]
  {
  }

  lemma AuthorListsSnoc(g: seq<Record>)
    requires |g| > 0
    ensures AuthorLists(g) == AuthorLists(g[..|g| - 1]) + [g[|g| - 1].authors]
  {
  }

  /** Each string field of a merged group: for the fields the variant
      merges, the first truthy value among the members in arrival order
      (the last member's value when none is truthy); for the others, the
      first member's value. */
  lemma {:induction false} MergeGroupField(v: Variant, g: seq<Record>, f: Field)
    requires |g| > 0
    ensures Get(MergeGroup(v, g), f) == if f in MergedFields(v) then FirstWhere(Values(g, f), Truthy) else Get(g[0], f)
  {
    if |g| > 1 {
      var g' := g[..|g| - 1];
      MergeGroupField(v, g', f);
      MergeGet(v, MergeGroup(v, g'), g[|g| - 1], f);
      ValuesSnoc(g, f);
      FirstWhereSnoc(Values(g', f), Get(g[|g| - 1], f), Truthy);
    }
  }

  /** The year of a merged group: the first truthy year in the compat
      merge, the first member's year in the modern one. */
  lemma {:induction false} MergeGroupYear(v: Variant, g: seq<Record>)
    requires |g| > 0
    ensures MergeGroup(v, g).year == if v == Compat then FirstWhere(Years(g), YearTruthy) else g[0].year
  {
    if |g| > 1 {
      var g' := g[..|g| - 1];
      MergeGroupYear(v, g');
      YearsSnoc(g);
      FirstWhereSnoc(Years(g'), g[|g| - 1].year, YearTruthy);
    }
  }

  /** The authors of a merged group: the first non-empty author list. */
  lemma {:induction false} MergeGroupAuthors(v: Variant, g: seq<Record>)
    requires |g| > 0
    ensures MergeGroup(v, g).authors == FirstWhere(AuthorLists(g), HasAuthors)
  {
    if |g| > 1 {
      var g' := g[..|g| - 1];
      MergeGroupAuthors(v, g');
      AuthorListsSnoc(g);
      FirstWhereSnoc(AuthorLists(g'), g[|g| - 1].authors, HasAuthors);
    }
  }

  /** A merged group is open access when any member is. */
  lemma {:induction false} MergeGroupOa(v: Variant, g: seq<Record>)
    requires |g| > 0
    ensures MergeGroup(v, g).oa <==> exists i | 0 <= i < |g| :: g[i].oa
  {
    if |g| > 1 {
      var g' := g[..|g| - 1];
      MergeGroupOa(v, g');
      assert forall i | 0 <= i < |g'| :: g'[i] == g[i];
    }
  }

  /** For two or more members, the providers of a merged group are one
      `Set` over all members' providers in arrival order. */
  lemma {:induction false} MergeGroupSources(v: Variant, g: seq<Record>)
    requires |g| > 1
    ensures MergeGroup(v, g).sources == Distinct(AllSources(g))
  {
    var g', last := g[..|g| - 1], g[|g| - 1];
    var acc := MergeGroup(v, g');
    assert MergeGroup(v, g) == Merge(v, acc, last);
    MergeSources(v, acc, last);
    assert AllSources(g) == AllSources(g') + last.sources;
    if |g| == 2 {
      assert acc == g[0];
      AllSourcesOne(g');
    } else {
      MergeGroupSources(v, g');
      DistinctAppend(AllSources(g'), last.sources);
    }
  }

  lemma AllSourcesOne(g: seq<Record>)
    requires |g| == 1
    ensures AllSources(g) == g[0].sources
  {
    assert g[..0] == [];
  }

  lemma MergeSources(v: Variant, prev: Record, r: Record)
    ensures Merge(v, prev, r).sources == Distinct(prev.sources + r.sources)
  {
  }

  lemma {:induction false} AllSourcesSplit(g: seq<Record>, m: int)
    requires 0 <= m <= |g|
    ensures AllSources(g) == AllSources(g[..m]) + AllSources(g[m..])
    decreases |g|
  {
    if m == |g| {
      assert g[..m] == g;
      assert g[m..] == [];
    } else {
      var g' := g[..|g| - 1];
      AllSourcesSplit(g', m);
      assert g'[..m] == g[..m];
      assert g[m..][..|g[m..]| - 1] == g'[m..];
    }
  }

  lemma {:induction false} AllSourcesHas(g: seq<Record>, i: int, s: string)
    requires 0 <= i < |g| && s in g[i].sources
    ensures s in AllSources(g)
  {
    if i < |g| - 1 {
      AllSourcesHas(g[..|g| - 1], i, s);
    }
  }

  lemma {:induction false} AllSourcesFrom(g: seq<Record>, s: string)
    requires s in AllSources(g)
    ensures exists i | 0 <= i < |g| :: s in g[i].sources
  {
    var g' := g[..|g| - 1];
    if s in AllSources(g') {
      AllSourcesFrom(g', s);
      var i :| 0 <= i < |g'| && s in g'[i].sources;
      assert g[i] == g'[i];
    }
  }

  /** The provider list of a merged group of two or more records: it names
      each provider of each member, nothing else, and each once; the
      providers of earlier members come first; it is no longer than all
      members' lists together and no shorter than any member's own
      duplicate-free list. */
  lemma MergedSources(v: Variant, g: seq<Record>)
    requires |g| > 1
    ensures forall i, s | 0 <= i < |g| && s in g[i].sources :: s in MergeGroup(v, g).sources
    ensures forall s | s in MergeGroup(v, g).sources :: exists i | 0 <= i < |g| :: s in g[i].sources
    ensures NoDups(MergeGroup(v, g).sources)
    ensures forall m | 1 <= m <= |g| :: Distinct(AllSources(g[..m])) <= MergeGroup(v, g).sources
    ensures |MergeGroup(v, g).sources| <= |AllSources(g)|
    ensures forall i | 0 <= i < |g| && NoDups(g[i].sources) :: |g[i].sources| <= |MergeGroup(v, g).sources|
  {
    var ms := MergeGroup(v, g).sources;
    MergeGroupSources(v, g);
    forall i, s | 0 <= i < |g| && s in g[i].sources ensures s in ms {
      AllSourcesHas(g, i, s);
    }
    forall s | s in ms ensures exists i | 0 <= i < |g| :: s in g[i].sources {
      AllSourcesFrom(g, s);
    }
    forall m | 1 <= m <= |g| ensures Distinct(AllSources(g[..m])) <= ms {
      AllSourcesSplit(g, m);
      DistinctPrefix(AllSources(g[..m]), AllSources(g[m..]));
    }
    forall i | 0 <= i < |g| && NoDups(g[i].sources) ensures |g[i].sources| <= |ms| {
      var a, b := set x | x in g[i].sources, set x | x in ms;
      NoDupsCard(g[i].sources);
      NoDupsCard(ms);
      assert a <= b;
      assert b == a + (b - a);
    }
  }

  // ---- dedup ----

  /** The result `dedup(items)` is specified to return: one merged record
      per key, in the order the keys first appear. */
  function DedupSpec(v: Variant, items: seq<Record>): (out: seq<Record>)
    ensures |out| == |FirstSeenKeys(items, Key)| <= |items|
    ensures forall j | 0 <= j < |out| ::
      |Group(items, Key, FirstSeenKeys(items, Key)[j])| > 0 && out[j] == MergeGroup(v, Group(items, Key, FirstSeenKeys(items, Key)[j]))
  {
    GroupMerge(items, Key, MergeWith(v))
  }

  /** `dedup(items)`: the insertion-ordered grouping loop with `Key` as the
      key and `Merge` as the merge of a stored record with a later one. */
  method Dedup(v: Variant, items: seq<Record>) returns (out: seq<Record>)
    ensures out == DedupSpec(v, items)
  {
    out := GroupMergeLoop(items, Key, MergeWith(v));
  }

  /** Every record ends up in exactly one output record: the one for its
      own key. */
  lemma DedupPartitions(v: Variant, items: seq<Record>, i: int)
    requires 0 <= i < |items|
    ensures Key(items[i]) in FirstSeenKeys(items, Key)
    ensures forall j | 0 <= j < |FirstSeenKeys(items, Key)| ::
      items[i] in Group(items, Key, FirstSeenKeys(items, Key)[j]) <==> j == IndexOfElem(FirstSeenKeys(items, Key), Key(items[i]))
  {
    Partition(items, Key, i);
  }

  /** The output comes in the order of each key's first record. */
  lemma DedupFirstSeenOrder(items: seq<Record>, j1: int, j2: int)
    requires 0 <= j1 < j2 < |FirstSeenKeys(items, Key)|
    ensures IndexOfElem(Keys(items, Key), FirstSeenKeys(items, Key)[j1]) < IndexOfElem(Keys(items, Key), FirstSeenKeys(items, Key)[j2])
  {
    DistinctOrder(Keys(items, Key), j1, j2);
  }

  /** When no two records share a key, `dedup` returns its input unchanged:
      every record is alone in its group and comes back as it was. */
  lemma DedupDistinctKeys(v: Variant, items: seq<Record>)
    requires NoDups(Keys(items, Key))
    ensures DedupSpec(v, items) == items
  {
    DistinctKeysUnchanged(items, Key, MergeWith(v));
  }

  /** A record whose key no other record has comes back unchanged, at the
      position of its key. */
  lemma DedupLoneKey(v: Variant, items: seq<Record>, i: int)
    requires 0 <= i < |items|
    requires forall n | 0 <= n < |items| && n != i :: Key(items[n]) != Key(items[i])
    ensures Key(items[i]) in FirstSeenKeys(items, Key)
    ensures DedupSpec(v, items)[IndexOfElem(FirstSeenKeys(items, Key), Key(items[i]))] == items[i]
  {
    LoneKeyUnchanged(items, Key, MergeWith(v), i);
  }

  /** Every provider named on an output record is named on some input
      record: merging invents no provenance. */
  lemma DedupSourcesFromInput(v: Variant, items: seq<Record>, j: int, s: string)
    requires 0 <= j < |DedupSpec(v, items)| && s in DedupSpec(v, items)[j].sources
    ensures exists i | 0 <= i < |items| :: s in items[i].sources
  {
    var ks := FirstSeenKeys(items, Key);
    GroupsNonEmpty(items, Key);
    var g := Group(items, Key, ks[j]);
    assert DedupSpec(v, items)[j] == MergeGroup(v, g);
    var m: int;
    if |g| == 1 {
      m := 0;
    } else {
      MergedSources(v, g);
      m :| 0 <= m < |g| && s in g[m].sources;
    }
    assert g[m] in items;
  }
}
