/** The three provider adapters of the search: each turns one item of a
    provider's JSON answer into a classified `Record` whose provider list
    names that provider alone. JSON properties that may be absent are
    `Option`s; a property that may be a string or an array is a `StrOrList`. */
module Providers {
  import opened Wrappers
  import opened Text
  import opened Records
  import opened Seqs
  import opened Normalize
  import opened Classify
  import opened Dedup

  /** A JSON property that is absent, a string, or an array of strings. */
  datatype StrOrList = Missing | Str(s: string) | List(items: seq<string>)

  /** The first element of an array property, or the string itself (`""`
      when absent); an empty array has no first element. */
  function FirstOrText(x: StrOrList): (r: Option<string>)
    ensures r == None <==> x.List? && |x.items| == 0
    ensures x.List? && |x.items| > 0 ==> r == Some(x.items[0])
    ensures !x.List? ==> r == Some(OrEmpty(if x.Str? then Some(x.s) else None))
  {
    match x
    case List(items) => if |items| > 0 then Some(items[0]) else None
    case Str(s) => Some(s)
    case Missing => Some("")
  }

  /** An author object that carries only a `name`. */
  datatype NamedAuthor = NamedAuthor(name: Option<string>)

  function IsNamed(a: NamedAuthor): bool {
    Truthy(a.name)
  }

  /** The author names that are truthy, in order: read back as authors,
      they are exactly the authors with a truthy name, in order and with
      repeats kept. */
  function Names(authors: seq<NamedAuthor>): (ns: seq<string>)
    ensures |ns| <= |authors|
    ensures forall i | 0 <= i < |ns| :: ns[i] != ""
    ensures forall i | 0 <= i < |authors| && Truthy(authors[i].name) :: authors[i].name.value in ns
    ensures forall i | 0 <= i < |ns| :: NamedAuthor(Some(ns[i])) in authors
    ensures seq(|ns|, i requires 0 <= i < |ns| => NamedAuthor(Some(ns[i]))) == Filter(authors, IsNamed)
  {
    if authors == [] then []
    else if Truthy(authors[0].name) then
      var rest := Names(authors[1..]);
      var ns := [authors[0].name.value] + rest;
      assert seq(|ns|, i requires 0 <= i < |ns| => NamedAuthor(Some(ns[i])))
          == [authors[0]] + seq(|rest|, i requires 0 <= i < |rest| => NamedAuthor(Some(rest[i])));
      ns
    else Names(authors[1..])
  }

  /** An absent or non-array author property gives no authors. */
  function AuthorNames(authors: Option<seq<NamedAuthor>>): seq<string> {
    if authors.Some? then Names(authors.value) else []
  }

  /** `parts.join(sep)`. */
  function Join(parts: seq<string>, sep: string): string {
    if |parts| == 0 then ""
    else if |parts| == 1 then parts[0]
    else parts[0] + sep + Join(parts[1..], sep)
  }

  function NonEmpty(s: string): bool {
    s != ""
  }

  // ---- Crossref ----

  datatype CrossrefAuthor = CrossrefAuthor(family: Option<string>, given: Option<string>)

  datatype CrossrefLink = CrossrefLink(contentType: Option<string>)

  /** A work in Crossref's `message.items`. `issued` and `created` are the
      `date-parts` arrays of those dates. */
  datatype CrossrefItem = CrossrefItem(
    doi: Option<string>,
    title: StrOrList,
    authors: Option<seq<CrossrefAuthor>>,
    issued: Option<seq<seq<int>>>,
    created: Option<seq<seq<int>>>,
    containerTitle: StrOrList,
    abstractText: Option<string>,
    links: Option<seq<CrossrefLink>>,
    language: Option<string>,
    url: Option<string>)

  /** Family name, then given name, the empty ones left out, joined by a
      comma and a space. */
  function CrossrefAuthorName(a: CrossrefAuthor): string {
    Join(Filter([OrEmpty(a.family), OrEmpty(a.given)], NonEmpty), ", ")
  }

  lemma CrossrefAuthorNameCases(a: CrossrefAuthor)
    ensures CrossrefAuthorName(a) ==
      if Truthy(a.family) && Truthy(a.given) then a.family.value + ", " + a.given.value
      else if Truthy(a.family) then a.family.value
      else if Truthy(a.given) then a.given.value
      else ""
  {
    var f, g := OrEmpty(a.family), OrEmpty(a.given);
    assert [f, g][1..] == [g];
    assert [g][1..] == [];
    var tail := Filter([g], NonEmpty);
    assert tail == if g != "" then [g] else [];
    assert Filter([f, g], NonEmpty) == if f != "" then [f] + tail else tail;
    if f != "" && g != "" {
      assert ([f] + [g])[1..] == [g];
      assert Join([f] + [g], ", ") == f + ", " + Join([g], ", ");
    }
  }

  function CrossrefAuthors(authors: Option<seq<CrossrefAuthor>>): (ns: seq<string>)
    ensures authors.Some? ==> |ns| == |authors.value|
    ensures authors.None? ==> ns == []
  {
    if authors.Some? then seq(|authors.value|, i requires 0 <= i < |authors.value| => CrossrefAuthorName(authors.value[i]))
    else []
  }

  /** The first entry of the first `date-parts` row, when there is one. */
  function FirstDatePart(dp: Option<seq<seq<int>>>): Option<int> {
    if dp.Some? && |dp.value| > 0 && |dp.value[0]| > 0 then Some(dp.value[0][0]) else None
  }

  /** The issued year, else the created year, else none; a zero year is
      falsy and skipped. */
  function CrossrefYear(it: CrossrefItem): (y: Option<int>)
    ensures y == None || YearTruthy(y)
    ensures YearTruthy(FirstDatePart(it.issued)) ==> y == FirstDatePart(it.issued)
    ensures !YearTruthy(FirstDatePart(it.issued)) ==> y == OrYear(FirstDatePart(it.created), None)
  {
    OrYear(OrYear(FirstDatePart(it.issued), FirstDatePart(it.created)), None)
  }

  /** Open access: the `link` property is an array and some link's content
      type mentions "pdf". */
  predicate HasPdfLink(links: Option<seq<CrossrefLink>>) {
    links.Some? && exists i | 0 <= i < |links.value| :: Contains(OrEmpty(links.value[i].contentType), "pdf")
  }

  /** The item's `URL`, else the DOI resolver link when there is a DOI. */
  function CrossrefUrl(url: Option<string>, doi: Option<string>): Option<string> {
    OrStr(url, if Truthy(doi) then Some("https://doi.org/" + doi.value) else None)
  }

  /** The id: the DOI, else `crossref:` followed by the text of a random
      number, which the caller supplies. */
  function CrossrefId(doi: Option<string>, random: string): string {
    if Truthy(doi) then doi.value else "crossref:" + random
  }

  /** The Crossref adapter: the item's fields become a record without
      labels, which the classifier then labels. */
  function MapCrossref(it: CrossrefItem, random: string): (r: Record)
    ensures r == Classify.Classify(r.(studyType := None, studyMethod := None, population := None))
    ensures r.sources == ["Crossref"]
    ensures r.title == FirstOrText(it.title) && r.journal == FirstOrText(it.containerTitle)
    ensures r.authors == CrossrefAuthors(it.authors) && r.year == CrossrefYear(it)
    ensures r.language == OrStr(it.language, None)
    ensures r.oa <==> it.links.Some? && exists i | 0 <= i < |it.links.value| :: Contains(OrEmpty(it.links.value[i].contentType), "pdf")
    ensures Truthy(it.doi) ==> r.id == it.doi.value && r.doi == it.doi
    ensures !Truthy(it.doi) ==> r.id == "crossref:" + random && r.doi == None
    ensures Truthy(it.url) ==> r.url == it.url
    ensures !Truthy(it.url) && Truthy(it.doi) ==> r.url == Some("https://doi.org/" + it.doi.value)
    ensures !Truthy(it.url) && !Truthy(it.doi) ==> r.url == None
    ensures r.language == None || Truthy(r.language)
    ensures r.year == None || YearTruthy(r.year)
    ensures Collapsed(r.abstractText) && !HasTag(r.abstractText)
    ensures r.abstractText == CleanAbstract(it.abstractText)
    ensures r.studyType == None || r.studyType.value in TypeLabels
    ensures r.studyMethod == None || r.studyMethod.value in MethodLabels
    ensures r.population == None || r.population.value in PopulationLabels
  {
    var doi := OrStr(it.doi, None);
    Classify.Classify(Record(
      id := CrossrefId(doi, random),
      title := FirstOrText(it.title),
      authors := CrossrefAuthors(it.authors),
      year := CrossrefYear(it),
      journal := FirstOrText(it.containerTitle),
      doi := doi,
      abstractText := CleanAbstract(it.abstractText),
      oa := HasPdfLink(it.links),
      language := OrStr(it.language, None),
      url := CrossrefUrl(it.url, doi),
      studyType := None,
      studyMethod := None,
      population := None,
      sources := ["Crossref"]))
  }

  // ---- PubMed ----

  datatype ArticleId = ArticleId(idType: Option<string>, value: Option<string>)

  /** An entry of PubMed's `esummary` result. */
  datatype Summary = Summary(
    title: Option<string>,
    authors: Option<seq<NamedAuthor>>,
    fullJournalName: Option<string>,
    source: Option<string>,
    pubdate: Option<string>,
    articleIds: Option<seq<ArticleId>>,
    lang: Option<seq<string>>,
    pubType: Option<seq<string>>)

  /** Four decimal digits start at `i`. */
  predicate DigitsAt(s: string, i: int) {
    0 <= i && i + 4 <= |s| && forall k | i <= k < i + 4 :: IsDigit(s[k])
  }

  /** Where the regex `(\d{4})` matches first at or after `i`, or -1. */
  function FirstDigitRun(s: string, i: nat): (k: int)
    requires i <= |s|
    ensures k == -1 || (i <= k && DigitsAt(s, k))
    ensures forall j | i <= j < |s| && (k == -1 || j < k) :: !DigitsAt(s, j)
    decreases |s| - i
  {
    if i + 4 > |s| then -1
    else if DigitsAt(s, i) then i
    else FirstDigitRun(s, i + 1)
  }

  /** The year of a PubMed publication date: the number written by the first
      run of four digits, else none. */
  function PubMedYear(pubdate: Option<string>): (y: Option<int>)
    ensures y.Some? <==> exists j | 0 <= j < |OrEmpty(pubdate)| :: DigitsAt(OrEmpty(pubdate), j)
    ensures y.Some? ==> 0 <= y.value <= 9999
  {
    var s := OrEmpty(pubdate);
    var k := FirstDigitRun(s, 0);
    if k < 0 then None
    else
      var digits := s[k..k + 4];
      assert forall m | 0 <= m < 4 :: IsDigit(digits[m]) by {
        forall m | 0 <= m < 4 ensures IsDigit(digits[m]) {
          assert digits[m] == s[k + m];
        }
      }
      DecimalBelow(digits);
      assert |digits| == 4;
      assert Pow10(4) == 10 * Pow10(3) == 10000 by {
        assert Pow10(1) == 10;
        assert Pow10(2) == 100;
      }
      Some(DecimalValue(digits))
  }

  function Pow10(n: nat): (p: nat)
    ensures p > 0
  {
    if n == 0 then 1 else 10 * Pow10(n - 1)
  }

  /** A number written with `n` digits is below `10^n`. */
  lemma {:induction false} DecimalBelow(s: string)
    requires forall i :: 0 <= i < |s| ==> IsDigit(s[i])
    ensures DecimalValue(s) < Pow10(|s|)
  {
    if s != [] {
      DecimalBelow(s[..|s| - 1]);
    }
  }

  /** The year is read from the first four-digit run, whatever follows. */
  lemma PubMedYearFirstRun(pubdate: string, k: int)
    requires DigitsAt(pubdate, k)
    requires forall j | 0 <= j < k :: !DigitsAt(pubdate, j)
    ensures PubMedYear(Some(pubdate)) == Some(DecimalValue(pubdate[k..k + 4]))
  {
    assert FirstDigitRun(pubdate, 0) == k;
  }

  /** The language table of the PubMed adapter. */
  function LangMap(code: string): Option<string> {
    if code == "eng" then Some("en")
    else if code == "por" then Some("pt")
    else if code == "spa" then Some("es")
    else if code == "fra" then Some("fr")
    else None
  }

  /** The first language code, translated when the table knows it. */
  function PubMedLanguage(lang: Option<seq<string>>): (r: Option<string>)
    ensures r == None <==> lang.None? || |lang.value| == 0 || lang.value[0] == ""
    ensures r.Some? && LangMap(lang.value[0]).None? ==> r == Some(lang.value[0])
    ensures lang.Some? && |lang.value| > 0 && LangMap(lang.value[0]).Some? ==> r == LangMap(lang.value[0])
    ensures r.Some? ==> r.value != ""
  {
    var codes := if lang.Some? then lang.value else [];
    if |codes| == 0 then None
    else OrStr(OrStr(LangMap(codes[0]), Some(codes[0])), None)
  }

  /** The table knows exactly four codes. */
  lemma LangMapEntries(code: string)
    ensures LangMap(code).Some? <==> code in {"eng", "por", "spa", "fra"}
    ensures LangMap("eng") == Some("en") && LangMap("por") == Some("pt")
    ensures LangMap("spa") == Some("es") && LangMap("fra") == Some("fr")
  {
  }

  /** For any list of codes, only the first one matters: the four known
      codes are translated, an empty code gives none, and any other code
      passes through. */
  lemma PubMedLanguageTable(codes: seq<string>)
    requires |codes| > 0
    ensures PubMedLanguage(Some(codes)) ==
      if codes[0] == "eng" then Some("en")
      else if codes[0] == "por" then Some("pt")
      else if codes[0] == "spa" then Some("es")
      else if codes[0] == "fra" then Some("fr")
      else if codes[0] == "" then None
      else Some(codes[0])
    ensures PubMedLanguage(Some([])) == None && PubMedLanguage(None) == None
  {
  }

  function IsDoiId(a: ArticleId): bool {
    a.idType == Some("doi")
  }

  /** The value of the first article id of type `doi`. */
  function PubMedDoi(ids: Option<seq<ArticleId>>): (d: Option<string>)
    ensures d.Some? ==> ids.Some? && exists i | 0 <= i < |ids.value| :: IsDoiId(ids.value[i]) && ids.value[i].value == d
    ensures ids.None? || (forall i | 0 <= i < |ids.value| :: !IsDoiId(ids.value[i])) ==> d == None
    ensures ids.Some? ==> forall k | 0 <= k < |ids.value| && IsDoiId(ids.value[k]) && (forall j | 0 <= j < k :: !IsDoiId(ids.value[j])) ::
                            d == ids.value[k].value
  {
    if ids.None? then None
    else
      var k := FindIndex(ids.value, IsDoiId);
      if k < 0 then None else ids.value[k].value
  }

  /** The first publication type, when it is truthy. */
  function PubMedType(pubType: Option<seq<string>>): (t: Option<string>)
    ensures t == None || Truthy(t)
    ensures pubType.Some? && |pubType.value| > 0 && pubType.value[0] != "" ==> t == Some(pubType.value[0])
  {
    if pubType.Some? && |pubType.value| > 0 then OrStr(Some(pubType.value[0]), None) else None
  }

  /** The PubMed adapter for the summary `it` of the article `uid`: the
      summary's fields, with the first publication type as the incoming
      type, become a record that the classifier then labels. */
  function MapSummary(uid: string, it: Summary): (r: Record)
    ensures r == Classify.Classify(r.(studyType := PubMedType(it.pubType), studyMethod := None, population := None))
    ensures r.sources == ["PubMed"]
    ensures r.title == Some(OrEmpty(it.title)) && r.journal == Some(OrEmpty(OrStr(it.fullJournalName, it.source)))
    ensures r.authors == AuthorNames(it.authors)
    ensures !r.oa && r.abstractText == ""
    ensures r.url == Some("https://pubmed.ncbi.nlm.nih.gov/" + uid + "/")
    ensures r.id == if Truthy(r.doi) then r.doi.value else "pubmed:" + uid
    ensures r.doi == PubMedDoi(it.articleIds)
    ensures r.year == PubMedYear(it.pubdate)
    ensures r.language == PubMedLanguage(it.lang)
  {
    var doi := PubMedDoi(it.articleIds);
    Classify.Classify(Record(
      id := if Truthy(doi) then doi.value else "pubmed:" + uid,
      title := Some(OrEmpty(it.title)),
      authors := AuthorNames(it.authors),
      year := PubMedYear(it.pubdate),
      journal := Some(OrEmpty(OrStr(it.fullJournalName, it.source))),
      doi := doi,
      abstractText := "",
      oa := false,
      language := PubMedLanguage(it.lang),
      url := Some("https://pubmed.ncbi.nlm.nih.gov/" + uid + "/"),
      studyType := PubMedType(it.pubType),
      studyMethod := None,
      population := None,
      sources := ["PubMed"]))
  }

  /** The adapter's answer: one record per uid that has a summary, in the
      order of `uids`. */
  function PubMedRecords(uids: seq<string>, root: map<string, Summary>): (out: seq<Record>)
    ensures |out| <= |uids|
  {
    MapPresent(uids, root, MapSummary)
  }

  /** The loop over `uids`: a uid without a summary is skipped, every other
      one appends its mapped record. */
  method MapPubMed(uids: seq<string>, root: map<string, Summary>) returns (out: seq<Record>)
    ensures out == PubMedRecords(uids, root)
  {
    out := [];
    var i := 0;
    while i < |uids|
      invariant 0 <= i <= |uids|
      invariant out == MapPresent(uids[..i], root, MapSummary)
    {
      var uid := uids[i];
      SliceSnoc(uids, i);
      MapPresentSnoc(uids[..i], uid, root, MapSummary);
      if uid in root {
        out := out + [MapSummary(uid, root[uid])];
      }
      i := i + 1;
    }
    SliceAll(uids);
  }

  /** Every uid with a summary gives a record, and every record comes from
      a uid with a summary. */
  lemma PubMedKeepsSummarised(uids: seq<string>, root: map<string, Summary>)
    ensures forall j | 0 <= j < |PubMedRecords(uids, root)| :: MappedFrom(uids, root, MapSummary, PubMedRecords(uids, root)[j])
    ensures forall i | 0 <= i < |uids| && uids[i] in root :: MapSummary(uids[i], root[uids[i]]) in PubMedRecords(uids, root)
  {
    MapPresentExactly(uids, root, MapSummary);
  }

  /** A Crossref work and a PubMed summary whose DOIs differ only in letter
      case and surrounding white space map to records with one dedup key,
      so `dedup` merges them. */
  lemma CrossrefPubMedShareKey(it: CrossrefItem, random: string, uid: string, s: Summary,
                               pre1: string, core1: string, post1: string, pre2: string, core2: string, post2: string)
    requires it.doi == Some(pre1 + core1 + post1) && PubMedDoi(s.articleIds) == Some(pre2 + core2 + post2)
    requires AllWs(pre1) && AllWs(post1) && AllWs(pre2) && AllWs(post2)
    requires NoEdgeWs(core1) && NoEdgeWs(core2) && core1 != []
    requires LowerStr(core1) == LowerStr(core2)
    ensures Key(MapCrossref(it, random)) == Key(MapSummary(uid, s)) == LowerStr(core1)
  {
    DoiVariantsShareKey(MapCrossref(it, random), MapSummary(uid, s), pre1, core1, post1, pre2, core2, post2);
  }

  // ---- DOAJ ----

  datatype DoajIdentifier = DoajIdentifier(kind: Option<string>, id: Option<string>)

  datatype DoajLink = DoajLink(kind: Option<string>, url: Option<string>)

  /** The `bibjson` of a DOAJ article; `journalTitle` and `journalLanguage`
      are the `journal` object's `title` and `language`, and `year` is the
      `year` property read as a number (none when it is not one). */
  datatype Bibjson = Bibjson(
    title: Option<string>,
    authors: Option<seq<NamedAuthor>>,
    year: Option<int>,
    journalTitle: Option<string>,
    journalLanguage: Option<seq<string>>,
    identifiers: Option<seq<DoajIdentifier>>,
    abstractText: Option<string>,
    language: StrOrList,
    links: Option<seq<DoajLink>>)

  /** A DOAJ search result; an absent `bibjson` reads as one with every
      property absent. */
  datatype DoajItem = DoajItem(id: Option<string>, bibjson: Option<Bibjson>)

  const EmptyBibjson := Bibjson(None, None, None, None, None, None, None, Missing, None)

  function IsDoiIdentifier(x: DoajIdentifier): bool {
    LowerStr(OrEmpty(x.kind)) == "doi"
  }

  /** The `id` of the first identifier whose type is `doi` in any case. */
  function DoajDoi(idents: Option<seq<DoajIdentifier>>): (d: Option<string>)
    ensures d.Some? ==> idents.Some? && exists i | 0 <= i < |idents.value| :: IsDoiIdentifier(idents.value[i]) && idents.value[i].id == d
    ensures idents.None? || (forall i | 0 <= i < |idents.value| :: !IsDoiIdentifier(idents.value[i])) ==> d == None
    ensures idents.Some? ==> forall k | 0 <= k < |idents.value| && IsDoiIdentifier(idents.value[k]) &&
                                        (forall j | 0 <= j < k :: !IsDoiIdentifier(idents.value[j])) ::
                               d == idents.value[k].id
  {
    if idents.None? then None
    else
      var k := FindIndex(idents.value, IsDoiIdentifier);
      if k < 0 then None else idents.value[k].id
  }

  /** The journal's first language is truthy, so it is the one taken. */
  predicate JournalLanguageUsed(b: Bibjson) {
    b.journalLanguage.Some? && |b.journalLanguage.value| > 0 && b.journalLanguage.value[0] != ""
  }

  /** The first language of the journal, else the article's `language`,
      which may itself be an array whose first entry is taken. */
  function DoajLanguage(b: Bibjson): (r: Option<string>)
    ensures r == None || Truthy(r)
    ensures JournalLanguageUsed(b) ==> r == Some(b.journalLanguage.value[0])
    ensures !JournalLanguageUsed(b) && b.language.Str? && b.language.s != "" ==> r == Some(b.language.s)
    ensures !JournalLanguageUsed(b) && b.language.List? ==>
              r == if |b.language.items| > 0 && b.language.items[0] != "" then Some(b.language.items[0]) else None
    ensures !JournalLanguageUsed(b) && (b.language.Missing? || b.language == Str("")) ==> r == None
  {
    var fromJournal := JournalLanguageUsed(b);
    var lang :=
      if fromJournal then Str(b.journalLanguage.value[0])
      else if b.language.List? || (b.language.Str? && b.language.s != "") then b.language
      else Missing;
    match lang
    case List(items) => if |items| > 0 && items[0] != "" then Some(items[0]) else None
    case Str(s) => Some(s)
    case Missing => None
  }

  function IsFullText(l: DoajLink): bool {
    Contains(LowerStr(OrEmpty(l.kind)), "full")
  }

  /** The record's url: the url of the first link whose type mentions
      "full" in any case, else the url of the first link. `app-compat.js`
      turns an empty or missing result into `null`; `app.js` keeps it. */
  function DoajUrl(v: Variant, links: Option<seq<DoajLink>>): (r: Option<string>)
    ensures links.None? ==> r == None
  {
    match links
    case None => None
    case Some(ls) =>
      var k := FindIndex(ls, IsFullText);
      var found := if k >= 0 then ls[k].url else None;
      var first := if |ls| > 0 then ls[0].url else None;
      match v
      case Modern => OrStr(found, first)
      case Compat => OrStr(OrStr(found, first), None)
  }

  /** The url of the first full-text link wins when it has one, otherwise
      the first link's url does; the two copies differ only where that is
      empty or missing. */
  lemma DoajUrlChoice(v: Variant, ls: seq<DoajLink>, k: int)
    requires 0 <= k < |ls| && IsFullText(ls[k]) && forall j | 0 <= j < k :: !IsFullText(ls[j])
    ensures Truthy(ls[k].url) ==> DoajUrl(v, Some(ls)) == ls[k].url
    ensures !Truthy(ls[k].url) && Truthy(ls[0].url) ==> DoajUrl(v, Some(ls)) == ls[0].url
    ensures DoajUrl(Compat, Some(ls)) == if Truthy(DoajUrl(Modern, Some(ls))) then DoajUrl(Modern, Some(ls)) else None
  {
    assert FindIndex(ls, IsFullText) == k;
  }

  /** Without any full-text link the first link's url is taken. */
  lemma DoajUrlNoFullText(v: Variant, ls: seq<DoajLink>)
    requires |ls| > 0 && forall j | 0 <= j < |ls| :: !IsFullText(ls[j])
    ensures DoajUrl(Modern, Some(ls)) == ls[0].url
    ensures DoajUrl(Compat, Some(ls)) == OrStr(ls[0].url, None)
  {
  }

  /** The DOAJ adapter: the article's `bibjson` fields become a record
      without labels, which the classifier then labels. */
  function MapDoaj(v: Variant, it: DoajItem): (r: Record)
    ensures r == Classify.Classify(r.(studyType := None, studyMethod := None, population := None))
    ensures r.sources == ["DOAJ"]
    ensures var b := it.bibjson.GetOr(EmptyBibjson);
      && r.title == Some(OrEmpty(b.title)) && r.journal == Some(OrEmpty(b.journalTitle))
      && r.authors == AuthorNames(b.authors) && r.year == OrYear(b.year, None)
      && r.abstractText == OrEmpty(b.abstractText) && r.language == DoajLanguage(b)
    ensures r.url == DoajUrl(v, it.bibjson.GetOr(EmptyBibjson).links)
    ensures r.oa
    ensures var d := DoajDoi(it.bibjson.GetOr(EmptyBibjson).identifiers);
      r.doi == d && r.id == if Truthy(d) then d.value else "doaj:" + it.id.GetOr("undefined")
    ensures r.year == None || YearTruthy(r.year)
    ensures r.language == None || Truthy(r.language)
    ensures r.title.Some? && r.journal.Some?
    ensures r.studyType == None || r.studyType.value in TypeLabels
    ensures r.studyMethod == None || r.studyMethod.value in MethodLabels
    ensures r.population == None || r.population.value in PopulationLabels
  {
    var b := it.bibjson.GetOr(EmptyBibjson);
    var doi := DoajDoi(b.identifiers);
    Classify.Classify(Record(
      id := if Truthy(doi) then doi.value else "doaj:" + it.id.GetOr("undefined"),
      title := Some(OrEmpty(b.title)),
      authors := AuthorNames(b.authors),
      year := OrYear(b.year, None),
      journal := Some(OrEmpty(b.journalTitle)),
      doi := doi,
      abstractText := OrEmpty(b.abstractText),
      oa := true,
      language := DoajLanguage(b),
      url := DoajUrl(v, b.links),
      studyType := None,
      studyMethod := None,
      population := None,
      sources := ["DOAJ"]))
  }
}
