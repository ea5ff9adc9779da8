/** The normalised bibliographic record every provider adapter produces, and
    JavaScript truthiness for its fields. */
module Records {
  import opened Wrappers

  /** The two copies of the pipeline: `app.js` (modern JavaScript) and
      `app-compat.js` (ES5). They differ in the dedup merge, the language
      filter and the DOAJ link fallback. */
  datatype Variant = Modern | Compat

  /** A search result. `abstractText`, `studyType`, `studyMethod` and `population` are the
      record's `abstract`, `type`, `method` and `population` properties. JavaScript
      `null`/`undefined` are `None`. */
  datatype Record = Record(
    id: string,
    title: Option<string>,
    authors: seq<string>,
    year: Option<int>,
    journal: Option<string>,
    doi: Option<string>,
    abstractText: string,
    oa: bool,
    language: Option<string>,
    url: Option<string>,
    studyType: Option<string>,
    studyMethod: Option<string>,
    population: Option<string>,
    sources: seq<string>)

  /** JavaScript truthiness of a nullable string: `null`, `undefined` and
      `""` are falsy. */
  predicate Truthy(s: Option<string>) {
    s.Some? && s.value != ""
  }

  /** JavaScript truthiness of a nullable number: `null` and `0` are falsy. */
  predicate YearTruthy(y: Option<int>) {
    y.Some? && y.value != 0
  }

  /** `a || b` on nullable strings. */
  function OrStr(a: Option<string>, b: Option<string>): (r: Option<string>)
    ensures Truthy(r) <==> Truthy(a) || Truthy(b)
    ensures Truthy(a) ==> r == a
  {
    if Truthy(a) then a else b
  }

  /** `a || b` on nullable numbers. */
  function OrYear(a: Option<int>, b: Option<int>): (r: Option<int>)
    ensures YearTruthy(r) <==> YearTruthy(a) || YearTruthy(b)
    ensures YearTruthy(a) ==> r == a
  {
    if YearTruthy(a) then a else b
  }

  /** A nullable string as text, empty when falsy. */
  function OrEmpty(s: Option<string>): (r: string)
    ensures Truthy(s) ==> Some(r) == s
    ensures !Truthy(s) ==> r == ""
  {
    match s
    case Some(v) => v
    case None => ""
  }

  /** The nullable string fields of a record (`id` and `abstract` are plain
      strings, seen here as always present). */
  datatype Field = Id | Title | Journal | Doi | Abstract | Language | Url | StudyType | StudyMethod | Population

  function Get(r: Record, f: Field): Option<string> {
    match f
    case Id => Some(r.id)
    case Title => r.title
    case Journal => r.journal
    case Doi => r.doi
    case Abstract => Some(r.abstractText)
    case Language => r.language
    case Url => r.url
    case StudyType => r.studyType
    case StudyMethod => r.studyMethod
    case Population => r.population
  }

  /** The records' provider lists, one after the other. */
  function AllSources(rs: seq<Record>): seq<string> {
    if rs == [] then [] else AllSources(rs[..|rs| - 1]) + rs[|rs| - 1].sources
  }
}
