# Literature search: result reconciliation

This project models the part of the browser literature search that runs
after its three provider calls (Crossref, PubMed, DOAJ) have settled. It
covers:

- the provider adapters, which turn raw items into `Record`s;
- the rule-based classifier, which fills in the study type, method and
  population;
- the combination of the settled calls into one record list and an error
  map;
- deduplication, which groups records by a DOI or title/year key and
  merges each group;
- the language and open-access filters;
- the facet counters;
- the saved-list toggle and remove operations.

The code exists twice, in a modern file (`app.js`) and an ES5 copy
(`app-compat.js`). They differ in three places, and the model keeps each
difference as a `Variant` (`Modern` or `Compat`):

- which fields the dedup merge combines;
- whether the ticked language codes are lower-cased;
- whether a DOAJ record's missing url ends up as `null`.

Modules, in dependency order:

| module | file | contents |
|---|---|---|
| `Wrappers` | `wrappers.dfy` | `Option`, standing for JavaScript's `null`/`undefined` |
| `Text` | `text.dfy` | ECMAScript white space and `trim`, lower-casing, white-space collapsing, substring and `\b` matching, decimal text of integers |
| `Records` | `records.dfy` | `Record`, the two variants, JavaScript truthiness and the `a \|\| b` chains |
| `Seqs` | `seqs.dfy` | filter, first-truthy, duplicate-free union, subsequence and lookup-and-map, with their lemmas |
| `Normalize` | `normalize.dfy` | `normalizeTitle`, `cleanAbstract` |
| `Classify` | `classify.dfy` | `classify` and its pattern predicates |
| `Grouping` | `grouping.dfy` | the insertion-ordered group-and-merge loop behind `dedup`, generic in key and merge |
| `Dedup` | `dedup.dfy` | the dedup key, the two merges, `dedup` |
| `Facets` | `facets.dfy` | `buildFacets` |
| `Filters` | `filters.dfy` | the language filter and the open-access filter |
| `Providers` | `providers.dfy` | the Crossref, PubMed and DOAJ item mappers |
| `Search` | `search.dfy` | the year defaults, the combination of settled results, the pipeline of `search` |
| `Saved` | `saved.dfy` | the saved list's toggle and remove |

Modelling conventions:

- A JavaScript string that may be `null` or `undefined` is an
  `Option<string>`; `null` and `undefined` are both `None`. It is truthy
  when it is `Some` of a non-empty string.
- A year is an `Option<int>` and is truthy when it is non-zero.
- Each facet (a JavaScript object of counters) is a `multiset`. A value's
  count is its multiplicity.
- The `byKey` dictionary of `dedup` is kept as the sequence of keys in
  first-seen order plus a map from key to merged record. This is the
  insertion-ordered behaviour of the modern file's `Map`.
- The imperative loops of the source are methods with loop invariants,
  each proved equal to a reference function:
  - the dedup loop (`Grouping.GroupMergeLoop`, `Dedup.Dedup`);
  - the facet counting (`Facets.BuildFacets`);
  - the PubMed loop (`Providers.MapPubMed`);
  - the saved-list search in the compat remove handler (`Saved.RemoveClicked`).

  The combination of settled results (`Search.Combine`) has no loop: it is
  a method whose successive updates of the record list and the error map
  are proved to give the same reference functions. The properties are
  then proved about those functions.

Notes on the code's behaviour:

- **Labels.** The classifier's labels are Portuguese ("Meta-análise",
  "Revisão", "Ensaio clínico", …).
- **Classifier idempotence.** Classifying a classified record can change
  it again; see `Classify.ClassifyNotIdempotent`.
- **Record id.** A record's `id` is the DOI exactly as delivered, not
  trimmed and not lower-cased.
- **Modern merge.** The modern file's dedup merge fills only title,
  journal, abstract, language and url from later members, plus authors,
  `oa` and `sources`. It keeps the first member's id, year, DOI, type,
  method and population, even when those are empty.
- **Language codes.** The modern file does not lower-case the ticked
  language codes.

## Model

| member | source | states |
|---|---|---|
| Normalize.NormalizeTitle | app.js:118 | the normalised title has no leading, trailing or doubled white space, every white space is a plain space, and no upper-case letter is left; a title that is already single-spaced and trimmed comes out as its lower-case form, character for character |
| Normalize.NormalizeTitleIgnoresCase | app-compat.js:120 | lower-casing a title first does not change its normal form |
| Normalize.NormalizeTitleIdempotent | app-compat.js:120 | normalising a normalised title gives it back unchanged |
| Normalize.StripTags | app.js:116 | removing the tags leaves no `<` that is followed later by a `>` with something in between, and keeps a first character that is not `<`; text without any `<` is kept unchanged |
| Normalize.CleanAbstract | app.js:116 | the cleaned abstract is collapsed and trimmed, and no tag pattern matches anywhere in it; an abstract without `<` that is already single-spaced and trimmed comes back unchanged |
| Normalize.StripTagsPrefix | app.js:116 | text without `<` in front of anything passes through tag stripping unchanged, and stripping goes on after it |
| Normalize.StripTagsOverTag | app.js:116 | a tag `<t>` (at least one character, no `>` inside) that follows text without `<` becomes one space, the text before it is kept, and stripping goes on after it |
| Normalize.CleanAbstractParagraph | app-compat.js:119 | an abstract wrapped in `<p>` … `</p>`, with no other markup, is cleaned to its own text collapsed and trimmed |
| Normalize.NormalizeTitlePadded | app.js:118 | white space before and after a title, of any kind and length, does not change its normal form |
| Normalize.NormalizeTitleRun | app.js:118 | any non-empty run of white space inside a title gives the same normal form as one plain space there |
| Normalize.NormalizeTitleExample | app.js:118 | the title " Deep \n Learning\t" normalises to "deep learning" |
| Normalize.CleanAbstractPadded | app.js:116 | white space before and after an abstract without `<` does not change the cleaned abstract |
| Normalize.CleanAbstractRun | app.js:116 | any non-empty run of white space after text without `<` cleans to the same result as one plain space there, whatever markup follows |
| Text.CollapseRun | app.js:118 | collapsing white space treats any non-empty run of white space exactly as one plain space, whatever stands before and after it |
| Text.SquishRun | app.js:118 | collapsing then trimming treats any non-empty run of white space inside a string as one plain space |
| Text.SquishPadded | app.js:118 | collapsing then trimming ignores white space before and after a string |
| Classify.ClassifyType | app-compat.js:124-129 | the type is the incoming type or one of the five type labels; meta-analysis beats review beats trial beats case study; when none of those match, a qualitative match gives the field-study label exactly when the incoming type is falsy; with no match the incoming type stays |
| Classify.ClassifyMethod | app-compat.js:131-134 | the method is the incoming method or one of the three method labels; a qualitative match wins even over trial words; then quantitative, then mixed; otherwise the incoming method |
| Classify.ClassifyPopulation | app-compat.js:136-141 | the population is the incoming one or one of the five labels; an adolescent match always wins, then children, adults, elderly, caregivers |
| Classify.Classify | app.js:120-142 | the result equals the input except in type, method and population, and each of those three is decided by its own rule list over the lower-cased title, abstract and type |
| Classify.Haystack | app-compat.js:123 | the text the rules read is the lower-cased title, abstract and incoming type (each empty when falsy) joined by single spaces, and has no upper-case letter |
| Classify.HaystackHolds | app.js:121 | a word found in the lower-cased title, abstract or incoming type is found in the text the rules read |
| Classify.ClassifyNotIdempotent | app.js:123-125 | a record typed "review" whose title says "clinical trial" is classified "Revisão", and classifying the result again gives "Ensaio clínico" |
| Dedup.Key | app-compat.js:152-153 | the key is the trimmed, lower-cased DOI when that is non-empty; without one, a single-spaced, trimmed title reaches the key whole and lower-cased, followed by a bar and the year's digits (empty for a falsy year) |
| Dedup.KeyYears | app.js:148 | without DOIs, two records with the same normalised title share a key exactly when both years are falsy or both are the same truthy year |
| Dedup.TitleVariantsShareKey | app.js:147-148 | without DOIs and with equal years, two titles that are equal once lower-cased, with each run of white space counted as one space, give the same key |
| Dedup.DoiVariantsShareKey | app.js:147-148 | two records whose DOIs differ only in letter case and surrounding white space have the same key, whatever their titles and years |
| Dedup.MergeGet | app.js:152-162 | one merge step takes, for each field the variant merges, the earlier value when truthy and the later one otherwise, and keeps the earlier record's value for every other field |
| Dedup.MergeGroupField | app-compat.js:158-171 | each merged string field of a group is the first truthy value in arrival order; each field the variant does not merge is the first member's (the modern merge keeps id, DOI, type, method and population from the first member) |
| Dedup.MergeGroupYear | app-compat.js:161 | the compat merge takes the first truthy year of the group; the modern merge keeps the first member's year |
| Dedup.MergeGroupAuthors | app.js:155 | the merged authors are the first non-empty author list of the group |
| Dedup.MergeGroupOa | app-compat.js:165 | a merged record is open access iff some member is |
| Dedup.MergeGroupSources | app.js:161 | the merged provider list of a group of two or more is one duplicate-free union over all members' lists in arrival order |
| Dedup.MergedSources | app.js:161 | the merged provider list names every provider of every member and nothing else, each once; earlier members' providers come first; its length is at most the sum of the members' lengths and at least any member's duplicate-free list |
| Dedup.DedupSpec | app.js:144-166 | deduplication returns one record per distinct key, so never more records than it was given, and the record at each position is the merge of the group of records with that position's key |
| Dedup.DedupLoneKey | app.js:149-150 | a record whose key no other record has comes back unchanged, at the position of its key |
| Dedup.Dedup | app-compat.js:148-176 | the grouping loop returns exactly the specified deduplication |
| Grouping.GroupMergeLoop | app.js:145-165 | the loop that stores the first record of a new key, merges a record with a known key into the stored one and finally lists the stored records in key insertion order returns the group-and-merge function |
| Dedup.DedupPartitions | app.js:148-149 | every input record's key is among the output keys, and the record belongs to the group of exactly that output position |
| Dedup.DedupFirstSeenOrder | app-compat.js:175 | the output comes in the order in which each key first appears in the input |
| Dedup.DedupDistinctKeys | app.js:149 | when no two records share a key, deduplication returns its input unchanged |
| Dedup.DedupSourcesFromInput | app.js:161 | every provider named on an output record is named on some input record |
| Facets.BuildFacets | app-compat.js:178-192 | the counting loop returns the specified facets, and the provider facet holds as many entries as all records' provider lists together |
| Facets.CountRecord | app.js:170-177 | counting one record adds exactly its truthy year, lower-cased language, type, method, population and each provider entry |
| Facets.YearCount | app.js:171 | the count of a year is the number of records with that year; the falsy year 0 is never counted |
| Facets.FieldCount | app-compat.js:180-189 | the count of a value in a string facet is the number of records whose field has that value (the language compared lower-cased); the empty string is never counted |
| Facets.SourceCount | app.js:173 | when no record names a provider twice, the count of a provider is the number of records naming it |
| Filters.LanguageFilter | app-compat.js:298-301 | with no ticked language every record is kept; otherwise a record is kept iff it has no language or its lower-cased language is accepted; the result is an order-preserving subsequence of the input, and each record that passes occurs in it as many times as in the input |
| Filters.OaFilter | app.js:287 | when on, a record is kept iff it is open access; when off, nothing changes; the result is an order-preserving subsequence of the input, and each record that passes occurs in it as many times as in the input |
| Filters.FiltersCommute | app-compat.js:298-302 | the language filter and the open-access filter can be applied in either order |
| Filters.FiltersIdempotent | app.js:283-287 | applying either filter a second time removes nothing more |
| Filters.ModernUpperCaseNeverMatches | app.js:283-285 | in the modern file, when every ticked code contains an upper-case letter, exactly the records without a language survive |
| Filters.LowerCaseCodesAgree | app-compat.js:298-299 | when every ticked code is lower case, the two files' language filters agree |
| Filters.UpperCaseCodeDiffers | app.js:284-285 | ticking "EN" keeps an English record in the compat file and drops it in the modern one |
| Providers.Names | app.js:224 | the author names, read back as authors, are exactly the authors with a truthy name, in order and with repeats kept; none of them is empty |
| Providers.CrossrefAuthorNameCases | app.js:193 | a Crossref author's name is "family, given", or whichever one of the two is non-empty, or "" |
| Providers.CrossrefYear | app.js:194 | the year is the first issued date part when truthy, else the first created date part when truthy, else none |
| Providers.MapCrossref | app-compat.js:206-216 | the record is the classifier's output over the unlabelled record; its title and journal are the first entry of the item's title and container-title when those are arrays, else their text or ""; its authors are the Crossref author names and its year the Crossref year; its language is the item's when truthy; it names only Crossref; it is open access iff some link's content type contains "pdf"; its id is the DOI, or "crossref:" and a random text; its url is the item's URL, else the DOI link, else none; its abstract is the cleaned one |
| Providers.FirstDigitRun | app.js:226 | the position returned is where four digits first start at or after the given index, or -1 when they never do |
| Providers.PubMedYear | app.js:226 | a PubMed year exists iff the publication date contains four consecutive digits, and it lies in 0..9999 |
| Providers.PubMedYearFirstRun | app-compat.js:244 | the year is the number written by the first run of four digits, whatever comes after |
| Providers.PubMedLanguage | app.js:228 | the language is none iff the first language code is missing or empty; a code the table knows is translated by it; a code it does not know passes through unchanged |
| Providers.PubMedLanguageTable | app-compat.js:246 | for any list of codes only the first matters: eng, por, spa and fra give en, pt, es and fr, an empty code gives none, any other code passes through; a missing or empty list gives none |
| Providers.LangMapEntries | app.js:228 | the language table knows exactly eng, por, spa and fra, and maps them to en, pt, es and fr |
| Providers.PubMedDoi | app.js:227 | the DOI is the value of the first article id of type doi, and none when no article id has that type |
| Providers.PubMedType | app.js:230-231 | the incoming type is the first publication type when that is non-empty, and none otherwise |
| Providers.MapSummary | app.js:222-231 | the record is the classifier's output over the unlabelled record whose incoming type is the first publication type; its title and journal (full journal name, else source) are the summary's, empty when missing; its authors are the named authors; it names only PubMed, is not open access, has an empty abstract and the PubMed url of its uid; its id is the DOI when truthy, else "pubmed:" and the uid; its year and language are those of the summary |
| Providers.MapPubMed | app-compat.js:238-251 | the loop over the uids returns the mapped summaries of the uids that have one, in uid order |
| Providers.PubMedKeepsSummarised | app.js:221-232 | every uid with a summary yields a record, and every record comes from some uid's summary |
| Providers.CrossrefPubMedShareKey | app.js:148 | a Crossref work and a PubMed summary whose DOIs differ only in case and surrounding white space get the same dedup key |
| Providers.DoajDoi | app.js:249 | the DOI is the id of the first identifier whose type is "doi" in any letter case, and none when there is no such identifier |
| Providers.DoajLanguage | app.js:251 | the journal's first language when that is non-empty; otherwise a non-empty string language as it is; otherwise an array language's first entry when non-empty, else none; a missing or empty language gives none; the result is never an empty string |
| Providers.DoajUrlChoice | app.js:252 | the url of the first full-text link wins when truthy, otherwise the first link's url; the compat file turns a falsy url into none |
| Providers.DoajUrlNoFullText | app-compat.js:274 | without a full-text link the first link's url is taken |
| Providers.MapDoaj | app.js:243-255 | the record is the classifier's output over the unlabelled record; its title, journal, authors, year and abstract are the bibjson's (empty text when missing); its language is the DOAJ language rule above; it names only DOAJ and is always open access; its id is the DOI, else "doaj:" and the item id; its url is the link choice above |
| Search.YearInputs | app-compat.js:283-284 | the years used are never zero; an absent or zero input gives 2019 and 2025 |
| Search.Combine | app.js:275-279 | the records are the fulfilled results in the order Crossref, PubMed, DOAJ, and the errors hold one entry per rejected call |
| Search.ErrorsAndRecords | app-compat.js:292-295 | the error map has the key crossref, pubmed or doaj exactly for each rejected call, with the rejection text; the record count is the sum of the delivered counts |
| Search.Search | app.js:259-289 | the search uses the trimmed query and the defaulted years, shows the combined records deduplicated and then filtered, reports the error map, and counts facets over what is shown |
| Search.AllRejected | app-compat.js:290-295 | when all three calls fail, nothing is shown, every facet is empty, and there are three error entries |
| Search.ShownBound | app.js:282-287 | no more records are shown than the providers delivered |
| Search.ShownFromFulfilled | app.js:275-282 | every provider named on a shown record is a provider whose call succeeded |
| Search.CombinedFrom | app-compat.js:293-295 | a provider named on a combined record is the provider whose result held that record |
| Saved.Remove | app.js:106 | after removal no entry carries the id; the rest keep their relative order; every entry with another id stays, as many times as it occurred |
| Saved.RemoveAbsent | app-compat.js:113 | removing an id that is not in the list leaves the list unchanged |
| Saved.Toggle | app.js:352-353 | toggling flips whether the id is in the list: it appends the record when the id is absent, else removes every entry with the id |
| Saved.ToggleTwice | app-compat.js:368-369 | saving a record whose id is absent and then toggling it again restores the list |
| Saved.SaveClicked | app.js:343-353 | the save button of a shown record toggles the first shown record with that id (appending it when absent, removing every entry with the id when present), so the id's membership flips; an id no shown record has changes nothing |
| Saved.RemoveClicked | app-compat.js:103-116 | the remove button searches the list for the id and then removes every entry with it; an absent id leaves the list unchanged |

## Left out

- **Network, fetching and concurrency.** URL and query construction, HTTP
  fetching, health checks and the `Promise.allSettled` fan-out are left
  out. The model starts from the three settled outcomes, with a
  rejection's text as its reason.
- **User interface.** Rendering, event listeners, clipboard writes,
  `setTimeout` and the result header are left out.
- **Storage.** `localStorage` and the JSON round trip of the saved list
  are left out. The saved list is passed in and returned.
- **Random ids.** The random Crossref id suffix is a `random` text
  parameter of `Providers.MapCrossref`.
- **DOAJ query escaping.** The regex literal as written is malformed, and
  the two files use different replacement strings. There is no
  behaviour to model.
- **BibTeX.** BibTeX formatting is fixed string concatenation and is not
  part of this model.
- **Unicode lower-casing.** `toLowerCase` is modelled for ASCII and the
  Latin-1 capitals only. Other scripts are left unchanged.
- **Regular expressions.** The general regex engine is not modelled. Each
  pattern is a predicate built from substring search. `\b` uses the ASCII
  word characters of a regex without the `u` flag. White space is
  ECMAScript's `\s` set.
- **Plain-object key quirks.** The compat dedup keys its groups through a
  plain object. The model gives it the insertion-ordered `Map` behaviour:
  - integer-like keys, which an object would list first, are not
    reordered;
  - inherited names such as `constructor`, which an object would treat as
    already present, are not special.

  The same applies to the other plain objects:
  - the PubMed language table and the `root[uid]` lookup, where a uid
    equal to `uids` or to an inherited name is not special;
  - the compat language filter's set of ticked codes (app-compat.js:299),
    where a record whose language is `constructor` or another inherited
    name would pass; the model keeps only ticked codes;
  - the facet counter objects (app.js:169, app-compat.js:179-189), where
    a counted value equal to an inherited name would start from that
    inherited value; the model's counts start from zero.
- **Number parsing.** `Number()` on the year inputs and on DOAJ's
  `bibjson.year` is not modelled. Those years are given as an optional
  integer; fractional and NaN years are not represented.
- **JSON value types.** Every JSON value is taken to have the type the
  code expects: strings, arrays of strings, integers in `date-parts`.
  Values of other types, and `null` entries inside `date-parts` rows, are
  not represented.
- Providers.MapDoaj: an item whose `id` is `null`, and that has no DOI,
  would get the id "doaj:null". The model represents a missing item id
  only as absent, which gives "doaj:undefined".
- Providers.DoajLanguage: a journal `language` given as a single string,
  rather than an array, is not represented.
- **Error paths inside adapters.** HTTP failures raised inside an adapter
  appear only as a rejected outcome.
