/** The two result filters of `search`: the language filter (applied when
    at least one language box is ticked) and the open-access filter
    (applied when the "open access only" box is ticked). */
module Filters {
  import opened Wrappers
  import opened Text
  import opened Records
  import opened Seqs

  /** The accepted set built from the ticked codes: `new Set(langs)` in
      `app.js`, the ticked codes lower-cased in `app-compat.js`. */
  function Accepted(v: Variant, langs: seq<string>): set<string> {
    match v
    case Modern => set l | l in langs
    case Compat => set l | l in langs :: LowerStr(l)
  }

  /** A record passes the language filter when it has no language, or when
      its lower-cased language is in the accepted set. */
  predicate LanguagePasses(v: Variant, langs: seq<string>, r: Record) {
    !Truthy(r.language) || LowerStr(r.language.value) in Accepted(v, langs)
  }

  function LanguagePass(v: Variant, langs: seq<string>): Record -> bool {
    (r: Record) => LanguagePasses(v, langs, r)
  }

  /** The language filter: no ticked language keeps every record; otherwise
      the records that pass are kept, in order. */
  function LanguageFilter(v: Variant, langs: seq<string>, rs: seq<Record>): (out: seq<Record>)
    ensures IsSubseq(out, rs) && forall i | 0 <= i < |out| :: out[i] in rs
    ensures |langs| == 0 ==> out == rs
    ensures |langs| > 0 ==> forall i | 0 <= i < |out| :: LanguagePasses(v, langs, out[i])
    ensures forall i | 0 <= i < |rs| :: rs[i] in out <==> |langs| == 0 || LanguagePasses(v, langs, rs[i])
    ensures forall x: Record :: multiset(out)[x] == if |langs| == 0 || LanguagePasses(v, langs, x) then multiset(rs)[x] else 0
  {
    if |langs| == 0 then
      SubseqRefl(rs);
      rs
    else
      FilterSubseq(rs, LanguagePass(v, langs));
      forall x: Record ensures multiset(Filter(rs, LanguagePass(v, langs)))[x] == if LanguagePasses(v, langs, x) then multiset(rs)[x] else 0 {
        FilterCount(rs, LanguagePass(v, langs), x);
      }
      Filter(rs, LanguagePass(v, langs))
  }

  function IsOa(r: Record): bool {
    r.oa
  }

  /** The open-access filter: when on, only the records with `oa` set are
      kept, in order. */
  function OaFilter(oaOnly: bool, rs: seq<Record>): (out: seq<Record>)
    ensures IsSubseq(out, rs) && forall i | 0 <= i < |out| :: out[i] in rs
    ensures !oaOnly ==> out == rs
    ensures oaOnly ==> forall i | 0 <= i < |out| :: out[i].oa
    ensures forall i | 0 <= i < |rs| :: rs[i] in out <==> !oaOnly || rs[i].oa
    ensures forall x: Record :: multiset(out)[x] == if !oaOnly || x.oa then multiset(rs)[x] else 0
  {
    if oaOnly then
      FilterSubseq(rs, IsOa);
      forall x: Record ensures multiset(Filter(rs, IsOa))[x] == if x.oa then multiset(rs)[x] else 0 {
        FilterCount(rs, IsOa, x);
      }
      Filter(rs, IsOa)
    else
      SubseqRefl(rs);
      rs
  }

  /** The two filters can be applied in either order. */
  lemma FiltersCommute(v: Variant, langs: seq<string>, oaOnly: bool, rs: seq<Record>)
    ensures OaFilter(oaOnly, LanguageFilter(v, langs, rs)) == LanguageFilter(v, langs, OaFilter(oaOnly, rs))
  {
    if |langs| > 0 && oaOnly {
      FilterCommutes(rs, LanguagePass(v, langs), IsOa);
    }
  }

  /** Filtering twice with the same settings changes nothing more. */
  lemma FiltersIdempotent(v: Variant, langs: seq<string>, oaOnly: bool, rs: seq<Record>)
    ensures LanguageFilter(v, langs, LanguageFilter(v, langs, rs)) == LanguageFilter(v, langs, rs)
    ensures OaFilter(oaOnly, OaFilter(oaOnly, rs)) == OaFilter(oaOnly, rs)
  {
    if |langs| > 0 {
      FilterAll(LanguageFilter(v, langs, rs), LanguagePass(v, langs));
    }
    if oaOnly {
      FilterAll(OaFilter(oaOnly, rs), IsOa);
    }
  }

  predicate HasUpper(s: string) {
    exists i | 0 <= i < |s| :: IsUpper(s[i])
  }

  function HasNoLanguage(r: Record): bool {
    !Truthy(r.language)
  }

  /** In `app.js` a ticked code with an upper-case letter never matches,
      because the record's language is lower-cased and the ticked code is
      not: with only such codes ticked, exactly the records without a
      language survive. */
  lemma ModernUpperCaseNeverMatches(langs: seq<string>, rs: seq<Record>)
    requires |langs| > 0
    requires forall l | l in langs :: HasUpper(l)
    ensures LanguageFilter(Modern, langs, rs) == Filter(rs, HasNoLanguage)
  {
    forall r: Record | Truthy(r.language) ensures !LanguagePasses(Modern, langs, r) {
      assert !HasUpper(LowerStr(r.language.value));
    }
    FilterSame(rs, LanguagePass(Modern, langs), HasNoLanguage);
  }

  lemma {:induction false} FilterSame<T>(s: seq<T>, p: T -> bool, q: T -> bool)
    requires forall x | x in s :: p(x) == q(x)
    ensures Filter(s, p) == Filter(s, q)
  {
    if s != [] {
      FilterSame(s[1..], p, q);
    }
  }

  /** When every ticked code is already lower case, the two copies filter
      alike. */
  lemma LowerCaseCodesAgree(langs: seq<string>, rs: seq<Record>)
    requires forall l | l in langs :: NoUpper(l)
    ensures LanguageFilter(Modern, langs, rs) == LanguageFilter(Compat, langs, rs)
  {
    assert Accepted(Modern, langs) == Accepted(Compat, langs) by {
      forall l | l in langs ensures LowerStr(l) == l {
        LowerStrFixed(l);
      }
    }
    if |langs| > 0 {
      FilterSame(rs, LanguagePass(Modern, langs), LanguagePass(Compat, langs));
    }
  }

  /** Ticking `EN` keeps an English record in `app-compat.js` but drops it
      in `app.js`. */
  lemma UpperCaseCodeDiffers(r: Record)
    requires r.language == Some("en")
    ensures LanguagePasses(Compat, ["EN"], r)
    ensures !LanguagePasses(Modern, ["EN"], r)
  {
    assert LowerStr("en") == "en" by {
      LowerStrFixed("en");
    }
    assert LowerStr("EN") == "en";
  }
}
