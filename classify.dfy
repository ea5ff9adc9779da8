/** The rule-based classifier `classify(r)`: ordered pattern rules over the
    lower-cased text `title + ' ' + abstract + ' ' + type` fill in the
    study type, the method and the population. Each regex of the source is
    a named predicate built from substring search; `\b` uses the ASCII
    word characters of a JavaScript regex without the `u` flag. */
module Classify {
  import opened Wrappers
  import opened Text
  import opened Records

  const MetaAnalysisLabel := "Meta-análise"
  const ReviewLabel := "Revisão"
  const TrialLabel := "Ensaio clínico"
  const CaseStudyLabel := "Estudo de caso"
  const FieldStudyLabel := "Estudo de campo"
  const TypeLabels := {MetaAnalysisLabel, ReviewLabel, TrialLabel, CaseStudyLabel, FieldStudyLabel}

  const QualitativeLabel := "Qualitativo"
  const QuantitativeLabel := "Quantitativo"
  const MixedLabel := "Misto"
  const MethodLabels := {QualitativeLabel, QuantitativeLabel, MixedLabel}

  const AdolescentsLabel := "Adolescentes"
  const ChildrenLabel := "Crianças"
  const AdultsLabel := "Adultos"
  const ElderlyLabel := "Idosos"
  const CaregiversLabel := "Cuidadores"
  const PopulationLabels := {AdolescentsLabel, ChildrenLabel, AdultsLabel, ElderlyLabel, CaregiversLabel}

  // ---- the patterns, alternative by alternative ----

  /** `/meta[- ]?analys|meta[- ]?an[aá]lise/` */
  predicate IsMetaAnalysis(t: string) {
    ContainsAny(t, ["metaanalys", "meta-analys", "meta analys",
                    "metaanalise", "meta-analise", "meta analise",
                    "metaanálise", "meta-análise", "meta análise"])
  }

  /** `/systematic review|revis[aã]o sistem[aá]tica|review\b/` */
  predicate IsReview(t: string) {
    || ContainsAny(t, ["systematic review",
                       "revisao sistematica", "revisao sistemática",
                       "revisão sistematica", "revisão sistemática"])
    || ContainsBeforeBoundary(t, "review")
  }

  /** `/randomi[sz]ed|ensaio|controlled trial|clinical trial/` */
  predicate IsTrial(t: string) {
    ContainsAny(t, ["randomised", "randomized", "ensaio", "controlled trial", "clinical trial"])
  }

  /** `/case study|estudo de caso/` */
  predicate IsCaseStudy(t: string) {
    ContainsAny(t, ["case study", "estudo de caso"])
  }

  /** `/qualitative|qualitativo/` (the type rule) */
  predicate IsQualitativeStudy(t: string) {
    ContainsAny(t, ["qualitative", "qualitativo"])
  }

  /** `/qualitative|qualitativ[oa]/` (the method rule) */
  predicate IsQualitativeMethod(t: string) {
    ContainsAny(t, ["qualitative", "qualitativo", "qualitativa"])
  }

  /** `/randomi[sz]ed|trial|quantitativ[oa]|meta-analys/` */
  predicate IsQuantitativeMethod(t: string) {
    ContainsAny(t, ["randomised", "randomized", "trial", "quantitativo", "quantitativa", "meta-analys"])
  }

  /** `/mixed methods|m[eé]todos mistos|misto/` */
  predicate IsMixedMethod(t: string) {
    ContainsAny(t, ["mixed methods", "metodos mistos", "métodos mistos", "misto"])
  }

  /** `/adolescen/` */
  predicate IsAdolescents(t: string) {
    Contains(t, "adolescen")
  }

  /** `/\bchild|crian[cç]a|infantil\b/` */
  predicate IsChildren(t: string) {
    || ContainsAfterBoundary(t, "child")
    || ContainsAny(t, ["crianca", "criança"])
    || ContainsBeforeBoundary(t, "infantil")
  }

  /** `/\badult|adulto[s]?\b/` */
  predicate IsAdults(t: string) {
    || ContainsAfterBoundary(t, "adult")
    || ContainsBeforeBoundary(t, "adultos")
    || ContainsBeforeBoundary(t, "adulto")
  }

  /** `/older|elderly|idoso[s]?/` (the optional `s` adds nothing to a search) */
  predicate IsElderly(t: string) {
    ContainsAny(t, ["older", "elderly", "idoso"])
  }

  /** `/caregiver|cuidador|cuidadores/` */
  predicate IsCaregivers(t: string) {
    ContainsAny(t, ["caregiver", "cuidador", "cuidadores"])
  }

  // ---- the three dimensions ----

  /** The text the rules look at: title, abstract and incoming type (each
      empty when falsy) joined by single spaces, then lower-cased. */
  function Haystack(r: Record): (t: string)
    ensures NoUpper(t)
    ensures t == LowerStr(OrEmpty(r.title)) + " " + LowerStr(r.abstractText) + " " + LowerStr(OrEmpty(r.studyType))
  {
    var title, abs, typ := OrEmpty(r.title), r.abstractText, OrEmpty(r.studyType);
    LowerStrConcat(title + " " + abs + " ", typ);
    LowerStrConcat(title + " " + abs, " ");
    LowerStrConcat(title + " ", abs);
    LowerStrConcat(title, " ");
    assert LowerStr(" ") == " ";
    LowerStr(title + " " + abs + " " + typ)
  }

  /** A word in the lower-cased title, abstract or incoming type reaches
      the text the rules read. */
  lemma HaystackHolds(r: Record, p: string)
    requires Contains(LowerStr(OrEmpty(r.title)), p) || Contains(LowerStr(r.abstractText), p) || Contains(LowerStr(OrEmpty(r.studyType)), p)
    ensures Contains(Haystack(r), p)
  {
    var title, abs, typ := LowerStr(OrEmpty(r.title)), LowerStr(r.abstractText), LowerStr(OrEmpty(r.studyType));
    if Contains(title, p) {
      ContainsWithin([], title, " " + abs + " " + typ, p);
      assert [] + title + (" " + abs + " " + typ) == Haystack(r);
    } else if Contains(abs, p) {
      ContainsWithin(title + " ", abs, " " + typ, p);
      assert title + " " + abs + (" " + typ) == Haystack(r);
    } else {
      ContainsWithin(title + " " + abs + " ", typ, [], p);
      assert title + " " + abs + " " + typ + [] == Haystack(r);
    }
  }

  /** The study type: the first of the meta-analysis, review, trial and
      case-study rules that matches decides; the qualitative rule only fills
      in a type that is missing; with no match the incoming type stays. */
  function ClassifyType(t: string, incoming: Option<string>): (r: Option<string>)
    ensures r == incoming || (r.Some? && r.value in TypeLabels)
    ensures IsMetaAnalysis(t) ==> r == Some(MetaAnalysisLabel)
    ensures !IsMetaAnalysis(t) && IsReview(t) ==> r == Some(ReviewLabel)
    ensures !IsMetaAnalysis(t) && !IsReview(t) && IsTrial(t) ==> r == Some(TrialLabel)
    ensures !IsMetaAnalysis(t) && !IsReview(t) && !IsTrial(t) && IsCaseStudy(t) ==> r == Some(CaseStudyLabel)
    ensures r == Some(FieldStudyLabel) && r != incoming ==> IsQualitativeStudy(t) && !Truthy(incoming)
    ensures !IsMetaAnalysis(t) && !IsReview(t) && !IsTrial(t) && !IsCaseStudy(t) && IsQualitativeStudy(t) && !Truthy(incoming)
            ==> r == Some(FieldStudyLabel)
    ensures Truthy(incoming) && !IsMetaAnalysis(t) && !IsReview(t) && !IsTrial(t) && !IsCaseStudy(t) ==> r == incoming
    ensures !IsMetaAnalysis(t) && !IsReview(t) && !IsTrial(t) && !IsCaseStudy(t) && !IsQualitativeStudy(t) ==> r == incoming
  {
    if IsMetaAnalysis(t) then Some(MetaAnalysisLabel)
    else if IsReview(t) then Some(ReviewLabel)
    else if IsTrial(t) then Some(TrialLabel)
    else if IsCaseStudy(t) then Some(CaseStudyLabel)
    else if IsQualitativeStudy(t) then OrStr(incoming, Some(FieldStudyLabel))
    else incoming
  }

  /** The method: a qualitative match wins over everything (even a trial),
      then quantitative, then mixed; with no match the incoming method stays. */
  function ClassifyMethod(t: string, incoming: Option<string>): (r: Option<string>)
    ensures r == incoming || (r.Some? && r.value in MethodLabels)
    ensures IsQualitativeMethod(t) ==> r == Some(QualitativeLabel)
    ensures !IsQualitativeMethod(t) && IsQuantitativeMethod(t) ==> r == Some(QuantitativeLabel)
    ensures !IsQualitativeMethod(t) && !IsQuantitativeMethod(t) && IsMixedMethod(t) ==> r == Some(MixedLabel)
    ensures !IsQualitativeMethod(t) && !IsQuantitativeMethod(t) && !IsMixedMethod(t) ==> r == incoming
  {
    if IsQualitativeMethod(t) then Some(QualitativeLabel)
    else if IsQuantitativeMethod(t) then Some(QuantitativeLabel)
    else if IsMixedMethod(t) then Some(MixedLabel)
    else incoming
  }

  /** The population: adolescents, children, adults, elderly, caregivers, in
      that order of precedence; with no match the incoming population stays. */
  function ClassifyPopulation(t: string, incoming: Option<string>): (r: Option<string>)
    ensures r == incoming || (r.Some? && r.value in PopulationLabels)
    ensures IsAdolescents(t) ==> r == Some(AdolescentsLabel)
    ensures !IsAdolescents(t) && IsChildren(t) ==> r == Some(ChildrenLabel)
    ensures !IsAdolescents(t) && !IsChildren(t) && IsAdults(t) ==> r == Some(AdultsLabel)
    ensures !IsAdolescents(t) && !IsChildren(t) && !IsAdults(t) && IsElderly(t) ==> r == Some(ElderlyLabel)
    ensures (!IsAdolescents(t) && !IsChildren(t) && !IsAdults(t) && !IsElderly(t) && IsCaregivers(t))
            ==> r == Some(CaregiversLabel)
    ensures (!IsAdolescents(t) && !IsChildren(t) && !IsAdults(t) && !IsElderly(t) && !IsCaregivers(t))
            ==> r == incoming
  {
    if IsAdolescents(t) then Some(AdolescentsLabel)
    else if IsChildren(t) then Some(ChildrenLabel)
    else if IsAdults(t) then Some(AdultsLabel)
    else if IsElderly(t) then Some(ElderlyLabel)
    else if IsCaregivers(t) then Some(CaregiversLabel)
    else incoming
  }

  /** `classify(r)`: a copy of `r` in which only the type, the method and the
      population can differ, each decided by its own rules over the same text. */
  function Classify(r: Record): (c: Record)
    ensures c == r.(studyType := c.studyType, studyMethod := c.studyMethod, population := c.population)
    ensures c.studyType == ClassifyType(Haystack(r), r.studyType)
    ensures c.studyMethod == ClassifyMethod(Haystack(r), r.studyMethod)
    ensures c.population == ClassifyPopulation(Haystack(r), r.population)
  {
    var t := Haystack(r);
    r.(studyType := ClassifyType(t, r.studyType),
       studyMethod := ClassifyMethod(t, r.studyMethod),
       population := ClassifyPopulation(t, r.population))
  }

  // ---- classification is not idempotent ----

  lemma LowerOfLowerCase(x: string)
    requires forall c | c in x :: !IsUpper(c)
    ensures LowerStr(x) == x
  {
    forall i | 0 <= i < |x| ensures !IsUpper(x[i]) {
      assert x[i] in x;
    }
    LowerStrFixed(x);
  }

  lemma AbsentAfterLower(x: string, c: char)
    requires forall d | d in x :: Lower(d) != c
    ensures c !in LowerStr(x)
  {
    forall i | 0 <= i < |x| ensures LowerStr(x)[i] != c {
      assert x[i] in x;
    }
  }

  lemma LowerPrefix(x: string, k: int)
    requires 0 <= k <= |x|
    ensures LowerStr(x)[..k] == LowerStr(x[..k])
  {
  }

  /** Every meta-analysis alternative contains an `m`. */
  lemma NoMetaWithoutM(t: string)
    requires 'm' !in t
    ensures !IsMetaAnalysis(t)
  {
    var metas := ["metaanalys", "meta-analys", "meta analys",
                  "metaanalise", "meta-analise", "meta analise",
                  "metaanálise", "meta-análise", "meta análise"];
    forall k | 0 <= k < |metas| ensures !Contains(t, metas[k]) {
      if Contains(t, metas[k]) {
        PatternCharsOccur(t, metas[k], 0);
      }
    }
  }

  /** Every review alternative contains an `m` or a `w`. */
  lemma NoReviewWithoutMW(t: string)
    requires 'm' !in t && 'w' !in t
    ensures !IsReview(t)
  {
    var reviews := ["systematic review",
                    "revisao sistematica", "revisao sistemática",
                    "revisão sistematica", "revisão sistemática"];
    forall k | 0 <= k < |reviews| ensures !Contains(t, reviews[k]) {
      if Contains(t, reviews[k]) {
        PatternCharsOccur(t, reviews[k], if k == 0 then 5 else 13);
      }
    }
    if ContainsBeforeBoundary(t, "review") {
      var i :| 0 <= i <= |t| - 6 && ContainsAt(t, "review", i) && BoundaryAt(t, i + 6);
      assert Contains(t, "review");
      PatternCharsOccur(t, "review", 5);
    }
  }

  /** A record typed "review" whose title is "clinical trial" is a review. */
  lemma FirstPassIsReview(r: Record)
    requires r.title == Some("clinical trial") && r.abstractText == "" && r.studyType == Some("review")
    ensures Classify(r).studyType == Some(ReviewLabel)
  {
    var x := "clinical trial" + " " + "" + " " + "review";
    assert x == "clinical trial  review";
    LowerOfLowerCase(x);
    var h := Haystack(r);
    assert h == x;
    NoMetaWithoutM(h);
    assert ContainsAt(h, "review", 16) && BoundaryAt(h, 22);
  }

  /** The same record once typed "Revisão" is a clinical trial. */
  lemma SecondPassIsTrial(c: Record)
    requires c.title == Some("clinical trial") && c.abstractText == "" && c.studyType == Some(ReviewLabel)
    ensures Classify(c).studyType == Some(TrialLabel)
  {
    var x := "clinical trial" + " " + "" + " " + ReviewLabel;
    var h := Haystack(c);
    assert h == LowerStr(x);
    AbsentAfterLower(x, 'm');
    AbsentAfterLower(x, 'w');
    NoMetaWithoutM(h);
    NoReviewWithoutMW(h);
    LowerPrefix(x, 14);
    assert x[..14] == "clinical trial";
    LowerOfLowerCase("clinical trial");
    assert ContainsAt(h, "clinical trial", 0);
    assert Contains(h, ["randomised", "randomized", "ensaio", "controlled trial", "clinical trial"][4]);
  }

  /** Classifying twice can change the type: a record typed "review" whose
      title says "clinical trial" becomes a review, and classifying the
      result again turns it into a clinical trial, because "revisão" no
      longer matches `review\b`. */
  lemma {:induction false} ClassifyNotIdempotent(r: Record)
    requires r.title == Some("clinical trial") && r.abstractText == "" && r.studyType == Some("review")
    ensures Classify(r).studyType == Some(ReviewLabel)
    ensures Classify(Classify(r)).studyType == Some(TrialLabel)
  {
    FirstPassIsReview(r);
    SecondPassIsTrial(Classify(r));
  }
}
