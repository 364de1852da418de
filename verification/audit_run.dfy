/** src/main.py: the business-type detection and keyword selection that
    `run_marketing_audit` actually uses (they shadow the imported ones of
    src/utils/keywords.py), and steps 7 and 8 of the audit: mapping the
    collected records to section scores, weighting them, grading the final
    score and building the report table. */
module AuditRun {
  import opened PyValues
  import opened PyStrings
  import opened PyNumbers
  import opened AuditRecord
  import ScoreMapper
  import opened ScoringEngine
  import opened Grading
  import opened ReportScores

  const LocalService := "local_service"
  const AgencyType := "agency"
  const GenericType := "generic"

  const LocalServiceWords: seq<string> := ["property", "real estate", "rent"]
  const AgencyWords: seq<string> := ["agency", "digital", "marketing", "seo", "white label"]

  const LocalServiceKeywords: seq<string> :=
    ["property management", "homes for rent", "real estate services", "rental property management"]
  const AgencyKeywords: seq<string> :=
    ["white label digital agency", "seo outsourcing", "wordpress development agency",
     "hire remote developers", "marketing agency services"]

  /** `(business_info.get("business_name") or "").lower()`: an absent key,
      `None` and "" all read as "". */
  function NameText(name: Field<string>): (n: string)
    ensures IsLowerCase(n)
    ensures !Truthy(name, "") ==> n == ""
    ensures Truthy(name, "") ==> |n| == |name.v|
  {
    if Truthy(name, "") then Lower(name.v) else ""
  }

  /** `detect_business_type(business_info)` of src/main.py. The local
      service words are tried before the agency words. */
  function DetectBusinessType(name: Field<string>): (t: string)
    ensures t in {LocalService, AgencyType, GenericType}
    ensures t == LocalService <==> ContainsAny(NameText(name), LocalServiceWords)
    ensures t == AgencyType <==>
              !ContainsAny(NameText(name), LocalServiceWords) && ContainsAny(NameText(name), AgencyWords)
  {
    var n := NameText(name);
    if ContainsAny(n, LocalServiceWords) then LocalService
    else if ContainsAny(n, AgencyWords) then AgencyType
    else GenericType
  }

  /** `get_dynamic_keywords(business_type, business_info)` of src/main.py:
      fixed lists for the two known types, and otherwise the one-element
      list `[business_info.get("business_name", "")]`, which holds `None`
      when the key does. */
  function GetDynamicKeywords(businessType: string, name: Field<string>): (ks: seq<Option<string>>)
    ensures businessType == LocalService ==> |ks| == 4
    ensures businessType == AgencyType ==> |ks| == 5
    ensures businessType !in {LocalService, AgencyType} ==> ks == [name.GetDefault("")]
    ensures businessType in {LocalService, AgencyType} ==>
              forall i :: 0 <= i < |ks| ==> ks[i].Some? && ks[i].value in LocalServiceKeywords + AgencyKeywords
  {
    if businessType == LocalService then Fixed(LocalServiceKeywords)
    else if businessType == AgencyType then Fixed(AgencyKeywords)
    else [name.GetDefault("")]
  }

  /** A list of fixed keywords, each present. */
  function Fixed(words: seq<string>): (ks: seq<Option<string>>)
    ensures |ks| == |words|
    ensures forall i :: 0 <= i < |words| ==> ks[i] == Some(words[i])
  {
    seq(|words|, i requires 0 <= i < |words| => Some(words[i]))
  }

  /** A `None` business name is read like an absent or empty one: detection
      never fails and yields the generic type. */
  lemma NullNameIsGeneric()
    ensures DetectBusinessType(Null) == GenericType
    ensures DetectBusinessType(Missing) == GenericType
    ensures DetectBusinessType(Val("")) == GenericType
  {
    assert forall k :: k in LocalServiceWords + AgencyWords ==> |k| > 0;
    assert !ContainsAny("", LocalServiceWords) by {
      forall i | 0 <= i < |LocalServiceWords| ensures !Contains("", LocalServiceWords[i]) {}
    }
    assert !ContainsAny("", AgencyWords) by {
      forall i | 0 <= i < |AgencyWords| ensures !Contains("", AgencyWords[i]) {}
    }
  }

  /** The keyword lists of the two known types never contain the business
      name: no entry can equal anything but a fixed phrase. */
  lemma KnownTypesIgnoreName(businessType: string, name: Field<string>, other: Field<string>)
    requires businessType in {LocalService, AgencyType}
    ensures GetDynamicKeywords(businessType, name) == GetDynamicKeywords(businessType, other)
  {
  }

  /** A name that matches a local service word is `local_service` even when
      it also matches an agency word. */
  lemma LocalServiceBeforeAgency()
    ensures DetectBusinessType(Val("Rent Marketing Agency")) == LocalService
  {
    var n := NameText(Val("Rent Marketing Agency"));
    assert n[0..4] == "rent";
    assert OccursAt(n, LocalServiceWords[2], 0);
  }

  /** The scoring layer's result for one audit (steps 7 and 8). */
  datatype Scoring = Scoring(
    sectionScores: map<string, real>,
    finalScore: real,
    breakdown: map<string, BreakdownEntry>,
    grade: Grade,
    reportScores: ReportTable)

  /** The mapper's numbers as the engine reads them through `.get`: every
      key holds a number, none holds `None`. */
  function AsEngineInput(scores: map<string, real>): (m: map<string, Option<real>>)
    ensures m.Keys == scores.Keys
    ensures forall k :: k in scores ==> m[k] == Some(scores[k])
  {
    map k | k in scores :: Some(scores[k])
  }

  /** Steps 7 and 8 of `run_marketing_audit`, with the weight table as a
      parameter. The grade and the report's overall score both come from
      the one final score; the breakdown covers exactly the weighted
      sections. With non-negative weights summing to 1 the final score and
      the overall score both lie in [0, 100]. */
  method ScoreAudit(audit: Audit, weights: Weights) returns (s: Scoring)
    requires DistinctSections(weights)
    ensures s.sectionScores == ScoreMapper.MapAuditToScores(audit)
    ensures s.finalScore == Round2(TotalScore(AsEngineInput(s.sectionScores), weights))
    ensures s.breakdown.Keys == Sections(weights)
    ensures forall i :: 0 <= i < |weights| ==>
              s.breakdown[weights[i].0] == ExpectedEntry(AsEngineInput(s.sectionScores), weights[i])
    ensures s.grade == GetMarketingGrade(s.finalScore)
    ensures s.reportScores == BuildReportScores(audit, s.sectionScores, s.finalScore)
    ensures s.reportScores.overallScore as real - 0.5 <= s.finalScore <= s.reportScores.overallScore as real + 0.5
    ensures s.reportScores.technoStack == 0.0 && s.reportScores.onlineReputation == 0.0 &&
            s.reportScores.websitePerformance == 0.0 && s.reportScores.seoAnalysis == 0.0
    ensures NonNegative(weights) && WeightSum(weights) == 1.0 ==>
              0.0 <= s.finalScore <= 100.0 && 0 <= s.reportScores.overallScore <= 100
  {
    var sectionScores := ScoreMapper.MapAuditToScores(audit);
    var result := CalculateMarketingScore(AsEngineInput(sectionScores), weights);
    var finalScore := result.finalScore;
    var grade := GetMarketingGrade(finalScore);
    var report := BuildReportScores(audit, sectionScores, finalScore);
    CategoryRowsZeroForMapperOutput(audit, finalScore);
    if NonNegative(weights) && WeightSum(weights) == 1.0 {
      FinalScoreWithinBounds(AsEngineInput(sectionScores), weights);
    }
    s := Scoring(sectionScores, finalScore, result.breakdown, grade, report);
  }

  /** The grade and the report's overall score agree at the ends of the
      scale: an overall score of 91 or more comes with A+, and one of 49 or
      less with F. */
  lemma GradeAgreesWithOverall(audit: Audit, sectionScores: map<string, real>, finalScore: real)
    ensures var overall := BuildReportScores(audit, sectionScores, finalScore).overallScore;
            (overall >= 91 ==> GetMarketingGrade(finalScore) == APlus) &&
            (overall <= 49 ==> GetMarketingGrade(finalScore) == F)
  {
  }
}
