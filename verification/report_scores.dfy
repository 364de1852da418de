/** src/scoring/report_scores.py: `build_report_scores`, the eight-row
    table shown to the reader of the report. */
module ReportScores {
  import opened PyValues
  import opened PyNumbers
  import opened AuditRecord
  import ScoreMapper

  /** The report table, one field per row label. */
  datatype ReportTable = ReportTable(
    overallScore: int,           // "Overall Score"
    businessDetails: int,        // "Business Details"
    technoStack: real,           // "Techno Stack"
    googleBusinessProfile: int,  // "Google Business Profile"
    listings: int,               // "Listings"
    onlineReputation: real,      // "Online Reputation"
    websitePerformance: real,    // "Website Performance"
    seoAnalysis: real)           // "SEO Analysis"

  /** `section_scores.get(key, 0)`. */
  function GetOrZero(scores: map<string, real>, key: string): (v: real)
    ensures key in scores ==> v == scores[key]
    ensures key !in scores ==> v == 0.0
  {
    if key in scores then scores[key] else 0.0
  }

  /** `build_report_scores(audit_results, section_scores, final_score)`.
      The overall row is the final score rounded to the nearest integer,
      a tie going to the even one as Python's `round` does. The three category rows read the keys "website", "reviews" and
      "seo"; Techno Stack and Website Performance read the same key. The
      two presence rows are 100 exactly when that sub-record is a
      non-empty dict. Listings is always 0. */
  function BuildReportScores(audit: Audit, sectionScores: map<string, real>, finalScore: real): (t: ReportTable)
    ensures t.overallScore as real - 0.5 <= finalScore <= t.overallScore as real + 0.5
    ensures finalScore - t.overallScore as real == 0.5 || t.overallScore as real - finalScore == 0.5 ==>
              t.overallScore % 2 == 0
    ensures t.businessDetails == (if audit.businessInfo.NonEmpty() then 100 else 0)
    ensures t.googleBusinessProfile == (if audit.googleReviews.NonEmpty() then 100 else 0)
    ensures t.listings == 0
    ensures t.technoStack == t.websitePerformance
    ensures "website" in sectionScores ==> t.technoStack == sectionScores["website"]
    ensures "reviews" in sectionScores ==> t.onlineReputation == sectionScores["reviews"]
    ensures "seo" in sectionScores ==> t.seoAnalysis == sectionScores["seo"]
    ensures "website" !in sectionScores ==> t.technoStack == 0.0
    ensures "reviews" !in sectionScores ==> t.onlineReputation == 0.0
    ensures "seo" !in sectionScores ==> t.seoAnalysis == 0.0
  {
    ReportTable(
      RoundHalfEven(finalScore),
      if audit.businessInfo.NonEmpty() then 100 else 0,
      GetOrZero(sectionScores, "website"),
      if audit.googleReviews.NonEmpty() then 100 else 0,
      0,
      GetOrZero(sectionScores, "reviews"),
      GetOrZero(sectionScores, "website"),
      GetOrZero(sectionScores, "seo"))
  }

  /** The section map the scoring layer produces is keyed by display names
      ("Tech Stack", "Online Reputation", ...), never by "website",
      "reviews" or "seo", so fed that map the four category rows of the
      table are all 0 whatever the audit found. */
  lemma CategoryRowsZeroForMapperOutput(audit: Audit, finalScore: real)
    ensures var t := BuildReportScores(audit, ScoreMapper.MapAuditToScores(audit), finalScore);
            t.technoStack == 0.0 && t.websitePerformance == 0.0 &&
            t.onlineReputation == 0.0 && t.seoAnalysis == 0.0
  {
    var scores := ScoreMapper.MapAuditToScores(audit);
    assert "website" !in scores && "reviews" !in scores && "seo" !in scores by {
      assert scores.Keys == set s | s in ScoreMapper.SectionOrder;
      assert "website" !in ScoreMapper.SectionOrder;
      assert "reviews" !in ScoreMapper.SectionOrder;
      assert "seo" !in ScoreMapper.SectionOrder;
    }
  }

  /** The two presence rows only ask whether the sub-record has any key:
      a business-info dict with nothing but a `None` business name still
      counts as 100. */
  lemma PresenceIgnoresValues(audit: Audit, sectionScores: map<string, real>, finalScore: real)
    ensures BuildReportScores(audit.(businessInfo := BusinessInfo(Null, Missing, Missing, Missing, 0)),
                              sectionScores, finalScore).businessDetails == 100
    ensures BuildReportScores(audit.(businessInfo := NoBusinessInfo), sectionScores, finalScore).businessDetails == 0
  {
  }

  /** The overall row is the final score rounded to the nearest integer,
      so scores within [0, 100] give a row within [0, 100]. */
  lemma OverallWithinBounds(audit: Audit, sectionScores: map<string, real>, finalScore: real)
    requires 0.0 <= finalScore <= 100.0
    ensures 0 <= BuildReportScores(audit, sectionScores, finalScore).overallScore <= 100
  {
  }
}
