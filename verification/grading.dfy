/** src/scoring/grading.py: `get_marketing_grade`, the letter grade, risk
    level and verdict for a final score. Six bands, each closed below and
    open above, the lowest open below. */
module Grading {

  /** `{"grade": ..., "risk_level": ..., "verdict": ...}`. */
  datatype Grade = Grade(grade: string, riskLevel: string, verdict: string)

  const APlus := Grade("A+", "Very Low",
    "Excellent digital marketing presence. Strong visibility, trust, and performance.")
  const A := Grade("A", "Low",
    "Strong marketing foundations with minor optimization opportunities.")
  /** The risk level of grade B is written with an en dash (U+2013). */
  const B := Grade("B", "Low–Medium",
    "Good overall presence, but some areas are limiting maximum growth.")
  const C := Grade("C", "Medium",
    "Average marketing performance. Visibility and conversion improvements needed.")
  const D := Grade("D", "High",
    "Weak marketing foundation. Immediate improvements recommended.")
  const F := Grade("F", "Very High",
    "Critical marketing gaps detected. Business is losing visibility and leads.")

  /** The six grades, best first. */
  const Ladder: seq<Grade> := [APlus, A, B, C, D, F]

  /** The lower bound of each band of `Ladder` (the last band has none). */
  const Thresholds: seq<real> := [90.0, 80.0, 70.0, 60.0, 50.0]

  /** `get_marketing_grade(final_score)`: the first band, from the top,
      whose lower bound the score reaches; below 50 the grade is F. */
  function GetMarketingGrade(finalScore: real): (g: Grade)
    ensures g in Ladder
    ensures g == APlus <==> finalScore >= 90.0
    ensures g == A <==> 80.0 <= finalScore < 90.0
    ensures g == B <==> 70.0 <= finalScore < 80.0
    ensures g == C <==> 60.0 <= finalScore < 70.0
    ensures g == D <==> 50.0 <= finalScore < 60.0
    ensures g == F <==> finalScore < 50.0
  {
    if finalScore >= 90.0 then APlus
    else if finalScore >= 80.0 then A
    else if finalScore >= 70.0 then B
    else if finalScore >= 60.0 then C
    else if finalScore >= 50.0 then D
    else F
  }

  /** The position of a grade on the ladder: 0 for A+, 5 for F. */
  function Rank(g: Grade): (k: nat)
    requires g in Ladder
    ensures k < |Ladder| && Ladder[k] == g
  {
    if g == APlus then 0
    else if g == A then 1
    else if g == B then 2
    else if g == C then 3
    else if g == D then 4
    else 5
  }

  /** An independent reference for the band of a score: the number of
      thresholds the score falls short of. */
  function ThresholdsMissed(finalScore: real, ts: seq<real>): nat {
    if |ts| == 0 then 0
    else (if finalScore < ts[0] then 1 else 0) + ThresholdsMissed(finalScore, ts[1..])
  }

  /** The grade's rank is the number of thresholds the score misses, so the
      ladder read through `Thresholds` agrees with the if-chain. */
  lemma GradeRankCountsMissedThresholds(finalScore: real)
    ensures Rank(GetMarketingGrade(finalScore)) == ThresholdsMissed(finalScore, Thresholds)
  {
    var s := finalScore;
    assert ThresholdsMissed(s, []) == 0;
    assert [50.0][1..] == [];
    assert ThresholdsMissed(s, [50.0]) == (if s < 50.0 then 1 else 0);
    assert [60.0, 50.0][1..] == [50.0];
    assert ThresholdsMissed(s, [60.0, 50.0]) == (if s < 60.0 then 1 else 0) + (if s < 50.0 then 1 else 0);
    assert [70.0, 60.0, 50.0][1..] == [60.0, 50.0];
    assert ThresholdsMissed(s, [70.0, 60.0, 50.0]) ==
      (if s < 70.0 then 1 else 0) + (if s < 60.0 then 1 else 0) + (if s < 50.0 then 1 else 0);
    assert [80.0, 70.0, 60.0, 50.0][1..] == [70.0, 60.0, 50.0];
    assert ThresholdsMissed(s, [80.0, 70.0, 60.0, 50.0]) ==
      (if s < 80.0 then 1 else 0) + (if s < 70.0 then 1 else 0) + (if s < 60.0 then 1 else 0) + (if s < 50.0 then 1 else 0);
    assert Thresholds[1..] == [80.0, 70.0, 60.0, 50.0];
  }

  /** A higher score never gets a worse grade. */
  lemma GradeMonotone(lower: real, higher: real)
    requires lower <= higher
    ensures Rank(GetMarketingGrade(higher)) <= Rank(GetMarketingGrade(lower))
  {
  }

  /** Distinct grades have distinct letters, risk levels and verdicts, so
      any one of the three fields determines the whole grade. */
  lemma GradeFieldsDetermineGrade(g: Grade, h: Grade)
    requires g in Ladder && h in Ladder
    ensures g.grade == h.grade ==> g == h
    ensures g.riskLevel == h.riskLevel ==> g == h
    ensures g.verdict == h.verdict ==> g == h
  {
  }

  /** Every band is reachable: the grade takes each of its six values. */
  lemma EveryGradeReachable(g: Grade)
    requires g in Ladder
    ensures exists s: real :: GetMarketingGrade(s) == g
  {
    if g == APlus { assert GetMarketingGrade(95.0) == g; }
    else if g == A { assert GetMarketingGrade(85.0) == g; }
    else if g == B { assert GetMarketingGrade(75.0) == g; }
    else if g == C { assert GetMarketingGrade(65.0) == g; }
    else if g == D { assert GetMarketingGrade(55.0) == g; }
    else { assert GetMarketingGrade(0.0) == g; }
  }
}
