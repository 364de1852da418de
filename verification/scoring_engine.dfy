/** src/scoring/scoring_engine.py: `calculate_marketing_score`, the
    weighted aggregation of the section scores.

    The weight table `WEIGHTS` lives in a module that is not part of this
    model, so it is a parameter here: the (section, weight) pairs in the
    dict's order. Being a dict, it never repeats a section.
 */
module ScoringEngine {
  import opened PyValues
  import opened PyNumbers
  import opened ScoreUtils

  /** The weight table: (section, weight) pairs in iteration order. */
  type Weights = seq<(string, real)>

  /** The table names every section at most once, as a dict does. */
  predicate DistinctSections(weights: Weights) {
    forall i, j :: 0 <= i < j < |weights| ==> weights[i].0 != weights[j].0
  }

  predicate NonNegative(weights: Weights) {
    forall i :: 0 <= i < |weights| ==> weights[i].1 >= 0.0
  }

  /** The sum of the weights. */
  function WeightSum(weights: Weights): real {
    if |weights| == 0 then 0.0
    else WeightSum(weights[..|weights| - 1]) + weights[|weights| - 1].1
  }

  /** The sections of the table. */
  function Sections(weights: Weights): (r: set<string>)
    ensures forall i :: 0 <= i < |weights| ==> weights[i].0 in r
    ensures forall s :: s in r ==> exists i :: 0 <= i < |weights| && weights[i].0 == s
  {
    if |weights| == 0 then {}
    else Sections(weights[..|weights| - 1]) + {weights[|weights| - 1].0}
  }

  /** `section_scores.get(section)`, with `None` replaced by the neutral 50:
      a section missing from the input and a section mapped to `None` are
      both scored as 50. */
  function RawScore(scores: map<string, Option<real>>, section: string): (raw: real)
    ensures section !in scores || scores[section].None? ==> raw == 50.0
    ensures section in scores && scores[section].Some? ==> raw == scores[section].value
  {
    var got := if section in scores then scores[section] else None;
    if got.None? then 50.0 else got.value
  }

  /** The exact (unrounded) total the loop accumulates: the sum of the
      weighted scores of the table's sections. */
  function TotalScore(scores: map<string, Option<real>>, weights: Weights): real {
    if |weights| == 0 then 0.0
    else
      var last := weights[|weights| - 1];
      TotalScore(scores, weights[..|weights| - 1]) + WeightedScore(RawScore(scores, last.0), last.1)
  }

  /** One row of the breakdown. */
  datatype BreakdownEntry = BreakdownEntry(rawScore: real, weight: real, contribution: real)

  /** `{"final_score": ..., "breakdown": ...}`. */
  datatype ScoreResult = ScoreResult(finalScore: real, breakdown: map<string, BreakdownEntry>)

  /** The breakdown row a section must get: its raw score UNCLAMPED, its
      weight, and as contribution its weighted (CLAMPED) score, both
      numbers shown rounded to hundredths. */
  function ExpectedEntry(scores: map<string, Option<real>>, row: (string, real)): BreakdownEntry {
    var raw := RawScore(scores, row.0);
    BreakdownEntry(Round2(raw), row.1, Round2(WeightedScore(raw, row.1)))
  }

  lemma SectionsSnoc(weights: Weights, i: nat)
    requires i < |weights|
    ensures Sections(weights[..i + 1]) == Sections(weights[..i]) + {weights[i].0}
  {
    assert weights[..i + 1][..i] == weights[..i];
  }

  /** The breakdown the loop builds over a prefix of the table, as a
      recursive reference definition: one more row adds its entry. */
  function Breakdown(scores: map<string, Option<real>>, weights: Weights): map<string, BreakdownEntry> {
    if |weights| == 0 then map[]
    else
      var last := weights[|weights| - 1];
      Breakdown(scores, weights[..|weights| - 1])[last.0 := ExpectedEntry(scores, last)]
  }

  /** The reference breakdown has exactly the table's sections. */
  lemma {:induction false} BreakdownKeys(scores: map<string, Option<real>>, weights: Weights)
    ensures Breakdown(scores, weights).Keys == Sections(weights)
    decreases |weights|
  {
    if |weights| > 0 {
      BreakdownKeys(scores, weights[..|weights| - 1]);
    }
  }

  /** With distinct sections, the reference breakdown gives every section
      its own expected row (a later row never overwrites an earlier one). */
  lemma {:induction false} BreakdownEntries(scores: map<string, Option<real>>, weights: Weights)
    requires DistinctSections(weights)
    ensures forall i :: 0 <= i < |weights| ==>
              weights[i].0 in Breakdown(scores, weights) &&
              Breakdown(scores, weights)[weights[i].0] == ExpectedEntry(scores, weights[i])
    decreases |weights|
  {
    if |weights| > 0 {
      var n := |weights| - 1;
      var init := weights[..n];
      assert forall i :: 0 <= i < n ==> init[i] == weights[i];
      assert DistinctSections(init);
      BreakdownEntries(scores, init);
    }
  }

  lemma PrefixStep(weights: Weights, i: nat)
    requires i < |weights|
    ensures weights[..i + 1][..i] == weights[..i]
    ensures weights[..i + 1][i] == weights[i]
  {
  }

  /** `calculate_marketing_score(section_scores)` with the weight table as
      a parameter. The breakdown has exactly the table's sections (other
      input keys are ignored), each with its expected row; the final score
      is the rounded sum of the unrounded contributions. */
  method CalculateMarketingScore(scores: map<string, Option<real>>, weights: Weights)
    returns (result: ScoreResult)
    requires DistinctSections(weights)
    ensures result.breakdown.Keys == Sections(weights)
    ensures forall i :: 0 <= i < |weights| ==> result.breakdown[weights[i].0] == ExpectedEntry(scores, weights[i])
    ensures result.finalScore == Round2(TotalScore(scores, weights))
  {
    var breakdown: map<string, BreakdownEntry> := map[];
    var total := 0.0;
    var i := 0;
    while i < |weights|
      invariant 0 <= i <= |weights|
      invariant breakdown == Breakdown(scores, weights[..i])
      invariant total == TotalScore(scores, weights[..i])
    {
      var (section, weight) := weights[i];
      var rawScore := if section in scores then scores[section] else None;
      var raw := if rawScore.None? then 50.0 else rawScore.value;
      var contribution := WeightedScore(raw, weight);
      var entry := BreakdownEntry(Round2(raw), weight, Round2(contribution));
      PrefixStep(weights, i);
      breakdown := breakdown[section := entry];
      total := total + contribution;
      i := i + 1;
    }
    assert weights[..i] == weights;
    BreakdownKeys(scores, weights);
    BreakdownEntries(scores, weights);
    result := ScoreResult(Round2(total), breakdown);
  }

  /** With non-negative weights the exact total lies in [0, 100 * sum of weights]. */
  lemma {:induction false} TotalScoreBounds(scores: map<string, Option<real>>, weights: Weights)
    requires NonNegative(weights)
    ensures 0.0 <= TotalScore(scores, weights) <= 100.0 * WeightSum(weights)
    decreases |weights|
  {
    if |weights| > 0 {
      var init := weights[..|weights| - 1];
      assert NonNegative(init);
      TotalScoreBounds(scores, init);
    }
  }

  /** With non-negative weights summing to 1, the final score lies in
      [0, 100] whatever the raw section scores, because each is clamped. */
  lemma FinalScoreWithinBounds(scores: map<string, Option<real>>, weights: Weights)
    requires NonNegative(weights)
    requires WeightSum(weights) == 1.0
    ensures 0.0 <= Round2(TotalScore(scores, weights)) <= 100.0
  {
    TotalScoreBounds(scores, weights);
    Round2Within(TotalScore(scores, weights), 0, 100);
  }

  /** With non-negative weights, raising section scores never lowers the total. */
  lemma {:induction false} TotalScoreMonotone(lower: map<string, Option<real>>, higher: map<string, Option<real>>, weights: Weights)
    requires NonNegative(weights)
    requires forall i :: 0 <= i < |weights| ==> RawScore(lower, weights[i].0) <= RawScore(higher, weights[i].0)
    ensures TotalScore(lower, weights) <= TotalScore(higher, weights)
    decreases |weights|
  {
    if |weights| > 0 {
      var n := |weights| - 1;
      var init := weights[..n];
      assert forall i :: 0 <= i < |init| ==> init[i] == weights[i];
      TotalScoreMonotone(lower, higher, init);
      WeightedScoreMonotone(RawScore(lower, weights[n].0), RawScore(higher, weights[n].0), weights[n].1);
    }
  }

  /** Raising one section's score (others fixed) never lowers the final score. */
  lemma RaiseOneSection(scores: map<string, Option<real>>, weights: Weights, section: string, v: real)
    requires NonNegative(weights)
    requires RawScore(scores, section) <= v
    ensures Round2(TotalScore(scores, weights)) <= Round2(TotalScore(scores[section := Some(v)], weights))
  {
    var raised := scores[section := Some(v)];
    assert forall s :: RawScore(scores, s) <= RawScore(raised, s);
    TotalScoreMonotone(scores, raised, weights);
    Round2Monotone(TotalScore(scores, weights), TotalScore(raised, weights));
  }

  /** With no section scores at all, every section falls back to 50 and
      the total is 50 times the sum of the weights. */
  lemma {:induction false} EmptyInputTotal(weights: Weights)
    ensures TotalScore(map[], weights) == 50.0 * WeightSum(weights)
    decreases |weights|
  {
    if |weights| > 0 {
      EmptyInputTotal(weights[..|weights| - 1]);
    }
  }

  /** Keys outside the weight table never change the total. */
  lemma {:induction false} TotalIgnoresOtherKeys(scores: map<string, Option<real>>, other: map<string, Option<real>>, weights: Weights)
    requires forall i :: 0 <= i < |weights| ==> weights[i].0 !in other
    ensures TotalScore(scores + other, weights) == TotalScore(scores, weights)
    decreases |weights|
  {
    if |weights| > 0 {
      var init := weights[..|weights| - 1];
      assert forall i :: 0 <= i < |init| ==> init[i] == weights[i];
      TotalIgnoresOtherKeys(scores, other, init);
    }
  }
}
