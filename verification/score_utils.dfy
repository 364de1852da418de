/** src/scoring/score_utils.py: clamping a section score into [0, 100]
    and weighting it. */
module ScoreUtils {

  /** `max(lo, min(value, hi))`, the general form with explicit bounds. */
  function ClampTo(value: real, lo: real, hi: real): (r: real)
    ensures lo <= hi ==> lo <= r <= hi
    ensures lo <= value <= hi ==> r == value
    ensures value <= lo ==> r == lo
    ensures lo <= hi && hi <= value ==> r == hi
  {
    var m := if value < hi then value else hi;
    if lo > m then lo else m
  }

  /** `clamp(value)` with the default bounds 0 and 100. */
  function Clamp(value: real): (r: real)
    ensures 0.0 <= r <= 100.0
    ensures 0.0 <= value <= 100.0 ==> r == value
    ensures value < 0.0 ==> r == 0.0
    ensures value > 100.0 ==> r == 100.0
  {
    ClampTo(value, 0.0, 100.0)
  }

  /** Clamping twice is clamping once. */
  lemma ClampIdempotent(value: real)
    ensures Clamp(Clamp(value)) == Clamp(value)
  {
  }

  /** Clamping never reverses the order of two scores. */
  lemma ClampMonotone(x: real, y: real)
    requires x <= y
    ensures Clamp(x) <= Clamp(y)
  {
  }

  /** `weighted_score(section_score, weight)`: the clamped score scaled by
      the weight, so at most `100 * weight` for a non-negative weight. */
  function WeightedScore(sectionScore: real, weight: real): (r: real)
    ensures weight >= 0.0 ==> 0.0 <= r <= 100.0 * weight
  {
    var c := Clamp(sectionScore);
    ScaledBounds(c, weight);
    c * weight
  }

  /** A value in [0, 100] scaled by a non-negative weight lies in [0, 100 * weight]. */
  lemma ScaledBounds(c: real, w: real)
    requires 0.0 <= c <= 100.0
    ensures w >= 0.0 ==> 0.0 <= c * w <= 100.0 * w
  {
    if w >= 0.0 {
      ScaleMonotone(0.0, c, w);
      ScaleMonotone(c, 100.0, w);
    }
  }

  /** Scaling by a non-negative factor keeps the order. */
  lemma ScaleMonotone(a: real, b: real, w: real)
    requires a <= b
    requires w >= 0.0
    ensures a * w <= b * w
  {
    var d := b - a;
    assert d >= 0.0;
    assert d * w >= 0.0;
    assert b * w - a * w == d * w;
    assert b * w == a * w + d * w;
  }

  /** For a non-negative weight, a higher section score never weighs less. */
  lemma WeightedScoreMonotone(x: real, y: real, weight: real)
    requires x <= y
    requires weight >= 0.0
    ensures WeightedScore(x, weight) <= WeightedScore(y, weight)
  {
    var cx, cy := Clamp(x), Clamp(y);
    ClampMonotone(x, y);
    assert cx <= cy;
    ScaleMonotone(cx, cy, weight);
    assert cy * weight - cx * weight == (cy - cx) * weight;
    assert (cy - cx) * weight >= 0.0;
    assert WeightedScore(x, weight) == cx * weight;
    assert WeightedScore(y, weight) == cy * weight;
    assert cx * weight <= cy * weight;
  }
}
