/** Python's numeric rounding builtins over exact reals.

    The source rounds floats with `round(x)` (to an integer) and
    `round(x, 2)` (to hundredths). Both are modelled as exact decimal
    rounding with ties to the even neighbour; binary floating point is
    not modelled.
 */
module PyNumbers {

  /** `round(x)`: the nearest integer, ties going to the even one. */
  function RoundHalfEven(x: real): (n: int)
    ensures (n as real) - 0.5 <= x <= (n as real) + 0.5
    ensures x - (n as real) == 0.5 ==> n % 2 == 0
    ensures (n as real) - x == 0.5 ==> n % 2 == 0
  {
    var f := x.Floor;
    var d := x - f as real;
    if d < 0.5 then f
    else if d > 0.5 then f + 1
    else if f % 2 == 0 then f else f + 1
  }

  /** Rounding never reverses the order of two values. */
  lemma RoundHalfEvenMonotone(x: real, y: real)
    requires x <= y
    ensures RoundHalfEven(x) <= RoundHalfEven(y)
  {
  }

  /** Whole numbers are left unchanged. */
  lemma RoundHalfEvenOfInt(n: int)
    ensures RoundHalfEven(n as real) == n
  {
  }

  /** `round(x, 2)`: the nearest multiple of 0.01, ties to the even multiple. */
  function Round2(x: real): (r: real)
    ensures x - 0.005 <= r <= x + 0.005
    ensures (r * 100.0).Floor as real == r * 100.0
  {
    RoundHalfEven(x * 100.0) as real / 100.0
  }

  /** `round(x, 2)` is monotone. */
  lemma Round2Monotone(x: real, y: real)
    requires x <= y
    ensures Round2(x) <= Round2(y)
  {
    RoundHalfEvenMonotone(x * 100.0, y * 100.0);
  }

  /** A value that already has at most two decimals is left unchanged. */
  lemma Round2OfHundredths(n: int)
    ensures Round2(n as real / 100.0) == n as real / 100.0
  {
    assert (n as real / 100.0) * 100.0 == n as real;
    RoundHalfEvenOfInt(n);
  }

  /** Rounding to hundredths keeps a value inside [lo, hi] when both ends are whole numbers. */
  lemma Round2Within(x: real, lo: int, hi: int)
    requires lo as real <= x <= hi as real
    ensures lo as real <= Round2(x) <= hi as real
  {
    Round2Monotone(lo as real, x);
    Round2Monotone(x, hi as real);
    Round2OfHundredths(lo * 100);
    Round2OfHundredths(hi * 100);
    assert (lo * 100) as real / 100.0 == lo as real;
    assert (hi * 100) as real / 100.0 == hi as real;
  }
}
