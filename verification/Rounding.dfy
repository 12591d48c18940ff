/** Python's `round(x, digits)` over exact reals: the nearest multiple of 1/scale, a tie going to the even one. */
module Rounding {
  import opened RealFacts

  function Pow10(digits: nat): (scale: int)
    ensures scale >= 1
  {
    if digits == 0 then 1 else 10 * Pow10(digits - 1)
  }

  /** The nearest integer, ties to even. */
  function Nearest(x: real): int {
    var f := x.Floor;
    var part := x - f as real;
    if part < 0.5 || (part == 0.5 && f % 2 == 0) then f else f + 1
  }

  function RoundTo(x: real, scale: int): real
    requires scale >= 1
  {
    Nearest(x * scale as real) as real / scale as real
  }

  lemma NearestMonotone(x: real, y: real)
    requires x <= y
    ensures Nearest(x) <= Nearest(y)
  {
  }

  lemma NearestOfWhole(n: int)
    ensures Nearest(n as real) == n
  {
  }

  lemma NearestIsClose(x: real)
    ensures -0.5 <= Nearest(x) as real - x <= 0.5
  {
  }

  lemma Scaled(x: real, scale: int)
    requires scale >= 1
    ensures RoundTo(x, scale) * scale as real == Nearest(x * scale as real) as real
  {
  }

  lemma RoundMonotone(x: real, y: real, scale: int)
    requires scale >= 1 && x <= y
    ensures RoundTo(x, scale) <= RoundTo(y, scale)
  {
    hide Nearest, RoundTo;
    ScaleUp(x, y, scale as real);
    NearestMonotone(x * scale as real, y * scale as real);
    Scaled(x, scale);
    Scaled(y, scale);
    var p, q := RoundTo(x, scale), RoundTo(y, scale);
    assert p * scale as real <= q * scale as real;
    ScaleUp(p, q, scale as real);
  }

  /** Whole numbers, and any multiple of 1/scale, round to themselves. */
  lemma RoundOfMultiple(x: real, n: int, scale: int)
    requires scale >= 1 && x * scale as real == n as real
    ensures RoundTo(x, scale) == x
  {
    hide Nearest, RoundTo;
    NearestOfWhole(n);
    Scaled(x, scale);
    ScaleUp(RoundTo(x, scale), x, scale as real);
    ScaleUp(x, RoundTo(x, scale), scale as real);
  }

  lemma RoundOfWhole(n: int, scale: int)
    requires scale >= 1
    ensures RoundTo(n as real, scale) == n as real
  {
    assert n as real * scale as real == (n * scale) as real;
    RoundOfMultiple(n as real, n * scale, scale);
  }

  /** Rounding keeps a value within whole-number limits. */
  lemma RoundWithin(x: real, low: int, high: int, scale: int)
    requires scale >= 1 && low as real <= x <= high as real
    ensures low as real <= RoundTo(x, scale) <= high as real
  {
    RoundMonotone(low as real, x, scale);
    RoundMonotone(x, high as real, scale);
    RoundOfWhole(low, scale);
    RoundOfWhole(high, scale);
  }

  /** Rounding moves a value by at most half a unit in the last place. */
  lemma RoundIsClose(x: real, scale: int)
    requires scale >= 1
    ensures -0.5 <= (RoundTo(x, scale) - x) * scale as real <= 0.5
  {
    hide Nearest, RoundTo;
    Scaled(x, scale);
    NearestIsClose(x * scale as real);
    assert (RoundTo(x, scale) - x) * scale as real == RoundTo(x, scale) * scale as real - x * scale as real;
  }

  /** Halfway between two multiples of 1/scale the even one is taken. */
  lemma TieGoesToEven(x: real, k: int, scale: int)
    requires scale >= 1 && x * scale as real == k as real + 0.5
    ensures RoundTo(x, scale) * scale as real == (if k % 2 == 0 then k else k + 1) as real
  {
    Scaled(x, scale);
    NearestOfHalf(k);
  }

  lemma NearestOfHalf(k: int)
    ensures Nearest(k as real + 0.5) == if k % 2 == 0 then k else k + 1
  {
    assert (k as real + 0.5).Floor == k;
  }

  /** The unit of the last digit is a power of ten. */
  lemma LastDigit(digits: nat)
    ensures Pow10(0) == 1 && Pow10(digits + 1) == 10 * Pow10(digits)
  {
  }
}
