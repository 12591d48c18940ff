/** The few facts about products and quotients of reals that the other modules use one at a time. */
module RealFacts {
  lemma NonNegativeProduct(x: real, y: real)
    requires x >= 0.0 && y >= 0.0
    ensures x * y >= 0.0
  {
  }

  /** Multiplying by a positive number keeps and reflects order. */
  lemma ScaleUp(x: real, y: real, s: real)
    requires s > 0.0
    ensures x <= y <==> x * s <= y * s
  {
    if x < y {
      assert (y - x) * s > 0.0;
      assert (y - x) * s == y * s - x * s;
    }
    if y < x {
      assert (x - y) * s > 0.0;
      assert (x - y) * s == x * s - y * s;
    }
  }

  lemma QuotientTimes(x: real, q: real)
    requires q > 0.0
    ensures x / q * q == x
  {
  }

  lemma WholeRatio(x: real, q: real)
    requires q > 0.0
    ensures x / q == 1.0 <==> x == q
  {
    QuotientTimes(x, q);
  }

  lemma RatioAtLeastOne(x: real, q: real)
    requires q > 0.0 && x / q >= 1.0
    ensures x >= q
  {
    QuotientTimes(x, q);
    ScaleUp(1.0, x / q, q);
  }

  /** A larger denominator gives a smaller quotient. */
  lemma Ratios(x: real, p: real, q: real)
    requires x >= 0.0 && 0.0 < p <= q
    ensures 0.0 <= x / q <= x / p
  {
    var u, v := x / p, x / q;
    QuotientTimes(x, p);
    QuotientTimes(x, q);
    ScaleUp(0.0, u, p);
    ScaleUp(0.0, v, q);
    NonNegativeProduct(u, q - p);
    assert u * (q - p) == u * q - u * p;
    ScaleUp(v, u, q);
  }

  lemma Regroup(c: real, x: real, g: real)
    ensures (c * x) * g == c * (x * g)
  {
  }

  /** A common positive factor cancels from a ratio. */
  lemma CommonFactor(c: real, x: real, y: real)
    requires c > 0.0 && y > 0.0
    ensures c * y > 0.0 && (c * x) / (c * y) == x / y
  {
    var q := x / y;
    QuotientTimes(x, y);
    Regroup(c, y, q);
    assert (c * y) * q == c * x;
    QuotientTimes(c * x, c * y);
    SameProduct((c * x) / (c * y), q, c * y);
  }

  lemma SameProduct(p: real, q: real, s: real)
    requires s > 0.0 && p * s == q * s
    ensures p == q
  {
    ScaleUp(p, q, s);
    ScaleUp(q, p, s);
  }
}
