/** Laws of the normalised score: range, monotonicity, neutrality, and invariance under peer order, translation and reflection. */
module NormalizationLaws {
  import opened Prelude
  import opened Ordering
  import opened Normalization
  import opened RealFacts
  import opened Rounding

  function Reflect(vs: seq<real>): (r: seq<real>)
    ensures |r| == |vs| && forall i | 0 <= i < |vs| :: r[i] == -vs[|vs| - 1 - i]
  {
    seq(|vs|, i requires 0 <= i < |vs| => -vs[|vs| - 1 - i])
  }

  function Negate(vs: seq<real>): (r: seq<real>)
    ensures |r| == |vs| && forall i | 0 <= i < |vs| :: r[i] == -vs[i]
  {
    seq(|vs|, i requires 0 <= i < |vs| => -vs[i])
  }

  function Shift(vs: seq<real>, c: real): (r: seq<real>)
    ensures |r| == |vs| && forall i | 0 <= i < |vs| :: r[i] == vs[i] + c
  {
    seq(|vs|, i requires 0 <= i < |vs| => vs[i] + c)
  }

  // ---- sorting commutes with reflection and translation ----

  lemma {:induction false} NegateCounts(vs: seq<real>, x: real)
    ensures multiset(Negate(vs))[x] == multiset(vs)[-x]
  {
    if vs != [] {
      var n := |vs| - 1;
      NegateCounts(vs[..n], x);
      assert vs == vs[..n] + [vs[n]];
      assert Negate(vs) == Negate(vs[..n]) + [-vs[n]];
    }
  }

  lemma ReflectLast(vs: seq<real>)
    requires vs != []
    ensures Reflect(vs) == [-vs[|vs| - 1]] + Reflect(vs[..|vs| - 1])
  {
  }

  lemma {:induction false} ReflectCounts(vs: seq<real>, x: real)
    ensures multiset(Reflect(vs))[x] == multiset(vs)[-x]
  {
    if vs != [] {
      var n := |vs| - 1;
      ReflectCounts(vs[..n], x);
      assert vs == vs[..n] + [vs[n]];
      assert Reflect(vs) == [-vs[n]] + Reflect(vs[..n]);
    }
  }

  lemma {:induction false} ShiftCounts(vs: seq<real>, c: real, x: real)
    ensures multiset(Shift(vs, c))[x] == multiset(vs)[x - c]
  {
    if vs != [] {
      var n := |vs| - 1;
      ShiftCounts(vs[..n], c, x);
      assert vs == vs[..n] + [vs[n]];
      assert Shift(vs, c) == Shift(vs[..n], c) + [vs[n] + c];
    }
  }

  lemma SortReflects(peers: seq<real>)
    ensures SortBy(Negate(peers), RealLeq) == Reflect(SortBy(peers, RealLeq))
  {
    RealOrder();
    SortByCorrect(peers, RealLeq);
    SortByCorrect(Negate(peers), RealLeq);
    var values := SortBy(peers, RealLeq);
    forall x ensures multiset(Reflect(values))[x] == multiset(SortBy(Negate(peers), RealLeq))[x] {
      ReflectCounts(values, x);
      NegateCounts(peers, x);
    }
    forall i, j | 0 <= i < j < |values| ensures RealLeq(Reflect(values)[i], Reflect(values)[j]) {
      assert RealLeq(values[|values| - 1 - j], values[|values| - 1 - i]);
    }
    SortedUnique(SortBy(Negate(peers), RealLeq), Reflect(values), RealLeq);
  }

  lemma SortShifts(peers: seq<real>, c: real)
    ensures SortBy(Shift(peers, c), RealLeq) == Shift(SortBy(peers, RealLeq), c)
  {
    RealOrder();
    SortByCorrect(peers, RealLeq);
    SortByCorrect(Shift(peers, c), RealLeq);
    var values := SortBy(peers, RealLeq);
    forall x ensures multiset(Shift(values, c))[x] == multiset(SortBy(Shift(peers, c), RealLeq))[x] {
      ShiftCounts(values, c, x);
      ShiftCounts(peers, c, x);
    }
    forall i, j | 0 <= i < j < |values| ensures RealLeq(Shift(values, c)[i], Shift(values, c)[j]) {
      assert RealLeq(values[i], values[j]);
    }
    SortedUnique(SortBy(Shift(peers, c), RealLeq), Shift(values, c), RealLeq);
  }

  // ---- quantiles ----

  lemma InterpolateReflects(a: real, b: real, f: real)
    ensures Interpolate(-b, -a, 1.0 - f) == -Interpolate(a, b, f)
  {
    assert (1.0 - f) * (-a - -b) == (b - a) - f * (b - a);
  }

  lemma FloorReflects(n: int, position: real)
    ensures position == position.Floor as real ==> (n as real - position).Floor == n - position.Floor
    ensures position != position.Floor as real ==> (n as real - position).Floor == n - position.Floor - 1
  {
  }

  lemma QuantileAtReflects(values: seq<real>, position: real)
    requires values != [] && 0.0 <= position <= (|values| - 1) as real
    ensures QuantileAt(Reflect(values), (|values| - 1) as real - position) == -QuantileAt(values, position)
  {
    hide Interpolate;
    FloorReflects(|values| - 1, position);
    var i := position.Floor;
    if position != i as real {
      InterpolateReflects(values[i], values[i + 1], position - i as real);
    }
  }

  lemma Complement(n: nat, p: real)
    requires n > 0
    ensures (n - 1) as real - Position(n, 1.0 - p) == Position(n, p)
  {
  }

  /** Reflecting a sample swaps complementary quantiles and their signs. */
  lemma QuantileReflects(values: seq<real>, p: real)
    requires values != [] && 0.0 <= p <= 1.0
    ensures Quantile(Reflect(values), p) == -Quantile(values, 1.0 - p)
  {
    QuantileIndex(|values|, 1.0 - p);
    Complement(|values|, p);
    hide QuantileAt, Position;
    QuantileAtReflects(values, Position(|values|, 1.0 - p));
  }

  lemma QuantileShifts(values: seq<real>, p: real, c: real)
    requires values != [] && 0.0 <= p <= 1.0
    ensures Quantile(Shift(values, c), p) == Quantile(values, p) + c
  {
    QuantileIndex(|values|, p);
    hide QuantileAt, Position;
    QuantileAtShifts(values, Position(|values|, p), c);
  }

  lemma QuantileAtShifts(values: seq<real>, position: real, c: real)
    requires values != [] && 0.0 <= position <= (|values| - 1) as real
    ensures QuantileAt(Shift(values, c), position) == QuantileAt(values, position) + c
  {
    hide Interpolate;
    var i := position.Floor;
    if position != i as real {
      InterpolateShifts(values[i], values[i + 1], position - i as real, c);
    }
  }

  lemma InterpolateShifts(a: real, b: real, f: real, c: real)
    ensures Interpolate(a + c, b + c, f) == Interpolate(a, b, f) + c
  {
  }

  lemma InterpolateBetween(a: real, b: real, f: real)
    requires a <= b && 0.0 <= f < 1.0
    ensures a <= Interpolate(a, b, f) <= b
  {
    var g, w := 1.0 - f, b - a;
    NonNegativeProduct(f, w);
    NonNegativeProduct(g, w);
    assert g * w == w - f * w;
  }

  /** A quantile lies between the neighbouring order statistics, hence within the sample. */
  lemma QuantileWithin(values: seq<real>, p: real)
    requires values != [] && 0.0 <= p <= 1.0 && SortedBy(values, RealLeq)
    ensures values[0] <= Quantile(values, p) <= values[|values| - 1]
  {
    QuantileIndex(|values|, p);
    hide QuantileAt, Position;
    QuantileAtWithin(values, Position(|values|, p));
  }

  lemma QuantileAtWithin(values: seq<real>, position: real)
    requires values != [] && 0.0 <= position <= (|values| - 1) as real && SortedBy(values, RealLeq)
    ensures values[0] <= QuantileAt(values, position) <= values[|values| - 1]
  {
    hide Interpolate;
    var i := position.Floor;
    assert i > 0 ==> RealLeq(values[0], values[i]);
    assert i < |values| - 1 ==> RealLeq(values[i], values[|values| - 1]);
    if position != i as real {
      assert RealLeq(values[i], values[i + 1]);
      assert i + 1 < |values| - 1 ==> RealLeq(values[i + 1], values[|values| - 1]);
      InterpolateBetween(values[i], values[i + 1], position - i as real);
    }
  }

  // ---- bounds ----

  lemma MadNonNegative(values: seq<real>)
    requires values != []
    ensures Mad(values) >= 0.0
  {
    RealOrder();
    var deviations := Deviations(values, Quantile(values, 0.5));
    SortByCorrect(deviations, RealLeq);
    var ordered := SortBy(deviations, RealLeq);
    QuantileWithin(ordered, 0.5);
    assert ordered[0] in deviations;
  }

  lemma BoundsOrdered(values: seq<real>)
    requires values != []
    ensures BoundsOf(values).lower <= BoundsOf(values).upper
  {
    MadNonNegative(values);
    hide Quantile, Mad;
  }

  lemma {:induction false} ReverseCounts(a: seq<real>, b: seq<real>)
    requires |a| == |b| && forall i | 0 <= i < |a| :: b[i] == a[|a| - 1 - i]
    ensures multiset(a) == multiset(b)
  {
    if a != [] {
      var n := |a| - 1;
      ReverseCounts(a[..n], b[1..]);
      assert a == a[..n] + [a[n]];
      assert b == [a[n]] + b[1..];
    }
  }

  lemma DeviationsReflect(values: seq<real>, m: real)
    ensures SortBy(Deviations(Reflect(values), -m), RealLeq) == SortBy(Deviations(values, m), RealLeq)
  {
    RealOrder();
    var own, mirrored := Deviations(values, m), Deviations(Reflect(values), -m);
    ReverseCounts(own, mirrored);
    SortPermutation(mirrored, own, RealLeq);
  }

  lemma MadReflects(values: seq<real>)
    requires values != []
    ensures Mad(Reflect(values)) == Mad(values)
  {
    hide Quantile, MedianDeviation, Reflect;
    var m := Quantile(values, 0.5);
    QuantileReflects(values, 0.5);
    assert Quantile(Reflect(values), 0.5) == -m;
    MedianDeviationReflects(values, m);
  }

  lemma MedianDeviationReflects(values: seq<real>, m: real)
    requires values != []
    ensures MedianDeviation(Reflect(values), -m) == MedianDeviation(values, m)
  {
    hide Quantile, SortBy, Reflect, Deviations;
    DeviationsReflect(values, m);
  }

  lemma BoundsReflect(values: seq<real>)
    requires values != []
    ensures var b := BoundsOf(values);
            BoundsOf(Reflect(values)) == Bounds(-b.upper, -b.lower, b.adjustment)
  {
    hide Quantile, Mad;
    QuantileReflects(values, 0.25);
    QuantileReflects(values, 0.5);
    QuantileReflects(values, 0.75);
    MadReflects(values);
  }

  lemma MadShifts(values: seq<real>, c: real)
    requires values != []
    ensures Mad(Shift(values, c)) == Mad(values)
  {
    hide Quantile, MedianDeviation, Shift;
    QuantileShifts(values, 0.5, c);
    MedianDeviationShifts(values, Quantile(values, 0.5), c);
  }

  lemma MedianDeviationShifts(values: seq<real>, m: real, c: real)
    requires values != []
    ensures MedianDeviation(Shift(values, c), m + c) == MedianDeviation(values, m)
  {
    hide Quantile, SortBy;
    assert Deviations(Shift(values, c), m + c) == Deviations(values, m);
  }

  lemma BoundsShift(values: seq<real>, c: real)
    requires values != []
    ensures var b := BoundsOf(values);
            BoundsOf(Shift(values, c)) == Bounds(b.lower + c, b.upper + c, b.adjustment)
  {
    hide Quantile, Mad;
    QuantileShifts(values, 0.25, c);
    QuantileShifts(values, 0.5, c);
    QuantileShifts(values, 0.75, c);
    MadShifts(values, c);
  }

  lemma ClampAllReflects(values: seq<real>, b: Bounds)
    requires b.lower <= b.upper
    ensures ClampAll(Reflect(values), Bounds(-b.upper, -b.lower, b.adjustment)) == Reflect(ClampAll(values, b))
  {
  }

  lemma ClampAllShifts(values: seq<real>, b: Bounds, c: real)
    ensures ClampAll(Shift(values, c), Bounds(b.lower + c, b.upper + c, b.adjustment)) == Shift(ClampAll(values, b), c)
  {
  }

  // ---- counting ----

  lemma {:induction false} CountsFit(vs: seq<real>, v: real)
    ensures Below(vs, v) + Equal(vs, v) <= |vs|
  {
    if vs != [] {
      CountsFit(vs[..|vs| - 1], v);
    }
  }

  lemma {:induction false} CountFirst(x: real, vs: seq<real>, v: real)
    ensures Below([x] + vs, v) == (if x < v then 1 else 0) + Below(vs, v)
    ensures Equal([x] + vs, v) == (if x == v then 1 else 0) + Equal(vs, v)
  {
    if vs == [] {
      assert [x] + vs == [x] && [x][..0] == [];
    } else {
      var n := |vs| - 1;
      CountFirst(x, vs[..n], v);
      assert ([x] + vs)[..n + 1] == [x] + vs[..n];
    }
  }

  lemma {:induction false} CountsReflect(vs: seq<real>, v: real)
    ensures Below(Reflect(vs), -v) == |vs| - Below(vs, v) - Equal(vs, v)
    ensures Equal(Reflect(vs), -v) == Equal(vs, v)
  {
    if vs != [] {
      var n := |vs| - 1;
      CountsReflect(vs[..n], v);
      ReflectLast(vs);
      hide Reflect;
      CountFirst(-vs[n], Reflect(vs[..n]), -v);
    }
  }

  lemma {:induction false} CountsShift(vs: seq<real>, v: real, c: real)
    ensures Below(Shift(vs, c), v + c) == Below(vs, v)
    ensures Equal(Shift(vs, c), v + c) == Equal(vs, v)
  {
    if vs != [] {
      var n := |vs| - 1;
      CountsShift(vs[..n], v, c);
      assert Shift(vs, c)[..n] == Shift(vs[..n], c);
    }
  }

  lemma {:induction false} CountsIncrease(vs: seq<real>, u: real, v: real)
    requires u < v
    ensures Below(vs, u) + Equal(vs, u) <= Below(vs, v)
  {
    if vs != [] {
      CountsIncrease(vs[..|vs| - 1], u, v);
    }
  }

  lemma Cancel(x: real, y: real, n: real)
    requires n > 0.0
    ensures x * n <= y * n <==> x <= y
  {
    if x <= y {
      NonNegativeProduct(y - x, n);
      assert (y - x) * n == y * n - x * n;
    } else {
      assert (x - y) * n > 0.0;
      assert (x - y) * n == x * n - y * n;
    }
  }

  lemma PercentMonotone(a: real, b: real, n: real)
    requires n > 0.0 && a <= b
    ensures PercentOf(a, n) <= PercentOf(b, n)
  {
    assert PercentOf(a, n) * n == 100.0 * a;
    assert PercentOf(b, n) * n == 100.0 * b;
    Cancel(PercentOf(a, n), PercentOf(b, n), n);
  }

  lemma PercentRange(part: real, n: real)
    requires n > 0.0 && 0.0 <= part <= n
    ensures 0.0 <= PercentOf(part, n) <= 100.0
  {
    PercentMonotone(0.0, part, n);
    PercentMonotone(part, n, n);
  }

  lemma PercentComplement(part: real, n: real)
    requires n > 0.0
    ensures PercentOf(n - part, n) == 100.0 - PercentOf(part, n)
  {
    var p, q := PercentOf(part, n), PercentOf(n - part, n);
    assert p * n == 100.0 * part;
    assert q * n == 100.0 * (n - part);
    assert (100.0 - p) * n == 100.0 * n - p * n;
    Cancel(q, 100.0 - p, n);
    Cancel(100.0 - p, q, n);
  }

  // ---- the laws ----

  lemma ScoreInRange(raw: real, peers: seq<real>, direction: Direction)
    requires peers != []
    ensures 0.0 <= Normalize(raw, peers, direction).score <= 100.0
  {
    hide BoundsOf, PercentOf, SortBy, ClampAll;
    var values := SortBy(peers, RealLeq);
    var b := BoundsOf(values);
    var clamped, adjusted := ClampAll(values, b), Clamp(raw, b);
    CountsFit(clamped, adjusted);
    PercentRange(Below(clamped, adjusted) as real + 0.5 * Equal(clamped, adjusted) as real, |clamped| as real);
  }

  /** The score does not depend on the order in which peers are given. */
  lemma PeerOrderDoesNotMatter(raw: real, peers: seq<real>, other: seq<real>, direction: Direction)
    requires peers != [] && multiset(peers) == multiset(other)
    ensures other != [] && Normalize(raw, other, direction) == Normalize(raw, peers, direction)
  {
    SameMembers(peers, other);
    RealOrder();
    SortPermutation(peers, other, RealLeq);
  }

  lemma ScoreAtShifts(clamped: seq<real>, adjusted: real, c: real, direction: Direction)
    requires clamped != []
    ensures ScoreAt(Shift(clamped, c), adjusted + c, direction) == ScoreAt(clamped, adjusted, direction)
  {
    CountsShift(clamped, adjusted, c);
  }

  /** Adding one constant to the raw value and to every peer changes no score. */
  lemma TranslationInvariance(raw: real, peers: seq<real>, c: real, direction: Direction)
    requires peers != []
    ensures Normalize(raw + c, Shift(peers, c), direction).score == Normalize(raw, peers, direction).score
  {
    hide BoundsOf, ScoreAt, SortBy, ClampAll;
    var values := SortBy(peers, RealLeq);
    SortShifts(peers, c);
    BoundsShift(values, c);
    var b := BoundsOf(values);
    ClampAllShifts(values, b, c);
    ScoreAtShifts(ClampAll(values, b), Clamp(raw, b), c, direction);
  }

  /** A better raw value never scores worse in the declared direction. */
  lemma ScoreMonotone(raw: real, better: real, peers: seq<real>)
    requires peers != [] && raw <= better
    ensures Normalize(raw, peers, HigherIsBetter).score <= Normalize(better, peers, HigherIsBetter).score
    ensures Normalize(better, peers, LowerIsBetter).score <= Normalize(raw, peers, LowerIsBetter).score
  {
    hide BoundsOf, PercentOf, SortBy, ClampAll;
    var values := SortBy(peers, RealLeq);
    var b := BoundsOf(values);
    BoundsOrdered(values);
    var clamped, u, v := ClampAll(values, b), Clamp(raw, b), Clamp(better, b);
    if u < v {
      CountsIncrease(clamped, u, v);
    }
    PercentMonotone(Below(clamped, u) as real + 0.5 * Equal(clamped, u) as real,
                    Below(clamped, v) as real + 0.5 * Equal(clamped, v) as real, |clamped| as real);
  }

  lemma {:induction false} AllEqualCounts(vs: seq<real>, v: real)
    requires forall i | 0 <= i < |vs| :: vs[i] == v
    ensures Below(vs, v) == 0 && Equal(vs, v) == |vs|
  {
    if vs != [] {
      AllEqualCounts(vs[..|vs| - 1], v);
    }
  }

  /** Without dispersion every raw value, however extreme, scores exactly 50. */
  lemma NoDispersionIsNeutral(raw: real, peers: seq<real>, direction: Direction)
    requires peers != [] && Normalize(raw, peers, direction).bounds.adjustment == ZeroDispersion
    ensures Normalize(raw, peers, direction).score == 50.0
  {
    hide Quantile, Mad, PercentOf, SortBy, ClampAll;
    var values := SortBy(peers, RealLeq);
    var b := BoundsOf(values);
    assert b.lower == b.upper;
    AllEqualCounts(ClampAll(values, b), Clamp(raw, b));
    HalfIsFifty(|values| as real);
  }

  lemma HalfIsFifty(n: real)
    requires n > 0.0
    ensures PercentOf(0.0 + 0.5 * n, n) == 50.0
  {
  }

  lemma ScoreAtReflects(clamped: seq<real>, adjusted: real)
    requires clamped != []
    ensures ScoreAt(Reflect(clamped), -adjusted, LowerIsBetter) == ScoreAt(clamped, adjusted, HigherIsBetter)
    ensures ScoreAt(Reflect(clamped), -adjusted, HigherIsBetter) == ScoreAt(clamped, adjusted, LowerIsBetter)
  {
    hide PercentOf;
    CountsReflect(clamped, adjusted);
    CountsFit(clamped, adjusted);
    var below, equal, n := Below(clamped, adjusted) as real, Equal(clamped, adjusted) as real, |clamped| as real;
    PercentComplement(below + 0.5 * equal, n);
    assert (n - below - equal) + 0.5 * equal == n - (below + 0.5 * equal);
  }

  /** Direction duality: negating everything and flipping the direction leaves the score unchanged. */
  lemma DirectionDuality(raw: real, peers: seq<real>)
    requires peers != []
    ensures Normalize(-raw, Negate(peers), LowerIsBetter).score == Normalize(raw, peers, HigherIsBetter).score
    ensures Normalize(-raw, Negate(peers), HigherIsBetter).score == Normalize(raw, peers, LowerIsBetter).score
  {
    hide BoundsOf, ScoreAt, SortBy, ClampAll, Reflect, Negate;
    var values := SortBy(peers, RealLeq);
    SortReflects(peers);
    BoundsReflect(values);
    BoundsOrdered(values);
    var b := BoundsOf(values);
    ClampAllReflects(values, b);
    ScoreAtReflects(ClampAll(values, b), Clamp(raw, b));
  }
}
