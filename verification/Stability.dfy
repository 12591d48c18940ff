/**
  `_score_stability` and `_turnover` of src/openfundscore/walk_forward.py. A Spearman correlation is
  kept as its numerator and its two scales, whose product is the radicand of the denominator, so no
  square root is taken; "lies in [-1, 1]" reads numerator^2 <= radicand.
 */
module Stability {
  import opened Prelude
  import opened Ordering
  import opened Ranking
  import opened RealFacts

  datatype Metric =
    | InsufficientPriorFold
    | InsufficientOverlap(sampleSize: nat)
    | InsufficientVariation(sampleSize: nat)
    | Correlation(numerator: real, priorScale: real, currentScale: real, sampleSize: nat)
    | Distance(value: real, sampleSize: nat)

  // ---- Spearman ----

  function Deviations(ranks: seq<real>): (d: seq<real>)
    requires ranks != []
    ensures |d| == |ranks| && forall i | 0 <= i < |ranks| :: d[i] == ranks[i] - Sum(ranks) / |ranks| as real
  {
    var mean := Sum(ranks) / |ranks| as real;
    seq(|ranks|, i requires 0 <= i < |ranks| => ranks[i] - mean)
  }

  function Times(x: real, y: real): real {
    x * y
  }

  function Products(a: seq<real>, b: seq<real>): (r: seq<real>)
    requires |a| == |b|
    ensures |r| == |a| && forall i | 0 <= i < |a| :: r[i] == Times(a[i], b[i])
  {
    seq(|a|, i requires 0 <= i < |a| => Times(a[i], b[i]))
  }

  function Dot(a: seq<real>, b: seq<real>): real
    requires |a| == |b|
  {
    Sum(Products(a, b))
  }

  function Spearman(prior: seq<real>, current: seq<real>): Metric
    requires |prior| == |current| && |prior| >= 2
  {
    CorrelateRanks(RankVector(prior), RankVector(current))
  }

  function CorrelateRanks(priorRanks: seq<real>, currentRanks: seq<real>): Metric
    requires |priorRanks| == |currentRanks| && priorRanks != []
  {
    var p, c := Deviations(priorRanks), Deviations(currentRanks);
    var numerator, priorScale, currentScale := Dot(p, c), Dot(p, p), Dot(c, c);
    if Times(priorScale, currentScale) == 0.0 then InsufficientVariation(|priorRanks|)
    else Correlation(numerator, priorScale, currentScale, |priorRanks|)
  }

  ghost function StabilityOf(previous: Option<map<Id, real>>, current: map<Id, real>): Metric {
    if previous.None? then InsufficientPriorFold
    else
      var common := Sorted(previous.value.Keys * current.Keys);
      SortedIsOrdered(previous.value.Keys * current.Keys);
      if |common| < 2 then InsufficientOverlap(|common|)
      else Spearman(ValuesOf(previous.value, common), ValuesOf(current, common))
  }

  method RanksInOrder(values: map<Id, real>, ids: seq<Id>) returns (ranks: seq<real>)
    requires forall id | id in ids :: id in values
    ensures ranks == RankVector(ValuesOf(values, ids))
  {
    var byId := Ranks(values, ids);
    ranks := seq(|ids|, i requires 0 <= i < |ids| && forall id | id in ids :: id in byId => byId[ids[i]]);
  }

  method ScoreStability(previous: Option<map<Id, real>>, current: map<Id, real>) returns (m: Metric)
    ensures m == StabilityOf(previous, current)
  {
    if previous.None? {
      return InsufficientPriorFold;
    }
    var common := SortSet(previous.value.Keys * current.Keys);
    if |common| < 2 {
      return InsufficientOverlap(|common|);
    }
    var prior := RanksInOrder(previous.value, common);
    var present := RanksInOrder(current, common);
    return CorrelateRanks(prior, present);
  }

  // ---- products, kept behind `Times` so that sums of them stay linear for the verifier ----

  lemma NegatedSquare(x: real)
    ensures Times(0.0 - x, 0.0 - x) == Times(x, x)
  {
    var y := 0.0 - x;
    assert y * y == (0.0 - x) * y;
    assert (0.0 - x) * y == 0.0 - x * y;
    assert x * y == x * (0.0 - x) == 0.0 - x * x;
  }

  lemma TimesZero(x: real)
    ensures Times(x, 0.0) == 0.0 && Times(0.0, x) == 0.0
  {
  }

  lemma Square(x: real)
    ensures Times(x, x) >= 0.0 && (Times(x, x) == 0.0 <==> x == 0.0)
  {
    hide Times;
    if x < 0.0 {
      NegatedSquare(x);
      Positive(0.0 - x, 0.0 - x);
    } else if x > 0.0 {
      Positive(x, x);
    } else {
      TimesZero(x);
    }
  }

  lemma SquareOfDifference(x: real, y: real, t: real)
    ensures Times(x - Times(t, y), x - Times(t, y))
         == Times(x, x) - 2.0 * Times(t, Times(x, y)) + Times(t, Times(t, Times(y, y)))
  {
    assert (x - t * y) * (x - t * y) == x * x - 2.0 * (t * (x * y)) + t * (t * (y * y));
  }

  lemma Distribute(u: real, x: real, y: real)
    ensures Times(u, x + y) == Times(u, x) + Times(u, y)
    ensures Times(x - y, u) == Times(x, u) - Times(y, u)
  {
  }

  lemma Associate(x: real, y: real, z: real)
    ensures Times(Times(x, y), z) == Times(Times(x, z), y)
  {
  }

  lemma Positive(x: real, y: real)
    requires y > 0.0
    ensures Times(x, y) > 0.0 <==> x > 0.0
    ensures Times(x, y) == 0.0 <==> x == 0.0
  {
    if x < 0.0 {
      assert (0.0 - x) * y > 0.0;
      assert (0.0 - x) * y == 0.0 - x * y;
    }
  }

  lemma Ratio(n: real, q: real) returns (t: real)
    requires q > 0.0
    ensures Times(t, q) == n
  {
    t := n / q;
  }

  // ---- Cauchy-Schwarz and its equality case ----

  /** The squares (a[i] - t*b[i])^2. */
  function Gaps(a: seq<real>, b: seq<real>, t: real): (r: seq<real>)
    requires |a| == |b|
    ensures |r| == |a| && forall i | 0 <= i < |a| :: r[i] == Times(a[i] - Times(t, b[i]), a[i] - Times(t, b[i]))
  {
    hide Times;
    seq(|a|, i requires 0 <= i < |a| => Times(a[i] - Times(t, b[i]), a[i] - Times(t, b[i])))
  }

  /** The value of p - 2tn + t^2 q. */
  function Completed(p: real, n: real, q: real, t: real): real {
    p - 2.0 * Times(t, n) + Times(t, Times(t, q))
  }

  lemma {:induction false} CompletedSum(g: seq<real>, p: seq<real>, n: seq<real>, q: seq<real>, t: real)
    requires |g| == |p| == |n| == |q|
    requires forall i | 0 <= i < |g| :: g[i] == Completed(p[i], n[i], q[i], t)
    ensures Sum(g) == Completed(Sum(p), Sum(n), Sum(q), t)
  {
    hide Times;
    if g != [] {
      var k := |g| - 1;
      CompletedSum(g[..k], p[..k], n[..k], q[..k], t);
      Distribute(t, Sum(n[..k]), n[k]);
      Distribute(t, Sum(q[..k]), q[k]);
      Distribute(t, Times(t, Sum(q[..k])), Times(t, q[k]));
    } else {
      CompletedZero(t);
    }
  }

  lemma CompletedZero(t: real)
    ensures Completed(0.0, 0.0, 0.0, t) == 0.0
  {
  }

  /** Nonnegative terms have a nonnegative sum, which is zero only when every term is. */
  lemma {:induction false} NonNegativeSum(xs: seq<real>)
    requires forall i | 0 <= i < |xs| :: xs[i] >= 0.0
    ensures Sum(xs) >= 0.0
    ensures Sum(xs) == 0.0 <==> forall i | 0 <= i < |xs| :: xs[i] == 0.0
  {
    if xs != [] {
      var k := |xs| - 1;
      NonNegativeSum(xs[..k]);
      assert forall i | 0 <= i < k :: xs[i] == xs[..k][i];
    }
  }

  lemma GapExpands(a: seq<real>, b: seq<real>, t: real)
    requires |a| == |b|
    ensures Sum(Gaps(a, b, t)) == Completed(Dot(a, a), Dot(a, b), Dot(b, b), t)
    ensures Sum(Gaps(a, b, t)) >= 0.0
    ensures Sum(Gaps(a, b, t)) == 0.0 ==> forall i | 0 <= i < |a| :: a[i] == Times(t, b[i])
  {
    hide Times;
    var g, p, n, q := Gaps(a, b, t), Products(a, a), Products(a, b), Products(b, b);
    forall i | 0 <= i < |a| ensures g[i] >= 0.0 && (g[i] == 0.0 ==> a[i] == Times(t, b[i])) && g[i] == Completed(p[i], n[i], q[i], t) {
      SquareOfDifference(a[i], b[i], t);
      Square(a[i] - Times(t, b[i]));
    }
    CompletedSum(g, p, n, q, t);
    NonNegativeSum(g);
  }

  lemma DotSelf(a: seq<real>)
    ensures Dot(a, a) >= 0.0
    ensures Dot(a, a) == 0.0 <==> forall i | 0 <= i < |a| :: a[i] == 0.0
  {
    hide Times;
    var squares := Products(a, a);
    forall i | 0 <= i < |a| ensures squares[i] >= 0.0 && (squares[i] == 0.0 <==> a[i] == 0.0) {
      Square(a[i]);
    }
    NonNegativeSum(squares);
  }

  lemma DotWithZero(a: seq<real>, b: seq<real>)
    requires |a| == |b| && forall i | 0 <= i < |b| :: b[i] == 0.0
    ensures Dot(a, b) == 0.0
  {
    NonNegativeSum(Products(a, b));
  }

  lemma Discriminant(p: real, n: real, q: real, t: real)
    requires q > 0.0 && Times(t, q) == n && Completed(p, n, q, t) >= 0.0
    ensures Times(n, n) <= Times(p, q) && (Times(n, n) == Times(p, q) ==> Completed(p, n, q, t) == 0.0)
  {
    hide Times;
    var gap := Completed(p, n, q, t);
    assert gap == p - Times(t, n);
    Distribute(q, p, Times(t, n));
    Associate(t, n, q);
    assert Times(gap, q) == Times(p, q) - Times(n, n);
    Positive(gap, q);
  }

  lemma CauchySchwarz(a: seq<real>, b: seq<real>)
    requires |a| == |b|
    ensures Times(Dot(a, b), Dot(a, b)) <= Times(Dot(a, a), Dot(b, b))
  {
    hide Times, Completed;
    DotSelf(b);
    if Dot(b, b) == 0.0 {
      DotWithZero(a, b);
      TimesZero(Dot(a, a));
      TimesZero(Dot(a, b));
    } else {
      var t := Ratio(Dot(a, b), Dot(b, b));
      GapExpands(a, b, t);
      Discriminant(Dot(a, a), Dot(a, b), Dot(b, b), t);
    }
  }

  lemma EqualityCase(a: seq<real>, b: seq<real>) returns (t: real)
    requires |a| == |b| && Dot(a, b) > 0.0 && Dot(b, b) > 0.0
    requires Times(Dot(a, b), Dot(a, b)) == Times(Dot(a, a), Dot(b, b))
    ensures t > 0.0 && forall i | 0 <= i < |a| :: a[i] == Times(t, b[i])
  {
    hide Times, Completed;
    t := Ratio(Dot(a, b), Dot(b, b));
    GapExpands(a, b, t);
    Discriminant(Dot(a, a), Dot(a, b), Dot(b, b), t);
    Positive(t, Dot(b, b));
  }

  /** The reported correlation lies in [-1, 1] and both of its scales are positive. */
  lemma SpearmanInRange(prior: seq<real>, current: seq<real>)
    requires |prior| == |current| && |prior| >= 2 && Spearman(prior, current).Correlation?
    ensures var m := Spearman(prior, current);
            && m.priorScale > 0.0 && m.currentScale > 0.0
            && Times(m.numerator, m.numerator) <= Times(m.priorScale, m.currentScale)
  {
    hide Times, Dot;
    var p, c := Deviations(RankVector(prior)), Deviations(RankVector(current));
    CauchySchwarz(p, c);
    DotSelf(p);
    DotSelf(c);
    TimesZero(Dot(p, p));
    TimesZero(Dot(c, c));
  }

  /** "Insufficient variation" is reported exactly when one of the folds ties every common strategy. */
  lemma VariationMeansSomeDifference(prior: seq<real>, current: seq<real>)
    requires |prior| == |current| && |prior| >= 2
    ensures Spearman(prior, current).InsufficientVariation? <==> AllTied(prior) || AllTied(current)
  {
    hide Times, Dot;
    var p, c := Deviations(RankVector(prior)), Deviations(RankVector(current));
    TiedHasNoDeviation(prior);
    TiedHasNoDeviation(current);
    DotSelf(p);
    DotSelf(c);
    TimesZero(Dot(p, p));
    TimesZero(Dot(c, c));
    if Dot(p, p) > 0.0 && Dot(c, c) > 0.0 {
      Positive(Dot(p, p), Dot(c, c));
    }
  }

  ghost predicate AllTied(xs: seq<real>) {
    forall i, j | 0 <= i < |xs| && 0 <= j < |xs| :: xs[i] == xs[j]
  }

  lemma TiedHasNoDeviation(xs: seq<real>)
    requires xs != []
    ensures AllTied(xs) <==> forall i | 0 <= i < |xs| :: Deviations(RankVector(xs))[i] == 0.0
  {
    hide AllTied, RankVector, Deviations;
    var d := Deviations(RankVector(xs));
    if AllTied(xs) {
      TiedRanks(xs);
      ConstantDeviations(RankVector(xs));
    }
    if forall i | 0 <= i < |xs| :: d[i] == 0.0 {
      NoDeviationMeansTied(xs);
    }
  }

  lemma TiedRanks(xs: seq<real>)
    requires AllTied(xs)
    ensures forall i | 0 <= i < |xs| :: RankVector(xs)[i] == RankVector(xs)[0]
  {
    forall i | 0 <= i < |xs| ensures RankVector(xs)[i] == RankVector(xs)[0] {
      assert xs[i] == xs[0];
    }
  }

  lemma ConstantDeviations(ranks: seq<real>)
    requires ranks != [] && forall i | 0 <= i < |ranks| :: ranks[i] == ranks[0]
    ensures forall i | 0 <= i < |ranks| :: Deviations(ranks)[i] == 0.0
  {
    hide Sum, Times;
    ConstantSum(ranks);
    MeanOfEqual(|ranks| as real, ranks[0]);
  }

  lemma MeanOfEqual(n: real, x: real)
    requires n > 0.0
    ensures Times(n, x) / n == x
  {
  }

  lemma NoDeviationMeansTied(xs: seq<real>)
    requires xs != [] && forall i | 0 <= i < |xs| :: Deviations(RankVector(xs))[i] == 0.0
    ensures AllTied(xs)
  {
    hide RankVector;
    var d := Deviations(RankVector(xs));
    forall i, j | 0 <= i < |xs| && 0 <= j < |xs| ensures xs[i] == xs[j] {
      assert d[i] == d[j];
      RanksReflectValues(xs, i, j);
      RanksReflectValues(xs, j, i);
    }
  }

  lemma {:induction false} ConstantSum(xs: seq<real>)
    requires xs != [] && forall i | 0 <= i < |xs| :: xs[i] == xs[0]
    ensures Sum(xs) == Times(|xs| as real, xs[0])
  {
    var n := |xs| - 1;
    if n > 0 {
      ConstantSum(xs[..n]);
      assert (n as real + 1.0) * xs[0] == n as real * xs[0] + xs[0];
    } else {
      assert xs[..0] == [];
    }
  }

  /** The correlation is 1 exactly when the two folds order the common strategies identically (and not all tied). */
  lemma PerfectCorrelation(prior: seq<real>, current: seq<real>)
    requires |prior| == |current| && |prior| >= 2 && Spearman(prior, current).Correlation?
    ensures var m := Spearman(prior, current);
            m.numerator > 0.0 && Times(m.numerator, m.numerator) == Times(m.priorScale, m.currentScale) <==> SameOrder(prior, current)
  {
    hide Times, Dot;
    var p, c := Deviations(RankVector(prior)), Deviations(RankVector(current));
    var m := Spearman(prior, current);
    SpearmanInRange(prior, current);
    if SameOrder(prior, current) {
      SameOrderSameRanks(prior, current);
      assert p == c;
    }
    if m.numerator > 0.0 && Times(m.numerator, m.numerator) == Times(m.priorScale, m.currentScale) {
      var t := EqualityCase(p, c);
      forall i, j | 0 <= i < |prior| && 0 <= j < |prior| ensures prior[i] > prior[j] <==> current[i] > current[j] {
        SameOrderAt(prior, current, i, j, t, p, c);
      }
    }
  }

  lemma SameOrderAt(prior: seq<real>, current: seq<real>, i: nat, j: nat, t: real, p: seq<real>, c: seq<real>)
    requires |prior| == |current| && i < |prior| && j < |prior| && t > 0.0
    requires p == Deviations(RankVector(prior)) && c == Deviations(RankVector(current))
    requires p[i] == Times(t, c[i]) && p[j] == Times(t, c[j])
    ensures prior[i] > prior[j] <==> current[i] > current[j]
  {
    hide Times, Sum;
    RanksReflectValues(prior, i, j);
    RanksReflectValues(current, i, j);
    Distribute(t, c[i], c[j]);
    TimesCommute(t, c[i]);
    TimesCommute(t, c[j]);
    Positive(c[i] - c[j], t);
    Positive(c[j] - c[i], t);
    Distribute(t, c[j], c[i]);
  }

  lemma TimesCommute(x: real, y: real)
    ensures Times(x, y) == Times(y, x)
  {
  }

  // ---- Jaccard distance ----

  function Elements(s: seq<Id>): set<Id> {
    set x | x in s
  }

  function Turnover(previous: Option<seq<Id>>, current: seq<Id>): Metric {
    if previous.None? then InsufficientPriorFold
    else
      var union := Elements(previous.value) + Elements(current);
      Distance(if union == {} then 0.0 else 1.0 - |Elements(previous.value) * Elements(current)| as real / |union| as real, |union|)
  }

  lemma Cardinalities(a: set<Id>, b: set<Id>)
    ensures |a * b| <= |a + b| && |a + b| == |a| + |b| - |a * b|
    ensures |a * b| == |a + b| <==> a == b
  {
    Included(a * b, a + b);
    if |a * b| == |a + b| {
      assert a * b == a + b;
    }
    if a == b {
      assert a * b == a + b;
    }
  }

  lemma Included(a: set<Id>, b: set<Id>)
    requires a <= b
    ensures |a| <= |b| && (|a| == |b| ==> a == b)
  {
    assert b == a + (b - a);
    assert |b| == |a| + |b - a|;
  }

  /** Turnover is a distance on selections: in [0, 1], symmetric, 0 for equal selections only, 1 for disjoint ones only. */
  lemma TurnoverIsDistance(a: seq<Id>, b: seq<Id>)
    ensures var t := Turnover(Some(a), b).value;
            && 0.0 <= t <= 1.0
            && t == Turnover(Some(b), a).value
            && (t == 0.0 <==> Elements(a) == Elements(b))
            && (t == 1.0 <==> Elements(a) !! Elements(b) && Elements(a) + Elements(b) != {})
  {
    var x, y := Elements(a), Elements(b);
    Cardinalities(x, y);
    assert x * y == y * x && x + y == y + x;
    if x + y == {} {
      assert x == {} && y == {};
    } else {
      Share(|x * y| as real, |x + y| as real);
    }
  }

  lemma Share(part: real, whole: real)
    requires 0.0 <= part <= whole && whole > 0.0
    ensures 0.0 <= part / whole <= 1.0
    ensures (part / whole == 1.0 <==> part == whole) && (part / whole == 0.0 <==> part == 0.0)
  {
    var f := part / whole;
    assert f * whole == part;
  }

  /** Turnover in plain counts: the share of the union that the two selections do not have in common. */
  lemma TurnoverMeaning(a: seq<Id>, b: seq<Id>)
    ensures var t := Turnover(Some(a), b);
            var union, both := (set id | id in a) + (set id | id in b), (set id | id in a) * (set id | id in b);
            && t.Distance? && t.sampleSize == |union|
            && (if union == {} then t.value == 0.0 else t.value * |union| as real == (|union| - |both|) as real)
  {
    var union, both := (set id | id in a) + (set id | id in b), (set id | id in a) * (set id | id in b);
    assert union == Elements(a) + Elements(b) && both == Elements(a) * Elements(b);
    if union != {} {
      ComplementShare(|both| as real, |union| as real);
    }
  }

  lemma ComplementShare(part: real, whole: real)
    requires whole > 0.0
    ensures (1.0 - part / whole) * whole == whole - part
  {
    assert part / whole * whole == part;
  }

  // ---- the correlation, spelled out ----

  /** The rank of position `i` by counting: the positions above it, and the middle of those level with it. */
  ghost function CountedRank(xs: seq<real>, i: nat): real
    requires i < |xs|
  {
    |Higher(xs, xs[i])| as real + (|Level(xs, xs[i])| as real + 1.0) / 2.0
  }

  ghost function Higher(xs: seq<real>, v: real): set<int> {
    set j | 0 <= j < |xs| && xs[j] > v
  }

  ghost function Level(xs: seq<real>, v: real): set<int> {
    set j | 0 <= j < |xs| && xs[j] == v
  }

  /** How far the rank of position `i` lies from the middle rank. */
  ghost function RankGap(xs: seq<real>, i: nat): real
    requires i < |xs|
  {
    CountedRank(xs, i) - (|xs| as real + 1.0) / 2.0
  }

  ghost function GapProducts(xs: seq<real>, ys: seq<real>, n: nat): real
    requires n <= |xs| == |ys|
  {
    if n == 0 then 0.0 else GapProducts(xs, ys, n - 1) + RankGap(xs, n - 1) * RankGap(ys, n - 1)
  }

  lemma HigherLast(xs: seq<real>, v: real)
    requires xs != []
    ensures |Higher(xs, v)| == |Higher(xs[..|xs| - 1], v)| + (if xs[|xs| - 1] > v then 1 else 0)
  {
    var n := |xs| - 1;
    assert Higher(xs, v) == Higher(xs[..n], v) + (if xs[n] > v then {n} else {});
  }

  lemma LevelLast(xs: seq<real>, v: real)
    requires xs != []
    ensures |Level(xs, v)| == |Level(xs[..|xs| - 1], v)| + (if xs[|xs| - 1] == v then 1 else 0)
  {
    var n := |xs| - 1;
    assert Level(xs, v) == Level(xs[..n], v) + (if xs[n] == v then {n} else {});
  }

  lemma NobodyCounted(xs: seq<real>, v: real)
    requires xs == []
    ensures Higher(xs, v) == {} && Level(xs, v) == {}
  {
  }

  lemma {:induction false} CountsAreCardinalities(xs: seq<real>, v: real)
    ensures Above(xs, v) == |Higher(xs, v)| && Tied(xs, v) == |Level(xs, v)|
  {
    hide Higher, Level;
    if xs != [] {
      CountsAreCardinalities(xs[..|xs| - 1], v);
      HigherLast(xs, v);
      LevelLast(xs, v);
    } else {
      NobodyCounted(xs, v);
    }
  }

  lemma MiddleRank(xs: seq<real>)
    requires xs != []
    ensures Sum(RankVector(xs)) / |xs| as real == (|xs| as real + 1.0) / 2.0
  {
    hide RankVector, Sum;
    RanksSum(xs);
    HalfOfNext(Sum(RankVector(xs)), |xs|);
  }

  lemma HalfOfNext(s: real, n: nat)
    requires n > 0 && 2.0 * s == (n * (n + 1)) as real
    ensures s / n as real == (n as real + 1.0) / 2.0
  {
    var m, q := n as real, (n as real + 1.0) / 2.0;
    assert (n * (n + 1)) as real == m * (m + 1.0);
    assert q * m == s;
    QuotientTimes(s, m);
    SameProduct(s / m, q, m);
  }

  lemma GapIsDeviation(xs: seq<real>, i: nat)
    requires i < |xs|
    ensures Deviations(RankVector(xs))[i] == RankGap(xs, i)
  {
    hide Sum, Higher, Level, Above, Tied;
    MiddleRank(xs);
    CountsAreCardinalities(xs, xs[i]);
  }

  lemma {:induction false} DotIsGapProducts(xs: seq<real>, ys: seq<real>, p: seq<real>, c: seq<real>, n: nat)
    requires n <= |xs| == |ys| == |p| == |c|
    requires forall i | 0 <= i < |xs| :: p[i] == RankGap(xs, i) && c[i] == RankGap(ys, i)
    ensures Dot(p[..n], c[..n]) == GapProducts(xs, ys, n)
  {
    hide RankGap;
    if n > 0 {
      DotIsGapProducts(xs, ys, p, c, n - 1);
      assert p[..n][..n - 1] == p[..n - 1] && c[..n][..n - 1] == c[..n - 1];
      assert Products(p[..n], c[..n])[..n - 1] == Products(p[..n - 1], c[..n - 1]);
    }
  }

  lemma DotOfGaps(xs: seq<real>, ys: seq<real>)
    requires |xs| == |ys| && xs != []
    ensures Dot(Deviations(RankVector(xs)), Deviations(RankVector(ys))) == GapProducts(xs, ys, |xs|)
  {
    hide RankVector, RankGap, Dot;
    var p, c := Deviations(RankVector(xs)), Deviations(RankVector(ys));
    forall i | 0 <= i < |xs| ensures p[i] == RankGap(xs, i) && c[i] == RankGap(ys, i) {
      GapIsDeviation(xs, i);
      GapIsDeviation(ys, i);
    }
    DotIsGapProducts(xs, ys, p, c, |xs|);
    assert p[..|xs|] == p && c[..|xs|] == c;
  }

  /** The reported figures are the sums of products of rank gaps, for as many strategies as were compared. */
  lemma SpearmanMeaning(prior: seq<real>, current: seq<real>)
    requires |prior| == |current| && |prior| >= 2
    ensures var m, n := Spearman(prior, current), |prior|;
            var varies := GapProducts(prior, prior, n) * GapProducts(current, current, n) != 0.0;
            m == if varies then Metric.Correlation(GapProducts(prior, current, n), GapProducts(prior, prior, n), GapProducts(current, current, n), n)
                 else InsufficientVariation(n)
  {
    hide RankVector, GapProducts, Dot, Deviations;
    DotOfGaps(prior, current);
    DotOfGaps(prior, prior);
    DotOfGaps(current, current);
  }
}
