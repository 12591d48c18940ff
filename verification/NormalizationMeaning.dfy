/**
  Where the winsorising fences of a normalised metric lie and what its score counts, read off the sorted peers
  by rank: no interpolation position, no clamped copy of the sample.
 */
module NormalizationMeaning {
  import opened Prelude
  import opened Ordering
  import opened Normalization
  import opened NormalizationLaws

  // ---- quartiles by rank ----

  /** A quarter of the way up: between the k-th and the next value, where the sample has 4k + r + 1 values. */
  function LowerQuartile(v: seq<real>): real
    requires v != []
  {
    var k, r := (|v| - 1) / 4, (|v| - 1) % 4;
    if r == 0 then v[k] else ((4 - r) as real * v[k] + r as real * v[k + 1]) / 4.0
  }

  /** The same distance down from the top. */
  function UpperQuartile(v: seq<real>): real
    requires v != []
  {
    var n, k, r := |v|, (|v| - 1) / 4, (|v| - 1) % 4;
    if r == 0 then v[n - 1 - k] else ((4 - r) as real * v[n - 1 - k] + r as real * v[n - 2 - k]) / 4.0
  }

  /** The middle value, or the mean of the two middle values. */
  function Middle(v: seq<real>): real
    requires v != []
  {
    if |v| % 2 == 1 then v[|v| / 2] else (v[|v| / 2 - 1] + v[|v| / 2]) / 2.0
  }

  function Distances(v: seq<real>, m: real): (d: seq<real>)
    ensures |d| == |v| && forall i | 0 <= i < |v| :: d[i] == if v[i] < m then m - v[i] else v[i] - m
  {
    seq(|v|, i requires 0 <= i < |v| => if v[i] < m then m - v[i] else v[i] - m)
  }

  lemma QuarterPosition(n: nat)
    requires n > 0
    ensures Position(n, 0.25) == ((n - 1) / 4) as real + 0.25 * ((n - 1) % 4) as real
    ensures Position(n, 0.75) == (3 * ((n - 1) / 4)) as real + 0.75 * ((n - 1) % 4) as real
  {
    assert n - 1 == 4 * ((n - 1) / 4) + (n - 1) % 4;
  }

  lemma InterpolatedAt(v: seq<real>, position: real, k: nat, part: real)
    requires v != [] && 0.0 <= position <= (|v| - 1) as real && position == k as real + part && 0.0 <= part < 1.0
    ensures k < |v| && (part > 0.0 ==> k + 1 < |v|)
    ensures QuantileAt(v, position) == if part == 0.0 then v[k] else Interpolate(v[k], v[k + 1], part)
  {
    hide Interpolate;
    assert position.Floor == k;
  }

  lemma LowerByRank(v: seq<real>)
    requires v != []
    ensures Quantile(v, 0.25) == LowerQuartile(v)
  {
    hide QuantileAt, Position, Interpolate;
    var k, r := (|v| - 1) / 4, (|v| - 1) % 4;
    QuantileIndex(|v|, 0.25);
    QuarterPosition(|v|);
    InterpolatedAt(v, Position(|v|, 0.25), k, 0.25 * r as real);
    if r > 0 {
      QuartersUp(v[k], v[k + 1], r);
    }
  }

  lemma QuartersUp(a: real, b: real, r: int)
    requires 1 <= r <= 3
    ensures Interpolate(a, b, 0.25 * r as real) == ((4 - r) as real * a + r as real * b) / 4.0
    ensures Interpolate(a, b, 1.0 - 0.25 * r as real) == ((4 - r) as real * b + r as real * a) / 4.0
  {
    if r == 1 {
    } else if r == 2 {
    } else {
    }
  }

  lemma MiddleByRank(v: seq<real>)
    requires v != []
    ensures Quantile(v, 0.5) == Middle(v)
  {
    hide QuantileAt, Position;
    QuantileIndex(|v|, 0.5);
    HalfPosition(|v|);
    if |v| % 2 == 1 {
      InterpolatedAt(v, Position(|v|, 0.5), |v| / 2, 0.0);
    } else {
      InterpolatedAt(v, Position(|v|, 0.5), |v| / 2 - 1, 0.5);
      HalfWay(v[|v| / 2 - 1], v[|v| / 2]);
    }
  }

  lemma HalfPosition(n: nat)
    requires n > 0
    ensures Position(n, 0.5) == if n % 2 == 1 then (n / 2) as real else (n / 2 - 1) as real + 0.5
  {
    assert n == 2 * (n / 2) + n % 2;
  }

  lemma HalfWay(a: real, b: real)
    ensures Interpolate(a, b, 0.5) == (a + b) / 2.0
  {
  }

  lemma UpperByRank(v: seq<real>)
    requires v != []
    ensures Quantile(v, 0.75) == UpperQuartile(v)
  {
    hide QuantileAt, Position, Interpolate;
    var n, k, r := |v|, (|v| - 1) / 4, (|v| - 1) % 4;
    QuantileIndex(n, 0.75);
    QuarterPosition(n);
    FromTheTop(n);
    if r == 0 {
      InterpolatedAt(v, Position(n, 0.75), n - 1 - k, 0.0);
    } else {
      InterpolatedAt(v, Position(n, 0.75), n - 2 - k, 1.0 - 0.25 * r as real);
      QuartersUp(v[n - 2 - k], v[n - 1 - k], r);
    }
  }

  lemma FromTheTop(n: nat)
    requires n > 0
    ensures var k, r := (n - 1) / 4, (n - 1) % 4;
            (3 * k) as real + 0.75 * r as real == if r == 0 then (n - 1 - k) as real else (n - 2 - k) as real + (1.0 - 0.25 * r as real)
  {
    assert n - 1 == 4 * ((n - 1) / 4) + (n - 1) % 4;
  }

  // ---- the fences ----

  /** Tukey's fences when the quartiles are apart, else the median and three scaled median deviations, else the median itself. */
  function Fences(v: seq<real>): (real, real)
    requires v != []
  {
    var low, high, middle := LowerQuartile(v), UpperQuartile(v), Middle(v);
    var spread, deviation := high - low, Middle(SortBy(Distances(v, middle), RealLeq));
    if spread > 0.000000000001 then (low - 1.5 * spread, high + 1.5 * spread)
    else if deviation == 0.0 then (middle, middle)
    else (middle - 4.4478 * deviation, middle + 4.4478 * deviation)
  }

  lemma DeviationByRank(v: seq<real>)
    requires v != []
    ensures Mad(v) == Middle(SortBy(Distances(v, Middle(v)), RealLeq))
  {
    hide Quantile, Middle, SortBy;
    MiddleByRank(v);
    assert Deviations(v, Middle(v)) == Distances(v, Middle(v));
    MiddleByRank(SortBy(Distances(v, Middle(v)), RealLeq));
  }

  /** The bounds of the engine are the fences of the sorted peers. */
  lemma BoundsAreFences(v: seq<real>)
    requires v != []
    ensures (BoundsOf(v).lower, BoundsOf(v).upper) == Fences(v)
    ensures BoundsOf(v).adjustment == InterquartileRange <==> UpperQuartile(v) - LowerQuartile(v) > 0.000000000001
  {
    hide Quantile, Mad, Middle, LowerQuartile, UpperQuartile, SortBy;
    LowerByRank(v);
    UpperByRank(v);
    MiddleByRank(v);
    DeviationByRank(v);
  }

  /** A raw value is kept exactly when it lies within the fences, and is otherwise moved to the fence it passed. */
  lemma AdjustedMeaning(raw: real, peers: seq<real>, direction: Direction)
    requires peers != []
    ensures var v, n := SortBy(peers, RealLeq), Normalize(raw, peers, direction);
            && (Fences(v).0 <= raw <= Fences(v).1 ==> n.adjusted == raw)
            && (raw < Fences(v).0 ==> n.adjusted == Fences(v).0)
            && (raw > Fences(v).1 ==> n.adjusted == Fences(v).1)
            && n.peerCount == |peers|
  {
    hide Fences, BoundsOf, SortBy, ScoreAt, ClampAll;
    BoundsAreFences(SortBy(peers, RealLeq));
    BoundsOrdered(SortBy(peers, RealLeq));
  }

  // ---- the score ----

  ghost function Under(v: seq<real>, x: real): set<int> {
    set i | 0 <= i < |v| && v[i] < x
  }

  ghost function At(v: seq<real>, x: real): set<int> {
    set i | 0 <= i < |v| && v[i] == x
  }

  ghost function UpTo(v: seq<real>, x: real): set<int> {
    set i | 0 <= i < |v| && v[i] <= x
  }

  ghost function From(v: seq<real>, x: real): set<int> {
    set i | 0 <= i < |v| && v[i] >= x
  }

  /** `under` values below and `level` values at the same place, as a percentage of `n`. */
  function Midrank(under: nat, level: nat, n: nat): real
    requires n > 0
  {
    100.0 * (under as real + level as real / 2.0) / n as real
  }

  lemma UnderLast(v: seq<real>, x: real)
    requires v != []
    ensures |Under(v, x)| == |Under(v[..|v| - 1], x)| + (if v[|v| - 1] < x then 1 else 0)
  {
    var n := |v| - 1;
    assert Under(v, x) == Under(v[..n], x) + (if v[n] < x then {n} else {});
  }

  lemma AtLast(v: seq<real>, x: real)
    requires v != []
    ensures |At(v, x)| == |At(v[..|v| - 1], x)| + (if v[|v| - 1] == x then 1 else 0)
  {
    var n := |v| - 1;
    assert At(v, x) == At(v[..n], x) + (if v[n] == x then {n} else {});
  }

  lemma NoneCounted(v: seq<real>, x: real)
    requires v == []
    ensures Under(v, x) == {} && At(v, x) == {}
  {
  }

  lemma {:induction false} CountsAreSets(v: seq<real>, x: real)
    ensures Below(v, x) == |Under(v, x)| && Equal(v, x) == |At(v, x)|
  {
    hide Under, At;
    if v != [] {
      CountsAreSets(v[..|v| - 1], x);
      UnderLast(v, x);
      AtLast(v, x);
    } else {
      NoneCounted(v, x);
    }
  }

  lemma PercentileIsMidrank(v: seq<real>, x: real)
    requires v != []
    ensures Percentile(v, x) == Midrank(|Under(v, x)|, |At(v, x)|, |v|)
  {
    hide Under, At;
    CountsAreSets(v, x);
  }

  /** Below the lower fence, above the upper one and in between, what the clamped sample counts in terms of the sample. */
  lemma ClampedCounts(v: seq<real>, b: Bounds, raw: real)
    requires b.lower <= b.upper
    ensures var c, x := ClampAll(v, b), Clamp(raw, b);
            && (b.lower < raw < b.upper ==> Under(c, x) == Under(v, raw) && At(c, x) == At(v, raw))
            && (raw <= b.lower < b.upper ==> Under(c, x) == {} && At(c, x) == UpTo(v, b.lower))
            && (b.lower < b.upper <= raw ==> Under(c, x) == Under(v, b.upper) && At(c, x) == From(v, b.upper))
            && (b.lower == b.upper ==> Under(c, x) == {} && |At(c, x)| == |v|)
  {
    if b.lower == b.upper {
      AllIndices(ClampAll(v, b), b.lower);
    }
  }

  lemma AllIndices(v: seq<real>, x: real)
    requires forall i | 0 <= i < |v| :: v[i] == x
    ensures |At(v, x)| == |v|
  {
    CountsAreSets(v, x);
    AllEqualCounts(v, x);
  }

  /** What the score counts, for every raw value and every sample of peers. */
  lemma ScoreMeaning(raw: real, peers: seq<real>)
    requires peers != []
    ensures var v, n, s := SortBy(peers, RealLeq), |peers|, Normalize(raw, peers, HigherIsBetter).score;
            && (Fences(v).0 < raw < Fences(v).1 ==> s == Midrank(|Under(v, raw)|, |At(v, raw)|, n))
            && (raw <= Fences(v).0 < Fences(v).1 ==> s == Midrank(0, |UpTo(v, Fences(v).0)|, n))
            && (Fences(v).0 < Fences(v).1 <= raw ==> s == Midrank(|Under(v, Fences(v).1)|, |From(v, Fences(v).1)|, n))
            && (Fences(v).0 == Fences(v).1 ==> s == Midrank(0, n, n))
            && Normalize(raw, peers, LowerIsBetter).score == 100.0 - s
  {
    hide Fences, BoundsOf, SortBy, ClampAll, Percentile, Midrank, Under, At, UpTo, From;
    var v := SortBy(peers, RealLeq);
    var b := BoundsOf(v);
    BoundsAreFences(v);
    BoundsOrdered(v);
    ClampedCounts(v, b, raw);
    PercentileIsMidrank(ClampAll(v, b), Clamp(raw, b));
    NothingIsEmpty();
  }

  lemma NothingIsEmpty()
    ensures var none: set<int> := {}; |none| == 0
  {
  }

  /** When the raw value and every peer lie within the fences the score is the plain midrank of the sample. */
  lemma PlainMidrank(raw: real, peers: seq<real>)
    requires peers != []
    requires var v := SortBy(peers, RealLeq);
             Fences(v).0 < Fences(v).1 && Fences(v).0 <= raw <= Fences(v).1
             && forall i | 0 <= i < |v| :: Fences(v).0 <= v[i] <= Fences(v).1
    ensures var v := SortBy(peers, RealLeq);
            Normalize(raw, peers, HigherIsBetter).score == Midrank(|Under(v, raw)|, |At(v, raw)|, |peers|)
  {
    hide Fences, SortBy, Normalize, Midrank;
    var v := SortBy(peers, RealLeq);
    ScoreMeaning(raw, peers);
    if raw == Fences(v).0 {
      assert UpTo(v, raw) == At(v, raw) && Under(v, raw) == {};
    } else if raw == Fences(v).1 {
      assert From(v, raw) == At(v, raw);
    }
  }
}
