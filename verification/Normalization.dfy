/** Robust peer normalisation: `_quantile` and the scoring half of `_normalize_metric` of src/openfundscore/category_metrics.py, over exact reals. */
module Normalization {
  import opened Prelude
  import opened Ordering
  import opened RealFacts

  const MINIMUM_PEERS := 5
  const MAXIMUM_PEERS := 10_000
  const IQR_ZERO_TOLERANCE := 0.000000000001

  datatype Direction = HigherIsBetter | LowerIsBetter

  datatype Adjustment = InterquartileRange | AbsoluteDeviation | ZeroDispersion

  datatype Bounds = Bounds(lower: real, upper: real, adjustment: Adjustment)

  datatype Normalized = Normalized(adjusted: real, bounds: Bounds, score: real, peerCount: nat)

  datatype Outcome = NotScored | Score(n: Normalized)

  datatype NormalizeError = UnexpectedPeers | PeersTooLarge | InsufficientPeers

  predicate RealLeq(a: real, b: real) { a <= b }

  lemma RealOrder()
    ensures TotalPreorder(RealLeq) && Antisymmetric(RealLeq)
  {
  }

  function Interpolate(a: real, b: real, fraction: real): real {
    a + fraction * (b - a)
  }

  /** `(len(values) - 1) * probability` */
  function Position(n: nat, p: real): real {
    (n - 1) as real * p
  }

  lemma QuantileIndex(n: nat, p: real)
    requires n > 0 && 0.0 <= p <= 1.0
    ensures 0.0 <= Position(n, p) <= (n - 1) as real
  {
    var m, q := (n - 1) as real, 1.0 - p;
    NonNegativeProduct(m, p);
    NonNegativeProduct(m, q);
    assert m * q == m - m * p;
  }

  /** Linear interpolation between order statistics; every index it uses is in range. */
  function Quantile(values: seq<real>, p: real): real
    requires values != [] && 0.0 <= p <= 1.0
  {
    QuantileIndex(|values|, p);
    QuantileAt(values, Position(|values|, p))
  }

  function QuantileAt(values: seq<real>, position: real): real
    requires values != [] && 0.0 <= position <= (|values| - 1) as real
  {
    var lower := position.Floor;
    var fraction := position - lower as real;
    if fraction == 0.0 then values[lower] else Interpolate(values[lower], values[lower + 1], fraction)
  }

  function Magnitude(x: real): real {
    if x < 0.0 then -x else x
  }

  function Deviations(values: seq<real>, center: real): (d: seq<real>)
    ensures |d| == |values| && forall i | 0 <= i < |values| :: d[i] == Magnitude(values[i] - center)
  {
    seq(|values|, i requires 0 <= i < |values| => Magnitude(values[i] - center))
  }

  function MedianDeviation(values: seq<real>, center: real): real
    requires values != []
  {
    Quantile(SortBy(Deviations(values, center), RealLeq), 0.5)
  }

  /** The median absolute deviation from the median. */
  function Mad(values: seq<real>): real
    requires values != []
  {
    MedianDeviation(values, Quantile(values, 0.5))
  }

  function BoundsFrom(first: real, third: real, median: real, mad: real): Bounds {
    var spread := third - first;
    if spread > IQR_ZERO_TOLERANCE then Bounds(first - 1.5 * spread, third + 1.5 * spread, InterquartileRange)
    else if mad == 0.0 then Bounds(median, median, ZeroDispersion)
    else Bounds(median - 3.0 * (1.4826 * mad), median + 3.0 * (1.4826 * mad), AbsoluteDeviation)
  }

  /** Winsorising bounds of sorted peer values. */
  function BoundsOf(values: seq<real>): Bounds
    requires values != []
  {
    BoundsFrom(Quantile(values, 0.25), Quantile(values, 0.75), Quantile(values, 0.5), Mad(values))
  }

  /** `min(max(x, lower), upper)` */
  function Clamp(x: real, b: Bounds): real {
    var raised := if x < b.lower then b.lower else x;
    if raised > b.upper then b.upper else raised
  }

  function ClampAll(values: seq<real>, b: Bounds): (r: seq<real>)
    ensures |r| == |values| && forall i | 0 <= i < |values| :: r[i] == Clamp(values[i], b)
  {
    seq(|values|, i requires 0 <= i < |values| => Clamp(values[i], b))
  }

  function Below(vs: seq<real>, v: real): nat {
    if vs == [] then 0 else Below(vs[..|vs| - 1], v) + (if vs[|vs| - 1] < v then 1 else 0)
  }

  function Equal(vs: seq<real>, v: real): nat {
    if vs == [] then 0 else Equal(vs[..|vs| - 1], v) + (if vs[|vs| - 1] == v then 1 else 0)
  }

  function PercentOf(part: real, whole: real): real
    requires whole > 0.0
  {
    100.0 * part / whole
  }

  /** Below plus half the ties, as a percentage of the sample. */
  function Percentile(vs: seq<real>, v: real): real
    requires vs != []
  {
    PercentOf(Below(vs, v) as real + 0.5 * Equal(vs, v) as real, |vs| as real)
  }

  function Directed(percentile: real, direction: Direction): real {
    if direction == HigherIsBetter then percentile else 100.0 - percentile
  }

  function ScoreAt(clamped: seq<real>, adjusted: real, direction: Direction): real
    requires clamped != []
  {
    Directed(Percentile(clamped, adjusted), direction)
  }

  function NormalizeSorted(raw: real, values: seq<real>, direction: Direction): Normalized
    requires values != []
  {
    var bounds := BoundsOf(values);
    var adjusted := Clamp(raw, bounds);
    Normalized(adjusted, bounds, ScoreAt(ClampAll(values, bounds), adjusted, direction), |values|)
  }

  function Normalize(raw: real, peers: seq<real>, direction: Direction): Normalized
    requires peers != []
  {
    NormalizeSorted(raw, SortBy(peers, RealLeq), direction)
  }

  /** The scoring path of `_normalize_metric`; `raw` is `None` for a metric that is missing or not applicable. */
  method NormalizeMetric(raw: Option<real>, peers: seq<real>, direction: Direction) returns (r: Result<Outcome, NormalizeError>)
    ensures |peers| > 10_000 <==> r == Err(PeersTooLarge)
    ensures |peers| <= 10_000 && raw.None? ==> r == if peers == [] then Ok(NotScored) else Err(UnexpectedPeers)
    ensures |peers| <= 10_000 && raw.Some? ==>
              r == if |peers| < 5 then Err(InsufficientPeers) else Ok(Score(Normalize(raw.value, peers, direction)))
  {
    if |peers| > MAXIMUM_PEERS {
      return Err(PeersTooLarge);
    }
    if raw.None? {
      if peers != [] {
        return Err(UnexpectedPeers);
      }
      return Ok(NotScored);
    }
    if |peers| < MINIMUM_PEERS {
      return Err(InsufficientPeers);
    }
    var n := ScoreAgainst(raw.value, SortBy(peers, RealLeq), direction);
    return Ok(Score(n));
  }

  method ScoreAgainst(raw: real, values: seq<real>, direction: Direction) returns (n: Normalized)
    requires values != []
    ensures n == NormalizeSorted(raw, values, direction)
  {
    hide BoundsOf, PercentOf;
    var bounds := FindBounds(values);
    var adjusted := Clamp(raw, bounds);
    var adjustedPeers := ClampAll(values, bounds);
    var below, equal := CountAround(adjustedPeers, adjusted);
    var percentile := PercentOf(below as real + 0.5 * equal as real, |adjustedPeers| as real);
    return Normalized(adjusted, bounds, Directed(percentile, direction), |values|);
  }

  method FindBounds(values: seq<real>) returns (b: Bounds)
    requires values != []
    ensures b == BoundsOf(values)
  {
    hide Quantile, SortBy;
    var first, third := Quantile(values, 0.25), Quantile(values, 0.75);
    var spread := third - first;
    if spread > IQR_ZERO_TOLERANCE {
      var scale := 1.5 * spread;
      return Bounds(first - scale, third + scale, InterquartileRange);
    }
    var median := Quantile(values, 0.5);
    var deviations: seq<real> := [];
    for i := 0 to |values|
      invariant |deviations| == i && forall j | 0 <= j < i :: deviations[j] == Magnitude(values[j] - median)
    {
      deviations := deviations + [Magnitude(values[i] - median)];
    }
    assert deviations == Deviations(values, median);
    var mad := Quantile(SortBy(deviations, RealLeq), 0.5);
    if mad == 0.0 {
      return Bounds(median, median, ZeroDispersion);
    }
    var sigma := 1.4826 * mad;
    return Bounds(median - 3.0 * sigma, median + 3.0 * sigma, AbsoluteDeviation);
  }

  method CountAround(vs: seq<real>, v: real) returns (below: nat, equal: nat)
    ensures below == Below(vs, v) && equal == Equal(vs, v)
  {
    below, equal := 0, 0;
    for i := 0 to |vs|
      invariant below == Below(vs[..i], v) && equal == Equal(vs[..i], v)
    {
      assert vs[..i + 1][..i] == vs[..i];
      if vs[i] < v { below := below + 1; }
      if vs[i] == v { equal := equal + 1; }
    }
    assert vs[..|vs|] == vs;
  }
}
