/** `_wealth_metrics` of src/openfundscore/walk_forward.py: one-pass drawdown and recovery. */
module WealthCurve {
  import opened Prelude
  import opened RealFacts

  datatype Recovery = NotApplicable | Recovered(periods: nat) | Unrecovered

  datatype Wealth = Wealth(curve: seq<real>, maxDrawdown: real, recovery: Recovery)

  function Grow(wealth: real, gain: real): real {
    wealth * (1.0 + gain)
  }

  /** Wealth starts at 1 and compounds each period. */
  function Curve(gains: seq<real>): (c: seq<real>)
    ensures |c| == |gains| + 1 && c[0] == 1.0
  {
    if gains == [] then [1.0]
    else
      var before := Curve(gains[..|gains| - 1]);
      before + [Grow(before[|before| - 1], gains[|gains| - 1])]
  }

  lemma {:induction false} CurvePrefix(gains: seq<real>, n: nat)
    requires n <= |gains|
    ensures Curve(gains)[..n + 1] == Curve(gains[..n])
    decreases |gains|
  {
    if n < |gains| {
      var k := |gains| - 1;
      CurvePrefix(gains[..k], n);
      assert gains[..k][..n] == gains[..n];
      assert Curve(gains)[..n + 1] == Curve(gains[..k])[..n + 1];
    } else {
      assert gains[..n] == gains;
    }
  }

  /** The highest wealth up to and including period `j`. */
  function Peak(curve: seq<real>, j: nat): real
    requires j < |curve|
  {
    if j == 0 then curve[0]
    else if curve[j] > Peak(curve, j - 1) then curve[j]
    else Peak(curve, j - 1)
  }

  lemma {:induction false} PeakBounds(curve: seq<real>, j: nat, i: nat)
    requires i <= j < |curve|
    ensures curve[i] <= Peak(curve, j)
  {
    if i < j {
      PeakBounds(curve, j - 1, i);
    }
  }

  lemma {:induction false} PeakReached(curve: seq<real>, j: nat) returns (i: nat)
    requires j < |curve|
    ensures i <= j && curve[i] == Peak(curve, j)
  {
    if curve[j] == Peak(curve, j) {
      i := j;
    } else {
      i := PeakReached(curve, j - 1);
    }
  }

  lemma PeakAtLeastOne(curve: seq<real>, j: nat)
    requires j < |curve| && curve[0] == 1.0
    ensures Peak(curve, j) >= 1.0
  {
    PeakBounds(curve, j, 0);
  }

  function Fall(wealth: real, peak: real): real
    requires peak > 0.0
  {
    wealth / peak - 1.0
  }

  function DrawdownAt(curve: seq<real>, j: nat): real
    requires j < |curve| && curve[0] == 1.0
  {
    PeakAtLeastOne(curve, j);
    Fall(curve[j], Peak(curve, j))
  }

  /** `t` is the first period at which the deepest drawdown `d` is reached. */
  ghost predicate FirstTrough(curve: seq<real>, t: nat, d: real)
    requires |curve| > 0 && curve[0] == 1.0
  {
    && t < |curve| && DrawdownAt(curve, t) == d
    && (forall j | 0 <= j < t :: DrawdownAt(curve, j) > d)
    && (forall j | t <= j < |curve| :: DrawdownAt(curve, j) >= d)
  }

  /** What the recovery field says of a trough at `t`: the first later period that regains the peak before it. */
  ghost predicate RecoveryIs(curve: seq<real>, t: nat, r: Recovery)
    requires t < |curve|
  {
    match r
    case NotApplicable => false
    case Recovered(periods) =>
      && periods > 0 && t + periods < |curve| && curve[t + periods] >= Peak(curve, t)
      && forall k | t < k < t + periods :: curve[k] < Peak(curve, t)
    case Unrecovered => forall k | t < k < |curve| :: curve[k] < Peak(curve, t)
  }

  method WealthMetrics(gains: seq<real>) returns (w: Wealth, ghost trough: nat)
    ensures w.curve == Curve(gains)
    ensures FirstTrough(w.curve, trough, w.maxDrawdown)
    ensures w.maxDrawdown <= 0.0
    ensures w.recovery.NotApplicable? <==> w.maxDrawdown == 0.0
    ensures w.maxDrawdown < 0.0 ==> RecoveryIs(w.curve, trough, w.recovery)
    ensures |w.curve| == |gains| + 1 && w.curve[0] == 1.0
    ensures forall i | 0 <= i < |gains| :: w.curve[i + 1] - w.curve[i] == gains[i] * w.curve[i]
  {
    hide Curve, DrawdownAt, RecoveryIs, Peak;
    EachReturnIsEarned(gains);
    var curve := BuildCurve(gains);
    var maxDrawdown, troughIndex, peakIndex := DeepestDrawdown(curve);
    trough := troughIndex;
    if maxDrawdown == 0.0 {
      return Wealth(curve, maxDrawdown, NotApplicable), trough;
    }
    var recovery := FindRecovery(curve, troughIndex, curve[peakIndex]);
    return Wealth(curve, maxDrawdown, recovery), trough;
  }

  method BuildCurve(gains: seq<real>) returns (curve: seq<real>)
    ensures curve == Curve(gains)
  {
    hide Grow;
    curve := [1.0];
    for i := 0 to |gains|
      invariant curve == Curve(gains[..i])
    {
      assert gains[..i + 1][..i] == gains[..i];
      curve := curve + [Grow(curve[|curve| - 1], gains[i])];
    }
    assert gains[..|gains|] == gains;
  }

  /** The single pass with its five running variables. */
  method DeepestDrawdown(curve: seq<real>) returns (maxDrawdown: real, trough: nat, peakIndex: nat)
    requires |curve| > 0 && curve[0] == 1.0
    ensures FirstTrough(curve, trough, maxDrawdown) && maxDrawdown <= 0.0
    ensures peakIndex < |curve| && curve[peakIndex] == Peak(curve, trough)
  {
    StartIsNoDrawdown(curve);
    hide Fall;
    var peak, lastPeak := curve[0], 0;
    maxDrawdown, trough, peakIndex := 0.0, 0, 0;
    for j := 0 to |curve|
      invariant lastPeak < |curve| && curve[lastPeak] == peak
      invariant peak == if j == 0 then 1.0 else Peak(curve, j - 1)
      invariant trough < |curve| && trough <= j && maxDrawdown <= 0.0
      invariant peakIndex < |curve| && DrawdownAt(curve, trough) == maxDrawdown && curve[peakIndex] == Peak(curve, trough)
      invariant forall i | 0 <= i < j :: DrawdownAt(curve, i) >= maxDrawdown
      invariant forall i | 0 <= i < trough :: DrawdownAt(curve, i) > maxDrawdown
    {
      PeakAtLeastOne(curve, j);
      if curve[j] > peak {
        peak, lastPeak := curve[j], j;
      }
      var drawdown := Fall(curve[j], peak);
      if drawdown < maxDrawdown {
        maxDrawdown, trough, peakIndex := drawdown, j, lastPeak;
      }
    }
  }

  lemma StartIsNoDrawdown(curve: seq<real>)
    requires |curve| > 0 && curve[0] == 1.0
    ensures DrawdownAt(curve, 0) == 0.0 && Peak(curve, 0) == 1.0
  {
  }

  method FindRecovery(curve: seq<real>, trough: nat, priorPeak: real) returns (r: Recovery)
    requires trough < |curve| && priorPeak == Peak(curve, trough)
    ensures RecoveryIs(curve, trough, r)
  {
    for k := trough + 1 to |curve|
      invariant forall i | trough < i < k :: curve[i] < priorPeak
    {
      if curve[k] >= priorPeak {
        return Recovered(k - trough);
      }
    }
    return Unrecovered;
  }

  // ---- simple returns of at least -1, which outcome validation guarantees ----

  predicate SimpleReturns(gains: seq<real>) {
    forall i | 0 <= i < |gains| :: -1.0 <= gains[i] <= 1.0
  }

  lemma {:induction false} CurveNonNegative(gains: seq<real>)
    requires SimpleReturns(gains)
    ensures forall i | 0 <= i <= |gains| :: Curve(gains)[i] >= 0.0
  {
    if gains != [] {
      CurveNonNegative(gains[..|gains| - 1]);
    }
  }

  /** The change from period `i` to period `j`. */
  function Change(curve: seq<real>, i: nat, j: nat): real
    requires i < |curve| && j < |curve| && curve[i] > 0.0
  {
    curve[j] / curve[i] - 1.0
  }

  /** The one-pass drawdown is the worst change over every earlier-to-later pair of periods. */
  lemma DrawdownIsWorstChange(gains: seq<real>, t: nat, d: real)
    requires SimpleReturns(gains) && FirstTrough(Curve(gains), t, d)
    ensures -1.0 <= d <= 0.0
    ensures forall i, j | 0 <= i <= j < |Curve(gains)| && Curve(gains)[i] > 0.0 :: d <= Change(Curve(gains), i, j)
    ensures exists i, j :: 0 <= i <= j < |Curve(gains)| && Curve(gains)[i] > 0.0 && d == Change(Curve(gains), i, j)
  {
    var curve := Curve(gains);
    CurveNonNegative(gains);
    forall i, j | 0 <= i <= j < |curve| && curve[i] > 0.0 ensures d <= Change(curve, i, j) {
      PeakBounds(curve, j, i);
      Ratios(curve[j], curve[i], Peak(curve, j));
      assert DrawdownAt(curve, j) >= d;
    }
    PeakAtLeastOne(curve, t);
    var i := PeakReached(curve, t);
    assert d == Change(curve, i, t);
    Ratios(curve[t], Peak(curve, t), Peak(curve, t));
    assert DrawdownAt(curve, 0) == 0.0;
    assert d <= DrawdownAt(curve, 0);
  }

  /** There is no drawdown exactly when wealth never falls. */
  lemma NoDrawdownIffNonDecreasing(gains: seq<real>, t: nat, d: real)
    requires SimpleReturns(gains) && FirstTrough(Curve(gains), t, d)
    ensures d == 0.0 <==> NonDecreasing(Curve(gains))
  {
    hide Curve, DrawdownAt, Fall, NonDecreasing, SimpleReturns;
    var curve := Curve(gains);
    if d == 0.0 {
      NoDrawdownNeverFalls(curve);
    }
    if NonDecreasing(curve) {
      NeverFallsNoDrawdown(curve, t);
    }
  }

  predicate NonDecreasing(curve: seq<real>) {
    forall i | 0 < i < |curve| :: curve[i - 1] <= curve[i]
  }

  lemma NoDrawdownNeverFalls(curve: seq<real>)
    requires curve != [] && curve[0] == 1.0 && forall j | 0 <= j < |curve| :: DrawdownAt(curve, j) >= 0.0
    ensures NonDecreasing(curve)
  {
    hide DrawdownAt;
    forall j | 0 < j < |curve| ensures curve[j - 1] <= curve[j] {
      AtItsPeak(curve, j);
    }
  }

  lemma AtItsPeak(curve: seq<real>, j: nat)
    requires curve != [] && curve[0] == 1.0 && 0 < j < |curve| && DrawdownAt(curve, j) >= 0.0
    ensures curve[j - 1] <= curve[j]
  {
    hide Peak;
    PeakAtLeastOne(curve, j);
    PeakBounds(curve, j, j - 1);
    RatioAtLeastOne(curve[j], Peak(curve, j));
  }

  lemma NeverFallsNoDrawdown(curve: seq<real>, t: nat)
    requires curve != [] && curve[0] == 1.0 && t < |curve| && NonDecreasing(curve)
    ensures DrawdownAt(curve, t) == 0.0
  {
    hide Peak, NonDecreasing;
    PeakOfNonDecreasing(curve, t);
    WholeRatio(curve[t], Peak(curve, t));
  }

  lemma {:induction false} PeakOfNonDecreasing(curve: seq<real>, j: nat)
    requires j < |curve| && curve[0] == 1.0 && NonDecreasing(curve)
    ensures Peak(curve, j) == curve[j] >= 1.0
  {
    if j > 0 {
      PeakOfNonDecreasing(curve, j - 1);
    }
  }

  // ---- a longer series ----

  lemma {:induction false} PeakPrefix(curve: seq<real>, m: nat, j: nat)
    requires j < m <= |curve|
    ensures Peak(curve[..m], j) == Peak(curve, j)
  {
    if j > 0 {
      PeakPrefix(curve, m, j - 1);
    }
  }

  lemma DrawdownPrefix(curve: seq<real>, m: nat, j: nat)
    requires j < m <= |curve| && curve[0] == 1.0
    ensures DrawdownAt(curve[..m], j) == DrawdownAt(curve, j)
  {
    hide Peak, Fall;
    PeakPrefix(curve, m, j);
  }

  lemma TroughsCompare(curve: seq<real>, m: nat, t: nat, d: real, u: nat, e: real)
    requires 0 < m <= |curve| && curve[0] == 1.0 && FirstTrough(curve[..m], t, d) && FirstTrough(curve, u, e)
    ensures e <= d && (e == d ==> u == t)
  {
    hide DrawdownAt;
    DrawdownPrefix(curve, m, t);
    if u < m {
      DrawdownPrefix(curve, m, u);
    }
  }

  /** Later returns can only deepen the drawdown; while they do not, its trough stays where it was. */
  lemma DrawdownOnlyDeepens(gains: seq<real>, n: nat, t: nat, d: real, u: nat, e: real)
    requires n <= |gains| && FirstTrough(Curve(gains[..n]), t, d) && FirstTrough(Curve(gains), u, e)
    ensures e <= d && (e == d ==> u == t)
  {
    hide Curve, FirstTrough;
    CurvePrefix(gains, n);
    TroughsCompare(Curve(gains), n + 1, t, d, u, e);
  }

  // ---- a stretch of a longer series ----

  lemma CurveStep(gains: seq<real>, k: nat)
    requires k < |gains|
    ensures Curve(gains)[k + 1] == Grow(Curve(gains)[k], gains[k])
  {
    hide Grow;
    CurvePrefix(gains, k + 1);
    CurvePrefix(gains, k);
    assert gains[..k + 1][..k] == gains[..k];
    assert Curve(gains)[k + 1] == Curve(gains)[..k + 2][k + 1];
    assert Curve(gains)[k] == Curve(gains)[..k + 1][k];
  }

  function Scaled(start: real, wealth: real): real {
    start * wealth
  }

  lemma GrowScaled(start: real, wealth: real, gain: real)
    ensures Grow(Scaled(start, wealth), gain) == Scaled(start, Grow(wealth, gain))
  {
    Regroup(start, wealth, 1.0 + gain);
  }

  /** Inside a longer series a stretch compounds as it would on its own, scaled by the wealth it starts from. */
  lemma {:induction false} CurveOfStretch(gains: seq<real>, from: nat, to: nat, j: nat)
    requires from <= to <= |gains| && j <= to - from
    ensures Curve(gains)[from + j] == Scaled(Curve(gains)[from], Curve(gains[from..to])[j])
  {
    hide Curve, Grow;
    if j > 0 {
      hide Scaled;
      CurveOfStretch(gains, from, to, j - 1);
      CurveStep(gains, from + j - 1);
      CurveStep(gains[from..to], j - 1);
      GrowScaled(Curve(gains)[from], Curve(gains[from..to])[j - 1], gains[from + j - 1]);
    }
  }

  lemma ChangeInStretch(gains: seq<real>, from: nat, to: nat, i: nat, j: nat)
    requires from <= to <= |gains| && i <= to - from && j <= to - from
    requires Curve(gains)[from] > 0.0 && Curve(gains[from..to])[i] > 0.0
    ensures Curve(gains)[from + i] > 0.0
    ensures Change(Curve(gains), from + i, from + j) == Change(Curve(gains[from..to]), i, j)
  {
    hide Curve, Change, Scaled;
    CurveOfStretch(gains, from, to, i);
    CurveOfStretch(gains, from, to, j);
    ScaledChange(Curve(gains), from + i, from + j, Curve(gains[from..to]), i, j, Curve(gains)[from]);
  }

  lemma ScaledChange(whole: seq<real>, i: nat, j: nat, part: seq<real>, k: nat, l: nat, start: real)
    requires i < |whole| && j < |whole| && k < |part| && l < |part| && start > 0.0 && part[k] > 0.0
    requires whole[i] == Scaled(start, part[k]) && whole[j] == Scaled(start, part[l])
    ensures whole[i] > 0.0 && Change(whole, i, j) == Change(part, k, l)
  {
    CommonFactor(start, part[l], part[k]);
  }

  /** A series falls from its peak at least as deeply as any stretch of it does on its own. */
  lemma StretchFallsLess(gains: seq<real>, from: nat, to: nat, t: nat, d: real, u: nat, e: real)
    requires SimpleReturns(gains) && from <= to <= |gains|
    requires FirstTrough(Curve(gains[from..to]), t, d) && FirstTrough(Curve(gains), u, e)
    ensures e <= d
  {
    hide Curve, FirstTrough, Change;
    var part := gains[from..to];
    assert SimpleReturns(part);
    DrawdownIsWorstChange(gains, u, e);
    DrawdownIsWorstChange(part, t, d);
    CurveNonNegative(gains);
    if Curve(gains)[from] > 0.0 {
      var i, j :| 0 <= i <= j < |Curve(part)| && Curve(part)[i] > 0.0 && d == Change(Curve(part), i, j);
      ChangeInStretch(gains, from, to, i, j);
    } else {
      ToNothing(Curve(gains), from);
      assert e <= Change(Curve(gains), 0, from);
    }
  }

  lemma ToNothing(curve: seq<real>, k: nat)
    requires k < |curve| && curve[0] == 1.0 && curve[k] == 0.0
    ensures Change(curve, 0, k) == -1.0
  {
  }

  // ---- what the curve and its figures mean, without the functions that compute them ----

  lemma GrowEarns(wealth: real, gain: real)
    ensures Grow(wealth, gain) - wealth == gain * wealth
  {
  }

  /** Each period earns its return on the wealth it starts from. */
  lemma EachReturnIsEarned(gains: seq<real>)
    ensures forall i | 0 <= i < |gains| :: Curve(gains)[i + 1] - Curve(gains)[i] == gains[i] * Curve(gains)[i]
  {
    hide Curve, Grow;
    forall i | 0 <= i < |gains| ensures Curve(gains)[i + 1] - Curve(gains)[i] == gains[i] * Curve(gains)[i] {
      CurveStep(gains, i);
      GrowEarns(Curve(gains)[i], gains[i]);
    }
  }

  /** A drawdown is the fall from the highest wealth so far. */
  lemma DrawdownMeaning(curve: seq<real>, j: nat) returns (top: nat)
    requires j < |curve| && curve[0] == 1.0
    ensures top <= j && curve[top] > 0.0 && (forall i | 0 <= i <= j :: curve[i] <= curve[top])
    ensures DrawdownAt(curve, j) == curve[j] / curve[top] - 1.0
  {
    hide Peak;
    top := PeakReached(curve, j);
    PeakAtLeastOne(curve, j);
    forall i | 0 <= i <= j ensures curve[i] <= curve[top] {
      PeakBounds(curve, j, i);
    }
  }

  /** Recovery is the first later period at least as high as everything up to the trough. */
  lemma RecoveryMeaning(curve: seq<real>, t: nat, r: Recovery)
    requires t < |curve| && RecoveryIs(curve, t, r)
    ensures r.Recovered? ==>
              && 0 < r.periods < |curve| - t && (forall i | 0 <= i <= t :: curve[i] <= curve[t + r.periods])
              && forall k | t < k < t + r.periods :: exists i | 0 <= i <= t :: curve[k] < curve[i]
    ensures !r.Recovered? ==> forall k | t < k < |curve| :: exists i | 0 <= i <= t :: curve[k] < curve[i]
  {
    hide Peak;
    var top := PeakReached(curve, t);
    forall i | 0 <= i <= t ensures curve[i] <= Peak(curve, t) {
      PeakBounds(curve, t, i);
    }
  }
}
