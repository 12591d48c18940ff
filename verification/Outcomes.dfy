/** `_evaluate_outcomes` of src/openfundscore/walk_forward.py: joining future outcomes to a frozen selection. */
module Outcomes {
  import opened Prelude
  import opened Ordering
  import opened Ranking
  import opened RealFacts
  import opened WealthCurve
  import opened WalkForward
  import S = Stability

  datatype OutcomeStatus = InsufficientOutcomes | Evaluated | Partial

  /** The source's interval is `mean` plus and minus 1.96 times the square root of `squaredError`. */
  datatype Uncertainty = InsufficientSample(sampleSize: nat) | NormalInterval(sampleSize: nat, mean: real, squaredError: real)

  datatype Evaluation = Evaluation(status: OutcomeStatus, meanRelative: Option<real>, uncertainty: Uncertainty,
                                   relative: seq<real>, portfolio: seq<real>, wealth: Wealth)

  predicate Matches(o: FutureOutcome, fold: Fold, sid: Id) {
    o.strategy == sid && o.windowStart == fold.outcomeStart && o.windowEnd == fold.outcomeEnd
  }

  function FirstMatch(outcomes: seq<FutureOutcome>, fold: Fold, sid: Id): (r: Option<FutureOutcome>)
    ensures r.Some? ==> r.value in outcomes && Matches(r.value, fold, sid)
    ensures r.None? ==> forall o | o in outcomes :: !Matches(o, fold, sid)
  {
    if outcomes == [] then None
    else if Matches(outcomes[0], fold, sid) then Some(outcomes[0])
    else FirstMatch(outcomes[1..], fold, sid)
  }

  function Usable(outcomes: seq<FutureOutcome>, fold: Fold, selected: seq<Id>): seq<FutureOutcome> {
    if selected == [] then []
    else
      var n := |selected| - 1;
      var m := FirstMatch(outcomes, fold, selected[n]);
      Usable(outcomes, fold, selected[..n]) + (if m.Some? then [m.value] else [])
  }

  function ShortestSeries(usable: seq<FutureOutcome>): (n: nat)
    requires usable != []
    ensures forall o | o in usable :: n <= |o.periodReturns|
    ensures exists o :: o in usable && n == |o.periodReturns|
  {
    var k := |usable| - 1;
    LastApart(usable);
    if k == 0 then |usable[0].periodReturns|
    else
      var before := ShortestSeries(usable[..k]);
      if |usable[k].periodReturns| < before then |usable[k].periodReturns| else before
  }

  function AtPeriod(usable: seq<FutureOutcome>, t: nat): (xs: seq<real>)
    requires forall o | o in usable :: t < |o.periodReturns|
    ensures |xs| == |usable| && forall i | 0 <= i < |usable| :: xs[i] == usable[i].periodReturns[t]
  {
    seq(|usable|, i requires 0 <= i < |usable| => usable[i].periodReturns[t])
  }

  function Mean(xs: seq<real>): real
    requires xs != []
  {
    Sum(xs) / |xs| as real
  }

  function Portfolio(usable: seq<FutureOutcome>): (p: seq<real>)
    requires usable != []
    ensures |p| == ShortestSeries(usable)
    ensures forall t | 0 <= t < |p| :: p[t] == Mean(AtPeriod(usable, t))
  {
    seq(ShortestSeries(usable), t requires 0 <= t < ShortestSeries(usable) => Mean(AtPeriod(usable, t)))
  }

  /** Total return of a series: its final wealth less the starting 1. */
  function TotalReturn(gains: seq<real>): real {
    Curve(gains)[|gains|] - 1.0
  }

  /** `_compound` multiplies the growth factors without building the curve. */
  method Compound(gains: seq<real>) returns (total: real)
    ensures total == TotalReturn(gains)
  {
    hide Grow;
    var wealth := 1.0;
    for i := 0 to |gains|
      invariant wealth == Curve(gains[..i])[i]
    {
      assert gains[..i + 1][..i] == gains[..i];
      wealth := Grow(wealth, gains[i]);
    }
    assert gains[..|gains|] == gains;
    return wealth - 1.0;
  }

  function RelativeReturns(usable: seq<FutureOutcome>): (r: seq<real>)
    ensures |r| == |usable|
    ensures forall i | 0 <= i < |usable| :: r[i] == TotalReturn(usable[i].periodReturns) - TotalReturn(usable[i].peerReturns)
  {
    seq(|usable|, i requires 0 <= i < |usable| => TotalReturn(usable[i].periodReturns) - TotalReturn(usable[i].peerReturns))
  }

  /** The sample variance of the mean: squared deviations over n - 1, over n. */
  function SquaredError(values: seq<real>): real
    requires |values| >= 2
  {
    var d := S.Deviations(values);
    S.Dot(d, d) / (|values| - 1) as real / |values| as real
  }

  /** `_uncertainty`, short of its square root. */
  function UncertaintyOf(values: seq<real>): Uncertainty {
    if |values| < 2 then InsufficientSample(|values|) else NormalInterval(|values|, Mean(values), SquaredError(values))
  }

  function MeanOf(values: seq<real>): Option<real> {
    if values == [] then None else Some(Mean(values))
  }

  function StatusOf(selected: nat, usable: nat): OutcomeStatus {
    if usable == 0 then InsufficientOutcomes else if usable == selected then Evaluated else Partial
  }

  ghost predicate EvaluationOf(e: Evaluation, trough: nat, fold: Fold, selected: seq<Id>, outcomes: seq<FutureOutcome>) {
    var usable := Usable(outcomes, fold, selected);
    && e.status == StatusOf(|selected|, |usable|)
    && e.relative == RelativeReturns(usable)
    && e.meanRelative == MeanOf(e.relative) && e.uncertainty == UncertaintyOf(e.relative)
    && e.portfolio == (if usable == [] then [] else Portfolio(usable))
    && WealthOf(e.wealth, trough, e.portfolio)
  }

  ghost predicate WealthOf(w: Wealth, trough: nat, gains: seq<real>) {
    && w.curve == Curve(gains)
    && FirstTrough(w.curve, trough, w.maxDrawdown)
    && (w.recovery.NotApplicable? <==> w.maxDrawdown == 0.0)
    && (w.maxDrawdown < 0.0 ==> RecoveryIs(w.curve, trough, w.recovery))
  }

  /** The evaluation of a selection, for some period as its trough. */
  ghost predicate Evaluates(e: Evaluation, fold: Fold, selected: seq<Id>, outcomes: seq<FutureOutcome>) {
    exists trough: nat :: EvaluationOf(e, trough, fold, selected, outcomes)
  }

  method EvaluateOutcomes(fold: Fold, selected: seq<Id>, outcomes: seq<FutureOutcome>) returns (e: Evaluation)
    ensures Evaluates(e, fold, selected, outcomes)
  {
    var usable: seq<FutureOutcome> := [];
    for i := 0 to |selected|
      invariant usable == Usable(outcomes, fold, selected[..i])
    {
      assert selected[..i + 1][..i] == selected[..i];
      var m := FirstMatch(outcomes, fold, selected[i]);
      if m.Some? {
        usable := usable + [m.value];
      }
    }
    assert selected[..|selected|] == selected;
    var relative := [];
    for i := 0 to |usable|
      invariant |relative| == i
      invariant forall j | 0 <= j < i :: relative[j] == TotalReturn(usable[j].periodReturns) - TotalReturn(usable[j].peerReturns)
    {
      var own := Compound(usable[i].periodReturns);
      var peer := Compound(usable[i].peerReturns);
      relative := relative + [own - peer];
    }
    assert relative == RelativeReturns(usable);
    var portfolio := if usable == [] then [] else Portfolio(usable);
    var wealth, trough := WealthMetrics(portfolio);
    e := Evaluation(StatusOf(|selected|, |usable|), MeanOf(relative), UncertaintyOf(relative), relative, portfolio, wealth);
    assert EvaluationOf(e, trough, fold, selected, outcomes);
  }

  // ---- meaning ----

  ghost predicate HasOutcome(outcomes: seq<FutureOutcome>, fold: Fold, sid: Id) {
    exists o :: o in outcomes && Matches(o, fold, sid)
  }

  /** An evaluation is complete exactly when every selected strategy has an outcome for the fold's own window. */
  lemma {:induction false} UsableCounts(outcomes: seq<FutureOutcome>, fold: Fold, selected: seq<Id>)
    ensures |Usable(outcomes, fold, selected)| <= |selected|
    ensures |Usable(outcomes, fold, selected)| == |selected|
            <==> forall sid | sid in selected :: HasOutcome(outcomes, fold, sid)
    ensures forall o | o in Usable(outcomes, fold, selected) :: o in outcomes && exists sid :: sid in selected && Matches(o, fold, sid)
  {
    if selected != [] {
      var n := |selected| - 1;
      UsableCounts(outcomes, fold, selected[..n]);
      assert selected == selected[..n] + [selected[n]];
      assert FirstMatch(outcomes, fold, selected[n]).Some? <==> HasOutcome(outcomes, fold, selected[n]);
      assert forall sid :: sid in selected <==> sid in selected[..n] || sid == selected[n];
    }
  }

  lemma LastMatch(outcomes: seq<FutureOutcome>, fold: Fold, selected: seq<Id>)
    requires selected != []
    ensures var n := |selected| - 1;
            var m := FirstMatch(outcomes, fold, selected[n]);
            && (m.Some? <==> HasOutcome(outcomes, fold, selected[n]))
            && (m.Some? ==> Matches(m.value, fold, selected[n]))
  {
    hide Matches;
  }

  lemma {:induction false} NothingUsable(outcomes: seq<FutureOutcome>, fold: Fold, selected: seq<Id>)
    ensures Usable(outcomes, fold, selected) == [] <==> forall sid | sid in selected :: !HasOutcome(outcomes, fold, sid)
  {
    hide HasOutcome, FirstMatch;
    if selected != [] {
      var n := |selected| - 1;
      NothingUsable(outcomes, fold, selected[..n]);
      LastMatch(outcomes, fold, selected);
      assert forall sid :: sid in selected <==> sid in selected[..n] || sid == selected[n];
    }
  }

  /** A complete join lists the outcomes in the order of selection. */
  lemma {:induction false} UsableInOrder(outcomes: seq<FutureOutcome>, fold: Fold, selected: seq<Id>)
    requires |Usable(outcomes, fold, selected)| == |selected|
    ensures forall i | 0 <= i < |selected| :: Matches(Usable(outcomes, fold, selected)[i], fold, selected[i])
  {
    hide Matches, HasOutcome, FirstMatch;
    if selected != [] {
      var n := |selected| - 1;
      UsableCounts(outcomes, fold, selected[..n]);
      UsableInOrder(outcomes, fold, selected[..n]);
      LastMatch(outcomes, fold, selected);
    }
  }

  /** What the status says of the outcomes of the selected strategies. */
  lemma StatusMeaning(e: Evaluation, fold: Fold, selected: seq<Id>, outcomes: seq<FutureOutcome>)
    requires Evaluates(e, fold, selected, outcomes)
    ensures e.status == InsufficientOutcomes <==> forall sid | sid in selected :: !HasOutcome(outcomes, fold, sid)
    ensures e.status == Evaluated <==> selected != [] && forall sid | sid in selected :: HasOutcome(outcomes, fold, sid)
    ensures e.status == Partial
            <==> (exists sid :: sid in selected && HasOutcome(outcomes, fold, sid)) && exists sid :: sid in selected && !HasOutcome(outcomes, fold, sid)
  {
    hide HasOutcome, Usable, WealthOf, Portfolio, RelativeReturns, UncertaintyOf, MeanOf;
    UsableCounts(outcomes, fold, selected);
    NothingUsable(outcomes, fold, selected);
    if selected != [] {
      assert selected[0] in selected;
    }
  }

  // ---- what the returns mean ----

  /** The growth of one unit over a series, read from its first period on. */
  function Growth(gains: seq<real>): real {
    if gains == [] then 1.0 else (1.0 + gains[0]) * Growth(gains[1..])
  }

  /** Compounding twice in a row multiplies the growth. */
  lemma ReturnsMultiply(a: seq<real>, b: seq<real>)
    ensures 1.0 + TotalReturn(a + b) == (1.0 + TotalReturn(a)) * (1.0 + TotalReturn(b))
  {
    hide Curve;
    var gains := a + b;
    CurvePrefix(gains, |a|);
    assert gains[..|a|] == a && gains[|a|..|gains|] == b;
    assert Curve(gains)[|a|] == Curve(gains)[..|a| + 1][|a|];
    CurveOfStretch(gains, |a|, |gains|, |b|);
  }

  /** Over one period the total return is the return of that period. */
  lemma OnePeriodReturn(gain: real)
    ensures TotalReturn([gain]) == gain
  {
    hide Curve;
    EachReturnIsEarned([gain]);
  }

  lemma {:induction false} TotalReturnIsGrowth(gains: seq<real>)
    ensures TotalReturn(gains) == Growth(gains) - 1.0
  {
    if gains != [] {
      hide TotalReturn;
      assert gains == [gains[0]] + gains[1..];
      TotalReturnIsGrowth(gains[1..]);
      OnePeriodReturn(gains[0]);
      ReturnsMultiply([gains[0]], gains[1..]);
    }
  }

  lemma ProductsCompare(a: real, b: real, x: real, y: real)
    requires 0.0 <= a <= b && 0.0 <= x <= y
    ensures 0.0 <= a * x <= b * y
  {
    NonNegativeProduct(a, x);
    NonNegativeProduct(b - a, x);
    NonNegativeProduct(b, y - x);
    assert (b - a) * x == b * x - a * x;
    assert b * (y - x) == b * y - b * x;
  }

  lemma {:induction false} GrowthMonotone(low: seq<real>, high: seq<real>)
    requires |low| == |high| && forall i | 0 <= i < |low| :: -1.0 <= low[i] <= high[i]
    ensures 0.0 <= Growth(low) <= Growth(high)
  {
    if low != [] {
      GrowthMonotone(low[1..], high[1..]);
      ProductsCompare(1.0 + low[0], 1.0 + high[0], Growth(low[1..]), Growth(high[1..]));
    }
  }

  /** The relative return is the strategy's growth less its peers', so never losing a period to them is never negative. */
  lemma RelativeReturnMeaning(usable: seq<FutureOutcome>, i: nat)
    requires i < |usable|
    ensures RelativeReturns(usable)[i] == Growth(usable[i].periodReturns) - Growth(usable[i].peerReturns)
    ensures ValidOutcome(usable[i]) && (forall t | 0 <= t < |usable[i].periodReturns| :: usable[i].peerReturns[t] <= usable[i].periodReturns[t])
            ==> RelativeReturns(usable)[i] >= 0.0
  {
    hide TotalReturn, Growth;
    TotalReturnIsGrowth(usable[i].periodReturns);
    TotalReturnIsGrowth(usable[i].peerReturns);
    if ValidOutcome(usable[i]) && forall t | 0 <= t < |usable[i].periodReturns| :: usable[i].peerReturns[t] <= usable[i].periodReturns[t] {
      GrowthMonotone(usable[i].peerReturns, usable[i].periodReturns);
    }
  }

  /** The mean times the count is the sum. */
  lemma MeanTimesCount(xs: seq<real>)
    requires xs != []
    ensures Mean(xs) * |xs| as real == Sum(xs)
  {
    QuotientTimes(Sum(xs), |xs| as real);
  }

  /** What every usable strategy returns in a period, the portfolio returns; and it returns their sum, shared equally. */
  lemma PortfolioMeaning(usable: seq<FutureOutcome>, t: nat)
    requires usable != [] && t < |Portfolio(usable)|
    ensures Portfolio(usable)[t] * |usable| as real == Sum(AtPeriod(usable, t))
    ensures (forall i | 0 <= i < |usable| :: usable[i].periodReturns[t] == usable[0].periodReturns[t])
            ==> Portfolio(usable)[t] == usable[0].periodReturns[t]
  {
    hide Sum, ShortestSeries;
    var xs := AtPeriod(usable, t);
    MeanTimesCount(xs);
    if forall i | 0 <= i < |usable| :: usable[i].periodReturns[t] == usable[0].periodReturns[t] {
      S.ConstantSum(xs);
      S.MeanOfEqual(|xs| as real, xs[0]);
    }
  }

  lemma {:induction false} SumBounds(xs: seq<real>)
    requires forall i | 0 <= i < |xs| :: -1.0 <= xs[i] <= 1.0
    ensures -(|xs| as real) <= Sum(xs) <= |xs| as real
  {
    if xs != [] {
      SumBounds(xs[..|xs| - 1]);
    }
  }

  lemma MeanBounds(sum: real, n: real)
    requires n > 0.0 && -n <= sum <= n
    ensures -1.0 <= sum / n <= 1.0
  {
    var m := sum / n;
    assert m * n == sum;
    assert (m - 1.0) * n == sum - n;
    assert (m + 1.0) * n == sum + n;
  }

  /** The root is always defined, and the interval shrinks to its mean exactly when all the values are equal. */
  lemma IntervalIsDefined(values: seq<real>)
    requires |values| >= 2
    ensures SquaredError(values) >= 0.0
    ensures SquaredError(values) == 0.0 <==> forall i | 0 <= i < |values| :: values[i] == values[0]
  {
    hide Sum, S.Dot, S.Times;
    var d := S.Deviations(values);
    var n := |values|;
    S.DotSelf(d);
    QuotientSign(S.Dot(d, d), (n - 1) as real);
    QuotientSign(S.Dot(d, d) / (n - 1) as real, n as real);
    if forall i | 0 <= i < n :: values[i] == values[0] {
      S.ConstantDeviations(values);
    }
    if forall i | 0 <= i < n :: d[i] == 0.0 {
      assert forall i | 0 <= i < n :: d[i] == d[0];
    }
  }

  /** The squared distances of the values from `center`, added up. */
  function SquaredDistances(values: seq<real>, center: real): real {
    if values == [] then 0.0
    else
      var gap := values[|values| - 1] - center;
      SquaredDistances(values[..|values| - 1], center) + gap * gap
  }

  lemma {:induction false} DistancesAreDot(values: seq<real>, d: seq<real>, center: real)
    requires |d| == |values| && forall i | 0 <= i < |d| :: d[i] == values[i] - center
    ensures S.Dot(d, d) == SquaredDistances(values, center)
  {
    if values != [] {
      var n := |values| - 1;
      DistancesAreDot(values[..n], d[..n], center);
      assert S.Products(d, d)[..n] == S.Products(d[..n], d[..n]);
    }
  }

  lemma CentredOnMean(values: seq<real>)
    requires values != []
    ensures forall i | 0 <= i < |values| :: S.Deviations(values)[i] == values[i] - Mean(values)
  {
    hide Sum;
  }

  lemma SquaredErrorMeaning(values: seq<real>)
    requires |values| >= 2
    ensures SquaredError(values) == SquaredDistances(values, Mean(values)) / (|values| - 1) as real / |values| as real
  {
    CentredOnMean(values);
    hide Mean, SquaredDistances, S.Dot;
    DistancesAreDot(values, S.Deviations(values), Mean(values));
  }

  /** The interval is centred on the mean, and its squared error is the sample variance divided by the sample size. */
  lemma IntervalMeaning(values: seq<real>)
    requires |values| >= 2
    ensures UncertaintyOf(values).NormalInterval? && UncertaintyOf(values).sampleSize == |values|
    ensures UncertaintyOf(values).mean * |values| as real == Sum(values)
    ensures UncertaintyOf(values).squaredError
         == SquaredDistances(values, UncertaintyOf(values).mean) / (|values| - 1) as real / |values| as real
  {
    hide SquaredError, SquaredDistances, Mean;
    SquaredErrorMeaning(values);
    MeanTimesCount(values);
  }

  lemma UncertaintyShape(values: seq<real>)
    ensures UncertaintyOf(values).sampleSize == |values|
    ensures UncertaintyOf(values).NormalInterval? <==> |values| >= 2
    ensures UncertaintyOf(values).NormalInterval? ==> Some(UncertaintyOf(values).mean) == MeanOf(values)
  {
    hide Mean, SquaredError;
  }

  /** `mean` is the mean of `count` values that add up to `total`. */
  predicate Averages(mean: real, count: nat, total: real) {
    mean * count as real == total
  }

  lemma MeanOfMeaning(values: seq<real>)
    ensures MeanOf(values).None? <==> values == []
    ensures values != [] ==> Averages(MeanOf(values).value, |values|, Sum(values))
  {
    hide Mean, Sum;
    if values != [] {
      MeanTimesCount(values);
    }
  }

  lemma QuotientSign(x: real, n: real)
    requires n > 0.0 && x >= 0.0
    ensures x / n >= 0.0 && (x / n == 0.0 <==> x == 0.0)
  {
    QuotientTimes(x, n);
    ScaleUp(0.0, x / n, n);
  }

  // ---- the evaluation is determined ----

  lemma TroughIsUnique(curve: seq<real>, t: nat, d: real, u: nat, e: real)
    requires |curve| > 0 && curve[0] == 1.0 && FirstTrough(curve, t, d) && FirstTrough(curve, u, e)
    ensures t == u && d == e && t < |curve|
  {
    hide DrawdownAt;
  }

  lemma RecoveryIsUnique(curve: seq<real>, t: nat, r: Recovery, s: Recovery)
    requires t < |curve| && RecoveryIs(curve, t, r) && RecoveryIs(curve, t, s)
    ensures r == s
  {
    hide Peak;
  }

  lemma NeverPositive(curve: seq<real>, t: nat, d: real)
    requires |curve| > 0 && curve[0] == 1.0 && FirstTrough(curve, t, d)
    ensures d <= 0.0
  {
    StartIsNoDrawdown(curve);
  }

  lemma WealthIsDetermined(v: Wealth, t: nat, w: Wealth, u: nat, gains: seq<real>)
    requires WealthOf(v, t, gains) && WealthOf(w, u, gains)
    ensures v == w
  {
    hide Curve, FirstTrough, RecoveryIs;
    TroughIsUnique(v.curve, t, v.maxDrawdown, u, w.maxDrawdown);
    NeverPositive(v.curve, t, v.maxDrawdown);
    if v.maxDrawdown < 0.0 {
      RecoveryIsUnique(v.curve, t, v.recovery, w.recovery);
    }
  }

  /** The fold, the selection and the outcomes leave nothing open: there is one evaluation. */
  lemma EvaluationIsDetermined(e: Evaluation, f: Evaluation, fold: Fold, selected: seq<Id>, outcomes: seq<FutureOutcome>)
    requires Evaluates(e, fold, selected, outcomes) && Evaluates(f, fold, selected, outcomes)
    ensures e == f
  {
    hide Usable, Portfolio, RelativeReturns, UncertaintyOf, MeanOf, StatusOf, WealthOf;
    var t: nat :| EvaluationOf(e, t, fold, selected, outcomes);
    var u: nat :| EvaluationOf(f, u, fold, selected, outcomes);
    WealthIsDetermined(e.wealth, t, f.wealth, u, e.portfolio);
  }

  /** Outcomes for the fold's own window, and no others, enter its evaluation. */
  ghost predicate SameOutcomesFor(fold: Fold, a: seq<FutureOutcome>, b: seq<FutureOutcome>) {
    forall o: FutureOutcome | o.windowStart == fold.outcomeStart && o.windowEnd == fold.outcomeEnd :: o in a <==> o in b
  }

  /** At most one outcome a strategy and window, as accepted inputs have. */
  ghost predicate OnePerWindow(outcomes: seq<FutureOutcome>) {
    forall o, q | o in outcomes && q in outcomes && o.windowStart == q.windowStart && o.windowEnd == q.windowEnd && o.strategy == q.strategy :: o == q
  }

  lemma AcceptedIsOnePerWindow(inp: Input)
    requires AcceptedOutcomes(inp)
    ensures OnePerWindow(inp.outcomes)
  {
    hide ValidOutcome;
    var os := inp.outcomes;
    forall o, q | o in os && q in os && o.windowStart == q.windowStart && o.windowEnd == q.windowEnd && o.strategy == q.strategy ensures o == q {
      var i :| 0 <= i < |os| && os[i] == o;
      var j :| 0 <= j < |os| && os[j] == q;
      assert !(i < j) && !(j < i);
    }
  }

  lemma SameMatch(a: seq<FutureOutcome>, b: seq<FutureOutcome>, fold: Fold, sid: Id)
    requires SameOutcomesFor(fold, a, b) && OnePerWindow(a) && OnePerWindow(b)
    ensures FirstMatch(a, fold, sid) == FirstMatch(b, fold, sid)
  {
  }

  lemma {:induction false} SameUsable(a: seq<FutureOutcome>, b: seq<FutureOutcome>, fold: Fold, selected: seq<Id>)
    requires SameOutcomesFor(fold, a, b) && OnePerWindow(a) && OnePerWindow(b)
    ensures Usable(a, fold, selected) == Usable(b, fold, selected)
  {
    hide FirstMatch, SameOutcomesFor, OnePerWindow;
    if selected != [] {
      var n := |selected| - 1;
      SameUsable(a, b, fold, selected[..n]);
      SameMatch(a, b, fold, selected[n]);
    }
  }

  /** Whatever other windows hold, and in whatever order, two inputs with the same outcomes for the fold have the same evaluation. */
  lemma OtherWindowsDoNotMatter(e: Evaluation, a: seq<FutureOutcome>, b: seq<FutureOutcome>, fold: Fold, selected: seq<Id>)
    requires SameOutcomesFor(fold, a, b) && OnePerWindow(a) && OnePerWindow(b)
    ensures Evaluates(e, fold, selected, a) <==> Evaluates(e, fold, selected, b)
  {
    hide Usable, SameOutcomesFor, OnePerWindow, Portfolio, RelativeReturns, WealthOf, UncertaintyOf;
    SameUsable(a, b, fold, selected);
    if Evaluates(e, fold, selected, a) {
      var t: nat :| EvaluationOf(e, t, fold, selected, a);
      assert EvaluationOf(e, t, fold, selected, b);
    }
    if Evaluates(e, fold, selected, b) {
      var t: nat :| EvaluationOf(e, t, fold, selected, b);
      assert EvaluationOf(e, t, fold, selected, a);
    }
  }

  /** Averaging accepted simple returns gives simple returns, so the drawdown guarantees hold of the portfolio. */
  lemma PortfolioIsSimple(usable: seq<FutureOutcome>)
    requires usable != [] && forall o | o in usable :: ValidOutcome(o)
    ensures SimpleReturns(Portfolio(usable))
  {
    forall t | 0 <= t < |Portfolio(usable)| ensures -1.0 <= Portfolio(usable)[t] <= 1.0 {
      var xs := AtPeriod(usable, t);
      forall i | 0 <= i < |xs| ensures -1.0 <= xs[i] <= 1.0 {
        assert usable[i] in usable;
      }
      SumBounds(xs);
      MeanBounds(Sum(xs), |xs| as real);
    }
  }
}
