/** What src/openfundscore/walk_forward.py reports of a run: one report a fold, and a summary pooling the folds. */
module RunReport {
  import opened Prelude
  import opened Ordering
  import opened Lifecycle
  import opened Ranking
  import opened WealthCurve
  import opened WalkForward
  import opened Outcomes
  import opened Sensitivity

  /** `audit_trail` and `audit_lifecycle` are kept as the sets they list. */
  datatype FoldReport = FoldReport(frozen: Frozen, snapshots: set<Snapshot>, lifecycles: set<(Id, Interval)>,
                                   sensitivity: Diagnostics, outcome: Evaluation)

  datatype Summary = Summary(foldCount: nat, meanTurnover: Option<real>, meanRelative: Option<real>,
                             uncertainty: Uncertainty, wealth: Wealth)

  datatype WalkForwardReport = WalkForwardReport(folds: seq<FoldReport>, summary: Summary)

  /** The period returns of the folds' portfolios, one fold after the other. */
  function PooledReturns(folds: seq<FoldReport>): seq<real> {
    if folds == [] then [] else PooledReturns(folds[..|folds| - 1]) + folds[|folds| - 1].outcome.portfolio
  }

  function PooledRelative(folds: seq<FoldReport>): seq<real> {
    if folds == [] then [] else PooledRelative(folds[..|folds| - 1]) + folds[|folds| - 1].outcome.relative
  }

  /** The turnovers that have a value: those of every fold but the first. */
  function Turnovers(folds: seq<FoldReport>): seq<real> {
    if folds == [] then []
    else
      var turnover := folds[|folds| - 1].frozen.turnover;
      Turnovers(folds[..|folds| - 1]) + (if turnover.Distance? then [turnover.value] else [])
  }

  ghost predicate SummaryOf(s: Summary, trough: nat, folds: seq<FoldReport>) {
    && s.foldCount == |folds|
    && s.meanTurnover == MeanOf(Turnovers(folds))
    && s.meanRelative == MeanOf(PooledRelative(folds)) && s.uncertainty == UncertaintyOf(PooledRelative(folds))
    && WealthOf(s.wealth, trough, PooledReturns(folds))
  }

  ghost predicate Summarizes(s: Summary, folds: seq<FoldReport>) {
    exists trough: nat :: SummaryOf(s, trough, folds)
  }

  method Summarize(folds: seq<FoldReport>) returns (s: Summary)
    ensures Summarizes(s, folds)
  {
    hide UncertaintyOf, Curve, FirstTrough, RecoveryIs, MeanOf;
    var periodReturns: seq<real>, relative: seq<real>, turnovers: seq<real> := [], [], [];
    for i := 0 to |folds|
      invariant periodReturns == PooledReturns(folds[..i])
      invariant relative == PooledRelative(folds[..i])
      invariant turnovers == Turnovers(folds[..i])
    {
      assert folds[..i + 1][..i] == folds[..i];
      periodReturns := periodReturns + folds[i].outcome.portfolio;
      relative := relative + folds[i].outcome.relative;
      if folds[i].frozen.turnover.Distance? {
        turnovers := turnovers + [folds[i].frozen.turnover.value];
      }
    }
    assert folds[..|folds|] == folds;
    var wealth, trough := WealthMetrics(periodReturns);
    s := Summary(|folds|, MeanOf(turnovers), MeanOf(relative), UncertaintyOf(relative), wealth);
    assert SummaryOf(s, trough, folds);
  }

  lemma SummaryIsDetermined(s: Summary, q: Summary, folds: seq<FoldReport>)
    requires Summarizes(s, folds) && Summarizes(q, folds)
    ensures s == q
  {
    hide Turnovers, PooledRelative, PooledReturns, WealthOf, UncertaintyOf, MeanOf;
    var t: nat :| SummaryOf(s, t, folds);
    var u: nat :| SummaryOf(q, u, folds);
    WealthIsDetermined(s.wealth, t, q.wealth, u, PooledReturns(folds));
  }

  lemma CurveSize(gains: seq<real>)
    ensures |Curve(gains)| == |gains| + 1
  {
  }

  /** What the summary's figures are about: all relative returns of all folds, each counted once. */
  lemma SummaryMeaning(s: Summary, folds: seq<FoldReport>)
    requires Summarizes(s, folds)
    ensures s.foldCount == |folds|
    ensures s.meanRelative.None? <==> RelativeCount(folds) == 0
    ensures s.meanRelative.Some? ==> Averages(s.meanRelative.value, RelativeCount(folds), Sum(PooledRelative(folds)))
    ensures s.uncertainty.sampleSize == RelativeCount(folds) && (s.uncertainty.NormalInterval? <==> RelativeCount(folds) >= 2)
    ensures s.uncertainty.NormalInterval? ==> Some(s.uncertainty.mean) == s.meanRelative
    ensures |s.wealth.curve| == PeriodCount(folds) + 1
  {
    hide Turnovers, PooledRelative, PooledReturns, FirstTrough, RecoveryIs, Sum, MeanOf, UncertaintyOf, Averages, RelativeCount, PeriodCount;
    CurveSize(PooledReturns(folds));
    hide Curve;
    var t: nat :| SummaryOf(s, t, folds);
    PoolingKeepsAll(folds);
    MeanOfMeaning(PooledRelative(folds));
    UncertaintyShape(PooledRelative(folds));
  }

  // ---- pooling folds can only deepen the drawdown ----

  lemma {:induction false} FoldIsStretch(folds: seq<FoldReport>, i: nat) returns (from: nat, to: nat)
    requires i < |folds|
    ensures from <= to <= |PooledReturns(folds)| && PooledReturns(folds)[from..to] == folds[i].outcome.portfolio
  {
    var n := |folds| - 1;
    if i < n {
      from, to := FoldIsStretch(folds[..n], i);
      assert PooledReturns(folds)[from..to] == PooledReturns(folds[..n])[from..to];
    } else {
      from, to := |PooledReturns(folds[..n])|, |PooledReturns(folds)|;
    }
  }

  lemma {:induction false} RelativeIsStretch(folds: seq<FoldReport>, i: nat) returns (from: nat, to: nat)
    requires i < |folds|
    ensures from <= to <= |PooledRelative(folds)| && PooledRelative(folds)[from..to] == folds[i].outcome.relative
  {
    var n := |folds| - 1;
    if i < n {
      from, to := RelativeIsStretch(folds[..n], i);
      assert PooledRelative(folds)[from..to] == PooledRelative(folds[..n])[from..to];
    } else {
      from, to := |PooledRelative(folds[..n])|, |PooledRelative(folds)|;
    }
  }

  function PeriodCount(folds: seq<FoldReport>): nat {
    if folds == [] then 0 else |folds[0].outcome.portfolio| + PeriodCount(folds[1..])
  }

  function RelativeCount(folds: seq<FoldReport>): nat {
    if folds == [] then 0 else |folds[0].outcome.relative| + RelativeCount(folds[1..])
  }

  lemma {:induction false} CountsJoin(a: seq<FoldReport>, b: seq<FoldReport>)
    ensures PeriodCount(a + b) == PeriodCount(a) + PeriodCount(b) && RelativeCount(a + b) == RelativeCount(a) + RelativeCount(b)
  {
    if a == [] {
      assert a + b == b;
    } else {
      CountsJoin(a[1..], b);
      assert (a + b)[1..] == a[1..] + b;
    }
  }

  /** Pooling keeps every value of every fold and adds none: each fold is a stretch, and the lengths add up. */
  lemma {:induction false} PoolingKeepsAll(folds: seq<FoldReport>)
    ensures |PooledReturns(folds)| == PeriodCount(folds) && |PooledRelative(folds)| == RelativeCount(folds)
  {
    if folds != [] {
      var n := |folds| - 1;
      PoolingKeepsAll(folds[..n]);
      CountsJoin(folds[..n], [folds[n]]);
      assert folds == folds[..n] + [folds[n]];
      assert [folds[n]][1..] == [];
    }
  }

  lemma {:induction false} PooledIsSimple(folds: seq<FoldReport>)
    requires forall i | 0 <= i < |folds| :: SimpleReturns(folds[i].outcome.portfolio)
    ensures SimpleReturns(PooledReturns(folds))
  {
    if folds != [] {
      var n := |folds| - 1;
      PooledIsSimple(folds[..n]);
      assert SimpleReturns(folds[n].outcome.portfolio);
    }
  }

  /** The pooled drawdown is at least as deep as the one reported for any fold. */
  lemma PoolingDeepensDrawdown(folds: seq<FoldReport>, s: Summary, i: nat, t: nat)
    requires Summarizes(s, folds) && i < |folds|
    requires forall k | 0 <= k < |folds| :: SimpleReturns(folds[k].outcome.portfolio)
    requires WealthOf(folds[i].outcome.wealth, t, folds[i].outcome.portfolio)
    ensures -1.0 <= s.wealth.maxDrawdown <= folds[i].outcome.wealth.maxDrawdown
  {
    hide PooledReturns, Turnovers, PooledRelative, Curve, FirstTrough, RecoveryIs, SimpleReturns, UncertaintyOf, MeanOf, Change;
    var u: nat :| SummaryOf(s, u, folds);
    var gains := PooledReturns(folds);
    PooledIsSimple(folds);
    var from, to := FoldIsStretch(folds, i);
    StretchFallsLess(gains, from, to, t, folds[i].outcome.wealth.maxDrawdown, u, s.wealth.maxDrawdown);
    DrawdownIsWorstChange(gains, u, s.wealth.maxDrawdown);
  }
}
