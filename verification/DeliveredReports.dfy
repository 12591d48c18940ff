/**
  What a completed run hands to its caller: reports that the input determines, that carry the
  evidence they rest on, and that depend on nothing known after their decision but the outcomes of
  their own window.
 */
module DeliveredReports {
  import opened Prelude
  import opened Ordering
  import opened Revisions
  import opened Records
  import opened Lifecycle
  import opened WalkForward
  import opened WalkForwardEngine
  import opened Outcomes
  import opened Sensitivity
  import opened FoldGuarantees
  import opened NoLookahead
  import opened RunReport
  import opened WealthCurve
  import S = Stability

  // ---- the specification leaves one result ----

  lemma FoldIsDetermined(inp: Input, fold: Fold, frozen: Frozen, r: FoldReport, s: FoldReport)
    requires DeliversFold(inp, fold, frozen, r) && DeliversFold(inp, fold, frozen, s)
    ensures r == s
  {
    hide Evaluates, SnapshotTrail, LifecycleTrail, DiagnosticsOf, ScoreMap, Within;
    EvaluationIsDetermined(r.outcome, s.outcome, fold, frozen.selected, inp.outcomes);
  }

  lemma FoldsAreDetermined(inp: Input, frozen: seq<Frozen>, r: seq<FoldReport>, s: seq<FoldReport>)
    requires Delivers(inp, frozen, r) && Delivers(inp, frozen, s)
    ensures r == s
  {
    hide DeliversFold;
    forall i | 0 <= i < |frozen| ensures r[i] == s[i] {
      FoldIsDetermined(inp, inp.folds[i], frozen[i], r[i], s[i]);
    }
    assert r == s;
  }

  /** Two results of the same run are the same result: reports, summary and error alike. */
  lemma ResultIsDetermined(inp: Input, scorer: Scorer, r: Result<WalkForwardReport, RunError>, s: Result<WalkForwardReport, RunError>)
    requires Completes(inp, RunTo(inp, scorer, |inp.folds|), r) && Completes(inp, RunTo(inp, scorer, |inp.folds|), s)
    ensures r == s
  {
    hide RunTo, Delivers, Summarizes;
    var run := RunTo(inp, scorer, |inp.folds|);
    if run.Ok? {
      FoldsAreDetermined(inp, run.value.reports, r.value.folds, s.value.folds);
      SummaryIsDetermined(r.value.summary, s.value.summary, r.value.folds);
    }
  }

  // ---- the trail holds the evidence ----

  lemma VerdictNamesKnownEvidence(inp: Input, scorer: Scorer, sid: Id, fold: Fold, d: Domain)
    requires Judge(inp, scorer, sid, fold).Eligible? && d in Judge(inp, scorer, sid, fold).resolved
    ensures ActiveAt(inp, sid, fold.decision)
    ensures Judge(inp, scorer, sid, fold).resolved[d] in KnownSnapshots(inp, sid, fold.decision)
  {
    hide KnownSnapshots, KnownLifecycle, ResolveLifecycle, EvidenceGap, DomainConflict, JudgeReply, JudgeScores, KnownScores, Tips;
    var tips := Tips(KnownSnapshots(inp, sid, fold.decision));
    TipsAreKnown(KnownSnapshots(inp, sid, fold.decision));
    var resolved := ByDomain(tips);
    SourceKeepsEvidence(inp, scorer, sid, fold, resolved);
  }

  lemma TipsAreKnown(known: set<Snapshot>)
    ensures Tips(known) <= known
  {
  }

  lemma SourceKeepsEvidence(inp: Input, scorer: Scorer, sid: Id, fold: Fold, resolved: map<Domain, Snapshot>)
    requires EvidenceGap(resolved).None?
    ensures var v := JudgeScoreSource(inp, scorer, sid, fold, resolved); v.Eligible? ==> v.resolved == resolved
  {
    hide EvidenceGap, CoversProviderTime, KnownScores, Tips;
  }

  /** Every snapshot a scored strategy rests on is in the fold's audit trail. */
  lemma TrailHoldsTheEvidence(inp: Input, scorer: Scorer, f: Frozen, sid: Id, d: Domain)
    requires SoundReport(inp, scorer, f) && sid in f.resolved && d in f.resolved[sid]
    ensures f.resolved[sid][d] in SnapshotTrail(inp, f.universe, f.fold.decision)
  {
    hide Judge, ActiveAt, Sorted, Universe;
    assert Judge(inp, scorer, sid, f.fold) == Eligible(f.audits[sid], f.resolved[sid]);
    VerdictNamesKnownEvidence(inp, scorer, sid, f.fold, d);
    assert ScoredIn(TallyOf(f), sid);
  }

  // ---- no lookahead, as far as the caller can see ----

  lemma SameTrails(a: Input, b: Input, universe: seq<Id>, decision: int)
    requires AgreeBy(a, b, decision) && forall sid | sid in universe :: InceptedBy(a, sid, decision)
    ensures SnapshotTrail(a, universe, decision) == SnapshotTrail(b, universe, decision)
    ensures LifecycleTrail(a, universe, decision) == LifecycleTrail(b, universe, decision)
  {
    SameSnapshotTrail(a, b, universe, decision);
    forall sid, r: Interval ensures (sid, r) in LifecycleTrail(a, universe, decision) <==> (sid, r) in LifecycleTrail(b, universe, decision) {
      LifecycleTrailMember(a, universe, decision, sid, r);
      LifecycleTrailMember(b, universe, decision, sid, r);
    }
  }

  lemma LifecycleTrailMember(inp: Input, universe: seq<Id>, decision: int, sid: Id, r: Interval)
    ensures (sid, r) in LifecycleTrail(inp, universe, decision) <==> sid in universe && HasInterval(inp, sid, r) && KnownBy(r.stamp, decision)
  {
  }

  lemma SameSnapshotTrail(a: Input, b: Input, universe: seq<Id>, decision: int)
    requires AgreeBy(a, b, decision) && forall sid | sid in universe :: InceptedBy(a, sid, decision)
    ensures SnapshotTrail(a, universe, decision) == SnapshotTrail(b, universe, decision)
  {
    hide KnownLifecycle, ResolveLifecycle;
    forall sid | sid in universe ensures ActiveAt(a, sid, decision) <==> ActiveAt(b, sid, decision) {
      SameKnowledge(a, b, sid, decision);
    }
    hide ActiveAt;
  }

  lemma SameFoldReport(a: Input, b: Input, fold: Fold, frozen: Frozen, r: FoldReport, s: FoldReport)
    requires DeliversFold(a, fold, frozen, r) && DeliversFold(b, fold, frozen, s) && a.selectCount == b.selectCount
    requires AgreeBy(a, b, fold.decision) && frozen.universe == Sorted(Universe(a, fold.decision))
    requires SameOutcomesFor(fold, a.outcomes, b.outcomes) && OnePerWindow(a.outcomes) && OnePerWindow(b.outcomes)
    ensures r == s
  {
    hide AgreeBy, Evaluates, SnapshotTrail, LifecycleTrail, DiagnosticsOf, ScoreMap, Within, SameOutcomesFor, OnePerWindow, Sorted, Universe, InceptedBy;
    SortedIsOrdered(Universe(a, fold.decision));
    InUniverse(a, fold.decision);
    SameTrails(a, b, frozen.universe, fold.decision);
    OtherWindowsDoNotMatter(s.outcome, a.outcomes, b.outcomes, fold, frozen.selected);
    EvaluationIsDetermined(r.outcome, s.outcome, fold, frozen.selected, a.outcomes);
  }

  /**
    No lookahead for what is delivered: if two completed runs agree on what was known by fold `k`'s decision
    and on the outcomes of the windows of folds 0 to k, their reports for those folds are equal in every part.
   */
  lemma DeliveredReportsAgree(a: Input, b: Input, scorer: Scorer, k: nat, ra: WalkForwardReport, rb: WalkForwardReport)
    requires Accepted(a, scorer.Some?) && Accepted(b, scorer.Some?)
    requires Completes(a, RunTo(a, scorer, |a.folds|), Ok(ra)) && Completes(b, RunTo(b, scorer, |b.folds|), Ok(rb))
    requires k < |a.folds| && k < |b.folds| && a.folds[..k + 1] == b.folds[..k + 1] && a.selectCount == b.selectCount
    requires AgreeBy(a, b, a.folds[k].decision)
    requires forall i | 0 <= i <= k :: SameOutcomesFor(a.folds[i], a.outcomes, b.outcomes)
    ensures k < |ra.folds| && k < |rb.folds| && ra.folds[..k + 1] == rb.folds[..k + 1]
  {
    hide RunTo, AgreeBy, DeliversFold, SameOutcomesFor, OnePerWindow, Accepted, Summarizes;
    AcceptedParts(a, scorer.Some?);
    AcceptedParts(b, scorer.Some?);
    hide AcceptedFolds, AcceptedOutcomes;
    SameReports(a, b, scorer, k);
    var frozen, others := RunTo(a, scorer, |a.folds|).value.reports, RunTo(b, scorer, |b.folds|).value.reports;
    forall i | 0 <= i <= k ensures ra.folds[i] == rb.folds[i] {
      assert frozen[i] == frozen[..k + 1][i] == others[..k + 1][i] == others[i];
      assert a.folds[i] == a.folds[..k + 1][i] == b.folds[..k + 1][i] == b.folds[i];
      DecisionsIncrease(a.folds, a.selectCount, i, k);
      AgreeEarlier(a, b, a.folds[i].decision, a.folds[k].decision);
      UniverseOf(a, scorer, i, |a.folds|);
      SameFoldReport(a, b, a.folds[i], frozen[i], ra.folds[i], rb.folds[i]);
    }
  }

  lemma AcceptedParts(inp: Input, callback: bool)
    requires Accepted(inp, callback)
    ensures AcceptedFolds(inp.folds, inp.selectCount) && OnePerWindow(inp.outcomes)
  {
    hide AcceptedCandidates, AcceptedSnapshots, AcceptedScores, AcceptedFolds;
    AcceptedIsOnePerWindow(inp);
  }

  /** Report `i` is about the strategies that existed at decision `i`. */
  lemma {:induction false} UniverseOf(inp: Input, scorer: Scorer, i: nat, n: nat)
    requires i < n <= |inp.folds| && RunTo(inp, scorer, n).Ok?
    ensures i < |RunTo(inp, scorer, n).value.reports|
    ensures RunTo(inp, scorer, n).value.reports[i].universe == Sorted(Universe(inp, inp.folds[i].decision))
    decreases n
  {
    hide RunFold, Sorted, Universe;
    RunAppends(inp, scorer, n - 1, n);
    var before, after := RunTo(inp, scorer, n - 1).value.reports, RunTo(inp, scorer, n).value.reports;
    if i < n - 1 {
      UniverseOf(inp, scorer, i, n - 1);
      assert after[i] == after[..n - 1][i] == before[i];
    } else {
      RunAppends(inp, scorer, n - 1, n - 1);
      FrozenSelection(inp, scorer, inp.folds[n - 1], RunTo(inp, scorer, n - 1).value);
    }
  }

  // ---- the summary ----

  lemma {:induction false} UsableIsValid(inp: Input, fold: Fold, selected: seq<Id>)
    requires AcceptedOutcomes(inp)
    ensures forall o | o in Usable(inp.outcomes, fold, selected) :: ValidOutcome(o)
  {
    hide ValidOutcome;
    UsableCounts(inp.outcomes, fold, selected);
    forall o | o in Usable(inp.outcomes, fold, selected) ensures ValidOutcome(o) {
      var i :| 0 <= i < |inp.outcomes| && inp.outcomes[i] == o;
    }
  }

  lemma EvaluationIsSimple(inp: Input, e: Evaluation, fold: Fold, selected: seq<Id>) returns (t: nat)
    requires AcceptedOutcomes(inp) && Evaluates(e, fold, selected, inp.outcomes)
    ensures SimpleReturns(e.portfolio) && WealthOf(e.wealth, t, e.portfolio)
  {
    hide AcceptedOutcomes, ValidOutcome, Usable, WealthOf, RelativeReturns, UncertaintyOf, Portfolio;
    t :| EvaluationOf(e, t, fold, selected, inp.outcomes);
    UsableIsValid(inp, fold, selected);
    if Usable(inp.outcomes, fold, selected) != [] {
      PortfolioIsSimple(Usable(inp.outcomes, fold, selected));
    }
  }

  /** The drawdown of the summary is at least as deep as that of every fold of the run. */
  lemma SummaryDrawdownIsDeepest(inp: Input, scorer: Scorer, r: WalkForwardReport, i: nat)
    requires Accepted(inp, scorer.Some?) && Completes(inp, RunTo(inp, scorer, |inp.folds|), Ok(r)) && i < |r.folds|
    ensures -1.0 <= r.summary.wealth.maxDrawdown <= r.folds[i].outcome.wealth.maxDrawdown
  {
    hide RunTo, Accepted, WealthOf, Evaluates, SimpleReturns, Summarizes;
    OutcomesAccepted(inp, scorer.Some?);
    forall k | 0 <= k < |r.folds| ensures SimpleReturns(r.folds[k].outcome.portfolio) {
      var _ := FoldIsSimple(inp, RunTo(inp, scorer, |inp.folds|).value.reports, r.folds, k);
    }
    var t := FoldIsSimple(inp, RunTo(inp, scorer, |inp.folds|).value.reports, r.folds, i);
    PoolingDeepensDrawdown(r.folds, r.summary, i, t);
  }

  lemma OutcomesAccepted(inp: Input, callback: bool)
    requires Accepted(inp, callback)
    ensures AcceptedOutcomes(inp)
  {
    hide AcceptedOutcomes;
  }

  lemma FoldIsSimple(inp: Input, frozen: seq<Frozen>, reports: seq<FoldReport>, k: nat) returns (t: nat)
    requires AcceptedOutcomes(inp) && Delivers(inp, frozen, reports) && k < |reports|
    ensures SimpleReturns(reports[k].outcome.portfolio) && WealthOf(reports[k].outcome.wealth, t, reports[k].outcome.portfolio)
  {
    hide AcceptedOutcomes, WealthOf, Evaluates, SimpleReturns, DiagnosticsOf, SnapshotTrail, LifecycleTrail, Within, ScoreMap;
    assert DeliversFold(inp, inp.folds[k], frozen[k], reports[k]);
    t := EvaluationIsSimple(inp, reports[k].outcome, inp.folds[k], frozen[k].selected);
  }

  // ---- what the delivered parts are about ----

  /** The status of a fold of a completed run, in terms of the outcomes that were supplied. */
  lemma DeliveredStatus(inp: Input, scorer: Scorer, r: WalkForwardReport, k: nat)
    requires Completes(inp, RunTo(inp, scorer, |inp.folds|), Ok(r)) && k < |r.folds| && k < |inp.folds|
    ensures var selected, e := r.folds[k].frozen.selected, r.folds[k].outcome;
            && (e.status == InsufficientOutcomes <==> forall sid | sid in selected :: !HasOutcome(inp.outcomes, inp.folds[k], sid))
            && (e.status == Evaluated <==> selected != [] && forall sid | sid in selected :: HasOutcome(inp.outcomes, inp.folds[k], sid))
  {
    hide RunTo, Summarizes, HasOutcome, Evaluates;
    DeliveredFold(inp, RunTo(inp, scorer, |inp.folds|).value.reports, r.folds, k);
    StatusMeaning(r.folds[k].outcome, inp.folds[k], r.folds[k].frozen.selected, inp.outcomes);
  }

  lemma DeliveredFold(inp: Input, frozen: seq<Frozen>, reports: seq<FoldReport>, k: nat)
    requires Delivers(inp, frozen, reports) && k < |reports|
    ensures Evaluates(reports[k].outcome, inp.folds[k], reports[k].frozen.selected, inp.outcomes)
    ensures Within(reports[k].frozen.selected, ScoreMap(reports[k].frozen.scores))
    ensures reports[k].sensitivity
         == DiagnosticsOf(ScoreMap(reports[k].frozen.scores), reports[k].frozen.audits, reports[k].frozen.selected, inp.selectCount)
  {
    hide Evaluates, SnapshotTrail, LifecycleTrail, DiagnosticsOf, ScoreMap, Within;
    assert DeliversFold(inp, inp.folds[k], frozen[k], reports[k]);
  }

  ghost predicate NamesComponent(audits: map<Id, Audit>, name: Id) {
    exists sid, i :: sid in audits && 0 <= i < |audits[sid].components| && audits[sid].components[i].name == name
  }

  lemma NamesAreComponents(audits: map<Id, Audit>, name: Id)
    ensures name in ComponentNames(audits) <==> NamesComponent(audits, name)
  {
  }

  /** The diagnostics of a fold: its own ranks as the baseline, and one scenario for every component its audits name, in order. */
  lemma DeliveredDiagnostics(inp: Input, scorer: Scorer, r: WalkForwardReport, k: nat)
    requires Completes(inp, RunTo(inp, scorer, |inp.folds|), Ok(r)) && k < |r.folds|
    ensures var f, d := r.folds[k].frozen, r.folds[k].sensitivity;
            && Within(f.selected, ScoreMap(f.scores)) && RanksByCounting(ScoreMap(f.scores), d.baseline)
            && (forall name | NamesComponent(f.audits, name) ::
                  ScenarioOf(ScoreMap(f.scores), f.audits, f.selected, inp.selectCount, name) in d.scenarios)
            && (forall j | 0 <= j < |d.scenarios| :: NamesComponent(f.audits, d.scenarios[j].omitted))
            && forall i, j | 0 <= i < j < |d.scenarios| ::
                 d.scenarios[i].omitted != d.scenarios[j].omitted && IdLeq(d.scenarios[i].omitted, d.scenarios[j].omitted)
  {
    hide RunTo, Summarizes, ScoreMap, Within, ScenarioOf, RankMap, RanksByCounting, ComponentNames, NamesComponent, DiagnosticsOf;
    var f := r.folds[k].frozen;
    DeliveredFold(inp, RunTo(inp, scorer, |inp.folds|).value.reports, r.folds, k);
    DiagnosticsMeaning(ScoreMap(f.scores), f.audits, f.selected, inp.selectCount);
  }

  lemma DiagnosticsMeaning(scores: map<Id, real>, audits: map<Id, Audit>, selected: seq<Id>, count: int)
    requires Within(selected, scores)
    ensures var d := DiagnosticsOf(scores, audits, selected, count);
            && RanksByCounting(scores, d.baseline)
            && (forall name | NamesComponent(audits, name) :: ScenarioOf(scores, audits, selected, count, name) in d.scenarios)
            && (forall j | 0 <= j < |d.scenarios| :: NamesComponent(audits, d.scenarios[j].omitted))
            && forall i, j | 0 <= i < j < |d.scenarios| ::
                 d.scenarios[i].omitted != d.scenarios[j].omitted && IdLeq(d.scenarios[i].omitted, d.scenarios[j].omitted)
  {
    hide Within, ScenarioOf, RankMap, RanksByCounting, ComponentNames, NamesComponent, Sorted, IdLeq;
    RankMapCounts(scores);
    var names, d := Sorted(ComponentNames(audits)), DiagnosticsOf(scores, audits, selected, count);
    SortedIsOrdered(ComponentNames(audits));
    SortedIsDistinct(ComponentNames(audits));
    forall j | 0 <= j < |names| ensures d.scenarios[j].omitted == names[j] && NamesComponent(audits, names[j]) {
      ScenarioName(scores, audits, selected, count, names[j]);
      assert names[j] in names;
      NamesAreComponents(audits, names[j]);
    }
    forall name | NamesComponent(audits, name) ensures ScenarioOf(scores, audits, selected, count, name) in d.scenarios {
      NamesAreComponents(audits, name);
      var j :| 0 <= j < |names| && names[j] == name;
      assert d.scenarios[j] == ScenarioOf(scores, audits, selected, count, name);
    }
  }

  lemma ScenarioName(scores: map<Id, real>, audits: map<Id, Audit>, selected: seq<Id>, count: int, name: Id)
    requires Within(selected, scores)
    ensures ScenarioOf(scores, audits, selected, count, name).omitted == name
  {
    hide Covered, Best, RankMap, S.Turnover, S.StabilityOf, MeanDelta;
  }
}
