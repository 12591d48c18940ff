/**
  What the folds of one run owe to each other: every fold is compared with the fold before it, and a callback
  never gives one audit identity two contents. Stated over the reports of completed runs.
 */
module RunContinuity {
  import opened Prelude
  import opened Ordering
  import opened Ranking
  import opened Records
  import opened Lifecycle
  import opened Stability
  import opened WalkForward
  import opened WalkForwardEngine
  import opened FoldGuarantees
  import opened NoLookahead
  import opened RunReport
  import opened Outcomes

  // ---- what a comparison with the previous fold says ----

  ghost predicate HasScore(scores: seq<Entry>, id: Id) {
    exists e :: e in scores && e.id == id
  }

  /** `ids` lists the strategies scored in both folds in identifier order, with their scores in `a` and in `b`. */
  ghost predicate CommonScores(prior: seq<Entry>, current: seq<Entry>, ids: seq<Id>, a: seq<real>, b: seq<real>) {
    && |a| == |b| == |ids| && Distinct(ids) && SortedBy(ids, IdLeq)
    && (forall id :: id in ids <==> HasScore(prior, id) && HasScore(current, id))
    && (forall i | 0 <= i < |ids| :: Entry(ids[i], a[i]) in prior && Entry(ids[i], b[i]) in current)
  }

  /** The metric correlates the scores of the strategies scored in both folds. */
  ghost predicate ComparesScores(prior: seq<Entry>, current: seq<Entry>, m: Metric) {
    exists ids, a, b :: CommonScores(prior, current, ids, a, b)
      && m == if |ids| < 2 then InsufficientOverlap(|ids|) else Spearman(a, b)
  }

  /** The metric is the Jaccard distance of the two selections: the share of their union they do not have in common. */
  ghost predicate ComparesSelections(prior: seq<Id>, current: seq<Id>, m: Metric) {
    var union, both := (set id | id in prior) + (set id | id in current), (set id | id in prior) * (set id | id in current);
    && m.Distance? && m.sampleSize == |union|
    && (if union == {} then m.value == 0.0 else m.value * |union| as real == (|union| - |both|) as real)
  }

  // ---- the scores a fold carries on ----

  lemma {:induction false} MapOfScores(scores: seq<Entry>)
    ensures forall id :: id in ScoreMap(scores) <==> HasScore(scores, id)
    ensures forall id | id in ScoreMap(scores) :: Entry(id, ScoreMap(scores)[id]) in scores
  {
    if scores != [] {
      var n := |scores| - 1;
      MapOfScores(scores[..n]);
      assert scores == scores[..n] + [scores[n]];
      forall id ensures id in ScoreMap(scores) <==> HasScore(scores, id) {
        if HasScore(scores[..n], id) {
          var e :| e in scores[..n] && e.id == id;
          assert e in scores;
        }
        assert scores[n] in scores;
      }
    }
  }

  lemma CommonListed(prior: seq<Entry>, current: seq<Entry>, ids: seq<Id>)
    requires Distinct(ids) && SortedBy(ids, IdLeq) && forall id :: id in ids <==> id in ScoreMap(prior) && id in ScoreMap(current)
    ensures CommonScores(prior, current, ids, ValuesOf(ScoreMap(prior), ids), ValuesOf(ScoreMap(current), ids))
  {
    MapOfScores(prior);
    MapOfScores(current);
    hide ScoreMap, HasScore, Distinct, SortedBy;
    forall i | 0 <= i < |ids|
      ensures Entry(ids[i], ScoreMap(prior)[ids[i]]) in prior && Entry(ids[i], ScoreMap(current)[ids[i]]) in current
    {
      assert ids[i] in ids;
    }
  }

  lemma CommonOfMaps(prior: seq<Entry>, current: seq<Entry>)
    ensures ComparesScores(prior, current, StabilityOf(Some(ScoreMap(prior)), ScoreMap(current)))
  {
    hide ScoreMap, Sorted, Spearman, CommonScores, Distinct, SortedBy;
    var p, c := ScoreMap(prior), ScoreMap(current);
    var ids := Sorted(p.Keys * c.Keys);
    SortedIsOrdered(p.Keys * c.Keys);
    SortedIsDistinct(p.Keys * c.Keys);
    CommonListed(prior, current, ids);
    assert CommonScores(prior, current, ids, ValuesOf(p, ids), ValuesOf(c, ids));
  }

  // ---- over a run ----

  lemma CarriedBy(inp: Input, scorer: Scorer, fold: Fold, p: Progress)
    requires RunFold(inp, scorer, fold, p).Ok?
    ensures var next := RunFold(inp, scorer, fold, p).value;
            var f := next.reports[|p.reports|];
            && next.previousScores == Some(ScoreMap(f.scores)) && next.previousSelection == Some(f.selected)
            && f.stability == StabilityOf(p.previousScores, ScoreMap(f.scores))
            && f.turnover == Turnover(p.previousSelection, f.selected)
  {
    hide Screen, StabilityOf, Turnover, ScoreMap, Select, SortBy, Sorted, EntryLeq;
  }

  lemma Carried(inp: Input, scorer: Scorer, n: nat)
    requires 0 < n <= |inp.folds| && RunTo(inp, scorer, n).Ok?
    ensures RunTo(inp, scorer, n - 1).Ok? && |RunTo(inp, scorer, n).value.reports| == n
    ensures var p, f := RunTo(inp, scorer, n).value, RunTo(inp, scorer, n).value.reports[n - 1];
            p.previousScores == Some(ScoreMap(f.scores)) && p.previousSelection == Some(f.selected)
  {
    hide RunFold, ScoreMap;
    RunAppends(inp, scorer, n - 1, n);
    RunAppends(inp, scorer, n - 1, n - 1);
    CarriedBy(inp, scorer, inp.folds[n - 1], RunTo(inp, scorer, n - 1).value);
  }

  /** Report `k` has no prior fold if it is the first, and is otherwise compared with report `k - 1`. */
  ghost predicate ComparedWithPrevious(reports: seq<Frozen>, k: nat)
    requires k < |reports|
  {
    var f := reports[k];
    if k == 0 then f.stability == InsufficientPriorFold && f.turnover == InsufficientPriorFold
    else ComparesScores(reports[k - 1].scores, f.scores, f.stability) && ComparesSelections(reports[k - 1].selected, f.selected, f.turnover)
  }

  lemma LastIsCompared(inp: Input, scorer: Scorer, n: nat)
    requires 0 < n <= |inp.folds| && RunTo(inp, scorer, n).Ok?
    ensures |RunTo(inp, scorer, n).value.reports| == n && ComparedWithPrevious(RunTo(inp, scorer, n).value.reports, n - 1)
  {
    hide RunFold, ScoreMap, ComparesScores, ComparesSelections, StabilityOf, Turnover;
    RunAppends(inp, scorer, n - 1, n);
    RunAppends(inp, scorer, n - 1, n - 1);
    var p, reports := RunTo(inp, scorer, n - 1).value, RunTo(inp, scorer, n).value.reports;
    CarriedBy(inp, scorer, inp.folds[n - 1], p);
    if n > 1 {
      Carried(inp, scorer, n - 1);
      assert reports[n - 2] == reports[..n - 1][n - 2] == p.reports[n - 2];
      CommonOfMaps(p.reports[n - 2].scores, reports[n - 1].scores);
      SelectionsCompared(p.reports[n - 2].selected, reports[n - 1].selected);
    } else {
      NoPrior(ScoreMap(reports[0].scores), reports[0].selected);
    }
  }

  lemma SelectionsCompared(prior: seq<Id>, current: seq<Id>)
    ensures ComparesSelections(prior, current, Turnover(Some(prior), current))
  {
    TurnoverMeaning(prior, current);
  }

  lemma NoPrior(scores: map<Id, real>, selected: seq<Id>)
    ensures StabilityOf(None, scores) == InsufficientPriorFold && Turnover(None, selected) == InsufficientPriorFold
  {
  }

  lemma {:induction false} EveryFoldIsCompared(inp: Input, scorer: Scorer, n: nat, k: nat)
    requires k < n <= |inp.folds| && RunTo(inp, scorer, n).Ok?
    ensures |RunTo(inp, scorer, n).value.reports| == n && ComparedWithPrevious(RunTo(inp, scorer, n).value.reports, k)
    decreases n
  {
    hide RunFold, ComparesScores, ComparesSelections;
    if k == n - 1 {
      LastIsCompared(inp, scorer, n);
    } else {
      RunAppends(inp, scorer, n - 1, n);
      EveryFoldIsCompared(inp, scorer, n - 1, k);
      var before, after := RunTo(inp, scorer, n - 1).value.reports, RunTo(inp, scorer, n).value.reports;
      assert after[k] == after[..n - 1][k] == before[k];
      assert k > 0 ==> after[k - 1] == after[..n - 1][k - 1] == before[k - 1];
    }
  }

  /** Over any completed run: the first report has no prior fold, and every later one is compared with the one before it. */
  lemma FoldsAreCompared(inp: Input, scorer: Scorer, r: WalkForwardReport, k: nat)
    requires Completes(inp, RunTo(inp, scorer, |inp.folds|), Ok(r)) && k < |r.folds|
    ensures k == 0 ==> r.folds[k].frozen.stability == InsufficientPriorFold && r.folds[k].frozen.turnover == InsufficientPriorFold
    ensures k > 0 ==> ComparesScores(r.folds[k - 1].frozen.scores, r.folds[k].frozen.scores, r.folds[k].frozen.stability)
    ensures k > 0 ==> ComparesSelections(r.folds[k - 1].frozen.selected, r.folds[k].frozen.selected, r.folds[k].frozen.turnover)
  {
    hide RunTo, ComparesScores, ComparesSelections, Summarizes;
    EveryFoldIsCompared(inp, scorer, |inp.folds|, k);
    FrozenOf(inp, RunTo(inp, scorer, |inp.folds|).value.reports, r.folds, k);
    if k > 0 {
      FrozenOf(inp, RunTo(inp, scorer, |inp.folds|).value.reports, r.folds, k - 1);
    }
  }

  lemma FrozenOf(inp: Input, frozen: seq<Frozen>, reports: seq<FoldReport>, k: nat)
    requires Delivers(inp, frozen, reports) && k < |reports|
    ensures k < |frozen| && reports[k].frozen == frozen[k]
  {
    assert DeliversFold(inp, inp.folds[k], frozen[k], reports[k]);
  }

  // ---- the summary's mean turnover ----

  lemma {:induction false} TurnoversFromSecond(folds: seq<FoldReport>)
    requires forall k | 0 <= k < |folds| :: folds[k].frozen.turnover.Distance? <==> k > 0
    ensures |Turnovers(folds)| == if folds == [] then 0 else |folds| - 1
    ensures forall k | 0 < k < |folds| :: Turnovers(folds)[k - 1] == folds[k].frozen.turnover.value
  {
    if folds != [] {
      var n := |folds| - 1;
      TurnoversFromSecond(folds[..n]);
      assert forall k | 0 < k < n :: folds[..n][k] == folds[k];
    }
  }

  function TurnoverTotal(folds: seq<FoldReport>): real {
    if folds == [] then 0.0
    else
      var turnover := folds[|folds| - 1].frozen.turnover;
      TurnoverTotal(folds[..|folds| - 1]) + (if turnover.Distance? then turnover.value else 0.0)
  }

  lemma {:induction false} TurnoversSum(folds: seq<FoldReport>)
    ensures Sum(Turnovers(folds)) == TurnoverTotal(folds)
  {
    if folds != [] {
      var n := |folds| - 1;
      TurnoversSum(folds[..n]);
      if folds[n].frozen.turnover.Distance? {
        assert Turnovers(folds)[..|Turnovers(folds)| - 1] == Turnovers(folds[..n]);
      } else {
        assert Turnovers(folds) == Turnovers(folds[..n]);
      }
    }
  }

  /** The mean over all folds but the first; a run of one fold has none. */
  ghost predicate AveragesTurnovers(s: Summary, folds: seq<FoldReport>) {
    && (s.meanTurnover.None? <==> |folds| <= 1)
    && (s.meanTurnover.Some? ==> |folds| >= 1 && Averages(s.meanTurnover.value, |folds| - 1, TurnoverTotal(folds)))
  }

  lemma SummaryAverages(s: Summary, folds: seq<FoldReport>)
    requires Summarizes(s, folds) && forall k | 0 <= k < |folds| :: folds[k].frozen.turnover.Distance? <==> k > 0
    ensures AveragesTurnovers(s, folds)
  {
    hide Sum, Mean, UncertaintyOf, WealthOf, Turnovers, TurnoverTotal, PooledRelative, PooledReturns;
    TurnoversFromSecond(folds);
    TurnoversSum(folds);
    var trough: nat :| SummaryOf(s, trough, folds);
    if Turnovers(folds) != [] {
      MeanTimesCount(Turnovers(folds));
    }
  }

  /** The summary of a completed run averages the turnovers of its folds. */
  lemma MeanTurnoverMeaning(inp: Input, scorer: Scorer, r: WalkForwardReport)
    requires Completes(inp, RunTo(inp, scorer, |inp.folds|), Ok(r))
    ensures AveragesTurnovers(r.summary, r.folds)
  {
    hide RunTo, ComparesScores, Summarizes, AveragesTurnovers, Delivers;
    forall k | 0 <= k < |r.folds| ensures r.folds[k].frozen.turnover.Distance? <==> k > 0 {
      FoldsAreCompared(inp, scorer, r, k);
    }
    SummaryAverages(r.summary, r.folds);
  }

  // ---- one audit identity, one content ----

  /** The fold recorded this audit for the strategy of the key. */
  ghost predicate Recorded(f: Frozen, key: AuditKey, audit: Audit) {
    key.strategy in f.audits && f.audits[key.strategy] == audit && KeyOf(key.strategy, audit) == key
  }

  /** The registry holds exactly the audits the reports so far recorded. */
  ghost predicate RegistryHolds(registry: Registry, reports: seq<Frozen>) {
    && (forall key | key in registry :: exists i :: 0 <= i < |reports| && Recorded(reports[i], key, registry[key]))
    && (forall i, key, audit | 0 <= i < |reports| && Recorded(reports[i], key, audit) :: key in registry && registry[key] == audit)
  }

  /** Every audit is registered under its own key. */
  ghost predicate AuditsRegistered(audits: map<Id, Audit>, registry: Registry) {
    forall sid | sid in audits :: KeyOf(sid, audits[sid]) in registry && registry[KeyOf(sid, audits[sid])] == audits[sid]
  }

  ghost predicate IsAuditOf(audits: map<Id, Audit>, key: AuditKey, audit: Audit) {
    key.strategy in audits && audits[key.strategy] == audit && KeyOf(key.strategy, audit) == key
  }

  /** Whatever is registered was registered before or is one of the audits. */
  ghost predicate NothingElse(before: Registry, audits: map<Id, Audit>, registry: Registry) {
    forall key | key in registry :: (key in before && before[key] == registry[key]) || IsAuditOf(audits, key, registry[key])
  }

  /** During a fold: what was registered before it, and the audits of the tally. */
  ghost predicate TallyRegistered(before: Registry, t: Tally) {
    && (forall key | key in before :: key in t.registry && t.registry[key] == before[key])
    && AuditsRegistered(t.audits, t.registry) && NothingElse(before, t.audits, t.registry)
  }

  lemma RegistryShape(t: Tally, sid: Id, v: Verdict)
    requires Collect(t, sid, v, true).Ok? && (v.Eligible? ==> KeyOf(sid, v.audit) !in t.trail)
    ensures var next := Collect(t, sid, v, true).value;
            if v.Eligible? then
              && next.audits == t.audits[sid := v.audit] && next.registry == t.registry[KeyOf(sid, v.audit) := v.audit]
              && (KeyOf(sid, v.audit) in t.registry ==> t.registry[KeyOf(sid, v.audit)] == v.audit)
            else next.audits == t.audits && next.registry == t.registry
  {
    hide KeyOf;
  }

  lemma OneMoreAudit(audits: map<Id, Audit>, registry: Registry, sid: Id, audit: Audit)
    requires AuditsRegistered(audits, registry) && sid !in audits
    ensures AuditsRegistered(audits[sid := audit], registry[KeyOf(sid, audit) := audit])
  {
  }

  lemma StillNothingElse(before: Registry, audits: map<Id, Audit>, registry: Registry, sid: Id, audit: Audit)
    requires NothingElse(before, audits, registry) && sid !in audits
    ensures NothingElse(before, audits[sid := audit], registry[KeyOf(sid, audit) := audit])
  {
    var after, more := registry[KeyOf(sid, audit) := audit], audits[sid := audit];
    forall key | key in after ensures (key in before && before[key] == after[key]) || IsAuditOf(more, key, after[key]) {
      if key == KeyOf(sid, audit) {
        assert IsAuditOf(more, key, audit);
      } else if IsAuditOf(audits, key, registry[key]) {
        assert IsAuditOf(more, key, after[key]);
      }
    }
  }

  lemma OneMoreRegistered(before: Registry, t: Tally, next: Tally, sid: Id, audit: Audit)
    requires TallyRegistered(before, t) && sid !in t.audits
    requires next.audits == t.audits[sid := audit] && next.registry == t.registry[KeyOf(sid, audit) := audit]
    requires KeyOf(sid, audit) in t.registry ==> t.registry[KeyOf(sid, audit)] == audit
    ensures TallyRegistered(before, next)
  {
    OneMoreAudit(t.audits, t.registry, sid, audit);
    StillNothingElse(before, t.audits, t.registry, sid, audit);
    hide KeyOf, AuditsRegistered, NothingElse;
  }

  lemma CollectRegisters(before: Registry, t: Tally, next: Tally, strategies: seq<Id>, sid: Id, v: Verdict)
    requires TallyRegistered(before, t) && Accounts(t, strategies) && TrailMatches(t) && sid !in strategies
    requires Collect(t, sid, v, true) == Ok(next)
    ensures TallyRegistered(before, next)
  {
    NotYetAudited(t, strategies, sid);
    if v.Eligible? {
      NotScoredBefore(t, strategies, sid, v.audit);
    }
    hide Accounts, Collect, KeyOf, TrailMatches;
    RegistryShape(t, sid, v);
    if v.Eligible? {
      hide TallyRegistered;
      OneMoreRegistered(before, t, next, sid, v.audit);
    }
  }

  lemma NotYetAudited(t: Tally, strategies: seq<Id>, sid: Id)
    requires Accounts(t, strategies) && sid !in strategies
    ensures sid !in t.audits
  {
    assert !ScoredIn(t, sid);
  }

  lemma {:induction false} ScreenRegisters(inp: Input, scorer: Scorer, fold: Fold, strategies: seq<Id>, before: Registry)
    requires scorer.Some? && AcceptedScores(inp) && Distinct(strategies)
    requires Screen(inp, scorer, fold, strategies, before).Ok?
    ensures TallyRegistered(before, Screen(inp, scorer, fold, strategies, before).value)
  {
    hide Judge, Collect, Accounts, PointInTime, TrailMatches, AcceptedScores, TallyRegistered;
    if strategies == [] {
      NothingRegistered(before);
    } else {
      var n := |strategies| - 1;
      assert strategies == strategies[..n] + [strategies[n]];
      ScreenRegisters(inp, scorer, fold, strategies[..n], before);
      ScreeningIsComplete(inp, scorer, fold, strategies[..n], before);
      CollectRegisters(before, Screen(inp, scorer, fold, strategies[..n], before).value, Screen(inp, scorer, fold, strategies, before).value,
                       strategies[..n], strategies[n], Judge(inp, scorer, strategies[n], fold));
    }
  }

  lemma NothingRegistered(before: Registry)
    ensures TallyRegistered(before, EmptyTally(before))
  {
  }

  lemma RegistryGrows(before: Registry, t: Tally, reports: seq<Frozen>, f: Frozen)
    requires RegistryHolds(before, reports) && TallyRegistered(before, t) && f.audits == t.audits
    ensures RegistryHolds(t.registry, reports + [f])
  {
    hide KeyOf;
    var all := reports + [f];
    forall key | key in t.registry ensures exists i :: 0 <= i < |all| && Recorded(all[i], key, t.registry[key]) {
      assert !(key in before && before[key] == t.registry[key]) ==> IsAuditOf(t.audits, key, t.registry[key]);
      if key in before && before[key] == t.registry[key] {
        var i :| 0 <= i < |reports| && Recorded(reports[i], key, before[key]);
        assert Recorded(all[i], key, t.registry[key]);
      } else {
        assert Recorded(all[|reports|], key, t.registry[key]);
      }
    }
    forall i, key, audit | 0 <= i < |all| && Recorded(all[i], key, audit) ensures key in t.registry && t.registry[key] == audit {
      if i < |reports| {
        assert Recorded(reports[i], key, audit);
      }
    }
  }

  lemma FoldRegisters(inp: Input, scorer: Scorer, fold: Fold, p: Progress)
    requires scorer.Some? && AcceptedScores(inp) && RegistryHolds(p.registry, p.reports) && RunFold(inp, scorer, fold, p).Ok?
    ensures RegistryHolds(RunFold(inp, scorer, fold, p).value.registry, RunFold(inp, scorer, fold, p).value.reports)
  {
    hide Screen, StabilityOf, Turnover, AcceptedScores, RegistryHolds, TallyRegistered, Select, SortBy, Sorted, EntryLeq, ScoreMap;
    var universe := Sorted(Universe(inp, fold.decision));
    SortedIsDistinct(Universe(inp, fold.decision));
    ScreenRegisters(inp, scorer, fold, universe, p.registry);
    var next := RunFold(inp, scorer, fold, p).value;
    RegistryGrows(p.registry, Screen(inp, scorer, fold, universe, p.registry).value, p.reports, next.reports[|p.reports|]);
  }

  lemma {:induction false} RunRegisters(inp: Input, scorer: Scorer, n: nat)
    requires scorer.Some? && AcceptedScores(inp) && n <= |inp.folds| && RunTo(inp, scorer, n).Ok?
    ensures RegistryHolds(RunTo(inp, scorer, n).value.registry, RunTo(inp, scorer, n).value.reports)
  {
    hide RunFold, AcceptedScores;
    if n > 0 {
      hide RegistryHolds;
      RunRegisters(inp, scorer, n - 1);
      FoldRegisters(inp, scorer, inp.folds[n - 1], RunTo(inp, scorer, n - 1).value);
    }
  }

  lemma SameIdentity(registry: Registry, reports: seq<Frozen>, i: nat, j: nat, sid: Id)
    requires RegistryHolds(registry, reports) && i < |reports| && j < |reports| && sid in reports[i].audits && sid in reports[j].audits
    requires KeyOf(sid, reports[i].audits[sid]) == KeyOf(sid, reports[j].audits[sid])
    ensures reports[i].audits[sid] == reports[j].audits[sid]
  {
    var a, b := reports[i].audits[sid], reports[j].audits[sid];
    assert KeyOf(sid, a).strategy == sid;
    hide KeyOf;
    assert Recorded(reports[i], KeyOf(sid, a), a) && Recorded(reports[j], KeyOf(sid, b), b);
  }

  /** With a callback, two audits of one strategy with one audit id and revision are equal, in whichever folds they were given. */
  lemma OneContentPerAudit(inp: Input, scorer: Scorer, r: WalkForwardReport, i: nat, j: nat, sid: Id)
    requires scorer.Some? && Accepted(inp, true) && Completes(inp, RunTo(inp, scorer, |inp.folds|), Ok(r))
    requires i < |r.folds| && j < |r.folds| && sid in r.folds[i].frozen.audits && sid in r.folds[j].frozen.audits
    requires r.folds[i].frozen.audits[sid].auditId == r.folds[j].frozen.audits[sid].auditId
    requires r.folds[i].frozen.audits[sid].stamp.revision == r.folds[j].frozen.audits[sid].stamp.revision
    ensures r.folds[i].frozen.audits[sid] == r.folds[j].frozen.audits[sid]
  {
    hide RunTo, Summarizes, Accepted, RegistryHolds, Delivers;
    ScoresAccepted(inp);
    RunRegisters(inp, scorer, |inp.folds|);
    var reports := RunTo(inp, scorer, |inp.folds|).value.reports;
    FrozenOf(inp, reports, r.folds, i);
    FrozenOf(inp, reports, r.folds, j);
    SameIdentity(RunTo(inp, scorer, |inp.folds|).value.registry, reports, i, j, sid);
  }

  lemma ScoresAccepted(inp: Input)
    requires Accepted(inp, true)
    ensures AcceptedScores(inp)
  {
    hide AcceptedScores;
  }

  /** The audit given for `sid` in the fold has the identity of an earlier audit of `sid` and other content. */
  ghost predicate Contradicts(inp: Input, scorer: Scorer, fold: Fold, reports: seq<Frozen>, sid: Id) {
    var v := Judge(inp, scorer, sid, fold);
    v.Eligible? && exists i, earlier :: 0 <= i < |reports| && Recorded(reports[i], KeyOf(sid, v.audit), earlier) && earlier != v.audit
  }

  lemma CollectConflict(before: Registry, reports: seq<Frozen>, inp: Input, scorer: Scorer, fold: Fold, t: Tally, strategies: seq<Id>, sid: Id)
    requires RegistryHolds(before, reports) && TallyRegistered(before, t) && Accounts(t, strategies) && TrailMatches(t) && sid !in strategies
    requires Collect(t, sid, Judge(inp, scorer, sid, fold), true) == Err(ScoreAuditConflict)
    requires Judge(inp, scorer, sid, fold) != Abort(ScoreAuditConflict)
    ensures Contradicts(inp, scorer, fold, reports, sid)
  {
    NotYetAudited(t, strategies, sid);
    hide Accounts, TrailMatches, Judge;
    var v := Judge(inp, scorer, sid, fold);
    var key := KeyOf(sid, v.audit);
    assert v.Eligible? && key in t.registry && t.registry[key] != v.audit;
    assert key in before && before[key] == t.registry[key];
    var i :| 0 <= i < |reports| && Recorded(reports[i], key, before[key]);
  }

  /** No verdict is itself a conflict; conflicts come from comparing audits. */
  lemma VerdictsDoNotConflict(inp: Input, scorer: Scorer, sid: Id, fold: Fold)
    ensures Judge(inp, scorer, sid, fold) != Abort(ScoreAuditConflict)
  {
    hide KnownSnapshots, KnownScores, KnownLifecycle, ResolveLifecycle, Tips, ByDomain, DomainConflict, EvidenceGap, CoversProviderTime, AsAudit;
  }

  lemma {:induction false} ScreenConflict(inp: Input, scorer: Scorer, fold: Fold, strategies: seq<Id>, before: Registry, reports: seq<Frozen>)
    returns (sid: Id)
    requires scorer.Some? && AcceptedScores(inp) && Distinct(strategies) && RegistryHolds(before, reports)
    requires Screen(inp, scorer, fold, strategies, before) == Err(ScoreAuditConflict)
    ensures sid in strategies && Contradicts(inp, scorer, fold, reports, sid)
  {
    hide Judge, Collect, Accounts, PointInTime, TrailMatches, AcceptedScores, TallyRegistered, RegistryHolds, Contradicts;
    var n := |strategies| - 1;
    assert strategies == strategies[..n] + [strategies[n]];
    if Screen(inp, scorer, fold, strategies[..n], before).Err? {
      sid := ScreenConflict(inp, scorer, fold, strategies[..n], before, reports);
    } else {
      sid := strategies[n];
      var t := Screen(inp, scorer, fold, strategies[..n], before).value;
      ScreenRegisters(inp, scorer, fold, strategies[..n], before);
      ScreeningIsComplete(inp, scorer, fold, strategies[..n], before);
      VerdictsDoNotConflict(inp, scorer, sid, fold);
      CollectConflict(before, reports, inp, scorer, fold, t, strategies[..n], sid);
    }
  }

  lemma FoldConflict(inp: Input, scorer: Scorer, fold: Fold, p: Progress)
    requires RunFold(inp, scorer, fold, p) == Err(ScoreAuditConflict)
    ensures Screen(inp, scorer, fold, Sorted(Universe(inp, fold.decision)), p.registry) == Err(ScoreAuditConflict)
  {
    hide Screen, Sorted, Universe, StabilityOf, Turnover, Select, SortBy, ScoreMap, EntryLeq;
  }

  /** A callback run is aborted for an audit conflict only when some strategy's audit contradicts one of an earlier fold. */
  lemma {:induction false} ConflictMeaning(inp: Input, scorer: Scorer, n: nat) returns (k: nat, sid: Id)
    requires scorer.Some? && AcceptedScores(inp) && n <= |inp.folds| && RunTo(inp, scorer, n) == Err(ScoreAuditConflict)
    ensures k < n && RunTo(inp, scorer, k).Ok? && Contradicts(inp, scorer, inp.folds[k], RunTo(inp, scorer, k).value.reports, sid)
  {
    hide AcceptedScores, Screen, Contradicts, RegistryHolds, Sorted, Universe, RunFold;
    if RunTo(inp, scorer, n - 1).Err? {
      k, sid := ConflictMeaning(inp, scorer, n - 1);
    } else {
      k := n - 1;
      var p, universe := RunTo(inp, scorer, k).value, Sorted(Universe(inp, inp.folds[k].decision));
      RunRegisters(inp, scorer, k);
      SortedIsDistinct(Universe(inp, inp.folds[k].decision));
      FoldConflict(inp, scorer, inp.folds[k], p);
      sid := ScreenConflict(inp, scorer, inp.folds[k], universe, p.registry, p.reports);
    }
  }

  // ---- precomputed scores never conflict ----

  lemma {:induction false} ScreenWithoutCallback(inp: Input, fold: Fold, strategies: seq<Id>, registry: Registry)
    ensures Screen(inp, None, fold, strategies, registry) != Err(ScoreAuditConflict)
  {
    hide Judge;
    if strategies != [] {
      ScreenWithoutCallback(inp, fold, strategies[..|strategies| - 1], registry);
      VerdictsDoNotConflict(inp, None, strategies[|strategies| - 1], fold);
    }
  }

  lemma {:induction false} PrecomputedNeverConflict(inp: Input, n: nat)
    requires n <= |inp.folds|
    ensures RunTo(inp, None, n) != Err(ScoreAuditConflict)
  {
    hide Screen, Sorted, Universe, RunFold;
    if n > 0 {
      PrecomputedNeverConflict(inp, n - 1);
      if RunTo(inp, None, n) == Err(ScoreAuditConflict) {
        FoldConflict(inp, None, inp.folds[n - 1], RunTo(inp, None, n - 1).value);
        ScreenWithoutCallback(inp, inp.folds[n - 1], Sorted(Universe(inp, inp.folds[n - 1].decision)), RunTo(inp, None, n - 1).value.registry);
      }
    }
  }

  // ---- why a run is aborted ----

  lemma {:induction false} ScreenAborts(inp: Input, scorer: Scorer, fold: Fold, strategies: seq<Id>, registry: Registry) returns (sid: Id)
    requires Screen(inp, scorer, fold, strategies, registry).Err?
    ensures sid in strategies
    ensures var e := Screen(inp, scorer, fold, strategies, registry).error;
            Judge(inp, scorer, sid, fold) == Abort(e) || (e == ScoreAuditConflict && Judge(inp, scorer, sid, fold).Eligible?)
  {
    hide Judge;
    var n := |strategies| - 1;
    if Screen(inp, scorer, fold, strategies[..n], registry).Err? {
      sid := ScreenAborts(inp, scorer, fold, strategies[..n], registry);
    } else {
      sid := strategies[n];
    }
  }

  lemma FoldFails(inp: Input, scorer: Scorer, fold: Fold, p: Progress)
    ensures var r, universe := RunFold(inp, scorer, fold, p), Sorted(Universe(inp, fold.decision));
            && (universe == [] ==> r == Err(EmptyUniverse))
            && (r.Err? && universe != [] ==> Screen(inp, scorer, fold, universe, p.registry) == Err(r.error))
  {
    hide Screen, Sorted, Universe, StabilityOf, Turnover, Select, SortBy, ScoreMap, EntryLeq;
  }

  lemma UniverseMeaning(inp: Input, decision: int)
    ensures Sorted(Universe(inp, decision)) == [] <==> forall c | c in inp.candidates :: decision < c.inception
    ensures forall sid | sid in Sorted(Universe(inp, decision)) :: exists c :: c in inp.candidates && c.strategy == sid && c.inception <= decision
  {
    hide Sorted;
    SortedIsOrdered(Universe(inp, decision));
    if c :| c in inp.candidates && c.inception <= decision {
      assert c.strategy in Universe(inp, decision);
    }
  }

  /**
    A run is aborted at its first fold that no candidate had begun by, or in which some strategy's verdict ends the run
    or its audit contradicts an earlier one.
   */
  lemma {:induction false} AbortMeaning(inp: Input, scorer: Scorer, n: nat) returns (k: nat)
    requires n <= |inp.folds| && RunTo(inp, scorer, n).Err?
    ensures k < n && RunTo(inp, scorer, k).Ok?
    ensures var e, fold := RunTo(inp, scorer, n).error, inp.folds[k];
            if forall c | c in inp.candidates :: fold.decision < c.inception then e == EmptyUniverse
            else exists c :: c in inp.candidates && c.inception <= fold.decision
                   && (Judge(inp, scorer, c.strategy, fold) == Abort(e) || (e == ScoreAuditConflict && Judge(inp, scorer, c.strategy, fold).Eligible?))
  {
    hide RunFold, Judge, Screen, Sorted, Universe;
    if RunTo(inp, scorer, n - 1).Err? {
      k := AbortMeaning(inp, scorer, n - 1);
    } else {
      k := n - 1;
      var fold, p := inp.folds[k], RunTo(inp, scorer, k).value;
      FoldFails(inp, scorer, fold, p);
      UniverseMeaning(inp, fold.decision);
      if Sorted(Universe(inp, fold.decision)) != [] {
        var sid := ScreenAborts(inp, scorer, fold, Sorted(Universe(inp, fold.decision)), p.registry);
        var c :| c in inp.candidates && c.strategy == sid && c.inception <= fold.decision;
      }
    }
  }

  // ---- what the audit trails hold ----

  /** The trail of a fold is what had been published and learned by the decision, and was in force at it, of its active strategies. */
  lemma TrailMeaning(inp: Input, universe: seq<Id>, decision: int)
    ensures forall s: Snapshot :: s in SnapshotTrail(inp, universe, decision) <==>
              && s in inp.snapshots && s.key.strategy in universe
              && ResolveLifecycle(KnownLifecycle(inp, s.key.strategy, decision)) == Some(Active)
              && s.key.range.from <= decision && (s.key.range.to.Some? ==> decision < s.key.range.to.value)
              && s.stamp.published <= decision && s.stamp.knowledge <= decision
    ensures forall sid, r: Interval :: (sid, r) in LifecycleTrail(inp, universe, decision) <==>
              && sid in universe && (exists c :: c in inp.candidates && c.strategy == sid && r in c.lifecycle)
              && r.stamp.published <= decision && r.stamp.knowledge <= decision
  {
    hide ResolveLifecycle, KnownLifecycle;
  }
}
