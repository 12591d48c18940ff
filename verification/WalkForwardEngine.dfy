/**
  `_validate_inputs` and `run_walk_forward` of src/openfundscore/walk_forward.py as the loops they
  are, proved to accept exactly the accepted inputs and to produce exactly the specified run.
 */
module WalkForwardEngine {
  import opened Prelude
  import opened Ordering
  import opened Revisions
  import opened Records
  import opened Lifecycle
  import opened Ranking
  import opened Stability
  import opened WalkForward
  import opened Outcomes
  import opened Sensitivity
  import opened RunReport

  // ---- validation ----

  method ValidateCandidates(cs: seq<Candidate>) returns (ok: bool)
    ensures ok <==> AcceptedCandidates(cs)
  {
    if cs == [] || |cs| > MAX_INPUT_ITEMS {
      return false;
    }
    for i := 0 to |cs|
      invariant forall j | 0 <= j < i :: AcceptedLifecycle(cs[j].lifecycle)
    {
      var verdict := ValidateCandidateLifecycle(cs[i].lifecycle);
      if verdict.Err? {
        return false;
      }
    }
    return (forall i, j | 0 <= i < j < |cs| :: cs[i].share != cs[j].share)
        && (forall i, j | 0 <= i < |cs| && 0 <= j < |cs| && cs[i].strategy == cs[j].strategy
              :: cs[i].inception == cs[j].inception && cs[i].lifecycle == cs[j].lifecycle);
  }

  method ValidateSnapshots(inp: Input) returns (ok: bool)
    ensures ok <==> AcceptedSnapshots(inp)
  {
    if |inp.snapshots| > MAX_INPUT_ITEMS
       || !(forall i | 0 <= i < |inp.snapshots| :: ValidSnapshot(inp.snapshots[i]) && KnownStrategy(inp.candidates, inp.snapshots[i].key.strategy))
       || !(forall i, j | 0 <= i < j < |inp.snapshots| :: inp.snapshots[i].body.id != inp.snapshots[j].body.id)
    {
      return false;
    }
    var groups := ValidateRevisionGroups(inp.snapshots);
    return groups.Ok?;
  }

  method ValidateScores(inp: Input) returns (ok: bool)
    ensures ok <==> AcceptedScores(inp)
  {
    if |inp.scores| > MAX_INPUT_ITEMS
       || !(forall i | 0 <= i < |inp.scores| :: ValidScore(inp.scores[i]) && KnownStrategy(inp.candidates, inp.scores[i].key.strategy))
       || !(forall i, j | 0 <= i < j < |inp.scores| :: inp.scores[i].body.id != inp.scores[j].body.id)
    {
      return false;
    }
    var groups := ValidateRevisionGroups(inp.scores);
    return groups.Ok?;
  }

  method ValidateInputs(inp: Input, callback: bool) returns (ok: bool)
    ensures ok <==> Accepted(inp, callback)
  {
    hide AcceptedFolds, AcceptedCandidates, AcceptedOutcomes, AcceptedSnapshots, AcceptedScores;
    if !AcceptedFolds(inp.folds, inp.selectCount) {
      return false;
    }
    var candidates := ValidateCandidates(inp.candidates);
    if !candidates || callback != (inp.scores == []) || !AcceptedOutcomes(inp) {
      return false;
    }
    var snapshots := ValidateSnapshots(inp);
    var scores := ValidateScores(inp);
    return snapshots && scores;
  }

  // ---- one strategy ----

  /** The records of one collection that belong to the strategy, are in force and are known. */
  method SeenRecords<K(==, !new), V(==, !new)>(records: seq<Record<K, V>>, want: K -> bool, decision: int)
    returns (seen: seq<Record<K, V>>)
    requires Distinct(records)
    ensures Distinct(seen)
    ensures (set r | r in seen) == Visible(records, want, decision)
  {
    seen := [];
    for i := 0 to |records|
      invariant Distinct(seen)
      invariant forall r :: r in seen <==> r in records[..i] && want(r.key) && KnownBy(r.stamp, decision)
    {
      assert records[..i + 1] == records[..i] + [records[i]];
      assert records[i] !in records[..i];
      if KnownBy(records[i].stamp, decision) && want(records[i].key) {
        seen := seen + [records[i]];
      }
    }
    assert records[..|records|] == records;
  }

  /** `grouped` with its conflict test: one snapshot a domain, or `None`. */
  method GroupByDomain(tips: seq<Snapshot>, ghost all: set<Snapshot>) returns (resolved: Option<map<Domain, Snapshot>>)
    requires Distinct(tips) && forall t :: t in tips <==> t in all
    ensures resolved.None? <==> DomainConflict(all)
    ensures resolved.Some? ==> resolved.value == ByDomain(all)
  {
    var grouped: map<Domain, Snapshot> := map[];
    for i := 0 to |tips|
      invariant forall j | 0 <= j < i :: tips[j].key.domain in grouped && grouped[tips[j].key.domain] == tips[j]
      invariant forall d | d in grouped :: grouped[d] in all && grouped[d].key.domain == d
    {
      assert tips[i] in tips;
      if tips[i].key.domain in grouped {
        var other := grouped[tips[i].key.domain];
        assert other in tips;
        if other != tips[i] {
          return None;
        }
      }
      grouped := grouped[tips[i].key.domain := tips[i]];
    }
    forall s, t | s in all && t in all && s.key.domain == t.key.domain ensures s == t {
      var i :| 0 <= i < |tips| && tips[i] == s;
      var j :| 0 <= j < |tips| && tips[j] == t;
    }
    forall s | s in all ensures s.key.domain in grouped && grouped[s.key.domain] == s {
      var i :| 0 <= i < |tips| && tips[i] == s;
    }
    assert grouped == ByDomain(all);
    return Some(grouped);
  }

  method ScoreFromSource(inp: Input, scorer: Scorer, sid: Id, fold: Fold, resolved: map<Domain, Snapshot>) returns (v: Verdict)
    requires Distinct(inp.scores) && EvidenceGap(resolved).None?
    ensures v == JudgeScoreSource(inp, scorer, sid, fold, resolved)
  {
    if scorer.Some? {
      return JudgeReply(scorer.value(View(sid, fold.decision, fold, resolved)), sid, fold.decision, resolved);
    }
    var seen := SeenRecords(inp.scores, (k: ScoreKey) => k.strategy == sid && Covers(k.range, fold.decision), fold.decision);
    var matching := ResolveRevisions(seen);
    ghost var tips := Tips(KnownScores(inp, sid, fold.decision));
    assert forall s :: s in matching <==> s in tips;
    if |matching| != 1 {
      if matching == [] {
        assert tips == {};
        return Ineligible(ScoreMissing);
      }
      assert matching[0] in tips && matching[1] in tips && matching[0] != matching[1];
      return Ineligible(ScoreConflict);
    }
    assert matching[0] in tips;
    assert tips == {matching[0]};
    return JudgeAudit(AsAudit(matching[0]), resolved);
  }

  method JudgeActiveStrategy(inp: Input, scorer: Scorer, sid: Id, fold: Fold) returns (v: Verdict)
    requires Distinct(inp.snapshots) && Distinct(inp.scores)
    ensures v == JudgeActive(inp, scorer, sid, fold)
  {
    var available := SeenRecords(inp.snapshots, (k: SnapshotKey) => k.strategy == sid && Covers(k.range, fold.decision), fold.decision);
    var tips := ResolveRevisions(available);
    var grouped := GroupByDomain(tips, Tips(KnownSnapshots(inp, sid, fold.decision)));
    if grouped.None? {
      return Ineligible(SnapshotConflict);
    }
    var gap := EvidenceGap(grouped.value);
    if gap.Some? {
      return Ineligible(gap.value);
    }
    v := ScoreFromSource(inp, scorer, sid, fold, grouped.value);
  }

  method JudgeStrategy(inp: Input, scorer: Scorer, representative: Candidate, fold: Fold) returns (v: Verdict)
    requires AcceptedCandidates(inp.candidates) && representative in inp.candidates
    requires Distinct(inp.snapshots) && Distinct(inp.scores)
    ensures v == Judge(inp, scorer, representative.strategy, fold)
  {
    RepresentativeLifecycle(inp, representative, fold.decision);
    var lifecycle := LifecycleAt(representative.lifecycle, fold.decision);
    if lifecycle.None? {
      return Ineligible(LifecycleUnknown);
    }
    if lifecycle.value != Active {
      return Ineligible(TerminalLifecycle);
    }
    v := JudgeActiveStrategy(inp, scorer, representative.strategy, fold);
  }

  /** Share classes of one strategy carry one lifecycle, so the representative's is the strategy's. */
  lemma RepresentativeLifecycle(inp: Input, c: Candidate, decision: int)
    requires AcceptedCandidates(inp.candidates) && c in inp.candidates
    ensures CoveringKnown(c.lifecycle, decision) == KnownLifecycle(inp, c.strategy, decision)
    ensures Distinct(c.lifecycle)
  {
    var i :| 0 <= i < |inp.candidates| && inp.candidates[i] == c;
    assert AcceptedLifecycle(inp.candidates[i].lifecycle);
    forall r | r in KnownLifecycle(inp, c.strategy, decision) ensures r in c.lifecycle {
      var other :| other in inp.candidates && other.strategy == c.strategy && r in other.lifecycle;
      var j :| 0 <= j < |inp.candidates| && inp.candidates[j] == other;
      assert inp.candidates[i].lifecycle == inp.candidates[j].lifecycle;
    }
  }

  // ---- representatives ----

  ghost predicate Represents(inp: Input, reps: map<Id, Candidate>) {
    && (forall sid :: sid in reps <==> exists c :: c in inp.candidates && c.strategy == sid)
    && (forall sid | sid in reps :: reps[sid] in inp.candidates && reps[sid].strategy == sid)
    && (forall sid, c | sid in reps && c in inp.candidates && c.strategy == sid :: IdLeq(reps[sid].share, c.share))
  }

  /** The share class with the least identifier stands for its strategy. */
  method Representatives(inp: Input) returns (reps: map<Id, Candidate>)
    ensures Represents(inp, reps)
  {
    IdOrder();
    reps := map[];
    for i := 0 to |inp.candidates|
      invariant forall sid :: sid in reps <==> exists c :: c in inp.candidates[..i] && c.strategy == sid
      invariant forall sid | sid in reps :: reps[sid] in inp.candidates && reps[sid].strategy == sid
      invariant forall sid, c | sid in reps && c in inp.candidates[..i] && c.strategy == sid :: IdLeq(reps[sid].share, c.share)
    {
      var c := inp.candidates[i];
      assert inp.candidates[..i + 1] == inp.candidates[..i] + [c];
      if c.strategy !in reps || !IdLeq(reps[c.strategy].share, c.share) {
        reps := reps[c.strategy := c];
      }
    }
    assert inp.candidates[..|inp.candidates|] == inp.candidates;
  }

  lemma UniverseByRepresentative(inp: Input, reps: map<Id, Candidate>, decision: int)
    requires AcceptedCandidates(inp.candidates) && Represents(inp, reps)
    ensures (set sid | sid in reps && reps[sid].inception <= decision) == Universe(inp, decision)
  {
    forall sid | sid in Universe(inp, decision) ensures sid in reps && reps[sid].inception <= decision {
      var c :| c in inp.candidates && c.inception <= decision && c.strategy == sid;
      var i :| 0 <= i < |inp.candidates| && inp.candidates[i] == c;
      var j :| 0 <= j < |inp.candidates| && inp.candidates[j] == reps[sid];
      assert inp.candidates[i].inception == inp.candidates[j].inception;
    }
  }

  // ---- folds and the run ----

  method ScreenFold(inp: Input, scorer: Scorer, fold: Fold, reps: map<Id, Candidate>, strategies: seq<Id>, registry: Registry)
    returns (r: Result<Tally, RunError>)
    requires AcceptedCandidates(inp.candidates) && Represents(inp, reps)
    requires Distinct(inp.snapshots) && Distinct(inp.scores)
    requires forall sid | sid in strategies :: sid in reps
    ensures r == Screen(inp, scorer, fold, strategies, registry)
  {
    hide Judge, Collect;
    var t := EmptyTally(registry);
    for i := 0 to |strategies|
      invariant Screen(inp, scorer, fold, strategies[..i], registry) == Ok(t)
    {
      assert strategies[..i + 1][..i] == strategies[..i];
      var v := JudgeStrategy(inp, scorer, reps[strategies[i]], fold);
      var next := Collect(t, strategies[i], v, scorer.Some?);
      if next.Err? {
        AbortSticks(inp, scorer, fold, strategies, i + 1, registry);
        return next;
      }
      t := next.value;
    }
    assert strategies[..|strategies|] == strategies;
    return Ok(t);
  }

  lemma {:induction false} AbortSticks(inp: Input, scorer: Scorer, fold: Fold, strategies: seq<Id>, n: nat, registry: Registry)
    requires n <= |strategies| && Screen(inp, scorer, fold, strategies[..n], registry).Err?
    ensures Screen(inp, scorer, fold, strategies, registry) == Screen(inp, scorer, fold, strategies[..n], registry)
    decreases |strategies|
  {
    hide Judge, Collect;
    if n < |strategies| {
      var k := |strategies| - 1;
      assert strategies[..k][..n] == strategies[..n];
      AbortSticks(inp, scorer, fold, strategies[..k], n, registry);
    } else {
      assert strategies[..n] == strategies;
    }
  }

  method RunOneFold(inp: Input, scorer: Scorer, fold: Fold, reps: map<Id, Candidate>, p: Progress)
    returns (r: Result<Progress, RunError>)
    requires AcceptedCandidates(inp.candidates) && Represents(inp, reps)
    requires Distinct(inp.snapshots) && Distinct(inp.scores)
    ensures r == RunFold(inp, scorer, fold, p)
  {
    hide AcceptedCandidates, Represents, Screen, StabilityOf;
    UniverseByRepresentative(inp, reps, fold.decision);
    var universe := SortSet(set sid | sid in reps && reps[sid].inception <= fold.decision);
    if universe == [] {
      return Err(EmptyUniverse);
    }
    var screened := ScreenFold(inp, scorer, fold, reps, universe, p.registry);
    if screened.Err? {
      return Err(screened.error);
    }
    var t := screened.value;
    var scores := SortBy(t.scores, EntryLeq);
    var selected := Select(t.scores, inp.selectCount);
    var current := ScoreMap(scores);
    var stability := ScoreStability(p.previousScores, current);
    var report := Frozen(fold, universe, scores, selected, t.audits, t.resolved, t.failures, t.terminal,
                         stability, Turnover(p.previousSelection, selected));
    return Ok(Progress(p.reports + [report], Some(current), Some(selected), t.registry));
  }

  /** Each report carries the fold's frozen part, its audit trails, the diagnostics and an evaluation of the frozen selection. */
  ghost predicate Delivers(inp: Input, frozen: seq<Frozen>, reports: seq<FoldReport>) {
    && |reports| == |frozen| <= |inp.folds|
    && forall i | 0 <= i < |reports| :: DeliversFold(inp, inp.folds[i], frozen[i], reports[i])
  }

  ghost predicate DeliversFold(inp: Input, fold: Fold, frozen: Frozen, report: FoldReport) {
    && report.frozen == frozen
    && report.snapshots == SnapshotTrail(inp, frozen.universe, fold.decision)
    && report.lifecycles == LifecycleTrail(inp, frozen.universe, fold.decision)
    && Within(frozen.selected, ScoreMap(frozen.scores))
    && report.sensitivity == DiagnosticsOf(ScoreMap(frozen.scores), frozen.audits, frozen.selected, inp.selectCount)
    && Evaluates(report.outcome, fold, frozen.selected, inp.outcomes)
  }

  /** The result of a run: the specified error, or one report a fold for the specified reports. */
  ghost predicate Realises(inp: Input, run: Result<Progress, RunError>, r: Result<seq<FoldReport>, RunError>) {
    match run
    case Err(e) => r == Err(e)
    case Ok(p) => r.Ok? && |p.reports| == |inp.folds| && Delivers(inp, p.reports, r.value)
  }

  lemma DeliversMore(inp: Input, frozen: seq<Frozen>, more: seq<Frozen>, reports: seq<FoldReport>, report: FoldReport)
    requires Delivers(inp, frozen, reports) && |more| == |frozen| + 1 <= |inp.folds|
    requires forall i | 0 <= i < |frozen| :: more[i] == frozen[i]
    requires DeliversFold(inp, inp.folds[|frozen|], more[|frozen|], report)
    ensures Delivers(inp, more, reports + [report])
  {
    hide DeliversFold;
  }

  /** Selected strategies are among the scored ones, so the diagnostics always have a score for each. */
  lemma SelectedAreScored(scores: seq<Entry>, count: int)
    ensures Within(Select(scores, count), ScoreMap(SortBy(scores, EntryLeq)))
  {
    hide SortBy, EntryLeq;
    ScoreMapKeys(SortBy(scores, EntryLeq));
  }

  lemma {:induction false} ScoreMapKeys(scores: seq<Entry>)
    ensures forall i | 0 <= i < |scores| :: scores[i].id in ScoreMap(scores)
  {
    if scores != [] {
      var n := |scores| - 1;
      ScoreMapKeys(scores[..n]);
      assert forall i | 0 <= i < n :: scores[..n][i] == scores[i];
    }
  }

  lemma FrozenSelection(inp: Input, scorer: Scorer, fold: Fold, p: Progress)
    requires RunFold(inp, scorer, fold, p).Ok?
    ensures var f := RunFold(inp, scorer, fold, p).value.reports[|p.reports|];
            Within(f.selected, ScoreMap(f.scores)) && f.universe == Sorted(Universe(inp, fold.decision))
  {
    hide Screen, StabilityOf, Turnover, ScoreMap, Within, Select, SortBy, EntryLeq, Sorted;
    SelectedAreScored(Screen(inp, scorer, fold, Sorted(Universe(inp, fold.decision)), p.registry).value.scores, inp.selectCount);
  }

  // ---- audit trails ----

  /** One strategy's part of the two audit trails. */
  method TrailOf(inp: Input, representative: Candidate, decision: int) returns (snapshots: set<Snapshot>, lifecycles: set<(Id, Interval)>)
    requires AcceptedCandidates(inp.candidates) && representative in inp.candidates && Distinct(inp.snapshots)
    ensures snapshots == SnapshotTrail(inp, [representative.strategy], decision)
    ensures lifecycles == LifecycleTrail(inp, [representative.strategy], decision)
  {
    hide AcceptedCandidates, Distinct;
    lifecycles := set r | r in representative.lifecycle && KnownBy(r.stamp, decision) :: (representative.strategy, r);
    RepresentativeTrail(inp, representative, decision);
    RepresentativeLifecycle(inp, representative, decision);
    snapshots := {};
    var status := LifecycleAt(representative.lifecycle, decision);
    if status == Some(Active) {
      var known := SeenRecords(inp.snapshots, (k: SnapshotKey) => k.strategy == representative.strategy && Covers(k.range, decision), decision);
      snapshots := set s | s in known;
    }
  }

  lemma RepresentativeTrail(inp: Input, c: Candidate, decision: int)
    requires AcceptedCandidates(inp.candidates) && c in inp.candidates
    ensures LifecycleTrail(inp, [c.strategy], decision) == set r | r in c.lifecycle && KnownBy(r.stamp, decision) :: (c.strategy, r)
  {
    hide AcceptedLifecycle;
    var i :| 0 <= i < |inp.candidates| && inp.candidates[i] == c;
    forall other | other in inp.candidates && other.strategy == c.strategy ensures other.lifecycle == c.lifecycle {
      var j :| 0 <= j < |inp.candidates| && inp.candidates[j] == other;
      assert inp.candidates[i].lifecycle == inp.candidates[j].lifecycle;
    }
    assert c.strategy in [c.strategy];
  }

  method CollectTrails(inp: Input, reps: map<Id, Candidate>, universe: seq<Id>, decision: int)
    returns (snapshots: set<Snapshot>, lifecycles: set<(Id, Interval)>)
    requires AcceptedCandidates(inp.candidates) && Represents(inp, reps) && Distinct(inp.snapshots)
    requires forall sid | sid in universe :: sid in reps
    ensures snapshots == SnapshotTrail(inp, universe, decision)
    ensures lifecycles == LifecycleTrail(inp, universe, decision)
  {
    hide AcceptedCandidates, Distinct, SnapshotTrail, LifecycleTrail;
    snapshots, lifecycles := {}, {};
    NoTrails(inp, decision);
    for i := 0 to |universe|
      invariant snapshots == SnapshotTrail(inp, universe[..i], decision)
      invariant lifecycles == LifecycleTrail(inp, universe[..i], decision)
    {
      var one, intervals := TrailOf(inp, reps[universe[i]], decision);
      TrailsAdd(inp, universe[..i], universe[i], decision);
      assert universe[..i + 1] == universe[..i] + [universe[i]];
      snapshots, lifecycles := snapshots + one, lifecycles + intervals;
    }
    assert universe[..|universe|] == universe;
  }

  lemma NoTrails(inp: Input, decision: int)
    ensures SnapshotTrail(inp, [], decision) == {} && LifecycleTrail(inp, [], decision) == {}
  {
  }

  lemma TrailsAdd(inp: Input, universe: seq<Id>, sid: Id, decision: int)
    ensures SnapshotTrail(inp, universe + [sid], decision) == SnapshotTrail(inp, universe, decision) + SnapshotTrail(inp, [sid], decision)
    ensures LifecycleTrail(inp, universe + [sid], decision) == LifecycleTrail(inp, universe, decision) + LifecycleTrail(inp, [sid], decision)
  {
    hide ActiveAt;
    assert forall x :: x in universe + [sid] <==> x in universe || x in [sid];
  }

  /** What is added to a frozen part before it is delivered. */
  method CompleteReport(inp: Input, reps: map<Id, Candidate>, fold: Fold, frozen: Frozen) returns (report: FoldReport)
    requires AcceptedCandidates(inp.candidates) && Represents(inp, reps) && Distinct(inp.snapshots)
    requires forall sid | sid in frozen.universe :: sid in reps
    requires Within(frozen.selected, ScoreMap(frozen.scores))
    ensures DeliversFold(inp, fold, frozen, report)
  {
    hide AcceptedCandidates, Represents, Distinct, Within, ScoreMap, SnapshotTrail, LifecycleTrail, Evaluates;
    var snapshots, lifecycles := CollectTrails(inp, reps, frozen.universe, fold.decision);
    var sensitivity := SensitivityDiagnostics(ScoreMap(frozen.scores), frozen.audits, frozen.selected, inp.selectCount);
    var outcome := EvaluateOutcomes(fold, frozen.selected, inp.outcomes);
    report := FoldReport(frozen, snapshots, lifecycles, sensitivity, outcome);
  }

  method RunFolds(inp: Input, scorer: Scorer, reps: map<Id, Candidate>) returns (r: Result<seq<FoldReport>, RunError>)
    requires AcceptedCandidates(inp.candidates) && Represents(inp, reps)
    requires Distinct(inp.snapshots) && Distinct(inp.scores)
    ensures Realises(inp, RunTo(inp, scorer, |inp.folds|), r)
  {
    hide RunFold, DeliversFold, AcceptedCandidates, Represents, Delivers, Within, Universe, ScoreMap;
    var p := Progress([], None, None, map[]);
    var reports: seq<FoldReport> := [];
    assert Delivers(inp, p.reports, reports) by { NothingYet(inp); }
    for n := 0 to |inp.folds|
      invariant RunTo(inp, scorer, n) == Ok(p) && |p.reports| == n
      invariant Delivers(inp, p.reports, reports)
    {
      var next := RunOneFold(inp, scorer, inp.folds[n], reps, p);
      if next.Err? {
        RunAborts(inp, scorer, n + 1, |inp.folds|);
        return Err(next.error);
      }
      FoldAppendsOne(inp, scorer, inp.folds[n], p);
      FrozenSelection(inp, scorer, inp.folds[n], p);
      UniverseIsRepresented(inp, reps, inp.folds[n].decision);
      var report := CompleteReport(inp, reps, inp.folds[n], next.value.reports[n]);
      DeliversMore(inp, p.reports, next.value.reports, reports, report);
      reports := reports + [report];
      p := next.value;
    }
    return Ok(reports);
  }

  lemma UniverseIsRepresented(inp: Input, reps: map<Id, Candidate>, decision: int)
    requires AcceptedCandidates(inp.candidates) && Represents(inp, reps)
    ensures forall sid | sid in Sorted(Universe(inp, decision)) :: sid in reps
  {
    hide Sorted, AcceptedCandidates;
    SortedIsOrdered(Universe(inp, decision));
    UniverseByRepresentative(inp, reps, decision);
  }

  lemma NothingYet(inp: Input)
    ensures Delivers(inp, [], [])
  {
  }

  /** The report of a run: what the fold loop realises, with a summary of it. */
  ghost predicate Completes(inp: Input, run: Result<Progress, RunError>, r: Result<WalkForwardReport, RunError>) {
    match run
    case Err(e) => r == Err(e)
    case Ok(_) => r.Ok? && Realises(inp, run, Ok(r.value.folds)) && Summarizes(r.value.summary, r.value.folds)
  }

  /**
    The run: rejected inputs are reported as such; an accepted input either aborts with the error
    of the specification or yields one report a fold, whose frozen part is the specified one and
    whose other parts are made from it, and a summary pooling them.
   */
  method RunWalkForward(inp: Input, scorer: Scorer) returns (r: Result<WalkForwardReport, RunError>)
    ensures !Accepted(inp, scorer.Some?) ==> r == Err(InvalidInput)
    ensures Accepted(inp, scorer.Some?) ==> Completes(inp, RunTo(inp, scorer, |inp.folds|), r)
  {
    hide Accepted, RunTo, Delivers, Summarizes;
    var ok := ValidateInputs(inp, scorer.Some?);
    if !ok {
      return Err(InvalidInput);
    }
    DistinctRecords(inp, scorer.Some?);
    var reps := Representatives(inp);
    var folds := RunFolds(inp, scorer, reps);
    if folds.Err? {
      return Err(folds.error);
    }
    var summary := Summarize(folds.value);
    return Ok(WalkForwardReport(folds.value, summary));
  }

  lemma DistinctRecords(inp: Input, callback: bool)
    requires Accepted(inp, callback)
    ensures AcceptedCandidates(inp.candidates) && Distinct(inp.snapshots) && Distinct(inp.scores)
  {
  }

  lemma FoldAppendsOne(inp: Input, scorer: Scorer, fold: Fold, p: Progress)
    requires RunFold(inp, scorer, fold, p).Ok?
    ensures var next := RunFold(inp, scorer, fold, p).value;
            |next.reports| == |p.reports| + 1 && forall i | 0 <= i < |p.reports| :: next.reports[i] == p.reports[i]
  {
  }

  lemma {:induction false} RunAborts(inp: Input, scorer: Scorer, m: nat, n: nat)
    requires m <= n <= |inp.folds| && RunTo(inp, scorer, m).Err?
    ensures RunTo(inp, scorer, n) == RunTo(inp, scorer, m)
    decreases n
  {
    hide RunFold;
    if m < n {
      RunAborts(inp, scorer, m, n - 1);
    }
  }
}
