/** What every frozen fold report satisfies: complete accounting, no duplicate audits, best-first selection, point-in-time evidence. */
module FoldGuarantees {
  import opened Prelude
  import opened Ordering
  import opened Revisions
  import opened Records
  import opened Lifecycle
  import opened Ranking
  import opened Stability
  import opened WalkForward

  ghost predicate ScoredIn(t: Tally, sid: Id) {
    exists i | 0 <= i < |t.scores| :: t.scores[i].id == sid
  }

  ghost predicate FailedIn(t: Tally, sid: Id) {
    exists i | 0 <= i < |t.failures| :: t.failures[i].strategy == sid
  }

  /** Evidence in the tally was known by the decision and in force at it, and belongs to its strategy. */
  ghost predicate PointInTime(t: Tally, decision: int) {
    && t.audits.Keys == t.resolved.Keys
    && (forall sid | sid in t.audits :: SoundAudit(t.audits[sid], sid, decision, t.resolved[sid]))
    && (forall sid | sid in t.resolved :: SoundEvidence(t.resolved[sid], sid, decision))
  }

  /** The trail only holds audits of strategies already scored, so a strategy met for the first time never finds one. */
  ghost predicate TrailMatches(t: Tally) {
    forall key | key in t.trail :: key.strategy in t.audits
  }

  /** Screening accounts for each of its strategies exactly once. */
  ghost predicate Accounts(t: Tally, strategies: seq<Id>) {
    && |t.scores| + |t.failures| == |strategies|
    && (forall sid :: sid in strategies <==> ScoredIn(t, sid) || FailedIn(t, sid))
    && (forall sid :: !(ScoredIn(t, sid) && FailedIn(t, sid)))
    && (forall sid :: sid in t.audits <==> ScoredIn(t, sid))
    && (forall i | 0 <= i < |t.scores| :: t.scores[i].id in t.audits && t.scores[i].value == t.audits[t.scores[i].id].total)
    && (forall i | 0 <= i < |t.failures| :: t.failures[i].code != ScoreAuditConflictInFold)
  }

  /** The audit belongs to the strategy, was known by the decision and does not predate its evidence. */
  ghost predicate SoundAudit(audit: Audit, sid: Id, decision: int, resolved: map<Domain, Snapshot>) {
    && audit.strategy == Some(sid)
    && audit.asOf <= decision && KnownBy(audit.stamp, decision)
    && CoversProviderTime(audit, resolved)
  }

  /** The evidence belongs to the strategy, was known by the decision and is in force at it. */
  ghost predicate SoundEvidence(resolved: map<Domain, Snapshot>, sid: Id, decision: int) {
    forall d | d in resolved ::
      var s := resolved[d];
      s.key.strategy == sid && s.key.domain == d && Covers(s.key.range, decision) && KnownBy(s.stamp, decision)
  }

  ghost predicate SoundVerdict(v: Verdict, sid: Id, decision: int) {
    && (v.Eligible? ==> SoundAudit(v.audit, sid, decision, v.resolved) && SoundEvidence(v.resolved, sid, decision))
    && (v.Ineligible? ==> v.code != ScoreAuditConflictInFold)
  }

  lemma ScoreSourceIsSound(inp: Input, scorer: Scorer, sid: Id, fold: Fold, resolved: map<Domain, Snapshot>)
    requires AcceptedScores(inp) && EvidenceGap(resolved).None?
    ensures var v := JudgeScoreSource(inp, scorer, sid, fold, resolved);
            && (v.Eligible? ==> v.resolved == resolved && SoundAudit(v.audit, sid, fold.decision, resolved))
            && (v.Ineligible? ==> v.code != ScoreAuditConflictInFold)
  {
    hide EvidenceGap, AcceptedScores, SoundAudit, JudgeScores, JudgeReply;
    if scorer.Some? {
      ReplyIsSound(scorer.value(View(sid, fold.decision, fold, resolved)), sid, fold.decision, resolved);
    } else {
      PrecomputedIsSound(inp, sid, fold.decision, resolved);
    }
  }

  lemma ReplyIsSound(reply: Reply, sid: Id, decision: int, resolved: map<Domain, Snapshot>)
    requires EvidenceGap(resolved).None?
    ensures var v := JudgeReply(reply, sid, decision, resolved);
            && (v.Eligible? ==> v.resolved == resolved && SoundAudit(v.audit, sid, decision, resolved))
            && (v.Ineligible? ==> v.code != ScoreAuditConflictInFold)
  {
    hide EvidenceGap;
  }

  lemma PrecomputedIsSound(inp: Input, sid: Id, decision: int, resolved: map<Domain, Snapshot>)
    requires AcceptedScores(inp) && EvidenceGap(resolved).None?
    ensures var v := JudgeScores(Tips(KnownScores(inp, sid, decision)), resolved);
            && (v.Eligible? ==> v.resolved == resolved && SoundAudit(v.audit, sid, decision, resolved))
            && (v.Ineligible? ==> v.code != ScoreAuditConflictInFold)
  {
    hide EvidenceGap, AcceptedScores, KnownScores, CoversProviderTime;
    var tips := Tips(KnownScores(inp, sid, decision));
    forall s | s in tips ensures s.key.strategy == sid && KnownBy(s.stamp, decision) && s.body.asOf <= decision {
      ScoreIsKnown(inp, sid, decision, s);
    }
  }

  lemma ScoreIsKnown(inp: Input, sid: Id, decision: int, s: PrecomputedScore)
    requires AcceptedScores(inp) && s in Tips(KnownScores(inp, sid, decision))
    ensures s.key.strategy == sid && KnownBy(s.stamp, decision) && s.body.asOf <= decision
  {
    var i :| 0 <= i < |inp.scores| && inp.scores[i] == s;
    assert ValidScore(inp.scores[i]);
  }

  lemma EvidenceIsSound(inp: Input, sid: Id, decision: int)
    ensures var tips := Tips(KnownSnapshots(inp, sid, decision));
            !DomainConflict(tips) ==> SoundEvidence(ByDomain(tips), sid, decision)
  {
  }

  lemma VerdictIsSound(inp: Input, scorer: Scorer, sid: Id, fold: Fold)
    requires AcceptedScores(inp)
    ensures SoundVerdict(Judge(inp, scorer, sid, fold), sid, fold.decision)
  {
    hide EvidenceGap, JudgeScoreSource, SoundAudit, SoundEvidence, ByDomain, DomainConflict, KnownLifecycle, KnownSnapshots, ResolveLifecycle, AcceptedScores;
    var tips := Tips(KnownSnapshots(inp, sid, fold.decision));
    EvidenceIsSound(inp, sid, fold.decision);
    if !DomainConflict(tips) {
      var resolved := ByDomain(tips);
      GapCodes(resolved);
      if EvidenceGap(resolved).None? {
        ScoreSourceIsSound(inp, scorer, sid, fold, resolved);
      }
    }
  }

  lemma GapCodes(resolved: map<Domain, Snapshot>)
    ensures EvidenceGap(resolved) != Some(ScoreAuditConflictInFold)
  {
  }

  lemma CollectKeeps(t: Tally, next: Tally, before: seq<Id>, sid: Id, v: Verdict, callback: bool, decision: int)
    requires SoundVerdict(v, sid, decision) && sid !in before
    requires Accounts(t, before) && PointInTime(t, decision) && TrailMatches(t)
    requires Collect(t, sid, v, callback) == Ok(next)
    ensures Accounts(next, before + [sid]) && PointInTime(next, decision) && TrailMatches(next)
  {
    hide SoundAudit, SoundEvidence, Accounts, TrailMatches, Collect;
    if v.Eligible? {
      NotScoredBefore(t, before, sid, v.audit);
      EligibleShape(t, sid, v, callback);
      AccountsScored(t, next, before, sid, v.audit);
    } else {
      IneligibleShape(t, sid, v, callback);
      AccountsFailed(t, next, before, sid, v.code);
    }
  }

  lemma EligibleShape(t: Tally, sid: Id, v: Verdict, callback: bool)
    requires v.Eligible? && KeyOf(sid, v.audit) !in t.trail && Collect(t, sid, v, callback).Ok?
    ensures var next := Collect(t, sid, v, callback).value;
            && next.scores == t.scores + [Entry(sid, v.audit.total)] && next.failures == t.failures
            && next.audits == t.audits[sid := v.audit] && next.trail == t.trail[KeyOf(sid, v.audit) := v.audit]
            && next.resolved == t.resolved[sid := v.resolved] && next.terminal == t.terminal
  {
  }

  lemma IneligibleShape(t: Tally, sid: Id, v: Verdict, callback: bool)
    requires !v.Eligible? && Collect(t, sid, v, callback).Ok?
    ensures v.Ineligible?
    ensures var next := Collect(t, sid, v, callback).value;
            && next.failures == t.failures + [Failure(v.code, sid)] && next.scores == t.scores
            && next.audits == t.audits && next.trail == t.trail && next.resolved == t.resolved
            && next.terminal == t.terminal + (if v.code == TerminalLifecycle then 1 else 0)
  {
  }

  lemma AccountsScored(t: Tally, next: Tally, before: seq<Id>, sid: Id, audit: Audit)
    requires Accounts(t, before) && TrailMatches(t) && sid !in before
    requires next.scores == t.scores + [Entry(sid, audit.total)] && next.failures == t.failures
    requires next.audits == t.audits[sid := audit] && next.trail == t.trail[KeyOf(sid, audit) := audit]
    ensures Accounts(next, before + [sid]) && TrailMatches(next)
  {
    ScoredGrows(t, next, Entry(sid, audit.total));
    forall i | 0 <= i < |next.scores| ensures next.scores[i].id in next.audits && next.scores[i].value == next.audits[next.scores[i].id].total {
      if i < |t.scores| {
        assert ScoredIn(t, t.scores[i].id);
        assert t.scores[i].id != sid;
      }
    }
  }

  lemma AccountsFailed(t: Tally, next: Tally, before: seq<Id>, sid: Id, code: FailureCode)
    requires Accounts(t, before) && TrailMatches(t) && sid !in before && code != ScoreAuditConflictInFold
    requires next.failures == t.failures + [Failure(code, sid)] && next.scores == t.scores
    requires next.audits == t.audits && next.trail == t.trail
    ensures Accounts(next, before + [sid]) && TrailMatches(next)
  {
    FailedGrows(t, next, Failure(code, sid));
  }

  lemma NotScoredBefore(t: Tally, before: seq<Id>, sid: Id, audit: Audit)
    requires Accounts(t, before) && TrailMatches(t) && sid !in before
    ensures KeyOf(sid, audit) !in t.trail
  {
    assert !ScoredIn(t, sid);
  }

  lemma ScoredGrows(t: Tally, next: Tally, e: Entry)
    requires next.scores == t.scores + [e] && next.failures == t.failures
    ensures forall x :: ScoredIn(next, x) <==> ScoredIn(t, x) || x == e.id
    ensures forall x :: FailedIn(next, x) <==> FailedIn(t, x)
  {
    forall x ensures ScoredIn(next, x) <==> ScoredIn(t, x) || x == e.id {
      if ScoredIn(t, x) {
        var i :| 0 <= i < |t.scores| && t.scores[i].id == x;
        assert next.scores[i].id == x;
      }
      assert next.scores[|t.scores|].id == e.id;
    }
  }

  lemma FailedGrows(t: Tally, next: Tally, f: Failure)
    requires next.failures == t.failures + [f] && next.scores == t.scores
    ensures forall x :: FailedIn(next, x) <==> FailedIn(t, x) || x == f.strategy
    ensures forall x :: ScoredIn(next, x) <==> ScoredIn(t, x)
  {
    forall x ensures FailedIn(next, x) <==> FailedIn(t, x) || x == f.strategy {
      if FailedIn(t, x) {
        var i :| 0 <= i < |t.failures| && t.failures[i].strategy == x;
        assert next.failures[i].strategy == x;
      }
      assert next.failures[|t.failures|].strategy == f.strategy;
    }
  }

  /**
    Every strategy of a fold ends up either scored or failed, never both; the in-fold audit conflict
    of the source cannot occur; and all retained evidence is point-in-time.
   */
  lemma {:induction false} ScreeningIsComplete(inp: Input, scorer: Scorer, fold: Fold, strategies: seq<Id>, registry: Registry)
    requires AcceptedScores(inp) && Distinct(strategies)
    requires Screen(inp, scorer, fold, strategies, registry).Ok?
    ensures var t := Screen(inp, scorer, fold, strategies, registry).value;
            Accounts(t, strategies) && PointInTime(t, fold.decision) && TrailMatches(t)
  {
    hide Judge, Collect, Accounts, PointInTime, TrailMatches, AcceptedScores, SoundVerdict;
    if strategies == [] {
      EmptyIsSound(registry, fold.decision);
    }
    if strategies != [] {
      var n := |strategies| - 1;
      ScreeningIsComplete(inp, scorer, fold, strategies[..n], registry);
      assert strategies == strategies[..n] + [strategies[n]];
      VerdictIsSound(inp, scorer, strategies[n], fold);
      CollectKeeps(Screen(inp, scorer, fold, strategies[..n], registry).value, Screen(inp, scorer, fold, strategies, registry).value,
                   strategies[..n], strategies[n], Judge(inp, scorer, strategies[n], fold), scorer.Some?, fold.decision);
    }
  }

  function TerminalFailures(failures: seq<Failure>): nat {
    if failures == [] then 0
    else TerminalFailures(failures[..|failures| - 1]) + (if failures[|failures| - 1].code == TerminalLifecycle then 1 else 0)
  }

  /** What a tally holds is what the strategies' verdicts say, and its terminal count is the number of terminal failures. */
  ghost predicate Reflects(t: Tally, inp: Input, scorer: Scorer, fold: Fold) {
    && t.audits.Keys == t.resolved.Keys
    && (forall sid | sid in t.audits :: Judge(inp, scorer, sid, fold) == Eligible(t.audits[sid], t.resolved[sid]))
    && (forall i | 0 <= i < |t.failures| :: Judge(inp, scorer, t.failures[i].strategy, fold) == Ineligible(t.failures[i].code))
    && t.terminal == TerminalFailures(t.failures)
  }

  /** Nothing is recorded of a strategy but its own verdict. */
  lemma {:induction false} ScreeningReflectsVerdicts(inp: Input, scorer: Scorer, fold: Fold, strategies: seq<Id>, registry: Registry)
    requires AcceptedScores(inp) && Distinct(strategies)
    requires Screen(inp, scorer, fold, strategies, registry).Ok?
    ensures Reflects(Screen(inp, scorer, fold, strategies, registry).value, inp, scorer, fold)
  {
    hide Judge, Collect, Accounts, PointInTime, TrailMatches, AcceptedScores, SoundVerdict;
    if strategies != [] {
      var n := |strategies| - 1;
      assert strategies == strategies[..n] + [strategies[n]];
      ScreeningReflectsVerdicts(inp, scorer, fold, strategies[..n], registry);
      ScreeningIsComplete(inp, scorer, fold, strategies[..n], registry);
      var before := Screen(inp, scorer, fold, strategies[..n], registry).value;
      ReflectsMore(before, Screen(inp, scorer, fold, strategies, registry).value, strategies[..n], inp, scorer, fold, strategies[n]);
    }
  }

  lemma ReflectsMore(t: Tally, next: Tally, before: seq<Id>, inp: Input, scorer: Scorer, fold: Fold, sid: Id)
    requires Reflects(t, inp, scorer, fold) && Accounts(t, before) && TrailMatches(t) && sid !in before
    requires Collect(t, sid, Judge(inp, scorer, sid, fold), scorer.Some?) == Ok(next)
    ensures Reflects(next, inp, scorer, fold)
  {
    hide Judge, Collect, Accounts, TrailMatches, Reflects;
    var v := Judge(inp, scorer, sid, fold);
    if v.Eligible? {
      NotScoredBefore(t, before, sid, v.audit);
      EligibleShape(t, sid, v, scorer.Some?);
      ReflectsScore(t, next, inp, scorer, fold, sid);
    } else {
      IneligibleShape(t, sid, v, scorer.Some?);
      ReflectsFailure(t, next, inp, scorer, fold, sid);
    }
  }

  lemma ReflectsScore(t: Tally, next: Tally, inp: Input, scorer: Scorer, fold: Fold, sid: Id)
    requires Reflects(t, inp, scorer, fold) && Judge(inp, scorer, sid, fold).Eligible?
    requires var v := Judge(inp, scorer, sid, fold);
             && next.audits == t.audits[sid := v.audit] && next.resolved == t.resolved[sid := v.resolved]
             && next.failures == t.failures && next.terminal == t.terminal
    ensures Reflects(next, inp, scorer, fold)
  {
    hide Judge, TerminalFailures;
  }

  lemma ReflectsFailure(t: Tally, next: Tally, inp: Input, scorer: Scorer, fold: Fold, sid: Id)
    requires Reflects(t, inp, scorer, fold) && Judge(inp, scorer, sid, fold).Ineligible?
    requires var v := Judge(inp, scorer, sid, fold);
             && next.audits == t.audits && next.resolved == t.resolved
             && next.failures == t.failures + [Failure(v.code, sid)]
             && next.terminal == t.terminal + (if v.code == TerminalLifecycle then 1 else 0)
    ensures Reflects(next, inp, scorer, fold)
  {
    hide Judge;
    assert next.failures[..|t.failures|] == t.failures;
  }

  lemma EmptyIsSound(registry: Registry, decision: int)
    ensures Accounts(EmptyTally(registry), []) && PointInTime(EmptyTally(registry), decision) && TrailMatches(EmptyTally(registry))
  {
  }

  ghost predicate AllBefore(taken: seq<Entry>, left: seq<Entry>) {
    forall i, j | 0 <= i < |taken| && 0 <= j < |left| :: EntryLeq(taken[i], left[j])
  }

  /** `taken` and `left` divide the scores, with the better ones taken, best first. */
  ghost predicate BestFirst(scores: seq<Entry>, taken: seq<Entry>, left: seq<Entry>) {
    multiset(taken + left) == multiset(scores) && AllBefore(taken, left) && SortedBy(taken, EntryLeq)
  }

  lemma CutIsBestFirst(scores: seq<Entry>, ordered: seq<Entry>, k: nat)
    requires k <= |ordered| && SortedBy(ordered, EntryLeq) && multiset(ordered) == multiset(scores)
    ensures BestFirst(scores, ordered[..k], ordered[k..])
  {
    hide EntryLeq;
    assert ordered[..k] + ordered[k..] == ordered;
  }

  lemma SelectIsCut(scores: seq<Entry>, count: nat)
    ensures var ordered := SortBy(scores, EntryLeq);
            Select(scores, count) == IdsOf(ordered[..if count < |ordered| then count else |ordered|])
  {
    hide SortBy, IdsOf;
    var ordered := SortBy(scores, EntryLeq);
    assert ordered[..|ordered|] == ordered;
  }

  /** Selection takes the best `count` scores: nothing left out beats anything taken, ties going to the smaller identifier. */
  lemma SelectionIsBestFirst(scores: seq<Entry>, count: nat)
    ensures |Select(scores, count)| == (if count < |scores| then count else |scores|)
    ensures exists taken, left :: BestFirst(scores, taken, left) && IdsOf(taken) == Select(scores, count)
  {
    hide EntryLeq, SortBy, TotalPreorder, Antisymmetric, BestFirst, Select, SortedBy;
    EntryOrder();
    SortByCorrect(scores, EntryLeq);
    var ordered := SortBy(scores, EntryLeq);
    var k := if count < |ordered| then count else |ordered|;
    SelectIsCut(scores, count);
    CutIsBestFirst(scores, ordered, k);
  }

  /** The scores are cut at `count` in descending order of value, equal values in ascending order of identifier. */
  lemma SelectionMeaning(scores: seq<Entry>, count: nat) returns (taken: seq<Entry>, left: seq<Entry>)
    ensures multiset(taken + left) == multiset(scores) && IdsOf(taken) == Select(scores, count)
    ensures forall i, j | 0 <= i < |taken| && 0 <= j < |left| ::
              taken[i].value > left[j].value || (taken[i].value == left[j].value && IdLeq(taken[i].id, left[j].id))
    ensures forall i, j | 0 <= i < j < |taken| ::
              taken[i].value > taken[j].value || (taken[i].value == taken[j].value && IdLeq(taken[i].id, taken[j].id))
  {
    hide Select, IdLeq;
    SelectionIsBestFirst(scores, count);
    taken, left :| BestFirst(scores, taken, left) && IdsOf(taken) == Select(scores, count);
    forall i, j | 0 <= i < |taken| && 0 <= j < |left| ensures EntryLeq(taken[i], left[j]) {
    }
  }

  // ---- every report of every run ----

  /** A report read as the tally it froze; the registries are not part of a report. */
  ghost function TallyOf(f: Frozen): Tally {
    Tally(f.scores, f.audits, f.resolved, map[], f.failures, f.terminal, map[])
  }

  /** Complete accounting of the universe at the decision, each strategy by its own verdict; point-in-time evidence; best-first selection. */
  ghost predicate SoundReport(inp: Input, scorer: Scorer, f: Frozen) {
    && f.universe == Sorted(Universe(inp, f.fold.decision)) != []
    && Accounts(TallyOf(f), f.universe) && PointInTime(TallyOf(f), f.fold.decision)
    && Reflects(TallyOf(f), inp, scorer, f.fold)
    && SortedBy(f.scores, EntryLeq) && f.selected == Select(f.scores, inp.selectCount)
  }

  lemma ScoredAgain(t: Tally, u: Tally)
    requires forall e :: e in t.scores <==> e in u.scores
    ensures forall sid :: ScoredIn(t, sid) <==> ScoredIn(u, sid)
  {
    forall sid ensures ScoredIn(t, sid) <==> ScoredIn(u, sid) {
      if ScoredIn(t, sid) {
        var i :| 0 <= i < |t.scores| && t.scores[i].id == sid;
        assert t.scores[i] in u.scores;
      }
      if ScoredIn(u, sid) {
        var i :| 0 <= i < |u.scores| && u.scores[i].id == sid;
        assert u.scores[i] in t.scores;
      }
    }
  }

  lemma AccountsRearranged(t: Tally, u: Tally, strategies: seq<Id>)
    requires Accounts(t, strategies) && u.audits == t.audits && u.failures == t.failures
    requires |u.scores| == |t.scores| && forall e :: e in t.scores <==> e in u.scores
    ensures Accounts(u, strategies)
  {
    ScoredAgain(t, u);
    hide ScoredIn;
    forall sid ensures FailedIn(u, sid) <==> FailedIn(t, sid) {
    }
    forall i | 0 <= i < |u.scores| ensures u.scores[i].id in u.audits && u.scores[i].value == u.audits[u.scores[i].id].total {
      assert u.scores[i] in t.scores;
    }
  }

  lemma {:induction false} AlreadySorted(s: seq<Entry>)
    requires SortedBy(s, EntryLeq)
    ensures SortBy(s, EntryLeq) == s
  {
    hide EntryLeq;
    EntryOrder();
    SortByCorrect(s, EntryLeq);
    SortedUnique(SortBy(s, EntryLeq), s, EntryLeq);
  }

  lemma FoldReportIsSound(inp: Input, scorer: Scorer, fold: Fold, p: Progress)
    requires AcceptedScores(inp) && RunFold(inp, scorer, fold, p).Ok?
    ensures var reports := RunFold(inp, scorer, fold, p).value.reports;
            && |reports| == |p.reports| + 1 && reports[..|p.reports|] == p.reports
            && SoundReport(inp, scorer, reports[|p.reports|])
  {
    hide Accounts, PointInTime, Reflects, AcceptedScores, Screen, StabilityOf, Turnover, EntryLeq, SortedBy, SortBy, Sorted, TotalPreorder;
    var universe := Sorted(Universe(inp, fold.decision));
    SortedIsDistinct(Universe(inp, fold.decision));
    ScreeningIsComplete(inp, scorer, fold, universe, p.registry);
    var t := Screen(inp, scorer, fold, universe, p.registry).value;
    var f := RunFold(inp, scorer, fold, p).value.reports[|p.reports|];
    EntryOrder();
    SortByCorrect(t.scores, EntryLeq);
    AlreadySorted(f.scores);
    AccountsRearranged(t, TallyOf(f), universe);
    PointInTimeAgain(t, TallyOf(f), fold.decision);
    ScreeningReflectsVerdicts(inp, scorer, fold, universe, p.registry);
    ReflectsAgain(t, TallyOf(f), inp, scorer, fold);
  }

  lemma PointInTimeAgain(t: Tally, u: Tally, decision: int)
    requires PointInTime(t, decision) && u.audits == t.audits && u.resolved == t.resolved
    ensures PointInTime(u, decision)
  {
  }

  lemma ReflectsAgain(t: Tally, u: Tally, inp: Input, scorer: Scorer, fold: Fold)
    requires Reflects(t, inp, scorer, fold) && u.audits == t.audits && u.resolved == t.resolved
    requires u.failures == t.failures && u.terminal == t.terminal
    ensures Reflects(u, inp, scorer, fold)
  {
    hide Judge;
  }

  /** Over any run, every report frozen so far is sound. */
  lemma {:induction false} EveryReportIsSound(inp: Input, scorer: Scorer, n: nat)
    requires AcceptedScores(inp) && n <= |inp.folds| && RunTo(inp, scorer, n).Ok?
    ensures forall i | 0 <= i < |RunTo(inp, scorer, n).value.reports| :: SoundReport(inp, scorer, RunTo(inp, scorer, n).value.reports[i])
  {
    hide RunFold, SoundReport, AcceptedScores;
    if n > 0 {
      EveryReportIsSound(inp, scorer, n - 1);
      FoldReportIsSound(inp, scorer, inp.folds[n - 1], RunTo(inp, scorer, n - 1).value);
      var before, after := RunTo(inp, scorer, n - 1).value.reports, RunTo(inp, scorer, n).value.reports;
      assert forall i | 0 <= i < |before| :: after[..|before|][i] == after[i];
    }
  }
}
