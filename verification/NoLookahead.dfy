/**
  Non-interference over whole runs: what a fold freezes depends only on what was known by its
  decision instant. Two inputs that agree on that much, however they differ in later revisions,
  record order, outcomes, share classes or later folds, go through the same states up to the fold.
 */
module NoLookahead {
  import opened Prelude
  import opened Ordering
  import opened Revisions
  import opened Records
  import opened Lifecycle
  import opened WalkForward

  /**
    Same strategies incepted (at the same instants) by `decision`, and the same lifecycle, snapshot
    and score records known by then; nothing is said of any other record.
   */
  ghost predicate AgreeBy(a: Input, b: Input, decision: int) {
    && (forall sid, t | t <= decision :: InceptedAt(a, sid, t) <==> InceptedAt(b, sid, t))
    && (forall sid, r: Interval | KnownBy(r.stamp, decision) && InceptedBy(a, sid, decision) ::
          HasInterval(a, sid, r) <==> HasInterval(b, sid, r))
    && (forall s: Snapshot | KnownBy(s.stamp, decision) :: s in a.snapshots <==> s in b.snapshots)
    && (forall s: PrecomputedScore | KnownBy(s.stamp, decision) :: s in a.scores <==> s in b.scores)
  }

  lemma AgreeEarlier(a: Input, b: Input, earlier: int, decision: int)
    requires AgreeBy(a, b, decision) && earlier <= decision
    ensures AgreeBy(a, b, earlier)
  {
    assert forall sid | InceptedBy(a, sid, earlier) :: InceptedBy(a, sid, decision);
    forall sid, r: Interval | KnownBy(r.stamp, earlier) && InceptedBy(a, sid, earlier)
      ensures HasInterval(a, sid, r) <==> HasInterval(b, sid, r)
    {
      assert KnownBy(r.stamp, decision);
    }
  }

  lemma SameUniverse(a: Input, b: Input, decision: int)
    requires AgreeBy(a, b, decision)
    ensures Universe(a, decision) == Universe(b, decision)
    ensures forall sid :: sid in Universe(a, decision) <==> InceptedBy(a, sid, decision)
  {
    InUniverse(a, decision);
    InUniverse(b, decision);
    forall sid ensures sid in Universe(a, decision) <==> sid in Universe(b, decision) {
      assert forall t | t <= decision :: InceptedAt(a, sid, t) <==> InceptedAt(b, sid, t);
    }
  }

  lemma InUniverse(inp: Input, decision: int)
    ensures forall sid :: sid in Universe(inp, decision) <==> InceptedBy(inp, sid, decision)
  {
    forall sid ensures sid in Universe(inp, decision) <==> InceptedBy(inp, sid, decision) {
      if sid in Universe(inp, decision) {
        var c :| c in inp.candidates && c.inception <= decision && c.strategy == sid;
        assert InceptedAt(inp, sid, c.inception);
      }
      if InceptedBy(inp, sid, decision) {
        var t :| t <= decision && InceptedAt(inp, sid, t);
        var c :| c in inp.candidates && c.strategy == sid && c.inception == t;
        assert c.strategy in Universe(inp, decision);
      }
    }
  }

  lemma SameKnowledge(a: Input, b: Input, sid: Id, decision: int)
    requires AgreeBy(a, b, decision) && InceptedBy(a, sid, decision)
    ensures KnownLifecycle(a, sid, decision) == KnownLifecycle(b, sid, decision)
    ensures KnownSnapshots(a, sid, decision) == KnownSnapshots(b, sid, decision)
    ensures KnownScores(a, sid, decision) == KnownScores(b, sid, decision)
  {
    forall r ensures r in KnownLifecycle(a, sid, decision) <==> r in KnownLifecycle(b, sid, decision) {
      LifecycleMember(a, sid, decision, r);
      LifecycleMember(b, sid, decision, r);
    }
  }

  lemma LifecycleMember(inp: Input, sid: Id, decision: int, r: Interval)
    ensures r in KnownLifecycle(inp, sid, decision)
            <==> HasInterval(inp, sid, r) && Covers(r.key, decision) && KnownBy(r.stamp, decision)
  {
  }

  lemma SameVerdict(a: Input, b: Input, scorer: Scorer, sid: Id, fold: Fold)
    requires AgreeBy(a, b, fold.decision) && InceptedBy(a, sid, fold.decision)
    ensures Judge(a, scorer, sid, fold) == Judge(b, scorer, sid, fold)
  {
    SameKnowledge(a, b, sid, fold.decision);
  }

  lemma {:induction false} SameScreen(a: Input, b: Input, scorer: Scorer, fold: Fold, strategies: seq<Id>, registry: Registry)
    requires AgreeBy(a, b, fold.decision)
    requires forall sid | sid in strategies :: InceptedBy(a, sid, fold.decision)
    ensures Screen(a, scorer, fold, strategies, registry) == Screen(b, scorer, fold, strategies, registry)
  {
    if strategies != [] {
      var n := |strategies| - 1;
      assert strategies[n] in strategies && forall sid | sid in strategies[..n] :: sid in strategies;
      SameScreen(a, b, scorer, fold, strategies[..n], registry);
      SameVerdict(a, b, scorer, strategies[n], fold);
    }
  }

  lemma SameFold(a: Input, b: Input, scorer: Scorer, fold: Fold, p: Progress)
    requires AgreeBy(a, b, fold.decision) && a.selectCount == b.selectCount
    ensures RunFold(a, scorer, fold, p) == RunFold(b, scorer, fold, p)
  {
    SameUniverse(a, b, fold.decision);
    var universe := Sorted(Universe(a, fold.decision));
    SortedIsOrdered(Universe(a, fold.decision));
    SameScreen(a, b, scorer, fold, universe, p.registry);
  }

  /**
    No lookahead: agreeing by fold `k`'s decision, the two runs pass through the same state after
    every fold up to and including `k`: same scores, failures, selections, stability, turnover and
    score audits, or the same run-aborting error at the same fold.
   */
  lemma {:induction false} NoLookahead(a: Input, b: Input, scorer: Scorer, k: nat, n: nat)
    requires AcceptedFolds(a.folds, a.selectCount)
    requires k < |a.folds| && k < |b.folds| && a.folds[..k + 1] == b.folds[..k + 1] && a.selectCount == b.selectCount
    requires AgreeBy(a, b, a.folds[k].decision)
    requires n <= k + 1
    ensures RunTo(a, scorer, n) == RunTo(b, scorer, n)
  {
    hide RunFold, AgreeBy, AcceptedFolds;
    if n > 0 {
      NoLookahead(a, b, scorer, k, n - 1);
      DecisionsIncrease(a.folds, a.selectCount, n - 1, k);
      assert a.folds[n - 1] == a.folds[..k + 1][n - 1] == b.folds[n - 1];
      AgreeEarlier(a, b, a.folds[n - 1].decision, a.folds[k].decision);
      if RunTo(a, scorer, n - 1).Ok? {
        SameFold(a, b, scorer, a.folds[n - 1], RunTo(a, scorer, n - 1).value);
      }
    }
  }

  lemma DecisionsIncrease(folds: seq<Fold>, selectCount: int, i: nat, j: nat)
    requires AcceptedFolds(folds, selectCount) && i <= j < |folds|
    ensures folds[i].decision <= folds[j].decision
  {
  }

  /** Every accepted fold decides after its training and validation, and ends its embargo before its outcomes; outcome windows never overlap. */
  lemma FoldsInOrder(folds: seq<Fold>, selectCount: int, i: nat, j: nat)
    requires AcceptedFolds(folds, selectCount) && i < j < |folds|
    ensures folds[i].trainStart <= folds[i].trainEnd < folds[i].validationStart <= folds[i].validationEnd < folds[i].decision
    ensures folds[i].decision + folds[i].embargoSeconds * 1_000_000 <= folds[i].outcomeStart <= folds[i].outcomeEnd
    ensures folds[i].decision < folds[j].decision && folds[i].outcomeEnd < folds[j].outcomeStart
    decreases j
  {
    assert ValidFold(folds[i]) && ValidFold(folds[j]);
    if i < j - 1 {
      FoldsInOrder(folds, selectCount, i, j - 1);
      assert ValidFold(folds[j - 1]);
    }
    assert folds[j - 1].outcomeEnd < folds[j].outcomeStart;
  }

  lemma FoldAppends(inp: Input, scorer: Scorer, fold: Fold, p: Progress)
    requires RunFold(inp, scorer, fold, p).Ok?
    ensures |RunFold(inp, scorer, fold, p).value.reports| == |p.reports| + 1
    ensures RunFold(inp, scorer, fold, p).value.reports[..|p.reports|] == p.reports
  {
  }

  /** A run only ever appends reports, one a fold. */
  lemma {:induction false} RunAppends(inp: Input, scorer: Scorer, m: nat, n: nat)
    requires m <= n <= |inp.folds| && RunTo(inp, scorer, n).Ok?
    ensures RunTo(inp, scorer, m).Ok?
    ensures |RunTo(inp, scorer, n).value.reports| == n
    ensures RunTo(inp, scorer, n).value.reports[..m] == RunTo(inp, scorer, m).value.reports
    decreases n
  {
    hide RunFold;
    if n > 0 {
      RunAppends(inp, scorer, if m < n then m else n - 1, n - 1);
      FoldAppends(inp, scorer, inp.folds[n - 1], RunTo(inp, scorer, n - 1).value);
    }
  }

  /** For two completed runs: identical reports for folds 0 to k. */
  lemma SameReports(a: Input, b: Input, scorer: Scorer, k: nat)
    requires AcceptedFolds(a.folds, a.selectCount)
    requires k < |a.folds| && k < |b.folds| && a.folds[..k + 1] == b.folds[..k + 1] && a.selectCount == b.selectCount
    requires AgreeBy(a, b, a.folds[k].decision)
    requires RunTo(a, scorer, |a.folds|).Ok? && RunTo(b, scorer, |b.folds|).Ok?
    ensures k < |RunTo(a, scorer, |a.folds|).value.reports| && k < |RunTo(b, scorer, |b.folds|).value.reports|
    ensures RunTo(a, scorer, |a.folds|).value.reports[..k + 1] == RunTo(b, scorer, |b.folds|).value.reports[..k + 1]
  {
    hide RunTo, AgreeBy, AcceptedFolds;
    NoLookahead(a, b, scorer, k, k + 1);
    RunAppends(a, scorer, k + 1, |a.folds|);
    RunAppends(b, scorer, k + 1, |b.folds|);
  }

  lemma AgreeAlways(a: Input, b: Input, scorer: Scorer)
    requires AcceptedFolds(a.folds, a.selectCount) && a.folds == b.folds && a.selectCount == b.selectCount
    requires forall decision :: AgreeBy(a, b, decision)
    ensures RunTo(a, scorer, |a.folds|) == RunTo(b, scorer, |b.folds|)
  {
    NoLookahead(a, b, scorer, |a.folds| - 1, |a.folds|);
  }

  /** Outcomes never influence what is frozen. */
  lemma OutcomesDoNotMatter(a: Input, outcomes: seq<FutureOutcome>, scorer: Scorer)
    requires AcceptedFolds(a.folds, a.selectCount)
    ensures RunTo(a.(outcomes := outcomes), scorer, |a.folds|) == RunTo(a, scorer, |a.folds|)
  {
    var b := a.(outcomes := outcomes);
    forall decision ensures AgreeBy(b, a, decision) {
      SameCandidates(b, a, decision);
    }
    AgreeAlways(b, a, scorer);
  }

  lemma SameCandidates(a: Input, b: Input, decision: int)
    requires (forall c :: c in a.candidates <==> c in b.candidates)
    requires (forall s: Snapshot :: s in a.snapshots <==> s in b.snapshots) && (forall s: PrecomputedScore :: s in a.scores <==> s in b.scores)
    ensures AgreeBy(a, b, decision)
  {
    forall sid, t ensures InceptedAt(a, sid, t) <==> InceptedAt(b, sid, t) {
    }
    forall sid, r: Interval ensures HasInterval(a, sid, r) <==> HasInterval(b, sid, r) {
    }
  }

  /** Nor does the order in which candidates, snapshots and scores are supplied. */
  lemma OrderDoesNotMatter(a: Input, b: Input, scorer: Scorer)
    requires AcceptedFolds(a.folds, a.selectCount) && a.folds == b.folds && a.selectCount == b.selectCount
    requires multiset(a.candidates) == multiset(b.candidates)
    requires multiset(a.snapshots) == multiset(b.snapshots) && multiset(a.scores) == multiset(b.scores)
    ensures RunTo(a, scorer, |a.folds|) == RunTo(b, scorer, |b.folds|)
  {
    forall c ensures c in a.candidates <==> c in b.candidates { SameMember(a.candidates, b.candidates, c); }
    forall s: Snapshot ensures s in a.snapshots <==> s in b.snapshots { SameMember(a.snapshots, b.snapshots, s); }
    forall s: PrecomputedScore ensures s in a.scores <==> s in b.scores { SameMember(a.scores, b.scores, s); }
    forall decision ensures AgreeBy(a, b, decision) {
      SameCandidates(a, b, decision);
    }
    AgreeAlways(a, b, scorer);
  }

  /** Adding a share class of an existing strategy changes nothing that is frozen. */
  lemma ShareClassesDoNotMatter(a: Input, share: Candidate, scorer: Scorer)
    requires AcceptedFolds(a.folds, a.selectCount) && AcceptedCandidates(a.candidates + [share])
    requires KnownStrategy(a.candidates, share.strategy)
    ensures RunTo(a.(candidates := a.candidates + [share]), scorer, |a.folds|) == RunTo(a, scorer, |a.folds|)
  {
    var all := a.candidates + [share];
    var b := a.(candidates := all);
    var i :| 0 <= i < |a.candidates| && a.candidates[i].strategy == share.strategy;
    var twin := a.candidates[i];
    assert all[i] == twin && all[|a.candidates|] == share;
    assert twin.inception == share.inception && twin.lifecycle == share.lifecycle;
    assert twin in a.candidates;
    forall decision ensures AgreeBy(b, a, decision) {
      forall sid, t ensures InceptedAt(b, sid, t) <==> InceptedAt(a, sid, t) {
        if InceptedAt(b, sid, t) {
          var c :| c in all && c.strategy == sid && c.inception == t;
          assert c in a.candidates || c == share;
        }
        if InceptedAt(a, sid, t) {
          var c :| c in a.candidates && c.strategy == sid && c.inception == t;
          assert c in all;
        }
      }
      forall sid, r: Interval ensures HasInterval(b, sid, r) <==> HasInterval(a, sid, r) {
        if HasInterval(b, sid, r) {
          var c :| c in all && c.strategy == sid && r in c.lifecycle;
          assert c in a.candidates || c == share;
        }
        if HasInterval(a, sid, r) {
          var c :| c in a.candidates && c.strategy == sid && r in c.lifecycle;
          assert c in all;
        }
      }
    }
    AgreeAlways(b, a, scorer);
  }
}
