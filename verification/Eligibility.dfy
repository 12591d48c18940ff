/**
  When a strategy is scored, said without revisions chains: in terms of the latest revision known of every
  record in force. This is the independent reading of the verdict that the fold loop computes by dropping
  superseded revisions, grouping by domain and checking in sequence.
 */
module Eligibility {
  import opened Prelude
  import opened Ordering
  import opened Revisions
  import opened Records
  import opened Lifecycle
  import opened WalkForward
  import E = WalkForwardEngine

  // ---- what is known at a decision ----

  /** A record is in force from its first instant to just before its last, and known once published and learned. */
  lemma WhatIsKnown(inp: Input, sid: Id, decision: int)
    ensures forall s: Snapshot :: s in KnownSnapshots(inp, sid, decision) <==>
              && s in inp.snapshots && s.key.strategy == sid
              && s.key.range.from <= decision && (s.key.range.to.Some? ==> decision < s.key.range.to.value)
              && s.stamp.published <= decision && s.stamp.knowledge <= decision
    ensures forall s: PrecomputedScore :: s in KnownScores(inp, sid, decision) <==>
              && s in inp.scores && s.key.strategy == sid
              && s.key.range.from <= decision && (s.key.range.to.Some? ==> decision < s.key.range.to.value)
              && s.stamp.published <= decision && s.stamp.knowledge <= decision
    ensures forall r: Interval :: r in KnownLifecycle(inp, sid, decision) <==>
              && (exists c :: c in inp.candidates && c.strategy == sid && r in c.lifecycle)
              && r.key.from <= decision && (r.key.to.Some? ==> decision < r.key.to.value)
              && r.stamp.published <= decision && r.stamp.knowledge <= decision
  {
  }

  // ---- lifecycle ----

  ghost predicate LearnedLast(known: set<Interval>, r: Interval) {
    r in known && forall q | q in known && q != r :: q.stamp.knowledge < r.stamp.knowledge
  }

  /** The covering interval learned last, among those known, says the strategy is active. */
  ghost predicate ActiveAt(inp: Input, sid: Id, decision: int) {
    exists r :: LearnedLast(KnownLifecycle(inp, sid, decision), r) && r.body.status == Active
  }

  lemma KnownOfCandidate(inp: Input, sid: Id, decision: int) returns (l: seq<Interval>)
    requires AcceptedCandidates(inp.candidates) && KnownLifecycle(inp, sid, decision) != {}
    ensures AcceptedLifecycle(l) && CoveringKnown(l, decision) == KnownLifecycle(inp, sid, decision)
  {
    var r :| r in KnownLifecycle(inp, sid, decision);
    var c :| c in inp.candidates && c.strategy == sid && r in c.lifecycle;
    var i :| 0 <= i < |inp.candidates| && inp.candidates[i] == c;
    assert AcceptedLifecycle(inp.candidates[i].lifecycle);
    l := c.lifecycle;
    E.RepresentativeLifecycle(inp, c, decision);
  }

  /** The lifecycle is unknown exactly when no known interval covers the decision, and otherwise that of the interval learned last. */
  lemma LifecycleVerdict(inp: Input, sid: Id, decision: int)
    requires AcceptedCandidates(inp.candidates)
    ensures var known := KnownLifecycle(inp, sid, decision);
            && (ResolveLifecycle(known).None? <==> known == {})
            && (ResolveLifecycle(known) == Some(Active) <==> ActiveAt(inp, sid, decision))
  {
    hide AcceptedCandidates, ResolveLifecycle, AcceptedLifecycle, CoveringKnown, KnownLifecycle;
    var known := KnownLifecycle(inp, sid, decision);
    if known == {} {
      NothingResolves(known);
    } else {
      var l := KnownOfCandidate(inp, sid, decision);
      LifecycleIsLatestKnownCover(l, decision);
      var r :| r in known && forall q | q in known && q != r :: q.stamp.knowledge < r.stamp.knowledge;
      assert LearnedLast(known, r);
      assert forall s | LearnedLast(known, s) :: s == r;
    }
  }

  lemma NothingResolves(known: set<Interval>)
    requires known == {}
    ensures ResolveLifecycle(known).None?
  {
    assert Tips(known) == {};
  }

  // ---- evidence ----

  /** The latest revision known of each snapshot record of the strategy in force at the decision. */
  ghost function LatestSnapshots(inp: Input, sid: Id, decision: int): set<Snapshot> {
    set s | s in KnownSnapshots(inp, sid, decision) && LatestKnown(KnownSnapshots(inp, sid, decision), s)
  }

  ghost function LatestScores(inp: Input, sid: Id, decision: int): set<PrecomputedScore> {
    set s | s in KnownScores(inp, sid, decision) && LatestKnown(KnownScores(inp, sid, decision), s)
  }

  lemma TipsAreLatest(inp: Input, sid: Id, decision: int)
    requires AcceptedSnapshots(inp) && AcceptedScores(inp)
    ensures Tips(KnownSnapshots(inp, sid, decision)) == LatestSnapshots(inp, sid, decision)
    ensures Tips(KnownScores(inp, sid, decision)) == LatestScores(inp, sid, decision)
  {
    hide LatestKnown, AllChains;
    forall s: Snapshot ensures s in Tips(KnownSnapshots(inp, sid, decision)) <==> s in LatestSnapshots(inp, sid, decision) {
      ResolutionKeepsLatest(inp.snapshots, (k: SnapshotKey) => k.strategy == sid && Covers(k.range, decision), decision, s);
    }
    forall s: PrecomputedScore ensures s in Tips(KnownScores(inp, sid, decision)) <==> s in LatestScores(inp, sid, decision) {
      ResolutionKeepsLatest(inp.scores, (k: ScoreKey) => k.strategy == sid && Covers(k.range, decision), decision, s);
    }
  }

  ghost predicate OneEachDomain(latest: set<Snapshot>) {
    forall s, t | s in latest && t in latest && s.key.domain == t.key.domain :: s == t
  }

  /** Every required domain is there, one provider snapshot supplies them all, nothing is unknown and the strategy is available. */
  ghost predicate CompleteEvidence(latest: set<Snapshot>) {
    && (forall d | d in REQUIRED_DOMAINS :: exists s :: s in latest && s.key.domain == d)
    && (forall s, t | s in latest && t in latest :: s.body.provider == t.body.provider)
    && (forall s | s in latest :: s.body.value != Missing && (s.key.domain == Availability ==> s.body.value == Flag(true)))
  }

  /** `resolved` files exactly the snapshots of `latest`, each under its domain. */
  ghost predicate Maps(latest: set<Snapshot>, resolved: map<Domain, Snapshot>) {
    && (forall s | s in latest :: s.key.domain in resolved && resolved[s.key.domain] == s)
    && (forall d | d in resolved :: resolved[d] in latest && resolved[d].key.domain == d)
  }

  lemma ByDomainHolds(latest: set<Snapshot>)
    requires !DomainConflict(latest)
    ensures Maps(latest, ByDomain(latest))
  {
  }

  lemma ConflictOrOne(latest: set<Snapshot>)
    ensures DomainConflict(latest) <==> !OneEachDomain(latest)
  {
  }

  lemma OneProvider(resolved: map<Domain, Snapshot>)
    requires Availability in resolved
    ensures |Providers(resolved)| == 1 <==> forall d, e | d in resolved && e in resolved :: resolved[d].body.provider == resolved[e].body.provider
  {
    var p := resolved[Availability].body.provider;
    assert p in Providers(resolved);
    if |Providers(resolved)| == 1 {
      Singleton(Providers(resolved), p);
      forall d | d in resolved ensures resolved[d].body.provider == p {
        assert resolved[d].body.provider in Providers(resolved);
      }
    }
    if forall d, e | d in resolved && e in resolved :: resolved[d].body.provider == resolved[e].body.provider {
      assert Providers(resolved) == {p};
    }
  }

  lemma Singleton<T>(s: set<T>, x: T)
    requires |s| == 1 && x in s
    ensures s == {x}
  {
    assert |s - {x}| == 0;
  }

  lemma GapParts(resolved: map<Domain, Snapshot>)
    ensures EvidenceGap(resolved).None? <==>
              && REQUIRED_DOMAINS <= resolved.Keys && |Providers(resolved)| == 1
              && Availability in resolved && resolved[Availability].body.value == Flag(true)
              && !exists d | d in resolved :: resolved[d].body.value == Missing
  {
    hide Providers;
    assert Availability in REQUIRED_DOMAINS;
  }

  /** The sequence of evidence checks passes exactly on complete evidence. */
  lemma NoGapIsComplete(latest: set<Snapshot>)
    requires !DomainConflict(latest)
    ensures EvidenceGap(ByDomain(latest)).None? <==> CompleteEvidence(latest)
  {
    hide ByDomain, Providers, DomainConflict, EvidenceGap, Maps;
    ByDomainHolds(latest);
    var resolved := ByDomain(latest);
    GapParts(resolved);
    RequiredByDomain(latest, resolved);
    if Availability in resolved {
      OneProvider(resolved);
      SameProviders(latest, resolved);
      KnownValues(latest, resolved);
    }
  }

  lemma RequiredByDomain(latest: set<Snapshot>, resolved: map<Domain, Snapshot>)
    requires Maps(latest, resolved)
    ensures REQUIRED_DOMAINS <= resolved.Keys <==> forall d | d in REQUIRED_DOMAINS :: exists s :: s in latest && s.key.domain == d
    ensures REQUIRED_DOMAINS <= resolved.Keys ==> Availability in resolved
  {
    if REQUIRED_DOMAINS <= resolved.Keys {
      forall d | d in REQUIRED_DOMAINS ensures exists s :: s in latest && s.key.domain == d {
        assert resolved[d] in latest;
      }
    }
  }

  lemma SameProviders(latest: set<Snapshot>, resolved: map<Domain, Snapshot>)
    requires Maps(latest, resolved)
    ensures (forall d, e | d in resolved && e in resolved :: resolved[d].body.provider == resolved[e].body.provider)
            <==> forall s, t | s in latest && t in latest :: s.body.provider == t.body.provider
  {
    if forall d, e | d in resolved && e in resolved :: resolved[d].body.provider == resolved[e].body.provider {
      forall s, t | s in latest && t in latest ensures s.body.provider == t.body.provider {
        assert resolved[s.key.domain].body.provider == resolved[t.key.domain].body.provider;
      }
    }
  }

  lemma KnownValues(latest: set<Snapshot>, resolved: map<Domain, Snapshot>)
    requires Maps(latest, resolved) && Availability in resolved
    ensures (!(exists d | d in resolved :: resolved[d].body.value == Missing) && resolved[Availability].body.value == Flag(true))
            <==> forall s | s in latest :: s.body.value != Missing && (s.key.domain == Availability ==> s.body.value == Flag(true))
  {
    if forall s | s in latest :: s.body.value != Missing && (s.key.domain == Availability ==> s.body.value == Flag(true)) {
      assert resolved[Availability] in latest;
    }
  }

  // ---- the score ----

  /** The score comes from the evidence's provider snapshot and is nowhere older than the evidence. */
  ghost predicate Supports(a: Audit, latest: set<Snapshot>) {
    forall e | e in latest ::
      && a.provider == e.body.provider && e.body.asOf <= a.asOf
      && e.stamp.published <= a.stamp.published && e.stamp.knowledge <= a.stamp.knowledge
  }

  /** A precomputed record is audited as it stands: its own total, components, provider and times. */
  lemma AuditOfRecord(s: PrecomputedScore)
    ensures AsAudit(s).strategy == Some(s.key.strategy) && AsAudit(s).auditId == s.body.id && AsAudit(s).stamp == s.stamp
    ensures AsAudit(s).total == s.body.total && AsAudit(s).components == s.body.components
    ensures AsAudit(s).provider == s.body.provider && AsAudit(s).asOf == s.body.asOf
  {
  }

  /** What acceptance guarantees of every snapshot and score: a nonempty range, times in order, a known strategy and no self-reference. */
  lemma AcceptedRecords(inp: Input)
    requires AcceptedSnapshots(inp) && AcceptedScores(inp)
    ensures forall s | s in inp.snapshots ::
              && s.body.asOf <= s.stamp.published <= s.stamp.knowledge && s.stamp.supersedes != Some(s.stamp.revision)
              && (s.key.range.to.Some? ==> s.key.range.from < s.key.range.to.value)
              && exists c :: c in inp.candidates && c.strategy == s.key.strategy
    ensures forall s | s in inp.scores ::
              && s.body.asOf <= s.stamp.published <= s.stamp.knowledge && s.stamp.supersedes != Some(s.stamp.revision)
              && (s.key.range.to.Some? ==> s.key.range.from < s.key.range.to.value) && s.body.components != []
              && exists c :: c in inp.candidates && c.strategy == s.key.strategy
  {
    hide AllChains, ValidValue;
    forall s | s in inp.snapshots ensures ValidSnapshot(s) && exists c :: c in inp.candidates && c.strategy == s.key.strategy {
      var i :| 0 <= i < |inp.snapshots| && inp.snapshots[i] == s;
      StrategyHasCandidate(inp.candidates, s.key.strategy);
    }
    forall s | s in inp.scores ensures ValidScore(s) && exists c :: c in inp.candidates && c.strategy == s.key.strategy {
      var i :| 0 <= i < |inp.scores| && inp.scores[i] == s;
      StrategyHasCandidate(inp.candidates, s.key.strategy);
    }
  }

  lemma StrategyHasCandidate(candidates: seq<Candidate>, sid: Id)
    requires KnownStrategy(candidates, sid)
    ensures exists c :: c in candidates && c.strategy == sid
  {
    var i :| 0 <= i < |candidates| && candidates[i].strategy == sid;
    assert candidates[i] in candidates;
  }

  lemma ScoreVerdict(latest: set<Snapshot>, scores: set<PrecomputedScore>)
    requires !DomainConflict(latest) && EvidenceGap(ByDomain(latest)).None?
    ensures var v := JudgeScores(scores, ByDomain(latest));
            && (v.Eligible? <==> exists s :: scores == {s} && Supports(AsAudit(s), latest))
            && (v.Eligible? ==> v.resolved == ByDomain(latest) && exists s :: scores == {s} && v.audit == AsAudit(s))
  {
    hide ByDomain, EvidenceGap, DomainConflict, Maps, CompleteEvidence, Supports, CoversProviderTime, AsAudit;
    NoGapIsComplete(latest);
    ByDomainHolds(latest);
    GapParts(ByDomain(latest));
    if exists s :: scores == {s} {
      var s :| scores == {s};
      assert forall q | scores == {q} :: q == s by { forall q | scores == {q} ensures q == s { assert s in {q}; } }
      SupportsByDomain(AsAudit(s), latest, ByDomain(latest));
    } else {
      assert forall q :: scores != {q};
    }
  }

  lemma SupportsByDomain(a: Audit, latest: set<Snapshot>, resolved: map<Domain, Snapshot>)
    requires Maps(latest, resolved) && CompleteEvidence(latest) && Availability in resolved
    ensures Supports(a, latest) <==> a.provider == resolved[Availability].body.provider && CoversProviderTime(a, resolved)
  {
    if a.provider == resolved[Availability].body.provider && CoversProviderTime(a, resolved) {
      forall e | e in latest ensures a.provider == e.body.provider && e.body.asOf <= a.asOf
        && e.stamp.published <= a.stamp.published && e.stamp.knowledge <= a.stamp.knowledge
      {
        assert resolved[e.key.domain] == e && resolved[Availability] in latest;
      }
    }
  }

  lemma ReplyVerdict(latest: set<Snapshot>, reply: Reply, sid: Id, decision: int)
    requires !DomainConflict(latest) && EvidenceGap(ByDomain(latest)).None?
    ensures var v := JudgeReply(reply, sid, decision, ByDomain(latest));
            && (v.Eligible? <==> PointInTimeReply(reply, decision) && Supports(reply.audit, latest))
            && (v.Eligible? ==> v.audit == reply.audit.(strategy := Some(sid)))
  {
    hide ByDomain, EvidenceGap, DomainConflict, Maps, CompleteEvidence, Supports, CoversProviderTime;
    NoGapIsComplete(latest);
    ByDomainHolds(latest);
    GapParts(ByDomain(latest));
    if reply.Scored? {
      SupportsByDomain(reply.audit, latest, ByDomain(latest));
    }
  }

  /** The callback returned a score that was known by the decision. */
  predicate PointInTimeReply(reply: Reply, decision: int) {
    reply.Scored? && reply.audit.asOf <= decision && KnownBy(reply.audit.stamp, decision)
  }

  // ---- the characterisation ----

  /**
    With precomputed scores a strategy is scored in a fold if and only if it is active by the interval learned
    last, its latest known evidence is unambiguous and complete, and exactly one score is known and in force, from
    the same provider snapshot and no older than that evidence. The audit is then that score.
   */
  lemma EligibleIff(inp: Input, sid: Id, fold: Fold)
    requires AcceptedCandidates(inp.candidates) && AcceptedSnapshots(inp) && AcceptedScores(inp)
    ensures var v := Judge(inp, None, sid, fold);
            var latest, scores := LatestSnapshots(inp, sid, fold.decision), LatestScores(inp, sid, fold.decision);
            && (v.Eligible? <==>
                  && ActiveAt(inp, sid, fold.decision)
                  && OneEachDomain(latest) && CompleteEvidence(latest)
                  && exists s :: scores == {s} && Supports(AsAudit(s), latest))
            && (v.Eligible? ==> exists s :: scores == {s} && v.audit == AsAudit(s))
  {
    hide AcceptedCandidates, AcceptedSnapshots, AcceptedScores, ResolveLifecycle, KnownLifecycle, KnownSnapshots, KnownScores;
    hide Tips, LatestSnapshots, LatestScores, ActiveAt, EvidenceGap, ByDomain, DomainConflict, OneEachDomain, JudgeScores, CompleteEvidence, Supports, AsAudit;
    LifecycleVerdict(inp, sid, fold.decision);
    TipsAreLatest(inp, sid, fold.decision);
    var latest, scores := LatestSnapshots(inp, sid, fold.decision), LatestScores(inp, sid, fold.decision);
    ConflictOrOne(latest);
    if !DomainConflict(latest) {
      NoGapIsComplete(latest);
      if EvidenceGap(ByDomain(latest)).None? {
        ScoreVerdict(latest, scores);
      }
    }
  }

  /** What the callback answers for this evidence. */
  ghost function ReplyFor(callback: View -> Reply, sid: Id, fold: Fold, latest: set<Snapshot>): Reply
    requires OneEachDomain(latest)
  {
    ConflictOrOne(latest);
    callback(View(sid, fold.decision, fold, ByDomain(latest)))
  }

  /** With a callback the score is what the callback returns for the evidence, under the same conditions. */
  lemma EligibleByCallbackIff(inp: Input, callback: View -> Reply, sid: Id, fold: Fold)
    requires AcceptedCandidates(inp.candidates) && AcceptedSnapshots(inp) && AcceptedScores(inp)
    ensures var v := Judge(inp, Some(callback), sid, fold);
            var latest := LatestSnapshots(inp, sid, fold.decision);
            && (v.Eligible? <==>
                  && ActiveAt(inp, sid, fold.decision)
                  && OneEachDomain(latest) && CompleteEvidence(latest)
                  && PointInTimeReply(ReplyFor(callback, sid, fold, latest), fold.decision)
                  && Supports(ReplyFor(callback, sid, fold, latest).audit, latest))
            && (v.Eligible? ==> v.audit == ReplyFor(callback, sid, fold, latest).audit.(strategy := Some(sid)))
  {
    hide AcceptedCandidates, AcceptedSnapshots, AcceptedScores, ResolveLifecycle, KnownLifecycle, KnownSnapshots, KnownScores;
    hide Tips, LatestSnapshots, ActiveAt, EvidenceGap, ByDomain, DomainConflict, OneEachDomain, JudgeReply, CompleteEvidence, Supports;
    LifecycleVerdict(inp, sid, fold.decision);
    TipsAreLatest(inp, sid, fold.decision);
    var latest := LatestSnapshots(inp, sid, fold.decision);
    ConflictOrOne(latest);
    if !DomainConflict(latest) {
      NoGapIsComplete(latest);
      if EvidenceGap(ByDomain(latest)).None? {
        ReplyVerdict(latest, callback(View(sid, fold.decision, fold, ByDomain(latest))), sid, fold.decision);
      }
    }
  }

  /** Why a strategy is set aside for its lifecycle, whichever score source is used. */
  lemma LifecycleFailures(inp: Input, scorer: Scorer, sid: Id, fold: Fold)
    requires AcceptedCandidates(inp.candidates)
    ensures Judge(inp, scorer, sid, fold) == Ineligible(LifecycleUnknown) <==> KnownLifecycle(inp, sid, fold.decision) == {}
    ensures Judge(inp, scorer, sid, fold) == Ineligible(TerminalLifecycle)
            <==> KnownLifecycle(inp, sid, fold.decision) != {} && !ActiveAt(inp, sid, fold.decision)
  {
    LifecycleVerdict(inp, sid, fold.decision);
    ActiveCodes(inp, scorer, sid, fold);
    hide KnownLifecycle, ResolveLifecycle, ActiveAt, JudgeActive;
  }

  lemma ActiveCodes(inp: Input, scorer: Scorer, sid: Id, fold: Fold)
    ensures JudgeActive(inp, scorer, sid, fold) != Ineligible(LifecycleUnknown)
    ensures JudgeActive(inp, scorer, sid, fold) != Ineligible(TerminalLifecycle)
  {
    hide KnownSnapshots, KnownScores, ByDomain, CoversProviderTime, AsAudit;
  }

  /** A required domain is missing exactly when no snapshot of it is known and in force, however many revisions there are. */
  lemma MissingMeansNothingKnown(inp: Input, sid: Id, decision: int, d: Domain)
    requires AcceptedSnapshots(inp) && !DomainConflict(Tips(KnownSnapshots(inp, sid, decision)))
    ensures d in ByDomain(Tips(KnownSnapshots(inp, sid, decision))) <==> exists s :: s in KnownSnapshots(inp, sid, decision) && s.key.domain == d
  {
    var known := KnownSnapshots(inp, sid, decision);
    var tips := Tips(known);
    ByDomainHolds(tips);
    hide AcceptedSnapshots, ByDomain, DomainConflict;
    if s :| s in known && s.key.domain == d {
      assert AllChains(inp.snapshots) by { ChainsOf(inp); }
      var r := ResolutionIsTotal(inp.snapshots, (k: SnapshotKey) => k.strategy == sid && Covers(k.range, decision), decision, s);
      assert r in tips && r.key.domain == d;
    }
  }

  lemma ChainsOf(inp: Input)
    requires AcceptedSnapshots(inp)
    ensures AllChains(inp.snapshots)
  {
  }

  // ---- which failure is recorded ----

  ghost predicate HasDomain(latest: set<Snapshot>, d: Domain) {
    exists s :: s in latest && s.key.domain == d
  }

  ghost predicate AllRequired(latest: set<Snapshot>) {
    && HasDomain(latest, Classification) && HasDomain(latest, Benchmark) && HasDomain(latest, Manager)
    && HasDomain(latest, FeeBps) && HasDomain(latest, Availability)
  }

  lemma RequiredMeaning(latest: set<Snapshot>)
    ensures AllRequired(latest) <==> forall d | d in REQUIRED_DOMAINS :: exists s :: s in latest && s.key.domain == d
  {
    if forall d | d in REQUIRED_DOMAINS :: HasDomain(latest, d) {
      assert Classification in REQUIRED_DOMAINS && Benchmark in REQUIRED_DOMAINS && Manager in REQUIRED_DOMAINS;
      assert FeeBps in REQUIRED_DOMAINS && Availability in REQUIRED_DOMAINS;
    }
  }

  ghost predicate OneSource(latest: set<Snapshot>) {
    forall s, t | s in latest && t in latest :: s.body.provider == t.body.provider
  }

  ghost predicate SomethingUnknown(latest: set<Snapshot>) {
    exists s :: s in latest && s.body.value == Missing
  }

  ghost predicate SaysAvailable(latest: set<Snapshot>) {
    exists s :: s in latest && s.key.domain == Availability && s.body.value == Flag(true)
  }

  lemma GapInOrder(resolved: map<Domain, Snapshot>)
    ensures var gap := EvidenceGap(resolved);
            var all, one := REQUIRED_DOMAINS <= resolved.Keys, |Providers(resolved)| == 1;
            var unknown := exists d | d in resolved :: resolved[d].body.value == Missing;
            && (gap == Some(SnapshotMissing) <==> !all)
            && (gap == Some(ProviderSnapshotConflict) <==> all && !one)
            && (gap == Some(SnapshotUnknown) <==> all && one && unknown)
            && (gap == Some(Unavailable) <==> all && one && !unknown && !(Availability in resolved && resolved[Availability].body.value == Flag(true)))
  {
    hide Providers;
    assert Availability in REQUIRED_DOMAINS;
  }

  lemma GapNames(resolved: map<Domain, Snapshot>)
    ensures EvidenceGap(resolved).Some? ==> EvidenceGap(resolved).value in {SnapshotMissing, ProviderSnapshotConflict, SnapshotUnknown, Unavailable}
  {
    hide Providers;
  }

  lemma RequiredAndOneSource(latest: set<Snapshot>, resolved: map<Domain, Snapshot>)
    requires Maps(latest, resolved)
    ensures AllRequired(latest) <==> REQUIRED_DOMAINS <= resolved.Keys
    ensures AllRequired(latest) ==> (OneSource(latest) <==> |Providers(resolved)| == 1)
  {
    RequiredMeaning(latest);
    hide Providers, Maps, AllRequired;
    RequiredByDomain(latest, resolved);
    if Availability in resolved {
      OneProvider(resolved);
      SameProviders(latest, resolved);
    }
  }

  lemma UnknownAndAvailable(latest: set<Snapshot>, resolved: map<Domain, Snapshot>)
    requires Maps(latest, resolved)
    ensures SomethingUnknown(latest) <==> exists d | d in resolved :: resolved[d].body.value == Missing
    ensures SaysAvailable(latest) <==> Availability in resolved && resolved[Availability].body.value == Flag(true)
  {
    if d :| d in resolved && resolved[d].body.value == Missing {
      assert resolved[d] in latest;
    }
    if Availability in resolved {
      assert resolved[Availability] in latest;
    }
  }

  /** The first thing wrong with the latest known evidence, in the order of the checks. */
  lemma EvidenceCodes(latest: set<Snapshot>)
    requires !DomainConflict(latest)
    ensures var gap := EvidenceGap(ByDomain(latest));
            && (gap == Some(SnapshotMissing) <==> !AllRequired(latest))
            && (gap == Some(ProviderSnapshotConflict) <==> AllRequired(latest) && !OneSource(latest))
            && (gap == Some(SnapshotUnknown) <==> AllRequired(latest) && OneSource(latest) && SomethingUnknown(latest))
            && (gap == Some(Unavailable) <==> AllRequired(latest) && OneSource(latest) && !SomethingUnknown(latest) && !SaysAvailable(latest))
            && (gap.Some? ==> gap.value in {SnapshotMissing, ProviderSnapshotConflict, SnapshotUnknown, Unavailable})
  {
    GapNames(ByDomain(latest));
    hide ByDomain, Providers, DomainConflict, EvidenceGap, Maps, AllRequired, OneSource, SomethingUnknown, SaysAvailable;
    ByDomainHolds(latest);
    var resolved := ByDomain(latest);
    GapInOrder(resolved);
    RequiredAndOneSource(latest, resolved);
    UnknownAndAvailable(latest, resolved);
  }

  /** Why an active strategy is set aside for its evidence, whichever score source is used. */
  lemma EvidenceFailures(inp: Input, scorer: Scorer, sid: Id, fold: Fold)
    requires AcceptedCandidates(inp.candidates) && AcceptedSnapshots(inp) && AcceptedScores(inp) && ActiveAt(inp, sid, fold.decision)
    ensures var v, latest := Judge(inp, scorer, sid, fold), LatestSnapshots(inp, sid, fold.decision);
            var clear := OneEachDomain(latest);
            && (v == Ineligible(SnapshotConflict) <==> !clear)
            && (v == Ineligible(SnapshotMissing) <==> clear && !AllRequired(latest))
            && (v == Ineligible(ProviderSnapshotConflict) <==> clear && AllRequired(latest) && !OneSource(latest))
            && (v == Ineligible(SnapshotUnknown) <==> clear && AllRequired(latest) && OneSource(latest) && SomethingUnknown(latest))
            && (v == Ineligible(Unavailable)
                <==> clear && AllRequired(latest) && OneSource(latest) && !SomethingUnknown(latest) && !SaysAvailable(latest))
  {
    hide AcceptedCandidates, AcceptedSnapshots, AcceptedScores, ResolveLifecycle, KnownLifecycle, KnownSnapshots, KnownScores, JudgeScoreSource;
    hide Tips, LatestSnapshots, ActiveAt, EvidenceGap, ByDomain, DomainConflict, OneEachDomain, AllRequired, OneSource, SomethingUnknown, SaysAvailable;
    LifecycleVerdict(inp, sid, fold.decision);
    TipsAreLatest(inp, sid, fold.decision);
    var latest := LatestSnapshots(inp, sid, fold.decision);
    ConflictOrOne(latest);
    if !DomainConflict(latest) {
      EvidenceCodes(latest);
      if EvidenceGap(ByDomain(latest)).None? {
        ScoreCodesOnly(inp, scorer, sid, fold, ByDomain(latest));
      }
    }
  }

  lemma ScoreCodesOnly(inp: Input, scorer: Scorer, sid: Id, fold: Fold, resolved: map<Domain, Snapshot>)
    requires EvidenceGap(resolved).None?
    ensures var v := JudgeScoreSource(inp, scorer, sid, fold, resolved);
            v.Ineligible? ==> v.code in {ScoreMissing, ScoreConflict, ScoreProviderMismatch, ScoreProviderTimeMismatch}
  {
    hide EvidenceGap, CoversProviderTime, KnownScores, Tips, AsAudit;
  }

  /** The score is from the snapshot's provider. */
  ghost predicate SameProviderAs(a: Audit, latest: set<Snapshot>) {
    forall e | e in latest :: a.provider == e.body.provider
  }

  lemma ProviderCode(a: Audit, latest: set<Snapshot>)
    requires !DomainConflict(latest) && EvidenceGap(ByDomain(latest)).None?
    ensures var v := JudgeAudit(a, ByDomain(latest));
            && (v == Ineligible(ScoreProviderMismatch) <==> !SameProviderAs(a, latest))
            && (v == Ineligible(ScoreProviderTimeMismatch) <==> SameProviderAs(a, latest) && !Supports(a, latest))
            && (v.Eligible? <==> Supports(a, latest)) && !v.Abort?
  {
    hide ByDomain, EvidenceGap, DomainConflict, Maps, CompleteEvidence, Supports, CoversProviderTime;
    NoGapIsComplete(latest);
    ByDomainHolds(latest);
    GapParts(ByDomain(latest));
    SupportsByDomain(a, latest, ByDomain(latest));
    ProviderOfAvailability(a, latest, ByDomain(latest));
  }

  lemma ProviderOfAvailability(a: Audit, latest: set<Snapshot>, resolved: map<Domain, Snapshot>)
    requires Maps(latest, resolved) && CompleteEvidence(latest) && Availability in resolved
    ensures SameProviderAs(a, latest) <==> a.provider == resolved[Availability].body.provider
  {
    assert resolved[Availability] in latest;
  }

  /** Why a precomputed score is set aside, given complete evidence: none, several, another provider, or older than the evidence. */
  lemma ScoreFailures(latest: set<Snapshot>, scores: set<PrecomputedScore>)
    requires !DomainConflict(latest) && EvidenceGap(ByDomain(latest)).None?
    ensures var v := JudgeScores(scores, ByDomain(latest));
            && (v == Ineligible(ScoreMissing) <==> scores == {})
            && (v == Ineligible(ScoreConflict) <==> exists s, t :: s in scores && t in scores && s != t)
            && forall s | scores == {s} ::
                 && (v == Ineligible(ScoreProviderMismatch) <==> !SameProviderAs(AsAudit(s), latest))
                 && (v == Ineligible(ScoreProviderTimeMismatch) <==> SameProviderAs(AsAudit(s), latest) && !Supports(AsAudit(s), latest))
  {
    hide ByDomain, EvidenceGap, DomainConflict, Supports, SameProviderAs, JudgeAudit, AsAudit;
    if scores != {} {
      var s :| s in scores;
      if scores == {s} {
        assert forall q | scores == {q} :: q == s by { forall q | scores == {q} ensures q == s { assert s in {q}; } }
        ProviderCode(AsAudit(s), latest);
        AuditCodes(AsAudit(s), ByDomain(latest));
      } else {
        var t :| t in scores && t != s;
        assert forall q :: scores != {q} by { forall q ensures scores != {q} { assert s in {q} && t in {q} ==> s == t; } }
      }
    }
  }

  lemma AuditCodes(a: Audit, resolved: map<Domain, Snapshot>)
    requires EvidenceGap(resolved).None?
    ensures var v := JudgeAudit(a, resolved); v.Ineligible? ==> v.code in {ScoreProviderMismatch, ScoreProviderTimeMismatch}
  {
    hide EvidenceGap, CoversProviderTime;
  }

  /** Why a callback's answer is set aside or ends the run, given complete evidence. */
  lemma ReplyFailures(latest: set<Snapshot>, reply: Reply, sid: Id, decision: int)
    requires !DomainConflict(latest) && EvidenceGap(ByDomain(latest)).None?
    ensures var v := JudgeReply(reply, sid, decision, ByDomain(latest));
            && (v == Abort(ScoreCallbackFailed) <==> reply.Raised?)
            && (v == Abort(InvalidScoreResult) <==> reply.NotAScoreResult?)
            && (v == Abort(ScoreNotPointInTime) <==> reply.Scored? && !PointInTimeReply(reply, decision))
            && (v == Ineligible(ScoreMissing) <==> reply.NoScore?)
            && (v == Ineligible(ScoreProviderMismatch) <==> PointInTimeReply(reply, decision) && !SameProviderAs(reply.audit, latest))
            && (v == Ineligible(ScoreProviderTimeMismatch)
                <==> PointInTimeReply(reply, decision) && SameProviderAs(reply.audit, latest) && !Supports(reply.audit, latest))
  {
    hide ByDomain, EvidenceGap, DomainConflict, Supports, SameProviderAs, JudgeAudit;
    if reply.Scored? {
      ProviderCode(reply.audit, latest);
      AuditCodes(reply.audit, ByDomain(latest));
    }
  }
}
