/**
  The point-in-time research run of src/openfundscore/walk_forward.py as a specification: what one
  fold decides about one strategy, how a fold collects these verdicts, and how the state carried
  between folds (previous scores, previous selection, the registry of score audits) evolves.
  Resolution is stated over sets of records, so nothing here can depend on input order.
 */
module WalkForward {
  import opened Prelude
  import opened Ordering
  import opened Revisions
  import opened Records
  import opened Lifecycle
  import opened Ranking
  import opened Stability

  // ---- records ----

  datatype Provider = Provider(id: Id, snapshot: Id, version: Id)

  datatype Value = Missing | Flag(b: bool) | Text(text: string) | Number(x: real)

  datatype Domain = Classification | Benchmark | Manager | FeeBps | Availability | Feature(name: string)

  const REQUIRED_DOMAINS: set<Domain> := {Classification, Benchmark, Manager, FeeBps, Availability}

  datatype SnapshotKey = SnapshotKey(strategy: Id, domain: Domain, range: Range)
  datatype SnapshotBody = SnapshotBody(id: Id, provider: Provider, value: Value, asOf: int)
  type Snapshot = Record<SnapshotKey, SnapshotBody>

  datatype Component = Component(name: Id, contribution: Option<real>)

  datatype ScoreKey = ScoreKey(strategy: Id, range: Range)
  datatype ScoreBody = ScoreBody(id: Id, total: real, components: seq<Component>, provider: Provider, asOf: int)
  type PrecomputedScore = Record<ScoreKey, ScoreBody>

  /** `ScoreResult`: the audited score, whichever source it comes from. */
  datatype Audit = Audit(strategy: Option<Id>, auditId: Id, stamp: Stamp, total: real,
                         components: seq<Component>, provider: Provider, asOf: int)

  datatype Candidate = Candidate(share: Id, strategy: Id, inception: int, lifecycle: seq<Interval>)

  datatype Fold = Fold(id: Id, trainStart: int, trainEnd: int, validationStart: int, validationEnd: int,
                       decision: int, outcomeStart: int, outcomeEnd: int, embargoSeconds: int)

  datatype FutureOutcome = FutureOutcome(id: Id, strategy: Id, windowStart: int, windowEnd: int,
                                         periodReturns: seq<real>, peerReturns: seq<real>)

  datatype Input = Input(folds: seq<Fold>, selectCount: int, candidates: seq<Candidate>,
                         snapshots: seq<Snapshot>, outcomes: seq<FutureOutcome>, scores: seq<PrecomputedScore>)

  /** `ScoringView`; the tuple of snapshots sorted by domain is the map from domain to snapshot. */
  datatype View = View(strategy: Id, decision: int, fold: Fold, snapshots: map<Domain, Snapshot>)

  /** What the callback does: raise, return something else, return None, or return a score. */
  datatype Reply = Raised | NotAScoreResult | NoScore | Scored(audit: Audit)

  type Scorer = Option<View -> Reply>

  datatype FailureCode =
    | LifecycleUnknown | TerminalLifecycle | SnapshotConflict | SnapshotMissing | ProviderSnapshotConflict
    | SnapshotUnknown | Unavailable | ScoreProviderMismatch | ScoreProviderTimeMismatch
    | ScoreMissing | ScoreConflict | ScoreAuditConflictInFold

  datatype Failure = Failure(code: FailureCode, strategy: Id)

  datatype RunError =
    | InvalidInput | EmptyUniverse | ScoreCallbackFailed | InvalidScoreResult | ScoreNotPointInTime | ScoreAuditConflict

  // ---- what a decision can see ----

  ghost predicate HasInterval(inp: Input, sid: Id, r: Interval) {
    exists c :: c in inp.candidates && c.strategy == sid && r in c.lifecycle
  }

  ghost predicate InceptedAt(inp: Input, sid: Id, t: int) {
    exists c :: c in inp.candidates && c.strategy == sid && c.inception == t
  }

  ghost predicate InceptedBy(inp: Input, sid: Id, decision: int) {
    exists t :: t <= decision && InceptedAt(inp, sid, t)
  }

  ghost function KnownLifecycle(inp: Input, sid: Id, decision: int): set<Interval> {
    set c, r | c in inp.candidates && c.strategy == sid && r in c.lifecycle && Covers(r.key, decision) && KnownBy(r.stamp, decision) :: r
  }

  ghost function KnownSnapshots(inp: Input, sid: Id, decision: int): set<Snapshot> {
    Visible(inp.snapshots, (k: SnapshotKey) => k.strategy == sid && Covers(k.range, decision), decision)
  }

  ghost function KnownScores(inp: Input, sid: Id, decision: int): set<PrecomputedScore> {
    Visible(inp.scores, (k: ScoreKey) => k.strategy == sid && Covers(k.range, decision), decision)
  }

  /** The strategies that existed at the decision, in identifier order. */
  ghost function Universe(inp: Input, decision: int): set<Id> {
    set c | c in inp.candidates && c.inception <= decision :: c.strategy
  }

  // ---- one strategy in one fold ----

  datatype Verdict =
    | Abort(error: RunError)
    | Ineligible(code: FailureCode)
    | Eligible(audit: Audit, resolved: map<Domain, Snapshot>)

  ghost predicate DomainConflict(tips: set<Snapshot>) {
    exists s, t :: s in tips && t in tips && s != t && s.key.domain == t.key.domain
  }

  ghost function ByDomain(tips: set<Snapshot>): map<Domain, Snapshot>
    requires !DomainConflict(tips)
  {
    map s | s in tips :: s.key.domain := s
  }

  function Providers(resolved: map<Domain, Snapshot>): set<Provider> {
    set d | d in resolved :: resolved[d].body.provider
  }

  /** The checks from domain coverage to availability, in the source's order. */
  function EvidenceGap(resolved: map<Domain, Snapshot>): Option<FailureCode> {
    if !(REQUIRED_DOMAINS <= resolved.Keys) then Some(SnapshotMissing)
    else if |Providers(resolved)| != 1 then Some(ProviderSnapshotConflict)
    else if exists d | d in resolved :: resolved[d].body.value == Missing then Some(SnapshotUnknown)
    else if resolved[Availability].body.value != Flag(true) then Some(Unavailable)
    else None
  }

  /** `_score_covers_provider_time` */
  predicate CoversProviderTime(audit: Audit, resolved: map<Domain, Snapshot>) {
    forall d | d in resolved ::
      && resolved[d].body.asOf <= audit.asOf
      && resolved[d].stamp.published <= audit.stamp.published
      && resolved[d].stamp.knowledge <= audit.stamp.knowledge
  }

  /** Provider identity and time checks shared by both score sources. */
  function JudgeAudit(audit: Audit, resolved: map<Domain, Snapshot>): Verdict
    requires EvidenceGap(resolved).None?
  {
    if audit.provider != resolved[Availability].body.provider then Ineligible(ScoreProviderMismatch)
    else if !CoversProviderTime(audit, resolved) then Ineligible(ScoreProviderTimeMismatch)
    else Eligible(audit, resolved)
  }

  function JudgeReply(reply: Reply, sid: Id, decision: int, resolved: map<Domain, Snapshot>): Verdict
    requires EvidenceGap(resolved).None?
  {
    match reply
    case Raised => Abort(ScoreCallbackFailed)
    case NotAScoreResult => Abort(InvalidScoreResult)
    case NoScore => Ineligible(ScoreMissing)
    case Scored(audit) =>
      if audit.asOf > decision || audit.stamp.published > decision || audit.stamp.knowledge > decision then Abort(ScoreNotPointInTime)
      else
        match JudgeAudit(audit, resolved)
        case Eligible(_, _) => Eligible(audit.(strategy := Some(sid)), resolved)
        case other => other
  }

  function AsAudit(s: PrecomputedScore): Audit {
    Audit(Some(s.key.strategy), s.body.id, s.stamp, s.body.total, s.body.components, s.body.provider, s.body.asOf)
  }

  ghost function JudgeScores(tips: set<PrecomputedScore>, resolved: map<Domain, Snapshot>): Verdict
    requires EvidenceGap(resolved).None?
  {
    if tips == {} then Ineligible(ScoreMissing)
    else if exists s :: tips == {s} then
      var s :| tips == {s};
      JudgeAudit(AsAudit(s), resolved)
    else Ineligible(ScoreConflict)
  }

  ghost function JudgeScoreSource(inp: Input, scorer: Scorer, sid: Id, fold: Fold, resolved: map<Domain, Snapshot>): Verdict
    requires EvidenceGap(resolved).None?
  {
    if scorer.Some?
    then JudgeReply(scorer.value(View(sid, fold.decision, fold, resolved)), sid, fold.decision, resolved)
    else JudgeScores(Tips(KnownScores(inp, sid, fold.decision)), resolved)
  }

  ghost function JudgeResolved(inp: Input, scorer: Scorer, sid: Id, fold: Fold, resolved: map<Domain, Snapshot>): Verdict {
    match EvidenceGap(resolved)
    case Some(code) => Ineligible(code)
    case None => JudgeScoreSource(inp, scorer, sid, fold, resolved)
  }

  ghost function JudgeActive(inp: Input, scorer: Scorer, sid: Id, fold: Fold): Verdict {
    var tips := Tips(KnownSnapshots(inp, sid, fold.decision));
    if DomainConflict(tips) then Ineligible(SnapshotConflict)
    else JudgeResolved(inp, scorer, sid, fold, ByDomain(tips))
  }

  ghost function Judge(inp: Input, scorer: Scorer, sid: Id, fold: Fold): Verdict {
    match ResolveLifecycle(KnownLifecycle(inp, sid, fold.decision))
    case None => Ineligible(LifecycleUnknown)
    case Some(status) =>
      if status != Active then Ineligible(TerminalLifecycle) else JudgeActive(inp, scorer, sid, fold)
  }

  // ---- one fold ----

  datatype AuditKey = AuditKey(strategy: Id, auditId: Id, revision: Id)
  type Registry = map<AuditKey, Audit>

  function KeyOf(sid: Id, audit: Audit): AuditKey {
    AuditKey(sid, audit.auditId, audit.stamp.revision)
  }

  /** What a fold has collected; `trail` is the fold's own score audit trail. */
  datatype Tally = Tally(scores: seq<Entry>, audits: map<Id, Audit>, resolved: map<Id, map<Domain, Snapshot>>,
                         trail: Registry, failures: seq<Failure>, terminal: nat, registry: Registry)

  function EmptyTally(registry: Registry): Tally {
    Tally([], map[], map[], map[], [], 0, registry)
  }

  /** One turn of the strategy loop. Only callback audits go through the run-wide registry. */
  function Collect(t: Tally, sid: Id, v: Verdict, callback: bool): Result<Tally, RunError> {
    match v
    case Abort(e) => Err(e)
    case Ineligible(code) =>
      Ok(t.(failures := t.failures + [Failure(code, sid)], terminal := t.terminal + (if code == TerminalLifecycle then 1 else 0)))
    case Eligible(audit, resolved) =>
      var key := KeyOf(sid, audit);
      if callback && key in t.registry && t.registry[key] != audit then Err(ScoreAuditConflict)
      else
        var t := if callback then t.(registry := t.registry[key := audit]) else t;
        if callback && key in t.trail && t.trail[key] != audit then
          Ok(t.(failures := t.failures + [Failure(ScoreAuditConflictInFold, sid)]))
        else
          Ok(t.(trail := t.trail[key := audit],
                audits := t.audits[sid := audit],
                scores := t.scores + [Entry(sid, audit.total)],
                resolved := t.resolved[sid := resolved]))
  }

  ghost function Screen(inp: Input, scorer: Scorer, fold: Fold, strategies: seq<Id>, registry: Registry): Result<Tally, RunError> {
    if strategies == [] then Ok(EmptyTally(registry))
    else
      var n := |strategies| - 1;
      match Screen(inp, scorer, fold, strategies[..n], registry)
      case Err(e) => Err(e)
      case Ok(t) => Collect(t, strategies[n], Judge(inp, scorer, strategies[n], fold), scorer.Some?)
  }

  function ScoreMap(scores: seq<Entry>): map<Id, real> {
    if scores == [] then map[]
    else
      var n := |scores| - 1;
      ScoreMap(scores[..n])[scores[n].id := scores[n].value]
  }

  function IdsOf(scores: seq<Entry>): (ids: seq<Id>)
    ensures |ids| == |scores| && forall i | 0 <= i < |scores| :: ids[i] == scores[i].id
  {
    seq(|scores|, i requires 0 <= i < |scores| => scores[i].id)
  }

  /** The best `count` strategies, by descending score and then identifier. */
  function Select(scores: seq<Entry>, count: int): seq<Id> {
    var ordered := SortBy(scores, EntryLeq);
    IdsOf(if 0 <= count < |ordered| then ordered[..count] else ordered)
  }

  // ---- the run ----

  /** Everything a fold freezes before any outcome is looked at. */
  datatype Frozen = Frozen(fold: Fold, universe: seq<Id>, scores: seq<Entry>, selected: seq<Id>, audits: map<Id, Audit>,
                           resolved: map<Id, map<Domain, Snapshot>>, failures: seq<Failure>, terminal: nat,
                           stability: Metric, turnover: Metric)

  ghost predicate ActiveAt(inp: Input, sid: Id, decision: int) {
    ResolveLifecycle(KnownLifecycle(inp, sid, decision)) == Some(Active)
  }

  /** The fold's snapshot audit trail: what was known and in force of its active strategies, superseded revisions included. */
  ghost function SnapshotTrail(inp: Input, universe: seq<Id>, decision: int): set<Snapshot> {
    set s | s in inp.snapshots && s.key.strategy in universe && ActiveAt(inp, s.key.strategy, decision)
            && Covers(s.key.range, decision) && KnownBy(s.stamp, decision) :: s
  }

  /** The fold's lifecycle audit: every interval of its strategies that was known, in force or not. */
  ghost function LifecycleTrail(inp: Input, universe: seq<Id>, decision: int): set<(Id, Interval)> {
    set c, r | c in inp.candidates && c.strategy in universe && r in c.lifecycle && KnownBy(r.stamp, decision) :: (c.strategy, r)
  }

  datatype Progress = Progress(reports: seq<Frozen>, previousScores: Option<map<Id, real>>,
                               previousSelection: Option<seq<Id>>, registry: Registry)

  ghost function RunFold(inp: Input, scorer: Scorer, fold: Fold, p: Progress): Result<Progress, RunError> {
    var universe := Sorted(Universe(inp, fold.decision));
    if universe == [] then Err(EmptyUniverse)
    else
      match Screen(inp, scorer, fold, universe, p.registry)
      case Err(e) => Err(e)
      case Ok(t) =>
        var scores, selected := SortBy(t.scores, EntryLeq), Select(t.scores, inp.selectCount);
        var current := ScoreMap(scores);
        var report := Frozen(fold, universe, scores, selected, t.audits, t.resolved, t.failures, t.terminal,
                             StabilityOf(p.previousScores, current), Turnover(p.previousSelection, selected));
        Ok(Progress(p.reports + [report], Some(current), Some(selected), t.registry))
  }

  /** The run after its first `n` folds. */
  ghost function RunTo(inp: Input, scorer: Scorer, n: nat): Result<Progress, RunError>
    requires n <= |inp.folds|
  {
    if n == 0 then Ok(Progress([], None, None, map[]))
    else
      match RunTo(inp, scorer, n - 1)
      case Err(e) => Err(e)
      case Ok(p) => RunFold(inp, scorer, inp.folds[n - 1], p)
  }

  // ---- accepted inputs ----

  const MAX_OUTCOME_PERIODS := 256

  predicate ValidFold(f: Fold) {
    && f.trainStart <= f.trainEnd < f.validationStart <= f.validationEnd < f.decision < f.outcomeStart <= f.outcomeEnd
    && 0 <= f.embargoSeconds && f.decision + f.embargoSeconds * 1_000_000 <= f.outcomeStart
  }

  predicate AcceptedFolds(folds: seq<Fold>, selectCount: int) {
    && folds != [] && |folds| <= MAX_INPUT_ITEMS && selectCount >= 1
    && (forall i | 0 <= i < |folds| :: ValidFold(folds[i]))
    && (forall i, j | 0 <= i < j < |folds| :: folds[i].decision < folds[j].decision && folds[i].id != folds[j].id)
    && (forall i | 1 <= i < |folds| :: folds[i - 1].outcomeEnd < folds[i].outcomeStart)
  }

  predicate ValidRange(r: Range) {
    r.to.Some? ==> r.from < r.to.value
  }

  predicate ValidStamp(s: Stamp, asOf: int) {
    s.supersedes != Some(s.revision) && asOf <= s.published <= s.knowledge
  }

  predicate ValidValue(domain: Domain, value: Value) {
    match domain
    case Availability => value.Missing? || value.Flag?
    case FeeBps => value.Missing? || (value.Number? && 0.0 <= value.x <= 100_000.0)
    case Feature(_) => true
    case _ => value.Missing? || value.Text?
  }

  predicate ValidSnapshot(s: Snapshot) {
    ValidRange(s.key.range) && ValidStamp(s.stamp, s.body.asOf) && ValidValue(s.key.domain, s.body.value)
  }

  predicate ValidScore(s: PrecomputedScore) {
    ValidRange(s.key.range) && ValidStamp(s.stamp, s.body.asOf) && s.body.components != []
  }

  predicate ValidOutcome(o: FutureOutcome) {
    && o.windowStart <= o.windowEnd
    && o.periodReturns != [] && |o.periodReturns| == |o.peerReturns| <= MAX_OUTCOME_PERIODS
    && (forall i | 0 <= i < |o.periodReturns| :: -1.0 <= o.periodReturns[i] <= 1.0 && -1.0 <= o.peerReturns[i] <= 1.0)
  }

  predicate KnownStrategy(candidates: seq<Candidate>, sid: Id) {
    exists i | 0 <= i < |candidates| :: candidates[i].strategy == sid
  }

  ghost predicate AcceptedCandidates(cs: seq<Candidate>) {
    && cs != [] && |cs| <= 100_000
    && (forall i | 0 <= i < |cs| :: AcceptedLifecycle(cs[i].lifecycle))
    && (forall i, j | 0 <= i < j < |cs| :: cs[i].share != cs[j].share)
    && (forall i, j | 0 <= i < |cs| && 0 <= j < |cs| && cs[i].strategy == cs[j].strategy
          :: cs[i].inception == cs[j].inception && cs[i].lifecycle == cs[j].lifecycle)
  }

  ghost predicate AcceptedSnapshots(inp: Input) {
    && |inp.snapshots| <= 100_000
    && (forall i | 0 <= i < |inp.snapshots| :: ValidSnapshot(inp.snapshots[i]) && KnownStrategy(inp.candidates, inp.snapshots[i].key.strategy))
    && (forall i, j | 0 <= i < j < |inp.snapshots| :: inp.snapshots[i].body.id != inp.snapshots[j].body.id)
    && AllChains(inp.snapshots)
  }

  ghost predicate AcceptedScores(inp: Input) {
    && |inp.scores| <= 100_000
    && (forall i | 0 <= i < |inp.scores| :: ValidScore(inp.scores[i]) && KnownStrategy(inp.candidates, inp.scores[i].key.strategy))
    && (forall i, j | 0 <= i < j < |inp.scores| :: inp.scores[i].body.id != inp.scores[j].body.id)
    && AllChains(inp.scores)
  }

  predicate AcceptedOutcomes(inp: Input) {
    var os := inp.outcomes;
    && |os| <= MAX_INPUT_ITEMS
    && (forall i | 0 <= i < |os| :: ValidOutcome(os[i]) && KnownStrategy(inp.candidates, os[i].strategy))
    && (forall i | 0 <= i < |os| ::
          exists k | 0 <= k < |inp.folds| :: inp.folds[k].outcomeStart == os[i].windowStart && inp.folds[k].outcomeEnd == os[i].windowEnd)
    && (forall i, j | 0 <= i < j < |os| :: os[i].id != os[j].id)
    && (forall i, j | 0 <= i < j < |os| && os[i].windowStart == os[j].windowStart && os[i].windowEnd == os[j].windowEnd ::
          os[i].strategy != os[j].strategy && |os[i].periodReturns| == |os[j].periodReturns|)
  }

  ghost predicate Accepted(inp: Input, callback: bool) {
    && AcceptedFolds(inp.folds, inp.selectCount)
    && AcceptedCandidates(inp.candidates)
    && (callback <==> inp.scores == [])
    && AcceptedSnapshots(inp)
    && AcceptedOutcomes(inp)
    && AcceptedScores(inp)
  }
}
