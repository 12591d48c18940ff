/** `validate_score_evidence_usage` of src/openfundscore/evidence_usage.py: which ledgers are accepted, and the first fault of the others. */
module EvidenceUsage {
  import opened Prelude
  import opened Ordering
  import opened Calendar
  import S = OverlapSweep

  const MAX_USAGE_ITEMS := 1000

  /** A UTC instant as its date and the microseconds since that date began. */
  datatype Moment = Moment(date: Day, micros: nat)

  predicate NotAfter(a: Moment, b: Moment) {
    (a.date != b.date && Leq(a.date, b.date)) || (a.date == b.date && a.micros <= b.micros)
  }

  datatype Basis = PointInTime | CalendarMonths | ActualDates | Unknown

  /** The 0.2 fields; `months` is `None` when the value is not a built-in integer. */
  datatype Declared = Declared(observed: Moment, basis: Basis, months: Option<int>)

  /** `declared` is present when all four 0.2 fields are. */
  datatype Usage = Usage(claim: S.Claim, family: string, start: Day, end: Day, declared: Option<Declared>)

  datatype Fault =
    | UnknownComponent
    | DuplicateOf(first: nat)
    | ReversedWindow
    | WindowAfterLedger
    | ObservationAfterLedger
    | WindowAfterObservation
    | MonthsOutOfBounds
    | NotPointInTime
    | ShiftBeforeYearOne
    | NotCalendarWindow
    | NotActualMonths
    | UnsupportedBasis

  datatype Rejection = TooManyItems | At(index: nat, fault: Fault) | DoubleCounted(left: nat, right: nat)

  function DeclaredFault(d: Declared, ledger: Moment, start: Day, end: Day): Option<Fault>
  {
    var observed := d.observed.date;
    if !NotAfter(d.observed, ledger) then Some(ObservationAfterLedger)
    else if !Leq(end, observed) then Some(WindowAfterObservation)
    else if d.months.None? || !(0 <= d.months.value <= 1200) then Some(MonthsOutOfBounds)
    else
      match d.basis
      case PointInTime =>
        if d.months.value != 0 || start != observed || end != observed then Some(NotPointInTime) else None
      case CalendarMonths =>
        var expected := SubtractMonths(observed, d.months.value);
        if expected.None? then Some(ShiftBeforeYearOne)
        else if end != observed || start != expected.value then Some(NotCalendarWindow)
        else None
      case ActualDates =>
        if CompleteMonthsBetween(start, end) != Option.Some(d.months.value) then Some(NotActualMonths) else None
      case Unknown => Some(UnsupportedBasis)
  }

  function WindowFault(u: Usage, ledger: Moment): Option<Fault>
  {
    if !Leq(u.start, u.end) then Some(ReversedWindow)
    else if !Leq(u.end, ledger.date) then Some(WindowAfterLedger)
    else if u.declared.Some? then DeclaredFault(u.declared.value, ledger, u.start, u.end)
    else None
  }

  /** Whatever basis a 0.2 entry declares, acceptance means its months are the complete months between its endpoints. */
  lemma AcceptedMonthsAreComplete(u: Usage, ledger: Moment)
    requires u.declared.Some? && WindowFault(u, ledger).None?
    ensures CompleteMonthsBetween(u.start, u.end) == u.declared.value.months
    ensures Leq(u.start, u.end) && Leq(u.end, u.declared.value.observed.date) && NotAfter(u.declared.value.observed, ledger)
  {
    var d := u.declared.value;
    if d.basis == CalendarMonths {
      MonthWindowRoundTrip(d.observed.date, d.months.value);
    }
  }

  /**
    What an accepted 0.2 entry is, basis by basis: a point in time is the observation's own day; calendar months
    end on it and begin exactly that many months before; actual dates are complete months that end by it.
   */
  lemma AcceptedBasis(u: Usage, ledger: Moment)
    requires u.declared.Some?
    ensures var d := u.declared.value;
            var day := d.observed.date;
            WindowFault(u, ledger).None? <==>
              && Leq(u.start, u.end) && Leq(u.end, day) && Leq(u.end, ledger.date) && NotAfter(d.observed, ledger)
              && d.months.Some? && 0 <= d.months.value <= 1200
              && ((d.basis == PointInTime && d.months.value == 0 && u.start == day && u.end == day)
                  || (d.basis == CalendarMonths && u.end == day && SubtractMonths(day, d.months.value) == Option.Some(u.start))
                  || (d.basis == ActualDates && CompleteMonthsBetween(u.start, u.end) == d.months))
  {
  }

  /** A ledger instant orders by day and then by time of day, as its microseconds do. */
  lemma MomentOrder(a: Moment, b: Moment)
    requires a.micros < 86_400_000_000 && b.micros < 86_400_000_000
    ensures NotAfter(a, b) <==> Ordinal(a.date) * 86_400_000_000 + a.micros <= Ordinal(b.date) * 86_400_000_000 + b.micros
  {
    OrdinalOrder(a.date, b.date);
    OrdinalOrder(b.date, a.date);
    hide Ordinal;
  }

  // ---- the whole ledger ----

  predicate KnownComponent(u: Usage) {
    u.claim.component in S.FUND_COMPONENTS + S.MANAGER_COMPONENTS
  }

  /** The known components are those of the fund, the tenure components of the manager, and its five other components. */
  lemma KnownComponents(u: Usage)
    ensures KnownComponent(u) <==>
              || u.claim.component in S.FUND_COMPONENTS || u.claim.component in S.MANAGER_TENURE_COMPONENTS
              || u.claim.component == "manager_style_discipline" || u.claim.component == "manager_career_track_record"
              || u.claim.component == "manager_workload_capacity" || u.claim.component == "manager_research_platform_team"
              || u.claim.component == "manager_compliance_integrity"
  {
    hide S.FUND_COMPONENTS, S.MANAGER_TENURE_COMPONENTS;
  }

  ghost predicate IsFaultAt(us: seq<Usage>, ledger: Moment, i: nat, fault: Fault)
  {
    && i < |us|
    && if !KnownComponent(us[i]) then fault == UnknownComponent
       else if us[i] in us[..i] then fault.DuplicateOf? && fault.first < i && us[fault.first] == us[i]
       else WindowFault(us[i], ledger) == Some(fault)
  }

  ghost predicate FaultFree(us: seq<Usage>, ledger: Moment, i: nat)
    requires i < |us|
  {
    && KnownComponent(us[i])
    && us[i] !in us[..i]
    && WindowFault(us[i], ledger).None?
  }

  /** Entries `i` and `j` double-count one raw current-fund fact over a common day. */
  ghost predicate DoubleCounts(us: seq<Usage>, i: nat, j: nat)
  {
    && i < |us| && j < |us|
    && S.Eligible(us[i].claim) && S.Eligible(us[j].claim) && S.SideOf(us[i].claim) != S.SideOf(us[j].claim)
    && S.Shares(us[i].claim, us[j].claim)
    && exists day: Day :: Leq(us[i].start, day) && Leq(day, us[i].end) && Leq(us[j].start, day) && Leq(day, us[j].end)
  }

  function Claims(us: seq<Usage>): (cs: seq<S.Claim>)
    ensures |cs| == |us| && forall i | 0 <= i < |us| :: cs[i] == us[i].claim
  {
    seq(|us|, i requires 0 <= i < |us| => us[i].claim)
  }

  function Windows(us: seq<Usage>): (ws: seq<S.Window>)
    ensures |ws| == |us| && forall i | 0 <= i < |us| :: ws[i] == S.Window(Ordinal(us[i].start), Ordinal(us[i].end))
  {
    seq(|us|, i requires 0 <= i < |us| => S.Window(Ordinal(us[i].start), Ordinal(us[i].end)))
  }

  /** Day numbers carry the question over: two date windows share a day when their day-number windows meet. */
  lemma DoubleCountsIsCollision(us: seq<Usage>, i: nat, j: nat)
    requires forall k | 0 <= k < |us| :: Leq(us[k].start, us[k].end)
    ensures DoubleCounts(us, i, j) <==> S.Collides(Claims(us), Windows(us), i, j)
  {
    if i < |us| && j < |us| {
      OrdinalOrder(us[i].start, us[j].end);
      OrdinalOrder(us[j].start, us[i].end);
      if Leq(us[i].start, us[j].end) && Leq(us[j].start, us[i].end) {
        var day := if Leq(us[i].start, us[j].start) then us[j].start else us[i].start;
        assert Leq(us[i].start, day) && Leq(day, us[i].end) && Leq(us[j].start, day) && Leq(day, us[j].end);
      }
    }
  }

  /** The dictionary `seen` after `i` entries: every earlier entry, at the place where it stands. */
  ghost predicate SeenIs(us: seq<Usage>, i: nat, seen: map<Usage, nat>)
    requires i <= |us|
  {
    && (forall u :: u in seen <==> u in us[..i])
    && (forall u | u in seen :: seen[u] < i && us[seen[u]] == u)
  }

  lemma SeenNothing(us: seq<Usage>)
    ensures SeenIs(us, 0, map[])
  {
  }

  lemma SeenStep(us: seq<Usage>, i: nat, seen: map<Usage, nat>)
    requires i < |us| && SeenIs(us, i, seen)
    ensures SeenIs(us, i + 1, seen[us[i] := i])
  {
    assert us[..i + 1] == us[..i] + [us[i]];
  }

  lemma EntryVerdict(us: seq<Usage>, ledger: Moment, i: nat, seen: map<Usage, nat>)
    requires i < |us| && SeenIs(us, i, seen)
    ensures var known := KnownComponent(us[i]);
            && (!known ==> IsFaultAt(us, ledger, i, UnknownComponent) && !FaultFree(us, ledger, i))
            && (known && us[i] in seen ==> IsFaultAt(us, ledger, i, DuplicateOf(seen[us[i]])) && !FaultFree(us, ledger, i))
            && (known && us[i] !in seen ==> (FaultFree(us, ledger, i) <==> WindowFault(us[i], ledger).None?))
            && (known && us[i] !in seen && WindowFault(us[i], ledger).Some? ==> IsFaultAt(us, ledger, i, WindowFault(us[i], ledger).value))
  {
    hide WindowFault, KnownComponent;
  }

  method CheckEntry(us: seq<Usage>, ledger: Moment, i: nat, seen: map<Usage, nat>) returns (fault: Option<Fault>)
    requires i < |us| && SeenIs(us, i, seen)
    ensures fault.None? ==> FaultFree(us, ledger, i)
    ensures fault.Some? ==> IsFaultAt(us, ledger, i, fault.value) && !FaultFree(us, ledger, i)
  {
    EntryVerdict(us, ledger, i, seen);
    hide WindowFault, FaultFree, IsFaultAt, SeenIs, KnownComponent;
    if !KnownComponent(us[i]) {
      return Some(UnknownComponent);
    }
    if us[i] in seen {
      return Some(DuplicateOf(seen[us[i]]));
    }
    return WindowFault(us[i], ledger);
  }

  /** The validation loop: the first faulty entry and its fault, or the length of the ledger and none. */
  method FirstFault(us: seq<Usage>, ledger: Moment) returns (index: nat, fault: Option<Fault>)
    ensures index <= |us| && forall i | 0 <= i < index :: FaultFree(us, ledger, i)
    ensures fault.None? ==> index == |us|
    ensures fault.Some? ==> IsFaultAt(us, ledger, index, fault.value) && index < |us| && !FaultFree(us, ledger, index)
  {
    var seen: map<Usage, nat> := map[];
    SeenNothing(us);
    hide FaultFree, IsFaultAt, SeenIs, KnownComponent, WindowFault;
    index, fault := 0, None;
    while index < |us|
      invariant index <= |us| && SeenIs(us, index, seen)
      invariant forall j | 0 <= j < index :: FaultFree(us, ledger, j)
    {
      fault := CheckEntry(us, ledger, index, seen);
      if fault.Some? {
        return;
      }
      SeenStep(us, index, seen);
      seen := seen[us[index] := index];
      index := index + 1;
    }
    fault := None;
  }

  lemma FaultFreeIsOrdered(us: seq<Usage>, ledger: Moment)
    requires forall i | 0 <= i < |us| :: FaultFree(us, ledger, i)
    ensures forall i | 0 <= i < |us| :: Leq(us[i].start, us[i].end) && Ordinal(us[i].start) <= Ordinal(us[i].end)
  {
    forall i | 0 <= i < |us| ensures Leq(us[i].start, us[i].end) && Ordinal(us[i].start) <= Ordinal(us[i].end) {
      assert FaultFree(us, ledger, i);
      OrdinalOrder(us[i].start, us[i].end);
    }
  }

  lemma DoubleCountsAreCollisions(us: seq<Usage>)
    requires forall k | 0 <= k < |us| :: Leq(us[k].start, us[k].end)
    ensures forall i: nat, j: nat :: DoubleCounts(us, i, j) <==> S.Collides(Claims(us), Windows(us), i, j)
  {
    hide DoubleCounts, S.Collides;
    forall i: nat, j: nat ensures DoubleCounts(us, i, j) <==> S.Collides(Claims(us), Windows(us), i, j) {
      DoubleCountsIsCollision(us, i, j);
    }
  }

  /**
    A ledger is accepted exactly when it is small enough, no entry is faulty and no pair double
    counts; otherwise the error names the first faulty entry, or else the least double-counting pair.
   */
  method ValidateScoreEvidenceUsage(us: seq<Usage>, ledger: Moment) returns (r: Result<(), Rejection>)
    ensures r.Ok? <==>
              && |us| <= 1000
              && (forall i | 0 <= i < |us| :: FaultFree(us, ledger, i))
              && (forall i: nat, j: nat :: !DoubleCounts(us, i, j))
    ensures r == Err(TooManyItems) <==> |us| > 1000
    ensures r.Err? && r.error.At? ==>
              IsFaultAt(us, ledger, r.error.index, r.error.fault) && forall i | 0 <= i < r.error.index :: FaultFree(us, ledger, i)
    ensures r.Err? && r.error.DoubleCounted? ==>
              && (forall i | 0 <= i < |us| :: FaultFree(us, ledger, i))
              && r.error.left < r.error.right && DoubleCounts(us, r.error.left, r.error.right)
              && forall i: nat, j: nat :: i < j && DoubleCounts(us, i, j) ==>
                   r.error.left < i || (r.error.left == i && r.error.right <= j)
  {
    hide FaultFree, IsFaultAt, DoubleCounts, S.Collides, Leq, Ordinal;
    if |us| > MAX_USAGE_ITEMS {
      return Err(TooManyItems);
    }
    var index, fault := FirstFault(us, ledger);
    if fault.Some? {
      return Err(At(index, fault.value));
    }
    FaultFreeIsOrdered(us, ledger);
    DoubleCountsAreCollisions(us);
    var collision := S.FirstCrossScopeOverlap(Claims(us), Windows(us));
    if collision.Some? {
      return Err(DoubleCounted(collision.value.0, collision.value.1));
    }
    return Ok(());
  }
}
