/**
  The dated evidence rules of src/openfundscore/manager_research.py (`_validate_dated_ranges` on tenures
  and performance rows, `_validate_performance_windows`). Dates are day numbers, which order as dates do.
  What the rules are for is `NoDayCountedTwice`: for one fund strategy and one metric no day is ever
  evidenced twice, neither inside a tenure nor across tenures.
 */
module PerformanceWindows {
  import opened Prelude
  import opened Ordering

  const MAXIMUM_TRANSITION := 3650

  /** A closed window of days. */
  datatype Span = Span(start: int, end: int)

  datatype Tenure = Tenure(id: Id, strategy: Id, start: int, end: Option<int>, transitionDays: int)

  datatype Confidence = High | Medium | Low | Insufficient

  datatype Row = Row(tenure: Id, metric: Id, window: Span, confidence: Confidence)

  datatype Fault =
    | DatesOutOfOrder
    | RepeatedTenure
    | OverlappingTenures
    | TransitionOutOfBounds
    | TransitionConsumesTenure
    | UnknownTenure
    | OverlappingRows
    | StartsBeforeTenure
    | ConfidentInTransition
    | EndsAfterTenure

  predicate Meet(a: Span, b: Span) {
    a.start <= b.end && b.start <= a.end
  }

  /** A tenure without an end date runs to the record's own date. */
  function SpanOf(t: Tenure, asOf: int): Span {
    Span(t.start, if t.end.Some? then t.end.value else asOf)
  }

  predicate InOrder(s: Span, asOf: int) {
    s.start <= s.end <= asOf
  }

  // ---- what acceptance means ----

  /** The transition days fit the tenure; a sum past the last representable date is past its end too. */
  predicate GoodTenure(t: Tenure, asOf: int) {
    InOrder(SpanOf(t, asOf), asOf) && 0 <= t.transitionDays <= MAXIMUM_TRANSITION && t.start + t.transitionDays <= SpanOf(t, asOf).end
  }

  ghost predicate AcceptedTenures(ts: seq<Tenure>, asOf: int) {
    && (forall i | 0 <= i < |ts| :: GoodTenure(ts[i], asOf))
    && (forall i, j | 0 <= i < j < |ts| :: ts[i].id != ts[j].id)
    && (forall i, j | 0 <= i < j < |ts| && ts[i].strategy == ts[j].strategy :: !Meet(SpanOf(ts[i], asOf), SpanOf(ts[j], asOf)))
  }

  /** The row lies inside the tenure, and a row that starts in the transition claims little confidence. */
  predicate Fits(r: Row, t: Tenure, asOf: int) {
    && t.start <= r.window.start && r.window.end <= SpanOf(t, asOf).end
    && (r.window.start < t.start + t.transitionDays ==> r.confidence in {Low, Insufficient})
  }

  ghost predicate GoodRow(r: Row, ts: seq<Tenure>, asOf: int) {
    InOrder(r.window, asOf) && exists k | 0 <= k < |ts| :: ts[k].id == r.tenure && Fits(r, ts[k], asOf)
  }

  ghost predicate AcceptedRows(rs: seq<Row>, ts: seq<Tenure>, asOf: int) {
    && (forall i | 0 <= i < |rs| :: GoodRow(rs[i], ts, asOf))
    && (forall i, j | 0 <= i < j < |rs| && rs[i].tenure == rs[j].tenure && rs[i].metric == rs[j].metric :: !Meet(rs[i].window, rs[j].window))
  }

  // ---- the dictionaries of windows ----

  /** `groups` lists exactly the filed windows under their keys. */
  ghost predicate Files<K(!new)>(filed: seq<(K, Span)>, groups: map<K, seq<Span>>) {
    forall k: K, s: Span :: (k in groups && s in groups[k]) <==> (k, s) in filed
  }

  /** `any(... for other in windows)` and then `windows.append(...)`; `None` when the window meets one already filed. */
  method FileWindow<K(==, !new)>(ghost filed: seq<(K, Span)>, groups: map<K, seq<Span>>, key: K, s: Span)
    returns (r: Option<map<K, seq<Span>>>)
    requires Files(filed, groups)
    ensures r.Some? <==> forall i | 0 <= i < |filed| && filed[i].0 == key :: !Meet(filed[i].1, s)
    ensures r.Some? ==> Files(filed + [(key, s)], r.value)
  {
    var windows := if key in groups then groups[key] else [];
    if exists i | 0 <= i < |windows| :: Meet(windows[i], s) {
      ghost var i :| 0 <= i < |windows| && Meet(windows[i], s);
      assert (key, windows[i]) in filed;
      return None;
    }
    forall i | 0 <= i < |filed| && filed[i].0 == key ensures !Meet(filed[i].1, s) {
      assert (key, filed[i].1) == filed[i];
      assert (key, filed[i].1) in filed;
    }
    return Some(groups[key := windows + [s]]);
  }

  // ---- tenures ----

  function TenureKeys(ts: seq<Tenure>, asOf: int, n: nat): (keys: seq<(Id, Span)>)
    requires n <= |ts|
    ensures |keys| == n && forall i | 0 <= i < n :: keys[i] == (ts[i].strategy, SpanOf(ts[i], asOf))
  {
    seq(n, i requires 0 <= i < n => (ts[i].strategy, SpanOf(ts[i], asOf)))
  }

  ghost predicate TenuresById(ts: seq<Tenure>, n: nat, byId: map<Id, Tenure>)
    requires n <= |ts|
  {
    && (forall id | id in byId :: exists i | 0 <= i < n :: ts[i] == byId[id] && ts[i].id == id)
    && (forall i | 0 <= i < n :: ts[i].id in byId)
  }

  lemma TenureExtends(ts: seq<Tenure>, asOf: int, n: nat)
    requires n < |ts| && AcceptedTenures(ts[..n], asOf)
    ensures AcceptedTenures(ts[..n + 1], asOf) <==>
              && GoodTenure(ts[n], asOf)
              && (forall i | 0 <= i < n :: ts[i].id != ts[n].id)
              && (forall i | 0 <= i < n && ts[i].strategy == ts[n].strategy :: !Meet(SpanOf(ts[i], asOf), SpanOf(ts[n], asOf)))
  {
    hide GoodTenure, Meet;
    var before, after := ts[..n], ts[..n + 1];
    assert forall i | 0 <= i < n :: after[i] == before[i] == ts[i];
    assert after[n] == ts[n];
  }

  lemma PrefixOfTenures(ts: seq<Tenure>, asOf: int, n: nat)
    requires n <= |ts|
    ensures AcceptedTenures(ts, asOf) ==> AcceptedTenures(ts[..n], asOf)
  {
    hide GoodTenure, Meet;
  }

  lemma TenureFiled(ts: seq<Tenure>, asOf: int, n: nat)
    requires n < |ts|
    ensures TenureKeys(ts, asOf, n + 1) == TenureKeys(ts, asOf, n) + [(ts[n].strategy, SpanOf(ts[n], asOf))]
  {
  }

  lemma ByIdStep(ts: seq<Tenure>, n: nat, byId: map<Id, Tenure>)
    requires n < |ts| && TenuresById(ts, n, byId)
    ensures TenuresById(ts, n + 1, byId[ts[n].id := ts[n]])
    ensures ts[n].id !in byId <==> forall i | 0 <= i < n :: ts[i].id != ts[n].id
  {
  }

  /** One tenure's checks, in the source's order. */
  method CheckTenure(ts: seq<Tenure>, asOf: int, n: nat, byId: map<Id, Tenure>, windows: map<Id, seq<Span>>)
    returns (r: Result<map<Id, seq<Span>>, Fault>)
    requires n < |ts| && AcceptedTenures(ts[..n], asOf) && InOrder(SpanOf(ts[n], asOf), asOf)
    requires TenuresById(ts, n, byId) && Files(TenureKeys(ts, asOf, n), windows)
    ensures r.Ok? <==> AcceptedTenures(ts[..n + 1], asOf)
    ensures r.Ok? ==> Files(TenureKeys(ts, asOf, n + 1), r.value)
  {
    TenureExtends(ts, asOf, n);
    TenureFiled(ts, asOf, n);
    ByIdStep(ts, n, byId);
    hide Meet, AcceptedTenures, TenuresById, Files;
    var t := ts[n];
    var s := SpanOf(t, asOf);
    if t.id in byId {
      return Err(RepeatedTenure);
    }
    var filed := FileWindow(TenureKeys(ts, asOf, n), windows, t.strategy, s);
    if filed.None? {
      return Err(OverlappingTenures);
    }
    if !(0 <= t.transitionDays <= MAXIMUM_TRANSITION) {
      return Err(TransitionOutOfBounds);
    }
    if t.start + t.transitionDays > s.end {
      return Err(TransitionConsumesTenure);
    }
    return Ok(filed.value);
  }

  lemma NoTenures(ts: seq<Tenure>, asOf: int)
    ensures AcceptedTenures(ts[..0], asOf) && Files(TenureKeys(ts, asOf, 0), map[]) && TenuresById(ts, 0, map[])
  {
  }

  method ValidateTenures(ts: seq<Tenure>, asOf: int) returns (r: Result<map<Id, Tenure>, Fault>)
    requires forall i | 0 <= i < |ts| :: InOrder(SpanOf(ts[i], asOf), asOf)
    ensures r.Ok? <==> AcceptedTenures(ts, asOf)
    ensures r.Ok? ==> TenuresById(ts, |ts|, r.value)
  {
    hide AcceptedTenures, TenuresById, Files, InOrder, TenureKeys;
    assert ts[..|ts|] == ts;
    var byId: map<Id, Tenure>, windows: map<Id, seq<Span>> := map[], map[];
    NoTenures(ts, asOf);
    for n := 0 to |ts|
      invariant AcceptedTenures(ts[..n], asOf) && TenuresById(ts, n, byId) && Files(TenureKeys(ts, asOf, n), windows)
    {
      var checked := CheckTenure(ts, asOf, n, byId, windows);
      if checked.Err? {
        PrefixOfTenures(ts, asOf, n + 1);
        return Err(checked.error);
      }
      windows := checked.value;
      ByIdStep(ts, n, byId);
      byId := byId[ts[n].id := ts[n]];
    }
    return Ok(byId);
  }

  // ---- performance rows ----

  function RowKeys(rs: seq<Row>, n: nat): (keys: seq<((Id, Id), Span)>)
    requires n <= |rs|
    ensures |keys| == n && forall i | 0 <= i < n :: keys[i] == ((rs[i].tenure, rs[i].metric), rs[i].window)
  {
    seq(n, i requires 0 <= i < n => ((rs[i].tenure, rs[i].metric), rs[i].window))
  }

  lemma RowExtends(rs: seq<Row>, ts: seq<Tenure>, asOf: int, n: nat)
    requires n < |rs| && AcceptedRows(rs[..n], ts, asOf)
    ensures AcceptedRows(rs[..n + 1], ts, asOf) <==>
              && GoodRow(rs[n], ts, asOf)
              && (forall i | 0 <= i < n && rs[i].tenure == rs[n].tenure && rs[i].metric == rs[n].metric :: !Meet(rs[i].window, rs[n].window))
  {
    hide GoodRow, Meet;
    var before, after := rs[..n], rs[..n + 1];
    assert forall i | 0 <= i < n :: after[i] == before[i] == rs[i];
    assert after[n] == rs[n];
  }

  lemma PrefixOfRows(rs: seq<Row>, ts: seq<Tenure>, asOf: int, n: nat)
    requires n <= |rs|
    ensures AcceptedRows(rs, ts, asOf) ==> AcceptedRows(rs[..n], ts, asOf)
  {
    hide GoodRow, Meet;
  }

  lemma RowFiled(rs: seq<Row>, n: nat)
    requires n < |rs|
    ensures RowKeys(rs, n + 1) == RowKeys(rs, n) + [((rs[n].tenure, rs[n].metric), rs[n].window)]
  {
  }

  /** With unique tenure ids, the row is judged against the one tenure the dictionary finds. */
  lemma JudgedByItsTenure(r: Row, ts: seq<Tenure>, asOf: int, byId: map<Id, Tenure>)
    requires AcceptedTenures(ts, asOf) && TenuresById(ts, |ts|, byId)
    ensures GoodRow(r, ts, asOf) <==> InOrder(r.window, asOf) && r.tenure in byId && Fits(r, byId[r.tenure], asOf)
  {
    hide GoodTenure, Fits;
    if r.tenure in byId {
      var i :| 0 <= i < |ts| && ts[i] == byId[r.tenure] && ts[i].id == r.tenure;
      assert forall k | 0 <= k < |ts| && ts[k].id == r.tenure :: ts[k] == ts[i];
    }
  }

  method CheckRow(rs: seq<Row>, ts: seq<Tenure>, asOf: int, n: nat, byId: map<Id, Tenure>, windows: map<(Id, Id), seq<Span>>)
    returns (r: Result<map<(Id, Id), seq<Span>>, Fault>)
    requires n < |rs| && AcceptedTenures(ts, asOf) && AcceptedRows(rs[..n], ts, asOf) && InOrder(rs[n].window, asOf)
    requires TenuresById(ts, |ts|, byId) && Files(RowKeys(rs, n), windows)
    ensures r.Ok? <==> AcceptedRows(rs[..n + 1], ts, asOf)
    ensures r.Ok? ==> Files(RowKeys(rs, n + 1), r.value)
  {
    RowExtends(rs, ts, asOf, n);
    RowFiled(rs, n);
    JudgedByItsTenure(rs[n], ts, asOf, byId);
    hide Meet, AcceptedTenures, AcceptedRows, GoodRow, TenuresById, Files;
    var row := rs[n];
    if row.tenure !in byId {
      return Err(UnknownTenure);
    }
    var tenure := byId[row.tenure];
    var filed := FileWindow(RowKeys(rs, n), windows, (row.tenure, row.metric), row.window);
    if filed.None? {
      return Err(OverlappingRows);
    }
    if row.window.start < tenure.start {
      return Err(StartsBeforeTenure);
    }
    if row.window.start < tenure.start + tenure.transitionDays && row.confidence !in {Low, Insufficient} {
      return Err(ConfidentInTransition);
    }
    if row.window.end > SpanOf(tenure, asOf).end {
      return Err(EndsAfterTenure);
    }
    return Ok(filed.value);
  }

  lemma NoRows(rs: seq<Row>, ts: seq<Tenure>, asOf: int)
    ensures AcceptedRows(rs[..0], ts, asOf) && Files(RowKeys(rs, 0), map[])
  {
  }

  method ValidateRows(rs: seq<Row>, ts: seq<Tenure>, asOf: int, byId: map<Id, Tenure>) returns (r: Result<(), Fault>)
    requires AcceptedTenures(ts, asOf) && TenuresById(ts, |ts|, byId)
    requires forall i | 0 <= i < |rs| :: InOrder(rs[i].window, asOf)
    ensures r.Ok? <==> AcceptedRows(rs, ts, asOf)
  {
    hide AcceptedTenures, AcceptedRows, TenuresById, Files, InOrder, RowKeys;
    assert rs[..|rs|] == rs;
    var windows: map<(Id, Id), seq<Span>> := map[];
    NoRows(rs, ts, asOf);
    for n := 0 to |rs|
      invariant AcceptedRows(rs[..n], ts, asOf) && Files(RowKeys(rs, n), windows)
    {
      var checked := CheckRow(rs, ts, asOf, n, byId, windows);
      if checked.Err? {
        PrefixOfRows(rs, ts, asOf, n + 1);
        return Err(checked.error);
      }
      windows := checked.value;
    }
    return Ok(());
  }

  /** Accepts exactly the dossiers whose tenures and rows obey every rule; dates out of order are refused before anything else. */
  method ValidatePerformanceWindows(ts: seq<Tenure>, rs: seq<Row>, asOf: int) returns (r: Result<(), Fault>)
    ensures r.Ok? <==> AcceptedTenures(ts, asOf) && AcceptedRows(rs, ts, asOf)
    ensures (exists i | 0 <= i < |ts| :: !InOrder(SpanOf(ts[i], asOf), asOf)) || (exists i | 0 <= i < |rs| :: !InOrder(rs[i].window, asOf))
            ==> r == Err(DatesOutOfOrder)
  {
    if exists i | 0 <= i < |ts| :: !InOrder(SpanOf(ts[i], asOf), asOf) {
      return Err(DatesOutOfOrder);
    }
    if exists i | 0 <= i < |rs| :: !InOrder(rs[i].window, asOf) {
      return Err(DatesOutOfOrder);
    }
    hide TenuresById, Fits;
    var tenures := ValidateTenures(ts, asOf);
    if tenures.Err? {
      return Err(tenures.error);
    }
    r := ValidateRows(rs, ts, asOf, tenures.value);
  }

  // ---- what the rules are for ----

  ghost predicate Evidences(ts: seq<Tenure>, r: Row, strategy: Id, metric: Id) {
    r.metric == metric && exists k | 0 <= k < |ts| :: ts[k].id == r.tenure && ts[k].strategy == strategy
  }

  /** For one strategy and one metric, no day is evidenced by two rows, in whichever tenures they are. */
  lemma NoDayCountedTwice(ts: seq<Tenure>, rs: seq<Row>, asOf: int, strategy: Id, metric: Id, i: nat, j: nat)
    requires AcceptedTenures(ts, asOf) && AcceptedRows(rs, ts, asOf)
    requires i < j < |rs| && Evidences(ts, rs[i], strategy, metric) && Evidences(ts, rs[j], strategy, metric)
    ensures !Meet(rs[i].window, rs[j].window)
  {
    hide GoodTenure;
    assert GoodRow(rs[i], ts, asOf) && GoodRow(rs[j], ts, asOf);
    assert rs[i].tenure == rs[j].tenure ==> !Meet(rs[i].window, rs[j].window);
    hide AcceptedRows;
    var p :| 0 <= p < |ts| && ts[p].id == rs[i].tenure && ts[p].strategy == strategy;
    var q :| 0 <= q < |ts| && ts[q].id == rs[j].tenure && ts[q].strategy == strategy;
    assert Fits(rs[i], ts[p], asOf) && Fits(rs[j], ts[q], asOf);
    if p != q {
      assert !Meet(SpanOf(ts[p], asOf), SpanOf(ts[q], asOf));
    }
  }

  function Length(s: Span): int {
    s.end - s.start + 1
  }

  /** The days evidenced for one strategy and metric, summed row by row. */
  ghost function DaysEvidenced(ts: seq<Tenure>, rs: seq<Row>, strategy: Id, metric: Id): int {
    if rs == [] then 0
    else
      var n := |rs| - 1;
      DaysEvidenced(ts, rs[..n], strategy, metric) + (if Evidences(ts, rs[n], strategy, metric) then Length(rs[n].window) else 0)
  }

  ghost function DayRange(start: int, end: int): (d: set<int>)
    requires start <= end + 1
    ensures |d| == end - start + 1 && forall x :: x in d <==> start <= x <= end
    decreases end - start + 1
  {
    if start == end + 1 then {} else DayRange(start, end - 1) + {end}
  }

  /** The days that some row evidences. */
  ghost predicate IsEvidenced(ts: seq<Tenure>, rs: seq<Row>, strategy: Id, metric: Id, day: int) {
    exists i | 0 <= i < |rs| :: Evidences(ts, rs[i], strategy, metric) && rs[i].window.start <= day <= rs[i].window.end
  }

  /** The row lengths add up to the number of distinct days: disjointness makes the sum a count. */
  lemma {:induction false} EvidencedDays(ts: seq<Tenure>, rs: seq<Row>, asOf: int, strategy: Id, metric: Id) returns (days: set<int>)
    requires AcceptedTenures(ts, asOf) && AcceptedRows(rs, ts, asOf)
    ensures forall day :: day in days <==> IsEvidenced(ts, rs, strategy, metric, day)
    ensures |days| == DaysEvidenced(ts, rs, strategy, metric)
  {
    if rs == [] {
      days := {};
    } else {
      var n := |rs| - 1;
      PrefixOfRows(rs, ts, asOf, n);
      var before := EvidencedDays(ts, rs[..n], asOf, strategy, metric);
      days := before;
      if Evidences(ts, rs[n], strategy, metric) {
        assert GoodRow(rs[n], ts, asOf);
        var more := DayRange(rs[n].window.start, rs[n].window.end);
        LastRowIsNew(ts, rs, asOf, strategy, metric, before, more);
        days := before + more;
      }
      hide Evidences, AcceptedRows, AcceptedTenures;
      forall day ensures day in days <==> IsEvidenced(ts, rs, strategy, metric, day) {
        EvidencedStep(ts, rs, strategy, metric, day);
      }
    }
  }

  lemma EvidencedStep(ts: seq<Tenure>, rs: seq<Row>, strategy: Id, metric: Id, day: int)
    requires rs != []
    ensures var n := |rs| - 1;
            IsEvidenced(ts, rs, strategy, metric, day) <==>
              || IsEvidenced(ts, rs[..n], strategy, metric, day)
              || (Evidences(ts, rs[n], strategy, metric) && rs[n].window.start <= day <= rs[n].window.end)
  {
    hide Evidences;
    var n := |rs| - 1;
    if IsEvidenced(ts, rs[..n], strategy, metric, day) {
      var i :| 0 <= i < n && Evidences(ts, rs[..n][i], strategy, metric) && rs[..n][i].window.start <= day <= rs[..n][i].window.end;
      assert Evidences(ts, rs[i], strategy, metric);
    }
    if IsEvidenced(ts, rs, strategy, metric, day) {
      var i :| 0 <= i < |rs| && Evidences(ts, rs[i], strategy, metric) && rs[i].window.start <= day <= rs[i].window.end;
      assert i < n ==> Evidences(ts, rs[..n][i], strategy, metric);
    }
  }

  lemma LastRowIsNew(ts: seq<Tenure>, rs: seq<Row>, asOf: int, strategy: Id, metric: Id, before: set<int>, more: set<int>)
    requires AcceptedTenures(ts, asOf) && AcceptedRows(rs, ts, asOf) && rs != [] && Evidences(ts, rs[|rs| - 1], strategy, metric)
    requires forall day | day in before :: IsEvidenced(ts, rs[..|rs| - 1], strategy, metric, day)
    requires forall day | day in more :: rs[|rs| - 1].window.start <= day <= rs[|rs| - 1].window.end
    ensures before !! more && |before + more| == |before| + |more|
  {
    hide AcceptedTenures, AcceptedRows;
    var n := |rs| - 1;
    forall day | day in before ensures day !in more {
      var i :| 0 <= i < n && Evidences(ts, rs[..n][i], strategy, metric) && rs[..n][i].window.start <= day <= rs[..n][i].window.end;
      NoDayCountedTwice(ts, rs, asOf, strategy, metric, i, n);
    }
  }

  /** All the evidence for one strategy and metric together covers no more days than have passed since its first day. */
  lemma EvidenceFitsCalendar(ts: seq<Tenure>, rs: seq<Row>, asOf: int, strategy: Id, metric: Id, first: int)
    requires AcceptedTenures(ts, asOf) && AcceptedRows(rs, ts, asOf) && first <= asOf + 1
    requires forall i | 0 <= i < |rs| && Evidences(ts, rs[i], strategy, metric) :: first <= rs[i].window.start
    ensures DaysEvidenced(ts, rs, strategy, metric) <= asOf - first + 1
  {
    hide AcceptedTenures, Evidences, Fits, DaysEvidenced;
    assert forall i | 0 <= i < |rs| :: GoodRow(rs[i], ts, asOf);
    var days := EvidencedDays(ts, rs, asOf, strategy, metric);
    var calendar := DayRange(first, asOf);
    forall day | day in days ensures day in calendar {
      var i :| 0 <= i < |rs| && Evidences(ts, rs[i], strategy, metric) && rs[i].window.start <= day <= rs[i].window.end;
      assert GoodRow(rs[i], ts, asOf);
    }
    SetSizes(days, calendar);
  }

  // ---- transitions ----

  /** What acceptance says of a row and the tenure it names: it lies inside, and claims more than low confidence only after the transition. */
  lemma AcceptedRowMeaning(ts: seq<Tenure>, rs: seq<Row>, asOf: int, i: nat, k: nat)
    requires AcceptedTenures(ts, asOf) && AcceptedRows(rs, ts, asOf) && i < |rs| && k < |ts| && ts[k].id == rs[i].tenure
    ensures ts[k].start <= rs[i].window.start <= rs[i].window.end <= asOf
    ensures ts[k].end.Some? ==> rs[i].window.end <= ts[k].end.value
    ensures rs[i].confidence == High || rs[i].confidence == Medium ==> ts[k].start + ts[k].transitionDays <= rs[i].window.start
    ensures 0 <= ts[k].transitionDays <= 3650
  {
    assert GoodRow(rs[i], ts, asOf) && GoodTenure(ts[k], asOf);
    var j :| 0 <= j < |ts| && ts[j].id == rs[i].tenure && Fits(rs[i], ts[j], asOf);
    assert j == k;
  }

  /** A row that claims low confidence may start in the transition, so the rule refuses no more than it must. */
  lemma LowConfidenceFits(r: Row, t: Tenure, asOf: int)
    requires r.confidence == Low || r.confidence == Insufficient
    ensures Fits(r, t, asOf) <==> t.start <= r.window.start && r.window.end <= (if t.end.Some? then t.end.value else asOf)
  {
  }
}
