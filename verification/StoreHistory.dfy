/**
  What the store guarantees over every sequence of puts and loads: history is only appended to, records
  fetched after a cutoff never change what a query at that cutoff returns, an accepted record can be replayed
  for ever, and the dump neither depends on insertion order nor loses anything.
 */
module StoreHistory {
  import opened Prelude
  import opened Ordering
  import opened IsoText
  import opened Storage

  datatype Step = Put(record: Record) | Load(payload: Option<seq<Item>>)

  /** The rows after one call; a failed call leaves them as they were. */
  ghost function After(rows: seq<Row>, step: Step): seq<Row> {
    match step
    case Put(e) => (match Stored(rows, e) case Ok(next) => next case Err(_) => rows)
    case Load(None) => rows
    case Load(Some(items)) => (match StoredAll(rows, items) case Ok(next) => next case Err(_) => rows)
  }

  ghost function Run(rows: seq<Row>, steps: seq<Step>): seq<Row> {
    if steps == [] then rows else After(Run(rows, steps[..|steps| - 1]), steps[|steps| - 1])
  }

  /** The run of the functions is the run of the methods, on the class's own field. */
  method Perform(store: CanonicalStore, steps: seq<Step>)
    requires store.Valid()
    modifies store
    ensures store.Valid() && store.rows == Run(old(store.rows), steps)
  {
    ghost var start := store.rows;
    for i := 0 to |steps|
      invariant store.Valid() && store.rows == Run(start, steps[..i])
    {
      assert steps[..i + 1][..i] == steps[..i];
      match steps[i] {
        case Put(e) =>
          var put := store.Put(e);
        case Load(payload) =>
          var loaded := store.Load(payload);
      }
    }
    assert steps[..|steps|] == steps;
  }

  // ---- append-only ----

  lemma AfterKeepsTable(rows: seq<Row>, step: Step)
    requires Table(rows)
    ensures Table(After(rows, step)) && rows <= After(rows, step)
  {
    match step {
      case Put(e) => StoredKeepsTable(rows, e);
      case Load(None) =>
      case Load(Some(items)) => StoredAllKeepsTable(rows, items);
    }
  }

  /** Every row ever accepted keeps its place: the table only grows at its end and ids stay unique. */
  lemma {:induction false} RunAppends(rows: seq<Row>, steps: seq<Step>)
    requires Table(rows)
    ensures Table(Run(rows, steps)) && rows <= Run(rows, steps)
  {
    if steps != [] {
      RunAppends(rows, steps[..|steps| - 1]);
      AfterKeepsTable(Run(rows, steps[..|steps| - 1]), steps[|steps| - 1]);
    }
  }

  /** Once a record is stored, replaying it is a no-op after any run, and no other content can take its id. */
  lemma StoredForEver(rows: seq<Row>, e: Record, other: Record, steps: seq<Step>)
    requires Table(rows) && RowOf(e) in rows && other.recordId == e.recordId && other != e
    ensures Stored(Run(rows, steps), e) == Ok(Run(rows, steps))
    ensures Stored(Run(rows, steps), other) == Err(IdentityConflict)
  {
    RunAppends(rows, steps);
    var now := Run(rows, steps);
    hide Run, UtcIso;
    var i :| 0 <= i < |rows| && rows[i] == RowOf(e);
    assert now[i] == RowOf(e);
    SameIdSameRow(now, i, other);
  }

  // ---- knowledge cutoffs ----

  ghost predicate FetchedBy(r: Row, cutoff: Instant) {
    Micros(r.document.fetchedAt) <= Micros(cutoff)
  }

  lemma SameCount(a: seq<Row>, b: seq<Row>, p: Row -> bool, x: Row)
    requires Table(a) && Table(b) && (p(x) ==> (x in a <==> x in b))
    ensures multiset(Where(a, p))[x] == multiset(Where(b, p))[x]
  {
    hide RowOf, Where;
    WhereMultiset(a, p, x);
    WhereMultiset(b, p, x);
    OnceEach(a);
    OnceEach(b);
    assert x in a <==> x in multiset(a);
    assert x in b <==> x in multiset(b);
  }

  /** Where two tables hold the same rows satisfying `p`, sorted selections of those rows are equal. */
  lemma SameSelection(a: seq<Row>, b: seq<Row>, p: Row -> bool, leq: (Row, Row) -> bool)
    requires Table(a) && Table(b) && forall r | p(r) :: r in a <==> r in b
    requires leq == QueryLeq || leq == DumpLeq
    ensures SortBy(Where(a, p), leq) == SortBy(Where(b, p), leq)
  {
    RowOrders();
    NoTies(a, Where(a, p));
    var chosen, other := Where(a, p), Where(b, p);
    forall x: Row ensures multiset(chosen)[x] == multiset(other)[x] {
      SameCount(a, b, p, x);
    }
    hide RowOf, Where, SortBy, Table, QueryLeq, DumpLeq;
    assert multiset(chosen) == multiset(other);
    SortPermutation(chosen, other, leq);
  }

  /** A query at a cutoff is a function of the rows fetched by the cutoff: not of later ones, not of their order. */
  lemma QueryDependsOnlyOnKnown(a: seq<Row>, b: seq<Row>, recordType: string, entityId: string, effectiveAt: Instant, cutoff: Instant)
    requires Table(a) && Table(b) && forall r | FetchedBy(r, cutoff) :: r in a <==> r in b
    ensures Versions(a, recordType, entityId, effectiveAt, Some(cutoff)) == Versions(b, recordType, entityId, effectiveAt, Some(cutoff))
  {
    var text := UtcIso(effectiveAt);
    var p := r => Matches(r, recordType, entityId, text, TextOf(Some(cutoff)));
    var q := r => Matches(r, recordType, entityId, text, TextOf(Some(cutoff))) && r == RowOf(r.document);
    hide UtcIso, QueryLeq, Visible;
    forall r | q(r) ensures r in a <==> r in b {
      MatchesIsVisible(r.document, recordType, entityId, effectiveAt, Some(cutoff));
      assert FetchedBy(r, cutoff) by { FetchedTexts(r, cutoff); }
    }
    SameSelection(a, b, q, QueryLeq);
    SameFilter(a, p, q);
    SameFilter(b, p, q);
    SelectedBy(a, p, recordType, entityId, effectiveAt, cutoff);
    SelectedBy(b, p, recordType, entityId, effectiveAt, cutoff);
  }

  lemma SelectedBy(rows: seq<Row>, p: Row -> bool, recordType: string, entityId: string, effectiveAt: Instant, cutoff: Instant)
    requires forall r :: p(r) == Matches(r, recordType, entityId, UtcIso(effectiveAt), TextOf(Some(cutoff)))
    ensures Selected(rows, recordType, entityId, effectiveAt, Some(cutoff)) == SortBy(Where(rows, p), QueryLeq)
  {
    hide UtcIso, Matches, TextOf;
    PointwiseEqual(rows, p, r => Matches(r, recordType, entityId, UtcIso(effectiveAt), TextOf(Some(cutoff))));
  }

  lemma FetchedTexts(r: Row, cutoff: Instant)
    requires r == RowOf(r.document) && StrLeq(r.fetchedAt, UtcIso(cutoff))
    ensures FetchedBy(r, cutoff)
  {
    hide UtcIso, StrLeq, Micros;
    TextOrderIsInstantOrder(r.document.fetchedAt, cutoff);
  }

  lemma SameFilter(rows: seq<Row>, p: Row -> bool, q: Row -> bool)
    requires Table(rows) && forall r :: q(r) <==> p(r) && r == RowOf(r.document)
    ensures Where(rows, p) == Where(rows, q)
  {
    hide UtcIso, RowOf;
    PointwiseEqual(rows, p, q);
  }

  /** The records a step offers to the store. */
  ghost predicate Offers(step: Step, e: Record) {
    match step
    case Put(r) => r == e
    case Load(None) => false
    case Load(Some(items)) => Restored(e) in items
  }

  ghost predicate OnlyLate(steps: seq<Step>, cutoff: Instant) {
    forall k, e | 0 <= k < |steps| && Offers(steps[k], e) :: Micros(cutoff) < Micros(e.fetchedAt)
  }

  lemma {:induction false} LoadAddsOffered(rows: seq<Row>, items: seq<Item>, r: Row)
    requires StoredAll(rows, items).Ok? && r in StoredAll(rows, items).value && r !in rows
    ensures Restored(r.document) in items
    decreases |items|
  {
    hide UtcIso;
    if items != [] {
      var next := Stored(rows, items[0].record).value;
      if r in next {
        assert r == RowOf(items[0].record);
      } else {
        LoadAddsOffered(next, items[1..], r);
      }
    }
  }

  lemma {:induction false} RunAddsOffered(rows: seq<Row>, steps: seq<Step>, r: Row)
    requires r in Run(rows, steps) && r !in rows
    ensures exists k :: 0 <= k < |steps| && Offers(steps[k], r.document)
  {
    hide UtcIso;
    var n := |steps| - 1;
    var before := Run(rows, steps[..n]);
    if r in before {
      RunAddsOffered(rows, steps[..n], r);
      var k :| 0 <= k < n && Offers(steps[..n][k], r.document);
      assert Offers(steps[k], r.document);
    } else {
      match steps[n] {
        case Put(e) => assert r == RowOf(e);
        case Load(None) =>
        case Load(Some(items)) => LoadAddsOffered(before, items, r);
      }
      assert Offers(steps[n], r.document);
    }
  }

  /** Any run of puts and loads whose records are all fetched after the cutoff is invisible to queries at the cutoff. */
  lemma LateRecordsAreInvisible(rows: seq<Row>, steps: seq<Step>, recordType: string, entityId: string, effectiveAt: Instant, cutoff: Instant)
    requires Table(rows) && OnlyLate(steps, cutoff)
    ensures Versions(Run(rows, steps), recordType, entityId, effectiveAt, Some(cutoff)) == Versions(rows, recordType, entityId, effectiveAt, Some(cutoff))
  {
    RunAppends(rows, steps);
    var now := Run(rows, steps);
    hide Run, UtcIso, Micros, Versions, Table;
    forall r | FetchedBy(r, cutoff) ensures r in now <==> r in rows {
      if r in now && r !in rows {
        RunAddsOffered(rows, steps, r);
      }
    }
    QueryDependsOnlyOnKnown(now, rows, recordType, entityId, effectiveAt, cutoff);
  }

  lemma SameResolution(now: seq<Row>, rows: seq<Row>, share: Record, effectiveAt: Instant, cutoff: Instant)
    requires Versions(now, "fund_strategy", share.link, effectiveAt, Some(cutoff)) == Versions(rows, "fund_strategy", share.link, effectiveAt, Some(cutoff))
    ensures ResolutionOf(now, share, effectiveAt, Some(cutoff)) == ResolutionOf(rows, share, effectiveAt, Some(cutoff))
  {
    hide Versions, ConflictGroups;
  }

  /** The same for the joined view of a share class, its strategies and their conflict groups. */
  lemma LateRecordsDoNotChangeResolution(rows: seq<Row>, steps: seq<Step>, shareClassId: string, effectiveAt: Instant, cutoff: Instant)
    requires Table(rows) && OnlyLate(steps, cutoff)
    ensures Resolutions(Run(rows, steps), shareClassId, effectiveAt, Some(cutoff)) == Resolutions(rows, shareClassId, effectiveAt, Some(cutoff))
  {
    hide Run, Versions, ResolutionOf, Table, OnlyLate, Constructible;
    LateRecordsAreInvisible(rows, steps, "share_class", shareClassId, effectiveAt, cutoff);
    var now, shares := Run(rows, steps), Versions(rows, "share_class", shareClassId, effectiveAt, Some(cutoff));
    forall i | 0 <= i < |shares| ensures ResolutionOf(now, shares[i], effectiveAt, Some(cutoff)) == ResolutionOf(rows, shares[i], effectiveAt, Some(cutoff)) {
      LateRecordsAreInvisible(rows, steps, "fund_strategy", shares[i].link, effectiveAt, cutoff);
      SameResolution(now, rows, shares[i], effectiveAt, cutoff);
    }
    assert Resolutions(now, shareClassId, effectiveAt, Some(cutoff)) == Resolutions(rows, shareClassId, effectiveAt, Some(cutoff));
  }

  // ---- dumps ----

  /** The dump is a function of the set of rows: insertion order leaves no trace. */
  lemma DumpIgnoresOrder(a: seq<Row>, b: seq<Row>)
    requires Table(a) && Table(b) && forall r :: r in a <==> r in b
    ensures DumpOf(a) == DumpOf(b)
  {
    SameSelection(a, b, r => true, DumpLeq);
    KeepAll(a, r => true);
    KeepAll(b, r => true);
  }

  /** The documents of a dump, read back. */
  function Items(records: seq<Record>): (items: seq<Item>)
    ensures |items| == |records| && forall i | 0 <= i < |records| :: items[i] == Restored(records[i])
  {
    seq(|records|, i requires 0 <= i < |records| => Restored(records[i]))
  }

  lemma {:induction false} LoadsFreshRows(base: seq<Row>, rows: seq<Row>, records: seq<Record>)
    requires Table(base + rows) && records == Documents(rows)
    ensures StoredAll(base, Items(records)) == Ok(base + rows)
    decreases |rows|
  {
    hide UtcIso;
    if rows == [] {
      assert base + rows == base;
    } else {
      var all, items := base + rows, Items(records);
      assert all[|base|] == rows[0] == RowOf(records[0]);
      forall i | 0 <= i < |base| ensures base[i].recordId != records[0].recordId {
        assert all[i] == base[i];
      }
      assert !Holds(base, records[0].recordId);
      assert base + rows == base + [rows[0]] + rows[1..];
      assert items[1..] == Items(records[1..]);
      LoadsFreshRows(base + [rows[0]], rows[1..], records[1..]);
    }
  }

  /** Loading a dump into an empty store restores every row, and the restored store dumps the same documents. */
  lemma DumpReloads(rows: seq<Row>)
    requires Table(rows)
    ensures StoredAll([], Items(DumpOf(rows))) == Ok(SortBy(rows, DumpLeq))
    ensures forall r :: r in SortBy(rows, DumpLeq) <==> r in rows
    ensures DumpOf(SortBy(rows, DumpLeq)) == DumpOf(rows)
  {
    hide SortBy, Table, DumpLeq, StoredAll, Constructible;
    var s := SortBy(rows, DumpLeq);
    PermutedTable(rows, s);
    assert [] + s == s;
    LoadsFreshRows([], s, DumpOf(rows));
    DumpIgnoresOrder(s, rows);
  }

  /** Loading a store's dump back into that store, or into any later state of it, changes nothing. */
  lemma ReloadIsNoOp(rows: seq<Row>, steps: seq<Step>)
    requires Table(rows)
    ensures StoredAll(Run(rows, steps), Items(DumpOf(rows))) == Ok(Run(rows, steps))
  {
    RunAppends(rows, steps);
    PermutedTable(rows, SortBy(rows, DumpLeq));
    hide Run, UtcIso, RowOf;
    var s, dumped := SortBy(rows, DumpLeq), DumpOf(rows);
    forall i | 0 <= i < |dumped| ensures RowOf(dumped[i]) in Run(rows, steps) {
      assert s[i] in s && s[i] in rows;
    }
    LoadsKnownRows(Run(rows, steps), dumped);
  }

  lemma {:induction false} LoadsKnownRows(rows: seq<Row>, records: seq<Record>)
    requires forall i | 0 <= i < |records| :: RowOf(records[i]) in rows
    ensures StoredAll(rows, Items(records)) == Ok(rows)
    decreases |records|
  {
    if records != [] {
      assert Items(records)[1..] == Items(records[1..]);
      LoadsKnownRows(rows, records[1..]);
    }
  }

  /** Loading the same records in another order succeeds too and ends in a store with the same dump. */
  lemma LoadOrderDoesNotMatter(rows: seq<Row>, shuffled: seq<Row>)
    requires Table(rows) && multiset(shuffled) == multiset(rows)
    ensures StoredAll([], Items(Documents(shuffled))) == Ok(shuffled) && DumpOf(shuffled) == DumpOf(rows)
  {
    PermutedTable(rows, shuffled);
    hide UtcIso, RowOf;
    assert [] + shuffled == shuffled;
    LoadsFreshRows([], shuffled, Documents(shuffled));
    DumpIgnoresOrder(shuffled, rows);
  }
}
