/**
  The append-only, bitemporal record store of src/openfundscore/storage.py. A row keeps the text columns
  the SQL statements compare; the JSON document column is the record it encodes. `Valid` says what the
  table's primary key and the insert statement guarantee, and every method is proved against a function
  on the sequence of rows in insertion order.
 */
module Storage {
  import opened Prelude
  import opened Ordering
  import opened IsoText
  import Calendar

  /** One immutable entity version; `link` is a share class's fund_strategy_id, `content` the remaining fields. */
  datatype Entity = Entity(recordId: string, recordType: string, entityId: string, link: string,
                           validFrom: Instant, validTo: Option<Instant>, publishedAt: Instant, fetchedAt: Instant,
                           conflictGroup: Option<Id>, content: string)

  const RECORD_TYPES := {"fund_strategy", "share_class", "benchmark", "manager", "manager_tenure", "holding_snapshot", "evidence"}

  /** White space as Python's `str.strip` removes it. */
  predicate Space(c: char) {
    var n := c as int;
    || 9 <= n <= 13 || 28 <= n <= 32 || n == 0x85 || n == 0xA0 || n == 0x1680 || 0x2000 <= n <= 0x200A
    || n == 0x2028 || n == 0x2029 || n == 0x202F || n == 0x205F || n == 0x3000
  }

  predicate Blank(text: string) {
    text == [] || (Space(text[0]) && Blank(text[1..]))
  }

  /** What constructing a record checks and the store relies on. */
  predicate Constructible(e: Entity) {
    && e.recordType in RECORD_TYPES && !Blank(e.recordId) && !Blank(e.entityId)
    && (e.recordType == "share_class" ==> !Blank(e.link))
    && (e.validTo.Some? ==> Micros(e.validFrom) <= Micros(e.validTo.value))
    && Micros(e.publishedAt) <= Micros(e.fetchedAt)
  }

  /** A text is blank when every character of it is white space. */
  lemma {:induction false} BlankMeaning(text: string)
    ensures Blank(text) <==> forall c | c in text :: Space(c)
  {
    hide Space;
    if text != [] {
      BlankMeaning(text[1..]);
      assert text == [text[0]] + text[1..];
    }
  }

  /** The white space characters of Unicode as Python knows them. */
  lemma SpaceMeaning(c: char)
    ensures Space(c) <==> c as int in {9, 10, 11, 12, 13, 28, 29, 30, 31, 32, 133, 160, 5760, 8192, 8193, 8194, 8195, 8196, 8197,
                                       8198, 8199, 8200, 8201, 8202, 8232, 8233, 8239, 8287, 12288}
  {
  }

  lemma KnownTypes(t: string)
    ensures t in RECORD_TYPES <==>
              || t == "fund_strategy" || t == "share_class" || t == "benchmark" || t == "manager" || t == "manager_tenure"
              || t == "holding_snapshot" || t == "evidence"
  {
  }

  /** Every record has a known type, an identity, an entity, a validity that does not end before it starts, and was fetched after it was published. */
  lemma RecordMeaning(e: Entity)
    ensures Constructible(e) <==>
              && e.recordType in RECORD_TYPES
              && (exists c :: c in e.recordId && !Space(c)) && (exists c :: c in e.entityId && !Space(c))
              && (e.recordType == "share_class" ==> exists c :: c in e.link && !Space(c))
              && (e.validTo.Some? ==> Micros(e.validFrom) <= Micros(e.validTo.value))
              && Micros(e.publishedAt) <= Micros(e.fetchedAt)
  {
    hide Space, Blank, Micros;
    BlankMeaning(e.recordId);
    BlankMeaning(e.entityId);
    BlankMeaning(e.link);
  }

  const EPOCH: Instant := Reading(Calendar.Date(1, 1, 1), 0, 0, 0, 0)

  type Record = e: Entity | Constructible(e) witness Entity("r", "evidence", "e", "", EPOCH, None, EPOCH, EPOCH, None, "")

  datatype Row = Row(recordId: string, recordType: string, entityId: string, validFrom: string, validTo: Option<string>,
                     publishedAt: string, fetchedAt: string, conflictGroup: Option<Id>, document: Record)

  function RowOf(e: Record): Row {
    Row(e.recordId, e.recordType, e.entityId, UtcIso(e.validFrom), if e.validTo.Some? then Some(UtcIso(e.validTo.value)) else None,
        UtcIso(e.publishedAt), UtcIso(e.fetchedAt), e.conflictGroup, e)
  }

  datatype Failure = UnknownRecordType | BlankEntityId | IdentityConflict | InvalidDump

  /** An item of a dump: a document that restores to a record, or one that validation refuses. */
  datatype Item = Restored(record: Record) | Refused

  // ---- the table ----

  ghost predicate Table(rows: seq<Row>) {
    && (forall i, j | 0 <= i < j < |rows| :: rows[i].recordId != rows[j].recordId)
    && (forall i | 0 <= i < |rows| :: rows[i] == RowOf(rows[i].document))
  }

  ghost predicate Holds(rows: seq<Row>, id: string) {
    exists i | 0 <= i < |rows| :: rows[i].recordId == id
  }

  /** The rows after `_put`: appended when the id is new, unchanged on identical replay, refused otherwise. */
  ghost function Stored(rows: seq<Row>, e: Record): Result<seq<Row>, Failure> {
    if RowOf(e) in rows then Ok(rows)
    else if Holds(rows, e.recordId) then Err(IdentityConflict)
    else Ok(rows + [RowOf(e)])
  }

  /** The rows after putting every item in turn, if none is refused. */
  ghost function StoredAll(rows: seq<Row>, items: seq<Item>): Result<seq<Row>, Failure>
    decreases |items|
  {
    if items == [] then Ok(rows)
    else if items[0].Refused? then Err(InvalidDump)
    else
      match Stored(rows, items[0].record)
      case Ok(next) => StoredAll(next, items[1..])
      case Err(f) => Err(f)
  }

  lemma StoredKeepsTable(rows: seq<Row>, e: Record)
    requires Table(rows)
    ensures Stored(rows, e).Ok? ==> Table(Stored(rows, e).value) && rows <= Stored(rows, e).value && RowOf(e) in Stored(rows, e).value
  {
    hide UtcIso;
    var next := rows + [RowOf(e)];
    assert next[|rows|] == RowOf(e);
    if !Holds(rows, e.recordId) {
      forall i | 0 <= i < |rows| ensures next[i].recordId != next[|rows|].recordId {
        assert rows[i].recordId != e.recordId;
      }
    }
  }

  lemma {:induction false} StoredAllKeepsTable(rows: seq<Row>, items: seq<Item>)
    requires Table(rows)
    ensures StoredAll(rows, items).Ok? ==> Table(StoredAll(rows, items).value) && rows <= StoredAll(rows, items).value
    decreases |items|
  {
    if items != [] && items[0].Restored? {
      StoredKeepsTable(rows, items[0].record);
      if Stored(rows, items[0].record).Ok? {
        StoredAllKeepsTable(Stored(rows, items[0].record).value, items[1..]);
      }
    }
  }

  // ---- ordered selection ----

  /** Lexicographic comparison of sort keys, as ORDER BY with several columns. */
  predicate KeyLeq(a: seq<string>, b: seq<string>) {
    a == [] || (b != [] && StrLeq(a[0], b[0]) && (a[0] == b[0] ==> KeyLeq(a[1..], b[1..])))
  }

  lemma {:induction false} KeyTotal(a: seq<string>, b: seq<string>)
    ensures KeyLeq(a, b) || KeyLeq(b, a)
    ensures KeyLeq(a, b) && KeyLeq(b, a) ==> a == b
  {
    if a != [] && b != [] {
      StrTotal(a[0], b[0]);
      KeyTotal(a[1..], b[1..]);
      assert a == [a[0]] + a[1..] && b == [b[0]] + b[1..];
    }
  }

  lemma {:induction false} KeyTransitive(a: seq<string>, b: seq<string>, c: seq<string>)
    requires KeyLeq(a, b) && KeyLeq(b, c)
    ensures KeyLeq(a, c)
  {
    if a != [] {
      StrTransitive(a[0], b[0], c[0]);
      if a[0] == c[0] {
        StrTotal(a[0], b[0]);
        KeyTransitive(a[1..], b[1..], c[1..]);
      }
    }
  }

  function QueryKey(r: Row): seq<string> {
    [r.validFrom, r.publishedAt, r.recordId]
  }

  function DumpKey(r: Row): seq<string> {
    [r.recordType] + ([r.entityId] + QueryKey(r))
  }

  predicate QueryLeq(a: Row, b: Row) {
    KeyLeq(QueryKey(a), QueryKey(b))
  }

  predicate DumpLeq(a: Row, b: Row) {
    KeyLeq(DumpKey(a), DumpKey(b))
  }

  lemma RowOrders()
    ensures TotalPreorder(QueryLeq) && TotalPreorder(DumpLeq)
  {
    hide KeyLeq, QueryKey, DumpKey;
    forall a: Row, b: Row ensures (QueryLeq(a, b) || QueryLeq(b, a)) && (DumpLeq(a, b) || DumpLeq(b, a)) {
      KeyTotal(QueryKey(a), QueryKey(b));
      KeyTotal(DumpKey(a), DumpKey(b));
    }
    forall a: Row, b: Row, c: Row | QueryLeq(a, b) && QueryLeq(b, c) ensures QueryLeq(a, c) {
      KeyTransitive(QueryKey(a), QueryKey(b), QueryKey(c));
    }
    forall a: Row, b: Row, c: Row | DumpLeq(a, b) && DumpLeq(b, c) ensures DumpLeq(a, c) {
      KeyTransitive(DumpKey(a), DumpKey(b), DumpKey(c));
    }
  }

  /** Both orders end in the primary key, so no two rows of a table are tied. */
  lemma NoTies(rows: seq<Row>, some: seq<Row>)
    requires Table(rows) && forall r | r in some :: r in rows
    ensures AntisymmetricOn(some, QueryLeq) && AntisymmetricOn(some, DumpLeq)
  {
    hide KeyLeq, UtcIso;
    forall x, y | x in some && y in some && QueryLeq(x, y) && QueryLeq(y, x) ensures x == y {
      KeyTotal(QueryKey(x), QueryKey(y));
      assert x.recordId == QueryKey(x)[2] && y.recordId == QueryKey(y)[2];
      assert x in rows && y in rows;
    }
    forall x, y | x in some && y in some && DumpLeq(x, y) && DumpLeq(y, x) ensures x == y {
      KeyTotal(DumpKey(x), DumpKey(y));
      assert x.recordId == DumpKey(x)[4] && y.recordId == DumpKey(y)[4];
      assert x in rows && y in rows;
    }
  }

  function Documents(rows: seq<Row>): (d: seq<Record>)
    ensures |d| == |rows| && forall i | 0 <= i < |rows| :: d[i] == rows[i].document
  {
    seq(|rows|, i requires 0 <= i < |rows| => rows[i].document)
  }

  // ---- queries ----

  /** The WHERE clause of `query_versions`, on the text columns. */
  predicate Matches(r: Row, recordType: string, entityId: string, effective: string, knowledge: Option<string>) {
    && r.recordType == recordType && r.entityId == entityId
    && StrLeq(r.validFrom, effective)
    && (r.validTo.None? || !StrLeq(r.validTo.value, effective))
    && (knowledge.None? || StrLeq(r.fetchedAt, knowledge.value))
  }

  function TextOf(t: Option<Instant>): Option<string> {
    if t.Some? then Some(UtcIso(t.value)) else None
  }

  function Selected(rows: seq<Row>, recordType: string, entityId: string, effectiveAt: Instant, cutoff: Option<Instant>): seq<Row> {
    SortBy(Where(rows, r => Matches(r, recordType, entityId, UtcIso(effectiveAt), TextOf(cutoff))), QueryLeq)
  }

  function Versions(rows: seq<Row>, recordType: string, entityId: string, effectiveAt: Instant, cutoff: Option<Instant>): seq<Record> {
    Documents(Selected(rows, recordType, entityId, effectiveAt, cutoff))
  }

  /** Effective at the instant and, with a cutoff, fetched by it: the query's meaning in instants. */
  predicate Visible(e: Record, recordType: string, entityId: string, effectiveAt: Instant, cutoff: Option<Instant>) {
    && e.recordType == recordType && e.entityId == entityId
    && Micros(e.validFrom) <= Micros(effectiveAt)
    && (e.validTo.Some? ==> Micros(effectiveAt) < Micros(e.validTo.value))
    && (cutoff.Some? ==> Micros(e.fetchedAt) <= Micros(cutoff.value))
  }

  lemma MatchesIsVisible(e: Record, recordType: string, entityId: string, effectiveAt: Instant, cutoff: Option<Instant>)
    ensures Matches(RowOf(e), recordType, entityId, UtcIso(effectiveAt), TextOf(cutoff)) <==> Visible(e, recordType, entityId, effectiveAt, cutoff)
  {
    hide UtcIso, StrLeq, Micros;
    TextOrderIsInstantOrder(e.validFrom, effectiveAt);
    if e.validTo.Some? {
      TextOrderIsInstantOrder(e.validTo.value, effectiveAt);
    }
    if cutoff.Some? {
      TextOrderIsInstantOrder(e.fetchedAt, cutoff.value);
    }
  }

  /** Ordered by start of validity, then publication, then record id. */
  predicate Precedes(a: Record, b: Record) {
    || Micros(a.validFrom) < Micros(b.validFrom)
    || (a.validFrom == b.validFrom && (|| Micros(a.publishedAt) < Micros(b.publishedAt)
                                       || (a.publishedAt == b.publishedAt && StrLeq(a.recordId, b.recordId))))
  }

  lemma QueryOrderMeaning(a: Record, b: Record)
    requires QueryLeq(RowOf(a), RowOf(b))
    ensures Precedes(a, b)
  {
    hide UtcIso, StrLeq, Micros;
    var ka, kb := QueryKey(RowOf(a)), QueryKey(RowOf(b));
    assert ka[1..] == [UtcIso(a.publishedAt), a.recordId] && kb[1..] == [UtcIso(b.publishedAt), b.recordId];
    assert ka[1..][1..] == [a.recordId] && kb[1..][1..] == [b.recordId];
    assert KeyLeq(ka[1..], kb[1..]) ==> StrLeq(ka[1..][0], kb[1..][0]) && (ka[1..][0] == kb[1..][0] ==> KeyLeq(ka[1..][1..], kb[1..][1..]));
    assert KeyLeq([a.recordId], [b.recordId]) ==> StrLeq(a.recordId, b.recordId);
    TextOrderIsInstantOrder(a.validFrom, b.validFrom);
    TextOrderIsInstantOrder(b.validFrom, a.validFrom);
    TextOrderIsInstantOrder(a.publishedAt, b.publishedAt);
    TextOrderIsInstantOrder(b.publishedAt, a.publishedAt);
  }

  /** A query returns every visible stored version exactly once, and nothing else, in order. */
  lemma QueryMeaning(rows: seq<Row>, recordType: string, entityId: string, effectiveAt: Instant, cutoff: Option<Instant>)
    requires Table(rows)
    ensures var v := Versions(rows, recordType, entityId, effectiveAt, cutoff);
            && (forall e: Record :: e in v <==> RowOf(e) in rows && Visible(e, recordType, entityId, effectiveAt, cutoff))
            && (forall i, j | 0 <= i < j < |v| :: Precedes(v[i], v[j]) && v[i].recordId != v[j].recordId)
  {
    hide UtcIso, Matches, Visible, Precedes, QueryLeq, TotalPreorder, SortBy, Where, Table;
    var p := r => Matches(r, recordType, entityId, UtcIso(effectiveAt), TextOf(cutoff));
    var s, v := Selected(rows, recordType, entityId, effectiveAt, cutoff), Versions(rows, recordType, entityId, effectiveAt, cutoff);
    RowOrders();
    SortByCorrect(Where(rows, p), QueryLeq);
    SelectedDistinct(rows, p, s);
    forall r | r in s ensures r in rows && p(r) && r == RowOf(r.document) {
      SelectedRow(rows, p, s, r);
    }
    hide RowOf;
    forall e: Record ensures e in v <==> RowOf(e) in rows && Visible(e, recordType, entityId, effectiveAt, cutoff) {
      MatchesIsVisible(e, recordType, entityId, effectiveAt, cutoff);
      SelectedRow(rows, p, s, RowOf(e));
      DocumentOf(e);
      if e in v {
        var i :| 0 <= i < |v| && v[i] == e;
        assert s[i] in s;
      }
      if RowOf(e) in s {
        var i :| 0 <= i < |s| && s[i] == RowOf(e);
        assert v[i] == e;
      }
    }
    forall i, j | 0 <= i < j < |v| ensures Precedes(v[i], v[j]) && v[i].recordId != v[j].recordId {
      assert s[i] in s && s[j] in s;
      DocumentOf(v[i]);
      DocumentOf(v[j]);
      QueryOrderMeaning(v[i], v[j]);
    }
  }

  lemma DocumentOf(e: Record)
    ensures RowOf(e).document == e && RowOf(e).recordId == e.recordId
  {
    hide UtcIso;
  }

  /** The selected rows are those of the table that match. */
  lemma SelectedRow(rows: seq<Row>, p: Row -> bool, s: seq<Row>, r: Row)
    requires Table(rows) && multiset(s) == multiset(Where(rows, p))
    ensures r in s <==> r in rows && p(r)
    ensures r in s ==> r == RowOf(r.document)
  {
    hide RowOf;
    SameMember(s, Where(rows, p), r);
  }

  lemma SelectedDistinct(rows: seq<Row>, p: Row -> bool, s: seq<Row>)
    requires Table(rows) && multiset(s) == multiset(Where(rows, p))
    ensures forall i, j | 0 <= i < j < |s| :: s[i].recordId != s[j].recordId
  {
    hide UtcIso;
    OnceEach(rows);
    forall i, j | 0 <= i < j < |s| ensures s[i].recordId != s[j].recordId {
      WhereMultiset(rows, p, s[i]);
      SeenTwice(s, i, j);
      SameMember(s, Where(rows, p), s[i]);
      SameMember(s, Where(rows, p), s[j]);
      assert s[i] in rows && s[j] in rows;
    }
  }

  // ---- share classes and dumps ----

  datatype Resolution = Resolution(shareClass: Record, strategies: seq<Record>, conflicts: seq<Id>)

  /** The conflict groups of a share class version and of its strategy candidates. */
  function ConflictGroups(share: Record, strategies: seq<Record>): set<Id> {
    set e | e in [share] + strategies && e.conflictGroup.Some? :: e.conflictGroup.value
  }

  ghost function ResolutionOf(rows: seq<Row>, share: Record, effectiveAt: Instant, cutoff: Option<Instant>): Resolution {
    var strategies := Versions(rows, "fund_strategy", share.link, effectiveAt, cutoff);
    Resolution(share, strategies, Sorted(ConflictGroups(share, strategies)))
  }

  ghost function Resolutions(rows: seq<Row>, shareClassId: string, effectiveAt: Instant, cutoff: Option<Instant>): seq<Resolution> {
    var shares := Versions(rows, "share_class", shareClassId, effectiveAt, cutoff);
    seq(|shares|, i requires 0 <= i < |shares| => ResolutionOf(rows, shares[i], effectiveAt, cutoff))
  }

  /** `v` is every visible stored version, once each, in order. */
  ghost predicate Answers(rows: seq<Row>, v: seq<Record>, recordType: string, entityId: string, effectiveAt: Instant, cutoff: Option<Instant>) {
    && (forall e: Record :: e in v <==> RowOf(e) in rows && Visible(e, recordType, entityId, effectiveAt, cutoff))
    && (forall i, j | 0 <= i < j < |v| :: Precedes(v[i], v[j]) && v[i].recordId != v[j].recordId)
  }

  lemma VersionsAnswer(rows: seq<Row>, recordType: string, entityId: string, effectiveAt: Instant, cutoff: Option<Instant>)
    requires Table(rows)
    ensures Answers(rows, Versions(rows, recordType, entityId, effectiveAt, cutoff), recordType, entityId, effectiveAt, cutoff)
  {
    hide Versions, Visible, Precedes, RowOf, Table;
    QueryMeaning(rows, recordType, entityId, effectiveAt, cutoff);
  }

  /** The conflict groups any of the records carries, in order and once each. */
  ghost predicate ListsGroups(groups: seq<Id>, share: Record, strategies: seq<Record>) {
    && (forall g :: g in groups <==> share.conflictGroup == Some(g) || exists s :: s in strategies && s.conflictGroup == Some(g))
    && SortedBy(groups, IdLeq) && Distinct(groups)
  }

  lemma GroupsMeaning(share: Record, strategies: seq<Record>, g: Id)
    ensures g in ConflictGroups(share, strategies)
            <==> share.conflictGroup == Some(g) || exists s :: s in strategies && s.conflictGroup == Some(g)
  {
    var all := [share] + strategies;
    assert all[0] == share;
    if s :| s in strategies && s.conflictGroup == Some(g) {
      assert s in all;
    }
  }

  lemma GroupsListed(share: Record, strategies: seq<Record>)
    ensures ListsGroups(Sorted(ConflictGroups(share, strategies)), share, strategies)
  {
    hide ConflictGroups, Sorted, SortedBy, Distinct;
    var groups := Sorted(ConflictGroups(share, strategies));
    SortedIsOrdered(ConflictGroups(share, strategies));
    SortedIsDistinct(ConflictGroups(share, strategies));
    forall g ensures g in groups <==> share.conflictGroup == Some(g) || exists s :: s in strategies && s.conflictGroup == Some(g) {
      GroupsMeaning(share, strategies, g);
    }
  }

  /** A resolution lists the candidate's visible strategy versions, and the conflict groups it or any of them carries. */
  ghost predicate Resolves(rows: seq<Row>, r: Resolution, effectiveAt: Instant, cutoff: Option<Instant>) {
    && Answers(rows, r.strategies, "fund_strategy", r.shareClass.link, effectiveAt, cutoff)
    && ListsGroups(r.conflicts, r.shareClass, r.strategies)
  }

  lemma OneResolution(rows: seq<Row>, share: Record, effectiveAt: Instant, cutoff: Option<Instant>)
    requires Table(rows)
    ensures Resolves(rows, ResolutionOf(rows, share, effectiveAt, cutoff), effectiveAt, cutoff)
  {
    hide Answers, ListsGroups, Table, Versions, ConflictGroups, Sorted, Constructible;
    VersionsAnswer(rows, "fund_strategy", share.link, effectiveAt, cutoff);
    GroupsListed(share, Versions(rows, "fund_strategy", share.link, effectiveAt, cutoff));
  }

  function ShareClasses(rs: seq<Resolution>): (shares: seq<Record>)
    ensures |shares| == |rs| && forall i | 0 <= i < |rs| :: shares[i] == rs[i].shareClass
  {
    seq(|rs|, i requires 0 <= i < |rs| => rs[i].shareClass)
  }

  /** Every visible version of the share class is resolved, once each and in order, each as `Resolves` says. */
  lemma ResolutionMeaning(rows: seq<Row>, id: string, effectiveAt: Instant, cutoff: Option<Instant>)
    requires Table(rows)
    ensures var rs := Resolutions(rows, id, effectiveAt, cutoff);
            && Answers(rows, ShareClasses(rs), "share_class", id, effectiveAt, cutoff)
            && forall i | 0 <= i < |rs| :: Resolves(rows, rs[i], effectiveAt, cutoff)
  {
    hide Answers, Table, Versions, ResolutionOf, Resolves, Constructible;
    var rs, shares := Resolutions(rows, id, effectiveAt, cutoff), Versions(rows, "share_class", id, effectiveAt, cutoff);
    VersionsAnswer(rows, "share_class", id, effectiveAt, cutoff);
    forall i | 0 <= i < |rs| ensures Resolves(rows, rs[i], effectiveAt, cutoff) && rs[i].shareClass == shares[i] {
      OneResolution(rows, shares[i], effectiveAt, cutoff);
      ResolvesItsShare(rows, shares[i], effectiveAt, cutoff);
    }
    assert ShareClasses(rs) == shares;
  }

  lemma ResolvesItsShare(rows: seq<Row>, share: Record, effectiveAt: Instant, cutoff: Option<Instant>)
    ensures ResolutionOf(rows, share, effectiveAt, cutoff).shareClass == share
  {
    hide Versions, ConflictGroups, Sorted;
  }

  function DumpOf(rows: seq<Row>): seq<Record> {
    Documents(SortBy(rows, DumpLeq))
  }

  /** By record type, then entity, then as queries are ordered. */
  predicate DumpPrecedes(a: Record, b: Record) {
    if a.recordType != b.recordType then StrLeq(a.recordType, b.recordType)
    else if a.entityId != b.entityId then StrLeq(a.entityId, b.entityId)
    else Precedes(a, b)
  }

  lemma KeyCons(x: string, y: string, s: seq<string>, t: seq<string>)
    ensures KeyLeq([x] + s, [y] + t) <==> StrLeq(x, y) && (x == y ==> KeyLeq(s, t))
  {
    assert ([x] + s)[1..] == s && ([y] + t)[1..] == t;
  }

  lemma DumpOrderParts(x: Row, y: Row)
    requires DumpLeq(x, y)
    ensures StrLeq(x.recordType, y.recordType)
    ensures x.recordType == y.recordType ==> StrLeq(x.entityId, y.entityId) && (x.entityId == y.entityId ==> QueryLeq(x, y))
  {
    hide StrLeq, KeyLeq, QueryKey;
    KeyCons(x.recordType, y.recordType, [x.entityId] + QueryKey(x), [y.entityId] + QueryKey(y));
    KeyCons(x.entityId, y.entityId, QueryKey(x), QueryKey(y));
  }

  lemma DumpOrderMeaning(a: Record, b: Record)
    requires DumpLeq(RowOf(a), RowOf(b))
    ensures DumpPrecedes(a, b)
  {
    hide UtcIso, StrLeq, Precedes, QueryLeq, DumpLeq;
    DumpOrderParts(RowOf(a), RowOf(b));
    if a.recordType == b.recordType && a.entityId == b.entityId {
      QueryOrderMeaning(a, b);
    }
  }

  /** Every stored record exactly once and nothing else, by type, entity, start of validity, publication and id. */
  ghost predicate IsDump(rows: seq<Row>, d: seq<Record>) {
    && |d| == |rows|
    && (forall e: Record :: e in d <==> RowOf(e) in rows)
    && (forall i, j | 0 <= i < j < |d| :: DumpPrecedes(d[i], d[j]) && d[i].recordId != d[j].recordId)
  }

  /** Rearranging a table's rows gives a table. */
  lemma PermutedTable(rows: seq<Row>, shuffled: seq<Row>)
    requires Table(rows) && multiset(shuffled) == multiset(rows)
    ensures Table(shuffled) && forall r :: r in shuffled <==> r in rows
  {
    SameMembers(shuffled, rows);
    KeepAll(rows, r => true);
    SelectedDistinct(rows, r => true, shuffled);
    hide UtcIso, RowOf;
    forall i | 0 <= i < |shuffled| ensures shuffled[i] == RowOf(shuffled[i].document) {
      assert shuffled[i] in shuffled;
      assert shuffled[i] in rows;
    }
  }

  lemma DocumentMembers(s: seq<Row>)
    requires Table(s)
    ensures forall e: Record :: e in Documents(s) <==> RowOf(e) in s
  {
    hide UtcIso;
    forall e: Record ensures e in Documents(s) <==> RowOf(e) in s {
      if RowOf(e) in s {
        var i :| 0 <= i < |s| && s[i] == RowOf(e);
        assert Documents(s)[i] == e;
      }
    }
  }

  lemma TableRow(s: seq<Row>, i: nat)
    requires Table(s) && i < |s|
    ensures s[i] == RowOf(s[i].document)
  {
  }

  lemma TableIds(s: seq<Row>, i: nat, j: nat)
    requires Table(s) && i < j < |s|
    ensures s[i].document.recordId != s[j].document.recordId
  {
    hide UtcIso;
    assert s[i].recordId == s[i].document.recordId && s[j].recordId == s[j].document.recordId;
  }

  lemma DumpMeaning(rows: seq<Row>)
    requires Table(rows)
    ensures IsDump(rows, DumpOf(rows))
  {
    hide RowOf, DumpLeq, DumpPrecedes, TotalPreorder, SortBy, Table;
    var s, d := SortBy(rows, DumpLeq), DumpOf(rows);
    RowOrders();
    SortByCorrect(rows, DumpLeq);
    PermutedTable(rows, s);
    DocumentMembers(s);
    forall i, j | 0 <= i < j < |d| ensures DumpPrecedes(d[i], d[j]) && d[i].recordId != d[j].recordId {
      TableRow(s, i);
      TableRow(s, j);
      TableIds(s, i, j);
      DumpOrderMeaning(d[i], d[j]);
    }
  }

  lemma ShareClassesAreLinked(rows: seq<Row>, id: string, effectiveAt: Instant, cutoff: Option<Instant>)
    requires Table(rows)
    ensures forall e | e in Versions(rows, "share_class", id, effectiveAt, cutoff) :: e.recordType == "share_class" && !Blank(e.link)
  {
    QueryMeaning(rows, "share_class", id, effectiveAt, cutoff);
    hide Table, Versions, Blank;
    forall e | e in Versions(rows, "share_class", id, effectiveAt, cutoff) ensures e.recordType == "share_class" && !Blank(e.link) {
      assert Visible(e, "share_class", id, effectiveAt, cutoff);
      assert Constructible(e);
    }
  }

  class CanonicalStore {
    var rows: seq<Row>

    ghost predicate Valid()
      reads this
    {
      Table(rows)
    }

    constructor ()
      ensures Valid() && rows == []
    {
      rows := [];
    }

    /** SELECT by primary key. */
    method Find(recordId: string) returns (found: Option<Row>)
      requires Valid()
      ensures found.None? <==> !Holds(rows, recordId)
      ensures found.Some? ==> found.value in rows && found.value.recordId == recordId
    {
      hide Table;
      for i := 0 to |rows|
        invariant forall j | 0 <= j < i :: rows[j].recordId != recordId
      {
        if rows[i].recordId == recordId {
          return Some(rows[i]);
        }
      }
      return None;
    }

    /** `_put`: true when appended, false on identical replay. */
    method PutOne(record: Record) returns (r: Result<bool, Failure>)
      requires Valid()
      modifies this
      ensures Valid()
      ensures match Stored(old(rows), record)
              case Ok(next) => rows == next && r == Ok(RowOf(record) !in old(rows))
              case Err(f) => rows == old(rows) && r == Err(f)
    {
      StoredKeepsTable(rows, record);
      var existing := Find(record.recordId);
      if existing.Some? {
        var i :| 0 <= i < |rows| && rows[i] == existing.value;
        if existing.value.document == record {
          return Ok(false);
        }
        SameIdSameRow(rows, i, record);
        return Err(IdentityConflict);
      }
      rows := rows + [RowOf(record)];
      return Ok(true);
    }

    /** `put`: the transaction around `_put`. */
    method Put(record: Record) returns (r: Result<bool, Failure>)
      requires Valid()
      modifies this
      ensures Valid()
      ensures match Stored(old(rows), record)
              case Ok(next) => rows == next && r == Ok(RowOf(record) !in old(rows))
              case Err(f) => rows == old(rows) && r == Err(f)
    {
      var saved := rows;
      r := PutOne(record);
      if r.Err? {
        rows := saved;
      }
    }

    /** `load_json`; `None` is a payload that is not a JSON array. One bad item rolls the whole load back. */
    method Load(payload: Option<seq<Item>>) returns (r: Result<(), Failure>)
      requires Valid()
      modifies this
      ensures Valid()
      ensures payload.None? ==> r == Err(InvalidDump)
      ensures r.Err? ==> rows == old(rows)
      ensures payload.Some? ==> match StoredAll(old(rows), payload.value)
                                case Ok(next) => rows == next && r == Ok(())
                                case Err(f) => r == Err(f)
    {
      if payload.None? {
        return Err(InvalidDump);
      }
      var saved, items := rows, payload.value;
      for i := 0 to |items|
        invariant Valid()
        invariant StoredAll(saved, items) == StoredAll(rows, items[i..])
      {
        assert items[i..][1..] == items[i + 1..];
        if items[i].Refused? {
          rows := saved;
          return Err(InvalidDump);
        }
        var stored := PutOne(items[i].record);
        if stored.Err? {
          rows := saved;
          return Err(stored.error);
        }
      }
      return Ok(());
    }

    method QueryVersions(recordType: string, entityId: string, effectiveAt: Instant, cutoff: Option<Instant>)
      returns (r: Result<seq<Record>, Failure>)
      requires Valid()
      ensures r == if recordType !in RECORD_TYPES then Err(UnknownRecordType)
                   else if Blank(entityId) then Err(BlankEntityId)
                   else Ok(Versions(rows, recordType, entityId, effectiveAt, cutoff))
    {
      hide Valid, Matches, SortBy, UtcIso, Blank, QueryLeq;
      if recordType !in RECORD_TYPES {
        return Err(UnknownRecordType);
      }
      if Blank(entityId) {
        return Err(BlankEntityId);
      }
      var effective, knowledge := UtcIso(effectiveAt), TextOf(cutoff);
      ghost var p := r => Matches(r, recordType, entityId, UtcIso(effectiveAt), TextOf(cutoff));
      var chosen: seq<Row> := [];
      for i := 0 to |rows|
        invariant chosen == Where(rows[..i], p)
      {
        assert rows[..i + 1][..i] == rows[..i];
        if Matches(rows[i], recordType, entityId, effective, knowledge) {
          chosen := chosen + [rows[i]];
        }
      }
      assert rows[..|rows|] == rows;
      return Ok(Documents(SortBy(chosen, QueryLeq)));
    }

    /** One candidate: every strategy version it links to and the conflict groups involved. */
    method ResolveOne(share: Record, effectiveAt: Instant, cutoff: Option<Instant>) returns (r: Resolution)
      requires Valid() && !Blank(share.link)
      ensures r == ResolutionOf(rows, share, effectiveAt, cutoff)
    {
      hide Table, Versions, ConflictGroups, Blank, Constructible;
      assert "fund_strategy" in RECORD_TYPES;
      var linked := QueryVersions("fund_strategy", share.link, effectiveAt, cutoff);
      var conflicts := SortSet(ConflictGroups(share, linked.value));
      r := Resolution(share, linked.value, conflicts);
    }

    method ResolveEach(shares: seq<Record>, effectiveAt: Instant, cutoff: Option<Instant>) returns (resolutions: seq<Resolution>)
      requires Valid() && forall e | e in shares :: !Blank(e.link)
      ensures |resolutions| == |shares| && forall i | 0 <= i < |shares| :: resolutions[i] == ResolutionOf(rows, shares[i], effectiveAt, cutoff)
    {
      hide Table, Blank, Constructible, ResolutionOf;
      resolutions := [];
      for i := 0 to |shares|
        invariant |resolutions| == i && forall j | 0 <= j < i :: resolutions[j] == ResolutionOf(rows, shares[j], effectiveAt, cutoff)
      {
        assert shares[i] in shares;
        var resolution := ResolveOne(shares[i], effectiveAt, cutoff);
        resolutions := resolutions + [resolution];
      }
    }

    /** `resolve_share_class`; its two wrong-type branches cannot be taken, since a query returns only the type asked for. */
    method ResolveShareClass(shareClassId: string, effectiveAt: Instant, cutoff: Option<Instant>)
      returns (r: Result<seq<Resolution>, Failure>)
      requires Valid()
      ensures r == if Blank(shareClassId) then Err(BlankEntityId) else Ok(Resolutions(rows, shareClassId, effectiveAt, cutoff))
    {
      hide Table, Versions, Blank, Constructible, ResolutionOf, Resolutions;
      ShareClassesAreLinked(rows, shareClassId, effectiveAt, cutoff);
      assert "share_class" in RECORD_TYPES;
      var found := QueryVersions("share_class", shareClassId, effectiveAt, cutoff);
      if found.Err? {
        return Err(found.error);
      }
      var resolutions := ResolveEach(found.value, effectiveAt, cutoff);
      AllResolved(rows, shareClassId, effectiveAt, cutoff, resolutions);
      return Ok(resolutions);
    }

    method DumpJson() returns (d: seq<Record>)
      requires Valid()
      ensures d == DumpOf(rows)
      ensures IsDump(rows, d)
    {
      DumpMeaning(rows);
      d := Documents(SortBy(rows, DumpLeq));
    }
  }

  lemma AllResolved(rows: seq<Row>, id: string, effectiveAt: Instant, cutoff: Option<Instant>, resolutions: seq<Resolution>)
    requires var shares := Versions(rows, "share_class", id, effectiveAt, cutoff);
             && |resolutions| == |shares|
             && forall i | 0 <= i < |shares| :: resolutions[i] == ResolutionOf(rows, shares[i], effectiveAt, cutoff)
    ensures resolutions == Resolutions(rows, id, effectiveAt, cutoff)
  {
    hide Versions, ResolutionOf;
  }

  lemma SameIdSameRow(rows: seq<Row>, i: nat, e: Record)
    requires Table(rows) && i < |rows| && rows[i].recordId == e.recordId
    ensures RowOf(e) in rows <==> rows[i].document == e
  {
    hide UtcIso;
    if RowOf(e) in rows {
      var j :| 0 <= j < |rows| && rows[j] == RowOf(e);
      assert i == j;
    }
  }
}
