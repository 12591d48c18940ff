/**
  The paginated fetch of src/openfundscore/official_providers.py: page metadata checks and the
  `fetch_series` loop against an arbitrary server. A row is its period, which alone determines the
  identifier of the record built from it; an invalid or future row fails the fetch.
 */
module PagedFetch {
  import opened Prelude
  import opened Ordering

  datatype Row = InvalidRow | Row(period: int)

  /** Metadata fields are `None` when missing, of the wrong type or out of bounds; `stamp` joins source and update date. */
  datatype Page = BadEnvelope
    | Page(page: Option<int>, pages: Option<int>, perPage: Option<int>, total: Option<int>, stamp: Option<Id>, rows: seq<Row>)

  datatype Metadata = Metadata(pages: int, total: int, stamp: Id)

  datatype FetchError =
    | InvalidRequest | InvalidMetadata | PageLimit | RecordLimit | MetadataChanged | BadRow | RowsDoNotReconcile | FinalCountMismatch

  /** One page at least, otherwise as many as the rows need. */
  function PageCount(total: int, perPage: int): (n: int)
    requires total >= 0 && perPage >= 1
    ensures n >= 1
  {
    var full := (total + perPage - 1) / perPage;
    if full > 1 then full else 1
  }

  function RowsOn(page: int, total: int, perPage: int): int
    requires total >= 0 && perPage >= 1
  {
    var n := PageCount(total, perPage);
    if page < n then perPage else total - perPage * (n - 1)
  }

  /** `_page_metadata` */
  function PageMetadata(p: Page, requestedPage: int, perPage: int): Result<Metadata, FetchError>
    requires perPage >= 1
  {
    if p.BadEnvelope? then Err(InvalidMetadata)
    else if p.page != Some(requestedPage) || p.pages.None? || p.perPage != Some(perPage)
            || p.total.None? || !(0 <= p.total.value <= 10_000_000) || p.stamp.None? then Err(InvalidMetadata)
    else if p.pages.value != PageCount(p.total.value, perPage) || |p.rows| > perPage
            || |p.rows| != RowsOn(requestedPage, p.total.value, perPage) then Err(InvalidMetadata)
    else Ok(Metadata(p.pages.value, p.total.value, p.stamp.value))
  }

  predicate AllValid(rows: seq<Row>) {
    forall i | 0 <= i < |rows| :: rows[i].Row?
  }

  function Periods(rows: seq<Row>): (r: seq<int>)
    requires AllValid(rows)
    ensures |r| == |rows| && forall i | 0 <= i < |rows| :: r[i] == rows[i].period
  {
    seq(|rows|, i requires 0 <= i < |rows| => rows[i].period)
  }

  /** Page `n` is one the loop accepts on its own, with metadata `m`. */
  predicate GoodPage(server: int -> Page, n: int, perPage: int, m: Metadata)
    requires perPage >= 1
  {
    PageMetadata(server(n), n, perPage) == Ok(m) && AllValid(server(n).rows)
  }

  /** The records of pages 1 to `n`, in order. */
  ghost function Collected(server: int -> Page, n: nat, perPage: int, m: Metadata): seq<int>
    requires perPage >= 1 && forall k | 1 <= k <= n :: GoodPage(server, k, perPage, m)
  {
    if n == 0 then []
    else
      assert GoodPage(server, n, perPage, m);
      Collected(server, n - 1, perPage, m) + Periods(server(n).rows)
  }

  ghost predicate GoodRequest(perPage: int, maxPages: int, maxRecords: int) {
    1 <= perPage <= 1000 && 1 <= maxPages <= 10 && 1 <= maxRecords <= 10_000
  }

  /** What a server must do for the fetch to succeed: consistent, within limits, no period twice. */
  ghost predicate Serves(server: int -> Page, perPage: int, maxPages: int, maxRecords: int, m: Metadata)
    requires perPage >= 1
  {
    && m.total >= 0 && m.pages == PageCount(m.total, perPage) <= maxPages && m.total <= maxRecords
    && (forall k | 1 <= k <= m.pages :: GoodPage(server, k, perPage, m))
    && Distinct(Collected(server, m.pages, perPage, m))
  }

  lemma PageArithmetic(total: int, perPage: int)
    requires total >= 0 && perPage >= 1
    ensures var n := PageCount(total, perPage);
            && perPage * (n - 1) <= total <= perPage * n
            && (n > 1 ==> perPage * (n - 1) < total)
  {
    var x := total + perPage - 1;
    assert x == perPage * (x / perPage) + x % perPage;
    if x / perPage > 1 {
      var n := x / perPage;
      assert perPage * (n - 1) == perPage * n - perPage;
    } else {
      assert x / perPage <= 1 ==> x < 2 * perPage by {
        if x >= 2 * perPage { DivAtLeastTwo(x, perPage); }
      }
    }
  }

  lemma DivAtLeastTwo(x: int, d: int)
    requires d >= 1 && x >= 2 * d
    ensures x / d >= 2
  {
    assert x == d * (x / d) + x % d;
    assert d * (x / d) > d * 1;
  }

  /** Before the last page every page is full, so the rows so far are exactly the pages so far. */
  lemma {:induction false} CollectedSize(server: int -> Page, n: nat, perPage: int, m: Metadata)
    requires perPage >= 1 && m.total >= 0 && m.pages == PageCount(m.total, perPage) && n <= m.pages
    requires forall k | 1 <= k <= n :: GoodPage(server, k, perPage, m)
    ensures |Collected(server, n, perPage, m)| == if n < m.pages then perPage * n else m.total
  {
    if n > 0 {
      CollectedSize(server, n - 1, perPage, m);
      assert GoodPage(server, n, perPage, m);
      assert perPage * n == perPage * (n - 1) + perPage;
    }
  }

  lemma {:induction false} CollectedPrefix(server: int -> Page, n: nat, k: nat, perPage: int, m: Metadata)
    requires perPage >= 1 && n <= k && forall i | 1 <= i <= k :: GoodPage(server, i, perPage, m)
    ensures |Collected(server, n, perPage, m)| <= |Collected(server, k, perPage, m)|
    ensures Collected(server, k, perPage, m)[..|Collected(server, n, perPage, m)|] == Collected(server, n, perPage, m)
    decreases k
  {
    if n < k {
      CollectedPrefix(server, n, k - 1, perPage, m);
    }
  }

  predicate NoRepeats(s: seq<int>) {
    forall i, j | 0 <= i < j < |s| :: s[i] != s[j]
  }

  /** Only page 1's own metadata can be the one the whole fetch agrees on. */
  lemma ServedMetadata(server: int -> Page, perPage: int, maxPages: int, maxRecords: int, m: Metadata)
    requires perPage >= 1 && Serves(server, perPage, maxPages, maxRecords, m)
    ensures PageMetadata(server(1), 1, perPage) == Ok(m)
  {
    assert GoodPage(server, 1, perPage, m);
  }

  /**
    For any server: the fetch succeeds exactly when the server serves, and then it has read
    max(1, ceil(total / perPage)) pages and returns exactly `total` records in page order. The final
    count check of the source never fires.
   */
  method FetchSeries(server: int -> Page, perPage: int, maxPages: int, maxRecords: int)
    returns (r: Result<seq<int>, FetchError>, pagesRead: nat)
    ensures r == Err(InvalidRequest) <==> !GoodRequest(perPage, maxPages, maxRecords)
    ensures GoodRequest(perPage, maxPages, maxRecords) ==>
              (r.Ok? <==> exists m :: Serves(server, perPage, maxPages, maxRecords, m))
    ensures GoodRequest(perPage, maxPages, maxRecords) ==>
              forall m | Serves(server, perPage, maxPages, maxRecords, m) ::
                && r == Ok(Collected(server, m.pages, perPage, m)) && |r.value| == m.total
                && pagesRead == PageCount(m.total, perPage) <= maxPages
    ensures r != Err(FinalCountMismatch)
    ensures pagesRead <= 10
  {
    pagesRead := 0;
    if !(1 <= perPage <= 1000 && 1 <= maxPages <= 10 && 1 <= maxRecords <= 10_000) {
      return Err(InvalidRequest), pagesRead;
    }
    var first := PageMetadata(server(1), 1, perPage);
    forall m | Serves(server, perPage, maxPages, maxRecords, m) ensures first == Ok(m) {
      ServedMetadata(server, perPage, maxPages, maxRecords, m);
    }
    if first.Err? {
      return Err(InvalidMetadata), 1;
    }
    r, pagesRead := FetchPages(server, perPage, maxPages, maxRecords, first.value);
  }

  /** A server whose pages all reconcile never repeats a record among the pages read so far. */
  lemma RepeatsAreNotServed(server: int -> Page, page: nat, perPage: int, maxPages: int, maxRecords: int, m: Metadata)
    requires perPage >= 1 && page <= m.pages && forall k | 1 <= k <= page :: GoodPage(server, k, perPage, m)
    ensures Serves(server, perPage, maxPages, maxRecords, m) ==> Distinct(Collected(server, page, perPage, m))
  {
    hide GoodPage;
    if Serves(server, perPage, maxPages, maxRecords, m) {
      CollectedPrefix(server, page, m.pages, perPage, m);
      PrefixDistinct(Collected(server, m.pages, perPage, m), Collected(server, page, perPage, m));
    }
  }

  method FetchPages(server: int -> Page, perPage: int, maxPages: int, maxRecords: int, ghost m: Metadata)
    returns (r: Result<seq<int>, FetchError>, pagesRead: nat)
    requires GoodRequest(perPage, maxPages, maxRecords) && PageMetadata(server(1), 1, perPage) == Ok(m)
    ensures r.Ok? <==> Serves(server, perPage, maxPages, maxRecords, m)
    ensures r.Ok? ==> r.value == Collected(server, m.pages, perPage, m) && |r.value| == m.total && pagesRead == m.pages
    ensures r != Err(FinalCountMismatch) && r != Err(InvalidRequest)
    ensures pagesRead <= 10
  {
    var records: seq<int> := [];
    var expected: Option<Metadata> := None;
    var page := 1;
    PageArithmetic(m.total, perPage);
    while true
      invariant 1 <= page <= 10
      invariant page == 1 ==> expected.None?
      invariant page > 1 ==> expected == Some(m) && page <= m.pages <= maxPages && m.total <= maxRecords
      invariant forall k | 1 <= k < page :: GoodPage(server, k, perPage, m)
      invariant records == Collected(server, page - 1, perPage, m)
      invariant page <= m.pages
      decreases 11 - page
    {
      pagesRead := page;
      var metadata := PageMetadata(server(page), page, perPage);
      if metadata.Err? {
        assert !GoodPage(server, page, perPage, m);
        return Err(InvalidMetadata), page;
      }
      if metadata.value.pages > maxPages {
        assert metadata.value != m ==> !GoodPage(server, page, perPage, m);
        return Err(PageLimit), page;
      }
      if metadata.value.total > maxRecords {
        assert metadata.value != m ==> !GoodPage(server, page, perPage, m);
        return Err(RecordLimit), page;
      }
      if expected.None? {
        expected := Some(metadata.value);
      } else if Some(metadata.value) != expected {
        assert !GoodPage(server, page, perPage, m);
        return Err(MetadataChanged), page;
      }
      var rows := server(page).rows;
      if !AllValid(rows) {
        assert !GoodPage(server, page, perPage, m);
        return Err(BadRow), page;
      }
      assert GoodPage(server, page, perPage, m);
      records := records + Periods(rows);
      CollectedSize(server, page, perPage, m);
      WithinTotal(m, perPage, page);
      if |records| > metadata.value.total || |records| > maxRecords || !NoRepeats(records) {
        RepeatsAreNotServed(server, page, perPage, maxPages, maxRecords, m);
        return Err(RowsDoNotReconcile), page;
      }
      if page >= metadata.value.pages {
        if |records| != metadata.value.total {
          return Err(FinalCountMismatch), page;
        }
        return Ok(records), page;
      }
      page := page + 1;
    }
  }

  lemma WithinTotal(m: Metadata, perPage: int, page: nat)
    requires perPage >= 1 && m.total >= 0 && m.pages == PageCount(m.total, perPage)
    ensures page < m.pages ==> perPage * page <= m.total
  {
    PageArithmetic(m.total, perPage);
    var left := m.pages - 1 - page;
    assert left >= 0 ==> perPage * left >= 0;
    assert perPage * left == perPage * (m.pages - 1) - perPage * page;
  }

  lemma PrefixDistinct(whole: seq<int>, prefix: seq<int>)
    requires |prefix| <= |whole| && whole[..|prefix|] == prefix && Distinct(whole)
    ensures NoRepeats(prefix)
  {
    forall i, j | 0 <= i < j < |prefix| ensures prefix[i] != prefix[j] {
      assert prefix[i] == whole[i] && prefix[j] == whole[j];
    }
  }

  /** Page `k` as a consistent server sends it: its own number, the shared metadata, valid rows, and as many as belong on it. */
  ghost predicate ConsistentPage(p: Page, k: int, perPage: int, m: Metadata) {
    && p.Page? && p.page == Some(k) && p.pages == Some(m.pages) && p.perPage == Some(perPage) && p.total == Some(m.total) && p.stamp == Some(m.stamp)
    && (forall i | 0 <= i < |p.rows| :: p.rows[i].Row?)
    && |p.rows| == if k < m.pages then perPage else m.total - perPage * (m.pages - 1)
  }

  /** The least number of pages, and at least one, that holds the rows. */
  ghost predicate LeastPages(n: int, total: int, perPage: int) {
    n >= 1 && total <= perPage * n && (n > 1 ==> perPage * (n - 1) < total)
  }

  lemma LeastIsUnique(n: int, k: int, total: int, perPage: int)
    requires perPage >= 1 && LeastPages(n, total, perPage) && LeastPages(k, total, perPage)
    ensures n == k
  {
    if n < k {
      ProductOrder(perPage, n, k - 1);
    } else if k < n {
      ProductOrder(perPage, k, n - 1);
    }
  }

  lemma ProductOrder(p: int, a: int, b: int)
    requires p >= 1 && a <= b
    ensures p * a <= p * b
  {
    assert p * (b - a) >= 0;
    assert p * (b - a) == p * b - p * a;
  }

  lemma PagesAreLeast(n: int, total: int, perPage: int)
    requires perPage >= 1 && total >= 0
    ensures n == PageCount(total, perPage) <==> LeastPages(n, total, perPage)
  {
    PageArithmetic(total, perPage);
    if LeastPages(n, total, perPage) {
      LeastIsUnique(n, PageCount(total, perPage), total, perPage);
    }
  }

  lemma GoodPageMeaning(server: int -> Page, k: int, perPage: int, m: Metadata)
    requires perPage >= 1 && m.total >= 0 && 1 <= k <= m.pages && LeastPages(m.pages, m.total, perPage)
    ensures GoodPage(server, k, perPage, m) <==> m.total <= 10_000_000 && ConsistentPage(server(k), k, perPage, m)
  {
    PagesAreLeast(m.pages, m.total, perPage);
    LastPageFits(m, perPage);
    hide PageCount, LeastPages;
  }

  lemma LastPageFits(m: Metadata, perPage: int)
    requires perPage >= 1 && m.total >= 0 && LeastPages(m.pages, m.total, perPage)
    ensures m.total - perPage * (m.pages - 1) <= perPage
  {
    assert perPage * (m.pages - 1) == perPage * m.pages - perPage;
  }

  /** What a server must do for the fetch to succeed, page by page. */
  lemma ServesMeaning(server: int -> Page, perPage: int, maxPages: int, maxRecords: int, m: Metadata)
    requires GoodRequest(perPage, maxPages, maxRecords)
    ensures Serves(server, perPage, maxPages, maxRecords, m) <==>
              && 0 <= m.total <= maxRecords && LeastPages(m.pages, m.total, perPage) && m.pages <= maxPages
              && (forall k | 1 <= k <= m.pages :: ConsistentPage(server(k), k, perPage, m))
              && (forall k | 1 <= k <= m.pages :: GoodPage(server, k, perPage, m)) && Distinct(Collected(server, m.pages, perPage, m))
  {
    hide PageCount, GoodPage, ConsistentPage, LeastPages;
    if m.total >= 0 {
      PagesAreLeast(m.pages, m.total, perPage);
      if LeastPages(m.pages, m.total, perPage) {
        forall k | 1 <= k <= m.pages ensures GoodPage(server, k, perPage, m) <==> m.total <= 10_000_000 && ConsistentPage(server(k), k, perPage, m) {
          GoodPageMeaning(server, k, perPage, m);
        }
      }
    }
  }
}
