/** Lifecycle intervals of src/openfundscore/walk_forward.py: candidate validation and point-in-time resolution. */
module Lifecycle {
  import opened Prelude
  import opened Ordering
  import opened Revisions
  import opened Records

  const MAX_INPUT_ITEMS := 100_000

  datatype Status = Active | Closed | Merged | Transformed

  /** Effective from `from` (included) to `to` (excluded), or for ever. */
  datatype Range = Range(from: int, to: Option<int>)

  datatype Economics = Economics(status: Status, successor: Option<Id>)

  type Interval = Record<Range, Economics>

  datatype LifecycleError =
    | InvalidContainer | InputTooLarge | InvalidInterval | NotSorted | Duplicate | Chain(e: ChainError) | Overlapping

  function StatusText(s: Status): string {
    match s
    case Active => "active"
    case Closed => "closed"
    case Merged => "merged"
    case Transformed => "transformed"
  }

  predicate Covers(r: Range, decision: int) {
    r.from <= decision && (r.to.None? || decision < r.to.value)
  }

  ghost predicate Disjoint(a: Range, b: Range) {
    forall t: int :: !(Covers(a, t) && Covers(b, t))
  }

  /** What `LifecycleInterval.__post_init__` insists on. */
  predicate ValidInterval(i: Interval) {
    && i.stamp.supersedes != Some(i.stamp.revision)
    && i.stamp.published <= i.stamp.knowledge
    && (i.key.to.Some? ==> i.key.from < i.key.to.value)
    && (i.body.successor.Some? <==> i.body.status in {Merged, Transformed})
  }

  /** The sort key of the source: effective date, publication, knowledge, status text, revision. */
  predicate KeyLeq(a: Interval, b: Interval) {
    a.key.from < b.key.from || (a.key.from == b.key.from && (
      a.stamp.published < b.stamp.published || (a.stamp.published == b.stamp.published && (
        a.stamp.knowledge < b.stamp.knowledge || (a.stamp.knowledge == b.stamp.knowledge && (
          (a.body.status != b.body.status && StrLeq(StatusText(a.body.status), StatusText(b.body.status)))
          || (a.body.status == b.body.status && IdLeq(a.stamp.revision, b.stamp.revision))))))))
  }

  /** A stable sort returns its input exactly when neighbours are in order. */
  predicate InOrder(l: seq<Interval>) {
    forall i | 1 <= i < |l| :: KeyLeq(l[i - 1], l[i])
  }

  ghost predicate RangesDisjoint(l: seq<Interval>) {
    forall a, b | a in l && b in l && a.key != b.key :: Disjoint(a.key, b.key)
  }

  ghost predicate AcceptedLifecycle(l: seq<Interval>) {
    && l != [] && |l| <= 100_000
    && (forall i | i in l :: ValidInterval(i))
    && InOrder(l) && Distinct(l)
    && AllChains(l)
    && RangesDisjoint(l)
  }

  predicate StartsNoLater(a: Range, b: Range) {
    a.from <= b.from
  }

  /** `_validate_candidate_lifecycle` */
  method ValidateCandidateLifecycle(l: seq<Interval>) returns (r: Result<(), LifecycleError>)
    ensures r.Ok? <==> AcceptedLifecycle(l)
    ensures r != Err(Chain(NotCompleteAcyclic))
    ensures r == Err(Overlapping) ==> AllChains(l) && !RangesDisjoint(l)
  {
    if l == [] { return Err(InvalidContainer); }
    if |l| > MAX_INPUT_ITEMS { return Err(InputTooLarge); }
    for i := 0 to |l|
      invariant forall j | 0 <= j < i :: ValidInterval(l[j])
    {
      if !ValidInterval(l[i]) { return Err(InvalidInterval); }
    }
    if !InOrder(l) { return Err(NotSorted); }
    var all := set i | i in l;
    DistinctBySize(l);
    if |all| != |l| { return Err(Duplicate); }
    var chains := ValidateRevisionGroups(l);
    if chains.Err? { return Err(Chain(chains.error)); }
    var overlapping := RangesOverlap(l);
    if overlapping { return Err(Overlapping); }
    return Ok(());
  }

  lemma {:induction false} DistinctBySize<T>(l: seq<T>)
    ensures |set i | i in l| <= |l|
    ensures |set i | i in l| == |l| <==> Distinct(l)
  {
    var all := set i | i in l;
    if l == [] {
      assert all == {};
    } else {
      var n := |l| - 1;
      var rest, x := l[..n], l[n];
      DistinctBySize(rest);
      assert l == rest + [x];
      var before := set i | i in rest;
      assert all == before + {x};
      if x in rest {
        assert all == before;
      } else {
        assert forall i, j | 0 <= i < j < n :: l[i] == rest[i] && l[j] == rest[j];
      }
    }
  }

  ghost predicate AllDisjoint(ranges: seq<Range>) {
    forall i, j | 0 <= i < j < |ranges| :: Disjoint(ranges[i], ranges[j])
  }

  /** Groups the intervals by effective range and sweeps the distinct ranges by start. */
  method RangesOverlap(l: seq<Interval>) returns (overlapping: bool)
    requires l != [] && forall i | i in l :: ValidInterval(i)
    ensures overlapping <==> !RangesDisjoint(l)
  {
    var groups, order := GroupByKey(l);
    forall k ensures k in order <==> exists i :: i in l && i.key == k {
      KeysOf(l, k);
    }
    assert l[0].key in order;
    SortByCorrect(order, StartsNoLater);
    var ranges := SortBy(order, StartsNoLater);
    SortedDistinct(order, ranges);
    forall i | 0 <= i < |ranges| ensures ranges[i].to.Some? ==> ranges[i].from < ranges[i].to.value {
      assert ranges[i] in order;
    }
    overlapping := SweepRanges(ranges);
    RangesCarryOver(l, ranges);
  }

  /** `previous_end` is the latest end so far; a range that starts before it overlaps some earlier range. */
  method SweepRanges(ranges: seq<Range>) returns (overlapping: bool)
    requires ranges != [] && SortedBy(ranges, StartsNoLater)
    requires forall i | 0 <= i < |ranges| :: ranges[i].to.Some? ==> ranges[i].from < ranges[i].to.value
    ensures overlapping <==> !AllDisjoint(ranges)
  {
    var end := ranges[0].to;
    for p := 1 to |ranges|
      invariant forall q | 0 <= q < p :: end.None? || (ranges[q].to.Some? && ranges[q].to.value <= end.value)
      invariant exists q | 0 <= q < p :: ranges[q].to == end
      invariant forall q, q' | 0 <= q < q' < p :: Disjoint(ranges[q], ranges[q'])
    {
      if end.None? || ranges[p].from < end.value {
        ghost var q :| 0 <= q < p && ranges[q].to == end;
        assert StartsNoLater(ranges[q], ranges[p]);
        assert Covers(ranges[q], ranges[p].from) && Covers(ranges[p], ranges[p].from);
        return true;
      }
      if ranges[p].to.None? || ranges[p].to.value > end.value {
        end := ranges[p].to;
      }
    }
    return false;
  }

  lemma RangesCarryOver(l: seq<Interval>, ranges: seq<Range>)
    requires Distinct(ranges) && forall k :: k in ranges <==> exists i :: i in l && i.key == k
    ensures RangesDisjoint(l) <==> AllDisjoint(ranges)
  {
    if AllDisjoint(ranges) {
      forall a, b | a in l && b in l && a.key != b.key ensures Disjoint(a.key, b.key) {
        assert a.key in ranges && b.key in ranges;
        var q :| 0 <= q < |ranges| && ranges[q] == a.key;
        var q' :| 0 <= q' < |ranges| && ranges[q'] == b.key;
        assert q < q' || q' < q;
        assert Disjoint(ranges[q], ranges[q']) || Disjoint(ranges[q'], ranges[q]);
      }
    }
    if RangesDisjoint(l) {
      forall i, j | 0 <= i < j < |ranges| ensures Disjoint(ranges[i], ranges[j]) {
        assert ranges[i] in ranges && ranges[j] in ranges;
        var a :| a in l && a.key == ranges[i];
        var b :| b in l && b.key == ranges[j];
      }
    }
  }

  lemma KeysOf(l: seq<Interval>, k: Range)
    ensures OfKey(l, k) != [] <==> exists i :: i in l && i.key == k
  {
    if OfKey(l, k) != [] {
      OfKeyMembers(l, k, OfKey(l, k)[0]);
    }
    forall i | i in l && i.key == k ensures i in OfKey(l, k) {
      OfKeyMembers(l, k, i);
    }
  }

  lemma SortedDistinct(order: seq<Range>, ranges: seq<Range>)
    requires Distinct(order) && multiset(order) == multiset(ranges)
    ensures Distinct(ranges)
  {
    SameMembers(order, ranges);
    DistinctBySize(order);
    DistinctBySize(ranges);
    assert (set i | i in order) == (set i | i in ranges);
  }

  // ---- point-in-time resolution ----

  ghost function CoveringKnown(l: seq<Interval>, decision: int): set<Interval> {
    Visible(l, (k: Range) => Covers(k, decision), decision)
  }

  ghost predicate StartsLast(tips: set<Interval>, t: Interval) {
    t in tips && forall u | u in tips :: u.key.from <= t.key.from
  }

  /** The status of the one unsuperseded interval that starts last, if there is exactly one. */
  ghost function ResolveLifecycle(known: set<Interval>): Option<Status> {
    var latest := set t | t in Tips(known) && StartsLast(Tips(known), t);
    if exists t :: latest == {t} then
      var t :| latest == {t};
      Some(t.body.status)
    else None
  }

  /** `_lifecycle_at` */
  method LifecycleAt(l: seq<Interval>, decision: int) returns (status: Option<Status>)
    requires Distinct(l)
    ensures status == ResolveLifecycle(CoveringKnown(l, decision))
  {
    var known: seq<Interval> := [];
    for i := 0 to |l|
      invariant Distinct(known)
      invariant forall r :: r in known <==> r in l[..i] && Covers(r.key, decision) && KnownBy(r.stamp, decision)
    {
      assert l[..i + 1] == l[..i] + [l[i]];
      assert l[i] !in l[..i];
      if KnownBy(l[i].stamp, decision) && Covers(l[i].key, decision) {
        known := known + [l[i]];
      }
    }
    assert l[..|l|] == l;
    assert (set r | r in known) == CoveringKnown(l, decision);
    if known == [] {
      assert Tips(CoveringKnown(l, decision)) == {};
      return None;
    }
    var tips := ResolveRevisions(known);
    ghost var all := Tips(CoveringKnown(l, decision));
    assert forall t :: t in tips <==> t in all;
    if tips == [] {
      return None;
    }
    var latest := tips[0].key.from;
    for i := 1 to |tips|
      invariant exists j | 0 <= j < i :: tips[j].key.from == latest
      invariant forall j | 0 <= j < i :: tips[j].key.from <= latest
    {
      if tips[i].key.from > latest { latest := tips[i].key.from; }
    }
    var resolved: seq<Interval> := [];
    for i := 0 to |tips|
      invariant Distinct(resolved)
      invariant forall t :: t in resolved <==> t in tips[..i] && t.key.from == latest
    {
      assert tips[..i + 1] == tips[..i] + [tips[i]];
      assert tips[i] !in tips[..i];
      if tips[i].key.from == latest { resolved := resolved + [tips[i]]; }
    }
    assert tips[..|tips|] == tips;
    PickLatest(all, resolved, latest);
    return if |resolved| == 1 then Some(resolved[0].body.status) else None;
  }

  lemma PickLatest(tips: set<Interval>, resolved: seq<Interval>, latest: int)
    requires Distinct(resolved)
    requires forall t :: t in resolved <==> t in tips && t.key.from == latest
    requires (exists t :: t in tips && t.key.from == latest) && forall t | t in tips :: t.key.from <= latest
    ensures var last := set t | t in tips && StartsLast(tips, t);
            if |resolved| == 1 then last == {resolved[0]} else !exists t :: last == {t}
  {
    var last := set t | t in tips && StartsLast(tips, t);
    assert forall t :: t in last <==> t in resolved;
    assert resolved != [];
    assert resolved[0] in last;
    if |resolved| > 1 {
      assert resolved[1] in last && resolved[0] != resolved[1];
    }
  }

  /**
    On an accepted candidate the lifecycle is unknown only when no known interval covers the
    decision; otherwise it is the status of the covering revision learned last.
   */
  lemma LifecycleIsLatestKnownCover(l: seq<Interval>, decision: int)
    requires AcceptedLifecycle(l)
    ensures ResolveLifecycle(CoveringKnown(l, decision)).None? <==> CoveringKnown(l, decision) == {}
    ensures forall r | r in CoveringKnown(l, decision)
              && (forall q | q in CoveringKnown(l, decision) && q != r :: q.stamp.knowledge < r.stamp.knowledge)
              :: ResolveLifecycle(CoveringKnown(l, decision)) == Some(r.body.status)
    ensures CoveringKnown(l, decision) != {} ==>
              exists r :: r in CoveringKnown(l, decision)
                && forall q | q in CoveringKnown(l, decision) && q != r :: q.stamp.knowledge < r.stamp.knowledge
  {
    var known := CoveringKnown(l, decision);
    if known == {} {
      assert Tips(known) == {};
    } else {
      var r := OneTip(l, decision);
      hide CoveringKnown, AcceptedLifecycle, Tips, StartsLast;
      OnlyTipResolves(known, r);
    }
  }

  /** All known covering intervals of an accepted candidate share one range, so one revision is left. */
  lemma OneTip(l: seq<Interval>, decision: int) returns (r: Interval)
    requires AcceptedLifecycle(l) && CoveringKnown(l, decision) != {}
    ensures r in CoveringKnown(l, decision) && Tips(CoveringKnown(l, decision)) == {r}
    ensures forall q | q in CoveringKnown(l, decision) && q != r :: q.stamp.knowledge < r.stamp.knowledge
  {
    hide AllChains;
    var known := CoveringKnown(l, decision);
    var want := (k: Range) => Covers(k, decision);
    var q :| q in known;
    r := ResolutionIsTotal(l, want, decision, q);
    assert r in known;
    forall t | t in known ensures t.key == r.key {
      assert Covers(t.key, decision) && Covers(r.key, decision);
      assert !Disjoint(t.key, r.key);
    }
    ResolutionKeepsLatest(l, want, decision, r);
    assert Tips(known) == {r};
  }

  lemma OnlyTipResolves(known: set<Interval>, r: Interval)
    requires Tips(known) == {r}
    ensures ResolveLifecycle(known) == Some(r.body.status)
  {
    hide Tips;
    assert (set t | t in Tips(known) && StartsLast(Tips(known), t)) == {r};
  }

  /** What acceptance guarantees of a lifecycle: intervals in order of start, then publication, then knowledge; each well formed. */
  lemma {:induction false} AcceptedLifecycleMeaning(l: seq<Interval>, i: nat, j: nat)
    requires AcceptedLifecycle(l) && i < j < |l|
    ensures l[i].key.from < l[j].key.from
            || (l[i].key.from == l[j].key.from && (l[i].stamp.published < l[j].stamp.published
                || (l[i].stamp.published == l[j].stamp.published && l[i].stamp.knowledge <= l[j].stamp.knowledge)))
    ensures l[i].stamp.published <= l[i].stamp.knowledge && l[i].stamp.supersedes != Some(l[i].stamp.revision)
    ensures l[i].key.to.Some? ==> l[i].key.from < l[i].key.to.value
    ensures l[i].body.successor.Some? <==> l[i].body.status == Merged || l[i].body.status == Transformed
    decreases j
  {
    assert l[i] in l && ValidInterval(l[i]);
    if i < j - 1 {
      AcceptedLifecycleMeaning(l, i, j - 1);
    }
    assert KeyLeq(l[j - 1], l[j]);
  }
}
