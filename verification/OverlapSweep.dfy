/**
  The double-count search of src/openfundscore/evidence_usage.py: an event sweep per shared identity
  with two lazily cleaned heaps, proved to return the lexicographically first pair that the
  quadratic definition `Collides` names, and nothing exactly when there is no such pair.
 */
module OverlapSweep {
  import opened Prelude
  import opened Ordering
  import opened MinHeap

  const FUND_COMPONENTS: set<string> := {
    "fund_d1_performance_evidence", "fund_d2_downside_risk", "fund_d3_consistency",
    "fund_d4_manager_capability", "fund_d5_portfolio_structure", "fund_d6_implementation_efficiency",
    "fund_d7_governance_operations"
  }

  const MANAGER_TENURE_COMPONENTS: set<string> := {
    "manager_tenure_attributed_performance", "manager_downside_control", "manager_cross_cycle_consistency"
  }

  const MANAGER_COMPONENTS: set<string> := MANAGER_TENURE_COMPONENTS + {
    "manager_style_discipline", "manager_career_track_record", "manager_workload_capacity",
    "manager_research_platform_team", "manager_compliance_integrity"
  }

  /** The fields of a usage entry that the search reads. */
  datatype Claim = Claim(component: string, scope: string, mode: string, lineage: Id, series: Id, evidence: Option<Id>)

  /** A closed window of day numbers. */
  datatype Window = Window(start: int, end: int)

  datatype Side = Fund | Manager
  datatype Identity = Identity(kind: string, value: Id)
  type Pair = (nat, nat)

  predicate Eligible(c: Claim) {
    c.scope == "current_fund" && c.mode == "raw"
    && (c.component in FUND_COMPONENTS || c.component in MANAGER_TENURE_COMPONENTS)
  }

  function SideOf(c: Claim): Side {
    if c.component in FUND_COMPONENTS then Fund else Manager
  }

  function IdentityList(c: Claim): seq<Identity> {
    [Identity("lineage", c.lineage), Identity("series", c.series)]
    + (if c.evidence.Some? then [Identity("evidence", c.evidence.value)] else [])
  }

  // ---- the definition the sweep must meet ----

  predicate Intersect(a: Window, b: Window) {
    a.start <= b.end && b.start <= a.end
  }

  ghost predicate Shares(a: Claim, b: Claim) {
    || a.lineage == b.lineage
    || a.series == b.series
    || (a.evidence.Some? && a.evidence == b.evidence)
  }

  /** Entries `i` and `j` count one raw current-fund fact for the fund and again for its manager. */
  ghost predicate Collides(cs: seq<Claim>, ws: seq<Window>, i: nat, j: nat)
    requires |cs| == |ws|
  {
    && i < |cs| && j < |cs|
    && Eligible(cs[i]) && Eligible(cs[j]) && SideOf(cs[i]) != SideOf(cs[j])
    && Shares(cs[i], cs[j])
    && Intersect(ws[i], ws[j])
  }

  predicate Holds(w: Window, day: int) {
    w.start <= day <= w.end
  }

  /**
    A collision in plain words: two raw current-fund entries, one for a fund component and one for a tenure component
    of the manager, over at least one common day, with the same lineage, the same series or the same evidence.
   */
  lemma CollisionMeaning(cs: seq<Claim>, ws: seq<Window>, i: nat, j: nat)
    requires |cs| == |ws| && i < |cs| && j < |cs| && ws[i].start <= ws[i].end && ws[j].start <= ws[j].end
    ensures Collides(cs, ws, i, j) <==>
              && cs[i].scope == cs[j].scope == "current_fund" && cs[i].mode == cs[j].mode == "raw"
              && ((cs[i].component in FUND_COMPONENTS && cs[j].component in MANAGER_TENURE_COMPONENTS)
                  || (cs[j].component in FUND_COMPONENTS && cs[i].component in MANAGER_TENURE_COMPONENTS))
              && (cs[i].lineage == cs[j].lineage || cs[i].series == cs[j].series || (cs[i].evidence.Some? && cs[i].evidence == cs[j].evidence))
              && exists day :: Holds(ws[i], day) && Holds(ws[j], day)
  {
    SidesApart();
    hide FUND_COMPONENTS, MANAGER_TENURE_COMPONENTS;
    if Intersect(ws[i], ws[j]) {
      var day := if ws[i].start <= ws[j].start then ws[j].start else ws[i].start;
      assert Holds(ws[i], day) && Holds(ws[j], day);
    }
  }

  lemma SidesApart()
    ensures FUND_COMPONENTS !! MANAGER_TENURE_COMPONENTS
  {
    assert forall c | c in FUND_COMPONENTS :: c[0] == 'f';
    assert forall c | c in MANAGER_TENURE_COMPONENTS :: c[0] == 'm';
  }

  predicate PairLeq(p: Pair, q: Pair) {
    p.0 < q.0 || (p.0 == q.0 && p.1 <= q.1)
  }

  function MakePair(i: nat, j: nat): Pair {
    if i <= j then (i, j) else (j, i)
  }

  function Better(best: Option<Pair>, p: Pair): Option<Pair> {
    if best.None? || PairLeq(p, best.value) then Some(p) else best
  }

  ghost predicate AtMost(best: Option<Pair>, p: Pair) {
    best.Some? && PairLeq(best.value, p)
  }

  // ---- events ----

  /** Phase 0 opens the window of `index`, phase 1 closes it. */
  datatype Event = Event(time: int, phase: int, index: nat, side: Side)

  /** Python's tuple order; the trailing side never decides, since it is a function of the index. */
  predicate EventLeq(a: Event, b: Event) {
    a.time < b.time
    || (a.time == b.time && (a.phase < b.phase || (a.phase == b.phase && a.index <= b.index)))
  }

  function Opening(cs: seq<Claim>, ws: seq<Window>, i: nat): Event
    requires |cs| == |ws| && i < |cs|
  {
    Event(ws[i].start, 0, i, SideOf(cs[i]))
  }

  function Closing(cs: seq<Claim>, ws: seq<Window>, i: nat): Event
    requires |cs| == |ws| && i < |cs|
  {
    Event(ws[i].end, 1, i, SideOf(cs[i]))
  }

  /** `e` belongs to the group of identity `k` once the first `n` entries are filed. */
  ghost predicate Filed(cs: seq<Claim>, ws: seq<Window>, n: nat, k: Identity, e: Event)
    requires |cs| == |ws|
  {
    && e.index < n && e.index < |cs|
    && Eligible(cs[e.index]) && k in IdentityList(cs[e.index])
    && (e == Opening(cs, ws, e.index) || e == Closing(cs, ws, e.index))
  }

  ghost predicate IsGroup(cs: seq<Claim>, ws: seq<Window>, k: Identity, events: seq<Event>)
    requires |cs| == |ws|
  {
    forall e :: e in events <==> Filed(cs, ws, |cs|, k, e)
  }

  ghost predicate InGroup(cs: seq<Claim>, k: Identity, i: nat) {
    i < |cs| && Eligible(cs[i]) && k in IdentityList(cs[i])
  }

  /** The collisions that the group of `k` is responsible for. */
  ghost predicate CollidesIn(cs: seq<Claim>, ws: seq<Window>, k: Identity, i: nat, j: nat)
    requires |cs| == |ws|
  {
    InGroup(cs, k, i) && InGroup(cs, k, j) && SideOf(cs[i]) != SideOf(cs[j]) && Intersect(ws[i], ws[j])
  }

  lemma CollisionsByGroup(cs: seq<Claim>, ws: seq<Window>, i: nat, j: nat)
    requires |cs| == |ws|
    ensures Collides(cs, ws, i, j) <==> exists k :: CollidesIn(cs, ws, k, i, j)
  {
    if Collides(cs, ws, i, j) {
      var k := if cs[i].lineage == cs[j].lineage then Identity("lineage", cs[i].lineage)
               else if cs[i].series == cs[j].series then Identity("series", cs[i].series)
               else Identity("evidence", cs[i].evidence.value);
      assert CollidesIn(cs, ws, k, i, j);
    }
  }

  lemma EventOrder()
    ensures TotalPreorder(EventLeq)
  {
  }

  // ---- sweeping one group ----

  /** Window `i` is open once the events `done` have been handled. */
  ghost predicate Open(cs: seq<Claim>, ws: seq<Window>, done: seq<Event>, i: nat)
    requires |cs| == |ws|
  {
    i < |cs| && Opening(cs, ws, i) in done && Closing(cs, ws, i) !in done
  }

  ghost predicate ActiveIs(cs: seq<Claim>, ws: seq<Window>, done: seq<Event>, side: Side, active: set<nat>)
    requires |cs| == |ws|
  {
    forall i: nat :: i in active <==> Open(cs, ws, done, i) && SideOf(cs[i]) == side
  }

  /** Every collision between two opened windows of the group has been reported or beaten. */
  ghost predicate Covered(cs: seq<Claim>, ws: seq<Window>, k: Identity, done: seq<Event>, best: Option<Pair>)
    requires |cs| == |ws|
  {
    forall i: nat, j: nat :: CollidesIn(cs, ws, k, i, j) && Opening(cs, ws, i) in done && Opening(cs, ws, j) in done
      ==> AtMost(best, MakePair(i, j))
  }

  ghost predicate Justified(cs: seq<Claim>, ws: seq<Window>, best: Option<Pair>)
    requires |cs| == |ws|
  {
    best.Some? ==> best.value.0 < best.value.1 && Collides(cs, ws, best.value.0, best.value.1)
  }

  /** When `x` opens, every earlier-opened window that meets `x` is still open. */
  lemma MeetingWindowIsOpen(cs: seq<Claim>, ws: seq<Window>, events: seq<Event>, p: nat, y: nat)
    requires |cs| == |ws| && p < |events| && SortedBy(events, EventLeq) && events[p].phase == 0
    requires y < |cs| && Opening(cs, ws, y) in events[..p] && events[p].time <= ws[y].end
    ensures Open(cs, ws, events[..p], y)
  {
    assert forall q | 0 <= q < p :: EventLeq(events[q], events[p]);
  }

  /** When `x` opens, every window that is open meets `x`. */
  lemma OpenWindowMeets(cs: seq<Claim>, ws: seq<Window>, k: Identity, events: seq<Event>, p: nat, y: nat)
    requires |cs| == |ws| && p < |events| && SortedBy(events, EventLeq) && events[p].phase == 0
    requires forall e :: e in events <==> Filed(cs, ws, |cs|, k, e)
    requires forall i | 0 <= i < |ws| :: ws[i].start <= ws[i].end
    requires Open(cs, ws, events[..p], y)
    ensures events[p].index < |ws|
    ensures InGroup(cs, k, y) && Intersect(ws[events[p].index], ws[y])
  {
    assert Opening(cs, ws, y) in events;
    assert Filed(cs, ws, |cs|, k, Opening(cs, ws, y));
    assert Filed(cs, ws, |cs|, k, Closing(cs, ws, y));
    assert Closing(cs, ws, y) in events;
    var q :| 0 <= q < |events| && events[q] == Closing(cs, ws, y);
    assert q == p || EventLeq(events[p], events[q]);
    var o :| 0 <= o < p && events[o] == Opening(cs, ws, y);
    assert EventLeq(events[o], events[p]);
    assert Filed(cs, ws, |cs|, k, events[p]);
  }

  /** Drops closed windows from the top of the heap, as the source does before it looks. */
  method DropClosed(heap: Heap, active: set<nat>)
    requires heap.Valid() && forall i | i in active :: i in heap.items
    modifies heap
    ensures heap.Valid() && forall i | i in active :: i in heap.items
    ensures heap.items != [] ==> heap.items[0] in active && forall i | i in active :: heap.items[0] <= i
    ensures heap.items == [] ==> active == {}
  {
    while heap.items != [] && heap.items[0] !in active
      invariant heap.Valid() && forall i | i in active :: i in heap.items
      decreases |heap.items|
    {
      ghost var before := heap.items;
      var top := heap.Pop();
      assert |multiset(heap.items)| == |multiset(before)| - 1 by { assert top in multiset(before); }
      forall i | i in active ensures i in heap.items {
        assert i in multiset(before) && i != top;
        assert i in multiset(heap.items);
      }
    }
    forall i | i in active && heap.items != [] ensures heap.items[0] <= i {
      var at :| 0 <= at < |heap.items| && heap.items[at] == i;
      RootIsLeast(heap.items, at);
    }
  }

  lemma ExtendActive(cs: seq<Claim>, ws: seq<Window>, events: seq<Event>, p: nat, side: Side, active: set<nat>)
    requires |cs| == |ws| && p < |events| && SortedBy(events, EventLeq)
    requires forall i | 0 <= i < |ws| :: ws[i].start <= ws[i].end
    requires var x := events[p].index;
             x < |cs| && (events[p] == Opening(cs, ws, x) || events[p] == Closing(cs, ws, x))
    requires ActiveIs(cs, ws, events[..p], side, active)
    ensures var x := events[p].index;
            ActiveIs(cs, ws, events[..p + 1], side,
                     if events[p].side != side then active
                     else if events[p].phase == 0 then active + {x} else active - {x})
  {
    var x := events[p].index;
    assert events[..p + 1] == events[..p] + [events[p]];
    assert forall q | 0 <= q < p :: EventLeq(events[q], events[p]);
    forall i: nat | i != x && i < |cs| ensures Open(cs, ws, events[..p], i) == Open(cs, ws, events[..p + 1], i) {
      assert Opening(cs, ws, i) != events[p] && Closing(cs, ws, i) != events[p];
    }
  }

  /** The heap holds every open window after one more is opened or closed. */
  lemma CoveredStep(cs: seq<Claim>, ws: seq<Window>, k: Identity, events: seq<Event>, p: nat, best: Option<Pair>)
    requires |cs| == |ws| && p < |events| && Covered(cs, ws, k, events[..p], best)
    requires var x := events[p].index;
             && x < |cs|
             && (events[p] == Opening(cs, ws, x) || events[p] == Closing(cs, ws, x))
             && (events[p].phase == 0 ==>
                  forall y: nat :: CollidesIn(cs, ws, k, x, y) && Opening(cs, ws, y) in events[..p] ==> AtMost(best, MakePair(x, y)))
    ensures Covered(cs, ws, k, events[..p + 1], best)
  {
    assert events[..p + 1] == events[..p] + [events[p]];
    forall i: nat, j: nat | CollidesIn(cs, ws, k, i, j) && Opening(cs, ws, i) in events[..p + 1] && Opening(cs, ws, j) in events[..p + 1]
      ensures AtMost(best, MakePair(i, j))
    {
      assert i != j;
      if Opening(cs, ws, i) !in events[..p] {
        assert events[p] == Opening(cs, ws, i) && CollidesIn(cs, ws, k, i, j);
        assert Opening(cs, ws, j) in events[..p];
      } else if Opening(cs, ws, j) !in events[..p] {
        assert events[p] == Opening(cs, ws, j) && CollidesIn(cs, ws, k, j, i);
        assert MakePair(i, j) == MakePair(j, i);
      }
    }
  }

  lemma SortedGroup(cs: seq<Claim>, ws: seq<Window>, k: Identity, group: seq<Event>)
    requires |cs| == |ws| && IsGroup(cs, ws, k, group)
    ensures IsGroup(cs, ws, k, SortBy(group, EventLeq)) && SortedBy(SortBy(group, EventLeq), EventLeq)
  {
    hide EventLeq, Filed;
    EventOrder();
    SortByCorrect(group, EventLeq);
  }

  lemma TracksNothing(cs: seq<Claim>, ws: seq<Window>, side: Side, heap: Heap)
    requires |cs| == |ws| && heap.Valid() && heap.items == []
    ensures Tracks(cs, ws, [], side, heap, {})
  {
  }

  lemma CoversNothing(cs: seq<Claim>, ws: seq<Window>, k: Identity, best: Option<Pair>)
    requires |cs| == |ws|
    ensures Covered(cs, ws, k, [], best)
  {
  }

  lemma CoversGroup(cs: seq<Claim>, ws: seq<Window>, k: Identity, events: seq<Event>, best: Option<Pair>)
    requires |cs| == |ws| && IsGroup(cs, ws, k, events) && Covered(cs, ws, k, events, best)
    ensures forall i: nat, j: nat | CollidesIn(cs, ws, k, i, j) :: AtMost(best, MakePair(i, j))
  {
    forall i: nat, j: nat | CollidesIn(cs, ws, k, i, j) ensures AtMost(best, MakePair(i, j)) {
      assert Filed(cs, ws, |cs|, k, Opening(cs, ws, i)) && Filed(cs, ws, |cs|, k, Opening(cs, ws, j));
    }
  }

  method SweepGroup(ghost cs: seq<Claim>, ghost ws: seq<Window>, ghost k: Identity, group: seq<Event>, best0: Option<Pair>)
    returns (best: Option<Pair>)
    requires |cs| == |ws| && IsGroup(cs, ws, k, group)
    requires forall i | 0 <= i < |ws| :: ws[i].start <= ws[i].end
    requires Justified(cs, ws, best0)
    ensures Justified(cs, ws, best)
    ensures best0.Some? ==> AtMost(best, best0.value)
    ensures forall i: nat, j: nat | CollidesIn(cs, ws, k, i, j) :: AtMost(best, MakePair(i, j))
  {
    hide IsGroup, Tracks, Justified, Covered, CollidesIn, EventLeq, SortedBy, SortBy, TotalPreorder;
    SortedGroup(cs, ws, k, group);
    var events := SortBy(group, EventLeq);
    best := best0;
    var fundActive: set<nat>, managerActive: set<nat> := {}, {};
    var fundHeap := new Heap();
    var managerHeap := new Heap();
    assert events[..0] == [] && events[..|events|] == events;
    TracksNothing(cs, ws, Fund, fundHeap);
    TracksNothing(cs, ws, Manager, managerHeap);
    CoversNothing(cs, ws, k, best);
    for p := 0 to |events|
      invariant fresh(fundHeap) && fresh(managerHeap) && fundHeap != managerHeap
      invariant Tracks(cs, ws, events[..p], Fund, fundHeap, fundActive)
      invariant Tracks(cs, ws, events[..p], Manager, managerHeap, managerActive)
      invariant Justified(cs, ws, best)
      invariant best0.Some? ==> AtMost(best, best0.value)
      invariant Covered(cs, ws, k, events[..p], best)
    {
      if events[p].side == Fund {
        fundActive, best := HandleEvent(cs, ws, k, events, p, fundHeap, fundActive, managerHeap, managerActive, best);
      } else {
        managerActive, best := HandleEvent(cs, ws, k, events, p, managerHeap, managerActive, fundHeap, fundActive, best);
      }
    }
    CoversGroup(cs, ws, k, events, best);
  }

  /** One turn of the sweep; `own` is the side of the event. */
  method HandleEvent(ghost cs: seq<Claim>, ghost ws: seq<Window>, ghost k: Identity, events: seq<Event>, p: nat,
                     own: Heap, ownActive: set<nat>, other: Heap, otherActive: set<nat>, best0: Option<Pair>)
    returns (active: set<nat>, best: Option<Pair>)
    requires |cs| == |ws| && IsGroup(cs, ws, k, events) && SortedBy(events, EventLeq) && p < |events|
    requires forall i | 0 <= i < |ws| :: ws[i].start <= ws[i].end
    requires own != other
    requires Tracks(cs, ws, events[..p], events[p].side, own, ownActive)
    requires Tracks(cs, ws, events[..p], Opposite(events[p].side), other, otherActive)
    requires Justified(cs, ws, best0) && Covered(cs, ws, k, events[..p], best0)
    modifies own, other
    ensures Tracks(cs, ws, events[..p + 1], events[p].side, own, active)
    ensures Tracks(cs, ws, events[..p + 1], Opposite(events[p].side), other, otherActive)
    ensures Justified(cs, ws, best) && Covered(cs, ws, k, events[..p + 1], best)
    ensures best0.Some? ==> AtMost(best, best0.value)
  {
    var Event(_, phase, x, side) := events[p];
    assert Filed(cs, ws, |cs|, k, events[p]);
    ExtendActive(cs, ws, events, p, side, ownActive);
    ExtendActive(cs, ws, events, p, Opposite(side), otherActive);
    active, best := ownActive, best0;
    if phase == 0 {
      best := Meet(cs, ws, k, events, p, other, otherActive, best0);
      active := OpenWindow(own, ownActive, x);
    } else {
      active := ownActive - {x};
    }
    CoveredRelax(cs, ws, k, events[..p], best0, best);
    CoveredStep(cs, ws, k, events, p, best);
  }

  /** `active` is the set of open windows of one side and its heap has them all. */
  ghost predicate Tracks(cs: seq<Claim>, ws: seq<Window>, done: seq<Event>, side: Side, heap: Heap, active: set<nat>)
    requires |cs| == |ws|
    reads heap
  {
    ActiveIs(cs, ws, done, side, active) && heap.Valid() && forall i | i in active :: i in heap.items
  }

  function Opposite(side: Side): Side {
    if side == Fund then Manager else Fund
  }

  lemma CoveredRelax(cs: seq<Claim>, ws: seq<Window>, k: Identity, done: seq<Event>, best0: Option<Pair>, best: Option<Pair>)
    requires |cs| == |ws| && Covered(cs, ws, k, done, best0)
    requires best0.Some? ==> AtMost(best, best0.value)
    ensures Covered(cs, ws, k, done, best)
  {
    forall i: nat, j: nat | CollidesIn(cs, ws, k, i, j) && Opening(cs, ws, i) in done && Opening(cs, ws, j) in done
      ensures AtMost(best, MakePair(i, j))
    {
      assert AtMost(best0, MakePair(i, j));
    }
  }

  /** Opens window `x` on one side: `active[side].add(index)` and the heap push. */
  method OpenWindow(heap: Heap, active: set<nat>, x: nat) returns (grown: set<nat>)
    requires heap.Valid() && forall i | i in active :: i in heap.items
    modifies heap
    ensures grown == active + {x}
    ensures heap.Valid() && forall i | i in grown :: i in heap.items
  {
    grown := active + {x};
    ghost var before := heap.items;
    heap.Push(x);
    PushKeeps(before, heap.items, x);
  }

  lemma PushKeeps(before: seq<nat>, after: seq<nat>, x: nat)
    requires multiset(after) == multiset(before) + multiset{x}
    ensures x in after && forall i | i in before :: i in after
  {
    assert x in multiset(after);
    forall i | i in before ensures i in after {
      assert i in multiset(before) && i in multiset(after);
    }
  }

  /** The window opened by `events[p]` meets the least open window of the other side. */
  method Meet(ghost cs: seq<Claim>, ghost ws: seq<Window>, ghost k: Identity, events: seq<Event>, p: nat,
              other: Heap, active: set<nat>, best0: Option<Pair>) returns (best: Option<Pair>)
    requires |cs| == |ws| && IsGroup(cs, ws, k, events) && SortedBy(events, EventLeq)
    requires forall i | 0 <= i < |ws| :: ws[i].start <= ws[i].end
    requires p < |events| && events[p].phase == 0 && Filed(cs, ws, |cs|, k, events[p])
    requires ActiveIs(cs, ws, events[..p], Opposite(events[p].side), active)
    requires other.Valid() && forall i | i in active :: i in other.items
    requires Justified(cs, ws, best0)
    modifies other
    ensures other.Valid() && forall i | i in active :: i in other.items
    ensures Justified(cs, ws, best)
    ensures best0.Some? ==> AtMost(best, best0.value)
    ensures forall y: nat :: CollidesIn(cs, ws, k, events[p].index, y) && Opening(cs, ws, y) in events[..p]
              ==> AtMost(best, MakePair(events[p].index, y))
  {
    best := best0;
    ghost var x := events[p].index;
    DropClosed(other, active);
    if other.items != [] {
      var least := other.items[0];
      OpenWindowMeets(cs, ws, k, events, p, least);
      assert CollidesIn(cs, ws, k, x, least) && CollidesIn(cs, ws, k, least, x);
      CollisionsByGroup(cs, ws, x, least);
      CollisionsByGroup(cs, ws, least, x);
      best := Better(best0, MakePair(events[p].index, least));
    }
    forall y: nat | CollidesIn(cs, ws, k, x, y) && Opening(cs, ws, y) in events[..p]
      ensures AtMost(best, MakePair(x, y))
    {
      MeetingWindowIsOpen(cs, ws, events, p, y);
      assert y in active;
      assert other.items[0] <= y;
    }
  }

  // ---- filing events under their identities, then sweeping every group ----

  ghost predicate GroupsAre(cs: seq<Claim>, ws: seq<Window>, n: nat, m: nat, groups: map<Identity, seq<Event>>)
    requires |cs| == |ws| && n <= |cs|
  {
    forall k: Identity, e: Event ::
      (k in groups && e in groups[k])
      <==> Filed(cs, ws, n, k, e) || (n < |cs| && e.index == n && FiledUnder(cs, ws, m, k, e))
  }

  /** `e` is an event of its entry, filed under one of the first `m` identities of that entry. */
  ghost predicate FiledUnder(cs: seq<Claim>, ws: seq<Window>, m: nat, k: Identity, e: Event)
    requires |cs| == |ws|
  {
    && e.index < |cs| && Eligible(cs[e.index])
    && m <= |IdentityList(cs[e.index])| && k in IdentityList(cs[e.index])[..m]
    && (e == Opening(cs, ws, e.index) || e == Closing(cs, ws, e.index))
  }

  function EventsUnder(groups: map<Identity, seq<Event>>, k: Identity): seq<Event> {
    if k in groups then groups[k] else []
  }

  /** Appending an entry's two events to one of its groups files it under one more identity. */
  lemma FileOne(cs: seq<Claim>, ws: seq<Window>, n: nat, m: nat, before: map<Identity, seq<Event>>, groups: map<Identity, seq<Event>>)
    requires |cs| == |ws| && n < |cs| && Eligible(cs[n]) && m < |IdentityList(cs[n])|
    requires GroupsAre(cs, ws, n, m, before)
    requires var key := IdentityList(cs[n])[m];
             groups == before[key := EventsUnder(before, key) + [Opening(cs, ws, n), Closing(cs, ws, n)]]
    ensures GroupsAre(cs, ws, n, m + 1, groups)
  {
    hide Filed, IdentityList, Eligible;
    var key, identities := IdentityList(cs[n])[m], IdentityList(cs[n]);
    assert identities[..m + 1] == identities[..m] + [key];
    forall k: Identity, e: Event
      ensures (k in groups && e in groups[k]) <==> Filed(cs, ws, n, k, e) || (e.index == n && FiledUnder(cs, ws, m + 1, k, e))
    {
      assert (k in before && e in before[k]) <==> Filed(cs, ws, n, k, e) || (e.index == n && FiledUnder(cs, ws, m, k, e));
      AppendedEvents(before, groups, key, [Opening(cs, ws, n), Closing(cs, ws, n)], k, e);
    }
  }

  /** An entry filed under all its identities, or not eligible for any, is done. */
  lemma FileDone(cs: seq<Claim>, ws: seq<Window>, n: nat, groups: map<Identity, seq<Event>>)
    requires |cs| == |ws| && n < |cs|
    requires GroupsAre(cs, ws, n, if Eligible(cs[n]) then |IdentityList(cs[n])| else 0, groups)
    ensures GroupsAre(cs, ws, n + 1, 0, groups)
  {
    hide Opening, Closing, IdentityList, Eligible;
    var identities := IdentityList(cs[n]);
    assert identities[..|identities|] == identities;
    forall k: Identity, e: Event
      ensures (k in groups && e in groups[k]) <==> Filed(cs, ws, n + 1, k, e)
    {
    }
  }

  lemma AppendedEvents(before: map<Identity, seq<Event>>, groups: map<Identity, seq<Event>>, key: Identity, more: seq<Event>, k: Identity, e: Event)
    requires groups == before[key := EventsUnder(before, key) + more]
    ensures (k in groups && e in groups[k]) <==> (k in before && e in before[k]) || (k == key && e in more)
  {
  }

  method FileEvents(cs: seq<Claim>, ws: seq<Window>) returns (groups: map<Identity, seq<Event>>, order: seq<Identity>)
    requires |cs| == |ws|
    ensures forall k :: k in order <==> k in groups
    ensures forall k | k in groups :: IsGroup(cs, ws, k, groups[k])
    ensures forall k, i: nat | InGroup(cs, k, i) :: k in groups
  {
    groups, order := map[], [];
    assert GroupsAre(cs, ws, 0, 0, groups);
    for n := 0 to |cs|
      invariant forall k :: k in order <==> k in groups
      invariant GroupsAre(cs, ws, n, 0, groups)
    {
      if Eligible(cs[n]) {
        var opening, closing := Opening(cs, ws, n), Closing(cs, ws, n);
        var identities := IdentityList(cs[n]);
        for m := 0 to |identities|
          invariant forall k :: k in order <==> k in groups
          invariant GroupsAre(cs, ws, n, m, groups)
        {
          var key := identities[m];
          ghost var before := groups;
          if key !in groups {
            order := order + [key];
          }
          groups := groups[key := EventsUnder(groups, key) + [opening, closing]];
          FileOne(cs, ws, n, m, before, groups);
        }
      }
      FileDone(cs, ws, n, groups);
    }
    forall k, i: nat | InGroup(cs, k, i) ensures k in groups {
      assert Filed(cs, ws, |cs|, k, Opening(cs, ws, i));
    }
  }

  /**
    The fast search equals the quadratic one: it returns the least colliding index pair, and
    nothing exactly when no pair collides. The caller's validation has rejected reversed windows.
   */
  method FirstCrossScopeOverlap(cs: seq<Claim>, ws: seq<Window>) returns (best: Option<Pair>)
    requires |cs| == |ws|
    requires forall i | 0 <= i < |ws| :: ws[i].start <= ws[i].end
    ensures best.None? <==> forall i: nat, j: nat :: !Collides(cs, ws, i, j)
    ensures best.Some? ==> best.value.0 < best.value.1 && Collides(cs, ws, best.value.0, best.value.1)
    ensures best.Some? ==> forall i: nat, j: nat :: i < j && Collides(cs, ws, i, j) ==>
              best.value.0 < i || (best.value.0 == i && best.value.1 <= j)
  {
    var groups, order := FileEvents(cs, ws);
    best := None;
    for p := 0 to |order|
      invariant Justified(cs, ws, best)
      invariant forall k, i: nat, j: nat :: k in order[..p] && CollidesIn(cs, ws, k, i, j) ==> AtMost(best, MakePair(i, j))
    {
      ghost var before := best;
      best := SweepGroup(cs, ws, order[p], groups[order[p]], best);
      assert order[..p + 1] == order[..p] + [order[p]];
      forall k, i: nat, j: nat | k in order[..p + 1] && CollidesIn(cs, ws, k, i, j) ensures AtMost(best, MakePair(i, j)) {
        if k in order[..p] {
          assert AtMost(before, MakePair(i, j));
        }
      }
    }
    assert order[..|order|] == order;
    forall i: nat, j: nat | Collides(cs, ws, i, j) ensures AtMost(best, MakePair(i, j)) {
      CollisionsByGroup(cs, ws, i, j);
      var k :| CollidesIn(cs, ws, k, i, j);
      assert k in groups;
    }
  }
}
