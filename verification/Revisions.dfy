/**
  The revision chains of src/openfundscore/walk_forward.py. Lifecycle intervals, snapshots and
  precomputed scores are validated and resolved by the same three-step code; what that code reads
  of a record is its `Stamp`.
 */
module Revisions {
  import opened Ordering
  import opened Prelude

  datatype Stamp = Stamp(revision: Id, supersedes: Option<Id>, published: int, knowledge: int)

  datatype ChainError = RevisionRepeats | ParentMissing | Chronology | NotOneUnbranchedChain | NotCompleteAcyclic

  // ---- what acceptance means ----

  predicate Follows(parent: Stamp, child: Stamp) {
    && child.supersedes == Some(parent.revision)
    && parent.published <= child.published
    && parent.knowledge < child.knowledge
  }

  /** One unbranched history: a root, then each revision superseding the one before it. */
  ghost predicate IsChain(c: seq<Stamp>) {
    && c != []
    && c[0].supersedes.None?
    && (forall i | 0 < i < |c| :: Follows(c[i - 1], c[i]))
    && (forall i, j | 0 <= i < j < |c| :: c[i].revision != c[j].revision)
  }

  /** The group is one chain listed in some order. */
  ghost predicate OneChain(group: seq<Stamp>) {
    exists c :: IsChain(c) && multiset(c) == multiset(group)
  }

  lemma {:induction false} ChainIncreases(c: seq<Stamp>, i: nat, j: nat)
    requires IsChain(c) && i < j < |c|
    ensures c[i].knowledge < c[j].knowledge && c[i].published <= c[j].published
    decreases j
  {
    assert Follows(c[j - 1], c[j]);
    if i < j - 1 {
      ChainIncreases(c, i, j - 1);
    }
  }

  // ---- the decision ingredients of the code ----

  ghost predicate RevisionsDistinct(group: seq<Stamp>) {
    forall i, j | 0 <= i < j < |group| :: group[i].revision != group[j].revision
  }

  ghost predicate DistinctUpTo(group: seq<Stamp>, n: nat)
    requires n <= |group|
  {
    forall i, j | 0 <= i < j < n :: group[i].revision != group[j].revision
  }

  ghost predicate HasParent(group: seq<Stamp>, s: Stamp) {
    exists p :: p in group && s.supersedes == Some(p.revision)
  }

  /** Every revision that supersedes something supersedes a member that was known strictly earlier. */
  ghost predicate ParentsPrecede(group: seq<Stamp>) {
    forall s | s in group && s.supersedes.Some? :: exists p :: p in group && Follows(p, s)
  }

  ghost predicate SingleRoot(group: seq<Stamp>) {
    && (exists r :: r in group && r.supersedes.None?)
    && (forall r, q | r in group && q in group && r.supersedes.None? && q.supersedes.None? :: r == q)
  }

  ghost predicate Unbranched(group: seq<Stamp>) {
    forall s, t | s in group && t in group && s.supersedes.Some? && s.supersedes == t.supersedes :: s == t
  }

  // ---- why those ingredients give one chain ----

  /** `c` follows the chain from the root for `|c|` steps. */
  ghost predicate IsWalk(group: seq<Stamp>, c: seq<Stamp>) {
    IsChain(c) && forall s | s in c :: s in group
  }

  ghost function Ids(c: seq<Stamp>): set<Id> {
    set s | s in c :: s.revision
  }

  ghost predicate Ended(group: seq<Stamp>, c: seq<Stamp>)
    requires c != []
  {
    forall s | s in group :: s.supersedes != Some(c[|c| - 1].revision)
  }

  lemma SameRevision(group: seq<Stamp>, s: Stamp, t: Stamp)
    requires RevisionsDistinct(group) && s in group && t in group && s.revision == t.revision
    ensures s == t
  {
    var i :| 0 <= i < |group| && group[i] == s;
    var j :| 0 <= j < |group| && group[j] == t;
    assert i <= j && j <= i;
  }

  /** A finished walk from the root has visited every member: knowledge strictly falls towards the root. */
  lemma {:induction false} WalkReaches(group: seq<Stamp>, c: seq<Stamp>, s: Stamp, older: set<Stamp>)
    requires RevisionsDistinct(group) && ParentsPrecede(group) && SingleRoot(group) && Unbranched(group)
    requires IsWalk(group, c) && Ended(group, c) && s in group
    requires older == set t | t in group && t.knowledge < s.knowledge
    ensures s in c
    decreases older
  {
    if s.supersedes.None? {
      assert c[0] in c;
    } else {
      var p :| p in group && Follows(p, s);
      var olderP := set t | t in group && t.knowledge < p.knowledge;
      assert p in older && p !in olderP;
      WalkReaches(group, c, p, olderP);
      var i :| 0 <= i < |c| && c[i] == p;
      if i + 1 < |c| {
        assert Follows(c[i], c[i + 1]) && c[i + 1] in c;
      }
    }
  }

  /** The chain conditions of the code hold of a group exactly when it is one chain. */
  lemma OneChainGivesConditions(group: seq<Stamp>)
    requires OneChain(group)
    ensures RevisionsDistinct(group) && ParentsPrecede(group) && SingleRoot(group) && Unbranched(group)
  {
    var c :| IsChain(c) && multiset(c) == multiset(group);
    SameMembers(c, group);
    forall i, j | 0 <= i < j < |group| ensures group[i].revision != group[j].revision {
      if group[i].revision == group[j].revision {
        assert group[i] in c && group[j] in c;
        assert group[i] == group[j];
        OnceEach(c);
        SeenTwice(group, i, j);
        assert false;
      }
    }
    forall s | s in group && s.supersedes.Some? ensures exists p :: p in group && Follows(p, s) {
      var i :| 0 <= i < |c| && c[i] == s;
      assert i > 0 && Follows(c[i - 1], c[i]) && c[i - 1] in c;
    }
    assert c[0] in c;
    forall r | r in group && r.supersedes.None? ensures r == c[0] {
      var i :| 0 <= i < |c| && c[i] == r;
      assert i > 0 ==> Follows(c[i - 1], c[i]);
    }
    forall s, t | s in group && t in group && s.supersedes.Some? && s.supersedes == t.supersedes ensures s == t {
      var i :| 0 <= i < |c| && c[i] == s;
      var j :| 0 <= j < |c| && c[j] == t;
      assert i > 0 && j > 0 && Follows(c[i - 1], c[i]) && Follows(c[j - 1], c[j]);
      assert i <= j && j <= i;
    }
  }

  // ---- the validating loop ----

  /** The dictionary comprehension over the first `n` members; a later twin overwrites an earlier one. */
  function Index(group: seq<Stamp>, n: nat): map<Id, Stamp>
    requires n <= |group|
  {
    if n == 0 then map[] else Index(group, n - 1)[group[n - 1].revision := group[n - 1]]
  }

  lemma {:induction false} Indexed(group: seq<Stamp>, n: nat, i: nat)
    requires i < n <= |group|
    ensures group[i].revision in Index(group, n)
  {
    if i < n - 1 {
      Indexed(group, n - 1, i);
    }
  }

  lemma {:induction false} IndexedAt(group: seq<Stamp>, n: nat, id: Id) returns (i: nat)
    requires n <= |group| && id in Index(group, n)
    ensures i < n && group[i] == Index(group, n)[id] && group[i].revision == id
  {
    if id == group[n - 1].revision {
      i := n - 1;
    } else {
      i := IndexedAt(group, n - 1, id);
    }
  }

  lemma UpdateSize(before: map<Id, Stamp>, id: Id, s: Stamp)
    ensures |before[id := s]| == |before| + (if id in before then 0 else 1)
  {
    if id in before {
      assert before[id := s].Keys == before.Keys;
    } else {
      assert before[id := s].Keys == before.Keys + {id};
    }
  }

  ghost predicate Repeats(group: seq<Stamp>, n: nat)
    requires n < |group|
  {
    exists i | 0 <= i < n :: group[i].revision == group[n].revision
  }

  lemma RepeatIsIndexed(group: seq<Stamp>, n: nat)
    requires n < |group|
    ensures group[n].revision in Index(group, n) <==> Repeats(group, n)
  {
    hide Index;
    if group[n].revision in Index(group, n) {
      var i := IndexedAt(group, n, group[n].revision);
    }
    if Repeats(group, n) {
      var i :| 0 <= i < n && group[i].revision == group[n].revision;
      Indexed(group, n, i);
    }
  }

  lemma DistinctStep(group: seq<Stamp>, n: nat)
    requires n < |group|
    ensures DistinctUpTo(group, n + 1) <==> DistinctUpTo(group, n) && !Repeats(group, n)
  {
  }

  /** The dictionary is as long as the group exactly when no revision identifier repeats. */
  lemma {:induction false} IndexSize(group: seq<Stamp>, n: nat)
    requires n <= |group|
    ensures |Index(group, n)| <= n
    ensures |Index(group, n)| == n <==> DistinctUpTo(group, n)
  {
    hide DistinctUpTo, Repeats;
    if n > 0 {
      IndexSize(group, n - 1);
      UpdateSize(Index(group, n - 1), group[n - 1].revision, group[n - 1]);
      RepeatIsIndexed(group, n - 1);
      DistinctStep(group, n - 1);
    } else {
      NoneRepeat(group);
    }
  }

  lemma NoneRepeat(group: seq<Stamp>)
    ensures DistinctUpTo(group, 0)
  {
  }

  ghost predicate ChildrenAre(group: seq<Stamp>, n: nat, children: map<Id, seq<Stamp>>)
    requires n <= |group|
  {
    && (forall id | id in children :: children[id] != [] && forall s :: s in children[id] <==> s in group[..n] && s.supersedes == Some(id))
    && (forall s | s in group[..n] && s.supersedes.Some? :: s.supersedes.value in children)
    && (forall id | id in children :: RevisionsDistinct(children[id]))
  }

  /**
    Accepts a revision group exactly when it is one chain strictly increasing in knowledge time.
    The last check of the source ("complete acyclic chain") is still here and never fires.
   */
  method ValidateRevisionGroup(group: seq<Stamp>) returns (r: Result<(), ChainError>)
    requires group != []
    ensures r.Ok? <==> OneChain(group)
    ensures r == Err(RevisionRepeats) <==> !RevisionsDistinct(group)
    ensures r == Err(ParentMissing) ==> exists s :: s in group && s.supersedes.Some? && !HasParent(group, s)
    ensures r == Err(Chronology) ==> exists s, p :: s in group && p in group && s.supersedes == Some(p.revision) && !Follows(p, s)
    ensures r == Err(NotOneUnbranchedChain)
            <==> RevisionsDistinct(group) && ParentsPrecede(group) && !(SingleRoot(group) && Unbranched(group))
    ensures r != Err(NotCompleteAcyclic)
  {
    if OneChain(group) { OneChainGivesConditions(group); }
    var byRevision := IndexRevisions(group);
    IndexSize(group, |group|);
    if |byRevision| != |group| {
      return Err(RevisionRepeats);
    }
    var family := LinkChildren(group, byRevision);
    if family.Err? {
      return Err(family.error);
    }
    var (roots, children) := family.value;
    RootsAndChildren(group, roots, children);
    if |roots| != 1 || exists id | id in children :: |children[id]| != 1 {
      return Err(NotOneUnbranchedChain);
    }
    var visited := WalkChain(group, roots[0], children);
    if |visited| != |group| {
      return Err(NotCompleteAcyclic);
    }
    return Ok(());
  }

  /** `by_revision = {item.revision_id: item for item in group}` */
  method IndexRevisions(group: seq<Stamp>) returns (byRevision: map<Id, Stamp>)
    ensures byRevision == Index(group, |group|)
  {
    byRevision := map[];
    for n := 0 to |group|
      invariant byRevision == Index(group, n)
    {
      byRevision := byRevision[group[n].revision := group[n]];
    }
  }

  /** Files every revision under its parent, or reports a missing or too recent parent. */
  method LinkChildren(group: seq<Stamp>, byRevision: map<Id, Stamp>)
    returns (r: Result<(seq<Stamp>, map<Id, seq<Stamp>>), ChainError>)
    requires RevisionsDistinct(group) && byRevision == Index(group, |group|)
    ensures r.Ok? <==> ParentsPrecede(group)
    ensures r.Ok? ==> forall s :: s in r.value.0 <==> s in group && s.supersedes.None?
    ensures r.Ok? ==> RevisionsDistinct(r.value.0) && ChildrenAre(group, |group|, r.value.1)
    ensures r.Err? ==> r.error in {ParentMissing, Chronology}
    ensures r == Err(ParentMissing) ==> exists s :: s in group && s.supersedes.Some? && !HasParent(group, s)
    ensures r == Err(Chronology) ==> exists s, p :: s in group && p in group && s.supersedes == Some(p.revision) && !Follows(p, s)
  {
    NoChildren(group);
    hide ChildrenAre, Index, RevisionsDistinct;
    IndexLooksUp(group);
    assert group[..|group|] == group;
    var roots: seq<Stamp>, children: map<Id, seq<Stamp>> := [], map[];
    for n := 0 to |group|
      invariant forall s :: s in roots <==> s in group[..n] && s.supersedes.None?
      invariant RevisionsDistinct(roots)
      invariant ChildrenAre(group, n, children)
      invariant forall s | s in group[..n] && s.supersedes.Some? :: exists p :: p in group && Follows(p, s)
    {
      var item := group[n];
      assert group[..n + 1] == group[..n] + [item];
      if item.supersedes.None? {
        RootStep(group, n, roots, children);
        roots := roots + [item];
      } else {
        var parentId := item.supersedes.value;
        if parentId !in byRevision {
          assert !HasParent(group, item);
          assert forall p | p in group :: !Follows(p, item);
          return Err(ParentMissing);
        }
        var parent := byRevision[parentId];
        if item.published < parent.published || item.knowledge <= parent.knowledge {
          forall p | p in group ensures !Follows(p, item) {
            if p.revision == parentId { SameRevision(group, p, parent); }
          }
          return Err(Chronology);
        }
        assert Follows(parent, item);
        ChildStep(group, n, children);
        children := children[parentId := ChildrenOf(children, parentId) + [item]];
      }
    }
    return Ok((roots, children));
  }

  /** The dictionary finds exactly the group's own revisions. */
  lemma IndexLooksUp(group: seq<Stamp>)
    ensures var index := Index(group, |group|);
            && (forall id | id in index :: index[id] in group && index[id].revision == id)
            && (forall i | 0 <= i < |group| :: group[i].revision in index)
  {
    hide Index;
    var index := Index(group, |group|);
    forall id | id in index ensures index[id] in group && index[id].revision == id {
      var i := IndexedAt(group, |group|, id);
    }
    forall i | 0 <= i < |group| ensures group[i].revision in index {
      Indexed(group, |group|, i);
    }
  }

  lemma NoChildren(group: seq<Stamp>)
    ensures ChildrenAre(group, 0, map[]) && RevisionsDistinct([])
  {
  }

  lemma RootStep(group: seq<Stamp>, n: nat, roots: seq<Stamp>, children: map<Id, seq<Stamp>>)
    requires n < |group| && RevisionsDistinct(group) && ChildrenAre(group, n, children) && group[n].supersedes.None?
    requires RevisionsDistinct(roots) && forall s :: s in roots <==> s in group[..n] && s.supersedes.None?
    ensures ChildrenAre(group, n + 1, children) && RevisionsDistinct(roots + [group[n]])
  {
    var item := group[n];
    assert group[..n + 1] == group[..n] + [item];
    assert forall s | s in group[..n] :: s.revision != item.revision;
    var grown := roots + [item];
    assert forall i | 0 <= i < |roots| :: grown[i] == roots[i] && roots[i] in roots;
  }

  function ChildrenOf(children: map<Id, seq<Stamp>>, id: Id): seq<Stamp> {
    if id in children then children[id] else []
  }

  /** The children filed under one parent, as far as the first `n` revisions are concerned. */
  ghost predicate ChildrenOfOne(group: seq<Stamp>, n: nat, id: Id, filed: seq<Stamp>)
    requires n <= |group|
  {
    (forall s :: s in filed <==> s in group[..n] && s.supersedes == Some(id)) && RevisionsDistinct(filed)
  }

  lemma OneMoreChild(group: seq<Stamp>, n: nat, id: Id, filed: seq<Stamp>)
    requires n < |group| && RevisionsDistinct(group) && ChildrenOfOne(group, n, id, filed) && group[n].supersedes == Some(id)
    ensures ChildrenOfOne(group, n + 1, id, filed + [group[n]])
  {
    var item, grown := group[n], filed + [group[n]];
    assert group[..n + 1] == group[..n] + [item];
    forall i | 0 <= i < |filed| ensures grown[i].revision != item.revision {
      assert filed[i] in filed;
      assert filed[i] in group[..n];
    }
  }

  lemma SameChildren(group: seq<Stamp>, n: nat, id: Id, filed: seq<Stamp>)
    requires n < |group| && ChildrenOfOne(group, n, id, filed) && group[n].supersedes != Some(id)
    ensures ChildrenOfOne(group, n + 1, id, filed)
  {
    hide RevisionsDistinct;
    assert group[..n + 1] == group[..n] + [group[n]];
  }

  /** `ChildrenAre`, parent by parent. */
  lemma ChildrenByParent(group: seq<Stamp>, n: nat, children: map<Id, seq<Stamp>>)
    requires n <= |group|
    ensures ChildrenAre(group, n, children) <==>
              (forall id | id in children :: children[id] != []) && forall id :: ChildrenOfOne(group, n, id, ChildrenOf(children, id))
  {
    if ChildrenAre(group, n, children) {
      forall id ensures ChildrenOfOne(group, n, id, ChildrenOf(children, id)) {
      }
    }
    if (forall id | id in children :: children[id] != []) && forall id :: ChildrenOfOne(group, n, id, ChildrenOf(children, id)) {
      forall id | id in children ensures ChildrenOfOne(group, n, id, children[id]) {
        assert ChildrenOf(children, id) == children[id];
      }
      forall s | s in group[..n] && s.supersedes.Some? ensures s.supersedes.value in children {
        assert ChildrenOfOne(group, n, s.supersedes.value, ChildrenOf(children, s.supersedes.value));
      }
    }
  }

  lemma ChildStep(group: seq<Stamp>, n: nat, children: map<Id, seq<Stamp>>)
    requires n < |group| && RevisionsDistinct(group) && ChildrenAre(group, n, children) && group[n].supersedes.Some?
    ensures var id := group[n].supersedes.value;
            ChildrenAre(group, n + 1, children[id := ChildrenOf(children, id) + [group[n]]])
  {
    hide ChildrenAre, ChildrenOfOne, RevisionsDistinct;
    var parent := group[n].supersedes.value;
    var after := children[parent := ChildrenOf(children, parent) + [group[n]]];
    ChildrenByParent(group, n, children);
    ChildrenByParent(group, n + 1, after);
    forall id ensures ChildrenOfOne(group, n + 1, id, ChildrenOf(after, id)) {
      if id == parent {
        OneMoreChild(group, n, id, ChildrenOf(children, id));
      } else {
        SameChildren(group, n, id, ChildrenOf(children, id));
      }
    }
  }

  /** Follows first children from the root until it ends or returns to a visited revision. */
  method WalkChain(group: seq<Stamp>, root: Stamp, children: map<Id, seq<Stamp>>) returns (visited: set<Id>)
    requires RevisionsDistinct(group) && ParentsPrecede(group) && SingleRoot(group) && Unbranched(group)
    requires root in group && root.supersedes.None? && ChildrenAre(group, |group|, children)
    ensures |visited| == |group|
    ensures OneChain(group)
  {
    hide RevisionsDistinct, ParentsPrecede, SingleRoot, Unbranched, ChildrenAre, IsWalk, Ended, Ids, OneChain;
    ghost var walk: seq<Stamp> := [root];
    var current: Option<Stamp> := Some(root);
    visited := {};
    WalkBegins(group, root);
    while current.Some? && current.value.revision !in visited
      invariant IsWalk(group, walk) && walk != []
      invariant current.Some? ==> current.value == walk[|walk| - 1] && visited == Ids(walk[..|walk| - 1])
      invariant current.None? ==> Ended(group, walk) && visited == Ids(walk)
      invariant |visited| <= |group|
      decreases |group| - |visited|, current.Some?
    {
      var id := current.value.revision;
      Revisit(walk, visited);
      visited := visited + {id};
      WalkFits(group, walk, visited);
      ChildrenMean(group, children, walk);
      if id in children {
        var next := children[id][0];
        ExtendWalk(group, walk, next);
        Extended(walk, next);
        walk := walk + [next];
        current := Some(next);
      } else {
        current := None;
      }
    }
    if current.Some? {
      NeverReturns(group, walk);
      assert false;
    }
    WalkIsChain(group, root, walk);
    WalkSize(walk, visited);
  }

  lemma WalkBegins(group: seq<Stamp>, root: Stamp)
    requires root in group && root.supersedes.None?
    ensures IsWalk(group, [root]) && Ids([root][..0]) == {}
  {
  }

  /** The last revision walked either has a child to go on with, or ends the walk. */
  lemma ChildrenMean(group: seq<Stamp>, children: map<Id, seq<Stamp>>, walk: seq<Stamp>)
    requires walk != [] && ChildrenAre(group, |group|, children)
    ensures var id := walk[|walk| - 1].revision;
            if id in children then children[id] != [] && children[id][0] in group && children[id][0].supersedes == Some(id)
            else Ended(group, walk)
  {
    hide RevisionsDistinct;
    var id := walk[|walk| - 1].revision;
    assert group[..|group|] == group;
    if id in children {
      assert children[id][0] in children[id];
    }
  }

  /** A walk has no revision twice, so it cannot come back to one already visited. */
  lemma NeverReturns(group: seq<Stamp>, walk: seq<Stamp>)
    requires IsWalk(group, walk) && walk != []
    ensures walk[|walk| - 1].revision !in Ids(walk[..|walk| - 1])
  {
    var n := |walk| - 1;
    forall s | s in walk[..n] ensures s.revision != walk[n].revision {
      var i :| 0 <= i < n && walk[i] == s;
      assert IsChain(walk);
    }
  }

  lemma WalkIsChain(group: seq<Stamp>, root: Stamp, walk: seq<Stamp>)
    requires RevisionsDistinct(group) && ParentsPrecede(group) && SingleRoot(group) && Unbranched(group)
    requires IsWalk(group, walk) && walk != [] && Ended(group, walk)
    ensures OneChain(group) && RevisionsDistinct(walk) && |walk| == |group|
  {
    hide ParentsPrecede, SingleRoot, Unbranched, Ended;
    forall s | s in group ensures s in walk {
      WalkReaches(group, walk, s, set t | t in group && t.knowledge < s.knowledge);
    }
    WalkDistinct(group, walk);
    assert Distinct(group);
    DistinctMultisets(walk, group);
    SameMembers(walk, group);
  }

  lemma WalkDistinct(group: seq<Stamp>, walk: seq<Stamp>)
    requires IsWalk(group, walk)
    ensures RevisionsDistinct(walk) && Distinct(walk)
  {
  }

  lemma RootsAndChildren(group: seq<Stamp>, roots: seq<Stamp>, children: map<Id, seq<Stamp>>)
    requires forall s :: s in roots <==> s in group && s.supersedes.None?
    requires RevisionsDistinct(roots) && RevisionsDistinct(group)
    requires ChildrenAre(group, |group|, children)
    ensures |roots| == 1 <==> SingleRoot(group)
    ensures (forall id | id in children :: |children[id]| == 1) <==> Unbranched(group)
  {
    assert group[..|group|] == group;
    if |roots| == 1 {
      assert roots[0] in roots;
    } else if |roots| > 1 {
      assert roots[0] in roots && roots[1] in roots;
      assert roots[0] != roots[1];
    }
    if forall id | id in children :: |children[id]| == 1 {
      forall s, t | s in group && t in group && s.supersedes.Some? && s.supersedes == t.supersedes ensures s == t {
        assert s in children[s.supersedes.value] && t in children[s.supersedes.value];
      }
    } else {
      var id :| id in children && |children[id]| != 1;
      var s, t := children[id][0], children[id][1];
      assert s in children[id] && t in children[id];
      assert s.revision != t.revision;
    }
  }

  lemma ExtendWalk(group: seq<Stamp>, walk: seq<Stamp>, next: Stamp)
    requires RevisionsDistinct(group) && ParentsPrecede(group) && IsWalk(group, walk)
    requires next in group && next.supersedes == Some(walk[|walk| - 1].revision)
    ensures IsWalk(group, walk + [next])
  {
    var last := walk[|walk| - 1];
    assert last in walk;
    var p :| p in group && Follows(p, next);
    SameRevision(group, p, last);
    forall i | 0 <= i < |walk| ensures walk[i].revision != next.revision {
      if i < |walk| - 1 {
        ChainIncreases(walk, i, |walk| - 1);
      }
      assert walk[i] in walk;
      if walk[i].revision == next.revision {
        SameRevision(group, walk[i], next);
      }
    }
  }

  lemma Revisit(walk: seq<Stamp>, visited: set<Id>)
    requires walk != [] && visited == Ids(walk[..|walk| - 1])
    ensures visited + {walk[|walk| - 1].revision} == Ids(walk)
  {
    assert walk == walk[..|walk| - 1] + [walk[|walk| - 1]];
  }

  lemma Extended(walk: seq<Stamp>, next: Stamp)
    ensures (walk + [next])[..|walk + [next]| - 1] == walk
  {
  }

  lemma WalkSize(walk: seq<Stamp>, visited: set<Id>)
    requires RevisionsDistinct(walk) && visited == Ids(walk)
    ensures |visited| == |walk|
  {
    if walk != [] {
      var n := |walk| - 1;
      var rest := walk[..n];
      assert walk == rest + [walk[n]];
      var fewer := Ids(rest);
      WalkSize(rest, fewer);
      assert visited == fewer + {walk[n].revision};
      assert walk[n].revision !in fewer;
    } else {
      assert visited == {};
    }
  }

  lemma WalkFits(group: seq<Stamp>, walk: seq<Stamp>, visited: set<Id>)
    requires IsWalk(group, walk) && visited == Ids(walk)
    ensures |visited| <= |group|
  {
    var all := Ids(group);
    assert visited <= all;
    SetSizes(visited, all);
    ImageSize(group);
  }

  lemma {:induction false} ImageSize(group: seq<Stamp>)
    ensures |Ids(group)| <= |group|
  {
    var all := Ids(group);
    if group == [] {
      assert all == {};
    } else {
      ImageSize(group[1..]);
      assert group == [group[0]] + group[1..];
      assert all == Ids(group[1..]) + {group[0].revision};
    }
  }
}
