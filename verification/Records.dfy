/**
  Revision groups of keyed records: grouping by economic key, validating every group as one chain,
  and resolving the records known at a decision to their unsuperseded revisions. The key of a
  lifecycle interval is its effective range; snapshots and scores add their strategy (and domain).
 */
module Records {
  import opened Prelude
  import opened Ordering
  import opened Revisions

  datatype Record<K, V> = Record(key: K, stamp: Stamp, body: V)

  predicate KnownBy(s: Stamp, decision: int) {
    s.published <= decision && s.knowledge <= decision
  }

  /** The members of the group of `k`, in input order. */
  function OfKey<K(==), V>(rs: seq<Record<K, V>>, k: K): seq<Record<K, V>> {
    if rs == [] then []
    else
      var n := |rs| - 1;
      OfKey(rs[..n], k) + (if rs[n].key == k then [rs[n]] else [])
  }

  function Stamps<K, V>(rs: seq<Record<K, V>>): (ss: seq<Stamp>)
    ensures |ss| == |rs| && forall i | 0 <= i < |rs| :: ss[i] == rs[i].stamp
  {
    seq(|rs|, i requires 0 <= i < |rs| => rs[i].stamp)
  }

  /** Every revision group of the collection is one chain strictly increasing in knowledge time. */
  ghost predicate AllChains<K(!new), V>(rs: seq<Record<K, V>>) {
    forall r | r in rs :: OneChain(Stamps(OfKey(rs, r.key)))
  }

  lemma {:induction false} OfKeyMembers<K, V>(rs: seq<Record<K, V>>, k: K, r: Record<K, V>)
    ensures r in OfKey(rs, k) <==> r in rs && r.key == k
  {
    if rs != [] {
      var n := |rs| - 1;
      OfKeyMembers(rs[..n], k, r);
      assert rs == rs[..n] + [rs[n]];
    }
  }

  lemma OfKeyStep<K, V>(rs: seq<Record<K, V>>, n: nat, k: K)
    requires n < |rs|
    ensures OfKey(rs[..n + 1], k) == OfKey(rs[..n], k) + (if rs[n].key == k then [rs[n]] else [])
  {
    assert rs[..n + 1][..n] == rs[..n];
  }

  method GroupByKey<K(==), V>(rs: seq<Record<K, V>>) returns (groups: map<K, seq<Record<K, V>>>, order: seq<K>)
    ensures Distinct(order) && forall k :: k in order <==> k in groups
    ensures forall k :: k in groups <==> OfKey(rs, k) != []
    ensures forall k | k in groups :: groups[k] == OfKey(rs, k)
  {
    groups, order := map[], [];
    assert rs[..0] == [] && rs[..|rs|] == rs;
    for n := 0 to |rs|
      invariant Distinct(order) && forall k :: k in order <==> k in groups
      invariant forall k :: k in groups <==> OfKey(rs[..n], k) != []
      invariant forall k | k in groups :: groups[k] == OfKey(rs[..n], k)
    {
      hide OfKey;
      var r := rs[n];
      forall k ensures OfKey(rs[..n + 1], k) == OfKey(rs[..n], k) + (if r.key == k then [r] else []) {
        OfKeyStep(rs, n, k);
      }
      if r.key !in groups {
        order := order + [r.key];
      }
      groups := groups[r.key := (if r.key in groups then groups[r.key] else []) + [r]];
    }
  }

  /** `_validate_snapshot_revision_groups` and its two siblings. */
  method ValidateRevisionGroups<K(==, !new), V>(rs: seq<Record<K, V>>) returns (r: Result<(), ChainError>)
    ensures r.Ok? <==> AllChains(rs)
    ensures r != Err(NotCompleteAcyclic)
  {
    var groups, order := GroupByKey(rs);
    for p := 0 to |order|
      invariant forall k | k in order[..p] :: OneChain(Stamps(OfKey(rs, k)))
    {
      var group := groups[order[p]];
      var verdict := ValidateRevisionGroup(Stamps(group));
      if verdict.Err? {
        OfKeyMembers(rs, order[p], group[0]);
        return verdict;
      }
      assert order[..p + 1] == order[..p] + [order[p]];
    }
    forall q | q in rs ensures OneChain(Stamps(OfKey(rs, q.key))) {
      OfKeyMembers(rs, q.key, q);
      assert q.key in order[..|order|];
    }
    return Ok(());
  }

  // ---- resolution ----

  ghost predicate Superseded<K(!new), V(!new)>(rs: set<Record<K, V>>, r: Record<K, V>) {
    exists q :: q in rs && q.key == r.key && q.stamp.supersedes == Some(r.stamp.revision)
  }

  ghost function Tips<K(!new), V(!new)>(rs: set<Record<K, V>>): set<Record<K, V>> {
    set r | r in rs && !Superseded(rs, r)
  }

  ghost function Visible<K(!new), V>(rs: seq<Record<K, V>>, want: K -> bool, decision: int): set<Record<K, V>> {
    set r | r in rs && want(r.key) && KnownBy(r.stamp, decision)
  }

  /** `_resolve_snapshot_revisions`, `_resolve_score_revisions` and the tips of `_lifecycle_at`. */
  method ResolveRevisions<K(==, !new), V(==, !new)>(rs: seq<Record<K, V>>) returns (resolved: seq<Record<K, V>>)
    requires Distinct(rs)
    ensures Distinct(resolved)
    ensures forall r :: r in resolved <==> r in Tips(set q | q in rs)
  {
    var groups, order := GroupByKey(rs);
    resolved := [];
    ghost var all := set q | q in rs;
    for p := 0 to |order|
      invariant Distinct(resolved)
      invariant forall r :: r in resolved <==> r in Tips(all) && r.key in order[..p]
    {
      var k := order[p];
      assert order[..p + 1] == order[..p] + [k];
      assert k !in order[..p];
      var group := groups[k];
      forall r ensures r in group <==> r in rs && r.key == k { OfKeyMembers(rs, k, r); }
      OfKeyDistinct(rs, k);
      resolved := KeepUnsuperseded(group, resolved, all, k);
    }
    assert order[..|order|] == order;
    forall r | r in Tips(all) ensures r in resolved {
      OfKeyMembers(rs, r.key, r);
    }
  }

  lemma {:induction false} OfKeyDistinct<K, V>(rs: seq<Record<K, V>>, k: K)
    requires Distinct(rs)
    ensures Distinct(OfKey(rs, k))
  {
    if rs != [] {
      var n := |rs| - 1;
      OfKeyDistinct(rs[..n], k);
      OfKeyMembers(rs[..n], k, rs[n]);
    }
  }

  method SupersededIds<K(==, !new), V(==, !new)>(group: seq<Record<K, V>>) returns (superseded: set<Id>)
    ensures forall id :: id in superseded <==> exists q :: q in group && q.stamp.supersedes == Some(id)
  {
    superseded := {};
    for i := 0 to |group|
      invariant forall id :: id in superseded <==> exists q :: q in group[..i] && q.stamp.supersedes == Some(id)
    {
      assert group[..i + 1] == group[..i] + [group[i]];
      if group[i].stamp.supersedes.Some? {
        superseded := superseded + {group[i].stamp.supersedes.value};
      }
    }
    assert group[..|group|] == group;
  }

  /** One group of the resolving loop: `item.revision_id not in superseded`. */
  method KeepUnsuperseded<K(==, !new), V(==, !new)>(group: seq<Record<K, V>>, before: seq<Record<K, V>>,
                                                   ghost all: set<Record<K, V>>, ghost k: K)
    returns (resolved: seq<Record<K, V>>)
    requires Distinct(group) && Distinct(before)
    requires forall r :: r in group <==> r in all && r.key == k
    requires forall r | r in before :: r.key != k
    ensures Distinct(resolved)
    ensures forall r :: r in resolved <==> r in before || (r in Tips(all) && r.key == k)
  {
    var superseded := SupersededIds(group);
    resolved := before;
    for i := 0 to |group|
      invariant Distinct(resolved)
      invariant forall r :: r in resolved <==> r in before || (r in group[..i] && r.stamp.revision !in superseded)
    {
      assert group[..i + 1] == group[..i] + [group[i]];
      assert group[i] !in group[..i] && group[i] in group;
      if group[i].stamp.revision !in superseded {
        resolved := resolved + [group[i]];
      }
    }
    assert group[..|group|] == group;
    forall r | r in group ensures Superseded(all, r) <==> r.stamp.revision in superseded {
    }
  }

  // ---- what resolution means on validated records ----

  /** Along a chain the revisions known by a decision are a prefix. */
  lemma KnownIsPrefix(c: seq<Stamp>, decision: int) returns (k: nat)
    requires IsChain(c)
    ensures k <= |c| && forall i | 0 <= i < |c| :: KnownBy(c[i], decision) <==> i < k
  {
    k := 0;
    while k < |c| && KnownBy(c[k], decision)
      invariant k <= |c| && forall i | 0 <= i < k :: KnownBy(c[i], decision)
    {
      k := k + 1;
    }
    forall i | k < i < |c| ensures !KnownBy(c[i], decision) {
      ChainIncreases(c, k, i);
    }
  }

  /** Within one validated group a revision identifier names one record. */
  lemma SameRecord<K(!new), V>(rs: seq<Record<K, V>>, q: Record<K, V>, r: Record<K, V>)
    requires AllChains(rs) && q in rs && r in rs && q.key == r.key && q.stamp.revision == r.stamp.revision
    ensures q == r
  {
    var group := OfKey(rs, r.key);
    OfKeyMembers(rs, r.key, q);
    OfKeyMembers(rs, r.key, r);
    OneChainGivesConditions(Stamps(group));
    SamePlace(group, q, r);
  }

  lemma SamePlace<K, V>(group: seq<Record<K, V>>, q: Record<K, V>, r: Record<K, V>)
    requires RevisionsDistinct(Stamps(group)) && q in group && r in group && q.stamp.revision == r.stamp.revision
    ensures q == r
  {
    var i :| 0 <= i < |group| && group[i] == q;
    var j :| 0 <= j < |group| && group[j] == r;
    assert Stamps(group)[i].revision == Stamps(group)[j].revision;
    assert i <= j && j <= i;
  }

  /** The stamps of a validated group, in chain order. */
  lemma ChainOf<K(!new), V>(rs: seq<Record<K, V>>, r: Record<K, V>) returns (c: seq<Stamp>)
    requires AllChains(rs) && r in rs
    ensures IsChain(c)
    ensures forall q | q in rs && q.key == r.key :: q.stamp in c
    ensures forall s | s in c :: exists q :: q in rs && q.key == r.key && q.stamp == s
  {
    var group := OfKey(rs, r.key);
    c :| IsChain(c) && multiset(c) == multiset(Stamps(group));
    SameMembers(c, Stamps(group));
    forall q | q in rs && q.key == r.key ensures q.stamp in c {
      OfKeyMembers(rs, r.key, q);
      var i :| 0 <= i < |group| && group[i] == q;
      assert Stamps(group)[i] in Stamps(group);
    }
    forall s | s in c ensures exists q :: q in rs && q.key == r.key && q.stamp == s {
      var i :| 0 <= i < |group| && Stamps(group)[i] == s;
      OfKeyMembers(rs, r.key, group[i]);
    }
  }

  ghost predicate LatestKnown<K(!new), V(!new)>(visible: set<Record<K, V>>, r: Record<K, V>) {
    r in visible && forall q | q in visible && q.key == r.key && q != r :: q.stamp.knowledge < r.stamp.knowledge
  }

  /** On validated records, resolution keeps exactly the latest-known revision of every visible group. */
  lemma ResolutionKeepsLatest<K(!new), V(!new)>(rs: seq<Record<K, V>>, want: K -> bool, decision: int, r: Record<K, V>)
    requires AllChains(rs)
    ensures r in Tips(Visible(rs, want, decision)) <==> LatestKnown(Visible(rs, want, decision), r)
  {
    var seen := Visible(rs, want, decision);
    if r in seen {
      var c := ChainOf(rs, r);
      var k := KnownIsPrefix(c, decision);
      var i :| 0 <= i < |c| && c[i] == r.stamp;
      if i + 1 < k {
        assert Follows(c[i], c[i + 1]) && c[i + 1] in c;
        var q :| q in rs && q.key == r.key && q.stamp == c[i + 1];
        assert q in seen && Superseded(seen, r);
      } else {
        forall q | q in seen && q.key == r.key ensures q.stamp.supersedes != Some(r.stamp.revision) && (q != r ==> q.stamp.knowledge < r.stamp.knowledge) {
          var j :| 0 <= j < |c| && c[j] == q.stamp;
          if q != r && j == i {
            SameRecord(rs, q, r);
          }
          assert j <= i;
          if j > 0 {
            assert Follows(c[j - 1], c[j]);
          }
          if j < i {
            ChainIncreases(c, j, i);
          }
        }
      }
    }
  }

  lemma LatestOf<K(!new), V(!new)>(rs: seq<Record<K, V>>, want: K -> bool, decision: int, q: Record<K, V>) returns (r: Record<K, V>)
    requires AllChains(rs) && q in Visible(rs, want, decision)
    ensures LatestKnown(Visible(rs, want, decision), r) && r.key == q.key
  {
    hide AllChains, IsChain;
    var seen := Visible(rs, want, decision);
    var c := ChainOf(rs, q);
    var k := KnownIsPrefix(c, decision);
    assert c[k - 1] in c by { assert q.stamp in c; }
    r :| r in rs && r.key == q.key && r.stamp == c[k - 1];
    assert r in seen;
    forall t | t in seen && t.key == r.key && t != r ensures t.stamp.knowledge < r.stamp.knowledge {
      var j :| 0 <= j < |c| && c[j] == t.stamp;
      if j == k - 1 {
        SameRecord(rs, t, r);
      }
      ChainIncreases(c, j, k - 1);
    }
  }

  /** Every visible group resolves to one record, and a group with nothing visible to none. */
  lemma ResolutionIsTotal<K(!new), V(!new)>(rs: seq<Record<K, V>>, want: K -> bool, decision: int, q: Record<K, V>) returns (r: Record<K, V>)
    requires AllChains(rs) && q in Visible(rs, want, decision)
    ensures r in Tips(Visible(rs, want, decision)) && r.key == q.key
    ensures forall t | t in Tips(Visible(rs, want, decision)) && t.key == q.key :: t == r
  {
    var seen := Visible(rs, want, decision);
    r := LatestOf(rs, want, decision, q);
    hide AllChains, Visible, Tips;
    ResolutionKeepsLatest(rs, want, decision, r);
    forall t | t in Tips(seen) && t.key == q.key ensures t == r {
      ResolutionKeepsLatest(rs, want, decision, t);
    }
  }
}
