/**
  The binary min-heap of indices that the overlap sweep pushes to and pops from (Python's `heapq`).
  The list is a field that the methods reassign; `Valid` is the heap order, and each method states
  exactly how the multiset of stored indices changes.
 */
module MinHeap {
  function Parent(i: nat): nat {
    if i == 0 then 0 else (i - 1) / 2
  }

  /** Position `i` holds at least what position `p` holds. */
  ghost predicate Above(s: seq<nat>, p: nat, i: nat) {
    p < |s| && i < |s| && s[p] <= s[i]
  }

  ghost predicate Ordered(s: seq<nat>) {
    forall i | 1 <= i < |s| :: Above(s, Parent(i), i)
  }

  /** Heap order everywhere except between `k` and its parent. */
  ghost predicate OrderedExceptAbove(s: seq<nat>, k: nat) {
    && (forall i | 1 <= i < |s| && i != k :: Above(s, Parent(i), i))
    && (forall i | 1 <= i < |s| && Parent(i) == k :: Above(s, Parent(k), i))
  }

  /** Heap order everywhere except between `k` and its children. */
  ghost predicate OrderedExceptBelow(s: seq<nat>, k: nat) {
    && (forall i | 1 <= i < |s| && Parent(i) != k :: Above(s, Parent(i), i))
    && (forall i | 1 <= i < |s| && Parent(i) == k && k != 0 :: Above(s, Parent(k), i))
  }

  lemma {:induction false} RootIsLeast(s: seq<nat>, i: nat)
    requires Ordered(s) && i < |s|
    ensures s[0] <= s[i]
  {
    if i != 0 {
      assert Above(s, Parent(i), i);
      RootIsLeast(s, Parent(i));
    }
  }

  function Swap(s: seq<nat>, i: nat, j: nat): (r: seq<nat>)
    requires i < |s| && j < |s|
    ensures |r| == |s|
    ensures multiset(r) == multiset(s)
    ensures r[i] == s[j] && r[j] == s[i]
    ensures forall k | 0 <= k < |s| && k != i && k != j :: r[k] == s[k]
  {
    s[i := s[j]][j := s[i]]
  }

  lemma SwapUp(s: seq<nat>, k: nat)
    requires 0 < k < |s| && OrderedExceptAbove(s, k) && s[k] < s[Parent(k)]
    ensures OrderedExceptAbove(Swap(s, k, Parent(k)), Parent(k))
  {
    var p, t := Parent(k), Swap(s, k, Parent(k));
    forall i | 1 <= i < |t| && i != p ensures Above(t, Parent(i), i) {
      assert i != k ==> Above(s, Parent(i), i);
      assert Parent(i) == k ==> Above(s, p, i);
    }
    forall i | 1 <= i < |t| && Parent(i) == p ensures Above(t, Parent(p), i) {
      assert p != 0 ==> Above(s, Parent(p), p);
      assert i != k ==> Above(s, p, i);
    }
  }

  lemma SwapDown(s: seq<nat>, k: nat, child: nat)
    requires child < |s| && 1 <= child && Parent(child) == k && OrderedExceptBelow(s, k)
    requires forall i | 1 <= i < |s| && Parent(i) == k :: Above(s, child, i)
    requires s[child] < s[k]
    ensures OrderedExceptBelow(Swap(s, k, child), child)
  {
    var t := Swap(s, k, child);
    forall i | 1 <= i < |t| && Parent(i) != child ensures Above(t, Parent(i), i) {
      if Parent(i) == k {
        assert Above(s, child, i);
      } else {
        assert Above(s, Parent(i), i);
        assert i == k ==> Above(s, Parent(k), child);
      }
    }
    forall i | 1 <= i < |t| && Parent(i) == child && child != 0 ensures Above(t, Parent(child), i) {
      assert Above(s, child, i);
    }
  }

  lemma LeastChild(s: seq<nat>, k: nat, child: nat)
    requires 2 * k + 1 < |s| && child < |s| && (child == 2 * k + 1 || child == 2 * k + 2)
    requires s[child] <= s[2 * k + 1] && (2 * k + 2 < |s| ==> s[child] <= s[2 * k + 2])
    ensures Parent(child) == k && forall i | 1 <= i < |s| && Parent(i) == k :: Above(s, child, i)
  {
    forall i | 1 <= i < |s| && Parent(i) == k ensures Above(s, child, i) {
      assert i == 2 * k + 1 || i == 2 * k + 2;
    }
  }

  lemma Settled(s: seq<nat>, k: nat)
    requires k < |s| && OrderedExceptBelow(s, k)
    requires forall i | 1 <= i < |s| && Parent(i) == k :: s[k] <= s[i]
    ensures Ordered(s)
  {
    forall i | 1 <= i < |s| ensures Above(s, Parent(i), i) {
      assert Parent(i) < |s|;
    }
  }

  lemma LeastOfAll(s: seq<nat>)
    requires Ordered(s) && s != []
    ensures forall y | y in s :: s[0] <= y
  {
    forall y | y in s ensures s[0] <= y {
      var i :| 0 <= i < |s| && s[i] == y;
      RootIsLeast(s, i);
    }
  }

  /** Putting the last index in place of the first removes the first, and leaves only the root out of order. */
  lemma LastFirst(s: seq<nat>)
    requires Ordered(s) && s != []
    ensures var n := |s| - 1;
            if n == 0 then multiset(s) - multiset{s[0]} == multiset([])
            else multiset([s[n]] + s[..n][1..]) == multiset(s) - multiset{s[0]} && OrderedExceptBelow([s[n]] + s[..n][1..], 0)
  {
    var n := |s| - 1;
    if n > 0 {
      var t := [s[n]] + s[..n][1..];
      assert s == [s[0]] + s[..n][1..] + [s[n]];
      forall i | 1 <= i < |t| && Parent(i) != 0 ensures Above(t, Parent(i), i) {
        assert Above(s, Parent(i), i);
      }
    } else {
      assert s == [s[0]];
    }
  }

  class Heap {
    var items: seq<nat>

    ghost predicate Valid()
      reads this
    {
      Ordered(items)
    }

    constructor ()
      ensures Valid() && items == []
    {
      items := [];
    }

    method Push(x: nat)
      requires Valid()
      modifies this
      ensures Valid()
      ensures multiset(items) == old(multiset(items)) + multiset{x}
    {
      forall i | 1 <= i < |items| ensures Above(items + [x], Parent(i), i) {
        assert Above(items, Parent(i), i);
      }
      items := items + [x];
      var k: nat := |items| - 1;
      while k > 0 && items[k] < items[Parent(k)]
        invariant k < |items|
        invariant OrderedExceptAbove(items, k)
        invariant multiset(items) == old(multiset(items)) + multiset{x}
      {
        SwapUp(items, k);
        items := Swap(items, k, Parent(k));
        k := Parent(k);
      }
      assert k != 0 ==> Above(items, Parent(k), k);
    }

    /** Removes the least index; the rest stays. */
    method Pop() returns (x: nat)
      requires Valid() && items != []
      modifies this
      ensures Valid()
      ensures x == old(items)[0]
      ensures forall y | y in old(items) :: x <= y
      ensures multiset(items) == old(multiset(items)) - multiset{x}
    {
      x := items[0];
      LeastOfAll(items);
      LastFirst(items);
      var last := items[|items| - 1];
      items := items[..|items| - 1];
      if items != [] {
        items := [last] + items[1..];
        SiftDown();
      }
    }

    method SiftDown()
      requires items != [] && OrderedExceptBelow(items, 0)
      modifies this
      ensures Valid()
      ensures multiset(items) == old(multiset(items))
    {
      hide OrderedExceptBelow, Ordered;
      var k := 0;
      while 2 * k + 1 < |items|
        invariant k < |items|
        invariant OrderedExceptBelow(items, k)
        invariant multiset(items) == old(multiset(items))
        decreases |items| - k
      {
        var child := 2 * k + 1;
        if child + 1 < |items| && items[child + 1] < items[child] {
          child := child + 1;
        }
        LeastChild(items, k, child);
        if items[k] <= items[child] {
          Settled(items, k);
          return;
        }
        SwapDown(items, k, child);
        items := Swap(items, k, child);
        k := child;
      }
      assert forall i | 1 <= i < |items| :: Parent(i) != k;
      Settled(items, k);
    }
  }
}
