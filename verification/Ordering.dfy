/**
  Python's `sorted`, code-point string order and the few sequence facts the other modules share.
  A sort is specified by what it guarantees (ordered, same elements); `SortedUnique` shows that
  under an antisymmetric order these two facts determine the result, so no later statement can
  depend on how the sort is done.
 */
module Ordering {
  /** An identifier; identifiers are compared and sorted as their text is. */
  datatype Id = Id(text: string)

  ghost predicate TotalPreorder<T(!new)>(leq: (T, T) -> bool) {
    && (forall x, y :: leq(x, y) || leq(y, x))
    && (forall x, y, z :: leq(x, y) && leq(y, z) ==> leq(x, z))
  }

  ghost predicate Antisymmetric<T(!new)>(leq: (T, T) -> bool) {
    forall x, y :: leq(x, y) && leq(y, x) ==> x == y
  }

  /** Antisymmetry among the elements of `s`. */
  ghost predicate AntisymmetricOn<T>(s: seq<T>, leq: (T, T) -> bool) {
    forall x, y | x in s && y in s && leq(x, y) && leq(y, x) :: x == y
  }

  ghost predicate SortedBy<T>(s: seq<T>, leq: (T, T) -> bool) {
    forall i, j | 0 <= i < j < |s| :: leq(s[i], s[j])
  }

  function Insert<T>(x: T, s: seq<T>, leq: (T, T) -> bool): (r: seq<T>)
    ensures multiset(r) == multiset{x} + multiset(s)
    ensures |r| == |s| + 1
  {
    if s == [] then [x]
    else if leq(x, s[0]) then [x] + s
    else
      assert s == [s[0]] + s[1..];
      [s[0]] + Insert(x, s[1..], leq)
  }

  function SortBy<T>(s: seq<T>, leq: (T, T) -> bool): (r: seq<T>)
    ensures multiset(r) == multiset(s)
    ensures |r| == |s|
  {
    if s == [] then []
    else
      assert s == [s[0]] + s[1..];
      Insert(s[0], SortBy(s[1..], leq), leq)
  }

  lemma {:induction false} InsertKeepsOrder<T(!new)>(x: T, s: seq<T>, leq: (T, T) -> bool)
    requires TotalPreorder(leq) && SortedBy(s, leq)
    ensures SortedBy(Insert(x, s, leq), leq)
  {
    if s != [] && !leq(x, s[0]) {
      InsertKeepsOrder(x, s[1..], leq);
      var rest := Insert(x, s[1..], leq);
      forall j | 0 <= j < |rest| ensures leq(s[0], rest[j]) {
        assert rest[j] in multiset(rest);
        assert rest[j] == x || rest[j] in s[1..];
      }
    } else if s != [] {
      assert leq(x, x);
    }
  }

  lemma {:induction false} SortByCorrect<T(!new)>(s: seq<T>, leq: (T, T) -> bool)
    requires TotalPreorder(leq)
    ensures SortedBy(SortBy(s, leq), leq)
    ensures forall x :: x in SortBy(s, leq) <==> x in s
  {
    if s != [] {
      SortByCorrect(s[1..], leq);
      InsertKeepsOrder(s[0], SortBy(s[1..], leq), leq);
    }
    SameMembers(SortBy(s, leq), s);
  }

  lemma SameMembers<T>(a: seq<T>, b: seq<T>)
    requires multiset(a) == multiset(b)
    ensures |a| == |b|
    ensures forall x :: x in a <==> x in b
  {
    assert |multiset(a)| == |multiset(b)|;
    forall x ensures x in a <==> x in b {
      assert x in a <==> x in multiset(a);
      assert x in b <==> x in multiset(b);
    }
  }

  lemma SameMember<T>(a: seq<T>, b: seq<T>, x: T)
    requires multiset(a) == multiset(b)
    ensures x in a <==> x in b
  {
    assert x in a <==> x in multiset(a);
    assert x in b <==> x in multiset(b);
  }

  lemma HeadIsLeast<T(!new)>(a: seq<T>, leq: (T, T) -> bool, x: T)
    requires TotalPreorder(leq) && SortedBy(a, leq) && x in a
    ensures leq(a[0], x)
  {
    var i :| 0 <= i < |a| && a[i] == x;
    if i == 0 {
      assert leq(x, x);
    }
  }

  lemma TailOf<T>(a: seq<T>)
    requires a != []
    ensures multiset(a[1..]) == multiset(a) - multiset{a[0]}
  {
    assert a == [a[0]] + a[1..];
  }

  lemma SameHead<T(!new)>(a: seq<T>, b: seq<T>, leq: (T, T) -> bool)
    requires TotalPreorder(leq) && AntisymmetricOn(a, leq) && a != [] && b != []
    requires SortedBy(a, leq) && SortedBy(b, leq) && multiset(a) == multiset(b)
    ensures a[0] == b[0]
  {
    hide TotalPreorder, SortedBy;
    SameMembers(a, b);
    assert a[0] in a && b[0] in b;
    HeadIsLeast(a, leq, b[0]);
    HeadIsLeast(b, leq, a[0]);
  }

  lemma SortedTail<T(!new)>(a: seq<T>, leq: (T, T) -> bool)
    requires a != [] && SortedBy(a, leq)
    ensures SortedBy(a[1..], leq) && (AntisymmetricOn(a, leq) ==> AntisymmetricOn(a[1..], leq))
  {
  }

  /** Two sorted arrangements of the same elements are the same sequence. */
  lemma {:induction false} SortedUnique<T(!new)>(a: seq<T>, b: seq<T>, leq: (T, T) -> bool)
    requires TotalPreorder(leq) && AntisymmetricOn(a, leq)
    requires SortedBy(a, leq) && SortedBy(b, leq) && multiset(a) == multiset(b)
    ensures a == b
  {
    hide TotalPreorder, SortedBy, AntisymmetricOn;
    SameMembers(a, b);
    if a != [] {
      SameHead(a, b, leq);
      SortedTail(a, leq);
      SortedTail(b, leq);
      TailOf(a);
      TailOf(b);
      SortedUnique(a[1..], b[1..], leq);
      SameSequence(a, b);
    }
  }

  lemma SameSequence<T>(a: seq<T>, b: seq<T>)
    requires a != [] && b != [] && a[0] == b[0] && a[1..] == b[1..]
    ensures a == b
  {
    assert a == [a[0]] + a[1..] && b == [b[0]] + b[1..];
  }

  lemma SortPermutation<T(!new)>(s: seq<T>, t: seq<T>, leq: (T, T) -> bool)
    requires TotalPreorder(leq) && AntisymmetricOn(s, leq) && multiset(s) == multiset(t)
    ensures SortBy(s, leq) == SortBy(t, leq)
  {
    SortByCorrect(s, leq);
    SortByCorrect(t, leq);
    SortedUnique(SortBy(s, leq), SortBy(t, leq), leq);
  }

  // ---- filtering ----

  function Where<T(!new)>(s: seq<T>, p: T -> bool): (r: seq<T>)
    ensures forall x :: x in r <==> x in s && p(x)
  {
    if s == [] then []
    else
      var n := |s| - 1;
      assert s == s[..n] + [s[n]];
      Where(s[..n], p) + (if p(s[n]) then [s[n]] else [])
  }

  lemma {:induction false} WhereMultiset<T(!new)>(s: seq<T>, p: T -> bool, x: T)
    ensures multiset(Where(s, p))[x] == if p(x) then multiset(s)[x] else 0
  {
    if s != [] {
      var n := |s| - 1;
      assert s == s[..n] + [s[n]];
      WhereMultiset(s[..n], p, x);
    }
  }

  lemma {:induction false} PointwiseEqual<T(!new)>(s: seq<T>, p: T -> bool, q: T -> bool)
    requires forall i | 0 <= i < |s| :: p(s[i]) == q(s[i])
    ensures Where(s, p) == Where(s, q)
  {
    if s != [] {
      PointwiseEqual(s[..|s| - 1], p, q);
    }
  }

  lemma KeepLast<T(!new)>(s: seq<T>, p: T -> bool)
    requires s != [] && p(s[|s| - 1])
    ensures Where(s, p) == Where(s[..|s| - 1], p) + [s[|s| - 1]]
  {
  }

  lemma LastApart<T>(s: seq<T>)
    requires s != []
    ensures s == s[..|s| - 1] + [s[|s| - 1]]
  {
  }

  lemma {:induction false} KeepAll<T(!new)>(s: seq<T>, p: T -> bool)
    requires forall x | x in s :: p(x)
    ensures Where(s, p) == s
  {
    if s != [] {
      KeepLast(s, p);
      hide Where;
      LastApart(s);
      KeepAll(s[..|s| - 1], p);
    }
  }

  lemma SeenTwice<T>(s: seq<T>, i: nat, j: nat)
    requires i < j < |s|
    ensures s[i] == s[j] ==> multiset(s)[s[i]] >= 2
  {
    assert s == s[..j] + s[j..];
    assert s[i] == s[..j][i] && s[j] == s[j..][0];
  }

  ghost predicate Distinct<T>(s: seq<T>) {
    forall i, j | 0 <= i < j < |s| :: s[i] != s[j]
  }

  lemma {:induction false} OnceEach<T(!new)>(s: seq<T>)
    requires Distinct(s)
    ensures forall x :: multiset(s)[x] <= 1
  {
    if s != [] {
      OnceEach(s[1..]);
      assert s == [s[0]] + s[1..];
      assert s[0] !in multiset(s[1..]);
    }
  }

  lemma RemoveOne<T>(b: seq<T>, i: nat)
    requires i < |b|
    ensures multiset(b[..i] + b[i + 1..]) == multiset(b) - multiset{b[i]}
  {
    assert b == b[..i] + [b[i]] + b[i + 1..];
  }

  /** Two lists without repetitions that hold the same elements hold them equally often. */
  lemma DistinctMultisets<T(!new)>(a: seq<T>, b: seq<T>)
    requires Distinct(a) && Distinct(b)
    requires forall x :: x in a <==> x in b
    ensures multiset(a) == multiset(b)
  {
    OnceEach(a);
    OnceEach(b);
    hide Distinct;
    forall x ensures multiset(a)[x] == multiset(b)[x] {
      assert x in a <==> x in multiset(a);
      assert x in b <==> x in multiset(b);
    }
  }

  lemma SetSizes<T>(a: set<T>, b: set<T>)
    requires a <= b
    ensures |a| <= |b|
  {
    if a != {} {
      var x :| x in a;
      SetSizes(a - {x}, b - {x});
    }
  }

  // ---- strings, compared character by character as Python and SQLite's BINARY collation do ----

  predicate StrLeq(a: string, b: string) {
    a == [] || (b != [] && (a[0] < b[0] || (a[0] == b[0] && StrLeq(a[1..], b[1..]))))
  }

  lemma {:induction false} StrTotal(a: string, b: string)
    ensures StrLeq(a, b) || StrLeq(b, a)
    ensures StrLeq(a, b) && StrLeq(b, a) ==> a == b
  {
    if a != [] && b != [] && a[0] == b[0] {
      StrTotal(a[1..], b[1..]);
      assert a == [a[0]] + a[1..] && b == [b[0]] + b[1..];
    }
  }

  lemma {:induction false} StrTransitive(a: string, b: string, c: string)
    requires StrLeq(a, b) && StrLeq(b, c)
    ensures StrLeq(a, c)
  {
    if a != [] && a[0] == b[0] == c[0] {
      StrTransitive(a[1..], b[1..], c[1..]);
    }
  }

  predicate IdLeq(a: Id, b: Id) {
    StrLeq(a.text, b.text)
  }

  lemma IdOrder()
    ensures TotalPreorder(IdLeq) && Antisymmetric(IdLeq)
  {
    forall a: Id, b: Id ensures IdLeq(a, b) || IdLeq(b, a)
      ensures IdLeq(a, b) && IdLeq(b, a) ==> a == b
    { StrTotal(a.text, b.text); }
    forall a: Id, b: Id, c: Id | IdLeq(a, b) && IdLeq(b, c) ensures IdLeq(a, c) {
      StrTransitive(a.text, b.text, c.text);
    }
  }

  // ---- sorted listings of finite sets of ids ----

  /** `tuple(sorted(s))` */
  ghost function Sorted(s: set<Id>): (r: seq<Id>)
    ensures multiset(r) == multiset(s)
    decreases s
  {
    if s == {} then [] else
      var x :| x in s;
      assert multiset(s) == multiset{x} + multiset(s - {x});
      Insert(x, Sorted(s - {x}), IdLeq)
  }

  lemma {:induction false} SortedIsOrdered(s: set<Id>)
    ensures SortedBy(Sorted(s), IdLeq)
    ensures |Sorted(s)| == |s|
    ensures forall x :: x in Sorted(s) <==> x in s
    decreases s
  {
    IdOrder();
    if s != {} {
      var x :| x in s && Sorted(s) == Insert(x, Sorted(s - {x}), IdLeq);
      SortedIsOrdered(s - {x});
      InsertKeepsOrder(x, Sorted(s - {x}), IdLeq);
    }
    assert |multiset(Sorted(s))| == |multiset(s)|;
    forall x ensures x in Sorted(s) <==> x in s {
      assert x in Sorted(s) <==> x in multiset(Sorted(s));
    }
  }

  lemma SortedIsDistinct(s: set<Id>)
    ensures Distinct(Sorted(s))
  {
    var ids := Sorted(s);
    forall i, j | 0 <= i < j < |ids| ensures ids[i] != ids[j] {
      SeenTwice(ids, i, j);
      assert multiset(s)[ids[i]] <= 1;
    }
  }

  method SortSet(s: set<Id>) returns (r: seq<Id>)
    ensures r == Sorted(s)
    ensures forall x :: x in r <==> x in s
  {
    var rest, items: seq<Id> := s, [];
    while rest != {}
      invariant rest <= s && multiset(items) == multiset(s - rest)
    {
      var x :| x in rest;
      assert multiset(s - (rest - {x})) == multiset(s - rest) + multiset{x};
      items := items + [x];
      rest := rest - {x};
    }
    assert s - rest == s;
    IdOrder();
    r := SortBy(items, IdLeq);
    SortByCorrect(items, IdLeq);
    SortedIsOrdered(s);
    SortedUnique(r, Sorted(s), IdLeq);
  }
}
