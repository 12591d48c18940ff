/** Tie-averaged ranks: `_ranks` of src/openfundscore/walk_forward.py. */
module Ranking {
  import opened Prelude
  import opened Ordering

  datatype Entry = Entry(id: Id, value: real)

  /** The sort key `(-value, id)`. */
  predicate EntryLeq(a: Entry, b: Entry) {
    a.value > b.value || (a.value == b.value && IdLeq(a.id, b.id))
  }

  lemma EntryOrder()
    ensures TotalPreorder(EntryLeq) && Antisymmetric(EntryLeq)
  {
    IdOrder();
  }

  function Above(vs: seq<real>, v: real): nat {
    if vs == [] then 0 else Above(vs[..|vs| - 1], v) + (if vs[|vs| - 1] > v then 1 else 0)
  }

  function Tied(vs: seq<real>, v: real): nat {
    if vs == [] then 0 else Tied(vs[..|vs| - 1], v) + (if vs[|vs| - 1] == v then 1 else 0)
  }

  /** One plus the number strictly above, shared equally among ties. */
  function RankIn(vs: seq<real>, v: real): real {
    Above(vs, v) as real + (Tied(vs, v) + 1) as real / 2.0
  }

  function ValuesOf(values: map<Id, real>, ids: seq<Id>): (vs: seq<real>)
    requires forall id | id in ids :: id in values
    ensures |vs| == |ids| && forall i | 0 <= i < |ids| :: vs[i] == values[ids[i]]
  {
    seq(|ids|, i requires 0 <= i < |ids| => values[ids[i]])
  }

  function Entries(values: map<Id, real>, ids: seq<Id>): (es: seq<Entry>)
    requires forall id | id in ids :: id in values
    ensures |es| == |ids| && forall i | 0 <= i < |ids| :: es[i] == Entry(ids[i], values[ids[i]])
  {
    seq(|ids|, i requires 0 <= i < |ids| => Entry(ids[i], values[ids[i]]))
  }

  function Values(es: seq<Entry>): (vs: seq<real>)
    ensures |vs| == |es| && forall i | 0 <= i < |es| :: vs[i] == es[i].value
  {
    seq(|es|, i requires 0 <= i < |es| => es[i].value)
  }

  // ---- counting does not depend on the arrangement ----

  lemma {:induction false} CountSplit(a: seq<real>, b: seq<real>, v: real)
    ensures Above(a + b, v) == Above(a, v) + Above(b, v)
    ensures Tied(a + b, v) == Tied(a, v) + Tied(b, v)
  {
    if b == [] {
      assert a + b == a;
    } else {
      CountSplit(a, b[..|b| - 1], v);
      assert (a + b)[..|a + b| - 1] == a + b[..|b| - 1];
    }
  }

  lemma CountRemove(b: seq<Entry>, i: nat, v: real)
    requires i < |b|
    ensures Above(Values(b), v) == Above(Values(b[..i] + b[i + 1..]), v) + (if b[i].value > v then 1 else 0)
    ensures Tied(Values(b), v) == Tied(Values(b[..i] + b[i + 1..]), v) + (if b[i].value == v then 1 else 0)
  {
    var before, after := Values(b[..i]), Values(b[i + 1..]);
    assert Values(b) == before + ([b[i].value] + after);
    assert Values(b[..i] + b[i + 1..]) == before + after;
    CountSplit(before, [b[i].value] + after, v);
    CountSplit([b[i].value], after, v);
    CountSplit(before, after, v);
    CountOne(b[i].value, v);
  }

  lemma {:induction false} CountPermutation(a: seq<Entry>, b: seq<Entry>, v: real)
    requires multiset(a) == multiset(b)
    ensures Above(Values(a), v) == Above(Values(b), v)
    ensures Tied(Values(a), v) == Tied(Values(b), v)
    decreases |a|
  {
    SameMembers(a, b);
    if a != [] {
      var n := |a| - 1;
      assert a[n] in a;
      var i :| 0 <= i < |b| && b[i] == a[n];
      RemoveOne(b, i);
      RemoveOne(a, n);
      CountPermutation(a[..n] + a[n + 1..], b[..i] + b[i + 1..], v);
      CountRemove(a, n, v);
      CountRemove(b, i, v);
    }
  }

  lemma CountOne(x: real, v: real)
    ensures Above([x], v) == (if x > v then 1 else 0) && Tied([x], v) == (if x == v then 1 else 0)
  {
    assert [x][..0] == [];
  }

  /** In a descending list the values above and tied with position `i` form two adjacent blocks. */
  lemma {:induction false} CountDescending(vs: seq<real>, lo: nat, hi: nat, v: real)
    requires lo <= hi <= |vs|
    requires forall i | 0 <= i < lo :: vs[i] > v
    requires forall i | lo <= i < hi :: vs[i] == v
    requires forall i | hi <= i < |vs| :: vs[i] < v
    ensures Above(vs, v) == lo && Tied(vs, v) == hi - lo
  {
    if vs != [] {
      var n := |vs| - 1;
      CountDescending(vs[..n], if lo <= n then lo else n, if hi <= n then hi else n, v);
    }
  }

  /** Every identifier gets the tie-averaged rank of its value. */
  method Ranks(values: map<Id, real>, identifiers: seq<Id>) returns (result: map<Id, real>)
    requires forall id | id in identifiers :: id in values
    ensures result.Keys == set id | id in identifiers
    ensures forall id | id in identifiers :: result[id] == RankIn(ValuesOf(values, identifiers), values[id])
  {
    hide SortBy, EntryLeq, TotalPreorder;
    var entries := Entries(values, identifiers);
    EntryOrder();
    SortByCorrect(entries, EntryLeq);
    var ordered := SortBy(entries, EntryLeq);
    OrderedHolds(values, identifiers, ordered);
    hide SortedBy;
    result := map[];
    var index := 0;
    while index < |ordered|
      invariant index <= |ordered|
      invariant 0 < index < |ordered| ==> ordered[index - 1].value > ordered[index].value
      invariant Ranked(values, identifiers, ordered, index, result)
    {
      index, result := RankBlock(values, identifiers, ordered, index, result);
    }
    forall id | id in identifiers ensures id in result {
      var j :| 0 <= j < |ordered| && ordered[j] == Entry(id, values[id]);
      assert ordered[j].id == id;
    }
  }

  /** One tie block: its members share the average of the places it spans. */
  method RankBlock(ghost values: map<Id, real>, ghost identifiers: seq<Id>, ordered: seq<Entry>, index: nat, before: map<Id, real>)
    returns (end: nat, result: map<Id, real>)
    requires forall id | id in identifiers :: id in values
    requires SortedBy(ordered, EntryLeq) && multiset(ordered) == multiset(Entries(values, identifiers))
    requires forall j | 0 <= j < |ordered| :: ordered[j].id in identifiers && ordered[j].value == values[ordered[j].id]
    requires index < |ordered| && (index > 0 ==> ordered[index - 1].value > ordered[index].value)
    requires Ranked(values, identifiers, ordered, index, before)
    ensures index < end <= |ordered| && (end < |ordered| ==> ordered[end - 1].value > ordered[end].value)
    ensures Ranked(values, identifiers, ordered, end, result)
  {
    end := BlockEnd(ordered, index);
    var average := (index + 1 + end) as real / 2.0;
    BlockRank(Entries(values, identifiers), ordered, index, end);
    assert ValuesOf(values, identifiers) == Values(Entries(values, identifiers));
    result := before;
    for j := index to end
      invariant Ranked(values, identifiers, ordered, j, result)
    {
      RankOne(values, identifiers, ordered, j, result);
      result := result[ordered[j].id := average];
    }
  }

  /** Once the first `n` places are ranked, `result` holds exactly their identifiers, each with its rank. */
  ghost predicate Ranked(values: map<Id, real>, identifiers: seq<Id>, ordered: seq<Entry>, n: nat, result: map<Id, real>)
    requires n <= |ordered| && forall id | id in identifiers :: id in values
  {
    && (forall j | 0 <= j < n :: ordered[j].id in result)
    && (forall id | id in result :: id in identifiers && result[id] == RankIn(ValuesOf(values, identifiers), values[id]))
  }

  lemma RankOne(values: map<Id, real>, identifiers: seq<Id>, ordered: seq<Entry>, n: nat, result: map<Id, real>)
    requires n < |ordered| && forall id | id in identifiers :: id in values
    requires ordered[n].id in identifiers && values[ordered[n].id] == ordered[n].value
    requires Ranked(values, identifiers, ordered, n, result)
    ensures Ranked(values, identifiers, ordered, n + 1,
                   result[ordered[n].id := RankIn(ValuesOf(values, identifiers), ordered[n].value)])
  {
  }

  lemma OrderedHolds(values: map<Id, real>, identifiers: seq<Id>, ordered: seq<Entry>)
    requires forall id | id in identifiers :: id in values
    requires multiset(ordered) == multiset(Entries(values, identifiers))
    ensures forall j | 0 <= j < |ordered| :: ordered[j].id in identifiers && ordered[j].value == values[ordered[j].id]
    ensures forall id | id in identifiers :: exists j | 0 <= j < |ordered| :: ordered[j] == Entry(id, values[id])
  {
    var entries := Entries(values, identifiers);
    SameMembers(ordered, entries);
    forall j | 0 <= j < |ordered| ensures ordered[j].id in identifiers && ordered[j].value == values[ordered[j].id] {
      assert ordered[j] in entries;
      var i :| 0 <= i < |entries| && entries[i] == ordered[j];
      assert identifiers[i] in identifiers;
    }
    forall id | id in identifiers ensures exists j | 0 <= j < |ordered| :: ordered[j] == Entry(id, values[id]) {
      var i :| 0 <= i < |identifiers| && identifiers[i] == id;
      assert entries[i] in ordered;
    }
  }

  method BlockEnd(ordered: seq<Entry>, index: nat) returns (end: nat)
    requires index < |ordered| && SortedBy(ordered, EntryLeq)
    ensures index < end <= |ordered|
    ensures forall j | index <= j < end :: ordered[j].value == ordered[index].value
    ensures end < |ordered| ==> ordered[end - 1].value > ordered[end].value
  {
    end := index + 1;
    while end < |ordered| && ordered[end].value == ordered[index].value
      invariant index < end <= |ordered|
      invariant forall j | index <= j < end :: ordered[j].value == ordered[index].value
    {
      end := end + 1;
    }
    if end < |ordered| {
      assert EntryLeq(ordered[end - 1], ordered[end]);
    }
  }

  lemma BlockRank(entries: seq<Entry>, ordered: seq<Entry>, index: nat, end: nat)
    requires SortedBy(ordered, EntryLeq) && multiset(entries) == multiset(ordered)
    requires index < end <= |ordered|
    requires index > 0 ==> ordered[index - 1].value > ordered[index].value
    requires forall j | index <= j < end :: ordered[j].value == ordered[index].value
    requires end < |ordered| ==> ordered[end - 1].value > ordered[end].value
    ensures RankIn(Values(entries), ordered[index].value) == (index + 1 + end) as real / 2.0
  {
    var v := ordered[index].value;
    forall i | 0 <= i < index ensures Values(ordered)[i] > v {
      assert i < index - 1 ==> EntryLeq(ordered[i], ordered[index - 1]);
    }
    forall i | end <= i < |ordered| ensures Values(ordered)[i] < v {
      assert end < i ==> EntryLeq(ordered[end], ordered[i]);
      assert ordered[end - 1].value == v;
    }
    CountDescending(Values(ordered), index, end, v);
    CountPermutation(entries, ordered, v);
  }

  // ---- ranks add up ----

  function Sum(xs: seq<real>): real {
    if xs == [] then 0.0 else Sum(xs[..|xs| - 1]) + xs[|xs| - 1]
  }

  function RankVector(vs: seq<real>): (r: seq<real>)
    ensures |r| == |vs| && forall i | 0 <= i < |vs| :: r[i] == RankIn(vs, vs[i])
  {
    seq(|vs|, i requires 0 <= i < |vs| => RankIn(vs, vs[i]))
  }

  /** Twice the values above plus the ties: the duel score of `v` against `vs`, from the loser's side. */
  function Duels(vs: seq<real>, v: real): int {
    2 * Above(vs, v) + Tied(vs, v)
  }

  function AllDuels(us: seq<real>, vs: seq<real>): int {
    if us == [] then 0 else AllDuels(us[..|us| - 1], vs) + Duels(vs, us[|us| - 1])
  }

  lemma {:induction false} DuelsAgainstOne(us: seq<real>, v: real)
    ensures AllDuels(us, [v]) + Duels(us, v) == 2 * |us|
  {
    if us != [] {
      DuelsAgainstOne(us[..|us| - 1], v);
      CountOne(v, us[|us| - 1]);
    }
  }

  lemma {:induction false} AllDuelsSplit(us: seq<real>, vs: seq<real>, v: real)
    ensures AllDuels(us, vs + [v]) == AllDuels(us, vs) + AllDuels(us, [v])
  {
    if us != [] {
      AllDuelsSplit(us[..|us| - 1], vs, v);
      CountSplit(vs, [v], us[|us| - 1]);
    }
  }

  lemma {:induction false} DuelsBalance(us: seq<real>, vs: seq<real>)
    ensures AllDuels(us, vs) + AllDuels(vs, us) == 2 * |us| * |vs|
  {
    if us == [] {
      NoDuels(vs);
    } else {
      var n := |us| - 1;
      DuelsBalance(us[..n], vs);
      AllDuelsSplit(vs, us[..n], us[n]);
      DuelsAgainstOne(vs, us[n]);
      assert us == us[..n] + [us[n]];
      assert 2 * n * |vs| + 2 * |vs| == 2 * (n + 1) * |vs|;
    }
  }

  lemma {:induction false} NoDuels(vs: seq<real>)
    ensures AllDuels(vs, []) == 0
  {
    if vs != [] {
      NoDuels(vs[..|vs| - 1]);
    }
  }

  lemma {:induction false} RankSumByDuels(us: seq<real>, vs: seq<real>, ranks: seq<real>)
    requires |ranks| == |us| && forall i | 0 <= i < |us| :: ranks[i] == RankIn(vs, us[i])
    ensures 2.0 * Sum(ranks) == (AllDuels(us, vs) + |us|) as real
  {
    if us != [] {
      var n := |us| - 1;
      RankSumByDuels(us[..n], vs, ranks[..n]);
    }
  }

  /** Tie-averaging keeps the total: the ranks of `n` values always sum to n(n+1)/2. */
  lemma RanksSum(vs: seq<real>)
    ensures 2.0 * Sum(RankVector(vs)) == (|vs| * (|vs| + 1)) as real
  {
    RankSumByDuels(vs, vs, RankVector(vs));
    DuelsBalance(vs, vs);
  }

  // ---- ranks order items as their values do ----

  lemma {:induction false} HigherRanksFirst(vs: seq<real>, u: real, v: real)
    requires u > v
    ensures Above(vs, u) + Tied(vs, u) <= Above(vs, v)
  {
    if vs != [] {
      HigherRanksFirst(vs[..|vs| - 1], u, v);
    }
  }

  lemma {:induction false} TiedWithItself(vs: seq<real>, i: nat)
    requires i < |vs|
    ensures Tied(vs, vs[i]) >= 1
  {
    if i < |vs| - 1 {
      TiedWithItself(vs[..|vs| - 1], i);
    }
  }

  lemma RanksReflectValues(vs: seq<real>, i: nat, j: nat)
    requires i < |vs| && j < |vs|
    ensures vs[i] > vs[j] <==> RankVector(vs)[i] < RankVector(vs)[j]
  {
    TiedWithItself(vs, i);
    TiedWithItself(vs, j);
    if vs[i] > vs[j] {
      HigherRanksFirst(vs, vs[i], vs[j]);
    } else if vs[j] > vs[i] {
      HigherRanksFirst(vs, vs[j], vs[i]);
    }
  }

  ghost predicate SameOrder(xs: seq<real>, ys: seq<real>) {
    |xs| == |ys| && forall i, j | 0 <= i < |xs| && 0 <= j < |xs| :: xs[i] > xs[j] <==> ys[i] > ys[j]
  }

  lemma {:induction false} SameOrderCounts(xs: seq<real>, ys: seq<real>, x: real, y: real)
    requires |xs| == |ys|
    requires forall i | 0 <= i < |xs| :: (xs[i] > x <==> ys[i] > y) && (xs[i] == x <==> ys[i] == y)
    ensures RankIn(xs, x) == RankIn(ys, y)
    ensures Above(xs, x) == Above(ys, y) && Tied(xs, x) == Tied(ys, y)
  {
    if xs != [] {
      SameOrderCounts(xs[..|xs| - 1], ys[..|ys| - 1], x, y);
    }
  }

  /** Ranks depend only on the order of the values, and determine it. */
  lemma SameOrderSameRanks(xs: seq<real>, ys: seq<real>)
    requires |xs| == |ys|
    ensures SameOrder(xs, ys) <==> RankVector(xs) == RankVector(ys)
  {
    if SameOrder(xs, ys) {
      forall j | 0 <= j < |xs| ensures RankIn(xs, xs[j]) == RankIn(ys, ys[j]) {
        forall i | 0 <= i < |xs| ensures (xs[i] > xs[j] <==> ys[i] > ys[j]) && (xs[i] == xs[j] <==> ys[i] == ys[j]) {
          assert xs[j] > xs[i] <==> ys[j] > ys[i];
        }
        SameOrderCounts(xs, ys, xs[j], ys[j]);
      }
    }
    if RankVector(xs) == RankVector(ys) {
      forall i, j | 0 <= i < |xs| && 0 <= j < |xs| ensures xs[i] > xs[j] <==> ys[i] > ys[j] {
        RanksReflectValues(xs, i, j);
        RanksReflectValues(ys, i, j);
      }
    }
  }
}
