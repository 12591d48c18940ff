/**
  `_sensitivity_diagnostics` of src/openfundscore/walk_forward.py: leave each score component out, in
  turn and without refitting, and compare the selection and the ranks that result with the frozen ones.
 */
module Sensitivity {
  import opened Prelude
  import opened Ordering
  import opened Ranking
  import opened Stability
  import opened WalkForward
  import O = Outcomes

  datatype Scenario =
    | InsufficientCoverage(omitted: Id, sampleSize: nat)
    | Estimated(omitted: Id, selected: seq<Id>, ranks: map<Id, real>, turnover: Metric, correlation: Metric, meanDelta: Option<real>)

  datatype Diagnostics = Diagnostics(baseline: map<Id, real>, scenarios: seq<Scenario>)

  // ---- the specification ----

  /** `_component_values(audit).get(name)`: a dictionary keeps the last of equal names; `None` is missing or unknown. */
  function ContributionOf(cs: seq<Component>, name: Id): Option<real> {
    if cs == [] then None
    else if cs[|cs| - 1].name == name then cs[|cs| - 1].contribution
    else ContributionOf(cs[..|cs| - 1], name)
  }

  function ComponentNames(audits: map<Id, Audit>): set<Id> {
    set sid, i | sid in audits && 0 <= i < |audits[sid].components| :: audits[sid].components[i].name
  }

  /** Every scored strategy, and no other, is audited and contributes a known amount. */
  predicate Covered(scores: map<Id, real>, audits: map<Id, Audit>, name: Id) {
    audits.Keys == scores.Keys && forall sid | sid in audits :: ContributionOf(audits[sid].components, name).Some?
  }

  function Contributions(scores: map<Id, real>, audits: map<Id, Audit>, name: Id): (m: map<Id, real>)
    requires Covered(scores, audits, name)
    ensures m.Keys == scores.Keys
  {
    map sid | sid in scores :: ContributionOf(audits[sid].components, name).value
  }

  function Perturbed(scores: map<Id, real>, contributions: map<Id, real>): (m: map<Id, real>)
    requires contributions.Keys == scores.Keys
    ensures m.Keys == scores.Keys && forall sid | sid in m :: m[sid] == scores[sid] - contributions[sid]
  {
    map sid | sid in scores :: scores[sid] - contributions[sid]
  }

  predicate Within(ids: seq<Id>, values: map<Id, real>) {
    forall i | 0 <= i < |ids| :: ids[i] in values
  }

  function BestOf(values: map<Id, real>, ids: seq<Id>, count: int): seq<Id>
    requires Within(ids, values)
  {
    Select(Entries(values, ids), count)
  }

  function RanksOf(values: map<Id, real>, ids: seq<Id>): map<Id, real>
    requires Within(ids, values)
  {
    map id | id in values :: RankIn(ValuesOf(values, ids), values[id])
  }

  /** `tuple(sorted(values))` */
  ghost function Listed(values: map<Id, real>): (ids: seq<Id>)
    ensures Within(ids, values) && |ids| == |values| && forall id :: id in ids <==> id in values
  {
    SortedIsOrdered(values.Keys);
    assert |values| == |values.Keys|;
    Sorted(values.Keys)
  }

  /** The best `count` keys of a score dictionary. */
  ghost function Best(values: map<Id, real>, count: int): seq<Id> {
    BestOf(values, Listed(values), count)
  }

  ghost function RankMap(values: map<Id, real>): map<Id, real> {
    RanksOf(values, Listed(values))
  }

  function MeanAt(values: map<Id, real>, ids: seq<Id>): real
    requires ids != [] && Within(ids, values)
  {
    O.Mean(ValuesOf(values, ids))
  }

  function MeanDelta(scores: map<Id, real>, selected: seq<Id>, perturbed: map<Id, real>, chosen: seq<Id>): Option<real>
    requires Within(selected, scores) && Within(chosen, perturbed)
  {
    if selected == [] || chosen == [] then None else Some(MeanAt(perturbed, chosen) - MeanAt(scores, selected))
  }

  ghost function ScenarioOf(scores: map<Id, real>, audits: map<Id, Audit>, selected: seq<Id>, count: int, name: Id): Scenario
    requires Within(selected, scores)
  {
    if !Covered(scores, audits, name) then InsufficientCoverage(name, |scores|)
    else
      var perturbed := Perturbed(scores, Contributions(scores, audits, name));
      var chosen := Best(perturbed, count);
      BestShape(perturbed, count);
      Estimated(name, chosen, RankMap(perturbed), Turnover(Some(selected), chosen), StabilityOf(Some(scores), perturbed),
                MeanDelta(scores, selected, perturbed, chosen))
  }

  // ---- what is selected ----

  lemma EntriesDistinct(values: map<Id, real>, ids: seq<Id>)
    requires Distinct(ids) && Within(ids, values)
    ensures Distinct(Entries(values, ids))
  {
  }

  lemma ListedIsDistinct(values: map<Id, real>)
    ensures Distinct(Listed(values))
  {
    SortedIsDistinct(values.Keys);
  }

  /** The ordering that `BestOf` cuts: every key once, with its value. */
  lemma OrderedEntries(values: map<Id, real>, ids: seq<Id>) returns (ordered: seq<Entry>)
    requires Within(ids, values) && Distinct(ids)
    ensures ordered == SortBy(Entries(values, ids), EntryLeq) && SortedBy(ordered, EntryLeq) && |ordered| == |ids|
    ensures forall i | 0 <= i < |ordered| :: ordered[i].id in ids && ordered[i].id in values && ordered[i].value == values[ordered[i].id]
    ensures forall i, j | 0 <= i < j < |ordered| :: ordered[i].id != ordered[j].id
    ensures forall id | id in ids :: exists i | 0 <= i < |ordered| :: ordered[i] == Entry(id, values[id])
  {
    var entries := Entries(values, ids);
    EntriesDistinct(values, ids);
    OnceEach(entries);
    EntryOrder();
    SortByCorrect(entries, EntryLeq);
    ordered := SortBy(entries, EntryLeq);
    OrderedHolds(values, ids, ordered);
    hide SortBy, SortedBy, EntryLeq, TotalPreorder, Antisymmetric, Distinct;
    forall i, j | 0 <= i < j < |ordered| ensures ordered[i].id != ordered[j].id {
      SeenTwice(ordered, i, j);
      assert multiset(ordered)[ordered[i]] <= 1;
    }
  }

  lemma BestOfShape(values: map<Id, real>, ids: seq<Id>, count: int)
    requires Within(ids, values) && Distinct(ids)
    ensures var chosen := BestOf(values, ids, count);
            && |chosen| == (if 0 <= count < |ids| then count else |ids|)
            && Within(chosen, values) && Distinct(chosen)
            && forall a, b | a in chosen && b in ids && b !in chosen :: values[a] >= values[b]
  {
    hide SortBy, Entries, Select, EntryLeq, Sorted;
    var ordered := OrderedEntries(values, ids);
    SelectIsPrefix(Entries(values, ids), count);
    var chosen := BestOf(values, ids, count);
    assert forall i | 0 <= i < |chosen| :: ordered[i].id in chosen by {
      assert forall i | 0 <= i < |chosen| :: chosen[i] == ordered[i].id;
    }
    hide BestOf;
    forall a, b | a in chosen && b in ids && b !in chosen ensures values[a] >= values[b] {
      var i :| 0 <= i < |chosen| && chosen[i] == a;
      var j :| 0 <= j < |ordered| && ordered[j] == Entry(b, values[b]);
      assert j >= |chosen|;
      assert EntryLeq(ordered[i], ordered[j]);
      FirstIsHigher(ordered[i], ordered[j]);
    }
  }

  lemma FirstIsHigher(a: Entry, b: Entry)
    requires EntryLeq(a, b)
    ensures a.value >= b.value
  {
  }

  lemma SelectIsPrefix(entries: seq<Entry>, count: int)
    ensures var ordered, chosen := SortBy(entries, EntryLeq), Select(entries, count);
            && |chosen| == (if 0 <= count < |entries| then count else |entries|)
            && forall i | 0 <= i < |chosen| :: chosen[i] == ordered[i].id
  {
    hide SortBy, EntryLeq;
  }

  /** As many as asked for, each once, none left out with a higher score. */
  lemma BestShape(values: map<Id, real>, count: int)
    ensures var chosen := Best(values, count);
            && |chosen| == (if 0 <= count < |values| then count else |values|)
            && Within(chosen, values) && Distinct(chosen)
            && forall a, b | a in chosen && b in values && b !in chosen :: values[a] >= values[b]
  {
    hide BestOf, Listed, Within, Distinct;
    ListedIsDistinct(values);
    BestOfShape(values, Listed(values), count);
  }

  // ---- the selection a fold freezes is the best of its score dictionary ----

  ghost predicate IdsDistinct(scores: seq<Entry>) {
    forall i, j | 0 <= i < j < |scores| :: scores[i].id != scores[j].id
  }

  lemma {:induction false} ScoreMapHolds(scores: seq<Entry>)
    requires IdsDistinct(scores)
    ensures forall i | 0 <= i < |scores| :: scores[i].id in ScoreMap(scores) && ScoreMap(scores)[scores[i].id] == scores[i].value
    ensures forall id | id in ScoreMap(scores) :: Entry(id, ScoreMap(scores)[id]) in scores
  {
    if scores != [] {
      var n := |scores| - 1;
      ScoreMapHolds(scores[..n]);
      assert scores == scores[..n] + [scores[n]];
      assert forall i | 0 <= i < n :: scores[..n][i] == scores[i];
    }
  }

  lemma EntriesOfMap(scores: seq<Entry>)
    requires IdsDistinct(scores)
    ensures var m := ScoreMap(scores); multiset(Entries(m, Listed(m))) == multiset(scores)
  {
    assert Distinct(scores);
    ScoreMapHolds(scores);
    hide ScoreMap;
    var m := ScoreMap(scores);
    var ids := Listed(m);
    ListedIsDistinct(m);
    EntriesDistinct(m, ids);
    hide Listed, Distinct;
    EntriesMembers(scores, m, ids);
    hide IdsDistinct;
    DistinctMultisets(Entries(m, ids), scores);
  }

  lemma EntriesMembers(scores: seq<Entry>, m: map<Id, real>, ids: seq<Id>)
    requires Within(ids, m) && forall id | id in m :: id in ids
    requires forall i | 0 <= i < |scores| :: scores[i].id in m && m[scores[i].id] == scores[i].value
    requires forall id | id in m :: Entry(id, m[id]) in scores
    ensures forall e :: e in Entries(m, ids) <==> e in scores
  {
    var entries := Entries(m, ids);
    forall e ensures e in entries <==> e in scores {
      if e in scores {
        var i :| 0 <= i < |scores| && scores[i] == e;
        var k :| 0 <= k < |ids| && ids[k] == e.id;
        assert entries[k] == e;
      }
    }
  }

  /** What a fold selects from its score list is the best of the dictionary the diagnostics start from. */
  lemma FrozenSelectionIsBest(scores: seq<Entry>, count: int)
    requires IdsDistinct(scores)
    ensures Best(ScoreMap(scores), count) == Select(scores, count)
  {
    hide ScoreMap, Listed, Entries, IdsDistinct, EntryLeq;
    var m := ScoreMap(scores);
    EntriesOfMap(scores);
    EntryOrder();
    SortPermutation(Entries(m, Listed(m)), scores, EntryLeq);
  }

  // ---- the best selection maximises the sum ----

  function SumBy(ids: seq<Id>, f: Id -> real): real {
    if ids == [] then 0.0 else SumBy(ids[..|ids| - 1], f) + f(ids[|ids| - 1])
  }

  lemma {:induction false} SumByWithout(ids: seq<Id>, f: Id -> real, i: nat)
    requires i < |ids|
    ensures SumBy(ids, f) == SumBy(ids[..i] + ids[i + 1..], f) + f(ids[i])
  {
    var n := |ids| - 1;
    if i == n {
      assert ids[..i] + ids[i + 1..] == ids[..n];
    } else {
      SumByWithout(ids[..n], f, i);
      var rest := ids[..i] + ids[i + 1..];
      assert rest[..|rest| - 1] == ids[..n][..i] + ids[..n][i + 1..];
      assert rest[|rest| - 1] == ids[n];
    }
  }

  lemma {:induction false} NonNegativeSumBy(ids: seq<Id>, f: Id -> real)
    requires forall i | 0 <= i < |ids| :: f(ids[i]) >= 0.0
    ensures SumBy(ids, f) >= 0.0
  {
    if ids != [] {
      NonNegativeSumBy(ids[..|ids| - 1], f);
    }
  }

  /** A list without repetitions cannot outweigh one that holds every gain and no loss. */
  lemma {:induction false} GainsDominate(chosen: seq<Id>, other: seq<Id>, f: Id -> real)
    requires Distinct(other)
    requires forall x | x in chosen :: f(x) >= 0.0
    requires forall j | 0 <= j < |other| :: other[j] in chosen || f(other[j]) <= 0.0
    ensures SumBy(other, f) <= SumBy(chosen, f)
    decreases |other|
  {
    if other == [] {
      NonNegativeSumBy(chosen, f);
    } else {
      var n := |other| - 1;
      var x := other[n];
      if x in chosen {
        var i :| 0 <= i < |chosen| && chosen[i] == x;
        SumByWithout(chosen, f, i);
        Removed(chosen, i);
        GainsDominate(chosen[..i] + chosen[i + 1..], other[..n], f);
      } else {
        GainsDominate(chosen, other[..n], f);
      }
    }
  }

  lemma Removed(ids: seq<Id>, i: nat)
    requires i < |ids|
    ensures forall x | x in ids && x != ids[i] :: x in ids[..i] + ids[i + 1..]
    ensures forall x | x in ids[..i] + ids[i + 1..] :: x in ids
  {
    assert ids == ids[..i] + [ids[i]] + ids[i + 1..];
  }

  function Excess(values: map<Id, real>, level: real): Id -> real {
    id => (if id in values then values[id] else 0.0) - level
  }

  lemma {:induction false} ExcessSum(values: map<Id, real>, ids: seq<Id>, level: real)
    requires Within(ids, values)
    ensures SumBy(ids, Excess(values, level)) == Sum(ValuesOf(values, ids)) - Times(|ids| as real, level)
  {
    if ids != [] {
      var n := |ids| - 1;
      ExcessSum(values, ids[..n], level);
      assert ValuesOf(values, ids)[..n] == ValuesOf(values, ids[..n]);
      assert (n as real + 1.0) * level == n as real * level + level;
    }
  }

  /** No list of as many different strategies has a larger total score than the best selection. */
  lemma BestIsOptimal(values: map<Id, real>, count: int, other: seq<Id>)
    requires Within(other, values) && Distinct(other) && |other| == |Best(values, count)|
    ensures Within(Best(values, count), values)
    ensures Sum(ValuesOf(values, other)) <= Sum(ValuesOf(values, Best(values, count)))
  {
    hide Best, Distinct, Within, Sum;
    BestShape(values, count);
    if other == [] {
      assert ValuesOf(values, other) == ValuesOf(values, Best(values, count));
    } else {
      TopIsOptimal(values, Best(values, count), other);
    }
  }

  lemma TopIsOptimal(values: map<Id, real>, chosen: seq<Id>, other: seq<Id>)
    requires Within(chosen, values) && Within(other, values) && Distinct(other) && |other| == |chosen| > 0
    requires forall a, b | a in chosen && b in values && b !in chosen :: values[a] >= values[b]
    ensures Sum(ValuesOf(values, other)) <= Sum(ValuesOf(values, chosen))
  {
    hide Sum, SumBy, ValuesOf, Distinct, Times;
    var level := LowestOf(values, chosen);
    var f := Excess(values, level);
    forall x | x in chosen ensures f(x) >= 0.0 {
      var i :| 0 <= i < |chosen| && chosen[i] == x;
    }
    forall j | 0 <= j < |other| ensures other[j] in chosen || f(other[j]) <= 0.0 {
      var i :| 0 <= i < |chosen| && values[chosen[i]] == level;
      assert chosen[i] in chosen;
    }
    hide Excess;
    GainsDominate(chosen, other, f);
    ExcessSum(values, chosen, level);
    ExcessSum(values, other, level);
  }

  lemma {:induction false} LowestOf(values: map<Id, real>, ids: seq<Id>) returns (level: real)
    requires ids != [] && Within(ids, values)
    ensures forall i | 0 <= i < |ids| :: values[ids[i]] >= level
    ensures exists i | 0 <= i < |ids| :: values[ids[i]] == level
  {
    var n := |ids| - 1;
    if n == 0 {
      level := values[ids[0]];
    } else {
      level := LowestOf(values, ids[..n]);
      var k :| 0 <= k < n && values[ids[..n][k]] == level;
      if values[ids[n]] < level {
        level := values[ids[n]];
      } else {
        assert values[ids[k]] == level;
      }
    }
  }

  // ---- how far leaving a component out can move the mean score of the selection ----

  lemma SumOfLast(values: map<Id, real>, ids: seq<Id>)
    requires ids != [] && Within(ids, values)
    ensures Sum(ValuesOf(values, ids)) == Sum(ValuesOf(values, ids[..|ids| - 1])) + values[ids[|ids| - 1]]
  {
    assert ValuesOf(values, ids)[..|ids| - 1] == ValuesOf(values, ids[..|ids| - 1]);
  }

  lemma {:induction false} PerturbedSum(scores: map<Id, real>, contributions: map<Id, real>, ids: seq<Id>)
    requires contributions.Keys == scores.Keys && Within(ids, scores)
    ensures Sum(ValuesOf(Perturbed(scores, contributions), ids)) == Sum(ValuesOf(scores, ids)) - Sum(ValuesOf(contributions, ids))
  {
    if ids != [] {
      hide Sum, ValuesOf;
      PerturbedSum(scores, contributions, ids[..|ids| - 1]);
      SumOfLast(Perturbed(scores, contributions), ids);
      SumOfLast(scores, ids);
      SumOfLast(contributions, ids);
    }
  }

  lemma MeanIs(values: map<Id, real>, ids: seq<Id>)
    requires ids != [] && Within(ids, values)
    ensures MeanAt(values, ids) == Sum(ValuesOf(values, ids)) / |ids| as real
  {
  }

  lemma Quotients(a: real, b: real, c: real, n: real)
    requires n > 0.0 && a >= b - c
    ensures a / n - b / n >= -(c / n)
  {
    assert (a - b + c) / n >= 0.0;
    assert (a - b + c) / n == a / n - b / n + c / n;
  }

  /**
    Leaving a component out lowers the mean score of the selection by at most what the component gave the
    frozen selection on average, and by at least what it gives the perturbed selection on average.
   */
  lemma MeanDeltaBounds(scores: map<Id, real>, contributions: map<Id, real>, count: int)
    requires contributions.Keys == scores.Keys && Best(scores, count) != []
    ensures var perturbed := Perturbed(scores, contributions);
            var selected, chosen := Best(scores, count), Best(perturbed, count);
            && Within(selected, scores) && Within(chosen, scores) && chosen != []
            && -MeanAt(contributions, selected) <= MeanDelta(scores, selected, perturbed, chosen).value <= -MeanAt(contributions, chosen)
  {
    hide Best, MeanAt, Sum, ValuesOf, Select, Distinct;
    var perturbed := Perturbed(scores, contributions);
    BestShape(scores, count);
    BestShape(perturbed, count);
    SameKeysSameSize(scores, perturbed);
    var selected, chosen := Best(scores, count), Best(perturbed, count);
    assert Within(selected, scores) && Within(chosen, scores) && |selected| == |chosen|;
    BestIsOptimal(perturbed, count, selected);
    BestIsOptimal(scores, count, chosen);
    DeltaBetween(scores, contributions, selected, chosen);
  }

  lemma DeltaBetween(scores: map<Id, real>, contributions: map<Id, real>, selected: seq<Id>, chosen: seq<Id>)
    requires contributions.Keys == scores.Keys && Within(selected, scores) && Within(chosen, scores)
    requires |selected| == |chosen| > 0
    requires Sum(ValuesOf(scores, chosen)) <= Sum(ValuesOf(scores, selected))
    requires var perturbed := Perturbed(scores, contributions);
             Sum(ValuesOf(perturbed, selected)) <= Sum(ValuesOf(perturbed, chosen))
    ensures var perturbed := Perturbed(scores, contributions);
            -MeanAt(contributions, selected) <= MeanAt(perturbed, chosen) - MeanAt(scores, selected) <= -MeanAt(contributions, chosen)
  {
    hide MeanAt, Sum;
    var perturbed := Perturbed(scores, contributions);
    PerturbedSum(scores, contributions, selected);
    PerturbedSum(scores, contributions, chosen);
    MeanIs(perturbed, chosen);
    MeanIs(scores, selected);
    MeanIs(contributions, selected);
    MeanIs(contributions, chosen);
    var n := |selected| as real;
    Quotients(Sum(ValuesOf(perturbed, chosen)), Sum(ValuesOf(scores, selected)), Sum(ValuesOf(contributions, selected)), n);
    Quotients(Sum(ValuesOf(scores, selected)), Sum(ValuesOf(perturbed, chosen)), -Sum(ValuesOf(contributions, chosen)), n);
    NegatedQuotient(Sum(ValuesOf(contributions, chosen)), n);
  }

  lemma NegatedQuotient(x: real, n: real)
    requires n > 0.0
    ensures (-x) / n == -(x / n)
  {
  }

  lemma SameKeysSameSize(a: map<Id, real>, b: map<Id, real>)
    requires a.Keys == b.Keys
    ensures |a| == |b|
  {
    assert |a| == |a.Keys| && |b| == |b.Keys|;
  }

  // ---- a component that gives every strategy the same ----

  function Lower(es: seq<Entry>, c: real): (r: seq<Entry>)
    ensures |r| == |es| && forall i | 0 <= i < |es| :: r[i] == Entry(es[i].id, es[i].value - c)
  {
    seq(|es|, i requires 0 <= i < |es| => Entry(es[i].id, es[i].value - c))
  }

  lemma LowerLeq(x: Entry, y: Entry, c: real)
    ensures EntryLeq(Entry(x.id, x.value - c), Entry(y.id, y.value - c)) <==> EntryLeq(x, y)
  {
  }

  lemma {:induction false} LowerCounts(s: seq<Entry>, c: real, e: Entry)
    ensures multiset(Lower(s, c))[e] == multiset(s)[Entry(e.id, e.value + c)]
  {
    if s != [] {
      var n := |s| - 1;
      LowerCounts(s[..n], c, e);
      assert s == s[..n] + [s[n]];
      assert Lower(s, c) == Lower(s[..n], c) + [Entry(s[n].id, s[n].value - c)];
    }
  }

  lemma LowerKeepsCounts(a: seq<Entry>, b: seq<Entry>, c: real)
    requires multiset(a) == multiset(b)
    ensures multiset(Lower(a, c)) == multiset(Lower(b, c))
  {
    hide Lower;
    forall e: Entry ensures multiset(Lower(a, c))[e] == multiset(Lower(b, c))[e] {
      LowerCounts(a, c, e);
      LowerCounts(b, c, e);
    }
  }

  lemma LowerKeepsOrder(s: seq<Entry>, c: real)
    requires SortedBy(s, EntryLeq)
    ensures SortedBy(Lower(s, c), EntryLeq)
  {
    hide EntryLeq;
    forall i, j | 0 <= i < j < |s| ensures EntryLeq(Lower(s, c)[i], Lower(s, c)[j]) {
      LowerLeq(s[i], s[j], c);
    }
  }

  lemma SortLowered(s: seq<Entry>, c: real)
    ensures SortBy(Lower(s, c), EntryLeq) == Lower(SortBy(s, EntryLeq), c)
  {
    hide EntryLeq, Lower, SortBy, SortedBy, TotalPreorder;
    EntryOrder();
    SortByCorrect(s, EntryLeq);
    SortByCorrect(Lower(s, c), EntryLeq);
    LowerKeepsOrder(SortBy(s, EntryLeq), c);
    LowerKeepsCounts(SortBy(s, EntryLeq), s, c);
    SortedUnique(SortBy(Lower(s, c), EntryLeq), Lower(SortBy(s, EntryLeq), c), EntryLeq);
  }

  lemma SelectLowered(s: seq<Entry>, c: real, count: int)
    ensures Select(Lower(s, c), count) == Select(s, count)
  {
    SortLowered(s, c);
    hide SortBy;
    assert Select(Lower(s, c), count) == Select(s, count);
  }

  predicate Uniform(scores: map<Id, real>, contributions: map<Id, real>, c: real) {
    contributions.Keys == scores.Keys && forall id | id in contributions :: contributions[id] == c
  }

  lemma UniformSelectionOf(scores: map<Id, real>, contributions: map<Id, real>, c: real, ids: seq<Id>, count: int)
    requires Uniform(scores, contributions, c) && Within(ids, scores)
    ensures BestOf(Perturbed(scores, contributions), ids, count) == BestOf(scores, ids, count)
  {
    hide Select, SortBy;
    SelectLowered(Entries(scores, ids), c, count);
    assert Entries(Perturbed(scores, contributions), ids) == Lower(Entries(scores, ids), c);
  }

  lemma SameListing(a: map<Id, real>, b: map<Id, real>)
    requires a.Keys == b.Keys
    ensures Listed(a) == Listed(b)
  {
    hide Sorted;
  }

  lemma UniformSelection(scores: map<Id, real>, contributions: map<Id, real>, c: real, count: int)
    requires Uniform(scores, contributions, c)
    ensures Best(Perturbed(scores, contributions), count) == Best(scores, count)
  {
    hide BestOf, Listed;
    SameListing(scores, Perturbed(scores, contributions));
    UniformSelectionOf(scores, contributions, c, Listed(scores), count);
  }

  lemma UniformOrder(scores: map<Id, real>, contributions: map<Id, real>, c: real, ids: seq<Id>)
    requires Uniform(scores, contributions, c) && Within(ids, scores)
    ensures SameOrder(ValuesOf(scores, ids), ValuesOf(Perturbed(scores, contributions), ids))
    ensures RankVector(ValuesOf(scores, ids)) == RankVector(ValuesOf(Perturbed(scores, contributions), ids))
  {
    SameOrderSameRanks(ValuesOf(scores, ids), ValuesOf(Perturbed(scores, contributions), ids));
  }

  lemma UniformRank(scores: map<Id, real>, contributions: map<Id, real>, c: real, ids: seq<Id>, i: nat)
    requires Uniform(scores, contributions, c) && Within(ids, scores) && i < |ids|
    ensures var perturbed := Perturbed(scores, contributions);
            RankIn(ValuesOf(perturbed, ids), perturbed[ids[i]]) == RankIn(ValuesOf(scores, ids), scores[ids[i]])
  {
    hide RankIn;
    UniformOrder(scores, contributions, c, ids);
    assert RankVector(ValuesOf(scores, ids))[i] == RankVector(ValuesOf(Perturbed(scores, contributions), ids))[i];
  }

  lemma UniformRanksOf(scores: map<Id, real>, contributions: map<Id, real>, c: real, ids: seq<Id>)
    requires Uniform(scores, contributions, c) && Within(ids, scores) && forall id | id in scores :: id in ids
    ensures RanksOf(Perturbed(scores, contributions), ids) == RanksOf(scores, ids)
  {
    hide RankIn, ValuesOf;
    var perturbed := Perturbed(scores, contributions);
    forall id | id in scores ensures RankIn(ValuesOf(perturbed, ids), perturbed[id]) == RankIn(ValuesOf(scores, ids), scores[id]) {
      var i :| 0 <= i < |ids| && ids[i] == id;
      UniformRank(scores, contributions, c, ids, i);
    }
  }

  lemma UniformRanks(scores: map<Id, real>, contributions: map<Id, real>, c: real)
    requires Uniform(scores, contributions, c)
    ensures RankMap(Perturbed(scores, contributions)) == RankMap(scores)
  {
    hide RanksOf, Listed;
    SameListing(scores, Perturbed(scores, contributions));
    UniformRanksOf(scores, contributions, c, Listed(scores));
  }

  /** Perfect agreement, unless there are too few strategies or they are all tied. */
  predicate AgreesFully(m: Metric) {
    || m.InsufficientOverlap? || m.InsufficientVariation?
    || (m.Correlation? && m.numerator > 0.0 && Times(m.numerator, m.numerator) == Times(m.priorScale, m.currentScale))
  }

  lemma UniformSpearman(scores: map<Id, real>, contributions: map<Id, real>, c: real, ids: seq<Id>)
    requires Uniform(scores, contributions, c) && Within(ids, scores) && |ids| >= 2
    ensures AgreesFully(Spearman(ValuesOf(scores, ids), ValuesOf(Perturbed(scores, contributions), ids)))
  {
    hide Times, Spearman, SameOrder, ValuesOf;
    UniformOrder(scores, contributions, c, ids);
    var prior, current := ValuesOf(scores, ids), ValuesOf(Perturbed(scores, contributions), ids);
    SpearmanKind(prior, current);
    if Spearman(prior, current).Correlation? {
      PerfectCorrelation(prior, current);
    }
  }

  lemma SpearmanKind(prior: seq<real>, current: seq<real>)
    requires |prior| == |current| && |prior| >= 2
    ensures Spearman(prior, current).InsufficientVariation? || Spearman(prior, current).Correlation?
  {
    hide Times, Dot, Deviations, RankVector;
  }

  lemma UniformCorrelation(scores: map<Id, real>, contributions: map<Id, real>, c: real)
    requires Uniform(scores, contributions, c)
    ensures AgreesFully(StabilityOf(Some(scores), Perturbed(scores, contributions)))
  {
    hide Times, Spearman, Sorted, ValuesOf;
    var perturbed := Perturbed(scores, contributions);
    var common := Sorted(scores.Keys * perturbed.Keys);
    SortedIsOrdered(scores.Keys * perturbed.Keys);
    assert Within(common, scores) by { assert forall i | 0 <= i < |common| :: common[i] in common; }
    if |common| >= 2 {
      UniformSpearman(scores, contributions, c, common);
    }
  }

  lemma {:induction false} UniformSum(contributions: map<Id, real>, c: real, ids: seq<Id>)
    requires Within(ids, contributions) && forall id | id in contributions :: contributions[id] == c
    ensures Sum(ValuesOf(contributions, ids)) == |ids| as real * c
  {
    if ids != [] {
      var n := |ids| - 1;
      UniformSum(contributions, c, ids[..n]);
      SumOfLast(contributions, ids);
      assert (n as real + 1.0) * c == n as real * c + c;
    }
  }

  /**
    A component that contributes the same to every strategy is irrelevant to the choice: leaving it out keeps the
    selection, every rank and the order, has turnover 0, and moves the mean by exactly that amount.
   */
  lemma UniformComponentChangesNothing(scores: map<Id, real>, audits: map<Id, Audit>, count: int, name: Id, c: real)
    requires Covered(scores, audits, name) && Uniform(scores, Contributions(scores, audits, name), c)
    ensures Within(Best(scores, count), scores)
    ensures var selected := Best(scores, count);
            var s := ScenarioOf(scores, audits, selected, count, name);
            && s.Estimated? && s.selected == selected && s.ranks == RankMap(scores)
            && s.turnover.value == 0.0 && AgreesFully(s.correlation)
            && (selected != [] ==> s.meanDelta == Some(-c))
  {
    hide Best, RankMap, StabilityOf, Turnover, AgreesFully, Uniform, MeanAt, Covered, Distinct;
    var contributions := Contributions(scores, audits, name);
    var selected := Best(scores, count);
    BestShape(scores, count);
    UniformSelection(scores, contributions, c, count);
    UniformRanks(scores, contributions, c);
    UniformCorrelation(scores, contributions, c);
    NoTurnover(selected);
    if selected != [] {
      UniformMean(scores, contributions, c, selected);
    }
  }

  lemma NoTurnover(selected: seq<Id>)
    ensures Turnover(Some(selected), selected).Distance? && Turnover(Some(selected), selected).value == 0.0
  {
    TurnoverIsDistance(selected, selected);
  }

  lemma UniformMean(scores: map<Id, real>, contributions: map<Id, real>, c: real, ids: seq<Id>)
    requires Uniform(scores, contributions, c) && Within(ids, scores) && ids != []
    ensures MeanAt(Perturbed(scores, contributions), ids) - MeanAt(scores, ids) == -c
  {
    hide MeanAt, Sum;
    PerturbedSum(scores, contributions, ids);
    UniformSum(contributions, c, ids);
    MeanIs(Perturbed(scores, contributions), ids);
    MeanIs(scores, ids);
    LoweredQuotient(Sum(ValuesOf(Perturbed(scores, contributions), ids)), Sum(ValuesOf(scores, ids)), c, |ids| as real);
  }

  lemma LoweredQuotient(p: real, s: real, c: real, n: real)
    requires n > 0.0 && p == s - n * c
    ensures p / n - s / n == -c
  {
    var q := s / n;
    assert q * n == s;
    assert (q - c) * n == p;
    assert p / n == q - c;
  }

  // ---- what a scenario says ----

  /** A strategy contributes what the last of its components of that name says. */
  lemma {:induction false} LastOfTheName(cs: seq<Component>, name: Id) returns (i: nat)
    requires ContributionOf(cs, name).Some?
    ensures LastNamed(cs, name, i) && cs[i].contribution == ContributionOf(cs, name)
  {
    var n := |cs| - 1;
    if cs[n].name == name {
      i := n;
    } else {
      i := LastOfTheName(cs[..n], name);
      assert cs[..n][i] == cs[i];
    }
  }

  lemma {:induction false} NothingOfTheName(cs: seq<Component>, name: Id)
    requires forall i | 0 <= i < |cs| :: cs[i].name != name
    ensures ContributionOf(cs, name) == None
  {
    if cs != [] {
      NothingOfTheName(cs[..|cs| - 1], name);
    }
  }

  ghost predicate LastNamed(cs: seq<Component>, name: Id, i: int) {
    0 <= i < |cs| && cs[i].name == name && forall j | i < j < |cs| :: cs[j].name != name
  }

  /** The scores without the component: each strategy's less what its last component of that name contributes. */
  ghost predicate Omits(scores: map<Id, real>, audits: map<Id, Audit>, name: Id, without: map<Id, real>) {
    && without.Keys == scores.Keys == audits.Keys
    && forall sid | sid in scores ::
         exists i :: LastNamed(audits[sid].components, name, i) && audits[sid].components[i].contribution == Some(scores[sid] - without[sid])
  }

  lemma PerturbedOmits(scores: map<Id, real>, audits: map<Id, Audit>, name: Id)
    requires Covered(scores, audits, name)
    ensures Omits(scores, audits, name, Perturbed(scores, Contributions(scores, audits, name)))
  {
    hide ContributionOf;
    var without := Perturbed(scores, Contributions(scores, audits, name));
    forall sid | sid in scores
      ensures exists i :: LastNamed(audits[sid].components, name, i) && audits[sid].components[i].contribution == Some(scores[sid] - without[sid])
    {
      var i := LastOfTheName(audits[sid].components, name);
    }
  }

  /** The ranks of a score dictionary, by counting over its keys in order. */
  ghost predicate RanksByCounting(values: map<Id, real>, ranks: map<Id, real>) {
    && ranks.Keys == values.Keys
    && forall i | 0 <= i < |Listed(values)| :: ranks[Listed(values)[i]] == CountedRank(ValuesOf(values, Listed(values)), i)
  }

  lemma RankMapCounts(values: map<Id, real>)
    ensures RanksByCounting(values, RankMap(values))
  {
    hide Listed, Above, Tied, Higher, Level;
    var ids := Listed(values);
    forall i | 0 <= i < |ids| ensures RankMap(values)[ids[i]] == CountedRank(ValuesOf(values, ids), i) {
      CountsAreCardinalities(ValuesOf(values, ids), values[ids[i]]);
    }
  }

  lemma CorrelationOfSameKeys(scores: map<Id, real>, without: map<Id, real>)
    requires without.Keys == scores.Keys
    ensures Within(Listed(scores), without)
    ensures StabilityOf(Some(scores), without)
         == var ids := Listed(scores); if |ids| < 2 then InsufficientOverlap(|ids|) else Spearman(ValuesOf(scores, ids), ValuesOf(without, ids))
  {
    hide Spearman, Sorted;
    assert scores.Keys * without.Keys == scores.Keys;
  }

  lemma DeltaMeaning(scores: map<Id, real>, selected: seq<Id>, without: map<Id, real>, chosen: seq<Id>)
    requires Within(selected, scores) && Within(chosen, without)
    ensures MeanDelta(scores, selected, without, chosen)
         == if selected == [] || chosen == [] then None
            else Some(Sum(ValuesOf(without, chosen)) / |chosen| as real - Sum(ValuesOf(scores, selected)) / |selected| as real)
  {
    hide Sum, MeanAt;
    if selected != [] && chosen != [] {
      MeanIs(without, chosen);
      MeanIs(scores, selected);
    }
  }

  /**
    What the scenario of a covered component says: it is about the scores without the component; what it selects
    is the best of those, no strategy left out scoring higher; its ranks, turnover, correlation and mean change
    compare those scores and that selection with the frozen ones.
   */
  lemma ScenarioMeaning(scores: map<Id, real>, audits: map<Id, Audit>, selected: seq<Id>, count: int, name: Id) returns (without: map<Id, real>)
    requires Within(selected, scores) && Covered(scores, audits, name)
    ensures Omits(scores, audits, name, without)
    ensures var s := ScenarioOf(scores, audits, selected, count, name);
            && s.Estimated? && s.omitted == name && Within(s.selected, without) && Distinct(s.selected)
            && |s.selected| == (if 0 <= count < |scores| then count else |scores|)
            && (forall a, b | a in s.selected && b in without && b !in s.selected :: without[a] >= without[b])
            && RanksByCounting(without, s.ranks)
            && s.turnover == Turnover(Some(selected), s.selected)
            && s.correlation == StabilityOf(Some(scores), without)
            && s.meanDelta == MeanDelta(scores, selected, without, s.selected)
  {
    hide Best, RankMap, StabilityOf, Turnover, MeanDelta, Distinct, RanksByCounting, Within;
    PerturbedOmits(scores, audits, name);
    hide Omits, Covered;
    without := Perturbed(scores, Contributions(scores, audits, name));
    BestShape(without, count);
    RankMapCounts(without);
    SameKeysSameSize(scores, without);
  }

  // ---- the loop ----

  method SelectBest(values: map<Id, real>, count: int) returns (chosen: seq<Id>)
    ensures chosen == Best(values, count)
  {
    var ids := SortSet(values.Keys);
    assert ids == Listed(values);
    chosen := Select(Entries(values, ids), count);
  }

  method RankAll(values: map<Id, real>) returns (ranks: map<Id, real>)
    ensures ranks == RankMap(values)
  {
    hide RankIn, Sorted;
    var ids := SortSet(values.Keys);
    assert ids == Listed(values);
    ranks := Ranks(values, ids);
    assert ranks.Keys == values.Keys;
  }

  method Diagnose(scores: map<Id, real>, audits: map<Id, Audit>, selected: seq<Id>, count: int, name: Id) returns (s: Scenario)
    requires Within(selected, scores)
    ensures s == ScenarioOf(scores, audits, selected, count, name)
  {
    if !Covered(scores, audits, name) {
      return InsufficientCoverage(name, |scores|);
    }
    var perturbed := Perturbed(scores, Contributions(scores, audits, name));
    var chosen := SelectBest(perturbed, count);
    BestShape(perturbed, count);
    var ranks := RankAll(perturbed);
    var correlation := ScoreStability(Some(scores), perturbed);
    return Estimated(name, chosen, ranks, Turnover(Some(selected), chosen), correlation, MeanDelta(scores, selected, perturbed, chosen));
  }

  method DiagnoseEach(scores: map<Id, real>, audits: map<Id, Audit>, selected: seq<Id>, count: int, names: seq<Id>)
    returns (scenarios: seq<Scenario>)
    requires Within(selected, scores)
    ensures |scenarios| == |names| && forall i | 0 <= i < |names| :: scenarios[i] == ScenarioOf(scores, audits, selected, count, names[i])
  {
    hide ScenarioOf, Within;
    scenarios := [];
    for i := 0 to |names|
      invariant |scenarios| == i && forall j | 0 <= j < i :: scenarios[j] == ScenarioOf(scores, audits, selected, count, names[j])
    {
      var s := Diagnose(scores, audits, selected, count, names[i]);
      scenarios := scenarios + [s];
    }
  }

  /** The baseline ranks and one scenario for every component name in order. */
  ghost function DiagnosticsOf(scores: map<Id, real>, audits: map<Id, Audit>, selected: seq<Id>, count: int): Diagnostics
    requires Within(selected, scores)
  {
    var names := Sorted(ComponentNames(audits));
    Diagnostics(RankMap(scores), seq(|names|, i requires 0 <= i < |names| => ScenarioOf(scores, audits, selected, count, names[i])))
  }

  method SensitivityDiagnostics(scores: map<Id, real>, audits: map<Id, Audit>, selected: seq<Id>, count: int) returns (d: Diagnostics)
    requires Within(selected, scores)
    ensures d == DiagnosticsOf(scores, audits, selected, count)
    ensures |d.scenarios| == |ComponentNames(audits)|
  {
    hide ScenarioOf, ComponentNames, RankMap, Within, Sorted;
    SortedIsOrdered(ComponentNames(audits));
    var names := SortSet(ComponentNames(audits));
    var baseline := RankAll(scores);
    var scenarios := DiagnoseEach(scores, audits, selected, count, names);
    d := Diagnostics(baseline, scenarios);
  }
}
