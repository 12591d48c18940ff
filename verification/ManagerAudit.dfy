/** When the independent audit accepts what the producer scored, and the input family on which it does not. */
module ManagerAudit {
  import opened Prelude
  import opened Ordering
  import opened RealFacts
  import opened Rounding
  import opened ManagerScore

  // ---- factors ----

  lemma EqualShareRange(n: nat)
    ensures 0.0 <= EqualShare(n) <= 1.0
  {
    var d := (1 + n) as real;
    assert d >= 1.0;
    assert 1.0 / d * d == 1.0;
    assert 0.0 <= 1.0 / d <= 1.0 by { UnitFraction(1.0 / d, d); }
    RoundWithin(1.0 / d, 0, 1, SIX_DIGITS);
  }

  lemma UnitFraction(x: real, d: real)
    requires d >= 1.0 && x * d == 1.0
    ensures 0.0 <= x <= 1.0
  {
    ScaleUp(x, 0.0, d);
    ScaleUp(1.0, x, d);
  }

  lemma FactorInRange(detail: Detail, d: Dossier)
    requires ValidDossier(d) && DetailOf(detail, d)
    ensures 0.0 <= detail.factor <= 1.0 && AuditDetail(detail)
  {
    var t :| t in d.tenures && FactorOf(t).Some? && detail == Detail(t.id, t.mode, FactorOf(t).value, t.coManagers);
    var i :| 0 <= i < |d.tenures| && d.tenures[i] == t;
    assert ValidTenure(d.tenures[i], d.manager);
    EqualShareRange(|t.coManagers|);
  }

  lemma {:induction false} FactorSumRange(details: seq<Detail>)
    requires forall i | 0 <= i < |details| :: 0.0 <= details[i].factor <= 1.0
    ensures 0.0 <= FactorSum(details) <= |details| as real
  {
    if details != [] {
      FactorSumRange(details[..|details| - 1]);
    }
  }

  lemma MeanRange(sum: real, n: real)
    requires n > 0.0 && 0.0 <= sum <= n
    ensures 0.0 <= sum / n <= 1.0
  {
    var m := sum / n;
    assert m * n == sum;
    ScaleUp(0.0, m, n);
    ScaleUp(m, 1.0, n);
  }

  lemma AggregateRange(details: seq<Detail>)
    requires details != [] && forall i | 0 <= i < |details| :: 0.0 <= details[i].factor <= 1.0
    ensures 0.0 <= Aggregate(details) <= 1.0
  {
    FactorSumRange(details);
    MeanRange(FactorSum(details), |details| as real);
    RoundWithin(FactorSum(details) / |details| as real, 0, 1, SIX_DIGITS);
  }

  /** The mean tenure factor, before it is rounded. */
  function MeanFactor(details: seq<Detail>): real
    requires details != []
  {
    FactorSum(details) / |details| as real
  }

  /** The rounded aggregate is positive exactly when the mean factor exceeds half a millionth. */
  lemma PositiveAggregate(details: seq<Detail>)
    requires details != [] && forall i | 0 <= i < |details| :: 0.0 <= details[i].factor <= 1.0
    ensures Aggregate(details) > 0.0 <==> MeanFactor(details) > 0.0000005
  {
    FactorSumRange(details);
    MeanRange(FactorSum(details), |details| as real);
    var m := MeanFactor(details);
    var s := SIX_DIGITS as real;
    Scaled(m, SIX_DIGITS);
    PositiveNearest(m * s);
    assert m > 0.0000005 <==> m * s > 0.5;
    assert Aggregate(details) * s == Nearest(m * s) as real;
    assert Aggregate(details) > 0.0 <==> Aggregate(details) * s > 0.0;
  }

  lemma PositiveNearest(x: real)
    requires x >= 0.0
    ensures Nearest(x) > 0 <==> x > 0.5
  {
  }

  // ---- contributions ----

  lemma ExactRange(score: real, factor: real, weight: int)
    requires 0.0 <= score <= 100.0 && 0.0 <= factor <= 1.0 && weight >= 0
    ensures 0.0 <= Exact(score, factor, weight) <= weight as real
  {
    var w := weight as real;
    var credited := score * factor;
    NonNegativeProduct(score, factor);
    NonNegativeProduct(score, 1.0 - factor);
    assert score * (1.0 - factor) == score - score * factor;
    assert 0.0 <= credited <= score;
    NonNegativeProduct(credited, w);
    NonNegativeProduct(100.0 - credited, w);
    assert (100.0 - credited) * w == 100.0 * w - credited * w;
  }

  lemma ExactIsExpected(c: ComponentInput, factor: real)
    requires c.score.Some?
    ensures Exact(c.score.value, Multiplier(c, factor), c.weight) == ExpectedAmount(c, factor)
  {
    assert c.score.value * 1.0 == c.score.value;
  }

  /**
    What a produced result gives each component: within half a millionth, the tenure component its score times
    aggregate times weight over 100, and every other usable component its score times weight over 100.
   */
  lemma ContributionMeaning(r: ManagerResult, components: seq<ComponentInput>, factor: real, i: nat)
    requires ProducedBy(r, components, factor) && i < |components|
    ensures r.contributions[i].Some? <==> components[i].score.Some? && !components[i].insufficientConfidence
    ensures r.contributions[i].Some? ==>
              var expected := if components[i].id == TenureAttributedPerformance
                              then components[i].score.value * factor * components[i].weight as real / 100.0
                              else components[i].score.value * components[i].weight as real / 100.0;
              -0.0000005 <= r.contributions[i].value - expected <= 0.0000005
  {
    var c := components[i];
    if Usable(c) {
      ExactIsExpected(c, factor);
      hide Exact, RoundTo;
      RoundIsClose(Exact(c.score.value, Multiplier(c, factor), c.weight), SIX_DIGITS);
    }
  }

  /** Another aggregate changes the contribution of the tenure component only. */
  lemma OnlyTenureIsDiscounted(r: ManagerResult, s: ManagerResult, components: seq<ComponentInput>, factor: real, other: real, i: nat)
    requires ProducedBy(r, components, factor) && ProducedBy(s, components, other)
    requires i < |components| && components[i].id != TenureAttributedPerformance
    ensures r.contributions[i] == s.contributions[i]
  {
    hide Exact, RoundTo;
  }

  /** A team's members share equally, to six digits. */
  lemma TeamShare(n: nat)
    ensures -0.5 <= (EqualShare(n) - 1.0 / (1 + n) as real) * 1000000.0 <= 0.5
  {
    RoundIsClose(1.0 / (1 + n) as real, SIX_DIGITS);
  }

  lemma FactorSumFirst(details: seq<Detail>)
    requires details != []
    ensures FactorSum(details) == details[0].factor + FactorSum(details[1..])
  {
    hide FactorSum;
    FactorSumWithout(details, 0);
    assert details[..0] + details[1..] == details[1..];
  }

  lemma {:induction false} SumsAgree(details: seq<Detail>)
    ensures FactorSum(details) == SumOfFactors(details)
  {
    if details != [] {
      FactorSumFirst(details);
      SumsAgree(details[1..]);
    }
  }

  lemma AggregateIsExpected(details: seq<Detail>)
    requires details != []
    ensures Aggregate(details) == ExpectedFactor(details)
  {
    hide FactorSum, SumOfFactors, RoundTo;
    SumsAgree(details);
  }

  lemma ContributionPasses(c: ComponentInput, factor: real)
    requires Usable(c) && 0.0 <= c.score.value <= 100.0 && 0.0 <= factor <= 1.0 && c.weight >= 0
    ensures var amount := Contribution(c, factor).value;
            && 0.0 <= amount <= c.weight as real
            && AbsoluteGap(amount, ExpectedAmount(c, factor)) <= TOLERANCE
  {
    ExactIsExpected(c, factor);
    hide Exact, RoundTo, ExpectedAmount;
    var exact := Exact(c.score.value, Multiplier(c, factor), c.weight);
    ExactRange(c.score.value, Multiplier(c, factor), c.weight);
    RoundWithin(exact, 0, c.weight, SIX_DIGITS);
    RoundIsClose(exact, SIX_DIGITS);
  }

  /** Every contribution is a whole number of millionths. */
  predicate Millionths(x: real, n: int) {
    x * SIX_DIGITS as real == n as real
  }

  lemma RoundedIsMillionths(x: real)
    ensures Millionths(RoundTo(x, SIX_DIGITS), Nearest(x * SIX_DIGITS as real))
  {
    Scaled(x, SIX_DIGITS);
  }

  lemma {:induction false} SumIsMillionths(components: seq<ComponentInput>, factor: real, contributions: seq<Option<real>>) returns (n: int)
    requires |contributions| == |components| && forall i | 0 <= i < |components| :: contributions[i] == Contribution(components[i], factor)
    ensures Millionths(Present(contributions), n)
  {
    if contributions == [] {
      n := 0;
    } else {
      var k := |contributions| - 1;
      var before := SumIsMillionths(components[..k], factor, contributions[..k]);
      n := before;
      if contributions[k].Some? {
        var c := components[k];
        RoundedIsMillionths(Exact(c.score.value, Multiplier(c, factor), c.weight));
        n := before + Nearest(Exact(c.score.value, Multiplier(c, factor), c.weight) * SIX_DIGITS as real);
      }
    }
  }

  /** The reported score is exactly the sum of the contributions: rounding the sum changes nothing. */
  lemma ScoreIsSumOfContributions(r: ManagerResult, components: seq<ComponentInput>, factor: real)
    requires ProducedBy(r, components, factor) && r.insufficient == []
    ensures r.score == Some(Present(r.contributions)) && r.score == Some(AddedUp(r.contributions))
  {
    PresentIsAddedUp(r.contributions);
    hide Exact, AddedUp;
    var n := SumIsMillionths(components, factor, r.contributions);
    RoundOfMultiple(Present(r.contributions), n, SIX_DIGITS);
  }

  lemma {:induction false} PresentLast(xs: seq<Option<real>>, y: Option<real>)
    ensures AddedUp(xs + [y]) == AddedUp(xs) + (if y.Some? then y.value else 0.0)
  {
    if xs == [] {
      assert xs + [y] == [y] && [y][1..] == [];
    } else {
      assert (xs + [y])[1..] == xs[1..] + [y];
      PresentLast(xs[1..], y);
    }
  }

  lemma {:induction false} PresentIsAddedUp(xs: seq<Option<real>>)
    ensures Present(xs) == AddedUp(xs)
  {
    if xs != [] {
      var n := |xs| - 1;
      PresentIsAddedUp(xs[..n]);
      assert xs == xs[..n] + [xs[n]];
      PresentLast(xs[..n], xs[n]);
    }
  }

  function WeightTotal(components: seq<ComponentInput>): int {
    if components == [] then 0 else WeightTotal(components[..|components| - 1]) + components[|components| - 1].weight
  }

  /** Contributions within their weights add up to at most the total weight. */
  lemma {:induction false} PresentRange(components: seq<ComponentInput>, contributions: seq<Option<real>>)
    requires |contributions| == |components|
    requires forall i | 0 <= i < |components| :: contributions[i].Some? && 0.0 <= contributions[i].value <= components[i].weight as real
    ensures 0.0 <= Present(contributions) <= WeightTotal(components) as real
  {
    if components != [] {
      var n := |components| - 1;
      PresentRange(components[..n], contributions[..n]);
    }
  }

  // ---- the tenures a dossier credits to a target ----

  function DetailFor(t: Tenure, factor: real): Detail {
    Detail(t.id, t.mode, factor, t.coManagers)
  }

  /** The first `n` tenures as far as they have attributable evidence, each with its share. */
  function Credited(d: Dossier, target: Option<Id>, n: nat): seq<Detail>
    requires n <= |d.tenures|
  {
    if n == 0 then []
    else
      var t := d.tenures[n - 1];
      Credited(d, target, n - 1)
      + (if t.id in AttributableTenures(d, target) && FactorOf(t).Some? then [DetailFor(t, FactorOf(t).value)] else [])
  }

  /** The mean share of the target's tenures with attributable evidence, before rounding. */
  function CreditedMean(d: Dossier, target: Option<Id>): real {
    var credited := Credited(d, target, |d.tenures|);
    if credited == [] then 0.0 else MeanFactor(credited)
  }

  ghost predicate CreditOf(detail: Detail, d: Dossier, target: Option<Id>, n: nat)
    requires n <= |d.tenures|
  {
    exists i | 0 <= i < n ::
      && d.tenures[i].id in AttributableTenures(d, target) && FactorOf(d.tenures[i]).Some?
      && detail == DetailFor(d.tenures[i], FactorOf(d.tenures[i]).value)
  }

  lemma {:induction false} CreditedMembers(d: Dossier, target: Option<Id>, n: nat)
    requires n <= |d.tenures|
    ensures forall x :: x in Credited(d, target, n) <==> CreditOf(x, d, target, n)
  {
    hide AttributableTenures, FactorOf;
    if n > 0 {
      CreditedMembers(d, target, n - 1);
      forall x ensures x in Credited(d, target, n) <==> CreditOf(x, d, target, n) {
        if CreditOf(x, d, target, n - 1) {
          var i :| 0 <= i < n - 1 && d.tenures[i].id in AttributableTenures(d, target) && FactorOf(d.tenures[i]).Some?
                   && x == DetailFor(d.tenures[i], FactorOf(d.tenures[i]).value);
        }
      }
    }
  }

  lemma {:induction false} CreditedDistinct(d: Dossier, target: Option<Id>, n: nat)
    requires ValidDossier(d) && n <= |d.tenures|
    ensures Distinct(Credited(d, target, n))
  {
    hide AttributableTenures, FactorOf;
    if n > 0 {
      CreditedDistinct(d, target, n - 1);
      CreditedMembers(d, target, n - 1);
      var before := Credited(d, target, n - 1);
      forall i | 0 <= i < |before| ensures before[i].tenure != d.tenures[n - 1].id {
        assert before[i] in before;
        assert CreditOf(before[i], d, target, n - 1);
      }
    }
  }

  /** The producer's details are exactly the credited tenures, in some order. */
  lemma DetailsAreCredited(a: Attribution, d: Dossier, target: Option<Id>)
    requires ValidDossier(d) && AttributionOf(a, d, target)
    ensures multiset(a.details) == multiset(Credited(d, target, |d.tenures|))
  {
    hide AttributableTenures, FactorOf, Aggregate, DetailOf;
    var credited := Credited(d, target, |d.tenures|);
    CreditedDistinct(d, target, |d.tenures|);
    CreditedMembers(d, target, |d.tenures|);
    forall x ensures x in a.details <==> x in credited {
      if x in a.details {
        var i :| 0 <= i < |a.details| && a.details[i] == x;
        DetailIsCredit(d, target, x);
      }
      if CreditOf(x, d, target, |d.tenures|) {
        CreditIsDetail(d, target, x, a.details);
      }
    }
    assert Distinct(a.details);
    DistinctMultisets(a.details, credited);
  }

  lemma DetailIsCredit(d: Dossier, target: Option<Id>, x: Detail)
    requires DetailOf(x, d) && x.tenure in AttributableTenures(d, target)
    ensures CreditOf(x, d, target, |d.tenures|)
  {
    hide AttributableTenures, FactorOf;
    var t :| t in d.tenures && FactorOf(t).Some? && x == Detail(t.id, t.mode, FactorOf(t).value, t.coManagers);
    var i :| 0 <= i < |d.tenures| && d.tenures[i] == t;
  }

  lemma CreditIsDetail(d: Dossier, target: Option<Id>, x: Detail, details: seq<Detail>)
    requires ValidDossier(d) && CreditOf(x, d, target, |d.tenures|)
    requires DetailTenures(details) == AttributableTenures(d, target) && forall i | 0 <= i < |details| :: DetailOf(details[i], d)
    ensures x in details
  {
    hide AttributableTenures, FactorOf, ValidTenure;
    var i :| 0 <= i < |d.tenures| && d.tenures[i].id in AttributableTenures(d, target) && FactorOf(d.tenures[i]).Some?
             && x == DetailFor(d.tenures[i], FactorOf(d.tenures[i]).value);
    var j :| 0 <= j < |details| && details[j].tenure == x.tenure;
    assert DetailOf(details[j], d);
  }

  lemma {:induction false} FactorSumWithout(details: seq<Detail>, i: nat)
    requires i < |details|
    ensures FactorSum(details) == FactorSum(details[..i] + details[i + 1..]) + details[i].factor
  {
    var n := |details| - 1;
    if i == n {
      assert details[..i] + details[i + 1..] == details[..n];
    } else {
      FactorSumWithout(details[..n], i);
      var rest := details[..i] + details[i + 1..];
      assert rest[..|rest| - 1] == details[..n][..i] + details[..n][i + 1..];
    }
  }

  lemma {:induction false} FactorSumPermutes(a: seq<Detail>, b: seq<Detail>)
    requires multiset(a) == multiset(b)
    ensures |a| == |b| && FactorSum(a) == FactorSum(b)
    decreases |a|
  {
    SameMembers(a, b);
    if a != [] {
      var n := |a| - 1;
      assert a[n] in a;
      var i :| 0 <= i < |b| && b[i] == a[n];
      RemoveOne(a, n);
      RemoveOne(b, i);
      FactorSumPermutes(a[..n] + a[n + 1..], b[..i] + b[i + 1..]);
      FactorSumWithout(a, n);
      FactorSumWithout(b, i);
    }
  }

  /** The mean share can be read off the dossier before anything is scored. */
  lemma MeanIsCredited(a: Attribution, d: Dossier, target: Option<Id>)
    requires ValidDossier(d) && AttributionOf(a, d, target)
    ensures MeanFactor(a.details) == CreditedMean(d, target)
  {
    hide FactorSum, Credited, ValidDossier, AttributableTenures, DetailOf, Aggregate;
    DetailsAreCredited(a, d, target);
    FactorSumPermutes(a.details, Credited(d, target, |d.tenures|));
  }

  // ---- the agreement ----

  /** Component scores are in [0, 100] and all sufficient, weights total 100, and the tenure component is among them. */
  predicate ScorableComponents(components: seq<ComponentInput>) {
    && TenureScored(components) && WeightTotal(components) == 100
    && forall i | 0 <= i < |components| :: Usable(components[i]) && 0.0 <= components[i].score.value <= 100.0 && components[i].weight >= 0
  }

  lemma ContributionsPass(r: ManagerResult, components: seq<ComponentInput>, factor: real)
    requires ScorableComponents(components) && ProducedBy(r, components, factor) && 0.0 <= factor <= 1.0
    ensures forall i | 0 <= i < |components| ::
              && r.contributions[i].Some? && 0.0 <= r.contributions[i].value <= components[i].weight as real
              && Reconciles(components[i], r.contributions[i].value, factor)
    ensures r.score == Some(Present(r.contributions)) && 0.0 <= Present(r.contributions) <= 100.0
    ensures r.insufficient == [] && r.confidence == LowConfidence
  {
    hide Exact, RoundTo, Present, TenureScored, WeightTotal;
    forall i | 0 <= i < |components|
      ensures r.contributions[i].Some? && 0.0 <= r.contributions[i].value <= components[i].weight as real
      ensures Reconciles(components[i], r.contributions[i].value, factor)
    {
      ContributionPasses(components[i], factor);
    }
    ScoreIsSumOfContributions(r, components, factor);
    PresentRange(components, r.contributions);
  }

  lemma NoGap(x: real)
    ensures AbsoluteGap(x, x) <= TOLERANCE
  {
  }

  lemma DetailsPass(a: Attribution, d: Dossier, target: Option<Id>)
    requires ValidDossier(d) && AttributionOf(a, d, target)
    ensures forall i | 0 <= i < |a.details| :: 0.0 <= a.details[i].factor <= 1.0 && AuditDetail(a.details[i])
    ensures 0.0 <= a.aggregate.value <= 1.0
    ensures a.aggregate.value > 0.0 <==> CreditedMean(d, target) > 0.0000005
    ensures a.observations != []
  {
    hide ValidDossier, DetailOf, AuditDetail, AttributableTenures, CreditedMean, Aggregate;
    forall i | 0 <= i < |a.details| ensures 0.0 <= a.details[i].factor <= 1.0 && AuditDetail(a.details[i]) {
      FactorInRange(a.details[i], d);
    }
    AggregateRange(a.details);
    PositiveAggregate(a.details);
    MeanIsCredited(a, d, target);
    assert a.details[0].tenure in DetailTenures(a.details);
  }

  /**
    A scored manager result passes the independent audit exactly when the mean share of the target's
    credited tenures exceeds half a millionth; below that the rounded aggregate is zero, which the audit refuses.
   */
  lemma ProducerAgreesWithAuditor(r: ManagerResult, d: Dossier, target: Id, components: seq<ComponentInput>)
    requires ValidDossier(d) && ScorableComponents(components)
    requires AttributionOf(r.attribution, d, Some(target)) && ProducedBy(r, components, r.attribution.aggregate.value)
    ensures AuditorAccepts(r) <==> CreditedMean(d, Some(target)) > 0.0000005
  {
    hide ValidDossier, DetailOf, AuditDetail, AttributableTenures, CreditedMean, Aggregate, ExpectedFactor, Exact, Present, AddedUp, Contribution, ListsUnusable, TenureScored, WeightTotal, Reconciles, AbsoluteGap, DetailTenures, ObservedTenures;
    DetailsPass(r.attribution, d, Some(target));
    ContributionsPass(r, components, r.attribution.aggregate.value);
    AggregateIsExpected(r.attribution.details);
    PresentIsAddedUp(r.contributions);
    NoGap(Present(r.contributions));
  }

  /** The producer and then the audit: whether a scorable dossier passes is decided by the dossier alone. */
  method ScoreThenAudit(d: Dossier, target: Id, components: seq<ComponentInput>) returns (r: Result<ManagerResult, ManagerError>, accepted: bool)
    requires ScorableComponents(components)
    ensures r.Ok? <==> Producible(d, target, components)
    ensures accepted <==> Producible(d, target, components) && CreditedMean(d, Some(target)) > 0.0000005
    ensures r.Ok? ==> r.value.score.Some? && (accepted <==> AuditorAccepts(r.value))
  {
    hide ValidDossier, Attributes, HasTarget, AttributionOf, CreditedMean, AuditorAccepts, WeightTotal, Exact;
    r := ScoreManager(d, target, components);
    accepted := false;
    if r.Ok? {
      assert ValidDossier(d) by { ProducibleIsValid(d, target, components); }
      ProducerAgreesWithAuditor(r.value, d, target, components);
      accepted := AuditorAccepts(r.value);
    }
  }

  lemma ProducibleIsValid(d: Dossier, target: Id, components: seq<ComponentInput>)
    requires Producible(d, target, components)
    ensures ValidDossier(d)
  {
  }

  /** One fund, one role-weighted tenure with the valid share 4e-7, and one fully qualified performance row. */
  function TinyDossier(): Dossier {
    Dossier(Id("manager"),
            [Tenure(Id("tenure"), Id("fund"), false, RoleWeighted, Some(0.0000004), [Id("peer")])],
            [PerformanceItem(Id("row"), Id("tenure"), true, [Id("evidence")], true)],
            {Id("evidence")}, {Id("evidence")})
  }

  lemma TinyRowCounts(target: Option<Id>)
    requires target == None || target == Some(Id("fund"))
    ensures Attributable(TinyDossier().performance[0], TinyDossier(), target)
  {
    hide Qualified;
    var d := TinyDossier();
    assert Id("evidence") in Qualified([Id("evidence")], d);
    assert d.tenures[0].id == d.performance[0].tenure;
  }

  lemma TinyTenures(target: Option<Id>)
    requires target == None || target == Some(Id("fund"))
    ensures AttributableTenures(TinyDossier(), target) == {Id("tenure")}
  {
    hide Attributable;
    TinyRowCounts(target);
  }

  lemma TinyIsProducible(components: seq<ComponentInput>)
    ensures Producible(TinyDossier(), Id("fund"), components)
  {
    hide AttributableTenures, TenureScored;
    var d := TinyDossier();
    assert ValidTenure(d.tenures[0], d.manager);
    assert d.tenures[0].strategy == Id("fund");
    TinyTenures(None);
    TinyTenures(Some(Id("fund")));
  }

  lemma TinyMean()
    ensures CreditedMean(TinyDossier(), Some(Id("fund"))) == 0.0000004
  {
    hide AttributableTenures;
    var d := TinyDossier();
    TinyTenures(Some(Id("fund")));
    var credited := [Detail(Id("tenure"), RoleWeighted, 0.0000004, [Id("peer")])];
    assert Credited(d, Some(Id("fund")), 0) == [];
    assert Credited(d, Some(Id("fund")), 1) == credited;
    SingleFactor(credited[0]);
  }

  lemma SingleFactor(detail: Detail)
    ensures FactorSum([detail]) == detail.factor
  {
    assert [detail][..0] == [];
  }

  /** The producer scores this valid dossier, and the audit then refuses it, whatever the component scores. */
  method TinyShareIsRefused(components: seq<ComponentInput>) returns (r: Result<ManagerResult, ManagerError>, accepted: bool)
    requires ScorableComponents(components)
    ensures r.Ok? && r.value.score.Some? && !AuditorAccepts(r.value) && !accepted
  {
    hide AuditorAccepts, CreditedMean, Producible, ScorableComponents;
    TinyIsProducible(components);
    TinyMean();
    r, accepted := ScoreThenAudit(TinyDossier(), Id("fund"), components);
  }
}
