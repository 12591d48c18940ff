/**
  The manager score producer of src/openfundscore/manager_research.py (attribution rules, tenure
  factors, component contributions) and the independent arithmetic audit of its result in
  src/openfundscore/category_metrics.py.
 */
module ManagerScore {
  import opened Prelude
  import opened Ordering
  import opened Rounding

  const SIX_DIGITS := 1_000_000

  datatype Mode = Individual | Team | RoleWeighted | Unresolved

  datatype Tenure = Tenure(id: Id, strategy: Id, lead: bool, mode: Mode, share: Option<real>, coManagers: seq<Id>)

  /** One performance row: whether it has a numeric factor residual, the evidence it cites, and whether it is usable. */
  datatype PerformanceItem = PerformanceItem(observation: Id, tenure: Id, residual: bool, evidence: seq<Id>, usable: bool)

  /** `references` are the evidence ids the tenure component cites; `supporting` those declared to support it. */
  datatype Dossier = Dossier(manager: Id, tenures: seq<Tenure>, performance: seq<PerformanceItem>, references: set<Id>, supporting: set<Id>)

  datatype Detail = Detail(tenure: Id, mode: Mode, factor: real, coManagers: seq<Id>)

  datatype Observation = Observation(id: Id, tenure: Id, evidence: seq<Id>)

  datatype Attribution = Attribution(aggregate: Option<real>, details: seq<Detail>, observations: seq<Observation>)

  datatype ManagerError = InvalidAttribution | UnresolvedAttribution | NoAttributableEvidence | NoTargetTenure

  // ---- attribution rules ----

  /** `_validate_attribution` for one tenure. */
  predicate ValidTenure(t: Tenure, manager: Id) {
    && (forall i, j | 0 <= i < j < |t.coManagers| :: t.coManagers[i] != t.coManagers[j])
    && manager !in t.coManagers
    && match t.mode
       case Individual => t.lead && t.coManagers == [] && t.share.None?
       case Team => t.coManagers != [] && t.share.None?
       case RoleWeighted => t.coManagers != [] && t.share.Some? && 0.0 < t.share.value < 1.0
       case Unresolved => t.share.None?
  }

  predicate ValidDossier(d: Dossier) {
    && (forall i | 0 <= i < |d.tenures| :: ValidTenure(d.tenures[i], d.manager))
    && (forall i, j | 0 <= i < j < |d.tenures| :: d.tenures[i].id != d.tenures[j].id)
  }

  /** What a valid tenure says: whoever leads alone shares with nobody, whoever shares names someone else, and only a role has a share of its own. */
  lemma AttributionRules(t: Tenure, manager: Id)
    requires ValidTenure(t, manager)
    ensures manager !in t.coManagers && |set c | c in t.coManagers| == |t.coManagers|
    ensures t.mode == Individual ==> t.lead && t.coManagers == []
    ensures t.mode == Team || t.mode == RoleWeighted ==> t.coManagers != []
    ensures t.share.Some? <==> t.mode == RoleWeighted
    ensures t.mode == RoleWeighted ==> 0.0 < t.share.value < 1.0
  {
    SizeOfDistinct(t.coManagers);
  }

  lemma {:induction false} SizeOfDistinct(ids: seq<Id>)
    requires forall i, j | 0 <= i < j < |ids| :: ids[i] != ids[j]
    ensures |set c | c in ids| == |ids|
  {
    if ids == [] {
      assert (set c | c in ids) == {};
    } else {
      var n := |ids| - 1;
      SizeOfDistinct(ids[..n]);
      assert (set c | c in ids) == (set c | c in ids[..n]) + {ids[n]};
    }
  }

  function EqualShare(coManagers: nat): real {
    RoundTo(1.0 / (1 + coManagers) as real, SIX_DIGITS)
  }

  /** The share of a tenure's result credited to the manager. */
  function FactorOf(t: Tenure): Option<real> {
    match t.mode
    case Individual => Some(1.0)
    case RoleWeighted => t.share
    case Team => Some(EqualShare(|t.coManagers|))
    case Unresolved => None
  }

  function Qualified(evidence: seq<Id>, d: Dossier): (q: seq<Id>)
    ensures forall e :: e in q <==> e in evidence && e in d.references && e in d.supporting
  {
    if evidence == [] then []
    else
      var n := |evidence| - 1;
      assert evidence == evidence[..n] + [evidence[n]];
      Qualified(evidence[..n], d) + (if evidence[n] in d.references && evidence[n] in d.supporting then [evidence[n]] else [])
  }

  /** A row counts for the tenures of one strategy, or, with no target, for all of them. */
  predicate Attributable(p: PerformanceItem, d: Dossier, target: Option<Id>) {
    && (exists i | 0 <= i < |d.tenures| :: d.tenures[i].id == p.tenure && (target.None? || d.tenures[i].strategy == target.value))
    && p.residual && p.usable && Qualified(p.evidence, d) != []
  }

  function FactorSum(details: seq<Detail>): real {
    if details == [] then 0.0 else FactorSum(details[..|details| - 1]) + details[|details| - 1].factor
  }

  function Aggregate(details: seq<Detail>): real
    requires details != []
  {
    RoundTo(FactorSum(details) / |details| as real, SIX_DIGITS)
  }

  // ---- what the producer's attribution satisfies ----

  ghost predicate DetailOf(detail: Detail, d: Dossier) {
    exists t :: t in d.tenures && FactorOf(t).Some? && detail == Detail(t.id, t.mode, FactorOf(t).value, t.coManagers)
  }

  function DetailTenures(details: seq<Detail>): set<Id> {
    set i | 0 <= i < |details| :: details[i].tenure
  }

  function ObservedTenures(observations: seq<Observation>): set<Id> {
    set j | 0 <= j < |observations| :: observations[j].tenure
  }

  function AttributableTenures(d: Dossier, target: Option<Id>): set<Id> {
    set k | 0 <= k < |d.performance| && Attributable(d.performance[k], d, target) :: d.performance[k].tenure
  }

  ghost predicate AttributionOf(a: Attribution, d: Dossier, target: Option<Id>) {
    && a.details != [] && a.aggregate == Some(Aggregate(a.details))
    && (forall i, j | 0 <= i < j < |a.details| :: a.details[i].tenure != a.details[j].tenure)
    && (forall i | 0 <= i < |a.details| :: DetailOf(a.details[i], d))
    && DetailTenures(a.details) == ObservedTenures(a.observations) == AttributableTenures(d, target)
  }

  /** A row counts when it is usable, belongs to an eligible tenure and cites evidence both referenced and declared to support it. */
  lemma AttributableMeaning(p: PerformanceItem, d: Dossier, target: Option<Id>)
    ensures Attributable(p, d, target) <==>
              && p.residual && p.usable
              && (exists t :: t in d.tenures && t.id == p.tenure && (target == None || target == Some(t.strategy)))
              && exists e :: e in p.evidence && e in d.references && e in d.supporting
  {
    var q := Qualified(p.evidence, d);
    if q != [] {
      assert q[0] in q;
    }
    if t :| t in d.tenures && t.id == p.tenure && (target == None || target == Some(t.strategy)) {
      var i :| 0 <= i < |d.tenures| && d.tenures[i] == t;
    }
  }

  method FindTenure(d: Dossier, id: Id) returns (t: Tenure)
    requires exists i | 0 <= i < |d.tenures| :: d.tenures[i].id == id
    ensures t in d.tenures && t.id == id
  {
    var i := 0;
    while d.tenures[i].id != id
      invariant i < |d.tenures| && forall j | 0 <= j < i :: d.tenures[j].id != id
      decreases |d.tenures| - i
    {
      i := i + 1;
    }
    return d.tenures[i];
  }

  /** Some tenure with attributable evidence has no resolved mode of attribution. */
  ghost predicate HasUnresolved(d: Dossier, target: Option<Id>) {
    exists i | 0 <= i < |d.tenures| :: d.tenures[i].id in AttributableTenures(d, target) && d.tenures[i].mode == Unresolved
  }

  /** There is attributable evidence, and every tenure it belongs to has a resolved mode. */
  ghost predicate Attributes(d: Dossier, target: Option<Id>) {
    AttributableTenures(d, target) != {} && !HasUnresolved(d, target)
  }

  /** `_tenure_attribution` when the tenure component is scored. */
  method TenureAttribution(d: Dossier, target: Option<Id>) returns (r: Result<Attribution, ManagerError>)
    requires ValidDossier(d)
    ensures r.Ok? <==> Attributes(d, target)
    ensures r.Ok? ==> AttributionOf(r.value, d, target)
    ensures r == Err(NoAttributableEvidence) <==> AttributableTenures(d, target) == {}
    ensures r == Err(UnresolvedAttribution) <==> HasUnresolved(d, target)
    ensures r.Err? ==> r.error == NoAttributableEvidence || r.error == UnresolvedAttribution
  {
    hide ValidDossier, AttributableTenures, DetailOf, Aggregate, DetailTenures, ObservedTenures;
    var ids, observations := CollectObservations(d, target);
    var details := BuildDetails(d, ids, target);
    if details.Err? {
      assert AttributableTenures(d, target) != {};
      return Err(details.error);
    }
    if details.value == [] {
      assert AttributableTenures(d, target) == {};
      return Err(NoAttributableEvidence);
    }
    assert ids[0] in ids;
    return Ok(Attribution(Some(Aggregate(details.value)), details.value, observations));
  }

  /** The attributable rows become observations; their tenures are listed in order of first appearance. */
  method CollectObservations(d: Dossier, target: Option<Id>) returns (ids: seq<Id>, observations: seq<Observation>)
    ensures Distinct(ids) && (forall id :: id in ids <==> id in AttributableTenures(d, target))
    ensures ObservedTenures(observations) == AttributableTenures(d, target)
    ensures ObservesRows(observations, d, target, |d.performance|)
  {
    ids, observations := [], [];
    for k := 0 to |d.performance|
      invariant Distinct(ids)
      invariant forall id :: id in ids <==> exists j | 0 <= j < k :: d.performance[j].tenure == id && Attributable(d.performance[j], d, target)
      invariant forall id :: id in ids <==> id in ObservedTenures(observations)
      invariant ObservesRows(observations, d, target, k)
    {
      hide Attributable, ObservesRows;
      RowObserved(observations, d, target, k);
      var p := d.performance[k];
      if Attributable(p, d, target) {
        if p.tenure !in ids {
          ids := ids + [p.tenure];
        }
        ObservedGrows(observations, ObservationOf(p, d));
        observations := observations + [ObservationOf(p, d)];
      }
    }
  }

  /** The observations are those of the attributable rows among the first `n`, each with its qualified evidence. */
  ghost predicate ObservesRows(observations: seq<Observation>, d: Dossier, target: Option<Id>, n: nat)
    requires n <= |d.performance|
  {
    forall o :: o in observations <==>
      exists k :: 0 <= k < n && Attributable(d.performance[k], d, target) && ObservationOf(d.performance[k], d) == o
  }

  function ObservationOf(p: PerformanceItem, d: Dossier): Observation {
    Observation(p.observation, p.tenure, Qualified(p.evidence, d))
  }

  lemma RowObserved(before: seq<Observation>, d: Dossier, target: Option<Id>, n: nat)
    requires n < |d.performance| && ObservesRows(before, d, target, n)
    ensures ObservesRows(if Attributable(d.performance[n], d, target) then before + [ObservationOf(d.performance[n], d)] else before,
                         d, target, n + 1)
  {
    hide Attributable, ObservationOf;
  }

  lemma ObservedGrows(before: seq<Observation>, o: Observation)
    ensures ObservedTenures(before + [o]) == ObservedTenures(before) + {o.tenure}
  {
    var after := before + [o];
    assert after[|before|] == o;
    assert forall j | 0 <= j < |before| :: after[j] == before[j];
    forall id | id in ObservedTenures(before) ensures id in ObservedTenures(after) {
      var j :| 0 <= j < |before| && before[j].tenure == id;
      assert after[j].tenure == id;
    }
  }

  method BuildDetails(d: Dossier, ids: seq<Id>, target: Option<Id>) returns (r: Result<seq<Detail>, ManagerError>)
    requires ValidDossier(d) && Distinct(ids) && (forall id :: id in ids <==> id in AttributableTenures(d, target))
    ensures r.Ok? <==> !HasUnresolved(d, target)
    ensures r.Ok? ==> |r.value| == |ids| && DetailTenures(r.value) == AttributableTenures(d, target)
    ensures r.Ok? ==> forall i | 0 <= i < |r.value| :: r.value[i].tenure == ids[i] && DetailOf(r.value[i], d)
    ensures r.Err? ==> r.error == UnresolvedAttribution
  {
    hide ValidDossier, DetailOf, AttributableTenures, FactorOf;
    var details: seq<Detail> := [];
    for k := 0 to |ids|
      invariant |details| == k && forall j | 0 <= j < k :: details[j].tenure == ids[j] && DetailOf(details[j], d)
    {
      assert ids[k] in ids;
      AttributableHasTenure(d, ids[k], target);
      var t := FindTenure(d, ids[k]);
      var factor := FactorOf(t);
      if factor.None? {
        NoFactorIsUnresolved(d, t);
        return Err(UnresolvedAttribution);
      }
      IsDetail(d, t);
      details := details + [Detail(t.id, t.mode, factor.value, t.coManagers)];
    }
    SameTenures(details, ids);
    AllResolved(d, details, target);
    return Ok(details);
  }

  lemma NoFactorIsUnresolved(d: Dossier, t: Tenure)
    requires ValidDossier(d) && t in d.tenures && FactorOf(t).None?
    ensures exists i | 0 <= i < |d.tenures| :: d.tenures[i] == t && d.tenures[i].mode == Unresolved
  {
    var i :| 0 <= i < |d.tenures| && d.tenures[i] == t;
    assert ValidTenure(d.tenures[i], d.manager);
  }

  lemma IsDetail(d: Dossier, t: Tenure)
    requires t in d.tenures && FactorOf(t).Some?
    ensures DetailOf(Detail(t.id, t.mode, FactorOf(t).value, t.coManagers), d)
  {
    hide FactorOf;
  }

  lemma SameTenures(details: seq<Detail>, ids: seq<Id>)
    requires |details| == |ids| && forall i | 0 <= i < |ids| :: details[i].tenure == ids[i]
    ensures forall id :: id in DetailTenures(details) <==> id in ids
  {
    forall id ensures id in DetailTenures(details) <==> id in ids {
      if id in ids {
        var i :| 0 <= i < |ids| && ids[i] == id;
        assert details[i].tenure == id;
      }
    }
  }

  /** Tenure ids are unique, so a tenure that has a detail is the one the detail was made from. */
  lemma AllResolved(d: Dossier, details: seq<Detail>, target: Option<Id>)
    requires ValidDossier(d) && DetailTenures(details) == AttributableTenures(d, target)
    requires forall i | 0 <= i < |details| :: DetailOf(details[i], d)
    ensures !HasUnresolved(d, target)
  {
    hide AttributableTenures, ValidTenure;
    forall i | 0 <= i < |d.tenures| && d.tenures[i].id in AttributableTenures(d, target) ensures d.tenures[i].mode != Unresolved {
      var j :| 0 <= j < |details| && details[j].tenure == d.tenures[i].id;
      assert DetailOf(details[j], d);
    }
  }

  lemma AttributableHasTenure(d: Dossier, id: Id, target: Option<Id>)
    requires id in AttributableTenures(d, target)
    ensures exists i | 0 <= i < |d.tenures| :: d.tenures[i].id == id
  {
  }

  // ---- contributions ----

  datatype ComponentId = TenureAttributedPerformance | Component(name: Id)

  datatype ComponentInput = ComponentInput(id: ComponentId, weight: int, score: Option<real>, insufficientConfidence: bool)

  datatype Overall = LowConfidence | InsufficientConfidence

  datatype ManagerResult = ManagerResult(score: Option<real>, confidence: Overall, components: seq<ComponentInput>,
                                         contributions: seq<Option<real>>, attribution: Attribution, insufficient: seq<ComponentId>)

  predicate Usable(c: ComponentInput) {
    c.score.Some? && !c.insufficientConfidence
  }

  function Multiplier(c: ComponentInput, factor: real): real {
    if c.id == TenureAttributedPerformance then factor else 1.0
  }

  /** raw score * factor * weight / 100, before rounding. */
  function Exact(score: real, factor: real, weight: int): real {
    score * factor * weight as real / 100.0
  }

  function Contribution(c: ComponentInput, factor: real): Option<real> {
    if Usable(c) then Some(RoundTo(Exact(c.score.value, Multiplier(c, factor), c.weight), SIX_DIGITS)) else None
  }

  function Present(xs: seq<Option<real>>): real {
    if xs == [] then 0.0
    else Present(xs[..|xs| - 1]) + (if xs[|xs| - 1].Some? then xs[|xs| - 1].value else 0.0)
  }

  /** `insufficient` names exactly the unusable ones of the first `n` components. */
  ghost predicate ListsUnusable(insufficient: seq<ComponentId>, components: seq<ComponentInput>, n: nat)
    requires n <= |components|
  {
    forall id :: id in insufficient <==> exists i :: 0 <= i < n && !Usable(components[i]) && components[i].id == id
  }

  lemma NoneListed(components: seq<ComponentInput>)
    ensures ListsUnusable([], components, 0)
  {
  }

  lemma NextListed(before: seq<ComponentId>, components: seq<ComponentInput>, n: nat)
    requires n < |components| && ListsUnusable(before, components, n)
    ensures ListsUnusable(if Usable(components[n]) then before else before + [components[n].id], components, n + 1)
  {
    hide Usable;
  }

  ghost predicate ProducedBy(r: ManagerResult, components: seq<ComponentInput>, factor: real) {
    && r.components == components && |r.contributions| == |components|
    && (forall i | 0 <= i < |components| :: r.contributions[i] == Contribution(components[i], factor))
    && (r.insufficient == [] <==> forall i | 0 <= i < |components| :: Usable(components[i]))
    && ListsUnusable(r.insufficient, components, |components|)
    && r.score == (if r.insufficient == [] then Some(RoundTo(Present(r.contributions), SIX_DIGITS)) else None)
    && r.confidence == (if r.insufficient == [] then LowConfidence else InsufficientConfidence)
  }

  /** The aggregation loop of `score_manager_research`: a scored manager never reports more than low confidence. */
  method ScoreComponents(components: seq<ComponentInput>, attribution: Attribution) returns (r: ManagerResult)
    requires (exists i | 0 <= i < |components| :: components[i].id == TenureAttributedPerformance && components[i].score.Some?) ==> attribution.aggregate.Some?
    ensures r.attribution == attribution
    ensures ProducedBy(r, components, if attribution.aggregate.Some? then attribution.aggregate.value else 0.0)
  {
    hide Exact, RoundTo, ListsUnusable;
    var factor := if attribution.aggregate.Some? then attribution.aggregate.value else 0.0;
    NoneListed(components);
    var contributions: seq<Option<real>>, insufficient: seq<ComponentId> := [], [];
    var total := 0.0;
    for i := 0 to |components|
      invariant |contributions| == i && forall j | 0 <= j < i :: contributions[j] == Contribution(components[j], factor)
      invariant insufficient == [] <==> forall j | 0 <= j < i :: Usable(components[j])
      invariant ListsUnusable(insufficient, components, i)
      invariant total == Present(contributions)
    {
      var c := Contribution(components[i], factor);
      NextListed(insufficient, components, i);
      assert (contributions + [c])[..i] == contributions;
      if c.None? {
        insufficient := insufficient + [components[i].id];
      } else {
        total := total + c.value;
      }
      contributions := contributions + [c];
    }
    r := ManagerResult(if insufficient == [] then Some(RoundTo(total, SIX_DIGITS)) else None,
                       if insufficient == [] then LowConfidence else InsufficientConfidence,
                       components, contributions, attribution, insufficient);
  }

  predicate HasTarget(d: Dossier, target: Id) {
    exists i | 0 <= i < |d.tenures| :: d.tenures[i].strategy == target
  }

  /** When the producer gives a result: every stage of it passes, validation over all tenures included. */
  ghost predicate Producible(d: Dossier, target: Id, components: seq<ComponentInput>) {
    && ValidDossier(d) && HasTarget(d, target)
    && (TenureScored(components) ==> Attributes(d, None) && Attributes(d, Some(target)))
  }

  /** The producer: validation with the attribution over all tenures, the target, its own attribution, then contributions. */
  method ScoreManager(d: Dossier, target: Id, components: seq<ComponentInput>) returns (r: Result<ManagerResult, ManagerError>)
    ensures r.Ok? <==> Producible(d, target, components)
    ensures r == Err(InvalidAttribution) <==> !ValidDossier(d)
    ensures r == Err(NoTargetTenure)
            <==> ValidDossier(d) && !HasTarget(d, target) && (TenureScored(components) ==> Attributes(d, None))
    ensures r == Err(UnresolvedAttribution)
            <==> ValidDossier(d) && TenureScored(components) && HasUnresolved(d, None)
    ensures r.Ok? && TenureScored(components) ==>
              AttributionOf(r.value.attribution, d, Some(target)) && ProducedBy(r.value, components, r.value.attribution.aggregate.value)
    ensures r.Ok? && !TenureScored(components) ==> r.value.attribution == Attribution(None, [], []) && ProducedBy(r.value, components, 0.0)
  {
    TargetWithinAll(d, target);
    hide Attributes, HasUnresolved, ProducedBy, HasTarget, ValidDossier;
    if !ValidDossier(d) {
      return Err(InvalidAttribution);
    }
    if TenureScored(components) {
      var all := TenureAttribution(d, None);
      if all.Err? {
        return Err(all.error);
      }
    }
    if !HasTarget(d, target) {
      return Err(NoTargetTenure);
    }
    var attribution := Attribution(None, [], []);
    if TenureScored(components) {
      var found := TenureAttribution(d, Some(target));
      if found.Err? {
        return Err(found.error);
      }
      attribution := found.value;
    }
    var result := ScoreComponents(components, attribution);
    return Ok(result);
  }

  /** Evidence attributable to one strategy's tenures is attributable among all tenures. */
  lemma TargetWithinAll(d: Dossier, target: Id)
    ensures AttributableTenures(d, Some(target)) <= AttributableTenures(d, None)
    ensures HasUnresolved(d, Some(target)) ==> HasUnresolved(d, None)
    ensures HasUnresolved(d, None) ==> !Attributes(d, None)
    ensures Attributes(d, None) ==> !HasUnresolved(d, Some(target))
  {
    hide Attributable;
    WithinAll(d, target);
    if HasUnresolved(d, Some(target)) {
      var i :| 0 <= i < |d.tenures| && d.tenures[i].id in AttributableTenures(d, Some(target)) && d.tenures[i].mode == Unresolved;
      assert d.tenures[i].id in AttributableTenures(d, None);
    }
  }

  lemma WithinAll(d: Dossier, target: Id)
    ensures AttributableTenures(d, Some(target)) <= AttributableTenures(d, None)
  {
    hide Qualified;
    forall id | id in AttributableTenures(d, Some(target)) ensures id in AttributableTenures(d, None) {
      var k :| 0 <= k < |d.performance| && Attributable(d.performance[k], d, Some(target)) && d.performance[k].tenure == id;
      assert Attributable(d.performance[k], d, None);
    }
  }

  predicate TenureScored(components: seq<ComponentInput>) {
    exists i | 0 <= i < |components| :: components[i].id == TenureAttributedPerformance && components[i].score.Some?
  }

  /** When a result is produced, in plain words: valid attributions, a tenure of the target, and, if the tenure component has a score, resolved evidence. */
  lemma ProducibleMeaning(d: Dossier, target: Id, components: seq<ComponentInput>)
    ensures Producible(d, target, components) <==>
              && ValidDossier(d) && (exists t :: t in d.tenures && t.strategy == target)
              && ((exists c :: c in components && c.id == TenureAttributedPerformance && c.score.Some?)
                    ==> Attributes(d, None) && Attributes(d, Some(target)))
  {
    hide ValidDossier, Attributes;
    if t :| t in d.tenures && t.strategy == target {
      var i :| 0 <= i < |d.tenures| && d.tenures[i] == t;
    }
    if c :| c in components && c.id == TenureAttributedPerformance && c.score.Some? {
      var i :| 0 <= i < |components| && components[i] == c;
    }
  }

  // ---- the independent audit ----

  predicate AuditDetail(d: Detail) {
    && (forall i, j | 0 <= i < j < |d.coManagers| :: d.coManagers[i] != d.coManagers[j])
    && match d.mode
       case Individual => d.coManagers == [] && d.factor == 1.0
       case Team => d.coManagers != [] && d.factor == RoundTo(1.0 / (1 + |d.coManagers|) as real, 1_000_000)
       case RoleWeighted => d.coManagers != [] && 0.0 < d.factor < 1.0
       case Unresolved => false
  }

  /** The audit's own sum of the contributions, from the first on. */
  function AddedUp(xs: seq<Option<real>>): real {
    if xs == [] then 0.0 else (if xs[0].Some? then xs[0].value else 0.0) + AddedUp(xs[1..])
  }

  /** The audit's own sum of the factors, from the first on. */
  function SumOfFactors(details: seq<Detail>): real {
    if details == [] then 0.0 else details[0].factor + SumOfFactors(details[1..])
  }

  function ExpectedFactor(details: seq<Detail>): real
    requires details != []
  {
    RoundTo(SumOfFactors(details) / |details| as real, 1_000_000)
  }

  function AbsoluteGap(x: real, y: real): real {
    if x < y then y - x else x - y
  }

  const TOLERANCE := 0.000001

  /** The arithmetic of `_manager_audit`: components, contributions, score, attribution, then their reconciliation. */
  predicate AuditorAccepts(r: ManagerResult) {
    && |r.contributions| == |r.components|
    && (forall i | 0 <= i < |r.components| :: r.components[i].score.Some? && 0.0 <= r.components[i].score.value <= 100.0)
    && (forall i | 0 <= i < |r.components| :: r.contributions[i].Some? && 0.0 <= r.contributions[i].value <= r.components[i].weight as real)
    && r.score.Some? && AbsoluteGap(AddedUp(r.contributions), r.score.value) <= TOLERANCE
    && r.insufficient == []
    && r.attribution.details != [] && r.attribution.observations != []
    && r.attribution.aggregate.Some? && 0.0 < r.attribution.aggregate.value <= 1.0
    && (forall i, j | 0 <= i < j < |r.attribution.details| :: r.attribution.details[i].tenure != r.attribution.details[j].tenure)
    && (forall i | 0 <= i < |r.attribution.details| :: AuditDetail(r.attribution.details[i]))
    && r.attribution.aggregate.value == ExpectedFactor(r.attribution.details)
    && (forall i | 0 <= i < |r.components| :: Reconciles(r.components[i], r.contributions[i].value, r.attribution.aggregate.value))
    && ObservedTenures(r.attribution.observations) == DetailTenures(r.attribution.details)
    && 0.0 <= r.score.value <= 100.0 && r.confidence == LowConfidence
  }

  /** What the audit expects a component to contribute: only the tenure component is discounted by the factor. */
  function ExpectedAmount(c: ComponentInput, factor: real): real
    requires c.score.Some?
  {
    if c.id == TenureAttributedPerformance then c.score.value * factor * c.weight as real / 100.0
    else c.score.value * c.weight as real / 100.0
  }

  predicate Reconciles(c: ComponentInput, contribution: real, factor: real)
    requires c.score.Some?
  {
    AbsoluteGap(contribution, ExpectedAmount(c, factor)) <= TOLERANCE
  }
}
