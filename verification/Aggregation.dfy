/**
  The scoring half of `_score_category_metrics` in src/openfundscore/category_metrics.py: raw values
  and peers to metric scores to dimension scores to one open score, with denominators that never
  shrink when something is missing.
 */
module Aggregation {
  import opened Prelude
  import opened Normalization
  import opened Ordering
  import opened RealFacts
  import opened Rounding

  datatype HistoryStage = InsufficientHistory | Observation | Provisional | Established

  datatype Confidence = Medium | Low | NoConfidence

  datatype MetricState = Observed | Absent | NotApplicable

  /** One declared metric with its reading and the peers filed under its id; `raw` is meaningful when it is observed. */
  datatype Reading = Reading(id: Id, weight: int, core: bool, state: MetricState, direction: Direction, raw: real, peers: seq<real>)

  datatype Section = Section(name: Id, kind: Kind, weight: int, readings: seq<Reading>)

  /** `peerScore` is the normalised score of the metric if it is observed and normalised, and 0 otherwise. */
  datatype Metric = Metric(id: Id, weight: int, core: bool, state: MetricState, peerScore: real)

  datatype Kind = PerformanceEvidence | ManagerCapability | OtherDimension

  datatype Dimension = Dimension(name: Id, kind: Kind, weight: int, metrics: seq<Metric>)

  datatype Status = Scored | ShortHistory | CoreBlocked

  datatype DimensionScore = DimensionScore(name: Id, weight: int, status: Status, score: Option<real>, contribution: Option<real>)

  datatype CategoryScore = CategoryScore(stage: HistoryStage, confidence: Confidence, openScore: Option<real>,
                                         dimensions: seq<DimensionScore>, insufficient: seq<Id>)

  datatype AggregationError = InvalidAggregation

  datatype CategoryError = TooManyPeers | PeersOfUnscored | NotNormalized(normalizing: NormalizeError) | NotAggregated(aggregating: AggregationError)

  /** `_history_stage` */
  function StageOf(months: int, adequateCoverage: bool): HistoryStage {
    if months < 6 then InsufficientHistory
    else if months < 12 then Observation
    else if months < 36 || !adequateCoverage then Provisional
    else Established
  }

  /** A performance metric is not scored at all on under 12 months of history. */
  function ScoreOf(m: Metric, kind: Kind, months: int): Option<real> {
    if m.state != Observed || (kind == PerformanceEvidence && months < 12) then None else Some(m.peerScore)
  }

  function Weighted(value: real, weight: int): real {
    value * weight as real / 100.0
  }

  /** The weighted sum of the metrics, which are all scored. */
  function MetricSum(ms: seq<Metric>): real {
    if ms == [] then 0.0 else MetricSum(ms[..|ms| - 1]) + Weighted(ms[|ms| - 1].peerScore, ms[|ms| - 1].weight)
  }

  ghost predicate EveryMetricScored(d: Dimension, months: int) {
    forall i | 0 <= i < |d.metrics| :: ScoreOf(d.metrics[i], d.kind, months).Some?
  }

  /** One metric dimension; an unscored core metric blocks it, an unscored optional one cannot be aggregated. */
  function ScoreDimension(d: Dimension, months: int): Result<DimensionScore, AggregationError> {
    if d.kind == PerformanceEvidence && months < 12 then Ok(DimensionScore(d.name, d.weight, ShortHistory, None, None))
    else if exists i | 0 <= i < |d.metrics| :: d.metrics[i].core && ScoreOf(d.metrics[i], d.kind, months).None? then
      Ok(DimensionScore(d.name, d.weight, CoreBlocked, None, None))
    else if exists i | 0 <= i < |d.metrics| :: ScoreOf(d.metrics[i], d.kind, months).None? then Err(InvalidAggregation)
    else Ok(DimensionScore(d.name, d.weight, Scored, Some(MetricSum(d.metrics)), Some(Weighted(MetricSum(d.metrics), d.weight))))
  }

  function ManagerDimension(d: Dimension, manager: real): DimensionScore {
    DimensionScore(d.name, d.weight, Scored, Some(manager), Some(Weighted(manager, d.weight)))
  }

  function DimensionOf(d: Dimension, months: int, manager: real): Result<DimensionScore, AggregationError> {
    if d.kind == ManagerCapability then Ok(ManagerDimension(d, manager)) else ScoreDimension(d, months)
  }

  /** The unrounded total, when every dimension is scored. */
  function Total(ds: seq<Dimension>, manager: real): real {
    if ds == [] then 0.0
    else
      var d := ds[|ds| - 1];
      Total(ds[..|ds| - 1], manager) + Weighted(if d.kind == ManagerCapability then manager else MetricSum(d.metrics), d.weight)
  }

  ghost predicate EverythingScored(ds: seq<Dimension>, months: int) {
    forall i | 0 <= i < |ds| && ds[i].kind != ManagerCapability :: EveryMetricScored(ds[i], months)
  }

  predicate AllCore(ds: seq<Dimension>) {
    forall i, j | 0 <= i < |ds| && 0 <= j < |ds[i].metrics| :: ds[i].metrics[j].core
  }

  function ConfidenceOf(stage: HistoryStage, scored: bool, managerConfidence: Confidence): Confidence {
    var own := if !scored then NoConfidence else if stage == Established then Medium else if stage == Provisional then Low else NoConfidence;
    if own != NoConfidence && managerConfidence == Low then Low else own
  }

  /**
    What one metric dimension comes to: no score on short history, blocked by an unobserved core metric, refused when only
    an optional metric is unobserved, and otherwise scored, contributing its weight in hundredths of its score.
   */
  lemma DimensionMeaning(d: Dimension, months: int)
    ensures var r, short := ScoreDimension(d, months), d.kind == PerformanceEvidence && months < 12;
            var core := exists i :: 0 <= i < |d.metrics| && d.metrics[i].core && d.metrics[i].state != Observed;
            var any := exists i :: 0 <= i < |d.metrics| && d.metrics[i].state != Observed;
            && (r.Err? <==> !short && !core && any)
            && (r.Ok? ==> r.value.name == d.name && r.value.weight == d.weight)
            && (r.Ok? && r.value.status == ShortHistory <==> short)
            && (r.Ok? && r.value.status == CoreBlocked <==> !short && core)
            && (r.Ok? ==> (r.value.score.Some? <==> r.value.status == Scored) && (r.value.contribution.Some? <==> r.value.score.Some?))
            && (r.Ok? && r.value.score.Some? ==> r.value.contribution.value * 100.0 == r.value.score.value * d.weight as real)
  {
    hide MetricSum;
  }

  method ScoreMetrics(d: Dimension, months: int) returns (r: Result<DimensionScore, AggregationError>)
    ensures r == ScoreDimension(d, months)
  {
    if d.kind == PerformanceEvidence && months < 12 {
      return Ok(DimensionScore(d.name, d.weight, ShortHistory, None, None));
    }
    if exists i | 0 <= i < |d.metrics| :: d.metrics[i].core && ScoreOf(d.metrics[i], d.kind, months).None? {
      return Ok(DimensionScore(d.name, d.weight, CoreBlocked, None, None));
    }
    var score := 0.0;
    for i := 0 to |d.metrics|
      invariant forall j | 0 <= j < i :: ScoreOf(d.metrics[j], d.kind, months).Some?
      invariant score == MetricSum(d.metrics[..i])
    {
      assert d.metrics[..i + 1][..i] == d.metrics[..i];
      var value := ScoreOf(d.metrics[i], d.kind, months);
      if value.None? {
        return Err(InvalidAggregation);
      }
      score := score + Weighted(value.value, d.metrics[i].weight);
    }
    assert d.metrics[..|d.metrics|] == d.metrics;
    return Ok(DimensionScore(d.name, d.weight, Scored, Some(score), Some(Weighted(score, d.weight))));
  }

  // ---- from readings to metrics ----

  /** Performance evidence is not normalised at all on under 12 months of history. */
  predicate Normalizes(m: Reading, kind: Kind, months: int) {
    m.state == Observed && !(kind == PerformanceEvidence && months < 12)
  }

  predicate SampleFits(m: Reading, kind: Kind, months: int) {
    Normalizes(m, kind, months) ==> MINIMUM_PEERS <= |m.peers| <= MAXIMUM_PEERS
  }

  function MetricOf(m: Reading, kind: Kind, months: int): Metric {
    Metric(m.id, m.weight, m.core, m.state,
           if Normalizes(m, kind, months) && m.peers != [] then Normalize(m.raw, m.peers, m.direction).score else 0.0)
  }

  function DimensionFrom(s: Section, months: int): (d: Dimension)
    ensures |d.metrics| == |s.readings|
    ensures forall j | 0 <= j < |s.readings| :: d.metrics[j] == MetricOf(s.readings[j], s.kind, months)
  {
    Dimension(s.name, s.kind, s.weight, seq(|s.readings|, j requires 0 <= j < |s.readings| => MetricOf(s.readings[j], s.kind, months)))
  }

  function ProfileOf(ss: seq<Section>, months: int): (ds: seq<Dimension>)
    ensures |ds| == |ss| && forall i | 0 <= i < |ss| :: ds[i] == DimensionFrom(ss[i], months)
  {
    seq(|ss|, i requires 0 <= i < |ss| => DimensionFrom(ss[i], months))
  }

  predicate SamplesFit(s: Section, months: int) {
    s.kind != ManagerCapability ==> forall j | 0 <= j < |s.readings| :: SampleFits(s.readings[j], s.kind, months)
  }

  predicate HasPeersOfUnscored(ss: seq<Section>) {
    exists i, j | 0 <= i < |ss| && 0 <= j < |ss[i].readings| :: ss[i].readings[j].state != Observed && ss[i].readings[j].peers != []
  }

  function PeerCount(ms: seq<Reading>): nat {
    if ms == [] then 0 else PeerCount(ms[..|ms| - 1]) + |ms[|ms| - 1].peers|
  }

  function PeerTotal(ss: seq<Section>): nat {
    if ss == [] then 0 else PeerTotal(ss[..|ss| - 1]) + PeerCount(ss[|ss| - 1].readings)
  }

  function ReadingTotal(ss: seq<Section>): nat {
    if ss == [] then 0 else ReadingTotal(ss[..|ss| - 1]) + |ss[|ss| - 1].readings|
  }

  /** The peers of the whole profile are within the limit, and none belongs to an unobserved metric. */
  predicate PeersAdmitted(ss: seq<Section>) {
    PeerTotal(ss) <= ReadingTotal(ss) * MAXIMUM_PEERS && !HasPeersOfUnscored(ss)
  }

  lemma {:induction false} PeersJoin(a: seq<Reading>, b: seq<Reading>)
    ensures PeerCount(a + b) == PeerCount(a) + PeerCount(b)
  {
    if b == [] {
      assert a + b == a;
    } else {
      var n := |b| - 1;
      PeersJoin(a, b[..n]);
      assert (a + b)[..|a + b| - 1] == a + b[..n];
    }
  }

  /** All readings of a profile, section after section. */
  function AllReadings(ss: seq<Section>): seq<Reading> {
    if ss == [] then [] else AllReadings(ss[..|ss| - 1]) + ss[|ss| - 1].readings
  }

  /** The peer limit is about all peers and all readings of the profile. */
  lemma {:induction false} TotalsMeaning(ss: seq<Section>)
    ensures ReadingTotal(ss) == |AllReadings(ss)| && PeerTotal(ss) == PeerCount(AllReadings(ss))
  {
    hide PeerCount;
    if ss != [] {
      var n := |ss| - 1;
      TotalsMeaning(ss[..n]);
      PeersJoin(AllReadings(ss[..n]), ss[n].readings);
    } else {
      NoPeers();
    }
  }

  lemma NoPeers()
    ensures PeerCount([]) == 0
  {
  }

  /** One more reading adds its own peers. */
  lemma OneMoreReading(ms: seq<Reading>, m: Reading)
    ensures PeerCount(ms + [m]) == PeerCount(ms) + |m.peers|
  {
    assert (ms + [m])[..|ms|] == ms;
  }

  /** A reading keeps its identity, weight, importance and state; it is scored against its peers exactly when it is observed and not too young. */
  lemma MetricMeaning(m: Reading, kind: Kind, months: int)
    ensures var n := MetricOf(m, kind, months);
            && n.id == m.id && n.weight == m.weight && n.core == m.core && n.state == m.state
            && (m.state == Observed && (kind != PerformanceEvidence || months >= 12) && m.peers != [] ==>
                  n.peerScore == Normalize(m.raw, m.peers, m.direction).score)
  {
    hide Normalize;
  }

  method NormalizeSection(s: Section, months: int) returns (r: Result<Dimension, CategoryError>)
    requires forall j | 0 <= j < |s.readings| && s.readings[j].state != Observed :: s.readings[j].peers == []
    requires s.kind != ManagerCapability
    ensures r.Ok? <==> SamplesFit(s, months)
    ensures r.Ok? ==> r.value == DimensionFrom(s, months)
    ensures r.Err? ==> r.error.NotNormalized?
  {
    hide Normalize;
    var metrics: seq<Metric> := [];
    for j := 0 to |s.readings|
      invariant |metrics| == j
      invariant forall k | 0 <= k < j :: SampleFits(s.readings[k], s.kind, months) && metrics[k] == MetricOf(s.readings[k], s.kind, months)
    {
      var m := s.readings[j];
      var score := 0.0;
      if !(s.kind == PerformanceEvidence && months < 12 && m.state == Observed) {
        var one := NormalizeMetric(if m.state == Observed then Some(m.raw) else None, m.peers, m.direction);
        if one.Err? {
          assert !SampleFits(m, s.kind, months);
          return Err(NotNormalized(one.error));
        }
        if one.value.Score? {
          score := one.value.n.score;
        }
      }
      metrics := metrics + [Metric(m.id, m.weight, m.core, m.state, score)];
    }
    assert metrics == DimensionFrom(s, months).metrics;
    return Ok(Dimension(s.name, s.kind, s.weight, metrics));
  }

  /**
    Scores a profile from its readings. It succeeds exactly when the peers are admitted, every sample
    that is normalised has 5 to 10,000 peers, and every dimension aggregates (which it always does when
    every metric is core). An open score is given exactly when the history covers 12 months and
    everything is scored; it is then the rounded fixed-weight total of the peer-normalised readings.
   */
  method ScoreCategory(ss: seq<Section>, months: int, adequateCoverage: bool, manager: real,
                       managerConfidence: Confidence, precision: nat)
    returns (r: Result<CategoryScore, CategoryError>)
    ensures r == Err(TooManyPeers) <==> PeerTotal(ss) > ReadingTotal(ss) * MAXIMUM_PEERS
    ensures r == Err(PeersOfUnscored) <==> PeerTotal(ss) <= ReadingTotal(ss) * MAXIMUM_PEERS && HasPeersOfUnscored(ss)
    ensures r.Ok? <==> PeersAdmitted(ss) && (forall i | 0 <= i < |ss| :: SamplesFit(ss[i], months))
                       && (forall i | 0 <= i < |ss| :: DimensionOf(ProfileOf(ss, months)[i], months, manager).Ok?)
    ensures AllCore(ProfileOf(ss, months)) && PeersAdmitted(ss) && (forall i | 0 <= i < |ss| :: SamplesFit(ss[i], months)) ==> r.Ok?
    ensures r.Ok? ==> r.value.stage == StageOf(months, adequateCoverage)
    ensures r.Ok? ==> |r.value.dimensions| == |ss|
    ensures r.Ok? ==> forall i | 0 <= i < |ss| :: Ok(r.value.dimensions[i]) == DimensionOf(ProfileOf(ss, months)[i], months, manager)
    ensures r.Ok? ==> (r.value.openScore.Some? <==> months >= 12 && EverythingScored(ProfileOf(ss, months), months))
    ensures r.Ok? && r.value.openScore.Some? ==>
              r.value.openScore.value == RoundTo(Total(ProfileOf(ss, months), manager), Pow10(precision))
    ensures r.Ok? ==> r.value.confidence == ConfidenceOf(r.value.stage, r.value.openScore.Some?, managerConfidence)
    ensures r.Ok? ==>
              && (r.value.stage == Established <==> months >= 36 && adequateCoverage)
              && (r.value.stage == Provisional <==> months >= 12 && (months < 36 || !adequateCoverage))
              && (r.value.stage == Observation <==> 6 <= months < 12)
    ensures r.Ok? ==>
              && (r.value.confidence == NoConfidence <==> r.value.openScore.None?)
              && (r.value.confidence == Medium <==> r.value.openScore.Some? && months >= 36 && adequateCoverage && managerConfidence != Low)
    ensures r.Ok? ==> forall name :: name in r.value.insufficient
                                     <==> exists i :: 0 <= i < |ss| && ss[i].name == name && r.value.dimensions[i].score.None?
  {
    hide DimensionFrom, SamplesFit, EverythingScored, Total, PeerTotal, ReadingTotal, DimensionOf, RoundTo, AllCore;
    if PeerTotal(ss) > ReadingTotal(ss) * MAXIMUM_PEERS {
      return Err(TooManyPeers);
    }
    if HasPeersOfUnscored(ss) {
      return Err(PeersOfUnscored);
    }
    ghost var ds := ProfileOf(ss, months);
    var results: seq<DimensionScore>, insufficient: seq<Id> := [], [];
    for i := 0 to |ss|
      invariant |results| == i
      invariant forall j | 0 <= j < i :: SamplesFit(ss[j], months) && Ok(results[j]) == DimensionOf(ds[j], months, manager)
      invariant insufficient == [] <==> forall j | 0 <= j < i :: results[j].score.Some?
      invariant forall name :: name in insufficient <==> exists j :: 0 <= j < i && ss[j].name == name && results[j].score.None?
    {
      var one := ScoreSection(ss[i], months, manager);
      if one.Err? {
        CoreAggregates(ds, i, months, manager);
        assert !(SamplesFit(ss[i], months) && DimensionOf(ds[i], months, manager).Ok?);
        return Err(one.error);
      }
      results := results + [one.value];
      if one.value.score.None? {
        insufficient := insufficient + [ss[i].name];
      }
    }
    var stage := StageOf(months, adequateCoverage);
    var canScore := stage != InsufficientHistory && stage != Observation && insufficient == [];
    ScoredExactly(ds, months, manager, results);
    var open: Option<real> := None;
    if canScore {
      var total := SumContributions(ds, months, manager, results);
      open := Some(RoundTo(total, Pow10(precision)));
    }
    return Ok(CategoryScore(stage, ConfidenceOf(stage, canScore, managerConfidence), open, results, insufficient));
  }

  method ScoreSection(s: Section, months: int, manager: real) returns (r: Result<DimensionScore, CategoryError>)
    requires forall j | 0 <= j < |s.readings| && s.readings[j].state != Observed :: s.readings[j].peers == []
    ensures r.Ok? <==> SamplesFit(s, months) && DimensionOf(DimensionFrom(s, months), months, manager).Ok?
    ensures r.Ok? ==> Ok(r.value) == DimensionOf(DimensionFrom(s, months), months, manager)
    ensures r.Err? ==> r.error.NotNormalized? || r.error.NotAggregated?
  {
    hide ScoreDimension, MetricOf, SampleFits;
    if s.kind == ManagerCapability {
      return Ok(DimensionScore(s.name, s.weight, Scored, Some(manager), Some(Weighted(manager, s.weight))));
    }
    var d := NormalizeSection(s, months);
    if d.Err? {
      return Err(d.error);
    }
    var one := ScoreMetrics(d.value, months);
    if one.Err? {
      return Err(NotAggregated(one.error));
    }
    return Ok(one.value);
  }

  lemma CoreAggregates(ds: seq<Dimension>, i: nat, months: int, manager: real)
    requires i < |ds|
    ensures AllCore(ds) ==> DimensionOf(ds[i], months, manager).Ok?
  {
  }

  lemma ScoredExactly(ds: seq<Dimension>, months: int, manager: real, results: seq<DimensionScore>)
    requires |results| == |ds| && forall j | 0 <= j < |ds| :: Ok(results[j]) == DimensionOf(ds[j], months, manager)
    ensures months >= 12 ==> ((forall j | 0 <= j < |ds| :: results[j].score.Some?) <==> EverythingScored(ds, months))
  {
    if months >= 12 {
      forall j | 0 <= j < |ds| && ds[j].kind != ManagerCapability ensures results[j].score.Some? <==> EveryMetricScored(ds[j], months) {
        assert Ok(results[j]) == ScoreDimension(ds[j], months);
      }
    }
  }

  method SumContributions(ghost ds: seq<Dimension>, months: int, manager: real, results: seq<DimensionScore>) returns (total: real)
    requires |results| == |ds| && forall j | 0 <= j < |ds| :: Ok(results[j]) == DimensionOf(ds[j], months, manager)
    requires forall j | 0 <= j < |ds| :: results[j].score.Some?
    ensures total == Total(ds, manager)
  {
    total := 0.0;
    for i := 0 to |results|
      invariant total == Total(ds[..i], manager)
    {
      assert ds[..i + 1][..i] == ds[..i];
      assert Ok(results[i]) == DimensionOf(ds[i], months, manager);
      total := total + results[i].contribution.value;
    }
    assert ds[..|ds|] == ds;
  }

  // ---- range ----

  function MetricWeights(ms: seq<Metric>): int {
    if ms == [] then 0 else MetricWeights(ms[..|ms| - 1]) + ms[|ms| - 1].weight
  }

  function DimensionWeights(ds: seq<Dimension>): int {
    if ds == [] then 0 else DimensionWeights(ds[..|ds| - 1]) + ds[|ds| - 1].weight
  }

  predicate Percentage(x: real) { 0.0 <= x <= 100.0 }

  /** Weights are nonnegative and total 100 within every metric dimension and across dimensions. */
  predicate FixedWeights(ds: seq<Dimension>) {
    && DimensionWeights(ds) == 100
    && (forall i | 0 <= i < |ds| :: ds[i].weight >= 0)
    && (forall i | 0 <= i < |ds| && ds[i].kind != ManagerCapability :: MetricWeights(ds[i].metrics) == 100)
    && (forall i, j | 0 <= i < |ds| && 0 <= j < |ds[i].metrics| :: ds[i].metrics[j].weight >= 0)
  }

  predicate MetricsInRange(ds: seq<Dimension>) {
    forall i, j | 0 <= i < |ds| && 0 <= j < |ds[i].metrics| :: Percentage(ds[i].metrics[j].peerScore)
  }

  lemma WeightedRange(value: real, weight: int)
    requires Percentage(value) && weight >= 0
    ensures 0.0 <= Weighted(value, weight) <= weight as real
  {
    var w, rest := weight as real, 100.0 - value;
    NonNegativeProduct(value, w);
    NonNegativeProduct(rest, w);
    assert rest * w == 100.0 * w - value * w;
  }

  lemma {:induction false} MetricSumRange(ms: seq<Metric>)
    requires forall j | 0 <= j < |ms| :: ms[j].weight >= 0 && Percentage(ms[j].peerScore)
    ensures 0.0 <= MetricSum(ms) <= MetricWeights(ms) as real
  {
    hide Weighted;
    if ms != [] {
      MetricSumRange(ms[..|ms| - 1]);
      WeightedRange(ms[|ms| - 1].peerScore, ms[|ms| - 1].weight);
    }
  }

  lemma {:induction false} TotalRange(ds: seq<Dimension>, manager: real)
    requires forall i | 0 <= i < |ds| :: ds[i].weight >= 0
    requires forall i | 0 <= i < |ds| && ds[i].kind != ManagerCapability :: Percentage(MetricSum(ds[i].metrics))
    requires Percentage(manager)
    ensures 0.0 <= Total(ds, manager) <= DimensionWeights(ds) as real
  {
    hide Weighted, MetricSum;
    if ds != [] {
      var d := ds[|ds| - 1];
      TotalRange(ds[..|ds| - 1], manager);
      WeightedRange(if d.kind == ManagerCapability then manager else MetricSum(d.metrics), d.weight);
    }
  }

  /** With weights totalling 100 at both levels the open score lies in [0, 100], rounding included. */
  lemma OpenScoreInRange(ds: seq<Dimension>, manager: real, precision: nat)
    requires FixedWeights(ds) && MetricsInRange(ds) && Percentage(manager)
    ensures Percentage(Total(ds, manager))
    ensures Percentage(RoundTo(Total(ds, manager), Pow10(precision)))
  {
    hide MetricSum, RoundTo;
    forall i | 0 <= i < |ds| && ds[i].kind != ManagerCapability ensures Percentage(MetricSum(ds[i].metrics)) {
      MetricSumRange(ds[i].metrics);
    }
    TotalRange(ds, manager);
    RoundWithin(Total(ds, manager), 0, 100, Pow10(precision));
  }

  // ---- sensitivity: denominators are fixed ----

  lemma WeightedAdds(x: real, d: real, weight: int)
    ensures Weighted(x + d, weight) == Weighted(x, weight) + Weighted(d, weight)
  {
    assert (x + d) * weight as real == x * weight as real + d * weight as real;
  }

  function Raise(ms: seq<Metric>, j: nat, d: real): seq<Metric>
    requires j < |ms|
  {
    ms[j := ms[j].(peerScore := ms[j].peerScore + d)]
  }

  lemma {:induction false} MetricSensitivity(ms: seq<Metric>, j: nat, d: real)
    requires j < |ms|
    ensures MetricSum(Raise(ms, j, d)) == MetricSum(ms) + Weighted(d, ms[j].weight)
  {
    hide Weighted;
    var n := |ms| - 1;
    if j < n {
      MetricSensitivity(ms[..n], j, d);
      assert Raise(ms, j, d)[..n] == Raise(ms[..n], j, d);
    } else {
      assert Raise(ms, j, d)[..n] == ms[..n];
      WeightedAdds(ms[n].peerScore, d, ms[n].weight);
    }
  }

  lemma {:induction false} DimensionSensitivity(ds: seq<Dimension>, i: nat, changed: Dimension, delta: real, manager: real)
    requires i < |ds| && ds[i].kind != ManagerCapability
    requires changed.kind == ds[i].kind && changed.weight == ds[i].weight && MetricSum(changed.metrics) == MetricSum(ds[i].metrics) + delta
    ensures Total(ds[i := changed], manager) == Total(ds, manager) + Weighted(delta, ds[i].weight)
  {
    hide Weighted, MetricSum;
    var n := |ds| - 1;
    if i < n {
      DimensionSensitivity(ds[..n], i, changed, delta, manager);
      assert ds[i := changed][..n] == ds[..n][i := changed];
    } else {
      assert ds[i := changed][..n] == ds[..n];
      WeightedAdds(MetricSum(ds[n].metrics), delta, ds[n].weight);
    }
  }

  /** Raising one metric score by `d` moves the unrounded total by exactly dimension weight * metric weight * d / 10000. */
  lemma ScoreSensitivity(ds: seq<Dimension>, i: nat, j: nat, d: real, manager: real)
    requires i < |ds| && ds[i].kind != ManagerCapability && j < |ds[i].metrics|
    ensures Total(ds[i := ds[i].(metrics := Raise(ds[i].metrics, j, d))], manager)
         == Total(ds, manager) + (ds[i].weight * ds[i].metrics[j].weight) as real * d / 10000.0
  {
    hide Total, Weighted, MetricSum;
    var w, v := ds[i].weight, ds[i].metrics[j].weight;
    MetricSensitivity(ds[i].metrics, j, d);
    DimensionSensitivity(ds, i, ds[i].(metrics := Raise(ds[i].metrics, j, d)), Weighted(d, v), manager);
    TwoLevels(d, v, w);
  }

  lemma TwoLevels(d: real, v: int, w: int)
    ensures Weighted(Weighted(d, v), w) == (w * v) as real * d / 10000.0
  {
    assert (w * v) as real == w as real * v as real;
    assert d * v as real / 100.0 * w as real / 100.0 == (d * v as real) * w as real / 10000.0;
    assert (d * v as real) * w as real == (w as real * v as real) * d;
  }

  // ---- what the weights mean ----

  lemma WeightsAdd(x: real, v: int, w: int)
    ensures Weighted(x, v) + Weighted(x, w) == Weighted(x, v + w)
  {
    assert x * (v + w) as real == x * v as real + x * w as real;
  }

  lemma WeightOfNothing(x: real)
    ensures Weighted(x, 0) == 0.0 && Weighted(x, 100) == x
  {
  }

  lemma {:induction false} MetricConsensus(ms: seq<Metric>, x: real)
    requires forall j | 0 <= j < |ms| :: ms[j].peerScore == x
    ensures MetricSum(ms) == Weighted(x, MetricWeights(ms))
  {
    WeightOfNothing(x);
    hide Weighted;
    if ms != [] {
      var n := |ms| - 1;
      MetricConsensus(ms[..n], x);
      WeightsAdd(x, MetricWeights(ms[..n]), ms[n].weight);
    }
  }

  lemma {:induction false} DimensionConsensus(ds: seq<Dimension>, x: real)
    requires forall i | 0 <= i < |ds| && ds[i].kind != ManagerCapability :: MetricSum(ds[i].metrics) == x
    ensures Total(ds, x) == Weighted(x, DimensionWeights(ds))
  {
    WeightOfNothing(x);
    hide Weighted, MetricSum;
    if ds != [] {
      var n := |ds| - 1;
      DimensionConsensus(ds[..n], x);
      WeightsAdd(x, DimensionWeights(ds[..n]), ds[n].weight);
    }
  }

  /** If every metric and the manager score the same, so does the category: the weights average, at both levels. */
  lemma Consensus(ds: seq<Dimension>, x: real)
    requires FixedWeights(ds)
    requires forall i, j | 0 <= i < |ds| && ds[i].kind != ManagerCapability && 0 <= j < |ds[i].metrics| :: ds[i].metrics[j].peerScore == x
    ensures Total(ds, x) == x
  {
    WeightOfNothing(x);
    hide Weighted, MetricSum, Total, MetricWeights, DimensionWeights;
    forall i | 0 <= i < |ds| && ds[i].kind != ManagerCapability ensures MetricSum(ds[i].metrics) == x {
      MetricConsensus(ds[i].metrics, x);
    }
    DimensionConsensus(ds, x);
  }

  function ManagerWeight(ds: seq<Dimension>): int {
    if ds == [] then 0 else ManagerWeight(ds[..|ds| - 1]) + (if ds[|ds| - 1].kind == ManagerCapability then ds[|ds| - 1].weight else 0)
  }

  /** Raising the manager score by `d` moves the unrounded total by exactly the manager dimension's weight times d / 100. */
  lemma {:induction false} ManagerSensitivity(ds: seq<Dimension>, manager: real, d: real)
    ensures Total(ds, manager + d) == Total(ds, manager) + Weighted(d, ManagerWeight(ds))
  {
    WeightOfNothing(d);
    hide Weighted, MetricSum;
    if ds != [] {
      var n := |ds| - 1;
      ManagerSensitivity(ds[..n], manager, d);
      if ds[n].kind == ManagerCapability {
        WeightedAdds(manager, d, ds[n].weight);
        WeightsAdd(d, ManagerWeight(ds[..n]), ds[n].weight);
      }
    }
  }
}
