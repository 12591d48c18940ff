/** The two halves of a category score composed: what the open score owes to raw readings and their peers. */
module CategoryLaws {
  import opened Prelude
  import opened Aggregation
  import opened Normalization
  import opened NormalizationLaws
  import opened Ordering
  import opened RealFacts
  import opened Rounding

  /** The open score of a profile in which everything is scored. */
  function OpenScore(ss: seq<Section>, months: int, manager: real, precision: nat): real {
    RoundTo(Total(ProfileOf(ss, months), manager), Pow10(precision))
  }

  // ---- range ----

  lemma MetricInRange(m: Reading, kind: Kind, months: int)
    ensures Percentage(MetricOf(m, kind, months).peerScore)
  {
    hide Normalize;
    if m.peers != [] {
      ScoreInRange(m.raw, m.peers, m.direction);
    }
  }

  /** Whatever the readings and the peers, fixed weights keep the open score in [0, 100]. */
  lemma CategoryScoreInRange(ss: seq<Section>, months: int, manager: real, precision: nat)
    requires FixedWeights(ProfileOf(ss, months)) && Percentage(manager)
    ensures Percentage(OpenScore(ss, months, manager, precision))
  {
    hide MetricOf, FixedWeights, RoundTo, Percentage;
    var ds := ProfileOf(ss, months);
    forall i, j | 0 <= i < |ds| && 0 <= j < |ds[i].metrics| ensures Percentage(ds[i].metrics[j].peerScore) {
      MetricInRange(ss[i].readings[j], ss[i].kind, months);
    }
    OpenScoreInRange(ds, manager, precision);
  }

  // ---- monotone in every raw value ----

  /** `n` is the same metric as `m` with the same peers, and its raw value is at least as good in the declared direction. */
  predicate AtLeastAsGood(n: Reading, m: Reading) {
    && n == m.(raw := n.raw)
    && if m.direction == HigherIsBetter then m.raw <= n.raw else n.raw <= m.raw
  }

  predicate SectionAtLeastAsGood(t: Section, s: Section) {
    && t == s.(readings := t.readings) && |t.readings| == |s.readings|
    && forall j | 0 <= j < |s.readings| :: AtLeastAsGood(t.readings[j], s.readings[j])
  }

  predicate NonNegativeWeights(ds: seq<Dimension>) {
    && (forall i | 0 <= i < |ds| :: ds[i].weight >= 0)
    && (forall i, j | 0 <= i < |ds| && 0 <= j < |ds[i].metrics| :: ds[i].metrics[j].weight >= 0)
  }

  /** The same metrics in the same order, none scored lower. */
  predicate NoneLower(ns: seq<Metric>, ms: seq<Metric>) {
    && |ns| == |ms|
    && forall j | 0 <= j < |ms| :: ns[j] == ms[j].(peerScore := ns[j].peerScore) && ms[j].peerScore <= ns[j].peerScore
  }

  predicate DimensionsNoneLower(es: seq<Dimension>, ds: seq<Dimension>) {
    && |es| == |ds|
    && forall i | 0 <= i < |ds| :: es[i] == ds[i].(metrics := es[i].metrics) && NoneLower(es[i].metrics, ds[i].metrics)
  }

  lemma MetricImproves(n: Reading, m: Reading, kind: Kind, months: int)
    requires AtLeastAsGood(n, m)
    ensures MetricOf(m, kind, months).peerScore <= MetricOf(n, kind, months).peerScore
    ensures MetricOf(n, kind, months) == MetricOf(m, kind, months).(peerScore := MetricOf(n, kind, months).peerScore)
  {
    hide Normalize;
    if m.peers != [] {
      if m.direction == HigherIsBetter {
        ScoreMonotone(m.raw, n.raw, m.peers);
      } else {
        ScoreMonotone(n.raw, m.raw, m.peers);
      }
    }
  }

  lemma WeightedMonotone(x: real, y: real, weight: int)
    requires x <= y && weight >= 0
    ensures Weighted(x, weight) <= Weighted(y, weight)
  {
    var w := weight as real;
    NonNegativeProduct(y - x, w);
    assert (y - x) * w == y * w - x * w;
  }

  lemma {:induction false} MetricSumMonotone(ms: seq<Metric>, ns: seq<Metric>)
    requires NoneLower(ns, ms) && forall j | 0 <= j < |ms| :: ms[j].weight >= 0
    ensures MetricSum(ms) <= MetricSum(ns)
  {
    hide Weighted;
    if ms != [] {
      var n := |ms| - 1;
      MetricSumMonotone(ms[..n], ns[..n]);
      WeightedMonotone(ms[n].peerScore, ns[n].peerScore, ms[n].weight);
    }
  }

  lemma {:induction false} TotalMonotone(ds: seq<Dimension>, es: seq<Dimension>, low: real, high: real)
    requires DimensionsNoneLower(es, ds) && low <= high && NonNegativeWeights(ds)
    ensures Total(ds, low) <= Total(es, high)
  {
    hide Weighted, MetricSum, NoneLower;
    if ds != [] {
      var n := |ds| - 1;
      TotalMonotone(ds[..n], es[..n], low, high);
      MetricSumMonotone(ds[n].metrics, es[n].metrics);
      var manager := ds[n].kind == ManagerCapability;
      WeightedMonotone(if manager then low else MetricSum(ds[n].metrics), if manager then high else MetricSum(es[n].metrics), ds[n].weight);
    }
  }

  lemma ProfileImproves(ss: seq<Section>, ts: seq<Section>, months: int)
    requires |ts| == |ss| && forall i | 0 <= i < |ss| :: SectionAtLeastAsGood(ts[i], ss[i])
    ensures DimensionsNoneLower(ProfileOf(ts, months), ProfileOf(ss, months))
  {
    hide MetricOf, AtLeastAsGood;
    forall i, j | 0 <= i < |ss| && 0 <= j < |ss[i].readings|
      ensures var n, m := ProfileOf(ts, months)[i].metrics[j], ProfileOf(ss, months)[i].metrics[j];
              n == m.(peerScore := n.peerScore) && m.peerScore <= n.peerScore
    {
      MetricImproves(ts[i].readings[j], ss[i].readings[j], ss[i].kind, months);
    }
  }

  /**
    Improving any raw values, each in its own direction, and the manager score never lowers the open
    score, and leaves exactly the same metrics scored.
   */
  lemma BetterReadingsNeverScoreWorse(ss: seq<Section>, ts: seq<Section>, months: int, manager: real, better: real, precision: nat)
    requires |ts| == |ss| && forall i | 0 <= i < |ss| :: SectionAtLeastAsGood(ts[i], ss[i])
    requires manager <= better && NonNegativeWeights(ProfileOf(ss, months))
    ensures OpenScore(ss, months, manager, precision) <= OpenScore(ts, months, better, precision)
    ensures EverythingScored(ProfileOf(ts, months), months) <==> EverythingScored(ProfileOf(ss, months), months)
  {
    hide SectionAtLeastAsGood, RoundTo, Total, NonNegativeWeights;
    var ds, es := ProfileOf(ss, months), ProfileOf(ts, months);
    ProfileImproves(ss, ts, months);
    TotalMonotone(ds, es, manager, better);
    RoundMonotone(Total(ds, manager), Total(es, better), Pow10(precision));
    SameScored(ds, es, months);
  }

  lemma SameScored(ds: seq<Dimension>, es: seq<Dimension>, months: int)
    requires DimensionsNoneLower(es, ds)
    ensures EverythingScored(es, months) <==> EverythingScored(ds, months)
  {
    hide EveryMetricScored;
    forall i | 0 <= i < |ds| ensures EveryMetricScored(es[i], months) <==> EveryMetricScored(ds[i], months) {
      SameMetricsScored(ds[i], es[i], months);
    }
  }

  lemma SameMetricsScored(d: Dimension, e: Dimension, months: int)
    requires e == d.(metrics := e.metrics) && NoneLower(e.metrics, d.metrics)
    ensures EveryMetricScored(e, months) <==> EveryMetricScored(d, months)
  {
    forall j | 0 <= j < |d.metrics| ensures ScoreOf(e.metrics[j], e.kind, months).Some? <==> ScoreOf(d.metrics[j], d.kind, months).Some? {
      assert e.metrics[j] == d.metrics[j].(peerScore := e.metrics[j].peerScore);
    }
  }

  // ---- the unit and the sign a metric is recorded in do not matter ----

  function Recode(x: real, mirrored: bool, c: real): real {
    (if mirrored then -x else x) + c
  }

  function RecodeAll(vs: seq<real>, mirrored: bool, c: real): (r: seq<real>)
    ensures |r| == |vs| && forall i | 0 <= i < |vs| :: r[i] == Recode(vs[i], mirrored, c)
  {
    seq(|vs|, i requires 0 <= i < |vs| => Recode(vs[i], mirrored, c))
  }

  function Opposite(d: Direction): Direction {
    if d == HigherIsBetter then LowerIsBetter else HigherIsBetter
  }

  ghost predicate RecodedBy(n: Reading, m: Reading, mirrored: bool, c: real) {
    && n == m.(raw := Recode(m.raw, mirrored, c), peers := n.peers, direction := if mirrored then Opposite(m.direction) else m.direction)
    && multiset(n.peers) == multiset(RecodeAll(m.peers, mirrored, c))
  }

  /** `n` records the metric `m` with another origin, perhaps with the opposite sign and direction, and its peers in any order. */
  ghost predicate SameMeasurement(n: Reading, m: Reading) {
    exists mirrored, c :: RecodedBy(n, m, mirrored, c)
  }

  ghost predicate SameMeasurements(t: Section, s: Section) {
    && t == s.(readings := t.readings) && |t.readings| == |s.readings|
    && forall j | 0 <= j < |s.readings| :: SameMeasurement(t.readings[j], s.readings[j])
  }

  lemma RecodedScore(raw: real, peers: seq<real>, direction: Direction, mirrored: bool, c: real)
    requires peers != []
    ensures Normalize(Recode(raw, mirrored, c), RecodeAll(peers, mirrored, c), if mirrored then Opposite(direction) else direction).score
         == Normalize(raw, peers, direction).score
  {
    hide Normalize;
    if mirrored {
      assert RecodeAll(peers, true, c) == Shift(Negate(peers), c);
      TranslationInvariance(-raw, Negate(peers), c, Opposite(direction));
      DirectionDuality(raw, peers);
    } else {
      assert RecodeAll(peers, false, c) == Shift(peers, c);
      TranslationInvariance(raw, peers, c, direction);
    }
  }

  lemma SameMetric(n: Reading, m: Reading, kind: Kind, months: int)
    requires SameMeasurement(n, m)
    ensures MetricOf(n, kind, months) == MetricOf(m, kind, months)
    ensures |n.peers| == |m.peers|
  {
    hide Normalize;
    var mirrored, c :| RecodedBy(n, m, mirrored, c);
    var recoded := RecodeAll(m.peers, mirrored, c);
    SameMembers(n.peers, recoded);
    if m.peers != [] {
      PeerOrderDoesNotMatter(n.raw, recoded, n.peers, n.direction);
      RecodedScore(m.raw, m.peers, m.direction, mirrored, c);
    }
  }

  /**
    Re-recording any of the metrics with another origin, another sign and direction or another peer order
    changes nothing that is scored: the profiles of metric scores are equal, and so is what they admit.
   */
  lemma RecordingDoesNotMatter(ss: seq<Section>, ts: seq<Section>, months: int)
    requires |ts| == |ss| && forall i | 0 <= i < |ss| :: SameMeasurements(ts[i], ss[i])
    ensures ProfileOf(ts, months) == ProfileOf(ss, months)
    ensures forall i | 0 <= i < |ss| :: SamplesFit(ts[i], months) <==> SamplesFit(ss[i], months)
    ensures PeersAdmitted(ts) <==> PeersAdmitted(ss)
  {
    hide MetricOf, SameMeasurement, PeersAdmitted, SamplesFit, SameMeasurements;
    forall i | 0 <= i < |ss|
      ensures DimensionFrom(ts[i], months) == DimensionFrom(ss[i], months)
      ensures SamplesFit(ts[i], months) <==> SamplesFit(ss[i], months)
      ensures SamePeerCounts(ts[i], ss[i])
    {
      SameDimension(ts[i], ss[i], months);
    }
    SameAdmission(ts, ss);
  }

  lemma SameDimension(t: Section, s: Section, months: int)
    requires SameMeasurements(t, s)
    ensures DimensionFrom(t, months) == DimensionFrom(s, months)
    ensures SamplesFit(t, months) <==> SamplesFit(s, months)
    ensures SamePeerCounts(t, s)
  {
    hide MetricOf, SameMeasurement;
    forall j | 0 <= j < |s.readings|
      ensures MetricOf(t.readings[j], s.kind, months) == MetricOf(s.readings[j], s.kind, months)
      ensures |t.readings[j].peers| == |s.readings[j].peers| && t.readings[j].state == s.readings[j].state
    {
      SameMetric(t.readings[j], s.readings[j], s.kind, months);
      SameState(t.readings[j], s.readings[j]);
    }
    assert DimensionFrom(t, months).metrics == DimensionFrom(s, months).metrics;
  }

  lemma SameState(n: Reading, m: Reading)
    requires SameMeasurement(n, m)
    ensures n.state == m.state
  {
  }

  predicate SamePeerCounts(t: Section, s: Section) {
    && |t.readings| == |s.readings|
    && forall j | 0 <= j < |s.readings| :: t.readings[j].state == s.readings[j].state && |t.readings[j].peers| == |s.readings[j].peers|
  }

  lemma {:induction false} SamePeerCount(ns: seq<Reading>, ms: seq<Reading>)
    requires |ns| == |ms| && forall j | 0 <= j < |ms| :: |ns[j].peers| == |ms[j].peers|
    ensures PeerCount(ns) == PeerCount(ms)
  {
    if ms != [] {
      SamePeerCount(ns[..|ms| - 1], ms[..|ms| - 1]);
    }
  }

  lemma {:induction false} SamePeerTotal(ts: seq<Section>, ss: seq<Section>)
    requires |ts| == |ss| && forall i | 0 <= i < |ss| :: SamePeerCounts(ts[i], ss[i])
    ensures PeerTotal(ts) == PeerTotal(ss) && ReadingTotal(ts) == ReadingTotal(ss)
  {
    hide PeerCount;
    if ss != [] {
      var n := |ss| - 1;
      SamePeerTotal(ts[..n], ss[..n]);
      SamePeerCount(ts[n].readings, ss[n].readings);
    }
  }

  lemma SameAdmission(ts: seq<Section>, ss: seq<Section>)
    requires |ts| == |ss| && forall i | 0 <= i < |ss| :: SamePeerCounts(ts[i], ss[i])
    ensures PeersAdmitted(ts) <==> PeersAdmitted(ss)
  {
    hide PeerTotal, ReadingTotal;
    SamePeerTotal(ts, ss);
    forall i, j | 0 <= i < |ss| && 0 <= j < |ss[i].readings|
      ensures ts[i].readings[j].state == ss[i].readings[j].state && (ts[i].readings[j].peers == [] <==> ss[i].readings[j].peers == [])
    {
      assert SamePeerCounts(ts[i], ss[i]);
    }
  }
}
