/** Single data points with the labels they are counted under, exact numbers in place of
    floating-point ones, and the counters that a server derives from them. */
module Samples {
  import opened Words
  import opened Labels
  import opened Protocol
  import opened Assembly

  type RawMetric = Metric<real, nat>
  type RawItem = Item<real, nat>
  type RawHist = HistPoint<real, nat>

  datatype Value =
    | GaugeValue(ts: I64, val: real)
    | SumValue(temporality: nat, monotonic: bool, ts: I64, val: real)
    | HistValue(temporality: nat, hist: RawHist)

  datatype Sample = Sample(scope: Bytes, name: Bytes, unit: Bytes, desc: Bytes, attrs: Attrs, value: Value)

  /** The data points of one metric. */
  function SamplesIn(scope: Bytes, m: RawMetric): seq<Sample> {
    match m.data
    case NoData => []
    case Gauge(ps) =>
      seq(|ps|, i requires 0 <= i < |ps| =>
        Sample(scope, m.name, m.unit, m.desc, ps[i].attrs, GaugeValue(ps[i].ts, ps[i].val)))
    case Sum(t, mono, ps) =>
      seq(|ps|, i requires 0 <= i < |ps| =>
        Sample(scope, m.name, m.unit, m.desc, ps[i].attrs, SumValue(t, mono, ps[i].ts, ps[i].val)))
    case Histogram(t, hs) =>
      seq(|hs|, i requires 0 <= i < |hs| =>
        Sample(scope, m.name, m.unit, m.desc, hs[i].attrs, HistValue(t, hs[i])))
  }

  function SamplesOf(batch: seq<Option<RawItem>>): seq<Sample> {
    if batch == [] then []
    else
      var last := batch[|batch| - 1];
      SamplesOf(batch[..|batch| - 1]) + if last.Some? then SamplesIn(last.value.scope, last.value.metric) else []
  }

  lemma {:induction false} SamplesConcat(xs: seq<Option<RawItem>>, ys: seq<Option<RawItem>>)
    ensures SamplesOf(xs + ys) == SamplesOf(xs) + SamplesOf(ys)
  {
    hide SamplesIn;
    if ys == [] {
      assert xs + ys == xs && SamplesOf(xs) + [] == SamplesOf(xs);
    } else {
      var n := |ys| - 1;
      assert (xs + ys)[..|xs| + n] == xs + ys[..n];
      SamplesConcat(xs, ys[..n]);
      ConcatAssoc(SamplesOf(xs), SamplesOf(ys[..n]),
        if ys[n].Some? then SamplesIn(ys[n].value.scope, ys[n].value.metric) else []);
    }
  }

  /** A metric of just one point. */
  function MetricOf(p: Sample): RawMetric {
    Metric(p.name, p.unit, p.desc,
      match p.value
      case GaugeValue(ts, v) => Gauge([NumberPoint(p.attrs, ts, v)])
      case SumValue(t, mono, ts, v) => Sum(t, mono, [NumberPoint(p.attrs, ts, v)])
      case HistValue(t, h) => Histogram(t, [h]))
  }

  lemma SingleSample(p: Sample)
    requires p.value.HistValue? ==> p.value.hist.attrs == p.attrs
    ensures SamplesIn(p.scope, MetricOf(p)) == [p]
  {
  }

  /** The samples of a metric are its data points, one each, in order: what makes a metric of just
      that point again has its name, unit, description, kind and temporality. */
  lemma PointSamples(scope: Bytes, m: RawMetric)
    ensures var ps := SamplesIn(scope, m);
      && |ps| == |Points(m.data)|
      && forall i :: 0 <= i < |ps| ==>
        && ps[i].scope == scope && MetricOf(ps[i]).(data := m.data) == m && SameSort(MetricOf(ps[i]).data, m.data)
        && Points(MetricOf(ps[i]).data) == [Points(m.data)[i]]
  {
    var ps := SamplesIn(scope, m);
    forall i | 0 <= i < |ps|
      ensures Points(MetricOf(ps[i]).data) == [Points(m.data)[i]]
    {
      assert Points(MetricOf(ps[i]).data)[0] == Points(m.data)[i];
    }
  }

  // ----- keys -----

  /** The kind as a digit. */
  function Digit(v: Value): Byte {
    match v
    case GaugeValue(_, _) => 48
    case SumValue(_, _, _, _) => 49
    case HistValue(_, _) => 50
  }

  /** The agent's key of a series (`seriesKey` of `internal/aggregate`). */
  function AgentKey(p: Sample): Bytes {
    p.scope + [0] + (p.name + [0] + ([Digit(p.value)] + PairsKey(SortedPairs(p.attrs))))
  }

  const PLUGIN: Bytes := [112, 108, 117, 103, 105, 110]

  /** The server's key of a counter: the scope is one label among the others. */
  function ServerKey(p: Sample): Bytes {
    p.name + PairsKey(SortedPairs(p.attrs[PLUGIN := p.scope]))
  }

  ghost predicate CleanLabels(p: Sample) {
    Clean(p.scope, p.name, SortedPairs(p.attrs))
  }

  ghost predicate SameLabels(p: Sample, q: Sample) {
    p.scope == q.scope && p.name == q.name && p.attrs == q.attrs && Digit(p.value) == Digit(q.value)
  }

  /** With clean labels, the agent keeps different series apart. */
  lemma AgentKeyInjective(p: Sample, q: Sample)
    requires CleanLabels(p) && CleanLabels(q)
    ensures AgentKey(p) == AgentKey(q) <==> SameLabels(p, q)
  {
    hide SortedPairs, PairsKey;
    if AgentKey(p) == AgentKey(q) {
      var ps, qs := SortedPairs(p.attrs), SortedPairs(q.attrs);
      SplitUnique(0, p.scope, p.name + [0] + ([Digit(p.value)] + PairsKey(ps)),
        q.scope, q.name + [0] + ([Digit(q.value)] + PairsKey(qs)));
      SplitUnique(0, p.name, [Digit(p.value)] + PairsKey(ps), q.name, [Digit(q.value)] + PairsKey(qs));
      var s, t := [Digit(p.value)] + PairsKey(ps), [Digit(q.value)] + PairsKey(qs);
      assert s[0] == t[0] && PairsKey(ps) == s[1..] == t[1..] == PairsKey(qs);
      PairsKeyInjective(ps, qs);
      SortedPairsRoundTrip(p.attrs);
      SortedPairsRoundTrip(q.attrs);
    }
  }

  lemma PluginClean(p: Sample)
    requires CleanLabels(p)
    ensures CleanPairs(SortedPairs(p.attrs[PLUGIN := p.scope]))
  {
    var m := p.attrs[PLUGIN := p.scope];
    var ps, qs := SortedPairs(m), SortedPairs(p.attrs);
    SortedPairsRoundTrip(p.attrs);
    forall x | x in ps
      ensures 1 !in x.0 && 0 !in x.1
    {
      if x.0 != PLUGIN {
        PairOf(p.attrs, x.0);
        assert (x.0, p.attrs[x.0]) in qs;
      }
    }
  }

  /** The server keeps different counters apart: with clean labels its key is that of the name and
      of the labels, the scope among them. */
  lemma ServerKeyInjective(p: Sample, q: Sample)
    requires CleanLabels(p) && CleanLabels(q)
    ensures ServerKey(p) == ServerKey(q) <==>
            p.name == q.name && p.attrs[PLUGIN := p.scope] == q.attrs[PLUGIN := q.scope]
  {
    hide SortedPairs, CleanPairs;
    var m, n := p.attrs[PLUGIN := p.scope], q.attrs[PLUGIN := q.scope];
    var ps, qs := SortedPairs(m), SortedPairs(n);
    PluginClean(p);
    PluginClean(q);
    if ServerKey(p) == ServerKey(q) {
      ConcatAssoc(p.name, PairsKey(ps), [0]);
      ConcatAssoc(q.name, PairsKey(qs), [0]);
      NameThenPairs(p.name, ps, q.name, qs);
      PairsKeyInjective(ps, qs);
      SortedPairsRoundTrip(m);
      SortedPairsRoundTrip(n);
    }
  }

  // ----- counters -----

  /** What a server accumulates: the total of a delta sum, and the count, sum and buckets of a
      histogram. */
  datatype Counter = DeltaSum | HistCount | HistSum | HistBucket(i: nat)

  /** What one sample adds to a counter. */
  function Weight(p: Sample, key: Bytes, c: Counter): real {
    if ServerKey(p) != key then 0.0
    else
      match p.value
      case GaugeValue(_, _) => 0.0
      case SumValue(t, _, _, v) => if c.DeltaSum? && t == DELTA then v else 0.0
      case HistValue(_, h) => if h.bounds == [] then 0.0 else HistWeight(h, c)
  }

  function HistWeight(h: RawHist, c: Counter): real {
    match c
    case DeltaSum => 0.0
    case HistCount => h.count as real
    case HistSum => h.sum
    case HistBucket(i) => if i < |h.buckets| then h.buckets[i] as real else 0.0
  }

  /** Bucket-wise sums; buckets beyond those of the first list are ignored. */
  function AddBuckets(a: seq<nat>, b: seq<nat>): (r: seq<nat>)
    ensures |r| == |a|
  {
    seq(|a|, i requires 0 <= i < |a| => if i < |b| then a[i] + b[i] else a[i])
  }

  function Total(ps: seq<Sample>, key: Bytes, c: Counter): real {
    if ps == [] then 0.0 else Total(ps[..|ps| - 1], key, c) + Weight(ps[|ps| - 1], key, c)
  }

  lemma {:induction false} TotalConcat(xs: seq<Sample>, ys: seq<Sample>, key: Bytes, c: Counter)
    ensures Total(xs + ys, key, c) == Total(xs, key, c) + Total(ys, key, c)
  {
    hide Weight;
    if ys == [] {
      assert xs + ys == xs;
    } else {
      var n := |ys| - 1;
      assert (xs + ys)[..|xs| + n] == xs + ys[..n];
      TotalConcat(xs, ys[..n], key, c);
    }
  }

  lemma TotalSnoc(xs: seq<Sample>, p: Sample, key: Bytes, c: Counter)
    ensures Total(xs + [p], key, c) == Total(xs, key, c) + Weight(p, key, c)
  {
    assert (xs + [p])[..|xs|] == xs;
  }

  // ----- what samples of one series have in common -----

  /** The temporality of each sum, by agent key, and the bounds and number of buckets of each
      histogram, by server key. */
  datatype Schema = Schema(temporality: Bytes -> nat, bounds: Bytes -> seq<real>, buckets: Bytes -> nat)

  /** A histogram with no samples adds nothing. */
  predicate EmptyIsZero(h: RawHist) {
    h.count == 0 ==> h.sum == 0.0 && forall i :: 0 <= i < |h.buckets| ==> h.buckets[i] == 0
  }

  predicate Shaped(s: Schema, p: Sample) {
    p.value.HistValue? ==>
      && p.value.hist.bounds == s.bounds(ServerKey(p)) && |p.value.hist.buckets| == s.buckets(ServerKey(p))
  }

  /** A sample of a well-behaved source. */
  ghost predicate Fits(s: Schema, p: Sample) {
    && CleanLabels(p) && Shaped(s, p)
    && (p.value.SumValue? ==> p.value.temporality == s.temporality(AgentKey(p)))
    && (p.value.HistValue? ==> EmptyIsZero(p.value.hist) && p.value.hist.attrs == p.attrs)
  }

  ghost predicate AllFit(s: Schema, ps: seq<Sample>) {
    forall i :: 0 <= i < |ps| ==> Fits(s, ps[i])
  }
}
