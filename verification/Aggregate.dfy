/** Windowed aggregation per series (`internal/aggregate/aggregator.go`): the aggregator in
    place, and the fold over a window's samples that it computes. */
module Aggregate {
  import opened Words
  import opened Protocol
  import opened Assembly
  import opened Samples

  // ----- the fold -----

  /** The running statistics of one series. */
  datatype Stats = Stats(
    firstTS: I64, lastTS: I64, count: nat, sum: real, min: real, max: real,
    deltaTotal: real, lastValue: real, buckets: seq<nat>, bounds: seq<real>)

  const EMPTY_STATS := Stats(0, 0, 0, 0.0, 0.0, 0.0, 0.0, 0.0, [], [])

  function WithValue(st: Stats, v: real, ts: I64): Stats {
    var st := if st.count == 0 then st.(min := v, max := v, firstTS := ts)
              else st.(min := if v < st.min then v else st.min, max := if v > st.max then v else st.max);
    st.(count := st.count + 1, sum := st.sum + v, lastTS := ts)
  }

  function WithDelta(st: Stats, v: real, ts: I64): Stats {
    st.(firstTS := if st.count == 0 then ts else st.firstTS,
        count := st.count + 1, deltaTotal := st.deltaTotal + v, lastTS := ts)
  }

  function WithLast(st: Stats, v: real, ts: I64): Stats {
    st.(firstTS := if st.count == 0 then ts else st.firstTS,
        count := st.count + 1, lastValue := v, lastTS := ts)
  }

  function WithHistogram(st: Stats, h: RawHist): Stats {
    if st.count == 0 || st.bounds != h.bounds then
      st.(bounds := h.bounds, buckets := h.buckets, firstTS := h.ts, lastTS := h.ts,
          min := h.min, max := h.max, count := h.count, sum := h.sum)
    else
      st.(buckets := AddBuckets(st.buckets, h.buckets), count := st.count + h.count, sum := st.sum + h.sum,
          max := if h.max > st.max then h.max else st.max,
          min := if h.min != 0.0 && (st.min == 0.0 || h.min < st.min) then h.min else st.min,
          lastTS := h.ts)
  }

  function Updated(st: Stats, v: Value): Stats {
    match v
    case GaugeValue(ts, x) => WithValue(st, x, ts)
    case SumValue(t, _, ts, x) => if t == DELTA then WithDelta(st, x, ts) else WithLast(st, x, ts)
    case HistValue(_, h) => WithHistogram(st, h)
  }

  function Folded(ps: seq<Sample>): Stats {
    if ps == [] then EMPTY_STATS else Updated(Folded(ps[..|ps| - 1]), ps[|ps| - 1].value)
  }

  /** The sample that stands for a series in the output: labels, kind and temporality are those
      of its first sample. A gauge becomes a histogram without bounds. */
  function Summary(first: Sample, st: Stats): (r: Sample)
    ensures r.scope == first.scope
  {
    var value := match first.value
      case GaugeValue(_, _) =>
        HistValue(DELTA, HistPoint(first.attrs, st.firstTS, st.count, st.sum, [st.count], [], st.min, st.max))
      case SumValue(t, mono, _, _) =>
        if t == DELTA then SumValue(t, mono, st.firstTS, st.deltaTotal)
        else SumValue(t, mono, st.lastTS, st.lastValue)
      case HistValue(t, _) =>
        HistValue(t, HistPoint(first.attrs, st.firstTS, st.count, st.sum, st.buckets, st.bounds, st.min, st.max));
    first.(value := value)
  }

  /** The samples of one series. */
  function ForKey(ps: seq<Sample>, key: Bytes): seq<Sample> {
    if ps == [] then []
    else
      var p := ps[|ps| - 1];
      ForKey(ps[..|ps| - 1], key) + if AgentKey(p) == key then [p] else []
  }

  function KeysOf(ps: seq<Sample>): (r: seq<Bytes>)
    ensures |r| == |ps|
  {
    seq(|ps|, i requires 0 <= i < |ps| => AgentKey(ps[i]))
  }

  lemma ForKeySnoc(ps: seq<Sample>, p: Sample, key: Bytes)
    ensures ForKey(ps + [p], key) == if AgentKey(p) == key then ForKey(ps, key) + [p] else ForKey(ps, key)
  {
    hide AgentKey;
    assert (ps + [p])[..|ps|] == ps;
    assert ForKey(ps, key) + [] == ForKey(ps, key);
  }

  lemma KeysSnoc(ps: seq<Sample>, p: Sample)
    ensures KeysOf(ps + [p]) == KeysOf(ps) + [AgentKey(p)]
  {
    hide AgentKey;
  }

  lemma FoldedSnoc(ps: seq<Sample>, p: Sample)
    ensures Folded(ps + [p]) == Updated(Folded(ps), p.value)
  {
    hide Updated;
    assert (ps + [p])[..|ps|] == ps;
  }

  lemma {:induction false} ForKeyNonempty(ps: seq<Sample>, key: Bytes)
    ensures key in KeysOf(ps) <==> ForKey(ps, key) != []
    ensures forall p :: p in ForKey(ps, key) ==> p in ps && AgentKey(p) == key
  {
    hide AgentKey;
    if ps != [] {
      var n := |ps| - 1;
      assert ps == ps[..n] + [ps[n]];
      KeysSnoc(ps[..n], ps[n]);
      ForKeySnoc(ps[..n], ps[n], key);
      ForKeyNonempty(ps[..n], key);
    }
  }

  /** The summary of one series of a window. */
  function SummaryOf(ps: seq<Sample>, key: Bytes): Sample
    requires key in KeysOf(ps)
  {
    ForKeyNonempty(ps, key);
    Summary(ForKey(ps, key)[0], Folded(ForKey(ps, key)))
  }

  /** What closing a window emits: one result per series, in the order of first arrival. */
  function Results(ps: seq<Sample>): (r: seq<RawItem>)
    ensures |r| == |FirstSeen(KeysOf(ps))|
  {
    var keys := FirstSeen(KeysOf(ps));
    seq(|keys|, i requires 0 <= i < |keys| =>
      assert keys[i] in keys; var p := SummaryOf(ps, keys[i]); Item(p.scope, MetricOf(p)))
  }

  // ----- one series -----

  class SeriesStats {
    const first: Sample
    var firstTS: I64
    var lastTS: I64
    var count: nat
    var sum: real
    var min: real
    var max: real
    var deltaTotal: real
    var lastValue: real
    var buckets: seq<nat>
    var bounds: seq<real>

    constructor (first: Sample)
      ensures this.first == first && View() == EMPTY_STATS
    {
      this.first := first;
      firstTS, lastTS, count, sum, min, max := 0, 0, 0, 0.0, 0.0, 0.0;
      deltaTotal, lastValue, buckets, bounds := 0.0, 0.0, [], [];
    }

    ghost function View(): Stats
      reads this
    {
      Stats(firstTS, lastTS, count, sum, min, max, deltaTotal, lastValue, buckets, bounds)
    }

    method AddValue(v: real, ts: I64)
      modifies this
      ensures View() == WithValue(old(View()), v, ts)
    {
      if count == 0 {
        min, max := v, v;
        firstTS := ts;
      } else {
        if v < min {
          min := v;
        }
        if v > max {
          max := v;
        }
      }
      count := count + 1;
      sum := sum + v;
      lastTS := ts;
    }

    method AddDelta(v: real, ts: I64)
      modifies this
      ensures View() == WithDelta(old(View()), v, ts)
    {
      if count == 0 {
        firstTS := ts;
      }
      count := count + 1;
      deltaTotal := deltaTotal + v;
      lastTS := ts;
    }

    method SetLast(v: real, ts: I64)
      modifies this
      ensures View() == WithLast(old(View()), v, ts)
    {
      if count == 0 {
        firstTS := ts;
      }
      count := count + 1;
      lastValue := v;
      lastTS := ts;
    }

    method MergeHistogram(h: RawHist)
      modifies this
      ensures View() == WithHistogram(old(View()), h)
    {
      if count == 0 || bounds != h.bounds {
        bounds, buckets := h.bounds, h.buckets;
        firstTS, min, max, count, sum, lastTS := h.ts, h.min, h.max, h.count, h.sum, h.ts;
        return;
      }
      ghost var a := buckets;
      for i := 0 to |h.buckets|
        modifies this`buckets
        invariant |buckets| == |a|
        invariant forall j :: 0 <= j < |a| ==> buckets[j] == if j < i then a[j] + h.buckets[j] else a[j]
      {
        if i < |buckets| {
          buckets := buckets[i := buckets[i] + h.buckets[i]];
        }
      }
      assert buckets == AddBuckets(a, h.buckets);
      count := count + h.count;
      sum := sum + h.sum;
      if h.max > max {
        max := h.max;
      }
      if h.min != 0.0 && (min == 0.0 || h.min < min) {
        min := h.min;
      }
      lastTS := h.ts;
    }

    /** Accumulates a point by its kind. */
    method Update(v: Value)
      modifies this
      ensures View() == Updated(old(View()), v)
    {
      hide WithValue, WithDelta, WithLast, WithHistogram;
      match v
      case GaugeValue(ts, x) => AddValue(x, ts);
      case SumValue(t, _, ts, x) =>
        if t == DELTA {
          AddDelta(x, ts);
        } else {
          SetLast(x, ts);
        }
      case HistValue(_, h) => MergeHistogram(h);
    }

    /** The emitted metric. */
    method Build() returns (m: RawMetric)
      ensures m == MetricOf(Summary(first, View()))
    {
      match first.value
      case SumValue(t, mono, _, _) =>
        var dp := NumberPoint(first.attrs, firstTS, deltaTotal);
        if t != DELTA {
          dp := dp.(val := lastValue, ts := lastTS);
        }
        m := Metric(first.name, first.unit, first.desc, Sum(t, mono, [dp]));
      case HistValue(t, _) =>
        m := Metric(first.name, first.unit, first.desc,
          Histogram(t, [HistPoint(first.attrs, firstTS, count, sum, buckets, bounds, min, max)]));
      case GaugeValue(_, _) =>
        m := Metric(first.name, first.unit, first.desc,
          Histogram(DELTA, [HistPoint(first.attrs, firstTS, count, sum, [count], [], min, max)]));
    }
  }
}
