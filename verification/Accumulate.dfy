/** The server's accumulation of deltas into counters (`server/main/convert.go`). */
module Accumulate {
  import opened Words
  import opened Protocol
  import opened Samples

  /** A histogram accumulated so far. */
  datatype HistTotals = HistTotals(bounds: seq<real>, buckets: seq<nat>, count: nat, sum: real)

  datatype Totals = Totals(sums: map<Bytes, real>, hists: map<Bytes, HistTotals>)

  const NO_TOTALS := Totals(map[], map[])

  function AddedSum(t: Totals, key: Bytes, delta: real): Totals {
    t.(sums := t.sums[key := (if key in t.sums then t.sums[key] else 0.0) + delta])
  }

  /** Other bounds than before start the histogram over. */
  function StartedHist(t: Totals, key: Bytes, h: RawHist): HistTotals {
    if key in t.hists && t.hists[key].bounds == h.bounds then t.hists[key]
    else HistTotals(h.bounds, seq(|h.buckets|, i => 0), 0, 0.0)
  }

  function StartedAt(t: Totals, key: Bytes, h: RawHist): Totals {
    t.(hists := t.hists[key := StartedHist(t, key, h)])
  }

  function Grown(acc: HistTotals, h: RawHist): HistTotals {
    acc.(buckets := AddBuckets(acc.buckets, h.buckets), count := acc.count + h.count, sum := acc.sum + h.sum)
  }

  function AddedHist(t: Totals, key: Bytes, h: RawHist): Totals {
    t.(hists := t.hists[key := Grown(StartedHist(t, key, h), h)])
  }

  /** What one sample changes. A histogram without bounds is the summary of a gauge. */
  function Absorbed(t: Totals, p: Sample): Totals {
    match p.value
    case GaugeValue(_, _) => t
    case SumValue(temporality, _, _, v) => if temporality == DELTA then AddedSum(t, ServerKey(p), v) else t
    case HistValue(_, h) => if |h.bounds| == 0 then t else AddedHist(t, ServerKey(p), h)
  }

  function AbsorbedAll(t: Totals, ps: seq<Sample>): Totals {
    if ps == [] then t else Absorbed(AbsorbedAll(t, ps[..|ps| - 1]), ps[|ps| - 1])
  }

  lemma AbsorbedSnoc(t: Totals, ps: seq<Sample>, p: Sample)
    ensures AbsorbedAll(t, ps + [p]) == Absorbed(AbsorbedAll(t, ps), p)
  {
    hide Absorbed;
    assert (ps + [p])[..|ps|] == ps;
  }

  lemma {:induction false} AbsorbedConcat(t: Totals, xs: seq<Sample>, ys: seq<Sample>)
    ensures AbsorbedAll(t, xs + ys) == AbsorbedAll(AbsorbedAll(t, xs), ys)
  {
    hide Absorbed;
    if ys == [] {
      assert xs + ys == xs;
    } else {
      var n := |ys| - 1;
      assert (xs + ys)[..|xs| + n] == xs + ys[..n];
      AbsorbedConcat(t, xs, ys[..n]);
    }
  }

  predicate Boundless(p: Sample) {
    p.value.HistValue? ==> p.value.hist.bounds == []
  }

  /** Histograms that arrive without bounds are never accumulated, whatever they count. */
  lemma {:induction false} BoundlessIgnored(t: Totals, ps: seq<Sample>)
    requires forall p :: p in ps ==> Boundless(p)
    ensures AbsorbedAll(t, ps).hists == t.hists
  {
    if ps != [] {
      BoundlessIgnored(t, ps[..|ps| - 1]);
      assert Boundless(ps[|ps| - 1]);
    }
  }

  /** The samples of the metrics of one scope. */
  function MetricSamples(scope: Bytes, ms: seq<RawMetric>): seq<Sample> {
    if ms == [] then [] else MetricSamples(scope, ms[..|ms| - 1]) + SamplesIn(scope, ms[|ms| - 1])
  }

  function RequestSamples(sms: seq<ScopeMetrics<real, nat>>): seq<Sample> {
    if sms == [] then []
    else
      var last := sms[|sms| - 1];
      RequestSamples(sms[..|sms| - 1]) + MetricSamples(last.scope, last.metrics)
  }

  class HistAcc {
    const bounds: seq<real>
    var buckets: seq<nat>
    var count: nat
    var sum: real

    constructor (bounds: seq<real>, n: nat)
      ensures View() == HistTotals(bounds, seq(n, i => 0), 0, 0.0)
    {
      this.bounds, buckets, count, sum := bounds, seq(n, i => 0), 0, 0.0;
    }

    ghost function View(): HistTotals
      reads this
    {
      HistTotals(bounds, buckets, count, sum)
    }

    method Add(h: RawHist)
      modifies this
      ensures View() == Grown(old(View()), h)
    {
      ghost var a := buckets;
      for i := 0 to |h.buckets|
        modifies this`buckets
        invariant |buckets| == |a|
        invariant forall j :: 0 <= j < |a| ==> buckets[j] == if j < i then a[j] + h.buckets[j] else a[j]
      {
        if i < |buckets| {
          buckets := buckets[i := buckets[i] + h.buckets[i]];
        }
      }
      assert buckets == AddBuckets(a, h.buckets);
      count := count + h.count;
      sum := sum + h.sum;
    }
  }

  class DeltaAccumulator {
    var sums: map<Bytes, real>
    var hists: map<Bytes, HistAcc>

    constructor ()
      ensures Valid() && View() == NO_TOTALS
    {
      sums, hists := map[], map[];
    }

    ghost predicate Valid()
      reads this
    {
      forall j, k :: j in hists && k in hists && j != k ==> hists[j] != hists[k]
    }

    ghost function View(): Totals
      reads this, hists.Values
    {
      Totals(sums, map k | k in hists :: hists[k].View())
    }

    method AddSum(key: Bytes, delta: real) returns (total: real)
      requires Valid()
      modifies this`sums
      ensures Valid() && View() == AddedSum(old(View()), key, delta) && total == View().sums[key]
    {
      sums := sums[key := (if key in sums then sums[key] else 0.0) + delta];
      return sums[key];
    }

    /** The histogram of the key, started over if its bounds are others. */
    method HistFor(key: Bytes, h: RawHist) returns (acc: HistAcc)
      requires Valid()
      modifies this`hists
      ensures Valid() && key in hists && acc == hists[key]
      ensures View() == StartedAt(old(View()), key, h)
      ensures fresh(hists.Values - old(hists.Values))
    {
      hide StartedAt;
      ghost var before := View();
      if key !in hists || hists[key].bounds != h.bounds {
        acc := new HistAcc(h.bounds, |h.buckets|);
        hists := hists[key := acc];
      } else {
        acc := hists[key];
      }
      assert acc.View() == StartedHist(before, key, h);
      Stored(before, View(), key, h);
    }

    /** Only the histogram of the key is another one. */
    lemma Stored(t: Totals, t': Totals, key: Bytes, h: RawHist)
      requires t'.sums == t.sums && t'.hists.Keys == t.hists.Keys + {key}
      requires forall k :: k in t'.hists ==> t'.hists[k] == if k == key then StartedHist(t, key, h) else t.hists[k]
      ensures t' == StartedAt(t, key, h)
    {
      hide StartedHist;
      assert t'.hists == StartedAt(t, key, h).hists;
    }

    method AddHistogram(key: Bytes, h: RawHist) returns (acc: HistAcc)
      requires Valid()
      modifies this`hists, hists.Values
      ensures Valid() && View() == AddedHist(old(View()), key, h)
      ensures fresh(hists.Values - old(hists.Values))
      ensures key in hists && acc == hists[key]
    {
      hide StartedHist, Grown, AddedHist, HistAcc.View;
      ghost var before := View();
      acc := HistFor(key, h);
      ghost var mid := View().hists;
      assert mid[key] == acc.View() == StartedHist(before, key, h);
      label Found:
      acc.Add(h);
      assert forall k :: k in hists && k != key ==> hists[k].View() == old@Found(hists[k].View());
      Replaced(before, View(), mid, key, h);
    }

    /** Only the histogram of the key has grown. */
    lemma Replaced(t: Totals, t': Totals, mid: map<Bytes, HistTotals>, key: Bytes, h: RawHist)
      requires mid == t.hists[key := StartedHist(t, key, h)] && t'.sums == t.sums && t'.hists.Keys == mid.Keys
      requires forall k :: k in mid ==> t'.hists[k] == if k == key then Grown(mid[k], h) else mid[k]
      ensures t' == AddedHist(t, key, h)
    {
      hide StartedHist, Grown;
      assert t'.hists == AddedHist(t, key, h).hists;
    }

    /** Accumulates the points of one metric. */
    method AddMetric(scope: Bytes, m: RawMetric)
      requires Valid()
      modifies this, hists.Values
      ensures Valid() && View() == AbsorbedAll(old(View()), SamplesIn(scope, m))
      ensures fresh(hists.Values - old(hists.Values))
    {
      hide SamplesIn, View, ServerKey, AddedSum, AddedHist;
      var ps := SamplesIn(scope, m);
      for i := 0 to |ps|
        invariant Valid() && View() == AbsorbedAll(old(View()), ps[..i])
        invariant fresh(hists.Values - old(hists.Values))
      {
        TakeStep(ps, i);
        AbsorbedSnoc(old(View()), ps[..i], ps[i]);
        match ps[i].value
        case GaugeValue(_, _) =>
        case SumValue(temporality, _, _, v) =>
          if temporality == DELTA {
            var _ := AddSum(ServerKey(ps[i]), v);
          }
        case HistValue(_, h) =>
          if |h.bounds| != 0 {
            var _ := AddHistogram(ServerKey(ps[i]), h);
          }
      }
      TakeAll(ps);
    }

    /** Accumulates a whole request. */
    method Convert(sms: seq<ScopeMetrics<real, nat>>)
      requires Valid()
      modifies this, hists.Values
      ensures Valid() && View() == AbsorbedAll(old(View()), RequestSamples(sms))
      ensures fresh(hists.Values - old(hists.Values))
    {
      hide SamplesIn, View, AbsorbedAll;
      ghost var start := View();
      NothingAbsorbed(start);
      for i := 0 to |sms|
        invariant Valid() && View() == AbsorbedAll(start, RequestSamples(sms[..i]))
        invariant fresh(hists.Values - old(hists.Values))
      {
        TakeStep(sms, i);
        ghost var done := RequestSamples(sms[..i]);
        var ms := sms[i].metrics;
        assert done + [] == done;
        for j := 0 to |ms|
          invariant Valid() && View() == AbsorbedAll(start, done + MetricSamples(sms[i].scope, ms[..j]))
          invariant fresh(hists.Values - old(hists.Values))
        {
          TakeStep(ms, j);
          ConcatAssoc(done, MetricSamples(sms[i].scope, ms[..j]), SamplesIn(sms[i].scope, ms[j]));
          AbsorbedConcat(start, done + MetricSamples(sms[i].scope, ms[..j]), SamplesIn(sms[i].scope, ms[j]));
          AddMetric(sms[i].scope, ms[j]);
        }
        TakeAll(ms);
      }
      TakeAll(sms);
    }

    lemma NothingAbsorbed(t: Totals)
      ensures AbsorbedAll(t, []) == t
    {
    }
  }

  // ----- what is accumulated -----

  /** The value of a counter. */
  function Counted(t: Totals, key: Bytes, c: Counter): real {
    match c
    case DeltaSum => if key in t.sums then t.sums[key] else 0.0
    case HistCount => if key in t.hists then t.hists[key].count as real else 0.0
    case HistSum => if key in t.hists then t.hists[key].sum else 0.0
    case HistBucket(i) =>
      if key in t.hists && i < |t.hists[key].buckets| then t.hists[key].buckets[i] as real else 0.0
  }

  /** Bounded histograms keep their shape. */
  predicate Bounded(s: Schema, p: Sample) {
    p.value.HistValue? && p.value.hist.bounds != [] ==> Shaped(s, p)
  }

  ghost predicate AllBounded(s: Schema, ps: seq<Sample>) {
    forall i :: 0 <= i < |ps| ==> Bounded(s, ps[i])
  }

  ghost predicate InShape(s: Schema, t: Totals) {
    forall k :: k in t.hists ==> t.hists[k].bounds == s.bounds(k) && |t.hists[k].buckets| == s.buckets(k)
  }

  lemma AbsorbAdds(s: Schema, t: Totals, p: Sample, key: Bytes, c: Counter)
    requires InShape(s, t) && Bounded(s, p)
    ensures InShape(s, Absorbed(t, p))
    ensures Counted(Absorbed(t, p), key, c) == Counted(t, key, c) + Weight(p, key, c)
  {
    hide ServerKey;
  }

  /** The histograms of one key that the server accumulates. */
  ghost predicate Counts(p: Sample, key: Bytes) {
    p.value.HistValue? && p.value.hist.bounds != [] && ServerKey(p) == key
  }

  /** All histograms of the key among `qs` have these bounds and as many buckets. */
  ghost predicate OneShape(qs: seq<Sample>, key: Bytes, bounds: seq<real>, n: nat) {
    forall i :: 0 <= i < |qs| && Counts(qs[i], key) ==>
      qs[i].value.hist.bounds == bounds && |qs[i].value.hist.buckets| == n
  }

  /** After a change of bounds the counters of a histogram start over: they are the totals of what
      was received since. */
  lemma {:induction false} ChangeRestarts(
      t: Totals, qs: seq<Sample>, key: Bytes, bounds: seq<real>, n: nat, c: Counter)
    requires key in t.hists && t.hists[key].bounds != bounds && OneShape(qs, key, bounds, n) && !c.DeltaSum?
    ensures var t' := AbsorbedAll(t, qs);
      && key in t'.hists
      && if exists i :: 0 <= i < |qs| && Counts(qs[i], key) then
           t'.hists[key].bounds == bounds && |t'.hists[key].buckets| == n && Counted(t', key, c) == Total(qs, key, c)
         else t'.hists[key] == t.hists[key] && Total(qs, key, c) == 0.0
    decreases |qs|
  {
    hide ServerKey, Absorbed, Counted, Weight;
    if qs != [] {
      var m := |qs| - 1;
      var init, p := qs[..m], qs[m];
      assert forall i :: 0 <= i < m ==> init[i] == qs[i];
      ChangeRestarts(t, init, key, bounds, n, c);
      Absorbs(AbsorbedAll(t, init), p, key, c);
      if i :| 0 <= i < m && Counts(init[i], key) {
        assert Counts(qs[i], key);
      }
      if i :| 0 <= i < |qs| && Counts(qs[i], key) {
        assert i < m ==> Counts(init[i], key);
      }
    }
  }

  /** What one sample does to a histogram. */
  lemma Absorbs(t: Totals, p: Sample, key: Bytes, c: Counter)
    requires key in t.hists && !c.DeltaSum?
    ensures var t' := Absorbed(t, p);
      && key in t'.hists
      && if !Counts(p, key) then
           t'.hists[key] == t.hists[key] && Weight(p, key, c) == 0.0 && Counted(t', key, c) == Counted(t, key, c)
         else
           && t'.hists[key].bounds == p.value.hist.bounds
           && (t.hists[key].bounds != p.value.hist.bounds ==>
                 |t'.hists[key].buckets| == |p.value.hist.buckets| && Counted(t', key, c) == Weight(p, key, c))
           && (t.hists[key].bounds == p.value.hist.bounds && |t.hists[key].buckets| == |p.value.hist.buckets| ==>
                 && |t'.hists[key].buckets| == |p.value.hist.buckets|
                 && Counted(t', key, c) == Counted(t, key, c) + Weight(p, key, c))
  {
    hide ServerKey;
  }

  /** As long as histograms keep their shape, every counter is the total of what was received. */
  lemma {:induction false} CountersAreTotals(s: Schema, ps: seq<Sample>, key: Bytes, c: Counter)
    requires AllBounded(s, ps)
    ensures InShape(s, AbsorbedAll(NO_TOTALS, ps))
    ensures Counted(AbsorbedAll(NO_TOTALS, ps), key, c) == Total(ps, key, c)
  {
    hide Absorbed, Counted, Weight, Bounded;
    if ps == [] {
      NothingCounted(key, c);
    } else {
      var n := |ps| - 1;
      CountersAreTotals(s, ps[..n], key, c);
      AbsorbAdds(s, AbsorbedAll(NO_TOTALS, ps[..n]), ps[n], key, c);
    }
  }

  lemma NothingCounted(key: Bytes, c: Counter)
    ensures Counted(NO_TOTALS, key, c) == 0.0
  {
  }
}
