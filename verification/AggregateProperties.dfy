/** What the fold over a window computes, and that closing a window changes no counter that
    the server will finally hold. */
module AggregateProperties {
  import opened Words
  import opened Protocol
  import opened Assembly
  import opened Samples
  import opened Aggregate

  // ----- closed forms -----

  function NumberOf(v: Value): real {
    match v
    case GaugeValue(_, x) => x
    case SumValue(_, _, _, x) => x
    case HistValue(_, h) => h.sum
  }

  function SumOf(ps: seq<Sample>): real {
    if ps == [] then 0.0 else SumOf(ps[..|ps| - 1]) + NumberOf(ps[|ps| - 1].value)
  }

  ghost predicate AllGauges(ps: seq<Sample>) {
    forall i :: 0 <= i < |ps| ==> ps[i].value.GaugeValue?
  }

  ghost predicate AllSums(ps: seq<Sample>, delta: bool) {
    forall i :: 0 <= i < |ps| ==> ps[i].value.SumValue? && (ps[i].value.temporality == DELTA <==> delta)
  }

  ghost predicate IsMin(ps: seq<Sample>, x: real) {
    && (exists i :: 0 <= i < |ps| && NumberOf(ps[i].value) == x)
    && forall i :: 0 <= i < |ps| ==> x <= NumberOf(ps[i].value)
  }

  ghost predicate IsMax(ps: seq<Sample>, x: real) {
    && (exists i :: 0 <= i < |ps| && NumberOf(ps[i].value) == x)
    && forall i :: 0 <= i < |ps| ==> NumberOf(ps[i].value) <= x
  }

  /** A gauge is summarized by count, sum, minimum and maximum, at the time of its first sample. */
  lemma {:induction false} GaugeFold(ps: seq<Sample>)
    requires ps != [] && AllGauges(ps)
    ensures var st := Folded(ps);
      && st.count == |ps| && st.sum == SumOf(ps) && IsMin(ps, st.min) && IsMax(ps, st.max)
      && st.firstTS == ps[0].value.ts && st.lastTS == ps[|ps| - 1].value.ts
  {
    var n := |ps| - 1;
    var init, st := ps[..n], Folded(ps[..n]);
    if n == 0 {
      assert init == [];
      assert ps[0].value == ps[n].value;
    } else {
      GaugeFold(init);
      MinSnoc(init, ps[n], st.min, Folded(ps).min);
      MaxSnoc(init, ps[n], st.max, Folded(ps).max);
      assert init + [ps[n]] == ps;
    }
  }

  lemma MinSnoc(ps: seq<Sample>, p: Sample, x: real, y: real)
    requires IsMin(ps, x) && y == if NumberOf(p.value) < x then NumberOf(p.value) else x
    ensures IsMin(ps + [p], y)
  {
    var all := ps + [p];
    if y == x {
      var i :| 0 <= i < |ps| && NumberOf(ps[i].value) == x;
      assert NumberOf(all[i].value) == y;
    } else {
      assert NumberOf(all[|ps|].value) == y;
    }
    assert forall i :: 0 <= i < |ps| ==> all[i] == ps[i];
  }

  lemma MaxSnoc(ps: seq<Sample>, p: Sample, x: real, y: real)
    requires IsMax(ps, x) && y == if NumberOf(p.value) > x then NumberOf(p.value) else x
    ensures IsMax(ps + [p], y)
  {
    var all := ps + [p];
    if y == x {
      var i :| 0 <= i < |ps| && NumberOf(ps[i].value) == x;
      assert NumberOf(all[i].value) == y;
    } else {
      assert NumberOf(all[|ps|].value) == y;
    }
    assert forall i :: 0 <= i < |ps| ==> all[i] == ps[i];
  }

  /** A cumulative sum keeps its last value, a delta sum its total. */
  lemma {:induction false} SumFold(ps: seq<Sample>, delta: bool)
    requires ps != [] && AllSums(ps, delta)
    ensures var st := Folded(ps);
      && st.count == |ps| && st.firstTS == ps[0].value.ts
      && (delta ==> st.deltaTotal == SumOf(ps))
      && (!delta ==> st.lastValue == ps[|ps| - 1].value.val && st.lastTS == ps[|ps| - 1].value.ts)
  {
    var n := |ps| - 1;
    if n == 0 {
      assert ps[..n] == [];
      assert ps[0].value == ps[n].value;
    } else {
      SumFold(ps[..n], delta);
    }
  }

  /** A gauge is emitted as a histogram without bounds that carries count, sum, minimum and
      maximum, at the time of its first sample. */
  lemma GaugeSummary(ps: seq<Sample>)
    requires ps != [] && AllGauges(ps)
    ensures var p := Summary(ps[0], Folded(ps));
      && p.value.HistValue? && p.value.temporality == DELTA
      && var h := p.value.hist;
         && h.ts == ps[0].value.ts && h.count == |ps| && h.sum == SumOf(ps) && h.buckets == [|ps|] && h.bounds == []
         && IsMin(ps, h.min) && IsMax(ps, h.max) && h.attrs == ps[0].attrs
  {
    hide Folded, IsMin, IsMax;
    GaugeFold(ps);
  }

  /** A delta sum is emitted as its total at the time of its first sample, a cumulative one as
      its last sample. */
  lemma SumSummary(ps: seq<Sample>, delta: bool)
    requires ps != [] && AllSums(ps, delta)
    ensures var v, first, last := Summary(ps[0], Folded(ps)).value, ps[0].value, ps[|ps| - 1].value;
      v == if delta then SumValue(DELTA, first.monotonic, first.ts, SumOf(ps))
           else SumValue(first.temporality, first.monotonic, last.ts, last.val)
  {
    hide Folded;
    SumFold(ps, delta);
  }

  // ----- histograms -----

  function AsHist(st: Stats): RawHist {
    HistPoint(map[], st.firstTS, st.count, st.sum, st.buckets, st.bounds, st.min, st.max)
  }

  ghost predicate AllHists(ps: seq<Sample>, bounds: seq<real>, n: nat) {
    forall i :: 0 <= i < |ps| ==>
      && ps[i].value.HistValue? && ps[i].value.hist.bounds == bounds && |ps[i].value.hist.buckets| == n
      && EmptyIsZero(ps[i].value.hist)
  }

  function CountsOf(ps: seq<Sample>): nat
    requires forall i :: 0 <= i < |ps| ==> ps[i].value.HistValue?
  {
    if ps == [] then 0 else CountsOf(ps[..|ps| - 1]) + ps[|ps| - 1].value.hist.count
  }

  function BucketsOf(ps: seq<Sample>, b: nat): nat
    requires forall i :: 0 <= i < |ps| ==> ps[i].value.HistValue?
  {
    if ps == [] then 0
    else
      var h := ps[|ps| - 1].value.hist;
      BucketsOf(ps[..|ps| - 1], b) + if b < |h.buckets| then h.buckets[b] else 0
  }

  /** What a histogram counter totals: counts, sums, and one bucket of each. */
  lemma {:induction false} HistTotalIs(ps: seq<Sample>, b: nat)
    requires forall i :: 0 <= i < |ps| ==> ps[i].value.HistValue?
    ensures HistTotal(ps, HistCount) == CountsOf(ps) as real && HistTotal(ps, HistSum) == SumOf(ps)
    ensures HistTotal(ps, HistBucket(b)) == BucketsOf(ps, b) as real
  {
    if ps != [] {
      HistTotalIs(ps[..|ps| - 1], b);
    }
  }

  function HistTotal(ps: seq<Sample>, c: Counter): real
    requires forall i :: 0 <= i < |ps| ==> ps[i].value.HistValue?
  {
    if ps == [] then 0.0 else HistTotal(ps[..|ps| - 1], c) + HistWeight(ps[|ps| - 1].value.hist, c)
  }

  /** Merging histograms of one shape adds up counts, sums and buckets. */
  lemma MergeAdds(st: Stats, h: RawHist, c: Counter)
    requires st.count == 0 || st.bounds == h.bounds
    requires EmptyIsZero(AsHist(st)) && EmptyIsZero(h) && |st.buckets| == |h.buckets|
    ensures HistWeight(AsHist(WithHistogram(st, h)), c) == HistWeight(AsHist(st), c) + HistWeight(h, c)
    ensures EmptyIsZero(AsHist(WithHistogram(st, h)))
  {
  }

  lemma {:induction false} HistFold(ps: seq<Sample>, bounds: seq<real>, n: nat, c: Counter)
    requires ps != [] && AllHists(ps, bounds, n)
    ensures var st := Folded(ps);
      && st.bounds == bounds && |st.buckets| == n && EmptyIsZero(AsHist(st))
      && HistWeight(AsHist(st), c) == HistTotal(ps, c)
  {
    hide HistWeight;
    var m := |ps| - 1;
    var h := ps[m].value.hist;
    if m == 0 {
      assert ps[..m] == [];
      SameWeight(h, AsHist(Folded(ps)), c);
    } else {
      HistFold(ps[..m], bounds, n, c);
      MergeAdds(Folded(ps[..m]), h, c);
    }
  }

  /** Nothing but empty histograms. */
  predicate AllEmpty(ps: seq<Sample>) {
    forall p :: p in ps ==> p.value.HistValue? && p.value.hist.count == 0
  }

  /** Where the window of a histogram series really begins: empty ones before the first that counts
      something are overwritten. */
  function Begins(ps: seq<Sample>): (i: nat)
    requires ps != []
    ensures i < |ps|
  {
    var n := |ps| - 1;
    if n == 0 || AllEmpty(ps[..n]) then n else Begins(ps[..n])
  }

  /** The greatest of the maxima. */
  ghost predicate IsGreatestMax(ps: seq<Sample>, x: real)
    requires forall p :: p in ps ==> p.value.HistValue?
  {
    (exists p :: p in ps && p.value.hist.max == x) && forall p :: p in ps ==> p.value.hist.max <= x
  }

  /** The least of the minima that are set: 0 stands for unset. */
  ghost predicate IsLeastMin(ps: seq<Sample>, x: real)
    requires forall p :: p in ps ==> p.value.HistValue?
  {
    && (exists p :: p in ps && p.value.hist.min == x)
    && forall p :: p in ps && p.value.hist.min != 0.0 ==> x != 0.0 && x <= p.value.hist.min
  }

  lemma {:induction false} EmptyFold(ps: seq<Sample>, bounds: seq<real>, n: nat)
    requires AllHists(ps, bounds, n)
    ensures Folded(ps).count == 0 <==> AllEmpty(ps)
    ensures ps != [] ==> Folded(ps).bounds == bounds
    decreases |ps|
  {
    hide AddBuckets, AllEmpty;
    NoneEmpty();
    if ps != [] {
      var m := |ps| - 1;
      EmptyFold(ps[..m], bounds, n);
      assert ps == ps[..m] + [ps[m]];
      EmptySnoc(ps[..m], ps[m]);
    }
  }

  lemma NoneEmpty()
    ensures AllEmpty([])
  {
  }

  lemma EmptySnoc(ps: seq<Sample>, p: Sample)
    requires p.value.HistValue?
    ensures AllEmpty(ps + [p]) <==> AllEmpty(ps) && p.value.hist.count == 0
  {
    assert forall q :: q in ps + [p] <==> q in ps || q == p;
  }

  /** The times, the minimum and the maximum of merged histograms. */
  lemma {:induction false} HistTimes(ps: seq<Sample>, bounds: seq<real>, n: nat)
    requires ps != [] && AllHists(ps, bounds, n)
    ensures var st, i := Folded(ps), Begins(ps);
      && st.firstTS == ps[i].value.hist.ts && st.lastTS == ps[|ps| - 1].value.hist.ts
      && IsGreatestMax(ps[i..], st.max) && IsLeastMin(ps[i..], st.min)
    decreases |ps|
  {
    hide AddBuckets, EmptyIsZero, AllEmpty, IsGreatestMax, IsLeastMin;
    var m := |ps| - 1;
    var init, last := ps[..m], ps[m];
    EmptyFold(init, bounds, n);
    if m == 0 || AllEmpty(init) {
      assert ps[m..] == [last];
      NoFoldYet(init);
      OneExtreme(last);
    } else {
      HistTimes(init, bounds, n);
      var i := Begins(init);
      assert ps[i..] == init[i..] + [last];
      ExtremesSnoc(init[i..], last, Folded(init).min, Folded(init).max);
    }
  }

  lemma OneExtreme(p: Sample)
    requires p.value.HistValue?
    ensures IsGreatestMax([p], p.value.hist.max) && IsLeastMin([p], p.value.hist.min)
  {
    assert p in [p];
  }

  lemma ExtremesSnoc(ps: seq<Sample>, p: Sample, min: real, max: real)
    requires (forall q :: q in ps + [p] ==> q.value.HistValue?)
    requires (forall q :: q in ps ==> q.value.HistValue?) && IsGreatestMax(ps, max) && IsLeastMin(ps, min)
    ensures var h := p.value.hist;
      && IsGreatestMax(ps + [p], if h.max > max then h.max else max)
      && IsLeastMin(ps + [p], if h.min != 0.0 && (min == 0.0 || h.min < min) then h.min else min)
  {
    assert forall q :: q in ps + [p] <==> q in ps || q == p;
    var a :| a in ps && a.value.hist.max == max;
    var b :| b in ps && b.value.hist.min == min;
    assert a in ps + [p] && b in ps + [p];
  }

  lemma NoFoldYet(ps: seq<Sample>)
    ensures ps == [] ==> Folded(ps).count == 0
  {
  }

  lemma HistTotals(ps: seq<Sample>, bounds: seq<real>, n: nat)
    requires ps != [] && AllHists(ps, bounds, n)
    ensures var st := Folded(ps);
      && st.bounds == bounds && |st.buckets| == n && st.count == CountsOf(ps) && st.sum == SumOf(ps)
      && forall b :: 0 <= b < n ==> st.buckets[b] == BucketsOf(ps, b)
  {
    hide Folded, CountsOf, SumOf, BucketsOf, HistTotal, EmptyIsZero;
    HistFold(ps, bounds, n, HistCount);
    HistFold(ps, bounds, n, HistSum);
    HistTotalIs(ps, 0);
    forall b: nat | b < n
      ensures Folded(ps).buckets[b] == BucketsOf(ps, b)
    {
      HistFold(ps, bounds, n, HistBucket(b));
      HistTotalIs(ps, b);
    }
  }

  /** A histogram series is emitted with the temporality and labels of its first sample, at the
      time its window begins, with the total count, sum and buckets, the greatest maximum and the
      least minimum that is set. */
  lemma HistSummary(ps: seq<Sample>, bounds: seq<real>, n: nat)
    requires ps != [] && AllHists(ps, bounds, n)
    ensures var p, i := Summary(ps[0], Folded(ps)), Begins(ps);
      && p.(value := ps[0].value) == ps[0]
      && p.value.HistValue? && p.value.temporality == ps[0].value.temporality
      && var h := p.value.hist;
         && h.attrs == ps[0].attrs && h.ts == ps[i].value.hist.ts && h.bounds == bounds && |h.buckets| == n
         && h.count == CountsOf(ps) && h.sum == SumOf(ps)
         && (forall b :: 0 <= b < n ==> h.buckets[b] == BucketsOf(ps, b))
         && IsGreatestMax(ps[i..], h.max) && IsLeastMin(ps[i..], h.min)
  {
    hide Folded, IsGreatestMax, IsLeastMin, Begins, CountsOf, SumOf, BucketsOf, EmptyIsZero;
    HistTimes(ps, bounds, n);
    HistTotals(ps, bounds, n);
  }

  predicate HistsOnly(ps: seq<Sample>) {
    forall i :: 0 <= i < |ps| ==> ps[i].value.HistValue?
  }

  lemma {:induction false} HistsOnlyFold(ps: seq<Sample>)
    requires HistsOnly(ps)
    ensures Folded(ps).deltaTotal == 0.0 && Folded(ps).lastValue == 0.0
    ensures ps != [] ==> Folded(ps).bounds == ps[|ps| - 1].value.hist.bounds
    decreases |ps|
  {
    if ps != [] {
      HistsOnlyFold(ps[..|ps| - 1]);
    }
  }

  /** A change of bounds starts a histogram series over: what came before is lost, for the rest of
      the window. */
  lemma {:induction false} ChangeForgets(ps: seq<Sample>, qs: seq<Sample>)
    requires ps != [] && qs != [] && HistsOnly(ps) && HistsOnly(qs)
    requires ps[|ps| - 1].value.hist.bounds != qs[0].value.hist.bounds
    ensures Folded(ps + qs) == Folded(qs)
    decreases |qs|
  {
    hide AddBuckets;
    var n := |qs| - 1;
    assert (ps + qs)[..|ps| + n] == ps + qs[..n];
    HistsOnlyFold(ps);
    if n == 0 {
      assert ps + qs[..0] == ps;
      assert qs[..0] == [];
    } else {
      ChangeForgets(ps, qs[..n]);
    }
  }

  lemma SameWeight(g: RawHist, h: RawHist, c: Counter)
    requires g.count == h.count && g.sum == h.sum && g.buckets == h.buckets
    ensures HistWeight(g, c) == HistWeight(h, c)
  {
  }

  // ----- counters -----

  ghost predicate OneSeries(ps: seq<Sample>) {
    forall i :: 0 <= i < |ps| ==> SameLabels(ps[i], ps[0])
  }

  lemma {:induction false} SumTotal(ps: seq<Sample>, delta: bool, key: Bytes, c: Counter)
    requires AllSums(ps, delta) && forall i :: 0 <= i < |ps| ==> ServerKey(ps[i]) == ServerKey(ps[0])
    ensures Total(ps, key, c) == if ps != [] && ServerKey(ps[0]) == key && c.DeltaSum? && delta then SumOf(ps) else 0.0
  {
    hide ServerKey;
    if |ps| > 1 {
      SumTotal(ps[..|ps| - 1], delta, key, c);
    }
  }

  lemma {:induction false} GaugeTotal(ps: seq<Sample>, key: Bytes, c: Counter)
    requires AllGauges(ps)
    ensures Total(ps, key, c) == 0.0
  {
    hide ServerKey;
    if ps != [] {
      GaugeTotal(ps[..|ps| - 1], key, c);
    }
  }

  lemma {:induction false} HistsTotal(ps: seq<Sample>, bounds: seq<real>, n: nat, key: Bytes, c: Counter)
    requires AllHists(ps, bounds, n) && forall i :: 0 <= i < |ps| ==> ServerKey(ps[i]) == ServerKey(ps[0])
    ensures Total(ps, key, c) == if ps != [] && ServerKey(ps[0]) == key && bounds != [] then HistTotal(ps, c) else 0.0
  {
    hide ServerKey, HistWeight;
    if |ps| > 1 {
      HistsTotal(ps[..|ps| - 1], bounds, n, key, c);
    }
  }

  lemma SameServerKey(p: Sample, q: Sample)
    requires SameLabels(p, q)
    ensures ServerKey(p) == ServerKey(q) && AgentKey(p) == AgentKey(q)
  {
  }

  /** The labels of a summary are those of its series. */
  lemma SummaryKey(first: Sample, st: Stats)
    ensures ServerKey(Summary(first, st)) == ServerKey(first)
  {
  }

  /** The summary of a series adds to every counter what its samples would have added. */
  lemma SeriesConserves(s: Schema, ps: seq<Sample>, key: Bytes, c: Counter)
    requires ps != [] && AllFit(s, ps) && OneSeries(ps)
    ensures Weight(Summary(ps[0], Folded(ps)), key, c) == Total(ps, key, c)
  {
    hide ServerKey, AgentKey, Folded, HistWeight, Total, CleanLabels;
    forall i | 0 <= i < |ps|
      ensures ServerKey(ps[i]) == ServerKey(ps[0]) && AgentKey(ps[i]) == AgentKey(ps[0])
    {
      SameServerKey(ps[i], ps[0]);
    }
    SummaryKey(ps[0], Folded(ps));
    match ps[0].value
    case GaugeValue(_, _) =>
      GaugeTotal(ps, key, c);
    case SumValue(t, _, _, _) =>
      assert AllSums(ps, t == DELTA);
      SumFold(ps, t == DELTA);
      SumTotal(ps, t == DELTA, key, c);
    case HistValue(_, h) =>
      assert AllHists(ps, h.bounds, |h.buckets|);
      HistFold(ps, h.bounds, |h.buckets|, c);
      HistsTotal(ps, h.bounds, |h.buckets|, key, c);
      SameWeight(AsHist(Folded(ps)), Summary(ps[0], Folded(ps)).value.hist, c);
  }

  /** Deltas are added up whatever comes between them. */
  lemma {:induction false} DeltasFold(ps: seq<Sample>, key: Bytes)
    requires forall i :: 0 <= i < |ps| ==> ps[i].value.SumValue? && ServerKey(ps[i]) == key
    ensures Folded(ps).deltaTotal == Total(ps, key, DeltaSum)
  {
    hide ServerKey;
    if ps != [] {
      DeltasFold(ps[..|ps| - 1], key);
    }
  }

  /** Why a series needs one temporality: a window that opens with a cumulative point loses the
      deltas in it, and no other window does. */
  lemma MixedTemporality(ps: seq<Sample>, key: Bytes)
    requires ps != [] && forall i :: 0 <= i < |ps| ==> ps[i].value.SumValue? && ServerKey(ps[i]) == key
    ensures Weight(Summary(ps[0], Folded(ps)), key, DeltaSum) == Total(ps, key, DeltaSum) <==>
            ps[0].value.temporality == DELTA || Total(ps, key, DeltaSum) == 0.0
  {
    hide ServerKey, Folded, Total;
    DeltasFold(ps, key);
    SummaryKey(ps[0], Folded(ps));
  }

  // ----- a whole window -----

  function KeyTotals(keys: seq<Bytes>, ps: seq<Sample>, key: Bytes, c: Counter): real {
    if keys == [] then 0.0 else KeyTotals(keys[..|keys| - 1], ps, key, c) + Total(ForKey(ps, keys[|keys| - 1]), key, c)
  }

  /** One more sample counts once, under its own key. */
  lemma {:induction false} KeyTotalsSnoc(keys: seq<Bytes>, ps: seq<Sample>, p: Sample, key: Bytes, c: Counter)
    requires forall i, j :: 0 <= i < j < |keys| ==> keys[i] != keys[j]
    ensures KeyTotals(keys, ps + [p], key, c)
      == KeyTotals(keys, ps, key, c) + if AgentKey(p) in keys then Weight(p, key, c) else 0.0
  {
    hide AgentKey, Weight;
    if keys != [] {
      var n := |keys| - 1;
      assert keys == keys[..n] + [keys[n]];
      KeyTotalsSnoc(keys[..n], ps, p, key, c);
      ForKeySnoc(ps, p, keys[n]);
      TotalSnoc(ForKey(ps, keys[n]), p, key, c);
    }
  }

  /** The samples of a window are those of its series. */
  lemma {:induction false} Partitioned(ps: seq<Sample>, key: Bytes, c: Counter)
    ensures KeyTotals(FirstSeen(KeysOf(ps)), ps, key, c) == Total(ps, key, c)
  {
    hide AgentKey, Weight, FirstSeen;
    if ps == [] {
      NoKeys();
    } else {
      var n := |ps| - 1;
      var init, p := ps[..n], ps[n];
      assert ps == init + [p];
      Partitioned(init, key, c);
      KeysSnoc(init, p);
      FirstSeenSnoc(KeysOf(init), AgentKey(p));
      TotalSnoc(init, p, key, c);
      var keys := FirstSeen(KeysOf(init));
      KeyTotalsSnoc(keys, init, p, key, c);
      if AgentKey(p) !in keys {
        assert (keys + [AgentKey(p)])[..|keys|] == keys;
        ForKeyNonempty(init, AgentKey(p));
        ForKeySnoc(init, p, AgentKey(p));
        assert ForKey(ps, AgentKey(p)) == [] + [p];
        TotalSnoc([], p, key, c);
      }
    }
  }

  lemma NoKeys()
    ensures FirstSeen(KeysOf([])) == []
  {
  }

  function Emitted(items: seq<RawItem>): (r: seq<Option<RawItem>>)
    ensures |r| == |items|
  {
    seq(|items|, i requires 0 <= i < |items| => Some(items[i]))
  }

  lemma SeriesOf(s: Schema, ps: seq<Sample>, key: Bytes)
    requires AllFit(s, ps) && key in KeysOf(ps)
    ensures ForKey(ps, key) != [] && AllFit(s, ForKey(ps, key)) && OneSeries(ForKey(ps, key))
  {
    hide AgentKey, SameLabels, Shaped;
    ForKeyNonempty(ps, key);
    var qs := ForKey(ps, key);
    forall i | 0 <= i < |qs|
      ensures Fits(s, qs[i]) && SameLabels(qs[i], qs[0])
    {
      assert qs[i] in qs && qs[0] in qs;
      AgentKeyInjective(qs[i], qs[0]);
    }
  }

  lemma {:induction false} ResultTotals(s: Schema, ps: seq<Sample>, m: nat, key: Bytes, c: Counter)
    requires AllFit(s, ps) && m <= |Results(ps)|
    ensures Total(SamplesOf(Emitted(Results(ps)[..m])), key, c) == KeyTotals(FirstSeen(KeysOf(ps))[..m], ps, key, c)
    decreases m
  {
    hide AgentKey, Weight, FirstSeen, Folded, Summary, ForKey, Fits, MetricOf, SamplesIn;
    if m == 0 {
      assert Emitted(Results(ps)[..0]) == [];
    } else {
      var n := m - 1;
      ResultTotals(s, ps, n, key, c);
      var keys := FirstSeen(KeysOf(ps));
      assert keys[n] in keys;
      TakeStep(keys, n);
      assert keys[..m][..n] == keys[..n];
      SeriesOf(s, ps, keys[n]);
      SeriesConserves(s, ForKey(ps, keys[n]), key, c);
      OneResult(ps, n);
      TotalSnoc(SamplesOf(Emitted(Results(ps)[..n])), SummaryOf(ps, keys[n]), key, c);
    }
  }

  /** Each result emits the summary of its series. */
  lemma OneResult(ps: seq<Sample>, n: nat)
    requires n < |Results(ps)|
    ensures FirstSeen(KeysOf(ps))[n] in KeysOf(ps)
    ensures SamplesOf(Emitted(Results(ps)[..n + 1]))
      == SamplesOf(Emitted(Results(ps)[..n])) + [SummaryOf(ps, FirstSeen(KeysOf(ps))[n])]
  {
    hide AgentKey, FirstSeen, Folded, Summary, ForKey, MetricOf, SamplesIn, SamplesOf;
    var key := FirstSeen(KeysOf(ps))[n];
    assert key in FirstSeen(KeysOf(ps));
    var p := SummaryOf(ps, key);
    var it := Item(p.scope, MetricOf(p));
    assert Results(ps)[n] == it;
    ForKeyNonempty(ps, key);
    SummarySingle(ForKey(ps, key)[0], Folded(ForKey(ps, key)));
    assert Emitted(Results(ps)[..n + 1]) == Emitted(Results(ps)[..n]) + [Some(it)];
    SamplesSnoc(Emitted(Results(ps)[..n]), it);
  }

  lemma SummarySingle(first: Sample, st: Stats)
    ensures var p := Summary(first, st); SamplesIn(p.scope, MetricOf(p)) == [p]
  {
    SingleSample(Summary(first, st));
  }

  lemma SamplesSnoc(batch: seq<Option<RawItem>>, it: RawItem)
    ensures SamplesOf(batch + [Some(it)]) == SamplesOf(batch) + SamplesIn(it.scope, it.metric)
  {
    hide SamplesIn;
    assert (batch + [Some(it)])[..|batch|] == batch;
  }

  /** Closing a window changes no counter: its results add what its samples would have added. */
  lemma FlushConserves(s: Schema, ps: seq<Sample>, key: Bytes, c: Counter)
    requires AllFit(s, ps)
    ensures Total(SamplesOf(Emitted(Results(ps))), key, c) == Total(ps, key, c)
  {
    hide Results, FirstSeen, Total, KeyTotals;
    ResultTotals(s, ps, |Results(ps)|, key, c);
    Partitioned(ps, key, c);
    TakeAll(Results(ps));
    TakeAll(FirstSeen(KeysOf(ps)));
  }
}
