/** Assembling a batch into a request changes no counter of the server. */
module AssemblyConserves {
  import opened Words
  import opened Protocol
  import opened Assembly
  import opened Samples
  import opened Accumulate
  import opened Sampling
  import opened Downsampling

  /** Of one kind, and sums of one temporality. */
  predicate Agree<V, C>(a: Data<V, C>, b: Data<V, C>) {
    KindOf(a) == KindOf(b) && (a.Sum? ==> a.temporality == b.temporality)
  }

  /** The items of each metric name agree. */
  ghost predicate AllAgree(items: seq<RawItem>) {
    forall i, j :: 0 <= i < |items| && 0 <= j < |items| ==> SameName(items[i], items[j])
  }

  ghost predicate SameName(a: RawItem, b: RawItem) {
    a.scope == b.scope && a.metric.name == b.metric.name ==> Agree(a.metric.data, b.metric.data)
  }

  /** The counters of a metric's samples depend on its name, its kind and its temporality. */
  lemma {:induction false} SameTotals(ps: seq<Sample>, qs: seq<Sample>, key: Bytes, c: Counter)
    requires |ps| == |qs| && forall i :: 0 <= i < |ps| ==> Weight(ps[i], key, c) == Weight(qs[i], key, c)
    ensures Total(ps, key, c) == Total(qs, key, c)
  {
    hide Weight;
    if ps != [] {
      SameTotals(ps[..|ps| - 1], qs[..|qs| - 1], key, c);
    }
  }

  /** A merged metric counts for both. */
  lemma MergedCounts(scope: Bytes, dst: RawMetric, src: RawMetric, key: Bytes, c: Counter)
    requires dst.name == src.name && Agree(dst.data, src.data)
    ensures var merged := dst.(data := Merged(dst.data, src.data));
      Total(SamplesIn(scope, merged), key, c)
        == Total(SamplesIn(scope, dst), key, c) + Total(SamplesIn(scope, src), key, c)
  {
    hide ServerKey, Total, SamplesIn, Merged, Retyped;
    var merged := dst.(data := Merged(dst.data, src.data));
    var front, back := SamplesIn(scope, dst), SamplesIn(scope, dst.(data := Retyped(dst.data, src.data)));
    SamplesJoined(scope, dst, src);
    TotalConcat(front, back, key, c);
    SameWeights(scope, dst, src, key, c);
    SameTotals(back, SamplesIn(scope, src), key, c);
  }

  lemma SamplesJoined(scope: Bytes, dst: RawMetric, src: RawMetric)
    requires KindOf(dst.data) == KindOf(src.data)
    ensures SamplesIn(scope, dst.(data := Merged(dst.data, src.data)))
      == SamplesIn(scope, dst) + SamplesIn(scope, dst.(data := Retyped(dst.data, src.data)))
  {
  }

  /** The points of `src` under the temporality of `dst`. */
  function Retyped<V, C>(dst: Data<V, C>, src: Data<V, C>): Data<V, C>
    requires KindOf(dst) == KindOf(src)
  {
    match dst
    case NoData => src
    case Gauge(_) => src
    case Sum(t, mono, _) => Sum(t, mono, src.points)
    case Histogram(t, _) => Histogram(t, src.hists)
  }

  lemma SameKeys(scope: Bytes, dst: RawMetric, src: RawMetric)
    requires dst.name == src.name && KindOf(dst.data) == KindOf(src.data)
    ensures var ps, qs := SamplesIn(scope, dst.(data := Retyped(dst.data, src.data))), SamplesIn(scope, src);
      |ps| == |qs| && forall i :: 0 <= i < |ps| ==> ServerKey(ps[i]) == ServerKey(qs[i])
  {
  }

  lemma SameWeights(scope: Bytes, dst: RawMetric, src: RawMetric, key: Bytes, c: Counter)
    requires dst.name == src.name && Agree(dst.data, src.data)
    ensures var ps, qs := SamplesIn(scope, dst.(data := Retyped(dst.data, src.data))), SamplesIn(scope, src);
      |ps| == |qs| && forall i :: 0 <= i < |ps| ==> Weight(ps[i], key, c) == Weight(qs[i], key, c)
  {
    hide ServerKey, HistWeight;
    SameKeys(scope, dst, src);
  }

  // ----- one more item -----

  lemma {:induction false} MetricReplaced(scope: Bytes, g: seq<RawMetric>, k: nat, m: RawMetric, key: Bytes, c: Counter)
    requires k < |g|
    ensures Total(MetricSamples(scope, g[k := m]), key, c) + Total(SamplesIn(scope, g[k]), key, c)
      == Total(MetricSamples(scope, g), key, c) + Total(SamplesIn(scope, m), key, c)
  {
    hide SamplesIn, Total;
    var n := |g| - 1;
    var g', front := g[k := m], g[..n];
    TotalConcat(MetricSamples(scope, front), SamplesIn(scope, g[n]), key, c);
    TotalConcat(MetricSamples(scope, g'[..n]), SamplesIn(scope, g'[n]), key, c);
    if k < n {
      assert g'[..n] == front[k := m];
      MetricReplaced(scope, front, k, m, key, c);
    } else {
      assert g'[..n] == front;
    }
  }

  lemma MetricAdded(scope: Bytes, g: seq<RawMetric>, m: RawMetric, key: Bytes, c: Counter)
    ensures Total(MetricSamples(scope, g + [m]), key, c)
      == Total(MetricSamples(scope, g), key, c) + Total(SamplesIn(scope, m), key, c)
  {
    hide SamplesIn, Total;
    assert (g + [m])[..|g|] == g;
    TotalConcat(MetricSamples(scope, g), SamplesIn(scope, m), key, c);
  }

  lemma {:induction false} ScopeReplaced(
      all: seq<ScopeMetrics<real, nat>>, k: nat, sm: ScopeMetrics<real, nat>, key: Bytes, c: Counter)
    requires k < |all| && sm.scope == all[k].scope
    ensures Total(RequestSamples(all[k := sm]), key, c) + Total(MetricSamples(sm.scope, all[k].metrics), key, c)
      == Total(RequestSamples(all), key, c) + Total(MetricSamples(sm.scope, sm.metrics), key, c)
  {
    hide MetricSamples, Total;
    var n := |all| - 1;
    var all', front := all[k := sm], all[..n];
    TotalConcat(RequestSamples(front), MetricSamples(all[n].scope, all[n].metrics), key, c);
    TotalConcat(RequestSamples(all'[..n]), MetricSamples(all'[n].scope, all'[n].metrics), key, c);
    if k < n {
      assert all'[..n] == front[k := sm];
      ScopeReplaced(front, k, sm, key, c);
    } else {
      assert all'[..n] == front;
    }
  }

  lemma ScopeAdded(all: seq<ScopeMetrics<real, nat>>, sm: ScopeMetrics<real, nat>, key: Bytes, c: Counter)
    ensures Total(RequestSamples(all + [sm]), key, c)
      == Total(RequestSamples(all), key, c) + Total(MetricSamples(sm.scope, sm.metrics), key, c)
  {
    hide MetricSamples, Total;
    assert (all + [sm])[..|all|] == all;
    TotalConcat(RequestSamples(all), MetricSamples(sm.scope, sm.metrics), key, c);
  }

  /** Another metric of a scope counts once, merged or not. */
  lemma GroupCounts(scope: Bytes, ms: seq<RawMetric>, m: RawMetric, key: Bytes, c: Counter)
    requires forall m' :: m' in ms && m'.name == m.name ==> Agree(m'.data, m.data)
    ensures Total(MetricSamples(scope, Grouped(ms + [m])), key, c)
      == Total(MetricSamples(scope, Grouped(ms)), key, c) + Total(SamplesIn(scope, m), key, c)
  {
    hide MetricSamples, SamplesIn, Total, Grouped, NamesOf, Merged;
    var g := Grouped(ms);
    if m.name in NamesOf(ms) {
      var k := PlaceOf(ms, m.name);
      GroupedSnoc(ms, m, k);
      MergedHolds(ms, m.name);
      FirstIn(ms, m.name);
      MergedCounts(scope, g[k], m, key, c);
      MetricReplaced(scope, g, k, g[k].(data := Merged(g[k].data, m.data)), key, c);
    } else {
      GroupedSnoc(ms, m, 0);
      MetricAdded(scope, g, m, key, c);
    }
  }

  lemma PlaceOf(ms: seq<RawMetric>, name: Bytes) returns (k: nat)
    requires name in NamesOf(ms)
    ensures k < |Grouped(ms)| && Grouped(ms)[k].name == name && MergedAs(ms, name) == Some(Grouped(ms)[k])
  {
    assert name in FirstSeen(NamesOf(ms));
    k :| 0 <= k < |FirstSeen(NamesOf(ms))| && FirstSeen(NamesOf(ms))[k] == name;
    assert NamesOf(Grouped(ms))[k] == name;
  }

  lemma {:induction false} FirstIn(ms: seq<RawMetric>, name: Bytes)
    requires name in NamesOf(ms)
    ensures FirstOf(ms, name) in ms && FirstOf(ms, name).name == name
    decreases |ms|
  {
    if ms[0].name != name {
      assert NamesOf(ms) == [ms[0].name] + NamesOf(ms[1..]);
      FirstIn(ms[1..], name);
    }
  }

  /** The place of a scope in the request. */
  lemma ScopePlace(items: seq<RawItem>, scope: Bytes) returns (k: nat)
    requires scope in ScopesOf(items)
    ensures k < |Assembled(items)| && Assembled(items)[k] == ScopeGroup(items, scope)
    ensures FirstSeen(ScopesOf(items))[k] == scope
  {
    assert scope in FirstSeen(ScopesOf(items));
    k :| 0 <= k < |FirstSeen(ScopesOf(items))| && FirstSeen(ScopesOf(items))[k] == scope;
  }

  /** Another item changes the entry of its scope only, or starts a new one at the end. */
  lemma AssembledSnoc(items: seq<RawItem>, it: RawItem, k: nat)
    requires it.scope in ScopesOf(items) ==> k < |Assembled(items)| && FirstSeen(ScopesOf(items))[k] == it.scope
    ensures var all, sm := Assembled(items), ScopeGroup(items + [it], it.scope);
      Assembled(items + [it]) == if it.scope in ScopesOf(items) then all[k := sm] else all + [sm]
  {
    hide FirstSeen, Grouped, InScope;
    var scopes := FirstSeen(ScopesOf(items));
    assert ScopesOf(items + [it]) == ScopesOf(items) + [it.scope];
    FirstSeenSnoc(ScopesOf(items), it.scope);
    forall i | 0 <= i < |scopes| && scopes[i] != it.scope
      ensures ScopeGroup(items + [it], scopes[i]) == ScopeGroup(items, scopes[i])
    {
      OtherScopes(items, it, scopes[i]);
    }
    if it.scope !in ScopesOf(items) {
      assert forall i :: 0 <= i < |scopes| ==> scopes[i] in scopes;
    }
  }

  lemma {:induction false} InScopeAgrees(items: seq<RawItem>, it: RawItem, m: RawMetric)
    requires (forall i :: 0 <= i < |items| ==> SameName(items[i], it)) && m in InScope(items, it.scope)
    ensures m.name == it.metric.name ==> Agree(m.data, it.metric.data)
  {
    var n := |items| - 1;
    if m in InScope(items[..n], it.scope) {
      InScopeAgrees(items[..n], it, m);
    } else {
      assert SameName(items[n], it);
    }
  }

  /** Another item counts once. */
  lemma ItemCounts(items: seq<RawItem>, it: RawItem, key: Bytes, c: Counter)
    requires forall i :: 0 <= i < |items| ==> SameName(items[i], it)
    ensures Total(RequestSamples(Assembled(items + [it])), key, c)
      == Total(RequestSamples(Assembled(items)), key, c) + Total(SamplesIn(it.scope, it.metric), key, c)
  {
    hide MetricSamples, SamplesIn, Total, Grouped, InScope, Assembled, RequestSamples, SameName, FirstSeen;
    var ms, sm := InScope(items, it.scope), ScopeGroup(items + [it], it.scope);
    InScopeSnoc(items, it, it.scope);
    forall m | m in ms && m.name == it.metric.name
      ensures Agree(m.data, it.metric.data)
    {
      InScopeAgrees(items, it, m);
    }
    GroupCounts(it.scope, ms, it.metric, key, c);
    if it.scope in ScopesOf(items) {
      var k := ScopePlace(items, it.scope);
      AssembledSnoc(items, it, k);
      ScopeReplaced(Assembled(items), k, sm, key, c);
    } else {
      AssembledSnoc(items, it, 0);
      ScopeAdded(Assembled(items), sm, key, c);
      AbsentScope(items, it.scope);
      NoMetrics(it.scope, key, c);
    }
  }

  lemma NoMetrics(scope: Bytes, key: Bytes, c: Counter)
    ensures Total(MetricSamples(scope, []), key, c) == 0.0
  {
  }

  /** Assembling a batch changes no counter: if the items of each metric name agree in kind and
      temporality, the request adds to every counter what the items would have added. */
  lemma {:induction false} RequestConserves(batch: seq<Option<RawItem>>, key: Bytes, c: Counter)
    requires AllAgree(Present(batch))
    ensures Total(RequestSamples(Assembled(Present(batch))), key, c) == Total(SamplesOf(batch), key, c)
  {
    hide SamplesIn, Assembled, RequestSamples, SameName, Total;
    if batch == [] {
      NothingAssembled(key, c);
    } else {
      var n := |batch| - 1;
      var init, items := batch[..n], Present(batch[..n]);
      assert items + [] == items && SamplesOf(init) + [] == SamplesOf(init);
      if batch[n].Some? {
        var it := batch[n].value;
        assert Present(batch) == items + [it];
        assert forall i :: 0 <= i < |items| ==> Present(batch)[i] == items[i];
        assert Present(batch)[|items|] == it;
        RequestConserves(init, key, c);
        ItemCounts(items, it, key, c);
        TotalConcat(SamplesOf(init), SamplesIn(it.scope, it.metric), key, c);
      } else {
        RequestConserves(init, key, c);
      }
    }
  }

  lemma NothingAssembled(key: Bytes, c: Counter)
    ensures Total(RequestSamples(Assembled([])), key, c) == Total(SamplesOf([]), key, c)
  {
  }

  // ----- what the server counts of a request -----

  /** The same point, whatever temporality and description it is given with. */
  predicate Alike(p: Sample, q: Sample) {
    && p.scope == q.scope && p.name == q.name && p.attrs == q.attrs
    && (p.value.HistValue? <==> q.value.HistValue?) && (p.value.HistValue? ==> p.value.hist == q.value.hist)
  }

  lemma AlikeBounded(s: Schema, p: Sample, q: Sample)
    requires Alike(p, q) && Bounded(s, q)
    ensures Bounded(s, p)
  {
  }

  /** Every sample of `xs` is one of `ys`. */
  ghost predicate Among(xs: seq<Sample>, ys: seq<Sample>) {
    forall p :: p in xs ==> exists q :: q in ys && Alike(p, q)
  }

  lemma AmongConcat(xs: seq<Sample>, xs': seq<Sample>, ys: seq<Sample>)
    requires Among(xs, ys) && Among(xs', ys)
    ensures Among(xs + xs', ys)
  {
    hide Alike;
  }

  lemma MergedAmong(scope: Bytes, dst: RawMetric, src: RawMetric, ys: seq<Sample>)
    requires dst.name == src.name && Among(SamplesIn(scope, dst), ys) && Among(SamplesIn(scope, src), ys)
    ensures Among(SamplesIn(scope, dst.(data := Merged(dst.data, src.data))), ys)
  {
    hide Merged, SamplesIn, Alike;
    var merged := dst.(data := Merged(dst.data, src.data));
    var all, a, b := SamplesIn(scope, merged), SamplesIn(scope, dst), SamplesIn(scope, src);
    MergedSamples(scope, dst, src);
    forall i | 0 <= i < |all|
      ensures exists q :: q in ys && Alike(all[i], q)
    {
      if i < |a| {
        assert a[i] in a;
      } else {
        assert b[i - |a|] in b;
        OneAmong(all[i], b[i - |a|], ys);
      }
    }
  }

  lemma OneAmong(p: Sample, q: Sample, ys: seq<Sample>)
    requires Alike(p, q) && exists r :: r in ys && Alike(q, r)
    ensures exists r :: r in ys && Alike(p, r)
  {
    var r :| r in ys && Alike(q, r);
    assert Alike(p, r);
  }

  /** The samples of a merged metric: those of the one, then, as points, those of the other. */
  lemma MergedSamples(scope: Bytes, dst: RawMetric, src: RawMetric)
    requires dst.name == src.name
    ensures var all, a := SamplesIn(scope, dst.(data := Merged(dst.data, src.data))), SamplesIn(scope, dst);
      var b := SamplesIn(scope, src);
      && |a| <= |all| <= |a| + |b| && (forall i :: 0 <= i < |a| ==> all[i] == a[i])
      && forall i :: |a| <= i < |all| ==> Alike(all[i], b[i - |a|])
  {
    hide SamplesIn, Merged, Alike, Retyped;
    if KindOf(dst.data) == KindOf(src.data) {
      SamplesJoined(scope, dst, src);
      RetypedAlike(scope, dst, src);
    } else {
      OtherKind(dst, src);
    }
  }

  lemma OtherKind(dst: RawMetric, src: RawMetric)
    requires KindOf(dst.data) != KindOf(src.data)
    ensures dst.(data := Merged(dst.data, src.data)) == dst
  {
  }

  lemma RetypedAlike(scope: Bytes, dst: RawMetric, src: RawMetric)
    requires dst.name == src.name && KindOf(dst.data) == KindOf(src.data)
    ensures var ps, qs := SamplesIn(scope, dst.(data := Retyped(dst.data, src.data))), SamplesIn(scope, src);
      |ps| == |qs| && forall i :: 0 <= i < |ps| ==> Alike(ps[i], qs[i])
  {
  }

  lemma {:induction false} MergedAllAmong(scope: Bytes, ms: seq<RawMetric>, name: Bytes, ys: seq<Sample>)
    requires name in NamesOf(ms) && forall m :: m in ms ==> Among(SamplesIn(scope, m), ys)
    ensures Among(SamplesIn(scope, MergedAs(ms, name).value), ys)
  {
    hide SamplesIn, Merged, Among;
    var n := |ms| - 1;
    assert ms == ms[..n] + [ms[n]];
    NamesSnoc(ms[..n], ms[n]);
    MergedSnoc(ms[..n], ms[n], name);
    if name in NamesOf(ms[..n]) {
      MergedAllAmong(scope, ms[..n], name, ys);
      if ms[n].name == name {
        MergedAmong(scope, MergedAs(ms[..n], name).value, ms[n], ys);
      }
    }
  }

  lemma {:induction false} MetricsAmong(scope: Bytes, g: seq<RawMetric>, ys: seq<Sample>)
    requires forall m :: m in g ==> Among(SamplesIn(scope, m), ys)
    ensures Among(MetricSamples(scope, g), ys)
  {
    hide SamplesIn, Alike;
    if g != [] {
      MetricsAmong(scope, g[..|g| - 1], ys);
      AmongConcat(MetricSamples(scope, g[..|g| - 1]), SamplesIn(scope, g[|g| - 1]), ys);
    }
  }

  lemma {:induction false} ScopesAmong(all: seq<ScopeMetrics<real, nat>>, ys: seq<Sample>)
    requires forall sm :: sm in all ==> Among(MetricSamples(sm.scope, sm.metrics), ys)
    ensures Among(RequestSamples(all), ys)
  {
    hide MetricSamples, Alike;
    if all != [] {
      var last := all[|all| - 1];
      ScopesAmong(all[..|all| - 1], ys);
      AmongConcat(RequestSamples(all[..|all| - 1]), MetricSamples(last.scope, last.metrics), ys);
    }
  }

  lemma {:induction false} InScopeAmong(items: seq<RawItem>, scope: Bytes, m: RawMetric)
    requires m in InScope(items, scope)
    ensures exists it :: it in items && it.scope == scope && it.metric == m
  {
    var n := |items| - 1;
    if m in InScope(items[..n], scope) {
      InScopeAmong(items[..n], scope, m);
      var it :| it in items[..n] && it.scope == scope && it.metric == m;
      assert it in items;
    } else {
      assert items[n] in items;
    }
  }

  lemma {:induction false} ItemAmong(batch: seq<Option<RawItem>>, it: RawItem)
    requires it in Present(batch)
    ensures Among(SamplesIn(it.scope, it.metric), SamplesOf(batch))
  {
    hide SamplesIn;
    var n := |batch| - 1;
    if batch[n] != Some(it) {
      ItemAmong(batch[..n], it);
    }
    forall p | p in SamplesIn(it.scope, it.metric)
      ensures exists q :: q in SamplesOf(batch) && Alike(p, q)
    {
      if batch[n] == Some(it) {
        assert p in SamplesOf(batch) && Alike(p, p);
      } else {
        var q :| q in SamplesOf(batch[..n]) && Alike(p, q);
        assert q in SamplesOf(batch);
      }
    }
  }

  /** Every sample of an assembled request is one of the batch. */
  lemma RequestAmong(batch: seq<Option<RawItem>>)
    ensures Among(RequestSamples(Assembled(Present(batch))), SamplesOf(batch))
  {
    hide SamplesIn, Among, MetricSamples, RequestSamples, InScope, MergedAs, Present, FirstSeen;
    var items, ys := Present(batch), SamplesOf(batch);
    var all := Assembled(items);
    forall i | 0 <= i < |all|
      ensures Among(MetricSamples(all[i].scope, all[i].metrics), ys)
    {
      var scope, g := all[i].scope, all[i].metrics;
      var ms := InScope(items, scope);
      forall m | m in ms
        ensures Among(SamplesIn(scope, m), ys)
      {
        InScopeAmong(items, scope, m);
        var it :| it in items && it.scope == scope && it.metric == m;
        ItemAmong(batch, it);
      }
      forall j | 0 <= j < |g|
        ensures Among(SamplesIn(scope, g[j]), ys)
      {
        AssembledOnce(items, i, j);
        MergedAllAmong(scope, ms, g[j].name, ys);
      }
      MetricsAmong(scope, g, ys);
    }
    ScopesAmong(all, ys);
  }

  lemma RequestBounded(s: Schema, batch: seq<Option<RawItem>>)
    requires AllBounded(s, SamplesOf(batch))
    ensures AllBounded(s, RequestSamples(Assembled(Present(batch))))
  {
    hide RequestSamples, Assembled, Present, SamplesOf, Bounded, Alike;
    var got := RequestSamples(Assembled(Present(batch)));
    RequestAmong(batch);
    forall i | 0 <= i < |got|
      ensures Bounded(s, got[i])
    {
      assert got[i] in got;
      var q :| q in SamplesOf(batch) && Alike(got[i], q);
      AlikeBounded(s, got[i], q);
    }
  }

  /** The items of some batches, one after the other. */
  function Flat(batches: seq<seq<Option<RawItem>>>): seq<Option<RawItem>> {
    if batches == [] then [] else Flat(batches[..|batches| - 1]) + batches[|batches| - 1]
  }

  /** The samples of the requests assembled from them. */
  function Requested(batches: seq<seq<Option<RawItem>>>): seq<Sample> {
    if batches == [] then []
    else Requested(batches[..|batches| - 1]) + RequestSamples(Assembled(Present(batches[|batches| - 1])))
  }

  ghost predicate BatchesAgree(batches: seq<seq<Option<RawItem>>>) {
    forall i :: 0 <= i < |batches| ==> AllAgree(Present(batches[i]))
  }

  lemma BoundedParts(s: Schema, xs: seq<Sample>, ys: seq<Sample>)
    ensures AllBounded(s, xs + ys) <==> AllBounded(s, xs) && AllBounded(s, ys)
  {
    hide Bounded;
    assert forall i :: 0 <= i < |xs| ==> (xs + ys)[i] == xs[i];
    assert forall i :: 0 <= i < |ys| ==> (xs + ys)[|xs| + i] == ys[i];
  }

  lemma {:induction false} RequestedCounts(s: Schema, batches: seq<seq<Option<RawItem>>>, key: Bytes, c: Counter)
    requires BatchesAgree(batches) && AllBounded(s, SamplesOf(Flat(batches)))
    ensures AllBounded(s, Requested(batches))
    ensures Total(Requested(batches), key, c) == Total(SamplesOf(Flat(batches)), key, c)
  {
    hide RequestSamples, Assembled, Present, SamplesOf, AllBounded, AllAgree, Total;
    if batches == [] {
      NothingRequested(s);
    } else {
      var n := |batches| - 1;
      var init, last := batches[..n], batches[n];
      SamplesConcat(Flat(init), last);
      BoundedParts(s, SamplesOf(Flat(init)), SamplesOf(last));
      RequestedCounts(s, init, key, c);
      RequestBounded(s, last);
      BoundedParts(s, Requested(init), RequestSamples(Assembled(Present(last))));
      RequestConserves(last, key, c);
      TotalConcat(SamplesOf(Flat(init)), SamplesOf(last), key, c);
      TotalConcat(Requested(init), RequestSamples(Assembled(Present(last))), key, c);
    }
  }

  lemma NothingRequested(s: Schema)
    ensures SamplesOf([]) == [] && AllBounded(s, [])
  {
  }

  /** The stages joined: for any batches, any clock, any mode and any forced flushes, and however
      the emitted points are cut into batches, each assembled into one request. What the server
      has accumulated from the requests, plus what the aggregator still holds, is the total of
      the raw points, for every counter, as long as no batch mixes kinds or temporalities under
      one name. */
  lemma RequestsKeepCounters(
      s: Schema, cfg: Config, calls: seq<Call>, batches: seq<seq<Option<RawItem>>>, key: Bytes, c: Counter)
    requires AllFit(s, Raw(calls)) && BatchesAgree(batches) && Flat(batches) == After(cfg, START, calls).1
    ensures Counted(AbsorbedAll(NO_TOTALS, Requested(batches)), key, c) + Total(After(cfg, START, calls).0.seen, key, c)
      == Total(Raw(calls), key, c)
  {
    hide AbsorbedAll, After, SamplesOf, Raw, AllFit, Counted, Requested, Flat, BatchesAgree, AllBounded;
    NothingFits(s, key, c);
    RunConserves(s, cfg, START, calls, key, c);
    RequestedCounts(s, batches, key, c);
    CountersAreTotals(s, Requested(batches), key, c);
  }

  lemma NothingFits(s: Schema, key: Bytes, c: Counter)
    ensures AllFit(s, []) && Total([], key, c) == 0.0
  {
  }
}
