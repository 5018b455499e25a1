/** Assembling a batch of single metrics into one request (`internal/pipeline/assemble.go`):
    what the maps and the merging of data points amount to. */
module Assembly {
  import opened Words
  import opened Labels
  import opened Protocol

  datatype Item<V, C> = Item(scope: Bytes, metric: Metric<V, C>)

  datatype Point<V, C> = Number(number: NumberPoint<V>) | Hist(hist: HistPoint<V, C>)

  datatype Kind = KNone | KGauge | KSum | KHistogram

  function KindOf<V, C>(d: Data<V, C>): Kind {
    match d
    case NoData => KNone
    case Gauge(_) => KGauge
    case Sum(_, _, _) => KSum
    case Histogram(_, _) => KHistogram
  }

  /** The data points of a metric, of either sort. */
  function Points<V, C>(d: Data<V, C>): seq<Point<V, C>> {
    match d
    case NoData => []
    case Gauge(ps) => seq(|ps|, i requires 0 <= i < |ps| => Number(ps[i]))
    case Sum(_, _, ps) => seq(|ps|, i requires 0 <= i < |ps| => Number(ps[i]))
    case Histogram(_, hs) => seq(|hs|, i requires 0 <= i < |hs| => Hist(hs[i]))
  }

  /** `mergeDataPoints`: the points of `src` behind those of `dst`, if they are of one kind. */
  function Merged<V, C>(dst: Data<V, C>, src: Data<V, C>): (r: Data<V, C>)
    ensures KindOf(r) == KindOf(dst)
    ensures Points(r) == Points(dst) + if KindOf(src) == KindOf(dst) then Points(src) else []
  {
    match dst
    case NoData => dst
    case Gauge(ps) => if src.Gauge? then Gauge(ps + src.points) else dst
    case Sum(t, mono, ps) => if src.Sum? then Sum(t, mono, ps + src.points) else dst
    case Histogram(t, hs) => if src.Histogram? then Histogram(t, hs + src.hists) else dst
  }

  // ----- what is assembled -----

  /** Each element once, in the order of first occurrences. */
  function FirstSeen(xs: seq<Bytes>): (r: seq<Bytes>)
    ensures forall x :: x in r <==> x in xs
    ensures forall i, j :: 0 <= i < j < |r| ==> r[i] != r[j]
  {
    if xs == [] then []
    else
      var r, x := FirstSeen(xs[..|xs| - 1]), xs[|xs| - 1];
      assert xs == xs[..|xs| - 1] + [x];
      if x in r then r else r + [x]
  }

  function ScopesOf<V, C>(items: seq<Item<V, C>>): (r: seq<Bytes>)
    ensures |r| == |items|
  {
    seq(|items|, i requires 0 <= i < |items| => items[i].scope)
  }

  function NamesOf<V, C>(ms: seq<Metric<V, C>>): (r: seq<Bytes>)
    ensures |r| == |ms|
  {
    seq(|ms|, i requires 0 <= i < |ms| => ms[i].name)
  }

  /** The metrics that arrived for a scope. */
  function InScope<V, C>(items: seq<Item<V, C>>, scope: Bytes): seq<Metric<V, C>> {
    if items == [] then []
    else
      var last := items[|items| - 1];
      InScope(items[..|items| - 1], scope) + if last.scope == scope then [last.metric] else []
  }

  /** The metrics of one name, merged into the first of them. */
  function MergedAs<V, C>(ms: seq<Metric<V, C>>, name: Bytes): (r: Option<Metric<V, C>>)
    ensures r.Some? <==> name in NamesOf(ms)
    ensures r.Some? ==> r.value.name == name
  {
    if ms == [] then None
    else
      var r, last := MergedAs(ms[..|ms| - 1], name), ms[|ms| - 1];
      assert NamesOf(ms) == NamesOf(ms[..|ms| - 1]) + [last.name];
      if last.name != name then r
      else if r.None? then Some(last)
      else Some(r.value.(data := Merged(r.value.data, last.data)))
  }

  /** One metric per name, in the order of first arrival. */
  function Grouped<V, C>(ms: seq<Metric<V, C>>): (r: seq<Metric<V, C>>)
    ensures NamesOf(r) == FirstSeen(NamesOf(ms))
  {
    var names := FirstSeen(NamesOf(ms));
    seq(|names|, i requires 0 <= i < |names| => assert names[i] in names; MergedAs(ms, names[i]).value)
  }

  function ScopeGroup<V, C>(items: seq<Item<V, C>>, scope: Bytes): ScopeMetrics<V, C> {
    ScopeMetrics(scope, [], Grouped(InScope(items, scope)))
  }

  /** One entry per scope, in the order of first arrival. */
  function Assembled<V, C>(items: seq<Item<V, C>>): (r: seq<ScopeMetrics<V, C>>)
    ensures |r| == |FirstSeen(ScopesOf(items))|
    ensures forall i :: 0 <= i < |r| ==> r[i].scope == FirstSeen(ScopesOf(items))[i]
  {
    var scopes := FirstSeen(ScopesOf(items));
    seq(|scopes|, i requires 0 <= i < |scopes| => ScopeGroup(items, scopes[i]))
  }

  /** A batch may hold empty slots. */
  function Present<V, C>(batch: seq<Option<Item<V, C>>>): seq<Item<V, C>> {
    if batch == [] then []
    else
      var last := batch[|batch| - 1];
      Present(batch[..|batch| - 1]) + if last.Some? then [last.value] else []
  }

  // ----- one more item -----

  lemma FirstSeenSnoc(xs: seq<Bytes>, x: Bytes)
    ensures FirstSeen(xs + [x]) == if x in xs then FirstSeen(xs) else FirstSeen(xs) + [x]
  {
    assert (xs + [x])[..|xs|] == xs;
  }

  lemma NamesSnoc<V, C>(ms: seq<Metric<V, C>>, m: Metric<V, C>)
    ensures NamesOf(ms + [m]) == NamesOf(ms) + [m.name]
  {
  }

  lemma InScopeSnoc<V, C>(items: seq<Item<V, C>>, it: Item<V, C>, scope: Bytes)
    ensures InScope(items + [it], scope) == InScope(items, scope) + if it.scope == scope then [it.metric] else []
  {
    assert (items + [it])[..|items|] == items;
  }

  lemma MergedSnoc<V, C>(ms: seq<Metric<V, C>>, m: Metric<V, C>, name: Bytes)
    ensures MergedAs(ms + [m], name) ==
      if m.name != name then MergedAs(ms, name)
      else if name !in NamesOf(ms) then Some(m)
      else
        var r := MergedAs(ms, name).value;
        Some(r.(data := Merged(r.data, m.data)))
  {
    hide Merged;
    assert (ms + [m])[..|ms|] == ms;
  }

  /** Another metric is merged into the one of its name, or starts a new one at the end. */
  lemma GroupedSnoc<V, C>(ms: seq<Metric<V, C>>, m: Metric<V, C>, k: nat)
    requires m.name in NamesOf(ms) ==> k < |Grouped(ms)| && Grouped(ms)[k].name == m.name
    ensures var g := Grouped(ms);
      Grouped(ms + [m]) ==
        if m.name in NamesOf(ms) then g[k := g[k].(data := Merged(g[k].data, m.data))] else g + [m]
  {
    hide FirstSeen, MergedAs, Merged, NamesOf;
    var g, g', names := Grouped(ms), Grouped(ms + [m]), FirstSeen(NamesOf(ms));
    NamesSnoc(ms, m);
    FirstSeenSnoc(NamesOf(ms), m.name);
    assert NamesOf(g) == names;
    assert forall i :: 0 <= i < |g| ==> g[i].name == names[i];
    forall i | 0 <= i < |g|
      ensures g'[i] == if names[i] == m.name then g[i].(data := Merged(g[i].data, m.data)) else g[i]
    {
      MergedSnoc(ms, m, names[i]);
      assert names[i] in names;
    }
    MergedSnoc(ms, m, m.name);
    if m.name !in NamesOf(ms) {
      forall i | 0 <= i < |g|
        ensures names[i] != m.name
      {
        assert names[i] in names;
      }
    }
  }

  // ----- the algorithm -----

  /** The scopes seen after some items. */
  ghost predicate TracksScopes<V, C>(
      items: seq<Item<V, C>>, scopes: map<Bytes, ScopeMetrics<V, C>>, scopeOrder: seq<Bytes>)
  {
    && scopeOrder == FirstSeen(ScopesOf(items))
    && (forall s :: s in scopes <==> s in scopeOrder)
    && (forall s :: s in scopes ==> scopes[s] == ScopeGroup(items, s))
  }

  /** Where the metrics seen after some items are in their scopes. */
  ghost predicate TracksNames<V, C>(items: seq<Item<V, C>>, metricIdx: map<(Bytes, Bytes), nat>) {
    && (forall s, n :: (s, n) in metricIdx <==> n in NamesOf(InScope(items, s)))
    && (forall s, n :: (s, n) in metricIdx ==> At(Grouped(InScope(items, s)), metricIdx[(s, n)], n))
  }

  predicate At<V, C>(g: seq<Metric<V, C>>, i: nat, name: Bytes) {
    i < |g| && g[i].name == name
  }

  /** Builds the three layers of a request from single metrics. */
  method Assemble<V, C>(agentId: Bytes, attrs: Attrs, now: I64, batch: seq<Option<Item<V, C>>>)
      returns (req: Request<V, C>)
    ensures req == Request(agentId, attrs, now, Assembled(Present(batch)))
  {
    hide FirstSeen, Grouped, InScope, Present;
    var scopes: map<Bytes, ScopeMetrics<V, C>> := map[];
    var metricIdx: map<(Bytes, Bytes), nat> := map[];
    var scopeOrder: seq<Bytes> := [];
    NoItems<V, C>();
    for i := 0 to |batch|
      invariant TracksScopes(Present(batch[..i]), scopes, scopeOrder) && TracksNames(Present(batch[..i]), metricIdx)
    {
      ghost var items := Present(batch[..i]);
      PresentStep(batch, i);
      if batch[i].Some? {
        scopes, metricIdx, scopeOrder := AddItem(items, batch[i].value, scopes, metricIdx, scopeOrder);
      }
    }
    TakeAll(batch);
    ghost var items := Present(batch);
    var out: seq<ScopeMetrics<V, C>> := [];
    for i := 0 to |scopeOrder|
      invariant out == Assembled(items)[..i]
    {
      assert scopeOrder[i] in scopeOrder;
      TakeStep(Assembled(items), i);
      out := out + [scopes[scopeOrder[i]]];
    }
    TakeAll(Assembled(items));
    req := Request(agentId, attrs, now, out);
  }

  lemma NoItems<V, C>()
    ensures Present<V, C>([]) == [] && TracksScopes<V, C>([], map[], []) && TracksNames<V, C>([], map[])
    ensures forall b: seq<Option<Item<V, C>>> :: b[..0] == []
  {
  }

  lemma PresentStep<V, C>(batch: seq<Option<Item<V, C>>>, i: nat)
    requires i < |batch|
    ensures Present(batch[..i + 1])
      == if batch[i].Some? then Present(batch[..i]) + [batch[i].value] else Present(batch[..i])
  {
    TakeStep(batch, i);
    assert Present(batch[..i]) + [] == Present(batch[..i]);
  }

  method AddItem<V, C>(ghost items: seq<Item<V, C>>, it: Item<V, C>, scopes: map<Bytes, ScopeMetrics<V, C>>,
                       metricIdx: map<(Bytes, Bytes), nat>, scopeOrder: seq<Bytes>)
      returns (scopes': map<Bytes, ScopeMetrics<V, C>>, metricIdx': map<(Bytes, Bytes), nat>, scopeOrder': seq<Bytes>)
    requires TracksScopes(items, scopes, scopeOrder) && TracksNames(items, metricIdx)
    ensures TracksScopes(items + [it], scopes', scopeOrder') && TracksNames(items + [it], metricIdx')
  {
    hide FirstSeen, Grouped, InScope, Merged;
    scopes', metricIdx', scopeOrder' := scopes, metricIdx, scopeOrder;
    ghost var ms := InScope(items, it.scope);
    var sm;
    if it.scope in scopes {
      sm := scopes[it.scope];
    } else {
      AbsentScope(items, it.scope);
      sm := ScopeMetrics(it.scope, [], []);
      scopeOrder' := scopeOrder + [it.scope];
    }
    ghost var g := sm.metrics;
    assert g == Grouped(ms);
    var key := (it.scope, it.metric.name);
    if key in metricIdx {
      var k := metricIdx[key];
      var first := sm.metrics[k];
      GroupedSnoc(ms, it.metric, k);
      sm := sm.(metrics := sm.metrics[k := first.(data := Merged(first.data, it.metric.data))]);
    } else {
      GroupedSnoc(ms, it.metric, 0);
      metricIdx' := metricIdx[key := |sm.metrics|];
      sm := sm.(metrics := sm.metrics + [it.metric]);
    }
    scopes' := scopes[it.scope := sm];
    InScopeSnoc(items, it, it.scope);
    ScopesTracked(items, it, scopes, scopeOrder, sm);
    NamesTracked(items, it, metricIdx, |g|);
  }

  lemma OtherScopes<V, C>(items: seq<Item<V, C>>, it: Item<V, C>, s: Bytes)
    ensures InScope(items + [it], s) == if s == it.scope then InScope(items, s) + [it.metric] else InScope(items, s)
  {
    InScopeSnoc(items, it, s);
    assert InScope(items, s) + [] == InScope(items, s);
  }

  lemma ScopesTracked<V, C>(items: seq<Item<V, C>>, it: Item<V, C>, scopes: map<Bytes, ScopeMetrics<V, C>>,
                            scopeOrder: seq<Bytes>, sm: ScopeMetrics<V, C>)
    requires TracksScopes(items, scopes, scopeOrder) && sm == ScopeGroup(items + [it], it.scope)
    ensures TracksScopes(items + [it], scopes[it.scope := sm],
      if it.scope in scopes then scopeOrder else scopeOrder + [it.scope])
  {
    hide FirstSeen, Grouped, InScope;
    assert ScopesOf(items + [it]) == ScopesOf(items) + [it.scope];
    FirstSeenSnoc(ScopesOf(items), it.scope);
    forall s | s in scopes && s != it.scope
      ensures ScopeGroup(items + [it], s) == ScopeGroup(items, s)
    {
      OtherScopes(items, it, s);
    }
  }

  lemma NamesTracked<V, C>(items: seq<Item<V, C>>, it: Item<V, C>, metricIdx: map<(Bytes, Bytes), nat>, n: nat)
    requires TracksNames(items, metricIdx) && n == |Grouped(InScope(items, it.scope))|
    ensures var key := (it.scope, it.metric.name);
      TracksNames(items + [it], if key in metricIdx then metricIdx else metricIdx[key := n])
  {
    hide FirstSeen, Grouped, InScope, Merged;
    var key, ms, m := (it.scope, it.metric.name), InScope(items, it.scope), it.metric;
    GroupedSnoc(ms, m, if key in metricIdx then metricIdx[key] else 0);
    NamesSnoc(ms, m);
    var idx := if key in metricIdx then metricIdx else metricIdx[key := n];
    forall s, name
      ensures (s, name) in idx <==> name in NamesOf(InScope(items + [it], s))
      ensures (s, name) in idx ==> At(Grouped(InScope(items + [it], s)), idx[(s, name)], name)
    {
      OtherScopes(items, it, s);
      if s == it.scope && (s, name) in metricIdx {
        assert At(Grouped(ms), metricIdx[(s, name)], name);
      }
    }
  }

  lemma {:induction false} AbsentScope<V, C>(items: seq<Item<V, C>>, scope: Bytes)
    requires scope !in ScopesOf(items)
    ensures InScope(items, scope) == [] && Grouped(InScope(items, scope)) == []
  {
    if items != [] {
      var n := |items| - 1;
      assert ScopesOf(items) == ScopesOf(items[..n]) + [items[n].scope];
      AbsentScope(items[..n], scope);
    }
  }

  // ----- what assembling keeps -----

  /** The points that arrived for a metric, of one kind, in order of arrival. */
  function Arrived<V, C>(ms: seq<Metric<V, C>>, name: Bytes, kind: Kind): seq<Point<V, C>> {
    if ms == [] then []
    else
      var m := ms[|ms| - 1];
      Arrived(ms[..|ms| - 1], name, kind) + if m.name == name && KindOf(m.data) == kind then Points(m.data) else []
  }

  /** All points that arrived for a metric. */
  function AllArrived<V, C>(ms: seq<Metric<V, C>>, name: Bytes): seq<Point<V, C>> {
    if ms == [] then []
    else
      var m := ms[|ms| - 1];
      AllArrived(ms[..|ms| - 1], name) + if m.name == name then Points(m.data) else []
  }

  /** The first metric of a name. */
  function FirstOf<V, C>(ms: seq<Metric<V, C>>, name: Bytes): Metric<V, C>
    requires name in NamesOf(ms)
  {
    if ms[0].name == name then ms[0]
    else
      assert NamesOf(ms) == [ms[0].name] + NamesOf(ms[1..]);
      FirstOf(ms[1..], name)
  }

  lemma FirstOfSnoc<V, C>(ms: seq<Metric<V, C>>, m: Metric<V, C>, name: Bytes)
    requires name in NamesOf(ms) || m.name == name
    ensures name in NamesOf(ms + [m])
    ensures FirstOf(ms + [m], name) == if name in NamesOf(ms) then FirstOf(ms, name) else m
    decreases |ms|
  {
    NamesSnoc(ms, m);
    if ms != [] {
      assert NamesOf(ms) == [ms[0].name] + NamesOf(ms[1..]);
      if ms[0].name != name {
        assert (ms + [m])[1..] == ms[1..] + [m];
        FirstOfSnoc(ms[1..], m, name);
      }
    }
  }

  /** Of one kind, and sums of one temporality and monotonicity, histograms of one temporality. */
  predicate SameSort<V, C>(a: Data<V, C>, b: Data<V, C>) {
    && KindOf(a) == KindOf(b)
    && (a.Sum? ==> a.temporality == b.temporality && a.monotonic == b.monotonic)
    && (a.Histogram? ==> a.temporality == b.temporality)
  }

  lemma MergedSort<V, C>(dst: Data<V, C>, src: Data<V, C>)
    ensures SameSort(Merged(dst, src), dst)
  {
  }

  /** The merged metric describes itself as the first one did, with its temporality, and holds the
      points of all metrics of its name and kind, in order of arrival. */
  lemma {:induction false} MergedHolds<V, C>(ms: seq<Metric<V, C>>, name: Bytes)
    requires name in NamesOf(ms)
    ensures var first, m := FirstOf(ms, name), MergedAs(ms, name).value;
      && m.unit == first.unit && m.desc == first.desc && SameSort(m.data, first.data)
      && Points(m.data) == Arrived(ms, name, KindOf(first.data))
  {
    hide Merged, FirstOf, Points;
    var n := |ms| - 1;
    var init, last := ms[..n], ms[n];
    assert ms == init + [last];
    NamesSnoc(init, last);
    MergedSnoc(init, last, name);
    FirstOfSnoc(init, last, name);
    if name in NamesOf(init) {
      MergedHolds(init, name);
      MergedSort(MergedAs(init, name).value.data, last.data);
    } else {
      NoneArrived(init, name, KindOf(last.data));
    }
  }

  lemma {:induction false} NoneArrived<V, C>(ms: seq<Metric<V, C>>, name: Bytes, kind: Kind)
    requires name !in NamesOf(ms)
    ensures Arrived(ms, name, kind) == []
  {
    if ms != [] {
      var n := |ms| - 1;
      NamesSnoc(ms[..n], ms[n]);
      assert ms == ms[..n] + [ms[n]];
      NoneArrived(ms[..n], name, kind);
    }
  }

  /** Metrics of one name that carry points all have the same kind. */
  predicate OneKind<V, C>(ms: seq<Metric<V, C>>, name: Bytes, kind: Kind) {
    forall i :: 0 <= i < |ms| && ms[i].name == name ==> KindOf(ms[i].data) == kind || |Points(ms[i].data)| == 0
  }

  lemma {:induction false} ArrivedAll<V, C>(ms: seq<Metric<V, C>>, name: Bytes, kind: Kind)
    ensures |Arrived(ms, name, kind)| <= |AllArrived(ms, name)|
    ensures Arrived(ms, name, kind) == AllArrived(ms, name) <==> OneKind(ms, name, kind)
    ensures OneKind(ms, name, kind) || |Arrived(ms, name, kind)| < |AllArrived(ms, name)|
  {
    hide Points;
    if ms != [] {
      var n := |ms| - 1;
      ArrivedAll(ms[..n], name, kind);
      assert ms == ms[..n] + [ms[n]];
      assert forall i :: 0 <= i < n ==> ms[..n][i] == ms[i];
    }
  }

  /** Assembling conserves the points of a metric, each once and in order of arrival, exactly
      when the metrics of its name carry points of one kind; otherwise it loses some. */
  lemma Conserved<V, C>(items: seq<Item<V, C>>, scope: Bytes, name: Bytes)
    requires name in NamesOf(InScope(items, scope))
    ensures var ms := InScope(items, scope);
      Points(MergedAs(ms, name).value.data) == AllArrived(ms, name) <==>
      OneKind(ms, name, KindOf(FirstOf(ms, name).data))
  {
    var ms := InScope(items, scope);
    MergedHolds(ms, name);
    ArrivedAll(ms, name, KindOf(FirstOf(ms, name).data));
  }

  /** A request has an entry for exactly the scopes, and in it for exactly the metric names,
      that arrived, each once, in order of first arrival. */
  lemma AssembledOnce<V, C>(items: seq<Item<V, C>>, i: nat, j: nat)
    requires i < |Assembled(items)| && j < |Assembled(items)[i].metrics|
    ensures var all := Assembled(items);
      var ms := InScope(items, all[i].scope);
      && (forall k :: 0 <= k < |all| && k != i ==> all[k].scope != all[i].scope)
      && (forall k :: 0 <= k < |all[i].metrics| && k != j ==> all[i].metrics[k].name != all[i].metrics[j].name)
      && all[i].metrics[j].name in NamesOf(ms)
      && MergedAs(ms, all[i].metrics[j].name) == Some(all[i].metrics[j]) && all[i].version == []
  {
    var all := Assembled(items);
    var ms := InScope(items, all[i].scope);
    var g := Grouped(ms);
    assert all[i] == ScopeGroup(items, all[i].scope);
    assert forall k :: 0 <= k < |g| ==> g[k].name == NamesOf(g)[k];
    assert NamesOf(g)[j] in FirstSeen(NamesOf(ms));
  }

  lemma {:induction false} NothingMissing<V, C>(items: seq<Item<V, C>>, it: Item<V, C>)
    requires it in items
    ensures it.scope in ScopesOf(items) && it.metric in InScope(items, it.scope)
    ensures it.metric.name in NamesOf(InScope(items, it.scope))
  {
    var n := |items| - 1;
    assert items == items[..n] + [items[n]];
    assert ScopesOf(items) == ScopesOf(items[..n]) + [items[n].scope];
    InScopeSnoc(items[..n], items[n], it.scope);
    var before := InScope(items[..n], it.scope);
    NamesSnoc(before, items[n].metric);
    if it in items[..n] {
      NothingMissing(items[..n], it);
      assert it.metric in before && before <= InScope(items, it.scope);
      assert before + [] == before;
    } else {
      assert InScope(items, it.scope)[|before|] == it.metric;
    }
  }
}
