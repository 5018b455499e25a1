/** What a request means to its reader: for every series header, the list of its points.
    Flattening keeps it, and the decoder's rebuilding of the three layers keeps it. */
module StreamRequest {
  import opened Words
  import opened Dictionary
  import opened Labels
  import opened Protocol
  import opened StreamFormat
  import opened StreamRoundTrip
  import opened StreamMirror

  /** The points of exactly one header, in order. */
  function Select(atoms: seq<Atom>, h: Header): seq<StreamPoint> {
    if atoms == [] then []
    else
      var a := atoms[|atoms| - 1];
      Select(atoms[..|atoms| - 1], h) + (if a.hdr == h then [a.point] else [])
  }

  /** The points a request holds for a header. */
  function PointsOf(scopes: seq<WireScope>, h: Header): seq<StreamPoint> {
    Select(ScopesAtoms(scopes), h)
  }

  lemma {:induction false} SelectConcat(xs: seq<Atom>, ys: seq<Atom>, h: Header)
    ensures Select(xs + ys, h) == Select(xs, h) + Select(ys, h)
  {
    if ys == [] {
      assert xs + ys == xs;
      assert Select(xs, h) + [] == Select(xs, h);
    } else {
      var n := |ys| - 1;
      assert (xs + ys)[..|xs| + n] == xs + ys[..n];
      SelectConcat(xs, ys[..n], h);
      ConcatAssoc(Select(xs, h), Select(ys[..n], h), if ys[n].hdr == h then [ys[n].point] else []);
    }
  }

  /** The points of one series under one header. */
  function SeriesAtoms(h: Header, ps: seq<StreamPoint>): (r: seq<Atom>)
    ensures |r| == |ps|
  {
    seq(|ps|, i requires 0 <= i < |ps| => Atom(h, ps[i]))
  }

  lemma {:induction false} SelectSeries(h: Header, ps: seq<StreamPoint>, q: Header)
    ensures Select(SeriesAtoms(h, ps), q) == if h == q then ps else []
  {
    if ps != [] {
      var n := |ps| - 1;
      SelectSeries(h, ps[..n], q);
      assert SeriesAtoms(h, ps)[..n] == SeriesAtoms(h, ps[..n]);
      assert ps == ps[..n] + [ps[n]];
    }
  }

  function Unrolled(ss: seq<Series>): seq<Atom> {
    if ss == [] then [] else SeriesAtoms(ss[0].hdr, ss[0].points) + Unrolled(ss[1..])
  }

  // ----- flattening -----

  /** The same metric: equal in everything but the attributes of the series. */
  predicate SameMetric(g: Header, h: Header) {
    g.(attrs := []) == h.(attrs := [])
  }

  /** One kind, unit and description per metric of a scope, one version per scope, and labels
      free of the bytes that separate them in a key. */
  ghost predicate Consistent(hs: seq<Header>) {
    && (forall h :: h in hs ==> Clean(h.scope, h.name, h.attrs))
    && (forall g, h :: g in hs && h in hs && g.scope == h.scope ==> g.version == h.version)
    && (forall g, h :: g in hs && h in hs && g.scope == h.scope && g.name == h.name ==> SameMetric(g, h))
  }

  function Headers(atoms: seq<Atom>): (hs: seq<Header>)
    ensures |hs| == |atoms|
  {
    seq(|atoms|, i requires 0 <= i < |atoms| => atoms[i].hdr)
  }

  lemma SameKeySameHeader(hs: seq<Header>, g: Header, h: Header)
    requires Consistent(hs) && g in hs && h in hs && g.Key() == h.Key()
    ensures g == h
  {
    SeriesKeyInjective(g.scope, g.name, g.attrs, h.scope, h.name, h.attrs);
    assert SameMetric(g, h);
    assert g == g.(attrs := []).(attrs := g.attrs) && h == h.(attrs := []).(attrs := h.attrs);
  }

  /** Distinct series have distinct headers, all of them among `hs`. */
  ghost predicate FromHeaders(ss: seq<Series>, hs: seq<Header>) {
    && (forall i :: 0 <= i < |ss| ==> ss[i].hdr in hs)
    && (forall i, j :: 0 <= i < j < |ss| ==> ss[i].hdr != ss[j].hdr)
  }

  /** Selecting one header selects its series, if there is one. */
  lemma {:induction false} SelectOne(ss: seq<Series>, hs: seq<Header>, i: nat)
    requires FromHeaders(ss, hs) && i < |ss|
    ensures Select(Unrolled(ss), ss[i].hdr) == ss[i].points
  {
    var q, found := ss[i].hdr, ss[i].points;
    SelectConcat(SeriesAtoms(ss[0].hdr, ss[0].points), Unrolled(ss[1..]), q);
    SelectSeries(ss[0].hdr, ss[0].points, q);
    if i > 0 {
      SelectOne(ss[1..], hs, i - 1);
      assert [] + found == found;
    } else {
      SelectNone(ss[1..], q);
      assert found + [] == found;
    }
  }

  lemma {:induction false} SelectNone(ss: seq<Series>, q: Header)
    requires forall i :: 0 <= i < |ss| ==> ss[i].hdr != q
    ensures Select(Unrolled(ss), q) == []
  {
    if ss != [] {
      SelectConcat(SeriesAtoms(ss[0].hdr, ss[0].points), Unrolled(ss[1..]), q);
      SelectSeries(ss[0].hdr, ss[0].points, q);
      SelectNone(ss[1..], q);
    }
  }

  /** Pushing a point adds it to the points of its header and to no others. */
  lemma PushSelects(out: seq<Series>, hs: seq<Header>, a: Atom, q: Header)
    requires Consistent(hs) && FromHeaders(out, hs) && a.hdr in hs
    ensures FromHeaders(Pushed(out, a), hs)
    ensures Select(Unrolled(Pushed(out, a)), q)
      == Select(Unrolled(out), q) + (if a.hdr == q then [a.point] else [])
  {
    hide SeriesKey, Consistent, Select, Unrolled, Clean;
    var out', key := Pushed(out, a), a.hdr.Key();
    if key in Keys(out) {
      SameKeySameHeader(hs, out[IndexOf(Keys(out), key)].hdr, a.hdr);
    } else {
      forall i | 0 <= i < |out|
        ensures out[i].hdr != a.hdr
      {
        assert Keys(out)[i] == out[i].hdr.Key();
      }
    }
    SelectAt(out', hs, q);
    SelectAt(out, hs, q);
    if i :| 0 <= i < |out| && out[i].hdr == q {
      assert out'[i].hdr == q;
      assert out[i].points + [] == out[i].points;
    } else if a.hdr == q {
      assert out'[|out|].hdr == q;
      assert [] + [a.point] == [a.point];
    } else {
      assert forall i :: 0 <= i < |out'| ==> out'[i].hdr != q;
    }
  }

  lemma SelectAt(ss: seq<Series>, hs: seq<Header>, q: Header)
    requires FromHeaders(ss, hs)
    ensures (forall i :: 0 <= i < |ss| ==> ss[i].hdr != q) ==> Select(Unrolled(ss), q) == []
    ensures forall i :: 0 <= i < |ss| && ss[i].hdr == q ==> Select(Unrolled(ss), q) == ss[i].points
  {
    if i :| 0 <= i < |ss| && ss[i].hdr == q {
      SelectOne(ss, hs, i);
    } else {
      SelectNone(ss, q);
    }
  }

  /** Flattening keeps, for every header, its points and their order. */
  lemma {:induction false} FlattenSelects(atoms: seq<Atom>, hs: seq<Header>, q: Header)
    requires Consistent(hs) && forall i :: 0 <= i < |atoms| ==> atoms[i].hdr in hs
    ensures FromHeaders(PushAll(atoms), hs)
    ensures Select(Unrolled(PushAll(atoms)), q) == Select(atoms, q)
  {
    hide Pushed, Unrolled, Consistent;
    if atoms != [] {
      var n := |atoms| - 1;
      FlattenSelects(atoms[..n], hs, q);
      PushSelects(PushAll(atoms[..n]), hs, atoms[n], q);
    } else {
      assert Unrolled([]) == [] by {
        NothingUnrolled();
      }
    }
  }

  lemma NothingUnrolled()
    ensures Unrolled([]) == []
  {
  }

  // ----- rebuilding -----

  /** The header under which the rebuilt request holds a decoded series: the points of a
      histogram come back without their attributes. */
  function DeliveredHeader(h: Header): Header {
    if h.kind == HISTOGRAM then h.(attrs := []) else h
  }

  predicate Canonical(ps: seq<Pair>) {
    SortedPairs(AttrMap(ps)) == ps
  }

  /** A series as a decoder produces it. */
  predicate Decoded(s: Series) {
    && s.hdr.kind <= HISTOGRAM && Canonical(s.hdr.attrs) && 0 !in s.hdr.scope
    && (s.hdr.kind != SUM ==> s.hdr.temporality == 0 && !s.hdr.monotonic)
    && (forall p :: p in s.points ==>
          if s.hdr.kind == HISTOGRAM then IsHistPoint(p) && p.hist.value.attrs == map[] else p.hist.None?)
  }

  ghost predicate AllDecoded(cs: seq<Series>) {
    && (forall s :: s in cs ==> Decoded(s))
    && (forall s, t :: s in cs && t in cs && s.hdr.scope == t.hdr.scope ==> s.hdr.version == t.hdr.version)
    && (forall s, t :: s in cs && t in cs && s.hdr.scope == t.hdr.scope && s.hdr.name == t.hdr.name ==>
          SameMetric(s.hdr, t.hdr))
  }

  predicate DataMatches(data: WireData, h: Header) {
    if h.kind == HISTOGRAM then data.Histogram? && data.temporality == h.temporality
    else if h.kind == SUM then data.Sum? && data.temporality == h.temporality && data.monotonic == h.monotonic
    else data.Gauge?
  }

  predicate MetricMatches(m: WireMetric, h: Header) {
    m.unit == h.unit && m.desc == h.desc && DataMatches(m.data, h)
  }

  predicate InRange(bd: Build, i: nat, j: nat) {
    i < |bd.scopes| && j < |bd.scopes[i].metrics|
  }

  ghost predicate ScopesIndexed(bd: Build)
    requires bd.Valid()
  {
    && (forall i :: 0 <= i < |bd.scopes| ==>
          0 !in bd.scopes[i].scope && bd.scopes[i].scope in bd.scopeIdx && bd.scopeIdx[bd.scopes[i].scope] == i)
    && (forall k :: k in bd.scopeIdx ==> bd.scopes[bd.scopeIdx[k]].scope == k)
  }

  ghost predicate MetricsIndexed(bd: Build)
    requires bd.Valid()
  {
    && (forall i: nat, j: nat :: InRange(bd, i, j) ==> Indexes(bd, i, j))
    && (forall k :: k in bd.metricIdx ==>
          var (i, j) := bd.metricIdx[k];
          k == MetricKey(bd.scopes[i].scope, bd.scopes[i].metrics[j].name))
  }

  /** The index finds metric `(i, j)` by its key. */
  predicate Indexes(bd: Build, i: nat, j: nat)
    requires InRange(bd, i, j)
  {
    var k := MetricKey(bd.scopes[i].scope, bd.scopes[i].metrics[j].name);
    k in bd.metricIdx && bd.metricIdx[k] == (i, j)
  }

  ghost predicate Matches(bd: Build, cs: seq<Series>) {
    && (forall i, s :: 0 <= i < |bd.scopes| && s in cs && s.hdr.scope == bd.scopes[i].scope ==>
          s.hdr.version == bd.scopes[i].version)
    && (forall i: nat, j: nat, s :: InRange(bd, i, j) && s in cs && Located(bd, s.hdr, i, j) ==>
          MetricMatches(bd.scopes[i].metrics[j], s.hdr))
  }

  /** The build is indexed by its maps, and fits every series of `cs`. */
  ghost predicate BuildOk(bd: Build, cs: seq<Series>) {
    bd.Valid() && ScopesIndexed(bd) && MetricsIndexed(bd) && Matches(bd, cs)
  }

  /** The metric `(i, j)` is the one a header belongs to. */
  predicate Located(bd: Build, h: Header, i: nat, j: nat)
    requires InRange(bd, i, j)
  {
    bd.scopes[i].scope == h.scope && bd.scopes[i].metrics[j].name == h.name
  }

  lemma LocatedUnique(bd: Build, cs: seq<Series>, h: Header, i: nat, j: nat, i': nat, j': nat)
    requires BuildOk(bd, cs) && InRange(bd, i, j) && InRange(bd, i', j')
    requires Located(bd, h, i, j) && Located(bd, h, i', j')
    ensures i == i' && j == j'
  {
  }

  lemma OtherMetric(sm: WireScope, m: WireMetric, q: Header)
    requires sm.scope != q.scope || m.name != q.name
    ensures Select(MetricAtoms(sm, m), q) == []
  {
    NoneSelected(MetricAtoms(sm, m), q);
  }

  lemma {:induction false} NoneSelected(atoms: seq<Atom>, q: Header)
    requires forall i :: 0 <= i < |atoms| ==> atoms[i].hdr != q
    ensures Select(atoms, q) == []
  {
    if atoms != [] {
      NoneSelected(atoms[..|atoms| - 1], q);
    }
  }

  lemma {:induction false} MetricsNone(sm: WireScope, ms: seq<WireMetric>, q: Header)
    requires sm.scope != q.scope || forall j :: 0 <= j < |ms| ==> ms[j].name != q.name
    ensures Select(MetricsAtoms(sm, ms), q) == []
  {
    if ms != [] {
      var n := |ms| - 1;
      MetricsNone(sm, ms[..n], q);
      OtherMetric(sm, ms[n], q);
      SelectConcat(MetricsAtoms(sm, ms[..n]), MetricAtoms(sm, ms[n]), q);
    }
  }

  lemma {:induction false} MetricsOne(sm: WireScope, ms: seq<WireMetric>, q: Header, j: nat)
    requires j < |ms| && forall k :: 0 <= k < |ms| && k != j ==> ms[k].name != q.name
    ensures Select(MetricsAtoms(sm, ms), q) == Select(MetricAtoms(sm, ms[j]), q)
  {
    hide MetricAtoms, Select;
    var n := |ms| - 1;
    SelectConcat(MetricsAtoms(sm, ms[..n]), MetricAtoms(sm, ms[n]), q);
    var found := Select(MetricAtoms(sm, ms[j]), q);
    if j == n {
      MetricsNone(sm, ms[..n], q);
      assert [] + found == found;
    } else {
      MetricsOne(sm, ms[..n], q, j);
      OtherMetric(sm, ms[n], q);
      assert found + [] == found;
    }
  }

  predicate NoMetric(sm: WireScope, name: Bytes) {
    forall j :: 0 <= j < |sm.metrics| ==> sm.metrics[j].name != name
  }

  lemma {:induction false} ScopesNone(sms: seq<WireScope>, q: Header)
    requires forall i :: 0 <= i < |sms| && sms[i].scope == q.scope ==> NoMetric(sms[i], q.name)
    ensures PointsOf(sms, q) == []
  {
    if sms != [] {
      var n := |sms| - 1;
      ScopesNone(sms[..n], q);
      MetricsNone(sms[n], sms[n].metrics, q);
      SelectConcat(ScopesAtoms(sms[..n]), MetricsAtoms(sms[n], sms[n].metrics), q);
    }
  }

  lemma {:induction false} ScopesOne(sms: seq<WireScope>, q: Header, i: nat, j: nat)
    requires i < |sms| && j < |sms[i].metrics|
    requires forall k :: 0 <= k < |sms| && k != i ==> sms[k].scope != q.scope
    requires forall k :: 0 <= k < |sms[i].metrics| && k != j ==> sms[i].metrics[k].name != q.name
    ensures PointsOf(sms, q) == Select(MetricAtoms(sms[i], sms[i].metrics[j]), q)
  {
    hide MetricAtoms, MetricsAtoms, Select;
    var n := |sms| - 1;
    SelectConcat(ScopesAtoms(sms[..n]), MetricsAtoms(sms[n], sms[n].metrics), q);
    var found := Select(MetricAtoms(sms[i], sms[i].metrics[j]), q);
    if i == n {
      ScopesNone(sms[..n], q);
      MetricsOne(sms[n], sms[n].metrics, q, j);
      assert [] + found == found;
    } else {
      ScopesOne(sms[..n], q, i, j);
      MetricsNone(sms[n], sms[n].metrics, q);
      assert found + [] == found;
    }
  }

  /** A well-indexed build holds the points of a header in one metric only. */
  lemma BuildPoints(bd: Build, cs: seq<Series>, q: Header)
    requires BuildOk(bd, cs)
    ensures (forall i: nat, j: nat :: InRange(bd, i, j) ==> !Located(bd, q, i, j)) ==> PointsOf(bd.scopes, q) == []
    ensures forall i: nat, j: nat :: InRange(bd, i, j) && Located(bd, q, i, j) ==>
      PointsOf(bd.scopes, q) == Select(MetricAtoms(bd.scopes[i], bd.scopes[i].metrics[j]), q)
  {
    hide PointsOf, MetricAtoms, MetricKey;
    if i: nat, j: nat :| InRange(bd, i, j) && Located(bd, q, i, j) {
      forall k | 0 <= k < |bd.scopes[i].metrics| && k != j
        ensures bd.scopes[i].metrics[k].name != q.name
      {
        assert InRange(bd, i, k);
      }
      ScopesOne(bd.scopes, q, i, j);
      forall i': nat, j': nat | InRange(bd, i', j') && Located(bd, q, i', j')
        ensures i == i' && j == j'
      {
        LocatedUnique(bd, cs, q, i, j, i', j');
      }
    } else {
      forall i | 0 <= i < |bd.scopes| && bd.scopes[i].scope == q.scope
        ensures NoMetric(bd.scopes[i], q.name)
      {
        forall j | 0 <= j < |bd.scopes[i].metrics|
          ensures bd.scopes[i].metrics[j].name != q.name
        {
          assert InRange(bd, i, j);
        }
      }
      ScopesNone(bd.scopes, q);
    }
  }

  lemma MetricKeyInjective(s: Bytes, n: Bytes, s': Bytes, n': Bytes)
    requires 0 !in s && 0 !in s' && MetricKey(s, n) == MetricKey(s', n')
    ensures s == s' && n == n'
  {
    SplitUnique(0, s, n, s', n');
  }

  /** The metric a header's key leads to is the one it belongs to. */
  lemma KeyLocates(bd: Build, cs: seq<Series>, h: Header)
    requires BuildOk(bd, cs) && 0 !in h.scope
    ensures MetricKey(h.scope, h.name) in bd.metricIdx ==>
      var (i, j) := bd.metricIdx[MetricKey(h.scope, h.name)]; Located(bd, h, i, j)
    ensures MetricKey(h.scope, h.name) !in bd.metricIdx ==>
      forall i: nat, j: nat :: InRange(bd, i, j) ==> !Located(bd, h, i, j)
  {
    hide MetricKey;
    var k := MetricKey(h.scope, h.name);
    if k in bd.metricIdx {
      var (i, j) := bd.metricIdx[k];
      MetricKeyInjective(h.scope, h.name, bd.scopes[i].scope, bd.scopes[i].metrics[j].name);
    }
  }

  lemma PointsAccepted(data: WireData, h: Header, ps: seq<StreamPoint>)
    requires DataMatches(data, h)
    ensures WithPoints(data, h, ps).Ok? && DataMatches(WithPoints(data, h, ps).value, h)
  {
  }

  /** After the scope exists. */
  lemma ScopeAdded(bd: Build, cs: seq<Series>, h: Header)
    requires BuildOk(bd, cs) && AllDecoded(cs) && 0 !in h.scope
    requires forall s :: s in cs && s.hdr.scope == h.scope ==> s.hdr.version == h.version
    ensures BuildOk(WithScope(bd, h), cs)
  {
    hide MetricKey, Decoded, SameMetric;
    var r := WithScope(bd, h);
    assert forall i: nat, j: nat :: InRange(r, i, j) ==> Indexes(bd, i, j);
    assert forall i: nat, j: nat :: InRange(r, i, j) ==> InRange(bd, i, j) && r.scopes[i] == bd.scopes[i];
  }

  lemma MetricAdded(bd: Build, cs: seq<Series>, h: Header)
    requires BuildOk(bd, cs) && 0 !in h.scope && h.scope in bd.scopeIdx
    requires forall s :: s in cs && s.hdr.scope == h.scope && s.hdr.name == h.name ==> SameMetric(s.hdr, h)
    ensures BuildOk(WithMetric(bd, h), cs)
  {
    hide MetricKey, MetricsIndexed, Matches, SameMetric;
    KeyLocates(bd, cs, h);
    var r := WithMetric(bd, h);
    if MetricKey(h.scope, h.name) !in bd.metricIdx {
      NewMetricOnly(bd, h);
      NewMetricIndexed(bd, h);
      NewMetricMatches(bd, cs, h);
      assert ScopesIndexed(r);
    }
  }

  /** A new metric leaves every other one in its place. */
  lemma NewMetricOnly(bd: Build, h: Header)
    requires bd.Valid() && h.scope in bd.scopeIdx && MetricKey(h.scope, h.name) !in bd.metricIdx
    ensures var r, i := WithMetric(bd, h), bd.scopeIdx[h.scope];
      var j := |bd.scopes[i].metrics|;
      && InRange(r, i, j) && r.scopes[i].metrics[j] == NewMetric(h)
      && (forall a: nat, b: nat :: InRange(r, a, b) && (a, b) != (i, j) ==>
            InRange(bd, a, b) && r.scopes[a].metrics[b] == bd.scopes[a].metrics[b])
      && |r.scopes| == |bd.scopes|
      && (forall a: nat :: a < |r.scopes| ==>
            r.scopes[a].scope == bd.scopes[a].scope && r.scopes[a].version == bd.scopes[a].version)
  {
    hide MetricKey, NewMetric;
  }

  lemma NewMetricIndexed(bd: Build, h: Header)
    requires bd.Valid() && ScopesIndexed(bd) && MetricsIndexed(bd) && 0 !in h.scope && h.scope in bd.scopeIdx
    requires MetricKey(h.scope, h.name) !in bd.metricIdx
    ensures MetricsIndexed(WithMetric(bd, h))
  {
    hide MetricKey;
    NewMetricOnly(bd, h);
    var r, i := WithMetric(bd, h), bd.scopeIdx[h.scope];
    var j := |bd.scopes[i].metrics|;
    forall a: nat, b: nat | InRange(r, a, b)
      ensures Indexes(r, a, b)
    {
      if (a, b) != (i, j) {
        assert Indexes(bd, a, b);
      }
    }
  }

  lemma NewMetricMatches(bd: Build, cs: seq<Series>, h: Header)
    requires BuildOk(bd, cs) && h.scope in bd.scopeIdx && MetricKey(h.scope, h.name) !in bd.metricIdx
    requires forall s :: s in cs && s.hdr.scope == h.scope && s.hdr.name == h.name ==> SameMetric(s.hdr, h)
    ensures Matches(WithMetric(bd, h), cs)
  {
    hide MetricKey, MetricsIndexed;
    NewMetricOnly(bd, h);
    var r, i := WithMetric(bd, h), bd.scopeIdx[h.scope];
    var j := |bd.scopes[i].metrics|;
    forall a: nat, b: nat, s | InRange(r, a, b) && s in cs && Located(r, s.hdr, a, b)
      ensures MetricMatches(r.scopes[a].metrics[b], s.hdr)
    {
      if (a, b) == (i, j) {
        assert SameMetric(s.hdr, h);
      } else {
        assert Located(bd, s.hdr, a, b);
      }
    }
  }

  lemma ScopeAddsNothing(bd: Build, h: Header, q: Header)
    requires bd.Valid()
    ensures PointsOf(WithScope(bd, h).scopes, q) == PointsOf(bd.scopes, q)
  {
    if h.scope !in bd.scopeIdx {
      var sm: WireScope := ScopeMetrics(h.scope, h.version, []);
      assert (bd.scopes + [sm])[..|bd.scopes|] == bd.scopes;
      assert ScopesAtoms(bd.scopes) + [] == ScopesAtoms(bd.scopes);
    }
  }

  lemma AtomsOfScope(sm: WireScope, sm': WireScope, m: WireMetric)
    requires sm.scope == sm'.scope && sm.version == sm'.version
    ensures MetricAtoms(sm, m) == MetricAtoms(sm', m)
  {
  }

  lemma MetricAddsNothing(bd: Build, cs: seq<Series>, h: Header, q: Header)
    requires BuildOk(bd, cs) && 0 !in h.scope && h.scope in bd.scopeIdx
    requires forall s :: s in cs && s.hdr.scope == h.scope && s.hdr.name == h.name ==> SameMetric(s.hdr, h)
    ensures PointsOf(WithMetric(bd, h).scopes, q) == PointsOf(bd.scopes, q)
  {
    hide MetricKey, MetricsIndexed, Matches, ScopesIndexed, SameMetric, PointsOf, MetricAtoms, Select;
    if MetricKey(h.scope, h.name) !in bd.metricIdx {
      MetricAdded(bd, cs, h);
      NewMetricOnly(bd, h);
      var r, i := WithMetric(bd, h), bd.scopeIdx[h.scope];
      var j := |bd.scopes[i].metrics|;
      BuildPoints(bd, cs, q);
      BuildPoints(r, cs, q);
      if a: nat, b: nat :| InRange(r, a, b) && Located(r, q, a, b) {
        if (a, b) == (i, j) {
          NoPoints(r.scopes[i], h, q);
          forall k: nat, l: nat | InRange(bd, k, l)
            ensures !Located(bd, q, k, l)
          {
            if Located(bd, q, k, l) {
              assert InRange(r, k, l) && r.scopes[k].metrics[l] == bd.scopes[k].metrics[l];
              LocatedUnique(r, cs, q, i, j, k, l);
            }
          }
        } else {
          assert Located(bd, q, a, b);
          AtomsOfScope(r.scopes[a], bd.scopes[a], bd.scopes[a].metrics[b]);
        }
      } else {
        forall k: nat, l: nat | InRange(bd, k, l)
          ensures !Located(bd, q, k, l)
        {
          assert InRange(r, k, l) && !Located(r, q, k, l);
        }
      }
    }
  }

  lemma NoPoints(sm: WireScope, h: Header, q: Header)
    ensures Select(MetricAtoms(sm, NewMetric(h)), q) == []
  {
  }

  /** The points a metric gains are those of the series, under its delivered header. */
  lemma GainedAtoms(sm: WireScope, m: WireMetric, s: Series)
    requires Decoded(s) && MetricMatches(m, s.hdr)
    requires sm.scope == s.hdr.scope && sm.version == s.hdr.version && m.name == s.hdr.name
    ensures var data := WithPoints(m.data, s.hdr, s.points);
      data.Ok? && MetricAtoms(sm, m.(data := data.value))
        == MetricAtoms(sm, m) + SeriesAtoms(DeliveredHeader(s.hdr), s.points)
  {
    hide SortedPairs, AttrMap;
    var h, ps := s.hdr, s.points;
    PointsAccepted(m.data, h, ps);
    var m' := m.(data := WithPoints(m.data, h, ps).value);
    if h.kind == HISTOGRAM {
      NoPairs();
      forall i | 0 <= i < |ps|
        ensures MetricAtoms(sm, m')[|m.data.hists| + i] == SeriesAtoms(DeliveredHeader(h), ps)[i]
      {
        assert ps[i] in ps;
      }
    } else {
      forall i | 0 <= i < |ps|
        ensures MetricAtoms(sm, m')[|m.data.points| + i] == SeriesAtoms(DeliveredHeader(h), ps)[i]
      {
        assert ps[i] in ps;
      }
    }
  }

  lemma NoPairs()
    ensures SortedPairs(map[]) == []
  {
  }

  /** Adding a decoded series adds its points under its header, and changes no other. */
  lemma SeriesAdded(bd: Build, cs: seq<Series>, s: Series, q: Header)
    requires BuildOk(bd, cs) && AllDecoded(cs) && s in cs
    ensures var r := AddSeries(bd, s.hdr, s.points);
      && r.Ok? && BuildOk(r.value, cs)
      && PointsOf(r.value.scopes, q) == PointsOf(bd.scopes, q)
           + (if DeliveredHeader(s.hdr) == q then s.points else [])
  {
    hide MetricKey, MetricsIndexed, ScopesIndexed, Matches, SameMetric, PointsOf, MetricAtoms, Select, Decoded;
    hide BuildOk, WithMetric, WithScope, WithPoints;
    var h := s.hdr;
    BuildOkValid(bd, cs);
    DecodedScope(s);
    var bd1 := WithMetric(WithScope(bd, h), h);
    ScopeAdded(bd, cs, h);
    ScopeAddsNothing(bd, h, q);
    MetricAdded(WithScope(bd, h), cs, h);
    MetricAddsNothing(WithScope(bd, h), cs, h, q);
    KeyLocates(bd1, cs, h);
    var (i, j) := bd1.metricIdx[MetricKey(h.scope, h.name)];
    SeriesMatches(bd1, cs, s, i, j);
    GainedAtoms(bd1.scopes[i], bd1.scopes[i].metrics[j], s);
    PointsAccepted(bd1.scopes[i].metrics[j].data, h, s.points);
    var r := AddSeries(bd, h, s.points).value;
    var data := WithPoints(bd1.scopes[i].metrics[j].data, h, s.points).value;
    assert OnlyData(bd1, r, i, j, data);
    DataKeepsBuild(bd1, r, cs, s, i, j, data);
    DataAddsPoints(bd1, r, cs, s, i, j, data, q);
  }

  lemma BuildOkValid(bd: Build, cs: seq<Series>)
    requires BuildOk(bd, cs)
    ensures bd.Valid()
  {
  }

  lemma DecodedScope(s: Series)
    requires Decoded(s)
    ensures 0 !in s.hdr.scope
  {
  }

  lemma SeriesMatches(bd: Build, cs: seq<Series>, s: Series, i: nat, j: nat)
    requires BuildOk(bd, cs) && s in cs && InRange(bd, i, j) && Located(bd, s.hdr, i, j)
    ensures MetricMatches(bd.scopes[i].metrics[j], s.hdr) && bd.scopes[i].version == s.hdr.version
  {
  }

  /** `r` is `bd` with other data in metric `(i, j)`. */
  ghost predicate OnlyData(bd: Build, r: Build, i: nat, j: nat, data: WireData) {
    && InRange(bd, i, j) && InRange(r, i, j)
    && r.scopeIdx == bd.scopeIdx && r.metricIdx == bd.metricIdx && |r.scopes| == |bd.scopes|
    && r.scopes[i].metrics[j] == bd.scopes[i].metrics[j].(data := data)
    && (forall a: nat :: a < |r.scopes| ==>
          && r.scopes[a].scope == bd.scopes[a].scope && r.scopes[a].version == bd.scopes[a].version
          && |r.scopes[a].metrics| == |bd.scopes[a].metrics|)
    && (forall a: nat, b: nat :: InRange(r, a, b) && (a, b) != (i, j) ==>
          r.scopes[a].metrics[b] == bd.scopes[a].metrics[b])
  }

  lemma DataKeepsBuild(bd: Build, r: Build, cs: seq<Series>, s: Series, i: nat, j: nat, data: WireData)
    requires BuildOk(bd, cs) && s in cs && OnlyData(bd, r, i, j, data) && Located(bd, s.hdr, i, j)
    requires WithPoints(bd.scopes[i].metrics[j].data, s.hdr, s.points) == Ok(data)
    requires r.Valid()
    ensures BuildOk(r, cs)
  {
    hide MetricKey, WithPoints;
    assert MetricsIndexed(r) by {
      forall a: nat, b: nat | InRange(r, a, b)
        ensures Indexes(r, a, b)
      {
        assert Indexes(bd, a, b);
      }
    }
    forall a: nat, b: nat, t | InRange(r, a, b) && t in cs && Located(r, t.hdr, a, b)
      ensures MetricMatches(r.scopes[a].metrics[b], t.hdr)
    {
      assert Located(bd, t.hdr, a, b);
      assert MetricMatches(bd.scopes[a].metrics[b], t.hdr);
      if (a, b) == (i, j) {
        KeepsKind(bd.scopes[i].metrics[j].data, s, t.hdr);
      }
    }
  }

  lemma KeepsKind(data: WireData, s: Series, h: Header)
    requires WithPoints(data, s.hdr, s.points).Ok? && DataMatches(data, h)
    ensures DataMatches(WithPoints(data, s.hdr, s.points).value, h)
  {
  }

  lemma DataAddsPoints(bd: Build, r: Build, cs: seq<Series>, s: Series, i: nat, j: nat, data: WireData, q: Header)
    requires BuildOk(bd, cs) && BuildOk(r, cs) && OnlyData(bd, r, i, j, data) && Located(bd, s.hdr, i, j)
    requires MetricAtoms(bd.scopes[i], bd.scopes[i].metrics[j].(data := data))
      == MetricAtoms(bd.scopes[i], bd.scopes[i].metrics[j]) + SeriesAtoms(DeliveredHeader(s.hdr), s.points)
    ensures PointsOf(r.scopes, q) == PointsOf(bd.scopes, q)
      + (if DeliveredHeader(s.hdr) == q then s.points else [])
  {
    hide BuildOk, PointsOf, MetricAtoms, Select, SeriesAtoms;
    BuildPoints(bd, cs, q);
    BuildPoints(r, cs, q);
    var gained := SeriesAtoms(DeliveredHeader(s.hdr), s.points);
    if a: nat, b: nat :| InRange(r, a, b) && Located(r, q, a, b) {
      assert InRange(bd, a, b) && Located(bd, q, a, b);
      AtomsOfScope(r.scopes[a], bd.scopes[a], r.scopes[a].metrics[b]);
      if (a, b) == (i, j) {
        SelectConcat(MetricAtoms(bd.scopes[i], bd.scopes[i].metrics[j]), gained, q);
        SelectSeries(DeliveredHeader(s.hdr), s.points, q);
      } else {
        if DeliveredHeader(s.hdr) == q {
          assert Located(bd, q, i, j);
          LocatedUnique(bd, cs, q, i, j, a, b);
        }
        assert PointsOf(bd.scopes, q) + [] == PointsOf(bd.scopes, q);
      }
    } else {
      assert !Located(r, q, i, j);
      forall k: nat, l: nat | InRange(bd, k, l)
        ensures !Located(bd, q, k, l)
      {
        assert InRange(r, k, l) && !Located(r, q, k, l);
      }
    }
  }

  /** Rebuilding a list of decoded series succeeds, and the request holds for every header
      exactly the points delivered under it, in order. */
  lemma {:induction false} Rebuilds(bd: Build, all: seq<Series>, cs: seq<Series>, q: Header)
    requires BuildOk(bd, all) && AllDecoded(all) && forall s :: s in cs ==> s in all
    ensures var r := BuildAll(bd, cs);
      && r.Ok?
      && PointsOf(r.value.scopes, q) == PointsOf(bd.scopes, q) + Select(DeliveredFrom(cs), q)
    decreases |cs|
  {
    hide MetricsIndexed, ScopesIndexed, Matches, AllDecoded, PointsOf, Select, AddSeries, SeriesAtoms, DeliveredHeader;
    if cs == [] {
      NothingSelected(q);
      assert PointsOf(bd.scopes, q) + [] == PointsOf(bd.scopes, q);
    } else {
      var s := cs[0];
      SeriesAdded(bd, all, s, q);
      var bd' := AddSeries(bd, s.hdr, s.points).value;
      Rebuilds(bd', all, cs[1..], q);
      var first := SeriesAtoms(DeliveredHeader(s.hdr), s.points);
      SelectConcat(first, DeliveredFrom(cs[1..]), q);
      SelectSeries(DeliveredHeader(s.hdr), s.points, q);
      ConcatAssoc(PointsOf(bd.scopes, q), Select(first, q), Select(DeliveredFrom(cs[1..]), q));
    }
  }

  lemma NothingSelected(q: Header)
    ensures Select([], q) == []
  {
  }

  /** The delivered points of decoded series, first series first. */
  function DeliveredFrom(cs: seq<Series>): seq<Atom> {
    if cs == [] then [] else SeriesAtoms(DeliveredHeader(cs[0].hdr), cs[0].points) + DeliveredFrom(cs[1..])
  }
}
