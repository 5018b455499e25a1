/** What a connection delivers, said of the metrics of the requests themselves. */
module StreamDelivery {
  import opened Words
  import opened Labels
  import opened Protocol
  import opened StreamFormat
  import opened StreamRoundTrip
  import opened StreamMirror
  import opened StreamRequest
  import opened StreamConnection
  import opened StreamHistograms

  // ----- points in a request -----

  /** A point with this time, value and attributes. */
  ghost predicate NumberIn(ps: seq<NumberPoint<U64>>, attrs: seq<Pair>, ts: I64, val: U64) {
    exists p :: p in ps && p.ts == ts && p.val == val && SortedPairs(p.attrs) == attrs
  }

  /** The metric has the name, unit, description, kind, temporality and monotonicity of the header,
      and a point with its attributes, of this time and value. */
  ghost predicate MetricHas(m: WireMetric, h: Header, ts: I64, val: U64) {
    && m.name == h.name && m.unit == h.unit && m.desc == h.desc
    && match m.data
       case Gauge(ps) => h.kind == GAUGE && h.temporality == 0 && !h.monotonic && NumberIn(ps, h.attrs, ts, val)
       case Sum(t, mono, ps) =>
         h.kind == SUM && h.temporality == t && h.monotonic == mono && NumberIn(ps, h.attrs, ts, val)
       case _ => false
  }

  ghost predicate ScopeHas(sm: WireScope, h: Header, ts: I64, val: U64) {
    sm.scope == h.scope && sm.version == h.version && exists m :: m in sm.metrics && MetricHas(m, h, ts, val)
  }

  /** A gauge or sum point of a request. */
  ghost predicate HasNumber(sms: seq<WireScope>, h: Header, ts: I64, val: U64) {
    exists sm :: sm in sms && ScopeHas(sm, h, ts, val)
  }

  /** The metric is of histograms, described as the header says, and has this one. */
  ghost predicate MetricHasHist(m: WireMetric, h: Header, p: Hist) {
    && m.name == h.name && m.unit == h.unit && m.desc == h.desc && h.kind == HISTOGRAM && !h.monotonic
    && m.data.Histogram? && m.data.temporality == h.temporality && p in m.data.hists && SortedPairs(p.attrs) == h.attrs
  }

  ghost predicate ScopeHasHist(sm: WireScope, h: Header, p: Hist) {
    sm.scope == h.scope && sm.version == h.version && exists m :: m in sm.metrics && MetricHasHist(m, h, p)
  }

  ghost predicate HasHist(sms: seq<WireScope>, h: Header, p: Hist) {
    exists sm :: sm in sms && ScopeHasHist(sm, h, p)
  }

  function HistAtom(h: Header, p: Hist): Atom {
    Atom(h, StreamPoint(p.ts, 0, Some(p)))
  }

  // ----- flattening forgets none -----

  lemma NumberAtom(sm: WireScope, m: WireMetric, h: Header, ts: I64, val: U64)
    ensures Atom(h, StreamPoint(ts, val, None)) in MetricAtoms(sm, m) <==>
            sm.scope == h.scope && sm.version == h.version && MetricHas(m, h, ts, val)
  {
    hide SortedPairs;
    var a, atoms := Atom(h, StreamPoint(ts, val, None)), MetricAtoms(sm, m);
    if a in atoms {
      var i :| 0 <= i < |atoms| && atoms[i] == a;
      assert m.data.points[i] in m.data.points;
    }
    if sm.scope == h.scope && sm.version == h.version && MetricHas(m, h, ts, val) {
      var ps := m.data.points;
      var p :| p in ps && p.ts == ts && p.val == val && SortedPairs(p.attrs) == h.attrs;
      var i :| 0 <= i < |ps| && ps[i] == p;
      assert atoms[i] == a;
    }
  }

  lemma HistAtomIn(sm: WireScope, m: WireMetric, h: Header, p: Hist)
    ensures HistAtom(h, p) in MetricAtoms(sm, m) <==>
            sm.scope == h.scope && sm.version == h.version && MetricHasHist(m, h, p)
  {
    hide SortedPairs;
    var a, atoms := HistAtom(h, p), MetricAtoms(sm, m);
    if a in atoms {
      var i :| 0 <= i < |atoms| && atoms[i] == a;
      assert m.data.hists[i] in m.data.hists;
    }
    if sm.scope == h.scope && sm.version == h.version && MetricHasHist(m, h, p) {
      var i :| 0 <= i < |m.data.hists| && m.data.hists[i] == p;
      assert atoms[i] == a;
    }
  }

  lemma {:induction false} InMetrics(sm: WireScope, ms: seq<WireMetric>, a: Atom)
    ensures a in MetricsAtoms(sm, ms) <==> exists m :: m in ms && a in MetricAtoms(sm, m)
  {
    hide MetricAtoms;
    if ms != [] {
      InMetrics(sm, ms[..|ms| - 1], a);
      assert ms == ms[..|ms| - 1] + [ms[|ms| - 1]];
    }
  }

  lemma {:induction false} InScopes(sms: seq<WireScope>, a: Atom)
    ensures a in ScopesAtoms(sms) <==> exists sm :: sm in sms && a in MetricsAtoms(sm, sm.metrics)
  {
    hide MetricsAtoms;
    if sms != [] {
      InScopes(sms[..|sms| - 1], a);
      assert sms == sms[..|sms| - 1] + [sms[|sms| - 1]];
    }
  }

  lemma ScopeNumber(sm: WireScope, h: Header, ts: I64, val: U64)
    ensures Atom(h, StreamPoint(ts, val, None)) in MetricsAtoms(sm, sm.metrics) <==> ScopeHas(sm, h, ts, val)
  {
    hide MetricAtoms, MetricHas, MetricsAtoms;
    InMetrics(sm, sm.metrics, Atom(h, StreamPoint(ts, val, None)));
    forall m | m in sm.metrics
      ensures Atom(h, StreamPoint(ts, val, None)) in MetricAtoms(sm, m) <==>
              sm.scope == h.scope && sm.version == h.version && MetricHas(m, h, ts, val)
    {
      NumberAtom(sm, m, h, ts, val);
    }
  }

  lemma ScopeHist(sm: WireScope, h: Header, p: Hist)
    ensures HistAtom(h, p) in MetricsAtoms(sm, sm.metrics) <==> ScopeHasHist(sm, h, p)
  {
    hide MetricAtoms, MetricHasHist, MetricsAtoms, HistAtom;
    InMetrics(sm, sm.metrics, HistAtom(h, p));
    forall m | m in sm.metrics
      ensures HistAtom(h, p) in MetricAtoms(sm, m) <==>
              sm.scope == h.scope && sm.version == h.version && MetricHasHist(m, h, p)
    {
      HistAtomIn(sm, m, h, p);
    }
  }

  /** The points that flattening gives a header are exactly those of the request, of either kind. */
  lemma FlattensNumber(sms: seq<WireScope>, h: Header, ts: I64, val: U64)
    ensures StreamPoint(ts, val, None) in PointsOf(sms, h) <==> HasNumber(sms, h, ts, val)
  {
    hide MetricsAtoms, ScopeHas, ScopesAtoms, Select;
    var a := Atom(h, StreamPoint(ts, val, None));
    SelectIn(ScopesAtoms(sms), h, a.point);
    InScopes(sms, a);
    forall sm | sm in sms
      ensures a in MetricsAtoms(sm, sm.metrics) <==> ScopeHas(sm, h, ts, val)
    {
      ScopeNumber(sm, h, ts, val);
    }
  }

  lemma FlattensHist(sms: seq<WireScope>, h: Header, p: Hist)
    ensures HistAtom(h, p).point in PointsOf(sms, h) <==> HasHist(sms, h, p)
  {
    hide MetricsAtoms, ScopeHasHist, ScopesAtoms, Select;
    var a := HistAtom(h, p);
    SelectIn(ScopesAtoms(sms), h, a.point);
    InScopes(sms, a);
    forall sm | sm in sms
      ensures a in MetricsAtoms(sm, sm.metrics) <==> ScopeHasHist(sm, h, p)
    {
      ScopeHist(sm, h, p);
    }
  }

  lemma {:induction false} SelectIn(atoms: seq<Atom>, h: Header, p: StreamPoint)
    ensures p in Select(atoms, h) <==> Atom(h, p) in atoms
  {
    if atoms != [] {
      var n := |atoms| - 1;
      SelectIn(atoms[..n], h, p);
      assert atoms == atoms[..n] + [atoms[n]];
      assert atoms[n].hdr == h ==> atoms[n] == Atom(h, atoms[n].point);
    }
  }

  // ----- what arrives -----

  /** The gauges and sums of the two are the same points of the same metrics. */
  ghost predicate SameNumbers(req: WireRequest, got: WireRequest) {
    forall h: Header, ts: I64, val: U64 :: h.kind != HISTOGRAM ==>
      (HasNumber(req.scopes, h, ts, val) <==> HasNumber(got.scopes, h, ts, val))
  }

  lemma NumbersArrive(e: Streams, req: WireRequest, got: WireRequest)
    requires AllValid(e) && Delivers(e, req, got)
    ensures SameNumbers(req, got)
  {
    hide HasNumber, PointsOf, CarriedFrame;
    forall h: Header, ts: I64, val: U64 | h.kind != HISTOGRAM
      ensures HasNumber(req.scopes, h, ts, val) <==> HasNumber(got.scopes, h, ts, val)
    {
      FlattensNumber(req.scopes, h, ts, val);
      FlattensNumber(got.scopes, h, ts, val);
    }
  }

  /** Every histogram of the request is in the other one, under the same scope and metric, with its
      time, count, sum and buckets, and with the bounds that are kept for its series. */
  ghost predicate HistsCarried(req: WireRequest, got: WireRequest, bounds: Schema) {
    forall h: Header, p: Hist :: HasHist(req.scopes, h, p) ==> HistCarried(got, h, p, bounds)
  }

  ghost predicate HistCarried(got: WireRequest, h: Header, p: Hist, bounds: Schema) {
    exists p': Hist ::
      && HasHist(got.scopes, DeliveredHeader(CarriedHeader(h)), p')
      && p'.ts == p.ts && p'.count == p.count && p'.sum == p.sum && p'.buckets == p.buckets
      && p'.bounds == bounds(h.Key())
  }

  /** A flattened point is in a series of its header. */
  lemma {:induction false} InSeries(ss: seq<Series>, h: Header, p: StreamPoint)
    requires p in Select(Unrolled(ss), h)
    ensures exists s :: s in ss && s.hdr == h && p in s.points
  {
    hide Select, SeriesAtoms;
    if ss == [] {
      NothingSelected(h);
    } else {
      SelectConcat(SeriesAtoms(ss[0].hdr, ss[0].points), Unrolled(ss[1..]), h);
      SelectSeries(ss[0].hdr, ss[0].points, h);
      if p in Select(Unrolled(ss[1..]), h) {
        InSeries(ss[1..], h, p);
        var s :| s in ss[1..] && s.hdr == h && p in s.points;
        assert s in ss;
      } else {
        assert ss[0] in ss;
      }
    }
  }

  lemma {:induction false} InSent(ss: seq<Series>, s: Series, p: StreamPoint, bounds: Schema)
    requires s in ss && p in s.points && s.hdr.kind == HISTOGRAM
    ensures MeasureOf(p).(bounds := bounds(s.hdr.Key()))
      in SentWith(ss, DeliveredHeader(CarriedHeader(s.hdr)), bounds)
  {
    hide Header.Key, MeasureOf;
    if ss[0] == s {
      var i :| 0 <= i < |s.points| && s.points[i] == p;
      assert MeasuresWith(s.points, bounds(s.hdr.Key()))[i] == MeasureOf(p).(bounds := bounds(s.hdr.Key()));
    } else {
      InSent(ss[1..], s, p, bounds);
    }
  }

  /** Every measure under a histogram header is one of a histogram of the request. */
  lemma MeasureIn(sms: seq<WireScope>, q: Header, m: Measure)
    requires q.kind == HISTOGRAM && m in Measures(PointsOf(sms, q))
    ensures exists p: Hist ::
      && HasHist(sms, q, p)
      && p.ts == m.ts && p.count == m.count && p.sum == m.sum && p.buckets == m.buckets && p.bounds == m.bounds
  {
    hide PointsOf, HasHist, ScopesAtoms;
    var ps := PointsOf(sms, q);
    var i :| 0 <= i < |ps| && Measures(ps)[i] == m;
    HistShaped(sms, q, ps[i]);
    FlattensHist(sms, q, ps[i].hist.value);
  }

  lemma HistShaped(sms: seq<WireScope>, q: Header, p: StreamPoint)
    requires q.kind == HISTOGRAM && p in PointsOf(sms, q)
    ensures p.hist.Some? && p == HistAtom(q, p.hist.value).point
  {
    hide ScopesAtoms, Select, Canonical;
    SelectIn(ScopesAtoms(sms), q, p);
    FlatScopes(sms);
    assert Flat(Atom(q, p));
  }

  lemma HistsArriveRaw(req: WireRequest, got: WireRequest, bounds: Schema)
    requires RequestOk(req) && HistogramsArrive(req, got, bounds)
    ensures HistsCarried(req, got, bounds)
  {
    hide HasHist, PointsOf, RequestFits, Consistent, Flatten, PushAll, SentWith, Measures, Header.Key, HistCarried;
    hide CarriedHeader, DeliveredHeader, ScopesAtoms, Unrolled, Select;
    forall h: Header, p: Hist | HasHist(req.scopes, h, p)
      ensures HistCarried(got, h, p, bounds)
    {
      OneHistArrives(req, got, bounds, h, p);
    }
  }

  lemma OneHistArrives(req: WireRequest, got: WireRequest, bounds: Schema, h: Header, p: Hist)
    requires RequestOk(req) && HistogramsArrive(req, got, bounds) && HasHist(req.scopes, h, p)
    ensures HistCarried(got, h, p, bounds)
  {
    hide HasHist, PointsOf, RequestFits, Consistent, Flatten, SentWith, Measures, Header.Key, Select, ScopesAtoms;
    hide CarriedHeader, DeliveredHeader, Unrolled;
    var q, point, m := DeliveredHeader(CarriedHeader(h)), HistAtom(h, p).point, MeasureOf(HistAtom(h, p).point);
    HistKind(req.scopes, h, p);
    FlattensHist(req.scopes, h, p);
    FlattenedHas(req, h, point);
    var s :| s in Flatten(req) && s.hdr == h && point in s.points;
    InSent(Flatten(req), s, point, bounds);
    DeliveredKind(h);
    MeasureIn(got.scopes, q, m.(bounds := bounds(h.Key())));
  }

  lemma HistKind(sms: seq<WireScope>, h: Header, p: Hist)
    requires HasHist(sms, h, p)
    ensures h.kind == HISTOGRAM
  {
  }

  lemma DeliveredKind(h: Header)
    ensures DeliveredHeader(CarriedHeader(h)).kind == h.kind
  {
  }

  lemma FlattenedHas(req: WireRequest, h: Header, p: StreamPoint)
    requires Consistent(Headers(ScopesAtoms(req.scopes))) && p in PointsOf(req.scopes, h)
    ensures exists s :: s in Flatten(req) && s.hdr == h && p in s.points
  {
    hide Consistent, PushAll, Select, ScopesAtoms, Unrolled;
    var atoms := ScopesAtoms(req.scopes);
    forall i | 0 <= i < |atoms|
      ensures atoms[i].hdr in Headers(atoms)
    {
      assert Headers(atoms)[i] == atoms[i].hdr;
    }
    FlattenSelects(atoms, Headers(atoms), h);
    InSeries(Flatten(req), h, p);
  }

  // ----- whole connections -----

  lemma {:induction false} AllNumbersArrive(e: Streams, reqs: seq<WireRequest>, got: seq<Result<WireRequest>>)
    requires AllValid(e) && |got| == |reqs| && AllDelivered(e, reqs, got)
    ensures forall i :: 0 <= i < |reqs| ==>
      && got[i].Ok? && got[i].value.agentId == reqs[i].agentId && got[i].value.attrs == reqs[i].attrs
      && got[i].value.exportTime == reqs[i].exportTime && SameNumbers(reqs[i], got[i].value)
    decreases |reqs|
  {
    hide SameNumbers, PointsOf, CarriedFrame, AfterFrame;
    if reqs != [] {
      NumbersArrive(e, reqs[0], got[0].value);
      AllNumbersArrive(AfterFrame(e, reqs[0]), reqs[1..], got[1..]);
      assert forall i :: 1 <= i < |reqs| ==> reqs[i] == reqs[1..][i - 1] && got[i] == got[1..][i - 1];
    }
  }

  lemma {:induction false} CarriableOk(x: Sender, reqs: seq<WireRequest>, i: nat)
    requires AllValid(x.states) && Carriable(x, reqs) && i < |reqs|
    ensures RequestOk(reqs[i])
    decreases i
  {
    hide RequestOk, RequestShared, SentRequest;
    if i > 0 {
      CarriableOk(SentRequest(x, reqs[0]), reqs[1..], i - 1);
    }
  }

  /** A whole connection, in terms of the requests themselves: each arrives with its agent,
      attributes and time, with exactly its gauge and sum points under exactly the same scopes and
      metrics, and with all its histograms. */
  lemma EverythingArrives(reqs: seq<WireRequest>)
    requires Carriable(NEW_SENDER, reqs)
    ensures var got := DecodeAll(map[], EncodeAll(map[], reqs)).1;
      forall i :: 0 <= i < |reqs| ==>
        && got[i].Ok? && got[i].value.agentId == reqs[i].agentId && got[i].value.attrs == reqs[i].attrs
        && got[i].value.exportTime == reqs[i].exportTime
        && SameNumbers(reqs[i], got[i].value) && HistsCarried(reqs[i], got[i].value, KeptBounds(reqs))
  {
    hide SameNumbers, HistsCarried, HistogramsArrive, AllDelivered, DecodeAll, EncodeAll, Carriable, KeptBounds;
    hide RequestOk, KeySet, Mirror;
    var got := DecodeAll(map[], EncodeAll(map[], reqs)).1;
    ConnectionRoundTrip(reqs);
    AllNumbersArrive(map[], reqs, got);
    ConnectionHistograms(reqs);
    forall i | 0 <= i < |reqs|
      ensures HistsCarried(reqs[i], got[i].value, KeptBounds(reqs))
    {
      CarriableOk(NEW_SENDER, reqs, i);
      HistsArriveRaw(reqs[i], got[i].value, KeptBounds(reqs));
    }
  }
}
