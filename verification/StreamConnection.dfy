/** Whole connections: any sequence of requests, encoded in order by one encoder and decoded
    in order by a fresh decoder. */
module StreamConnection {
  import opened Words
  import opened Gorilla
  import opened Dictionary
  import opened Labels
  import opened Protocol
  import opened StreamFormat
  import opened StreamRoundTrip
  import opened StreamMirror
  import opened StreamRequest

  // ----- what a request must satisfy -----

  /** A data point as flattening produces it. */
  predicate Flat(a: Atom) {
    && a.hdr.kind <= HISTOGRAM && Canonical(a.hdr.attrs)
    && (if a.hdr.kind == HISTOGRAM then IsHistPoint(a.point) else a.point.hist.None?)
    && (a.hdr.kind != SUM ==> !a.hdr.monotonic)
    && (a.hdr.kind == GAUGE ==> a.hdr.temporality == 0)
  }

  lemma CanonicalSorted(m: Attrs)
    ensures Canonical(SortedPairs(m))
  {
    SortedPairsRoundTrip(m);
  }

  lemma FlatMetric(sm: WireScope, m: WireMetric)
    ensures forall a :: a in MetricAtoms(sm, m) ==> Flat(a)
  {
    hide SortedPairs, AttrMap;
    forall i | 0 <= i < |MetricAtoms(sm, m)|
      ensures Flat(MetricAtoms(sm, m)[i])
    {
      match m.data
      case NoData =>
      case Gauge(ps) => CanonicalSorted(ps[i].attrs);
      case Sum(_, _, ps) => CanonicalSorted(ps[i].attrs);
      case Histogram(_, hs) => CanonicalSorted(hs[i].attrs);
    }
  }

  lemma {:induction false} FlatMetrics(sm: WireScope, ms: seq<WireMetric>)
    ensures forall a :: a in MetricsAtoms(sm, ms) ==> Flat(a)
  {
    if ms != [] {
      FlatMetrics(sm, ms[..|ms| - 1]);
      FlatMetric(sm, ms[|ms| - 1]);
    }
  }

  lemma {:induction false} FlatScopes(sms: seq<WireScope>)
    ensures forall a :: a in ScopesAtoms(sms) ==> Flat(a)
  {
    if sms != [] {
      FlatScopes(sms[..|sms| - 1]);
      FlatMetrics(sms[|sms| - 1], sms[|sms| - 1].metrics);
    }
  }

  /** A flattened series: every point of the kind of its header. */
  predicate FlatSeries(s: Series) {
    forall p :: p in s.points ==> Flat(Atom(s.hdr, p))
  }

  lemma {:induction false} PushedFlat(atoms: seq<Atom>, hs: seq<Header>)
    requires Consistent(hs) && forall i :: 0 <= i < |atoms| ==> atoms[i].hdr in hs && Flat(atoms[i])
    ensures FromHeaders(PushAll(atoms), hs)
    ensures forall s :: s in PushAll(atoms) ==> FlatSeries(s)
  {
    hide Flat, Consistent, Header.Key;
    if atoms != [] {
      var n := |atoms| - 1;
      var out, a := PushAll(atoms[..n]), atoms[n];
      PushedFlat(atoms[..n], hs);
      PushSelects(out, hs, a, a.hdr);
      var key := a.hdr.Key();
      if key in Keys(out) {
        var i := IndexOf(Keys(out), key);
        SameKeySameHeader(hs, out[i].hdr, a.hdr);
        assert a == Atom(out[i].hdr, a.point);
        assert FlatSeries(out[i]);
      } else {
        assert a == Atom(a.hdr, a.point);
      }
    }
  }

  /** Labels that keep their keys apart, one kind of metric per name in the request, and sizes
      within the decoder's limits. */
  ghost predicate RequestOk(req: WireRequest) {
    && Consistent(Headers(ScopesAtoms(req.scopes)))
    && RequestFits(req)
  }

  lemma FlattenedOk(req: WireRequest)
    requires Consistent(Headers(ScopesAtoms(req.scopes)))
    ensures FromHeaders(Flatten(req), Headers(ScopesAtoms(req.scopes)))
    ensures forall s :: s in Flatten(req) ==> FlatSeries(s)
  {
    var atoms := ScopesAtoms(req.scopes);
    FlatScopes(req.scopes);
    forall i | 0 <= i < |atoms|
      ensures atoms[i].hdr in Headers(atoms)
    {
      assert Headers(atoms)[i] == atoms[i].hdr;
    }
    PushedFlat(atoms, Headers(atoms));
  }

  // ----- what the decoder gets is decodable -----

  lemma {:induction false} CarriedHistsShape(st: State, ps: seq<StreamPoint>)
    ensures |CarriedHists(st, ps)| == |ps|
    ensures forall p :: p in CarriedHists(st, ps) ==> IsHistPoint(p) && p.hist.value.attrs == map[]
    decreases |ps|
  {
    if ps != [] {
      CarriedHistsShape(HistState(st, ps[0]), ps[1..]);
    }
  }

  /** Points of the kind that their header gives. */
  ghost predicate OfKind(c: Series) {
    if c.hdr.kind == HISTOGRAM then forall p :: p in c.points ==> IsHistPoint(p) && p.hist.value.attrs == map[]
    else forall p :: p in c.points ==> p.hist.None?
  }

  lemma CarriedKind(e: Streams, s: Series)
    ensures Carried(e, s).hdr == CarriedHeader(s.hdr) && OfKind(Carried(e, s))
  {
    hide StartState, CarriedHists, IsHistPoint;
    CarriedHistsShape(StartState(e, s), s.points);
  }

  lemma {:induction false} CarriedShape(e: Streams, ss: seq<Series>)
    requires AllValid(e) && forall s :: s in ss ==> s.points != []
    ensures |CarriedList(e, ss)| == |ss|
    ensures forall i :: 0 <= i < |ss| ==>
      CarriedList(e, ss)[i].hdr == CarriedHeader(ss[i].hdr) && OfKind(CarriedList(e, ss)[i])
    decreases |ss|
  {
    hide AfterSeries, Carried, OfKind, CarriedHeader;
    if ss != [] {
      CarriedShape(AfterSeries(e, ss[0]), ss[1..]);
      CarriedKind(e, ss[0]);
    }
  }

  lemma CarriedSame(g: Header, h: Header)
    requires SameMetric(g, h)
    ensures SameMetric(CarriedHeader(g), CarriedHeader(h))
  {
  }

  lemma CarriedDecoded(e: Streams, req: WireRequest)
    requires AllValid(e) && RequestOk(req)
    ensures AllDecoded(CarriedFrame(e, req))
  {
    hide CarriedList, OfKind, SameMetric, Clean, Canonical, Flatten, ScopesAtoms, CarriedHeader;
    hide SeriesFits, FrameTable, IsHistPoint;
    var ss, cs := Flatten(req), CarriedFrame(e, req);
    var hs := Headers(ScopesAtoms(req.scopes));
    FlattenedOk(req);
    FlattenNonempty(req);
    CarriedShape(e, ss);
    forall i | 0 <= i < |cs|
      ensures Decoded(cs[i])
    {
      assert ss[i] in ss && ss[i].hdr in hs && cs[i] in cs;
      OneDecoded(req, ss[i], cs[i]);
    }
    forall s, t | s in cs && t in cs && s.hdr.scope == t.hdr.scope
      ensures s.hdr.version == t.hdr.version
      ensures s.hdr.name == t.hdr.name ==> SameMetric(s.hdr, t.hdr)
    {
      var i :| 0 <= i < |cs| && cs[i] == s;
      var j :| 0 <= j < |cs| && cs[j] == t;
      CarriedNames(ss[i].hdr);
      CarriedNames(ss[j].hdr);
      assert ss[i].hdr in hs && ss[j].hdr in hs;
      if s.hdr.name == t.hdr.name {
        CarriedSame(ss[i].hdr, ss[j].hdr);
      }
    }
  }

  lemma CarriedNames(h: Header)
    ensures var c := CarriedHeader(h);
      c.scope == h.scope && c.version == h.version && c.name == h.name && c.kind == h.kind && c.attrs == h.attrs
    ensures h.kind != SUM ==> CarriedHeader(h).temporality == 0 && !CarriedHeader(h).monotonic
  {
  }

  lemma OneDecoded(req: WireRequest, s: Series, c: Series)
    requires RequestOk(req) && s in Flatten(req) && s.hdr in Headers(ScopesAtoms(req.scopes))
    requires FlatSeries(s) && c.hdr == CarriedHeader(s.hdr)
    requires OfKind(c)
    ensures Decoded(c)
  {
    hide CarriedHeader, Canonical, Flatten, ScopesAtoms, FrameTable, IsHistPoint, SameMetric;
    CarriedNames(s.hdr);
    FlattenNonempty(req);
    assert Flat(Atom(s.hdr, s.points[0])) by {
      assert s.points[0] in s.points;
    }
  }

  // ----- number series come back exactly -----

  lemma {:induction false} NumbersDelivered(e: Streams, ss: seq<Series>, q: Header)
    requires AllValid(e) && forall s :: s in ss ==> s.points != [] && FlatSeries(s)
    requires q.kind != HISTOGRAM
    ensures Select(DeliveredFrom(CarriedList(e, ss)), q) == Select(Unrolled(ss), q)
    decreases |ss|
  {
    hide AfterSeries, StartState, CarriedHists, Select, SeriesAtoms, Flat;
    if ss != [] {
      var s, c := ss[0], Carried(e, ss[0]);
      CarriedFirst(e, ss);
      var rest, more := CarriedList(AfterSeries(e, s), ss[1..]), Unrolled(ss[1..]);
      NumbersDelivered(AfterSeries(e, s), ss[1..], q);
      SelectConcat(SeriesAtoms(DeliveredHeader(c.hdr), c.points), DeliveredFrom(rest), q);
      SelectConcat(SeriesAtoms(s.hdr, s.points), more, q);
      SelectSeries(DeliveredHeader(c.hdr), c.points, q);
      SelectSeries(s.hdr, s.points, q);
      NumberExact(e, s);
    }
  }

  /** A number series arrives as it was sent. */
  lemma NumberExact(e: Streams, s: Series)
    requires s.points != [] && FlatSeries(s)
    ensures s.hdr.kind != HISTOGRAM ==> Carried(e, s) == s
    ensures s.hdr.kind == HISTOGRAM ==> DeliveredHeader(Carried(e, s).hdr).kind == HISTOGRAM
  {
    hide Canonical, CarriedHists;
    forall i | 0 <= i < |s.points|
      ensures Flat(Atom(s.hdr, s.points[i]))
    {
      assert s.points[i] in s.points;
    }
    assert Flat(Atom(s.hdr, s.points[0]));
  }

  /** What the decoder hands over for a request encoded from state `e`. */
  ghost predicate Delivers(e: Streams, req: WireRequest, got: WireRequest)
    requires AllValid(e)
  {
    && got.agentId == req.agentId && got.attrs == req.attrs && got.exportTime == req.exportTime
    // gauge and sum series: the same points under the same headers, in the same order
    && (forall h: Header :: h.kind != HISTOGRAM ==> PointsOf(got.scopes, h) == PointsOf(req.scopes, h))
    // and, for every header, the points the format carries
    && (forall h: Header :: PointsOf(got.scopes, h) == Select(DeliveredFrom(CarriedFrame(e, req)), h))
  }

  lemma EmptyBuildOk(cs: seq<Series>)
    ensures BuildOk(EMPTY_BUILD, cs)
    ensures forall h: Header :: PointsOf(EMPTY_BUILD.scopes, h) == []
  {
  }

  lemma BuildDelivers(e: Streams, req: WireRequest)
    requires AllValid(e) && RequestOk(req)
    ensures BuildAll(EMPTY_BUILD, CarriedFrame(e, req)).Ok?
    ensures Delivers(e, req, Request(req.agentId, req.attrs, req.exportTime,
                                     BuildAll(EMPTY_BUILD, CarriedFrame(e, req)).value.scopes))
  {
    hide CarriedFrame, AllDecoded, PointsOf, BuildAll, Flatten, Consistent, RequestFits, Select, FlatSeries;
    var cs := CarriedFrame(e, req);
    CarriedDecoded(e, req);
    EmptyBuildOk(cs);
    forall h: Header
      ensures BuildAll(EMPTY_BUILD, cs).Ok?
      ensures PointsOf(BuildAll(EMPTY_BUILD, cs).value.scopes, h) == Select(DeliveredFrom(cs), h)
      ensures h.kind != HISTOGRAM ==> Select(DeliveredFrom(cs), h) == PointsOf(req.scopes, h)
    {
      Rebuilds(EMPTY_BUILD, cs, cs, h);
      assert [] + Select(DeliveredFrom(cs), h) == Select(DeliveredFrom(cs), h);
      if h.kind != HISTOGRAM {
        CarriedNumbers(e, req, h);
      }
    }
    Rebuilds(EMPTY_BUILD, cs, cs, Header([], [], [], [], [], 0, 0, false, []));
  }

  lemma CarriedNumbers(e: Streams, req: WireRequest, h: Header)
    requires AllValid(e) && Consistent(Headers(ScopesAtoms(req.scopes))) && h.kind != HISTOGRAM
    ensures Select(DeliveredFrom(CarriedFrame(e, req)), h) == PointsOf(req.scopes, h)
  {
    hide Consistent, Select, FlatSeries, CarriedList, PushAll;
    var atoms := ScopesAtoms(req.scopes);
    FlattenedOk(req);
    FlattenNonempty(req);
    NumbersDelivered(e, Flatten(req), h);
    forall i | 0 <= i < |atoms|
      ensures atoms[i].hdr in Headers(atoms)
    {
      assert Headers(atoms)[i] == atoms[i].hdr;
    }
    FlattenSelects(atoms, Headers(atoms), h);
  }

  // ----- connections -----

  function EncodeAll(e: Streams, reqs: seq<WireRequest>): (frames: seq<Bytes>)
    requires AllValid(e)
    ensures |frames| == |reqs|
    decreases |reqs|
  {
    if reqs == [] then [] else [FrameBytes(e, reqs[0])] + EncodeAll(AfterFrame(e, reqs[0]), reqs[1..])
  }

  function AfterAll(e: Streams, reqs: seq<WireRequest>): (e': Streams)
    requires AllValid(e)
    ensures AllValid(e')
    decreases |reqs|
  {
    if reqs == [] then e else AfterAll(AfterFrame(e, reqs[0]), reqs[1..])
  }

  ghost function DecodeAll(d: Streams, frames: seq<Bytes>): (r: (Streams, seq<Result<WireRequest>>))
    requires AllValid(d)
    ensures AllValid(r.0) && |r.1| == |frames|
    decreases |frames|
  {
    if frames == [] then (d, [])
    else
      var (d1, first) := DecodeFrame(d, frames[0]);
      var (d2, rest) := DecodeAll(d1, frames[1..]);
      (d2, [first] + rest)
  }

  /** Request by request, what `e` sends is delivered. */
  ghost predicate AllDelivered(e: Streams, reqs: seq<WireRequest>, got: seq<Result<WireRequest>>)
    requires AllValid(e) && |got| == |reqs|
    decreases |reqs|
  {
    reqs == [] ||
    (got[0].Ok? && Delivers(e, reqs[0], got[0].value)
      && AllDelivered(AfterFrame(e, reqs[0]), reqs[1..], got[1..]))
  }

  lemma FrameDelivered(x: Sender, d: Streams, req: WireRequest)
    requires Mirror(x, d) && RequestOk(req) && RequestShared(x, req)
    ensures var (d', r) := DecodeFrame(d, FrameBytes(x.states, req));
      && r.Ok? && Delivers(x.states, req, r.value) && Mirror(SentRequest(x, req), d')
      && d'.Keys == d.Keys + KeySet(Flatten(req))
  {
    hide Delivers, FrameBytes, DecodeFrame, AfterFrame, Consistent, RequestFits, RequestShared, CarriedFrame;
    hide BuildAll, SentRequest, KeySet, Flatten;
    MirrorValid(x, d);
    BuildDelivers(x.states, req);
    FrameRoundTrip(x, d, req);
  }

  function SentAll(x: Sender, reqs: seq<WireRequest>): (x': Sender)
    requires AllValid(x.states)
    ensures x'.states == AfterAll(x.states, reqs)
    decreases |reqs|
  {
    if reqs == [] then x else SentAll(SentRequest(x, reqs[0]), reqs[1..])
  }

  /** Requests that can be carried one after the other. */
  ghost predicate Carriable(x: Sender, reqs: seq<WireRequest>)
    requires AllValid(x.states)
    decreases |reqs|
  {
    reqs == [] ||
    (RequestOk(reqs[0]) && RequestShared(x, reqs[0]) && Carriable(SentRequest(x, reqs[0]), reqs[1..]))
  }

  /** All series of a sequence of requests, in the order in which they are sent. */
  function AllSeries(reqs: seq<WireRequest>): (r: seq<Series>)
    ensures forall s :: s in r ==> s.points != []
  {
    if reqs == [] then []
    else
      FlattenNonempty(reqs[0]);
      Flatten(reqs[0]) + AllSeries(reqs[1..])
  }

  lemma {:induction false} AfterListConcat(e: Streams, xs: seq<Series>, ys: seq<Series>)
    requires AllValid(e) && (forall s :: s in xs ==> s.points != []) && forall s :: s in ys ==> s.points != []
    ensures AfterList(e, xs + ys) == AfterList(AfterList(e, xs), ys)
    decreases |xs|
  {
    hide AfterSeries;
    if xs == [] {
      assert xs + ys == ys;
    } else {
      assert (xs + ys)[1..] == xs[1..] + ys;
      AfterListConcat(AfterSeries(e, xs[0]), xs[1..], ys);
    }
  }

  /** Everything that was sent on a connection, one list of series. */
  lemma {:induction false} AfterAllSeries(e: Streams, reqs: seq<WireRequest>)
    requires AllValid(e)
    ensures AfterAll(e, reqs) == AfterList(e, AllSeries(reqs))
    decreases |reqs|
  {
    hide Flatten, AfterSeries;
    if reqs != [] {
      FlattenNonempty(reqs[0]);
      AfterAllSeries(AfterFrame(e, reqs[0]), reqs[1..]);
      AfterListConcat(e, Flatten(reqs[0]), AllSeries(reqs[1..]));
    }
  }

  lemma KeySetConcat(xs: seq<Series>, ys: seq<Series>)
    ensures KeySet(xs + ys) == KeySet(xs) + KeySet(ys)
  {
    hide Header.Key;
    assert forall s :: s in xs + ys <==> s in xs || s in ys;
  }

  /** Decoded from state `d`, what `x` sends is delivered; the states mirror each other after
      it, and the decoder has a state for every key that it has seen. */
  ghost predicate Arrives(x: Sender, d: Streams, reqs: seq<WireRequest>)
    requires AllValid(x.states) && AllValid(d)
  {
    var (d', got) := DecodeAll(d, EncodeAll(x.states, reqs));
    && AllDelivered(x.states, reqs, got) && Mirror(SentAll(x, reqs), d')
    && d'.Keys == d.Keys + KeySet(AllSeries(reqs))
  }

  /** From mirrored states, every sequence of requests arrives. */
  lemma {:induction false} RunDelivered(x: Sender, d: Streams, reqs: seq<WireRequest>)
    requires Mirror(x, d) && AllValid(x.states) && AllValid(d) && Carriable(x, reqs)
    ensures Arrives(x, d, reqs)
    decreases |reqs|
  {
    hide KeySet, Flatten, Delivers, FrameBytes, DecodeFrame, AfterFrame, RequestOk, RequestShared, Mirror;
    hide SentRequest, Arrives;
    if reqs == [] {
      NothingDecoded(x, d);
    } else {
      var x', d1 := SentRequest(x, reqs[0]), DecodeFrame(d, FrameBytes(x.states, reqs[0])).0;
      FrameDelivered(x, d, reqs[0]);
      MirrorValid(x', d1);
      RunDelivered(x', d1, reqs[1..]);
      ArrivesFirst(x, d, reqs);
    }
  }

  lemma NothingDecoded(x: Sender, d: Streams)
    requires Mirror(x, d) && AllValid(x.states) && AllValid(d)
    ensures Arrives(x, d, [])
  {
    hide Header.Key, Mirror;
  }

  /** One frame and the rest of the connection. */
  lemma ArrivesFirst(x: Sender, d: Streams, reqs: seq<WireRequest>)
    requires AllValid(x.states) && AllValid(d) && reqs != []
    requires var (d1, first) := DecodeFrame(d, FrameBytes(x.states, reqs[0]));
      && first.Ok? && Delivers(x.states, reqs[0], first.value) && d1.Keys == d.Keys + KeySet(Flatten(reqs[0]))
      && Arrives(SentRequest(x, reqs[0]), d1, reqs[1..])
    ensures Arrives(x, d, reqs)
  {
    hide Flatten, Delivers, FrameBytes, DecodeFrame, AfterFrame, SentRequest, Mirror, KeySet;
    hide EncodeAll, DecodeAll, AllDelivered, SentAll, AllSeries;
    DecodedFirst(x.states, d, reqs);
    DeliveredFirst(x, reqs, DecodeAll(d, EncodeAll(x.states, reqs)).1);
  }

  lemma DecodedFirst(e: Streams, d: Streams, reqs: seq<WireRequest>)
    requires AllValid(e) && AllValid(d) && reqs != []
    ensures var (d1, first) := DecodeFrame(d, FrameBytes(e, reqs[0]));
      var (d2, got) := DecodeAll(d, EncodeAll(e, reqs));
      && got[0] == first
      && (d2, got[1..]) == DecodeAll(d1, EncodeAll(AfterFrame(e, reqs[0]), reqs[1..]))
  {
    hide FrameBytes, DecodeFrame, AfterFrame;
    assert EncodeAll(e, reqs)[1..] == EncodeAll(AfterFrame(e, reqs[0]), reqs[1..]);
  }

  lemma DeliveredFirst(x: Sender, reqs: seq<WireRequest>, got: seq<Result<WireRequest>>)
    requires AllValid(x.states) && reqs != [] && |got| == |reqs|
    ensures AllDelivered(x.states, reqs, got) <==>
            && got[0].Ok? && Delivers(x.states, reqs[0], got[0].value)
            && AllDelivered(AfterFrame(x.states, reqs[0]), reqs[1..], got[1..])
    ensures SentAll(x, reqs) == SentAll(SentRequest(x, reqs[0]), reqs[1..])
    ensures KeySet(AllSeries(reqs)) == KeySet(Flatten(reqs[0])) + KeySet(AllSeries(reqs[1..]))
  {
    hide Delivers, AfterFrame, SentRequest, Flatten, KeySet;
    KeySetConcat(Flatten(reqs[0]), AllSeries(reqs[1..]));
  }

  /** A whole connection: a fresh encoder and a fresh decoder. */
  lemma ConnectionRoundTrip(reqs: seq<WireRequest>)
    requires Carriable(NEW_SENDER, reqs)
    ensures var (d, got) := DecodeAll(map[], EncodeAll(map[], reqs));
      && AllDelivered(map[], reqs, got) && Mirror(SentAll(NEW_SENDER, reqs), d)
      && d.Keys == KeySet(AllSeries(reqs))
  {
    hide Mirror, DecodeAll, EncodeAll, AllDelivered, KeySet, Carriable, SentAll;
    FreshMirror();
    RunDelivered(NEW_SENDER, map[], reqs);
  }

  // ----- which sequences can be carried -----

  /** All series of a request have keys among `keys`. */
  ghost predicate KeysAmong(req: WireRequest, keys: set<Bytes>) {
    forall s :: s in Flatten(req) ==> s.hdr.Key() in keys
  }

  lemma {:induction false} FewKeysList(x: Sender, ss: seq<Series>, keys: set<Bytes>)
    requires AllValid(x.states) && (forall s :: s in ss ==> s.points != []) && |keys| < MAX_SERIES
    requires x.states.Keys <= keys && forall s :: s in ss ==> s.hdr.Key() in keys
    ensures AllShared(x, ss) && SentList(x, ss).states.Keys <= keys
    decreases |ss|
  {
    hide AfterSeries, Header.Key;
    SubsetSize(x.states.Keys, keys);
    assert |x.states| == |x.states.Keys|;
    if ss != [] {
      SeriesKeys(x, ss[0]);
      FewKeysList(SentSeries(x, ss[0]), ss[1..], keys);
    }
  }

  lemma SeriesKeys(x: Sender, s: Series)
    requires AllValid(x.states) && s.points != []
    ensures SentSeries(x, s).states.Keys <= x.states.Keys + {s.hdr.Key()}
  {
    hide EndState, StartState, Header.Key;
  }

  /** Below the series cap, any requests of any kinds in any order are carried: a key may change
      from gauge to histogram and back, as it does when sampling sets in. */
  lemma {:induction false} FewKeysCarriable(x: Sender, reqs: seq<WireRequest>, keys: set<Bytes>)
    requires AllValid(x.states) && x.states.Keys <= keys && |keys| < MAX_SERIES
    requires forall r :: r in reqs ==> RequestOk(r) && KeysAmong(r, keys)
    ensures Carriable(x, reqs)
    decreases |reqs|
  {
    hide RequestOk, AllShared, SentList;
    if reqs != [] {
      var ss := Flatten(reqs[0]);
      assert reqs[0] in reqs;
      FlattenNonempty(reqs[0]);
      FewKeysList(x, ss, keys);
      FewKeysCarriable(SentRequest(x, reqs[0]), reqs[1..], keys);
    }
  }

  /** Every series of a request has the kind that `hists` gives its key. */
  ghost predicate KindsAmong(req: WireRequest, hists: set<Bytes>) {
    forall s :: s in Flatten(req) ==> (s.hdr.kind == HISTOGRAM <==> s.hdr.Key() in hists)
  }

  lemma {:induction false} OneKindList(x: Sender, ss: seq<Series>, hists: set<Bytes>)
    requires AllValid(x.states) && (forall s :: s in ss ==> s.points != []) && x.loose !! hists
    requires forall s :: s in ss ==> (s.hdr.kind == HISTOGRAM <==> s.hdr.Key() in hists)
    ensures AllShared(x, ss) && SentList(x, ss).loose !! hists
    decreases |ss|
  {
    hide AfterSeries, Header.Key;
    if ss != [] {
      OneKindList(SentSeries(x, ss[0]), ss[1..], hists);
    }
  }

  /** Beyond the cap, too, any requests are carried in which every key keeps its kind. */
  lemma {:induction false} OneKindCarriable(x: Sender, reqs: seq<WireRequest>, hists: set<Bytes>)
    requires AllValid(x.states) && x.loose !! hists
    requires forall r :: r in reqs ==> RequestOk(r) && KindsAmong(r, hists)
    ensures Carriable(x, reqs)
    decreases |reqs|
  {
    hide RequestOk, AllShared, SentList;
    if reqs != [] {
      var ss := Flatten(reqs[0]);
      assert reqs[0] in reqs;
      FlattenNonempty(reqs[0]);
      OneKindList(x, ss, hists);
      OneKindCarriable(SentRequest(x, reqs[0]), reqs[1..], hists);
    }
  }
}
