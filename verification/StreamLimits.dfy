/** The edges of the stream codec: what happens beyond the series cap, what becomes of
    histograms, and how a decoder that missed a keyframe notices. */
module StreamLimits {
  import opened Words
  import opened Gorilla
  import opened PointStream
  import opened ByteCodec
  import opened Dictionary
  import opened Labels
  import opened Protocol
  import opened StreamFormat
  import opened StreamRoundTrip
  import opened StreamMirror
  import opened StreamRequest
  import opened StreamConnection

  // ----- beyond the series cap -----

  /** Two encoders beyond the cap that differ only in number series. */
  ghost predicate SameBeyondCap(e: Streams, f: Streams, hists: set<Bytes>) {
    && AllValid(e) && AllValid(f) && |e| >= MAX_SERIES && |f| >= MAX_SERIES
    && (forall k :: k in hists ==> StateAt(e, k) == StateAt(f, k))
  }

  predicate KindKnown(hists: set<Bytes>, s: Series) {
    s.points != [] && (s.hdr.kind == HISTOGRAM ==> s.hdr.Key() in hists)
  }

  lemma SeriesBeyondCap(e: Streams, f: Streams, hists: set<Bytes>, s: Series)
    requires SameBeyondCap(e, f, hists) && KindKnown(hists, s)
    ensures s.hdr.kind != HISTOGRAM ==> StartState(e, s) == FRESH && AfterSeries(e, s) == e
    ensures PointsBytes(e, s) == PointsBytes(f, s)
    ensures SameBeyondCap(AfterSeries(e, s), AfterSeries(f, s), hists)
  {
    hide SeriesKey, EndState;
    GrowsOnly(e, s);
    GrowsOnly(f, s);
    StartValid(e, s);
    StartValid(f, s);
  }

  lemma {:induction false} ListBeyondCap(e: Streams, f: Streams, strs: seq<Bytes>, hists: set<Bytes>, ss: seq<Series>)
    requires SameBeyondCap(e, f, hists) && Ready(strs, ss) && forall s :: s in ss ==> KindKnown(hists, s)
    ensures ListBytes(e, strs, ss) == ListBytes(f, strs, ss)
    ensures SameBeyondCap(AfterList(e, ss), AfterList(f, ss), hists)
    decreases |ss|
  {
    hide SeriesKey, PointsBytes, HeaderBytes, AfterSeries, SameBeyondCap, KindKnown;
    BeyondCapValid(e, f, hists);
    if ss != [] {
      SeriesBeyondCap(e, f, hists, ss[0]);
      ListBeyondCap(AfterSeries(e, ss[0]), AfterSeries(f, ss[0]), strs, hists, ss[1..]);
    }
  }

  lemma BeyondCapValid(e: Streams, f: Streams, hists: set<Bytes>)
    requires SameBeyondCap(e, f, hists)
    ensures AllValid(e) && AllValid(f)
  {
  }

  /** Once past the cap, the number states an encoder still holds are never read again, for
      the rest of the connection: encoders that differ only there write the same frames. */
  lemma {:induction false} StaleStatesUnread(e: Streams, f: Streams, hists: set<Bytes>, reqs: seq<WireRequest>)
    requires SameBeyondCap(e, f, hists)
    requires forall r :: r in reqs ==> forall s :: s in Flatten(r) ==> KindKnown(hists, s)
    ensures EncodeAll(e, reqs) == EncodeAll(f, reqs)
    decreases |reqs|
  {
    hide SameBeyondCap, Flatten, FrameTable, SortedPairs, ListBytes, AfterList, ScopesAtoms, TableBytes, KindKnown;
    BeyondCapValid(e, f, hists);
    if reqs != [] {
      var req := reqs[0];
      var ss, res := Flatten(req), SortedPairs(req.attrs);
      var strs := FrameTable(req.agentId, res, ss);
      FrameReady(req);
      assert req in reqs;
      ListBeyondCap(e, f, strs, hists, ss);
      StaleStatesUnread(AfterFrame(e, req), AfterFrame(f, req), hists, reqs[1..]);
    }
  }

  /** A list of series keeps the bound, and every histogram series in it gets a state. */
  lemma {:induction false} NumberStatesList(e: Streams, ss: seq<Series>, hists: set<Bytes>)
    requires AllValid(e) && forall s :: s in ss ==> KindKnown(hists, s) && s.points != []
    requires |e.Keys - hists| <= MAX_SERIES
    ensures |AfterList(e, ss).Keys - hists| <= MAX_SERIES
    ensures forall s :: s in ss && s.hdr.kind == HISTOGRAM ==> s.hdr.Key() in AfterList(e, ss)
    ensures e.Keys <= AfterList(e, ss).Keys
    decreases |ss|
  {
    hide AfterSeries, Header.Key;
    if ss != [] {
      SeriesBounded(e, ss[0], hists);
      NumberStatesList(AfterSeries(e, ss[0]), ss[1..], hists);
    }
  }

  lemma SeriesBounded(e: Streams, s: Series, hists: set<Bytes>)
    requires AllValid(e) && KindKnown(hists, s) && |e.Keys - hists| <= MAX_SERIES
    ensures |AfterSeries(e, s).Keys - hists| <= MAX_SERIES
    ensures s.hdr.kind == HISTOGRAM ==> s.hdr.Key() in AfterSeries(e, s)
    ensures e.Keys <= AfterSeries(e, s).Keys
  {
    hide AfterSeries, Header.Key;
    var key := s.hdr.Key();
    AfterKeys(e, s);
    assert |e.Keys| == |e|;
    if s.hdr.kind != HISTOGRAM && |e| < MAX_SERIES {
      OneMoreKey(e.Keys, key, hists);
    } else {
      assert e.Keys + {key} - hists == e.Keys - hists || s.hdr.kind != HISTOGRAM;
    }
  }

  lemma OneMoreKey(keys: set<Bytes>, key: Bytes, hists: set<Bytes>)
    requires |keys| < MAX_SERIES
    ensures |keys + {key} - hists| <= MAX_SERIES
  {
    SubsetSize(keys + {key} - hists, keys + {key});
  }

  /** The cap bounds the states of number series only: apart from keys of histogram series, an
      encoder never holds more states than the cap. */
  lemma {:induction false} NumberStatesBounded(e: Streams, reqs: seq<WireRequest>, hists: set<Bytes>)
    requires AllValid(e) && |e.Keys - hists| <= MAX_SERIES
    requires forall r :: r in reqs ==> forall s :: s in Flatten(r) ==> KindKnown(hists, s)
    ensures |AfterAll(e, reqs).Keys - hists| <= MAX_SERIES
    decreases |reqs|
  {
    hide Flatten, AfterList, KindKnown, ScopesAtoms;
    if reqs != [] {
      assert reqs[0] in reqs;
      FlattenNonempty(reqs[0]);
      NumberStatesList(e, Flatten(reqs[0]), hists);
      NumberStatesBounded(AfterFrame(e, reqs[0]), reqs[1..], hists);
    }
  }

  /** One series takes the encoder's map over the cap exactly when the map is full and the
      series is the first histogram of a new key. */
  lemma SeriesExceeds(e: Streams, s: Series)
    requires AllValid(e) && s.points != [] && |e| <= MAX_SERIES
    ensures |AfterSeries(e, s)| > MAX_SERIES <==>
            |e| == MAX_SERIES && s.hdr.kind == HISTOGRAM && s.hdr.Key() !in e
  {
    hide AfterSeries, Header.Key;
    AfterKeys(e, s);
    var e', key := AfterSeries(e, s), s.hdr.Key();
    assert |e'| == |e'.Keys| && |e| == |e.Keys|;
    assert key in e ==> e.Keys + {key} == e.Keys;
    assert |e'.Keys| <= |e.Keys| + 1;
  }

  /** Somewhere in the list, the map is full and a histogram of a new key comes. */
  ghost predicate Overflows(e: Streams, ss: seq<Series>)
    requires AllValid(e) && forall s :: s in ss ==> s.points != []
  {
    exists i :: 0 <= i < |ss| && OverflowsAt(e, ss, i)
  }

  ghost predicate OverflowsAt(e: Streams, ss: seq<Series>, i: nat)
    requires AllValid(e) && (forall s :: s in ss ==> s.points != []) && i < |ss|
  {
    var e' := AfterList(e, ss[..i]);
    |e'| == MAX_SERIES && ss[i].hdr.kind == HISTOGRAM && ss[i].hdr.Key() !in e'
  }

  lemma OverflowsLater(e: Streams, ss: seq<Series>, i: nat)
    requires AllValid(e) && (forall s :: s in ss ==> s.points != []) && 0 < i < |ss|
    ensures OverflowsAt(e, ss, i) <==> OverflowsAt(AfterSeries(e, ss[0]), ss[1..], i - 1)
  {
    hide AfterSeries, Header.Key;
    assert ss[..i][1..] == ss[1..][..i - 1];
  }

  lemma {:induction false} ListGrows(e: Streams, ss: seq<Series>)
    requires AllValid(e) && forall s :: s in ss ==> s.points != []
    ensures |e| <= |AfterList(e, ss)|
    decreases |ss|
  {
    hide AfterSeries;
    if ss != [] {
      GrowsOnly(e, ss[0]);
      ListGrows(AfterSeries(e, ss[0]), ss[1..]);
    }
  }

  lemma {:induction false} ListExceeds(e: Streams, ss: seq<Series>)
    requires AllValid(e) && (forall s :: s in ss ==> s.points != []) && |e| <= MAX_SERIES
    ensures |AfterList(e, ss)| > MAX_SERIES <==> Overflows(e, ss)
    decreases |ss|
  {
    hide AfterSeries, OverflowsAt, Header.Key;
    if ss != [] {
      var e', rest := AfterSeries(e, ss[0]), ss[1..];
      FirstOverflow(e, ss);
      if |e'| > MAX_SERIES {
        ListGrows(e', rest);
      } else {
        ListExceeds(e', rest);
        if i :| 0 <= i < |ss| && OverflowsAt(e, ss, i) {
          OverflowsLater(e, ss, i);
        }
        if j :| 0 <= j < |rest| && OverflowsAt(e', rest, j) {
          OverflowsLater(e, ss, j + 1);
        }
      }
    }
  }

  lemma FirstOverflow(e: Streams, ss: seq<Series>)
    requires AllValid(e) && ss != [] && (forall s :: s in ss ==> s.points != []) && |e| <= MAX_SERIES
    ensures OverflowsAt(e, ss, 0) <==> |AfterSeries(e, ss[0])| > MAX_SERIES
  {
    hide AfterSeries, Header.Key;
    assert ss[..0] == [];
    SeriesExceeds(e, ss[0]);
  }

  /** Over a whole connection, the encoder's map exceeds the cap exactly when at some point it is
      full and a histogram of a key without a state is sent. */
  lemma EncoderExceedsCap(reqs: seq<WireRequest>)
    ensures |AfterAll(map[], reqs)| > MAX_SERIES <==> Overflows(map[], AllSeries(reqs))
  {
    hide AfterList, AllSeries, Overflows;
    AfterAllSeries(map[], reqs);
    ListExceeds(map[], AllSeries(reqs));
  }

  function HistogramKeys(ss: seq<Series>): set<Bytes> {
    set s | s in ss && s.hdr.kind == HISTOGRAM :: s.hdr.Key()
  }

  lemma {:induction false} HistogramsStored(e: Streams, ss: seq<Series>)
    requires AllValid(e) && forall s :: s in ss ==> s.points != []
    ensures e.Keys + HistogramKeys(ss) <= AfterList(e, ss).Keys
    decreases |ss|
  {
    hide AfterSeries, Header.Key;
    if ss != [] {
      AfterKeys(e, ss[0]);
      HistogramsStored(AfterSeries(e, ss[0]), ss[1..]);
      assert ss == [ss[0]] + ss[1..];
    }
  }

  /** So any connection with more histogram keys than the cap takes the encoder over it. */
  lemma HistogramsUncapped(reqs: seq<WireRequest>)
    ensures |AfterAll(map[], reqs)| >= |HistogramKeys(AllSeries(reqs))|
    ensures |HistogramKeys(AllSeries(reqs))| > MAX_SERIES ==> Overflows(map[], AllSeries(reqs))
  {
    hide AfterList, AllSeries, HistogramKeys, Overflows;
    var ss := AllSeries(reqs);
    AfterAllSeries(map[], reqs);
    HistogramsStored(map[], ss);
    SubsetSize(HistogramKeys(ss), AfterList(map[], ss).Keys);
    assert |AfterList(map[], ss)| == |AfterList(map[], ss).Keys|;
    EncoderExceedsCap(reqs);
  }

  /** Nothing bounds the decoder: its map exceeds the cap exactly when the connection has carried
      more keys than that. */
  lemma DecoderExceedsCap(reqs: seq<WireRequest>)
    requires Carriable(NEW_SENDER, reqs)
    ensures |DecodeAll(map[], EncodeAll(map[], reqs)).0| == |KeySet(AllSeries(reqs))|
    ensures |DecodeAll(map[], EncodeAll(map[], reqs)).0| > MAX_SERIES <==> |KeySet(AllSeries(reqs))| > MAX_SERIES
  {
    hide DecodeAll, EncodeAll, KeySet, AllSeries, Carriable, Mirror, AllDelivered, SentAll;
    ConnectionRoundTrip(reqs);
    var d := DecodeAll(map[], EncodeAll(map[], reqs)).0;
    assert |d| == |d.Keys|;
  }

  /** Where one kind per key is needed: beyond the cap, a number series moves the decoder's time
      of a key that the encoder still holds for histograms. The next histogram of that key is
      decoded without an error, and its time is right exactly when that number point had the
      time of the last histogram. */
  lemma MixedKindsBeyondCap(x: Sender, d: Streams, strs: seq<Bytes>, s: Series, h: Series, rest: Bytes)
    requires Mirror(x, d) && |x.states| >= MAX_SERIES && SeriesFits(strs, s) && SeriesFits(strs, h)
    requires s.hdr.kind != HISTOGRAM && h.hdr.kind == HISTOGRAM && h.hdr.Key() == s.hdr.Key()
    requires h.hdr.Key() in x.states && h.hdr.Key() !in x.loose
    ensures var r := ParseSeries(d, strs, SeriesBytes(x.states, strs, s) + rest);
      && r.Ok?
      && var key := s.hdr.Key();
         var d', st := d[key := r.value.0.2], x.states[key];
         && AfterSeries(x.states, s) == x.states && AllValid(d')
         && d'[key].lastTs == s.points[|s.points| - 1].ts
         && var p := ParseHistPoint(d'[key], HistPointBytes(st, h.points[0]) + rest);
            p.Ok? && (p.value.0.0.ts == h.points[0].ts <==> s.points[|s.points| - 1].ts == st.lastTs)
  {
    hide HeaderBytes, ParseHeader, ParseNumber, NumberBytes, Header.Key, SeriesKey, ParseHistPoint;
    hide HistPointBytes, AfterPoints;
    var key, pts, e := s.hdr.Key(), NumberPoints(s.points), x.states;
    var points := PointsBytes(e, s);
    ConcatAssoc(HeaderBytes(strs, s.hdr), points, rest);
    HeaderRoundTrip(strs, s.hdr, points + rest);
    CarriedKey(s.hdr);
    NumberRoundTrip(FRESH, Prev(d, key), pts, rest);
    ParsedStateValid(d, strs, SeriesBytes(e, strs, s) + rest);
    NumberInitialized(FRESH, pts);
    var st' := ParseSeries(d, strs, SeriesBytes(e, strs, s) + rest).value.0.2;
    KeyframedTime(pts);
    HistPointRead(e[key], st', h.points[0], rest);
    TimeShift(st'.lastTs, e[key].lastTs, h.points[0].ts);
  }

  lemma KeyframedTime(pts: seq<Point>)
    requires pts != []
    ensures NumberState(FRESH, pts).lastTs == pts[|pts| - 1].ts
  {
    if |pts| > 1 {
      LastPoint(Keyframed(FRESH, pts[0]), pts[1..]);
    }
  }

  lemma TimeShift(d: I64, e: I64, t: I64)
    ensures Add64(d, Sub64(t, e)) == t <==> d == e
  {
  }

  // ----- errors -----

  /** A series that the encoder has begun goes on with deltas, below the series cap or if it is
      of histograms; for a decoder that has never seen it that is an error, not garbage. */
  lemma MissingKeyframe(e: Streams, d: Streams, strs: seq<Bytes>, s: Series, rest: Bytes)
    requires AllValid(e) && AllValid(d) && |strs| <= MAX_DICTIONARY && Interns(strs, s.hdr)
    requires HeaderFits(s.hdr) && PointsFit(s)
    requires s.hdr.Key() in e && e[s.hdr.Key()].initialized && s.hdr.Key() !in d
    requires s.hdr.kind == HISTOGRAM || |e| < MAX_SERIES
    ensures ParseSeries(d, strs, SeriesBytes(e, strs, s) + rest) == Err
  {
    hide HeaderBytes, ParseHeader, SeriesKey, Uvarint, ParseUvarint, HistsBytes, StreamsBytes, NumberPoints;
    hide TotalsBytes, BucketsBytes;
    var st := StartState(e, s);
    StartValid(e, s);
    var points, n := PointsBytes(e, s), Uvarint(|s.points|);
    ConcatAssoc(HeaderBytes(strs, s.hdr), points, rest);
    HeaderRoundTrip(strs, s.hdr, points + rest);
    CarriedKey(s.hdr);
    if s.hdr.kind == HISTOGRAM {
      ConcatAssoc(n, HistsBytes(st, s.points), rest);
      UvarintRoundTrip(|s.points|, HistsBytes(st, s.points) + rest);
      DeltaHistRejected(st, s.points, rest);
    } else {
      var body := [0] + StreamsBytes(st, NumberPoints(s.points));
      ConcatAssoc(n, body, rest);
      UvarintRoundTrip(|s.points|, body + rest);
    }
  }

  lemma DeltaHistRejected(st: State, ps: seq<StreamPoint>, rest: Bytes)
    requires st.initialized && ps != []
    ensures ParseHistPoints(FRESH, HistsBytes(st, ps) + rest, |ps|) == Err
  {
    hide TotalsBytes, BucketsBytes, Uvarint, Zigzag;
    assert (HistsBytes(st, ps) + rest)[0] == 0;
  }

  // ----- kinds -----

  predicate HoldsKind(data: WireData, kind: Byte) {
    if kind == HISTOGRAM then data.Histogram? else if kind == SUM then data.Sum? else data.Gauge?
  }

  /** A series can be added to the decoded request exactly when the metric of its name, if there
      is one already, is of its kind. */
  lemma KindsMustAgree(bd: Build, h: Header, ps: seq<StreamPoint>)
    requires bd.Valid() && ps != []
    ensures AddSeries(bd, h, ps).Ok? <==>
            var key := MetricKey(h.scope, h.name);
            key in bd.metricIdx ==>
              HoldsKind(bd.scopes[bd.metricIdx[key].0].metrics[bd.metricIdx[key].1].data, h.kind)
  {
    hide MetricKey, NumberDataPoints, HistDataPoints;
    var bd1, key := WithMetric(WithScope(bd, h), h), MetricKey(h.scope, h.name);
    var (i, j) := bd1.metricIdx[key];
    if key in bd.metricIdx {
      assert bd1.scopes[i] == bd.scopes[i];
    } else {
      assert HoldsKind(NewMetric(h).data, h.kind);
      assert bd1.scopes[i].metrics[j] == NewMetric(h);
    }
  }

  // ----- ordinary requests -----

  lemma {:induction false} InternedFrom(strs: seq<Bytes>, ss: seq<Bytes>)
    ensures |InternAll(strs, ss)| <= |strs| + |ss|
    ensures forall s :: s in InternAll(strs, ss) ==> s in strs || s in ss
    decreases |ss|
  {
    if ss != [] {
      InternedFrom(Interned(strs, ss[0]), ss[1..]);
    }
  }

  function GaugePoint(agent: Bytes, now: I64,
                      scope: Bytes, name: Bytes, unit: Bytes, desc: Bytes, ts: I64, val: U64): WireRequest
  {
    var metric := Metric(name, unit, desc, Gauge([NumberPoint(map[], ts, val)]));
    Request(agent, map[], now, [ScopeMetrics(scope, [], [metric])])
  }

  lemma GaugePointFlat(agent: Bytes, now: I64, scope: Bytes, name: Bytes, unit: Bytes, desc: Bytes, ts: I64, val: U64)
    ensures var h := Header(scope, [], name, unit, desc, GAUGE, 0, false, []);
      var req := GaugePoint(agent, now, scope, name, unit, desc, ts, val);
      && ScopesAtoms(req.scopes) == [Atom(h, StreamPoint(ts, val, None))]
      && Flatten(req) == [Series(h, [StreamPoint(ts, val, None)])]
  {
    var h := Header(scope, [], name, unit, desc, GAUGE, 0, false, []);
    var req := GaugePoint(agent, now, scope, name, unit, desc, ts, val);
    var sm, m, a := req.scopes[0], req.scopes[0].metrics[0], Atom(h, StreamPoint(ts, val, None));
    assert SortedPairs(map[]) == [];
    assert MetricAtoms(sm, m) == [a];
    assert MetricsAtoms(sm, [m]) == MetricsAtoms(sm, []) + MetricAtoms(sm, m);
    assert ScopesAtoms([sm]) == ScopesAtoms([]) + MetricsAtoms(sm, [m]);
    assert PushAll([a]) == Pushed(PushAll([]), a);
  }

  /** What the codec asks of a request is met by ordinary ones: a single gauge point is carried
      as long as its names are free of the separator and its strings are not absurdly long. */
  lemma GaugePointOk(agent: Bytes, now: I64,
                     scope: Bytes, name: Bytes, unit: Bytes, desc: Bytes, ts: I64, val: U64)
    requires 0 !in scope && 0 !in name
    requires forall s :: s in [agent, scope, name, unit, desc] ==> |s| <= MAX_STRING
    ensures RequestOk(GaugePoint(agent, now, scope, name, unit, desc, ts, val))
  {
    hide ScopesAtoms, Flatten, SortedPairs, FrameTable, Fits, Interns, Consistent;
    var req := GaugePoint(agent, now, scope, name, unit, desc, ts, val);
    var h := Header(scope, [], name, unit, desc, GAUGE, 0, false, []);
    GaugePointFlat(agent, now, scope, name, unit, desc, ts, val);
    assert Headers(ScopesAtoms(req.scopes)) == [h];
    OneHeader(h);
    NoPairs();
    GaugeTable(agent, Series(h, [StreamPoint(ts, val, None)]));
  }

  lemma OneHeader(h: Header)
    requires 0 !in h.scope && 0 !in h.name && h.attrs == []
    ensures Consistent([h])
  {
  }

  lemma GaugeTable(agent: Bytes, s: Series)
    requires s.hdr.attrs == [] && forall x :: x in [agent] + Names(s.hdr) ==> |x| <= MAX_STRING
    ensures Fits(FrameTable(agent, [], [s])) && Interns(FrameTable(agent, [], [s]), s.hdr)
    ensures |FrameTable(agent, [], [s])| <= MAX_DICTIONARY
  {
    hide InternAll;
    assert SeriesStrings([s]) == SeriesStrings([]) + HeaderStrings(s.hdr);
    assert HeaderStrings(s.hdr) == Names(s.hdr) + [];
    var all := FrameStrings(agent, [], [s]);
    assert all == [agent] + Names(s.hdr);
    InternedFrom([], all);
  }
}
