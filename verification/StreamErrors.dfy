/** What a decoder makes of arbitrary bytes: nothing beyond its limits, and no loss of states when
    a frame turns out to be bad. */
module StreamErrors {
  import opened Words
  import opened Gorilla
  import opened ByteCodec
  import opened Dictionary
  import opened Labels
  import opened StreamFormat
  import opened StreamRoundTrip
  import opened StreamMirror
  import opened StreamLimits

  // ----- the pieces of a frame -----

  lemma {:induction false} StringsWithin(b: Bytes, n: nat)
    ensures var r := ParseStrings(b, n);
      r.Ok? ==> |r.value.0| == n && forall s :: s in r.value.0 ==> |s| <= MAX_STRING
    decreases n
  {
    hide ParseUvarint;
    if n > 0 && ParseUvarint(b).Ok? {
      var (l, b1) := ParseUvarint(b).value;
      if ParseFull(b1, l).Ok? {
        StringsWithin(ParseFull(b1, l).value.1, n - 1);
      }
    }
  }

  /** Whatever the bytes, a string table that is accepted is within both limits. */
  lemma TableWithin(b: Bytes)
    ensures ParseTable(b).Ok? ==> Fits(ParseTable(b).value.0)
  {
    hide ParseUvarint, ParseStrings;
    if ParseUvarint(b).Ok? {
      var (n, b1) := ParseUvarint(b).value;
      StringsWithin(b1, n);
    }
  }

  lemma {:induction false} RefsWithin(strs: seq<Bytes>, b: Bytes, n: nat)
    ensures var r := ParseRefs(strs, b, n);
      r.Ok? ==> |r.value.0| == n && forall s :: s in r.value.0 ==> s in strs
    decreases n
  {
    hide ParseUvarint;
    if n > 0 && ParseRef(strs, b).Ok? {
      RefsWithin(strs, ParseRef(strs, b).value.1, n - 1);
    }
  }

  lemma {:induction false} PairListWithin(strs: seq<Bytes>, b: Bytes, n: nat)
    ensures var r := ParsePairList(strs, b, n);
      r.Ok? ==> |r.value.0| == n && forall s :: s in PairStrings(r.value.0) ==> s in strs
    decreases n
  {
    hide ParseRefs;
    if n > 0 {
      RefsWithin(strs, b, 2);
      if ParseRefs(strs, b, 2).Ok? {
        var (kv, b1) := ParseRefs(strs, b, 2).value;
        assert kv[0] in kv && kv[1] in kv;
        PairListWithin(strs, b1, n - 1);
      }
    }
  }

  lemma PairsWithin(strs: seq<Bytes>, b: Bytes)
    ensures var r := ParsePairs(strs, b);
      r.Ok? ==> |r.value.0| <= MAX_ATTRIBUTES && forall s :: s in PairStrings(r.value.0) ==> s in strs
  {
    hide ParseUvarint, ParsePairList, PairStrings;
    if ParseUvarint(b).Ok? {
      var (n, b1) := ParseUvarint(b).value;
      PairListWithin(strs, b1, n);
    }
  }

  lemma HeaderWithin(strs: seq<Bytes>, b: Bytes)
    ensures var r := ParseHeader(strs, b);
      r.Ok? ==> Interns(strs, r.value.0) && |r.value.0.attrs| <= MAX_ATTRIBUTES
  {
    hide ParseRefs, ParsePairs, PairStrings;
    RefsWithin(strs, b, 5);
    if ParseRefs(strs, b, 5).Ok? {
      var (n, b1) := ParseRefs(strs, b, 5).value;
      assert forall i :: 0 <= i < 5 ==> n[i] in n;
      if ParseByte(b1).Ok? {
        var (kind, b2) := ParseByte(b1).value;
        if ParseFlags(kind, b2).Ok? {
          PairsWithin(strs, ParseFlags(kind, b2).value.1);
        }
      }
    }
  }

  lemma {:induction false} FloatsCount(b: Bytes, n: nat)
    ensures ParseFloats(b, n).Ok? ==> |ParseFloats(b, n).value.0| == n
    decreases n
  {
    hide ParseFloat64;
    if n > 0 && ParseFloat64(b).Ok? {
      FloatsCount(ParseFloat64(b).value.1, n - 1);
    }
  }

  lemma {:induction false} UvarintsCount(b: Bytes, n: nat)
    ensures ParseUvarints(b, n).Ok? ==> |ParseUvarints(b, n).value.0| == n
    decreases n
  {
    hide ParseUvarint;
    if n > 0 && ParseUvarint(b).Ok? {
      UvarintsCount(ParseUvarint(b).value.1, n - 1);
    }
  }

  // ----- histograms -----

  predicate HistWithin(h: Hist) {
    |h.bounds| <= MAX_BUCKETS && |h.buckets| <= MAX_BUCKETS
  }

  lemma BoundsWithin(raw: Byte, st: State, b: Bytes)
    requires |st.bounds| <= MAX_BUCKETS
    ensures ParseBounds(raw, st, b).Ok? ==> |ParseBounds(raw, st, b).value.0| <= MAX_BUCKETS
  {
    hide ParseUvarint, ParseFloats;
    if raw == 1 && ParseUvarint(b).Ok? {
      var (n, b1) := ParseUvarint(b).value;
      FloatsCount(b1, n);
    }
  }

  lemma BucketsWithin(b: Bytes)
    ensures ParseBuckets(b).Ok? ==> |ParseBuckets(b).value.0| <= MAX_BUCKETS
  {
    hide ParseUvarint, ParseUvarints;
    if ParseUvarint(b).Ok? {
      var (n, b1) := ParseUvarint(b).value;
      UvarintsCount(b1, n);
    }
  }

  lemma HistPointWithin(st: State, b: Bytes)
    requires |st.bounds| <= MAX_BUCKETS
    ensures var r := ParseHistPoint(st, b);
      r.Ok? ==> HistWithin(HistOf(r.value.0.0)) && |r.value.0.1.bounds| <= MAX_BUCKETS
  {
    hide ParseUvarint, ParseTotals, ParseBounds, ParseBuckets;
    if ParseHistPoint(st, b).Ok? {
      var (raw, b1) := ParseByte(b).value;
      var (u, b2) := ParseUvarint(b1).value;
      var (totals, b3) := ParseTotals(b2).value;
      BoundsWithin(raw, st, b3);
      BucketsWithin(ParseBounds(raw, st, b3).value.1);
    }
  }

  lemma {:induction false} HistPointsWithin(st: State, b: Bytes, n: nat)
    requires |st.bounds| <= MAX_BUCKETS
    ensures var r := ParseHistPoints(st, b, n);
      r.Ok? ==>
        && |r.value.0.0| == n && (forall p :: p in r.value.0.0 ==> HistWithin(HistOf(p)))
        && |r.value.0.1.bounds| <= MAX_BUCKETS
    decreases n
  {
    hide ParseHistPoint, HistWithin;
    if n > 0 && ParseHistPoint(st, b).Ok? {
      HistPointWithin(st, b);
      var ((p, st1), b1) := ParseHistPoint(st, b).value;
      HistPointsWithin(st1, b1, n - 1);
    }
  }

  // ----- series -----

  ghost predicate StatesWithin(d: Streams) {
    forall k :: k in d ==> |d[k].bounds| <= MAX_BUCKETS
  }

  predicate PointsWithin(h: Header, ps: seq<StreamPoint>) {
    h.kind == HISTOGRAM ==> |ps| <= MAX_HIST_POINTS && forall p :: p in ps ==> HistWithin(HistOf(p))
  }

  lemma HistsWithin(prev: Option<State>, b: Bytes)
    requires prev.Some? ==> |prev.value.bounds| <= MAX_BUCKETS
    ensures var r := ParseHists(prev, b);
      r.Ok? ==>
        && |r.value.0.0| <= MAX_HIST_POINTS && (forall p :: p in r.value.0.0 ==> HistWithin(HistOf(p)))
        && |r.value.0.1.bounds| <= MAX_BUCKETS
  {
    hide ParseUvarint, ParseHistPoints, HistWithin;
    if ParseUvarint(b).Ok? {
      var (n, b1) := ParseUvarint(b).value;
      HistPointsWithin(if prev.Some? then prev.value else FRESH, b1, n);
    }
  }

  /** A series that is accepted uses strings of the table and respects all limits. */
  lemma SeriesWithin(d: Streams, strs: seq<Bytes>, b: Bytes)
    requires AllValid(d) && StatesWithin(d)
    ensures var r := ParseSeries(d, strs, b);
      r.Ok? ==>
        var (h, ps, st) := r.value.0;
        && Interns(strs, h) && |h.attrs| <= MAX_ATTRIBUTES && PointsWithin(h, ps) && |st.bounds| <= MAX_BUCKETS
  {
    hide ParseHeader, ParseHists, ParseNumber, HistWithin, Interns, Header.Key;
    HeaderWithin(strs, b);
    if ParseHeader(strs, b).Ok? {
      var (h, b1) := ParseHeader(strs, b).value;
      HistsWithin(if h.Key() in d then Some(d[h.Key()]) else None, b1);
    }
  }

  // ----- whole frames -----

  predicate DataWithin(data: WireData) {
    data.Histogram? ==> forall h :: h in data.hists ==> HistWithin(h)
  }

  /** All histograms of a request are within the limits. */
  predicate ScopesWithin(sms: seq<WireScope>) {
    forall sm :: sm in sms ==> forall m :: m in sm.metrics ==> DataWithin(m.data)
  }

  predicate RequestWithin(req: WireRequest) {
    |req.attrs| <= MAX_ATTRIBUTES && |req.agentId| <= MAX_STRING && ScopesWithin(req.scopes)
  }

  lemma PlacedWithin(bd: Build, h: Header)
    requires bd.Valid() && ScopesWithin(bd.scopes)
    ensures ScopesWithin(WithMetric(WithScope(bd, h), h).scopes)
  {
    hide MetricKey, HistWithin;
    assert ScopesWithin(WithScope(bd, h).scopes);
    assert DataWithin(NewMetric(h).data);
  }

  lemma AddWithin(bd: Build, h: Header, ps: seq<StreamPoint>)
    requires bd.Valid() && ScopesWithin(bd.scopes) && PointsWithin(h, ps)
    ensures AddSeries(bd, h, ps).Ok? ==> ScopesWithin(AddSeries(bd, h, ps).value.scopes)
  {
    hide MetricKey, DataWithin, PointsWithin, WithPoints, WithMetric, WithScope;
    PlacedWithin(bd, h);
    var bd1 := WithMetric(WithScope(bd, h), h);
    var (i, j) := bd1.metricIdx[MetricKey(h.scope, h.name)];
    assert bd1.scopes[i] in bd1.scopes && bd1.scopes[i].metrics[j] in bd1.scopes[i].metrics;
    PointsAdded(bd1.scopes[i].metrics[j].data, h, ps);
  }

  lemma PointsAdded(data: WireData, h: Header, ps: seq<StreamPoint>)
    requires DataWithin(data) && PointsWithin(h, ps)
    ensures WithPoints(data, h, ps).Ok? ==> DataWithin(WithPoints(data, h, ps).value)
  {
    hide AttrMap, HistWithin;
    assert forall i :: 0 <= i < |ps| ==> ps[i] in ps;
  }

  lemma {:induction false} LoopWithin(d: Streams, bd: Build, strs: seq<Bytes>, b: Bytes, n: nat)
    requires AllValid(d) && StatesWithin(d) && bd.Valid() && ScopesWithin(bd.scopes)
    ensures var (d', r) := DecodeLoop(d, bd, strs, b, n);
      && StatesWithin(d') && d.Keys <= d'.Keys && |d'| <= |d| + n && (r.Ok? ==> ScopesWithin(r.value.scopes))
    decreases n
  {
    hide ParseSeries, AddSeries, ScopesWithin, PointsWithin, Interns, Header.Key;
    if n > 0 && ParseSeries(d, strs, b).Ok? {
      SeriesWithin(d, strs, b);
      ParsedStateValid(d, strs, b);
      var ((h, ps, st), b1) := ParseSeries(d, strs, b).value;
      var d' := d[h.Key() := st];
      OneMore(d, h.Key(), st);
      AddWithin(bd, h, ps);
      if AddSeries(bd, h, ps).Ok? {
        LoopWithin(d', AddSeries(bd, h, ps).value, strs, b1, n - 1);
      }
    }
  }

  lemma OneMore(d: Streams, key: Bytes, st: State)
    ensures d.Keys <= d[key := st].Keys && |d[key := st]| <= |d| + 1
  {
    assert d[key := st].Keys == d.Keys + {key};
    assert |d[key := st]| == |d[key := st].Keys| && |d| == |d.Keys|;
  }

  /** Whatever bytes arrive, accepted or not: no state is lost, at most the limit of new ones is
      created, and all bounds kept are within the limit; and a request that is accepted has no
      more resource attributes, bounds and buckets than the limits allow. */
  lemma FrameWithin(d: Streams, b: Bytes)
    requires AllValid(d) && StatesWithin(d)
    ensures var (d', r) := DecodeFrame(d, b);
      && StatesWithin(d') && d.Keys <= d'.Keys && |d'| <= |d| + MAX_FRAME_SERIES
      && (r.Ok? ==> RequestWithin(r.value))
  {
    hide ParseTable, DecodeBody, ScopesWithin;
    TableWithin(b);
    if ParseTable(b).Ok? {
      var (strs, b1) := ParseTable(b).value;
      BodyWithin(d, strs, b1);
    }
  }

  lemma BodyWithin(d: Streams, strs: seq<Bytes>, b: Bytes)
    requires AllValid(d) && StatesWithin(d) && Fits(strs)
    ensures var (d', r) := DecodeBody(d, strs, b);
      && StatesWithin(d') && d.Keys <= d'.Keys && |d'| <= |d| + MAX_FRAME_SERIES
      && (r.Ok? ==> RequestWithin(r.value))
  {
    hide ParseUvarint, ParsePairs, DecodeLoop, AttrMap, PairStrings;
    if ParseRef(strs, b).Ok? {
      var (agent, b1) := ParseRef(strs, b).value;
      assert agent in strs;
      if ParseUvarint(b1).Ok? {
        var b2 := ParseUvarint(b1).value.1;
        PairsWithin(strs, b2);
        if ParsePairs(strs, b2).Ok? {
          var (res, b3) := ParsePairs(strs, b2).value;
          AttrsWithin(res);
          if ParseUvarint(b3).Ok? {
            LoopWithin(d, EMPTY_BUILD, strs, ParseUvarint(b3).value.1, ParseUvarint(b3).value.0);
          }
        }
      }
    }
  }

  lemma {:induction false} AttrsWithin(ps: seq<Pair>)
    ensures |AttrMap(ps)| <= |ps|
  {
    if ps != [] {
      var n := |ps| - 1;
      AttrsWithin(ps[..n]);
      var m := AttrMap(ps[..n]);
      assert m[ps[n].0 := ps[n].1].Keys == m.Keys + {ps[n].0};
      assert |m| == |m.Keys| && |AttrMap(ps)| == |AttrMap(ps).Keys|;
    }
  }

  // ----- a bad series -----

  /** Behind the series `ss` from `x`, which it decodes, a decoder finds an error: it keeps the states
      of those series, which mirror the encoder's at that point, and no others change. */
  ghost predicate FailsAfter(x: Sender, d: Streams, bd: Build, strs: seq<Bytes>, ss: seq<Series>, bad: Bytes, n: nat)
    requires AllValid(x.states) && AllValid(d) && bd.Valid() && Ready(strs, ss)
  {
    var (d', r) := DecodeLoop(d, bd, strs, ListBytes(x.states, strs, ss) + bad, |ss| + n);
    r == Err && Mirror(SentList(x, ss), d') && d'.Keys == d.Keys + KeySet(ss)
  }

  /** No decoder with these keys can decode the bytes as a series. */
  ghost predicate Undecodable(strs: seq<Bytes>, keys: set<Bytes>, bad: Bytes) {
    forall d :: AllValid(d) && d.Keys == keys ==> ParseSeries(d, strs, bad) == Err
  }

  /** A series that cannot be decoded costs no states. */
  lemma {:induction false} BadSeries(
      x: Sender, d: Streams, bd: Build, strs: seq<Bytes>, ss: seq<Series>, bad: Bytes, n: nat)
    requires Mirror(x, d) && AllValid(x.states) && AllValid(d) && ListFits(strs, ss) && bd.Valid()
    requires Ready(strs, ss) && AllShared(x, ss) && BuildAll(bd, CarriedList(x.states, ss)).Ok?
    requires n > 0 && Undecodable(strs, d.Keys + KeySet(ss), bad)
    ensures FailsAfter(x, d, bd, strs, ss, bad, n)
    decreases |ss|
  {
    hide SeriesBytes, ParseSeries, AddSeries, CarriedPoints, CarriedHeader, AfterSeries, SeriesFits, Mirror;
    hide Header.Key, Shared, KeySet, ListBytes, FailsAfter, Undecodable;
    if ss == [] {
      NothingBefore(x, d, bd, strs, bad, n);
    } else {
      var s, x' := ss[0], SentSeries(x, ss[0]);
      var tail := ListBytes(x'.states, strs, ss[1..]) + bad;
      SeriesRoundTrip(x, d, strs, s, tail);
      CarriedFirst(x.states, ss);
      CarriedKey(s.hdr);
      KeySetFirst(ss);
      var d' := d[s.hdr.Key() := ParseSeries(d, strs, SeriesBytes(x.states, strs, s) + tail).value.0.2];
      MirrorValid(x', d');
      assert d'.Keys + KeySet(ss[1..]) == d.Keys + KeySet(ss);
      var bd' := AddSeries(bd, CarriedHeader(s.hdr), CarriedPoints(StartState(x.states, s), s)).value;
      BadSeries(x', d', bd', strs, ss[1..], bad, n);
      FailsFirst(x, d, bd, strs, ss, bad, n);
    }
  }

  lemma NothingBefore(x: Sender, d: Streams, bd: Build, strs: seq<Bytes>, bad: Bytes, n: nat)
    requires Mirror(x, d) && AllValid(x.states) && AllValid(d) && bd.Valid()
    requires n > 0 && Undecodable(strs, d.Keys + KeySet([]), bad)
    ensures FailsAfter(x, d, bd, strs, [], bad, n)
  {
    hide ParseSeries, Mirror, KeySet;
    NoKeys();
    assert d.Keys + {} == d.Keys;
    assert ListBytes(x.states, strs, []) + bad == bad;
    assert ParseSeries(d, strs, bad) == Err;
  }

  lemma FailsFirst(x: Sender, d: Streams, bd: Build, strs: seq<Bytes>, ss: seq<Series>, bad: Bytes, n: nat)
    requires AllValid(x.states) && AllValid(d) && bd.Valid() && ss != [] && Ready(strs, ss)
    requires var s, x' := ss[0], SentSeries(x, ss[0]);
      var r := ParseSeries(d, strs, SeriesBytes(x.states, strs, s) + (ListBytes(x'.states, strs, ss[1..]) + bad));
      && r.Ok? && r.value.0.0.Key() == s.hdr.Key() && r.value.1 == ListBytes(x'.states, strs, ss[1..]) + bad
      && var d', added := d[s.hdr.Key() := r.value.0.2], AddSeries(bd, r.value.0.0, r.value.0.1);
         AllValid(d') && added.Ok? && FailsAfter(x', d', added.value, strs, ss[1..], bad, n)
    ensures FailsAfter(x, d, bd, strs, ss, bad, n)
  {
    hide SeriesBytes, ParseSeries, AddSeries, AfterSeries, Mirror, Header.Key, KeySet, Interns, Build.Valid;
    var s, x' := ss[0], SentSeries(x, ss[0]);
    ConcatAssoc(SeriesBytes(x.states, strs, s), ListBytes(x'.states, strs, ss[1..]), bad);
    KeySetFirst(ss);
  }

  /** The case that occurs: a frame in which some series goes on that the decoder has not seen. */
  lemma MissingLater(
      x: Sender, d: Streams, bd: Build, strs: seq<Bytes>, ss: seq<Series>, e: Streams, s: Series, rest: Bytes, n: nat)
    requires Mirror(x, d) && AllValid(x.states) && AllValid(d) && ListFits(strs, ss) && bd.Valid()
    requires Ready(strs, ss) && AllShared(x, ss) && BuildAll(bd, CarriedList(x.states, ss)).Ok?
    requires n > 0 && AllValid(e) && SeriesFits(strs, s) && s.hdr.Key() !in d.Keys + KeySet(ss)
    requires s.hdr.Key() in e && e[s.hdr.Key()].initialized && (s.hdr.kind == HISTOGRAM || |e| < MAX_SERIES)
    ensures FailsAfter(x, d, bd, strs, ss, SeriesBytes(e, strs, s) + rest, n)
  {
    hide SeriesBytes, ParseSeries, Mirror, Header.Key, KeySet, FailsAfter, BuildAll, CarriedList, AllShared;
    hide HeaderFits, Interns;
    var bad := SeriesBytes(e, strs, s) + rest;
    forall d' | AllValid(d') && d'.Keys == d.Keys + KeySet(ss)
      ensures ParseSeries(d', strs, bad) == Err
    {
      MissingKeyframe(e, d', strs, s, rest);
    }
    BadSeries(x, d, bd, strs, ss, bad, n);
  }
}
