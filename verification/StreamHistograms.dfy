/** What a connection carries of histograms. The format sends the bounds of a series once, so
    every histogram arrives with the bounds that its key was first stored with. */
module StreamHistograms {
  import opened Words
  import opened Gorilla
  import opened StreamFormat
  import opened StreamRoundTrip
  import opened StreamMirror
  import opened StreamRequest
  import opened StreamConnection

  // ----- bounds are stored once -----

  /** The bounds of every key. */
  type Schema = Bytes -> seq<U64>

  /** Every state has begun, with the bounds that `bounds` gives its key. */
  ghost predicate Agrees(e: Streams, bounds: Schema) {
    forall k :: k in e ==> e[k].initialized && e[k].bounds == bounds(k)
  }

  ghost predicate Begun(e: Streams) {
    forall k :: k in e ==> e[k].initialized
  }

  /** The bounds that a series brings along: none if it is not of histograms. */
  function BoundsOf(s: Series): seq<U64>
    requires s.points != []
  {
    if s.hdr.kind == HISTOGRAM then HistOf(s.points[0]).bounds else []
  }

  lemma {:induction false} HistsBounds(st: State, ps: seq<StreamPoint>)
    requires ps != []
    ensures HistsState(st, ps).initialized && HistsState(st, ps).bounds == StreamBounds(st, ps)
    decreases |ps|
  {
    if |ps| > 1 {
      HistsBounds(HistState(st, ps[0]), ps[1..]);
    }
  }

  lemma EndBounds(st: State, s: Series)
    requires st.Valid() && s.points != [] && (!st.initialized ==> st.bounds == [])
    ensures EndState(st, s).initialized
    ensures EndState(st, s).bounds == if st.initialized then st.bounds else BoundsOf(s)
  {
    hide NumberState;
    if s.hdr.kind == HISTOGRAM {
      HistsBounds(st, s.points);
    } else {
      NumberInitialized(st, NumberPoints(s.points));
    }
  }

  /** The one series that gives a key its state also gives it its bounds, for good. */
  lemma SeriesBounds(e: Streams, s: Series)
    requires AllValid(e) && Begun(e) && s.points != []
    ensures Begun(AfterSeries(e, s))
    ensures forall k :: k in e ==> k in AfterSeries(e, s) && AfterSeries(e, s)[k].bounds == e[k].bounds
    ensures forall k :: k in AfterSeries(e, s) && k !in e ==>
      k == s.hdr.Key() && AfterSeries(e, s)[k].bounds == BoundsOf(s)
  {
    hide EndState, Header.Key, BoundsOf;
    StartValid(e, s);
    EndBounds(StartState(e, s), s);
  }

  /** The bounds of a key after a list of series: those it had, or those of the first series
      that gave it a state. Beyond the series cap only histograms do. */
  function FirstBounds(e: Streams, ss: seq<Series>, key: Bytes): seq<U64>
    requires AllValid(e) && forall s :: s in ss ==> s.points != []
    decreases |ss|
  {
    if key in e then e[key].bounds
    else if ss == [] then []
    else if ss[0].hdr.Key() == key && (ss[0].hdr.kind == HISTOGRAM || |e| < MAX_SERIES) then BoundsOf(ss[0])
    else FirstBounds(AfterSeries(e, ss[0]), ss[1..], key)
  }

  lemma {:induction false} ListBounds(e: Streams, ss: seq<Series>, key: Bytes)
    requires AllValid(e) && Begun(e) && forall s :: s in ss ==> s.points != []
    ensures Begun(AfterList(e, ss)) && (key in e ==> key in AfterList(e, ss))
    ensures key in AfterList(e, ss) ==> AfterList(e, ss)[key].bounds == FirstBounds(e, ss, key)
    decreases |ss|
  {
    hide Header.Key, BoundsOf, Begun;
    if ss != [] {
      SeriesBounds(e, ss[0]);
      AfterKeys(e, ss[0]);
      ListBounds(AfterSeries(e, ss[0]), ss[1..], key);
    }
  }

  /** The series that follow a schema keep the states in agreement with it. */
  predicate Follows(s: Series, bounds: Schema) {
    if s.hdr.kind == HISTOGRAM then forall p :: p in s.points ==> HistOf(p).bounds == bounds(s.hdr.Key())
    else bounds(s.hdr.Key()) == []
  }

  lemma {:induction false} FollowingAgrees(e: Streams, ss: seq<Series>, bounds: Schema)
    requires AllValid(e) && Agrees(e, bounds)
    requires forall s :: s in ss ==> s.points != [] && Follows(s, bounds)
    ensures Agrees(AfterList(e, ss), bounds)
    decreases |ss|
  {
    hide Header.Key, AfterSeries;
    if ss != [] {
      assert ss[0] in ss && ss[0].points[0] in ss[0].points;
      SeriesBounds(e, ss[0]);
      FollowingAgrees(AfterSeries(e, ss[0]), ss[1..], bounds);
    }
  }

  /** Bounds that agree with later states agree with earlier ones. */
  lemma AgreesEarlier(e: Streams, ss: seq<Series>, bounds: Schema)
    requires AllValid(e) && Begun(e) && (forall s :: s in ss ==> s.points != [])
    requires Agrees(AfterList(e, ss), bounds)
    ensures Agrees(e, bounds)
  {
    hide AfterList;
    forall k | k in e
      ensures e[k].bounds == bounds(k)
    {
      ListBounds(e, ss, k);
    }
  }

  // ----- what arrives -----

  /** What a histogram point measures. */
  datatype Measure = Measure(ts: I64, count: U64, sum: U64, buckets: seq<U64>, bounds: seq<U64>)

  function MeasureOf(p: StreamPoint): Measure {
    Measure(p.ts, HistOf(p).count, HistOf(p).sum, HistOf(p).buckets, HistOf(p).bounds)
  }

  function Measures(ps: seq<StreamPoint>): (r: seq<Measure>)
    ensures |r| == |ps|
  {
    seq(|ps|, i requires 0 <= i < |ps| => MeasureOf(ps[i]))
  }

  /** The same measures, all with these bounds. */
  function MeasuresWith(ps: seq<StreamPoint>, bounds: seq<U64>): (r: seq<Measure>)
    ensures |r| == |ps|
  {
    seq(|ps|, i requires 0 <= i < |ps| => MeasureOf(ps[i]).(bounds := bounds))
  }

  /** The histograms of a series are delivered under the header. */
  predicate GoesTo(s: Series, q: Header) {
    s.hdr.kind == HISTOGRAM && DeliveredHeader(CarriedHeader(s.hdr)) == q
  }

  /** The measures of all histogram series that are delivered under a header, series by series
      in order of first sight. */
  function Sent(ss: seq<Series>, q: Header): seq<Measure> {
    if ss == [] then []
    else (if GoesTo(ss[0], q) then Measures(ss[0].points) else []) + Sent(ss[1..], q)
  }

  /** The same measures, with the bounds that a schema gives to the keys. */
  function SentWith(ss: seq<Series>, q: Header, bounds: Schema): (r: seq<Measure>)
    ensures |r| == |Sent(ss, q)|
  {
    if ss == [] then []
    else
      (if GoesTo(ss[0], q) then MeasuresWith(ss[0].points, bounds(ss[0].hdr.Key())) else [])
        + SentWith(ss[1..], q, bounds)
  }

  lemma BoundsKept(ps: seq<StreamPoint>, bounds: seq<U64>)
    ensures MeasuresWith(ps, bounds) == Measures(ps) <==> forall p :: p in ps ==> HistOf(p).bounds == bounds
  {
    var a, b := MeasuresWith(ps, bounds), Measures(ps);
    assert forall i :: 0 <= i < |ps| ==> (a[i] == b[i] <==> HistOf(ps[i]).bounds == bounds);
    if p :| p in ps && HistOf(p).bounds != bounds {
      var i :| 0 <= i < |ps| && ps[i] == p;
      assert a[i] != b[i];
    }
  }

  /** The histograms under a header survive exactly when each has the bounds of its key. */
  lemma {:induction false} SurviveExactly(ss: seq<Series>, q: Header, bounds: Schema)
    ensures SentWith(ss, q, bounds) == Sent(ss, q) <==>
            forall s :: s in ss && GoesTo(s, q) ==>
              forall p :: p in s.points ==> HistOf(p).bounds == bounds(s.hdr.Key())
  {
    hide Measures, MeasuresWith, GoesTo, Header.Key;
    if ss != [] {
      var s := ss[0];
      SurviveExactly(ss[1..], q, bounds);
      BoundsKept(s.points, bounds(s.hdr.Key()));
      assert ss == [s] + ss[1..];
      if GoesTo(s, q) {
        SameParts(MeasuresWith(s.points, bounds(s.hdr.Key())), Measures(s.points),
          SentWith(ss[1..], q, bounds), Sent(ss[1..], q));
      } else {
        assert [] + SentWith(ss[1..], q, bounds) == SentWith(ss[1..], q, bounds);
        assert [] + Sent(ss[1..], q) == Sent(ss[1..], q);
      }
    }
  }

  lemma SameParts(a: seq<Measure>, b: seq<Measure>, x: seq<Measure>, y: seq<Measure>)
    requires |a| == |b|
    ensures a + x == b + y <==> a == b && x == y
  {
    if a + x == b + y {
      assert a == (a + x)[..|a|] && b == (b + y)[..|b|];
      assert x == (a + x)[|a|..] && y == (b + y)[|b|..];
    }
  }

  lemma {:induction false} MeasuresCarried(st: State, ps: seq<StreamPoint>)
    requires ps != []
    ensures Measures(CarriedHists(st, ps)) == MeasuresWith(ps, StreamBounds(st, ps))
    decreases |ps|
  {
    var c, b, st' := CarriedHists(st, ps), StreamBounds(st, ps), HistState(st, ps[0]);
    assert c[1..] == CarriedHists(st', ps[1..]);
    assert Measures(c) == [MeasureOf(c[0])] + Measures(c[1..]);
    assert MeasuresWith(ps, b) == [MeasureOf(ps[0]).(bounds := b)] + MeasuresWith(ps[1..], b);
    if |ps| > 1 {
      MeasuresCarried(st', ps[1..]);
    }
  }

  lemma MeasuresConcat(xs: seq<StreamPoint>, ys: seq<StreamPoint>)
    ensures Measures(xs + ys) == Measures(xs) + Measures(ys)
  {
  }

  lemma NoMeasures()
    ensures Measures([]) == []
  {
  }

  /** The bounds that a histogram series is carried with are those its key has in the end. */
  lemma CarriedBounds(e: Streams, ss: seq<Series>, bounds: Schema)
    requires AllValid(e) && Begun(e) && ss != [] && (forall s :: s in ss ==> s.points != [])
    requires Agrees(AfterList(e, ss), bounds) && ss[0].hdr.kind == HISTOGRAM
    ensures Measures(CarriedPoints(StartState(e, ss[0]), ss[0])) == MeasuresWith(ss[0].points, bounds(ss[0].hdr.Key()))
  {
    hide Header.Key, AfterList, Measures, MeasuresWith, CarriedHists, AfterSeries, StartState;
    var s, st := ss[0], StartState(e, ss[0]);
    assert AfterList(e, ss) == AfterList(AfterSeries(e, s), ss[1..]) by {
      AfterListFirst(e, ss);
    }
    SeriesBounds(e, s);
    AgreesEarlier(AfterSeries(e, s), ss[1..], bounds);
    StoredBounds(e, s);
    MeasuresCarried(st, s.points);
  }

  lemma AfterListFirst(e: Streams, ss: seq<Series>)
    requires AllValid(e) && ss != [] && forall s :: s in ss ==> s.points != []
    ensures AfterList(e, ss) == AfterList(AfterSeries(e, ss[0]), ss[1..])
  {
  }

  lemma StoredBounds(e: Streams, s: Series)
    requires AllValid(e) && Begun(e) && s.points != [] && s.hdr.kind == HISTOGRAM
    ensures s.hdr.Key() in AfterSeries(e, s)
    ensures AfterSeries(e, s)[s.hdr.Key()].bounds == StreamBounds(StartState(e, s), s.points)
  {
    hide Header.Key, HistsState;
    StartValid(e, s);
    HistsBounds(StartState(e, s), s.points);
  }

  lemma {:induction false} HistogramsCarried(e: Streams, ss: seq<Series>, q: Header, bounds: Schema)
    requires AllValid(e) && Begun(e) && (forall s :: s in ss ==> s.points != []) && q.kind == HISTOGRAM
    requires Agrees(AfterList(e, ss), bounds)
    ensures Measures(Select(DeliveredFrom(CarriedList(e, ss)), q)) == SentWith(ss, q, bounds)
    decreases |ss|
  {
    hide AfterSeries, AfterList, StartState, CarriedHists, Select, SeriesAtoms, Measures, MeasuresWith, Begun, Agrees;
    hide Header.Key;
    NoMeasures();
    if ss == [] {
      NothingSelected(q);
    } else {
      var c := Carried(e, ss[0]);
      CarriedFirst(e, ss);
      var atoms := SeriesAtoms(DeliveredHeader(c.hdr), c.points);
      var rest := DeliveredFrom(CarriedList(AfterSeries(e, ss[0]), ss[1..]));
      SelectConcat(atoms, rest, q);
      SelectSeries(DeliveredHeader(c.hdr), c.points, q);
      MeasuresConcat(Select(atoms, q), Select(rest, q));
      AfterListFirst(e, ss);
      SeriesBounds(e, ss[0]);
      HistogramsCarried(AfterSeries(e, ss[0]), ss[1..], q, bounds);
      if ss[0].hdr.kind == HISTOGRAM {
        CarriedBounds(e, ss, bounds);
      }
    }
  }

  /** The server gets the times, counts, sums, buckets and bounds of all histograms: under every
      header those of the series that the format merges there, concatenated in order of first
      sight, with the bounds that the schema gives to each key. */
  ghost predicate HistogramsArrive(req: WireRequest, got: WireRequest, bounds: Schema) {
    forall q: Header :: q.kind == HISTOGRAM ==>
      Measures(PointsOf(got.scopes, q)) == SentWith(Flatten(req), q, bounds)
  }

  lemma HistogramsDelivered(e: Streams, req: WireRequest, got: WireRequest, bounds: Schema)
    requires AllValid(e) && Begun(e) && Delivers(e, req, got) && Agrees(AfterFrame(e, req), bounds)
    ensures HistogramsArrive(req, got, bounds)
  {
    hide PointsOf, CarriedList, AfterList, Flatten, ScopesAtoms, SentWith, Measures, Begun, Agrees;
    FlattenNonempty(req);
    forall q: Header | q.kind == HISTOGRAM
      ensures Measures(PointsOf(got.scopes, q)) == SentWith(Flatten(req), q, bounds)
    {
      HistogramsCarried(e, Flatten(req), q, bounds);
    }
  }

  lemma {:induction false} AllHistogramsDelivered(
      e: Streams, reqs: seq<WireRequest>, got: seq<Result<WireRequest>>, bounds: Schema)
    requires AllValid(e) && Begun(e) && |got| == |reqs| && AllDelivered(e, reqs, got)
    requires Agrees(AfterAll(e, reqs), bounds)
    ensures forall i :: 0 <= i < |reqs| ==> got[i].Ok? && HistogramsArrive(reqs[i], got[i].value, bounds)
    decreases |reqs|
  {
    hide HistogramsArrive, Delivers, Begun, Agrees, Flatten, AfterList, AllSeries, ScopesAtoms;
    if reqs != [] {
      var req, e' := reqs[0], AfterFrame(e, reqs[0]);
      FlattenNonempty(req);
      FrameBegun(e, req);
      AfterAllSeries(e', reqs[1..]);
      AgreesEarlier(e', AllSeries(reqs[1..]), bounds);
      HistogramsDelivered(e, req, got[0].value, bounds);
      AllHistogramsDelivered(e', reqs[1..], got[1..], bounds);
      assert forall i :: 1 <= i < |reqs| ==> reqs[i] == reqs[1..][i - 1] && got[i] == got[1..][i - 1];
    }
  }

  lemma FrameBegun(e: Streams, req: WireRequest)
    requires AllValid(e) && Begun(e)
    ensures Begun(AfterFrame(e, req))
  {
    hide AfterList, Flatten, ScopesAtoms;
    FlattenNonempty(req);
    ListBounds(e, Flatten(req), []);
  }

  // ----- whole connections -----

  /** The bounds that a connection keeps for every key: those of the first series that gave the
      key a state, none if that was a gauge or a sum. */
  function KeptBounds(reqs: seq<WireRequest>): Schema {
    key => FirstBounds(map[], AllSeries(reqs), key)
  }

  lemma KeptAgrees(reqs: seq<WireRequest>)
    ensures Agrees(AfterAll(map[], reqs), KeptBounds(reqs))
  {
    hide AfterList, AllSeries, FirstBounds;
    AfterAllSeries(map[], reqs);
    forall k | k in AfterAll(map[], reqs)
      ensures AfterAll(map[], reqs)[k].initialized && AfterAll(map[], reqs)[k].bounds == KeptBounds(reqs)(k)
    {
      ListBounds(map[], AllSeries(reqs), k);
    }
  }

  /** Every histogram of a connection arrives with the bounds that its key was first stored
      with; so it survives exactly when it has them (`SurviveExactly`). */
  lemma ConnectionHistograms(reqs: seq<WireRequest>)
    requires Carriable(NEW_SENDER, reqs)
    ensures var got := DecodeAll(map[], EncodeAll(map[], reqs)).1;
      forall i :: 0 <= i < |reqs| ==> got[i].Ok? && HistogramsArrive(reqs[i], got[i].value, KeptBounds(reqs))
  {
    hide HistogramsArrive, KeptBounds, Agrees, AfterAll, AllDelivered, DecodeAll, EncodeAll, Carriable;
    ConnectionRoundTrip(reqs);
    KeptAgrees(reqs);
    AllHistogramsDelivered(map[], reqs, DecodeAll(map[], EncodeAll(map[], reqs)).1, KeptBounds(reqs));
  }

  /** Constant bounds come back: if every key has one set of bounds, which is empty where
      anything but histograms uses it, all histograms of a connection arrive as they were
      measured. */
  lemma ConstantBounds(reqs: seq<WireRequest>, bounds: Schema)
    requires Carriable(NEW_SENDER, reqs) && forall s :: s in AllSeries(reqs) ==> Follows(s, bounds)
    ensures var got := DecodeAll(map[], EncodeAll(map[], reqs)).1;
      forall i, q: Header :: 0 <= i < |reqs| && q.kind == HISTOGRAM ==>
        got[i].Ok? && Measures(PointsOf(got[i].value.scopes, q)) == Sent(Flatten(reqs[i]), q)
  {
    hide HistogramsArrive, AfterAll, AllDelivered, DecodeAll, EncodeAll, Carriable, Follows, AfterList;
    var got := DecodeAll(map[], EncodeAll(map[], reqs)).1;
    ConnectionRoundTrip(reqs);
    FollowingAgrees(map[], AllSeries(reqs), bounds);
    AfterAllSeries(map[], reqs);
    AllHistogramsDelivered(map[], reqs, got, bounds);
    forall i, q: Header | 0 <= i < |reqs| && q.kind == HISTOGRAM
      ensures got[i].Ok? && Measures(PointsOf(got[i].value.scopes, q)) == Sent(Flatten(reqs[i]), q)
    {
      ArrivesUnchanged(reqs, i, got[i].value, q, bounds);
    }
  }

  lemma ArrivesUnchanged(reqs: seq<WireRequest>, i: nat, got: WireRequest, q: Header, bounds: Schema)
    requires i < |reqs| && HistogramsArrive(reqs[i], got, bounds) && q.kind == HISTOGRAM
    requires forall s :: s in AllSeries(reqs) ==> Follows(s, bounds)
    ensures Measures(PointsOf(got.scopes, q)) == Sent(Flatten(reqs[i]), q)
  {
    hide Measures, PointsOf, Flatten, SentWith, Sent, AllSeries, GoesTo, Header.Key;
    SeriesAmong(reqs, i);
    forall s, p | s in Flatten(reqs[i]) && GoesTo(s, q) && p in s.points
      ensures HistOf(p).bounds == bounds(s.hdr.Key())
    {
      assert Follows(s, bounds);
      assert s.hdr.kind == HISTOGRAM by {
        GoesToKind(s, q);
      }
    }
    SurviveExactly(Flatten(reqs[i]), q, bounds);
  }

  lemma GoesToKind(s: Series, q: Header)
    ensures GoesTo(s, q) ==> s.hdr.kind == HISTOGRAM
  {
  }

  lemma {:induction false} SeriesAmong(reqs: seq<WireRequest>, i: nat)
    requires i < |reqs|
    ensures forall s :: s in Flatten(reqs[i]) ==> s in AllSeries(reqs)
    decreases i
  {
    hide Flatten;
    if i > 0 {
      SeriesAmong(reqs[1..], i - 1);
    }
  }

  /** A change of kind below the series cap loses bounds: once a gauge or a sum is the first to
      use a key, every histogram of that key arrives with no bounds for the rest of the
      connection, and survives exactly when it has none. */
  lemma NumberFirst(reqs: seq<WireRequest>, i: nat, h: Series)
    requires i < |AllSeries(reqs)| && AllSeries(reqs)[i].hdr.kind != HISTOGRAM
    requires AllSeries(reqs)[i].hdr.Key() == h.hdr.Key() && h.hdr.Key() !in KeySet(AllSeries(reqs)[..i])
    requires |KeySet(AllSeries(reqs)[..i])| < MAX_SERIES
    ensures KeptBounds(reqs)(h.hdr.Key()) == []
    ensures MeasuresWith(h.points, KeptBounds(reqs)(h.hdr.Key())) == Measures(h.points) <==>
            forall p :: p in h.points ==> HistOf(p).bounds == []
  {
    hide KeySet, Measures, MeasuresWith, AllSeries, FirstBounds, Header.Key;
    NumberStored(map[], AllSeries(reqs), i);
    BoundsKept(h.points, []);
  }

  lemma {:induction false} NumberStored(e: Streams, ss: seq<Series>, i: nat)
    requires AllValid(e) && (forall s :: s in ss ==> s.points != []) && i < |ss| && ss[i].hdr.kind != HISTOGRAM
    requires ss[i].hdr.Key() !in e.Keys + KeySet(ss[..i]) && |e.Keys + KeySet(ss[..i])| < MAX_SERIES
    ensures FirstBounds(e, ss, ss[i].hdr.Key()) == []
    decreases |ss|
  {
    hide Header.Key, AfterSeries, KeySet;
    var front := ss[..i];
    if i == 0 {
      NoKeys();
      assert e.Keys + KeySet(front) == e.Keys;
      assert |e.Keys| == |e|;
    } else {
      var e' := AfterSeries(e, ss[0]);
      KeySetFirst(front);
      AfterKeys(e, ss[0]);
      assert front[1..] == ss[1..][..i - 1];
      SubsetSize(e'.Keys + KeySet(front[1..]), e.Keys + KeySet(front));
      NumberStored(e', ss[1..], i - 1);
    }
  }

  /** No histogram point ever comes back with attributes. */
  lemma HistogramAttributesLost(e: Streams, req: WireRequest, got: WireRequest, h: Header)
    requires AllValid(e) && Delivers(e, req, got) && h.kind == HISTOGRAM && h.attrs != []
    ensures PointsOf(got.scopes, h) == []
  {
    hide PointsOf, CarriedFrame;
    AttributesErased(CarriedFrame(e, req), h);
  }

  lemma {:induction false} AttributesErased(cs: seq<Series>, h: Header)
    requires h.kind == HISTOGRAM && h.attrs != []
    ensures Select(DeliveredFrom(cs), h) == []
  {
    hide Select, SeriesAtoms;
    if cs == [] {
      NothingSelected(h);
    } else {
      SelectConcat(SeriesAtoms(DeliveredHeader(cs[0].hdr), cs[0].points), DeliveredFrom(cs[1..]), h);
      SelectSeries(DeliveredHeader(cs[0].hdr), cs[0].points, h);
      AttributesErased(cs[1..], h);
    }
  }
}
