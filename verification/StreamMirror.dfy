/** The mirror invariant between an encoder's and a decoder's states, kept by every frame,
    also across the series cap. */
module StreamMirror {
  import opened Words
  import opened Gorilla
  import opened PointStream
  import opened ByteCodec
  import opened Dictionary
  import opened Labels
  import opened Protocol
  import opened StreamFormat
  import opened StreamRoundTrip

  /** An encoder on one connection, and the keys it must not use for histograms: beyond the
      series cap number series are stateless, so they move the decoder's state alone. */
  datatype Sender = Sender(states: Streams, loose: set<Bytes>)

  const NEW_SENDER := Sender(map[], {})

  function SentSeries(x: Sender, s: Series): Sender
    requires AllValid(x.states) && s.points != []
  {
    var key := s.hdr.Key();
    Sender(AfterSeries(x.states, s),
      if |x.states| < MAX_SERIES then x.loose
      else if s.hdr.kind == HISTOGRAM then x.loose - {key}
      else x.loose + {key})
  }

  function SentList(x: Sender, ss: seq<Series>): (x': Sender)
    requires AllValid(x.states) && forall s :: s in ss ==> s.points != []
    ensures x'.states == AfterList(x.states, ss)
    decreases |ss|
  {
    if ss == [] then x else SentList(SentSeries(x, ss[0]), ss[1..])
  }

  function SentRequest(x: Sender, req: WireRequest): (x': Sender)
    requires AllValid(x.states)
    ensures x'.states == AfterFrame(x.states, req)
  {
    FlattenNonempty(req);
    SentList(x, Flatten(req))
  }

  /** A histogram series continues from a state that the decoder still shares. Below the cap
      any series does, whatever kinds its key has had. */
  predicate Shared(x: Sender, s: Series) {
    |x.states| >= MAX_SERIES && s.hdr.kind == HISTOGRAM && s.hdr.Key() in x.states ==> s.hdr.Key() !in x.loose
  }

  predicate AllShared(x: Sender, ss: seq<Series>)
    requires AllValid(x.states) && forall s :: s in ss ==> s.points != []
    decreases |ss|
  {
    ss == [] || (Shared(x, ss[0]) && AllShared(SentSeries(x, ss[0]), ss[1..]))
  }

  /** Below the series cap both sides hold equal states for the same keys. Beyond it the encoder
      consults only those of histogram series, and they agree unless they are loose. */
  ghost predicate Mirror(x: Sender, d: Streams) {
    && AllValid(x.states) && AllValid(d) && x.states.Keys <= d.Keys
    && (forall k :: k in x.states ==> x.states[k].initialized && (k !in x.loose ==> x.states[k].SameHist(d[k])))
    && (|x.states| < MAX_SERIES ==>
          && x.loose == {} && x.states.Keys == d.Keys
          && forall k :: k in x.states ==> x.states[k].Equal(d[k]))
  }

  lemma FreshMirror()
    ensures Mirror(NEW_SENDER, map[])
  {
  }

  predicate PointsFit(s: Series) {
    && s.points != []
    && if s.hdr.kind == HISTOGRAM then
         |s.points| <= MAX_HIST_POINTS && forall p :: p in s.points ==> HistFits(p)
       else |s.points| < MAX_POINTS
  }

  /** Within the decoder's limits, and with its strings in the table. */
  predicate SeriesFits(strs: seq<Bytes>, s: Series) {
    |strs| <= MAX_DICTIONARY && Interns(strs, s.hdr) && HeaderFits(s.hdr) && PointsFit(s)
  }

  /** The points a decoder gets: of a number series the timestamps and values. */
  function CarriedPoints(st: State, s: Series): seq<StreamPoint> {
    if s.hdr.kind == HISTOGRAM then CarriedHists(st, s.points) else StreamPoints(NumberPoints(s.points))
  }

  function Prev(d: Streams, key: Bytes): Option<State> {
    if key in d then Some(d[key]) else None
  }

  lemma CarriedKey(h: Header)
    ensures CarriedHeader(h).Key() == h.Key() && CarriedHeader(h).kind == h.kind
  {
  }

  /** The points of one series read back from mirrored states, and the states after it agree in
      what its kind reads; if they were equal, they are equal again. */
  lemma PointsRead(x: Sender, d: Streams, s: Series, rest: Bytes)
    requires Mirror(x, d) && PointsFit(s) && Shared(x, s)
    ensures StartState(x.states, s).Valid()
    ensures var key, st := s.hdr.Key(), StartState(x.states, s);
      var prev := Prev(d, key);
      var r := if s.hdr.kind == HISTOGRAM then ParseHists(prev, PointsBytes(x.states, s) + rest)
               else ParseNumber(prev, PointsBytes(x.states, s) + rest);
      && r.Ok? && r.value.0.0 == CarriedPoints(st, s) && r.value.1 == rest
      && EndState(st, s).initialized
      && (s.hdr.kind == HISTOGRAM ==> EndState(st, s).SameHist(r.value.0.1))
      && (|x.states| < MAX_SERIES ==> EndState(st, s).Equal(r.value.0.1))
  {
    hide NumberBytes, ParseNumber, NumberState, HistsBytes, ParseHists, HistsState, StreamPoints;
    hide CarriedHists, SeriesKey;
    StartValid(x.states, s);
    var key, st := s.hdr.Key(), StartState(x.states, s);
    var prev := Prev(d, key);
    if s.hdr.kind == HISTOGRAM {
      HistsRoundTrip(st, prev, s.points, rest);
      HistsInitialized(st, s.points);
      HistsStateValid(st, s.points);
      ParsedHistsValid(prev, PointsBytes(x.states, s) + rest);
    } else {
      NumberRoundTrip(st, prev, NumberPoints(s.points), rest);
      NumberInitialized(st, NumberPoints(s.points));
    }
  }

  lemma {:induction false} HistsInitialized(st: State, ps: seq<StreamPoint>)
    ensures st.initialized || ps != [] ==> HistsState(st, ps).initialized
    decreases |ps|
  {
    if ps != [] {
      HistsInitialized(HistState(st, ps[0]), ps[1..]);
    }
  }

  lemma NumberInitialized(st: State, pts: seq<Point>)
    requires st.Valid() && pts != []
    ensures NumberState(st, pts).initialized
  {
    if st.initialized {
      AfterInitialized(st, pts);
    } else {
      AfterInitialized(Keyframed(st, pts[0]), pts[1..]);
    }
  }

  lemma {:induction false} AfterInitialized(st: State, pts: seq<Point>)
    requires st.Valid() && st.initialized
    ensures AfterPoints(st, pts).initialized
    decreases |pts|
  {
    if pts != [] {
      AfterInitialized(NextState(st, pts[0]), pts[1..]);
    }
  }

  /** Updating both sides with agreeing states keeps the mirror; so does an update of the
      decoder alone, which loosens the key. */
  lemma MirrorStep(x: Sender, d: Streams, s: Series, st: State)
    requires Mirror(x, d) && s.points != [] && st.Valid() && StartState(x.states, s).Valid()
    requires var end := EndState(StartState(x.states, s), s);
      && end.initialized && (s.hdr.kind == HISTOGRAM ==> end.SameHist(st))
      && (|x.states| < MAX_SERIES ==> end.Equal(st))
    ensures Mirror(SentSeries(x, s), d[s.hdr.Key() := st])
  {
    hide EndState, SeriesKey, StartState;
    GrowsOnly(x.states, s);
    if s.hdr.kind == HISTOGRAM || |x.states| < MAX_SERIES {
      StoredStep(x, d, s.hdr.Key(), EndState(StartState(x.states, s), s), st, SentSeries(x, s).loose);
    }
  }

  /** Both sides store a state. */
  lemma StoredStep(x: Sender, d: Streams, key: Bytes, end: State, st: State, loose: set<Bytes>)
    requires Mirror(x, d) && st.Valid() && end.Valid() && end.initialized && end.SameHist(st)
    requires loose == if |x.states| < MAX_SERIES then x.loose else x.loose - {key}
    requires |x.states| < MAX_SERIES ==> end.Equal(st)
    ensures Mirror(Sender(x.states[key := end], loose), d[key := st])
  {
    SubsetSize(x.states.Keys, x.states[key := end].Keys);
    assert |x.states| == |x.states.Keys| && |x.states[key := end]| == |x.states[key := end].Keys|;
  }

  /** The encoder never forgets a series before it is reset. */
  lemma GrowsOnly(e: Streams, s: Series)
    requires AllValid(e) && s.points != []
    ensures e.Keys <= AfterSeries(e, s).Keys && |e| <= |AfterSeries(e, s)|
  {
    hide EndState, SeriesKey, StartState;
    var e' := AfterSeries(e, s);
    assert e.Keys <= e'.Keys;
    SubsetSize(e.Keys, e'.Keys);
    assert |e| == |e.Keys| && |e'| == |e'.Keys|;
  }

  lemma AfterKeys(e: Streams, s: Series)
    requires AllValid(e) && s.points != []
    ensures AfterSeries(e, s).Keys ==
      if s.hdr.kind == HISTOGRAM || |e| < MAX_SERIES then e.Keys + {s.hdr.Key()} else e.Keys
  {
    hide EndState, StartState, Header.Key;
  }

  lemma {:induction false} SubsetSize<T>(a: set<T>, b: set<T>)
    requires a <= b
    ensures |a| <= |b|
  {
    if a != {} {
      var x :| x in a;
      SubsetSize(a - {x}, b - {x});
    }
  }

  /** One series, from mirrored states to mirrored states. */
  lemma SeriesRoundTrip(x: Sender, d: Streams, strs: seq<Bytes>, s: Series, rest: Bytes)
    requires Mirror(x, d) && SeriesFits(strs, s) && Shared(x, s)
    ensures var r := ParseSeries(d, strs, SeriesBytes(x.states, strs, s) + rest);
      && r.Ok? && r.value.0.0 == CarriedHeader(s.hdr) && r.value.0.1 == CarriedPoints(StartState(x.states, s), s)
      && r.value.1 == rest
      && Mirror(SentSeries(x, s), d[s.hdr.Key() := r.value.0.2])
  {
    hide HeaderBytes, ParseHeader, PointsBytes, ParseHists, ParseNumber, CarriedPoints, EndState, SeriesKey;
    var e := x.states;
    var b := SeriesBytes(e, strs, s) + rest;
    var points := PointsBytes(e, s);
    ConcatAssoc(HeaderBytes(strs, s.hdr), points, rest);
    HeaderRoundTrip(strs, s.hdr, points + rest);
    CarriedKey(s.hdr);
    PointsRead(x, d, s, rest);
    ParsedStateValid(d, strs, b);
    MirrorStep(x, d, s, ParseSeries(d, strs, b).value.0.2);
  }

  /** What a decoder gets of a list of series encoded from state `e`. */
  function CarriedList(e: Streams, ss: seq<Series>): seq<Series>
    requires AllValid(e) && forall s :: s in ss ==> s.points != []
    decreases |ss|
  {
    if ss == [] then [] else [Carried(e, ss[0])] + CarriedList(AfterSeries(e, ss[0]), ss[1..])
  }

  function Carried(e: Streams, s: Series): Series {
    Series(CarriedHeader(s.hdr), CarriedPoints(StartState(e, s), s))
  }

  /** What a decoder gets of the series of a whole request. */
  function CarriedFrame(e: Streams, req: WireRequest): seq<Series>
    requires AllValid(e)
  {
    PushAllNonempty(ScopesAtoms(req.scopes));
    CarriedList(e, Flatten(req))
  }

  /** Rebuilding from a list of decoded series. */
  function BuildAll(bd: Build, cs: seq<Series>): (r: Result<Build>)
    requires bd.Valid()
    ensures r.Ok? ==> r.value.Valid()
    decreases |cs|
  {
    if cs == [] then Ok(bd)
    else match AddSeries(bd, cs[0].hdr, cs[0].points)
      case Err => Err
      case Ok(bd') => BuildAll(bd', cs[1..])
  }

  predicate ListFits(strs: seq<Bytes>, ss: seq<Series>) {
    forall s :: s in ss ==> SeriesFits(strs, s)
  }

  /** The keys of a list of series. */
  function KeySet(ss: seq<Series>): set<Bytes> {
    set s | s in ss :: s.hdr.Key()
  }

  lemma KeySetFirst(ss: seq<Series>)
    requires ss != []
    ensures KeySet(ss) == {ss[0].hdr.Key()} + KeySet(ss[1..])
  {
    hide Header.Key;
    assert ss == [ss[0]] + ss[1..];
  }

  /** Decoded from state `d`, a list of series from `x` is rebuilt as it is carried; the states
      mirror each other after it, and the decoder has a state for every key in it. */
  ghost predicate ListArrives(x: Sender, d: Streams, bd: Build, strs: seq<Bytes>, ss: seq<Series>, rest: Bytes)
    requires AllValid(x.states) && AllValid(d) && bd.Valid() && Ready(strs, ss)
  {
    var (d', built) := DecodeLoop(d, bd, strs, ListBytes(x.states, strs, ss) + rest, |ss|);
    && built == BuildAll(bd, CarriedList(x.states, ss)) && Mirror(SentList(x, ss), d')
    && d'.Keys == d.Keys + KeySet(ss)
  }

  /** A whole list of series, each step from mirrored states to mirrored states. */
  lemma {:induction false} ListRoundTrip(
      x: Sender, d: Streams, bd: Build, strs: seq<Bytes>, ss: seq<Series>, rest: Bytes)
    requires Mirror(x, d) && AllValid(x.states) && AllValid(d) && ListFits(strs, ss) && bd.Valid()
    requires Ready(strs, ss) && AllShared(x, ss) && BuildAll(bd, CarriedList(x.states, ss)).Ok?
    ensures ListArrives(x, d, bd, strs, ss, rest)
    decreases |ss|
  {
    hide SeriesBytes, ParseSeries, AddSeries, CarriedPoints, CarriedHeader, AfterSeries, SeriesFits, Mirror;
    hide Header.Key, Shared, ListArrives, ListBytes;
    if ss == [] {
      NothingArrives(x, d, bd, strs, rest);
    } else {
      var s, e' := ss[0], AfterSeries(x.states, ss[0]);
      var tail := ListBytes(e', strs, ss[1..]) + rest;
      SeriesRoundTrip(x, d, strs, s, tail);
      var d' := d[s.hdr.Key() := ParseSeries(d, strs, SeriesBytes(x.states, strs, s) + tail).value.0.2];
      MirrorValid(SentSeries(x, s), d');
      CarriedFirst(x.states, ss);
      var bd' := AddSeries(bd, CarriedHeader(s.hdr), CarriedPoints(StartState(x.states, s), s)).value;
      ListRoundTrip(SentSeries(x, s), d', bd', strs, ss[1..], rest);
      ListFirst(x, d, bd, strs, ss, rest);
    }
  }

  lemma NothingArrives(x: Sender, d: Streams, bd: Build, strs: seq<Bytes>, rest: Bytes)
    requires Mirror(x, d) && AllValid(x.states) && AllValid(d) && bd.Valid()
    ensures ListArrives(x, d, bd, strs, [], rest)
  {
    hide Mirror, Header.Key;
    assert CarriedList(x.states, []) == [];
  }

  /** One series and the rest of the list. */
  lemma ListFirst(x: Sender, d: Streams, bd: Build, strs: seq<Bytes>, ss: seq<Series>, rest: Bytes)
    requires AllValid(x.states) && AllValid(d) && bd.Valid() && ss != [] && Ready(strs, ss)
    requires var s, x' := ss[0], SentSeries(x, ss[0]);
      var r := ParseSeries(d, strs, SeriesBytes(x.states, strs, s) + (ListBytes(x'.states, strs, ss[1..]) + rest));
      && r.Ok? && r.value.0.0 == CarriedHeader(s.hdr) && r.value.0.1 == CarriedPoints(StartState(x.states, s), s)
      && r.value.1 == ListBytes(x'.states, strs, ss[1..]) + rest
      && var d', added := d[s.hdr.Key() := r.value.0.2], AddSeries(bd, r.value.0.0, r.value.0.1);
         AllValid(d') && added.Ok? && ListArrives(x', d', added.value, strs, ss[1..], rest)
    ensures ListArrives(x, d, bd, strs, ss, rest)
  {
    hide SeriesBytes, ParseSeries, AddSeries, CarriedPoints, CarriedHeader, AfterSeries, Mirror, Header.Key, KeySet;
    hide StartState;
    var s, x' := ss[0], SentSeries(x, ss[0]);
    ConcatAssoc(SeriesBytes(x.states, strs, s), ListBytes(x'.states, strs, ss[1..]), rest);
    CarriedKey(s.hdr);
    CarriedFirst(x.states, ss);
    KeySetFirst(ss);
  }

  lemma NoKeys()
    ensures KeySet([]) == {}
  {
  }

  lemma MirrorValid(x: Sender, d: Streams)
    requires Mirror(x, d)
    ensures AllValid(x.states) && AllValid(d)
  {
  }

  lemma CarriedFirst(e: Streams, ss: seq<Series>)
    requires AllValid(e) && ss != [] && forall s :: s in ss ==> s.points != []
    ensures var c := CarriedList(e, ss);
      && c != [] && c[0] == Carried(e, ss[0])
      && c[1..] == CarriedList(AfterSeries(e, ss[0]), ss[1..])
  {
  }

  /** A request that the format can carry: every size within the decoder's limits. */
  ghost predicate RequestFits(req: WireRequest) {
    var ss, res := Flatten(req), SortedPairs(req.attrs);
    var strs := FrameTable(req.agentId, res, ss);
    && Fits(strs) && |res| <= MAX_ATTRIBUTES && |ss| <= MAX_FRAME_SERIES
    && ListFits(strs, ss)
  }

  /** No histogram series of a request continues from a loose state. */
  ghost predicate RequestShared(x: Sender, req: WireRequest)
    requires AllValid(x.states)
  {
    FlattenNonempty(req);
    AllShared(x, Flatten(req))
  }

  /** One frame: decoded from mirrored states it gives the encoded agent, attributes, export
      time and series, rebuilt, and the states mirror each other again. */
  lemma FrameRoundTrip(x: Sender, d: Streams, req: WireRequest)
    requires Mirror(x, d) && RequestFits(req) && RequestShared(x, req)
    requires BuildAll(EMPTY_BUILD, CarriedFrame(x.states, req)).Ok?
    ensures var (d', r) := DecodeFrame(d, FrameBytes(x.states, req));
      && r == Ok(Request(req.agentId, req.attrs, req.exportTime,
                         BuildAll(EMPTY_BUILD, CarriedFrame(x.states, req)).value.scopes))
      && Mirror(SentRequest(x, req), d') && d'.Keys == d.Keys + KeySet(Flatten(req))
  {
    hide Flatten, SortedPairs, FrameTable, TableBytes, ParseTable, BodyBytes, Mirror, ListFits, CarriedList, BuildAll;
    hide DecodeBody, AfterList, ScopesAtoms, SentList, AllShared, KeySet;
    var ss, res := Flatten(req), SortedPairs(req.attrs);
    var strs := FrameTable(req.agentId, res, ss);
    MirrorValid(x, d);
    FrameReady(req);
    FlattenNonempty(req);
    TableRoundTrip(strs, BodyBytes(x.states, strs, req.agentId, req.exportTime, res, ss));
    BodyRoundTrip(x, d, strs, req.agentId, req.exportTime, res, ss);
    SortedPairsRoundTrip(req.attrs);
  }

  lemma FlattenNonempty(req: WireRequest)
    ensures forall s :: s in Flatten(req) ==> s.points != []
  {
    PushAllNonempty(ScopesAtoms(req.scopes));
  }

  lemma BodyRoundTrip(x: Sender, d: Streams, strs: seq<Bytes>, agent: Bytes, time: I64, res: seq<Pair>, ss: seq<Series>)
    requires Mirror(x, d) && Fits(strs) && ListFits(strs, ss)
    requires agent in strs && forall s :: s in PairStrings(res) ==> s in strs
    requires |res| <= MAX_ATTRIBUTES && |ss| <= MAX_FRAME_SERIES
    requires Ready(strs, ss) && AllShared(x, ss) && BuildAll(EMPTY_BUILD, CarriedList(x.states, ss)).Ok?
    ensures var (d', r) := DecodeBody(d, strs, BodyBytes(x.states, strs, agent, time, res, ss));
      && r == Ok(Request(agent, AttrMap(res), time, BuildAll(EMPTY_BUILD, CarriedList(x.states, ss)).value.scopes))
      && Mirror(SentList(x, ss), d') && d'.Keys == d.Keys + KeySet(ss)
  {
    hide KeySet, RefBytes, ParseRef, Uvarint, ParseUvarint, PairsBytes, ParsePairs, ListBytes, DecodeLoop;
    hide Mirror, ListFits, CarriedList, BuildAll, AfterList, AttrMap, PairStrings, SentList, AllShared;
    MirrorValid(x, d);
    var list := ListBytes(x.states, strs, ss);
    var b3 := Uvarint(|ss|) + list;
    var b2 := PairsBytes(strs, res) + b3;
    RefRoundTrip(strs, agent, Uvarint(Unsigned(time)) + b2);
    UvarintRoundTrip(Unsigned(time), b2);
    PairsRoundTrip(strs, res, b3);
    UvarintRoundTrip(|ss|, list);
    assert list + [] == list;
    ListRoundTrip(x, d, EMPTY_BUILD, strs, ss, []);
  }
}
