/** The frame format of the stream codec (`internal/transport/codec/stream.go`) as
    functions: what an encoder writes from a given state, and what a decoder makes of
    arbitrary bytes. The classes in StreamEncoder and StreamDecoder are proved against
    these functions; StreamRoundTrip proves that one undoes the other. */
module StreamFormat {
  import opened Words
  import opened BitStream
  import opened Gorilla
  import opened PointStream
  import opened ByteCodec
  import opened Dictionary
  import opened Labels
  import opened Protocol

  type Hist = HistPoint<U64, U64>
  type WireScope = ScopeMetrics<U64, U64>
  type WireMetric = Metric<U64, U64>
  type WireData = Data<U64, U64>
  type WireRequest = Request<U64, U64>

  const GAUGE: Byte := 0
  const SUM: Byte := 1
  const HISTOGRAM: Byte := 2

  const MAX_SERIES := 100000
  const MAX_ATTRIBUTES := 0x400
  const MAX_FRAME_SERIES := 0x10_0000
  const MAX_HIST_POINTS := 0x1_0000
  const MAX_BUCKETS := 0x400

  // ----- series -----

  datatype StreamPoint = StreamPoint(ts: I64, val: U64, hist: Option<Hist>)

  datatype Header = Header(
    scope: Bytes, version: Bytes, name: Bytes, unit: Bytes, desc: Bytes,
    kind: Byte, temporality: nat, monotonic: bool, attrs: seq<Pair>)
  {
    function Key(): Bytes {
      SeriesKey(scope, name, attrs)
    }
  }

  datatype Series = Series(hdr: Header, points: seq<StreamPoint>)
  datatype Atom = Atom(hdr: Header, point: StreamPoint)

  /** The data points of a metric, each with the header of the series it belongs to. */
  function MetricAtoms(sm: WireScope, m: WireMetric): seq<Atom> {
    match m.data
    case NoData => []
    case Gauge(ps) => NumberAtoms(sm, m, GAUGE, 0, false, ps)
    case Sum(t, mono, ps) => NumberAtoms(sm, m, SUM, t, mono, ps)
    case Histogram(t, hs) => HistAtoms(sm, m, t, hs)
  }

  function NumberAtoms(sm: WireScope, m: WireMetric, kind: Byte, temporality: nat, monotonic: bool,
                       ps: seq<NumberPoint<U64>>): seq<Atom> {
    seq(|ps|, i requires 0 <= i < |ps| =>
      Atom(HeaderOf(sm, m, kind, temporality, monotonic, ps[i].attrs), StreamPoint(ps[i].ts, ps[i].val, None)))
  }

  function HistAtoms(sm: WireScope, m: WireMetric, temporality: nat, hs: seq<Hist>): seq<Atom> {
    seq(|hs|, i requires 0 <= i < |hs| =>
      Atom(HeaderOf(sm, m, HISTOGRAM, temporality, false, hs[i].attrs), StreamPoint(hs[i].ts, 0, Some(hs[i]))))
  }

  function HeaderOf(sm: WireScope, m: WireMetric, kind: Byte, temporality: nat, monotonic: bool, attrs: Attrs): Header {
    Header(sm.scope, sm.version, m.name, m.unit, m.desc, kind, temporality, monotonic, SortedPairs(attrs))
  }

  function MetricsAtoms(sm: WireScope, ms: seq<WireMetric>): seq<Atom> {
    if ms == [] then [] else MetricsAtoms(sm, ms[..|ms| - 1]) + MetricAtoms(sm, ms[|ms| - 1])
  }

  /** All data points of a request, in order. */
  function ScopesAtoms(sms: seq<WireScope>): seq<Atom> {
    if sms == [] then []
    else ScopesAtoms(sms[..|sms| - 1]) + MetricsAtoms(sms[|sms| - 1], sms[|sms| - 1].metrics)
  }

  function Keys(ss: seq<Series>): (ks: seq<Bytes>)
    ensures |ks| == |ss|
  {
    seq(|ss|, i requires 0 <= i < |ss| => ss[i].hdr.Key())
  }

  /** One point goes to the series of its key, or opens a new series at the end. */
  function Pushed(out: seq<Series>, a: Atom): seq<Series> {
    var key := a.hdr.Key();
    if key in Keys(out) then
      var i := IndexOf(Keys(out), key);
      out[i := out[i].(points := out[i].points + [a.point])]
    else out + [Series(a.hdr, [a.point])]
  }

  function PushAll(atoms: seq<Atom>): seq<Series> {
    if atoms == [] then [] else Pushed(PushAll(atoms[..|atoms| - 1]), atoms[|atoms| - 1])
  }

  /** `flatten`: per-attribute-set series in first-seen order. */
  function Flatten(req: WireRequest): seq<Series> {
    PushAll(ScopesAtoms(req.scopes))
  }

  // ----- encoding -----

  type Streams = map<Bytes, State>

  predicate AllValid(e: Streams) {
    forall k :: k in e ==> e[k].hasWindow ==> e[k].lz + e[k].tz <= 63
  }

  function StateAt(e: Streams, key: Bytes): State {
    if key in e then e[key] else FRESH
  }

  function RefBytes(strs: seq<Bytes>, s: Bytes): Bytes
    requires s in strs
  {
    Uvarint(RefOf(strs, s))
  }

  function RefsBytes(strs: seq<Bytes>, ss: seq<Bytes>): Bytes
    requires forall s :: s in ss ==> s in strs
  {
    if ss == [] then [] else RefBytes(strs, ss[0]) + RefsBytes(strs, ss[1..])
  }

  function PairStrings(ps: seq<Pair>): seq<Bytes> {
    if ps == [] then [] else [ps[0].0, ps[0].1] + PairStrings(ps[1..])
  }

  /** `[uvarint count][(k,v) refs]` */
  function PairsBytes(strs: seq<Bytes>, ps: seq<Pair>): Bytes
    requires forall s :: s in PairStrings(ps) ==> s in strs
  {
    Uvarint(|ps|) + RefsBytes(strs, PairStrings(ps))
  }

  function Names(h: Header): seq<Bytes> {
    [h.scope, h.version, h.name, h.unit, h.desc]
  }

  function HeaderStrings(h: Header): seq<Bytes> {
    Names(h) + PairStrings(h.attrs)
  }

  predicate Interns(strs: seq<Bytes>, h: Header) {
    forall s :: s in HeaderStrings(h) ==> s in strs
  }

  lemma InternedParts(strs: seq<Bytes>, h: Header)
    requires Interns(strs, h)
    ensures h.scope in strs && h.version in strs && h.name in strs && h.unit in strs && h.desc in strs
    ensures forall s :: s in Names(h) ==> s in strs
    ensures forall s :: s in PairStrings(h.attrs) ==> s in strs
  {
    var all := HeaderStrings(h);
    assert forall i :: 0 <= i < 5 ==> all[i] == Names(h)[i] && all[i] in all;
    assert Names(h)[0] == h.scope && Names(h)[1] == h.version && Names(h)[2] == h.name;
    assert Names(h)[3] == h.unit && Names(h)[4] == h.desc;
    assert forall s :: s in PairStrings(h.attrs) ==> s in all;
  }

  function SumFlags(h: Header): Byte {
    h.temporality % 128 * 2 + (if h.monotonic then 1 else 0)
  }

  function HeaderBytes(strs: seq<Bytes>, h: Header): Bytes
    requires Interns(strs, h)
  {
    RefsBytes(strs, Names(h))
      + ([h.kind] + ((if h.kind == SUM then [SumFlags(h)] else []) + PairsBytes(strs, h.attrs)))
  }

  function ToPoint(p: StreamPoint): Point {
    Point(p.ts, p.val)
  }

  function NumberPoints(ps: seq<StreamPoint>): (r: seq<Point>)
    ensures |r| == |ps|
  {
    seq(|ps|, i requires 0 <= i < |ps| => ToPoint(ps[i]))
  }

  /** The state right after a raw keyframe point. */
  function Keyframed(st: State, p: Point): State {
    st.(initialized := true, lastTs := p.ts, lastDelta := 0, lastVal := p.val, hasWindow := false)
  }

  function RawPoint(p: Point): Bytes {
    Uvarint(Zigzag(p.ts)) + BigEndian(p.val, 8)
  }

  function Block(b: Bits): Bytes {
    Uvarint(|Pack(b)|) + Pack(b)
  }

  /** `[tsLen][ts bits][valLen][value bits]` of points that ride the two streams. */
  function StreamsBytes(st: State, pts: seq<Point>): Bytes
    requires st.Valid()
  {
    Block(TsBits(st, pts)) + Block(ValBits(st, pts))
  }

  /** `[pointCount][rawFlag][raw point?][ts bitstream][val bitstream]` */
  function NumberBytes(st: State, pts: seq<Point>): Bytes
    requires st.Valid() && pts != []
  {
    Uvarint(|pts|) +
      if st.initialized then [0] + StreamsBytes(st, pts)
      else [1] + (RawPoint(pts[0]) + StreamsBytes(Keyframed(st, pts[0]), pts[1..]))
  }

  function NumberState(st: State, pts: seq<Point>): (st': State)
    requires st.Valid() && pts != []
    ensures st'.Valid() && st'.bounds == st.bounds
  {
    if st.initialized then AfterPoints(st, pts) else AfterPoints(Keyframed(st, pts[0]), pts[1..])
  }

  const NO_HIST: Hist := HistPoint(map[], 0, 0, 0, [], [], 0, 0)

  function HistOf(p: StreamPoint): Hist {
    if p.hist.Some? then p.hist.value else NO_HIST
  }

  function FloatsBytes(vs: seq<U64>): Bytes {
    if vs == [] then [] else BigEndian(vs[0], 8) + FloatsBytes(vs[1..])
  }

  function UvarintsBytes(vs: seq<U64>): Bytes {
    if vs == [] then [] else Uvarint(vs[0]) + UvarintsBytes(vs[1..])
  }

  /** Count and sum, common to keyframe and delta points. */
  function TotalsBytes(h: Hist): Bytes {
    Uvarint(h.count) + BigEndian(h.sum, 8)
  }

  function BoundsBytes(h: Hist): Bytes {
    Uvarint(|h.bounds|) + FloatsBytes(h.bounds)
  }

  function BucketsBytes(h: Hist): Bytes {
    Uvarint(|h.buckets|) + UvarintsBytes(h.buckets)
  }

  function HistPointBytes(st: State, p: StreamPoint): Bytes {
    var h := HistOf(p);
    if st.initialized then
      [0] + (Uvarint(Zigzag(Sub64(p.ts, st.lastTs))) + (TotalsBytes(h) + BucketsBytes(h)))
    else
      [1] + (Uvarint(Zigzag(p.ts)) + (TotalsBytes(h) + (BoundsBytes(h) + BucketsBytes(h))))
  }

  function HistState(st: State, p: StreamPoint): State {
    st.(initialized := true, lastTs := p.ts, bounds := if st.initialized then st.bounds else HistOf(p).bounds)
  }

  function HistsBytes(st: State, ps: seq<StreamPoint>): Bytes
    decreases |ps|
  {
    if ps == [] then [] else HistPointBytes(st, ps[0]) + HistsBytes(HistState(st, ps[0]), ps[1..])
  }

  function HistsState(st: State, ps: seq<StreamPoint>): State
    decreases |ps|
  {
    if ps == [] then st else HistsState(HistState(st, ps[0]), ps[1..])
  }

  /** The state a series is encoded from: beyond the series cap, number series start afresh. */
  function StartState(e: Streams, s: Series): State {
    if s.hdr.kind == HISTOGRAM || |e| < MAX_SERIES then StateAt(e, s.hdr.Key()) else FRESH
  }

  lemma StartValid(e: Streams, s: Series)
    requires AllValid(e)
    ensures StartState(e, s).Valid()
  {
  }

  function PointsBytes(e: Streams, s: Series): Bytes
    requires AllValid(e) && s.points != []
  {
    StartValid(e, s);
    var st := StartState(e, s);
    if s.hdr.kind == HISTOGRAM then Uvarint(|s.points|) + HistsBytes(st, s.points)
    else NumberBytes(st, NumberPoints(s.points))
  }

  function SeriesBytes(e: Streams, strs: seq<Bytes>, s: Series): Bytes
    requires AllValid(e) && Interns(strs, s.hdr) && s.points != []
  {
    HeaderBytes(strs, s.hdr) + PointsBytes(e, s)
  }

  function EndState(st: State, s: Series): (st': State)
    requires st.Valid() && s.points != []
    ensures st'.Valid()
  {
    if s.hdr.kind == HISTOGRAM then
      HistsStateValid(st, s.points);
      HistsState(st, s.points)
    else NumberState(st, NumberPoints(s.points))
  }

  lemma {:induction false} HistsStateValid(st: State, ps: seq<StreamPoint>)
    requires st.Valid()
    ensures HistsState(st, ps).Valid() && st.SameNumbers(HistsState(st, ps))
    decreases |ps|
  {
    if ps != [] {
      HistsStateValid(HistState(st, ps[0]), ps[1..]);
    }
  }

  function AfterSeries(e: Streams, s: Series): (e': Streams)
    requires AllValid(e) && s.points != []
    ensures AllValid(e')
  {
    StartValid(e, s);
    if s.hdr.kind == HISTOGRAM || |e| < MAX_SERIES then e[s.hdr.Key() := EndState(StartState(e, s), s)]
    else e
  }

  /** Every series has its strings in the table and at least one point. */
  predicate Ready(strs: seq<Bytes>, ss: seq<Series>) {
    forall s :: s in ss ==> Interns(strs, s.hdr) && s.points != []
  }

  function ListBytes(e: Streams, strs: seq<Bytes>, ss: seq<Series>): Bytes
    requires AllValid(e) && Ready(strs, ss)
    decreases |ss|
  {
    if ss == [] then [] else SeriesBytes(e, strs, ss[0]) + ListBytes(AfterSeries(e, ss[0]), strs, ss[1..])
  }

  function AfterList(e: Streams, ss: seq<Series>): (e': Streams)
    requires AllValid(e) && forall s :: s in ss ==> s.points != []
    ensures AllValid(e')
    decreases |ss|
  {
    if ss == [] then e else AfterList(AfterSeries(e, ss[0]), ss[1..])
  }

  function SeriesStrings(ss: seq<Series>): seq<Bytes> {
    if ss == [] then [] else SeriesStrings(ss[..|ss| - 1]) + HeaderStrings(ss[|ss| - 1].hdr)
  }

  /** Everything a frame refers to, in the order it is interned. */
  function FrameStrings(agent: Bytes, res: seq<Pair>, ss: seq<Series>): seq<Bytes> {
    [agent] + PairStrings(res) + SeriesStrings(ss)
  }

  function FrameTable(agent: Bytes, res: seq<Pair>, ss: seq<Series>): seq<Bytes> {
    InternAll([], FrameStrings(agent, res, ss))
  }

  /** `[agentRef][exportTime][attributes][seriesCount][series...]` */
  function BodyBytes(e: Streams, strs: seq<Bytes>, agent: Bytes, time: I64, res: seq<Pair>, ss: seq<Series>): Bytes
    requires AllValid(e) && Ready(strs, ss) && agent in strs
    requires forall s :: s in PairStrings(res) ==> s in strs
  {
    RefBytes(strs, agent) + (Uvarint(Unsigned(time)) + (PairsBytes(strs, res)
      + (Uvarint(|ss|) + ListBytes(e, strs, ss))))
  }

  function FrameBytes(e: Streams, req: WireRequest): Bytes
    requires AllValid(e)
  {
    var ss, res := Flatten(req), SortedPairs(req.attrs);
    var strs := FrameTable(req.agentId, res, ss);
    FrameReady(req);
    TableBytes(strs) + BodyBytes(e, strs, req.agentId, req.exportTime, res, ss)
  }

  function AfterFrame(e: Streams, req: WireRequest): (e': Streams)
    requires AllValid(e)
    ensures AllValid(e')
  {
    PushAllNonempty(ScopesAtoms(req.scopes));
    AfterList(e, Flatten(req))
  }

  lemma {:induction false} PushAllNonempty(atoms: seq<Atom>)
    ensures forall s :: s in PushAll(atoms) ==> s.points != []
  {
    if atoms != [] {
      var out := PushAll(atoms[..|atoms| - 1]);
      PushAllNonempty(atoms[..|atoms| - 1]);
      forall s | s in PushAll(atoms)
        ensures s.points != []
      {
        assert s in out || s.points[|s.points| - 1] == atoms[|atoms| - 1].point;
      }
    }
  }

  lemma {:induction false} SeriesStringsCover(ss: seq<Series>, s: Series)
    requires s in ss
    ensures forall x :: x in HeaderStrings(s.hdr) ==> x in SeriesStrings(ss)
  {
    if s != ss[|ss| - 1] {
      SeriesStringsCover(ss[..|ss| - 1], s);
    }
  }

  /** Everything a frame refers to is in its table. */
  lemma FrameReady(req: WireRequest)
    ensures var ss, res := Flatten(req), SortedPairs(req.attrs);
      var strs := FrameTable(req.agentId, res, ss);
      && Ready(strs, ss) && req.agentId in strs
      && forall s :: s in PairStrings(res) ==> s in strs
  {
    var ss, res := Flatten(req), SortedPairs(req.attrs);
    PushAllNonempty(ScopesAtoms(req.scopes));
    var all := FrameStrings(req.agentId, res, ss);
    assert req.agentId == all[0];
    forall s | s in ss
      ensures Interns(FrameTable(req.agentId, res, ss), s.hdr)
    {
      SeriesStringsCover(ss, s);
    }
  }

  // ----- decoding -----

  function ParseRef(strs: seq<Bytes>, b: Bytes): Parse<Bytes> {
    match ParseUvarint(b)
    case Err => Err
    case Ok((i, rest)) => if i >= |strs| then Err else Ok((strs[i], rest))
  }

  function ParseRefs(strs: seq<Bytes>, b: Bytes, n: nat): (r: Parse<seq<Bytes>>)
    ensures r.Ok? ==> |r.value.0| == n
    decreases n
  {
    if n == 0 then Ok(([], b))
    else match ParseRef(strs, b)
      case Err => Err
      case Ok((s, b1)) => Prepended([s], ParseRefs(strs, b1, n - 1))
  }

  function ParsePairList(strs: seq<Bytes>, b: Bytes, n: nat): Parse<seq<Pair>>
    decreases n
  {
    if n == 0 then Ok(([], b))
    else match ParseRefs(strs, b, 2)
      case Err => Err
      case Ok((kv, b1)) => Prepended([(kv[0], kv[1])], ParsePairList(strs, b1, n - 1))
  }

  function ParsePairs(strs: seq<Bytes>, b: Bytes): Parse<seq<Pair>> {
    match ParseUvarint(b)
    case Err => Err
    case Ok((n, b1)) => if n > MAX_ATTRIBUTES then Err else ParsePairList(strs, b1, n)
  }

  function ParseFlags(kind: Byte, b: Bytes): Parse<Byte> {
    if kind == SUM then ParseByte(b) else Ok((0, b))
  }

  function ParseHeader(strs: seq<Bytes>, b: Bytes): Parse<Header> {
    match ParseRefs(strs, b, 5)
    case Err => Err
    case Ok((n, b1)) =>
      match ParseByte(b1)
      case Err => Err
      case Ok((kind, b2)) =>
        match ParseFlags(kind, b2)
        case Err => Err
        case Ok((f, b3)) =>
          match ParsePairs(strs, b3)
          case Err => Err
          case Ok((attrs, b4)) =>
            Ok((Header(n[0], n[1], n[2], n[3], n[4], kind, f / 2, f % 2 == 1, attrs), b4))
  }

  function ParseRawPoint(b: Bytes): Parse<Point> {
    match ParseUvarint(b)
    case Err => Err
    case Ok((u, b1)) =>
      match ParseFloat64(b1)
      case Err => Err
      case Ok((v, b2)) => Ok((Point(Unzigzag(u), v), b2))
  }

  function ParseBlock(b: Bytes): Parse<Bytes> {
    match ParseUvarint(b)
    case Err => Err
    case Ok((n, b1)) => ParseFull(b1, n)
  }

  function StreamPoints(pts: seq<Point>): (r: seq<StreamPoint>)
    ensures |r| == |pts|
  {
    seq(|pts|, i requires 0 <= i < |pts| => StreamPoint(pts[i].ts, pts[i].val, None))
  }

  /** Reads the two blocks and `n` points from them, after `first`. */
  ghost function ParseStreams(st: State, first: seq<Point>, n: nat, b: Bytes): (r: Parse<(seq<StreamPoint>, State)>)
    requires st.Valid()
    ensures r.Ok? ==> r.value.0.1.bounds == st.bounds
  {
    match ParseBlock(b)
    case Err => Err
    case Ok((ts, b1)) =>
      match ParseBlock(b1)
      case Err => Err
      case Ok((vals, b2)) =>
        match ParsePoints(st, BytesBits(ts), BytesBits(vals), n)
        case Err => Err
        case Ok((pts, st')) => Ok(((StreamPoints(first + pts), st'), b2))
  }

  ghost function ParseNumber(prev: Option<State>, b: Bytes): (r: Parse<(seq<StreamPoint>, State)>)
    requires prev.Some? ==> prev.value.Valid()
    ensures r.Ok? ==> r.value.0.1.bounds == if prev.Some? then prev.value.bounds else []
  {
    match ParseUvarint(b)
    case Err => Err
    case Ok((count, b1)) =>
      match ParseByte(b1)
      case Err => Err
      case Ok((raw, b2)) =>
        if prev.None? && raw == 0 then Err
        else
          var st := if prev.Some? then prev.value else FRESH;
          if raw == 1 then
            match ParseRawPoint(b2)
            case Err => Err
            case Ok((p, b3)) => ParseStreams(Keyframed(st, p), [p], if count > 0 then count - 1 else 0, b3)
          else ParseStreams(st, [], count, b2)
  }

  function ParseFloats(b: Bytes, n: nat): Parse<seq<U64>>
    decreases n
  {
    if n == 0 then Ok(([], b))
    else match ParseFloat64(b)
      case Err => Err
      case Ok((v, b1)) => Prepended([v], ParseFloats(b1, n - 1))
  }

  function ParseUvarints(b: Bytes, n: nat): Parse<seq<U64>>
    decreases n
  {
    if n == 0 then Ok(([], b))
    else match ParseUvarint(b)
      case Err => Err
      case Ok((v, b1)) => Prepended([v], ParseUvarints(b1, n - 1))
  }

  function ParseTotals(b: Bytes): Parse<(U64, U64)> {
    match ParseUvarint(b)
    case Err => Err
    case Ok((c, b1)) =>
      match ParseFloat64(b1)
      case Err => Err
      case Ok((s, b2)) => Ok(((c, s), b2))
  }

  function ParseBounds(raw: Byte, st: State, b: Bytes): Parse<seq<U64>> {
    if raw != 1 then Ok((st.bounds, b))
    else match ParseUvarint(b)
      case Err => Err
      case Ok((n, b1)) => if n > MAX_BUCKETS then Err else ParseFloats(b1, n)
  }

  function ParseBuckets(b: Bytes): Parse<seq<U64>> {
    match ParseUvarint(b)
    case Err => Err
    case Ok((n, b1)) => if n > MAX_BUCKETS then Err else ParseUvarints(b1, n)
  }

  /** A decoded histogram point carries neither attributes nor minimum and maximum. */
  function DecodedHist(ts: I64, totals: (U64, U64), buckets: seq<U64>, bounds: seq<U64>): Hist {
    HistPoint(map[], ts, totals.0, totals.1, buckets, bounds, 0, 0)
  }

  function ParseHistPoint(st: State, b: Bytes): Parse<(StreamPoint, State)> {
    match ParseByte(b)
    case Err => Err
    case Ok((raw, b1)) =>
      if raw != 1 && !st.initialized then Err
      else match ParseUvarint(b1)
        case Err => Err
        case Ok((u, b2)) =>
          var ts := if raw == 1 then Unzigzag(u) else Add64(st.lastTs, Unzigzag(u));
          match ParseTotals(b2)
          case Err => Err
          case Ok((totals, b3)) =>
            match ParseBounds(raw, st, b3)
            case Err => Err
            case Ok((bounds, b4)) =>
              match ParseBuckets(b4)
              case Err => Err
              case Ok((buckets, b5)) =>
                Ok(((StreamPoint(ts, 0, Some(DecodedHist(ts, totals, buckets, bounds))),
                     st.(initialized := true, lastTs := ts, bounds := bounds)), b5))
  }

  function ParseHistPoints(st: State, b: Bytes, n: nat): Parse<(seq<StreamPoint>, State)>
    decreases n
  {
    if n == 0 then Ok((([], st), b))
    else match ParseHistPoint(st, b)
      case Err => Err
      case Ok(((p, st1), b1)) => AfterFirst(p, ParseHistPoints(st1, b1, n - 1))
  }

  function AfterFirst(p: StreamPoint, r: Parse<(seq<StreamPoint>, State)>): Parse<(seq<StreamPoint>, State)> {
    match r
    case Err => Err
    case Ok(((ps, st), b)) => Ok((([p] + ps, st), b))
  }

  function ParseHists(prev: Option<State>, b: Bytes): Parse<(seq<StreamPoint>, State)> {
    match ParseUvarint(b)
    case Err => Err
    case Ok((count, b1)) =>
      if count > MAX_HIST_POINTS then Err
      else ParseHistPoints(if prev.Some? then prev.value else FRESH, b1, count)
  }

  // ----- rebuilding the request -----

  /** The scopes and metrics rebuilt so far, with the maps that find them again. */
  datatype Build = Build(
    scopes: seq<WireScope>, scopeIdx: map<Bytes, nat>, metricIdx: map<Bytes, (nat, nat)>)
  {
    predicate Valid() {
      && (forall k :: k in scopeIdx ==> scopeIdx[k] < |scopes|)
      && (forall k :: k in metricIdx ==>
            metricIdx[k].0 < |scopes| && metricIdx[k].1 < |scopes[metricIdx[k].0].metrics|)
    }
  }

  const EMPTY_BUILD := Build([], map[], map[])

  function MetricKey(scope: Bytes, name: Bytes): Bytes {
    scope + [0] + name
  }

  function NewMetric(h: Header): WireMetric {
    Metric(h.name, h.unit, h.desc,
      if h.kind == SUM then Sum(h.temporality, h.monotonic, [])
      else if h.kind == HISTOGRAM then Histogram(h.temporality, [])
      else Gauge([]))
  }

  function WithScope(bd: Build, h: Header): (r: Build)
    requires bd.Valid()
    ensures r.Valid() && h.scope in r.scopeIdx
  {
    if h.scope in bd.scopeIdx then bd
    else bd.(scopes := bd.scopes + [ScopeMetrics(h.scope, h.version, [])],
             scopeIdx := bd.scopeIdx[h.scope := |bd.scopes|])
  }

  function WithMetric(bd: Build, h: Header): (r: Build)
    requires bd.Valid() && h.scope in bd.scopeIdx
    ensures r.Valid() && MetricKey(h.scope, h.name) in r.metricIdx
  {
    if MetricKey(h.scope, h.name) in bd.metricIdx then bd
    else
      var i := bd.scopeIdx[h.scope];
      var sm := bd.scopes[i];
      bd.(scopes := bd.scopes[i := sm.(metrics := sm.metrics + [NewMetric(h)])],
          metricIdx := bd.metricIdx[MetricKey(h.scope, h.name) := (i, |sm.metrics|)])
  }

  function NumberDataPoints(am: Attrs, ps: seq<StreamPoint>): (r: seq<NumberPoint<U64>>)
    ensures |r| == |ps|
  {
    seq(|ps|, i requires 0 <= i < |ps| => NumberPoint(am, ps[i].ts, ps[i].val))
  }

  function HistDataPoints(ps: seq<StreamPoint>): (r: seq<Hist>)
    ensures |r| == |ps|
  {
    seq(|ps|, i requires 0 <= i < |ps| => HistOf(ps[i]))
  }

  /** Points of one kind cannot go into a metric of another: the original stops there. */
  function WithPoints(data: WireData, h: Header, ps: seq<StreamPoint>): Result<WireData> {
    var am := AttrMap(h.attrs);
    if ps == [] then Ok(data)
    else if h.kind == HISTOGRAM then
      if data.Histogram? then Ok(Histogram(data.temporality, data.hists + HistDataPoints(ps))) else Err
    else if h.kind == SUM then
      if data.Sum? then Ok(Sum(data.temporality, data.monotonic, data.points + NumberDataPoints(am, ps))) else Err
    else
      if data.Gauge? then Ok(Gauge(data.points + NumberDataPoints(am, ps))) else Err
  }

  function AddSeries(bd: Build, h: Header, ps: seq<StreamPoint>): (r: Result<Build>)
    requires bd.Valid()
    ensures r.Ok? ==> r.value.Valid()
  {
    var bd1 := WithMetric(WithScope(bd, h), h);
    var (i, j) := bd1.metricIdx[MetricKey(h.scope, h.name)];
    var sm := bd1.scopes[i];
    match WithPoints(sm.metrics[j].data, h, ps)
    case Err => Err
    case Ok(data) =>
      Ok(bd1.(scopes := bd1.scopes[i := sm.(metrics := sm.metrics[j := sm.metrics[j].(data := data)])]))
  }

  /** One series: its header, its points and its state afterwards. */
  ghost function ParseSeries(d: Streams, strs: seq<Bytes>, b: Bytes): Parse<(Header, seq<StreamPoint>, State)>
    requires AllValid(d)
  {
    match ParseHeader(strs, b)
    case Err => Err
    case Ok((h, b1)) =>
      var prev := if h.Key() in d then Some(d[h.Key()]) else None;
      match if h.kind == HISTOGRAM then ParseHists(prev, b1) else ParseNumber(prev, b1)
      case Err => Err
      case Ok(((ps, st), b2)) => Ok(((h, ps, st), b2))
  }

  /** The series loop: the states committed so far survive a failure later in the frame. */
  ghost function DecodeLoop(d: Streams, bd: Build, strs: seq<Bytes>, b: Bytes, n: nat): (r: (Streams, Result<Build>))
    requires AllValid(d) && bd.Valid()
    ensures AllValid(r.0)
    decreases n
  {
    hide ParseSeries, AddSeries;
    if n == 0 then (d, Ok(bd))
    else match ParseSeries(d, strs, b)
      case Err => (d, Err)
      case Ok(((h, ps, st), b1)) =>
        ParsedStateValid(d, strs, b);
        var d' := d[h.Key() := st];
        match AddSeries(bd, h, ps)
        case Err => (d', Err)
        case Ok(bd') => DecodeLoop(d', bd', strs, b1, n - 1)
  }

  lemma ParsedStateValid(d: Streams, strs: seq<Bytes>, b: Bytes)
    requires AllValid(d)
    ensures var r := ParseSeries(d, strs, b); r.Ok? ==> r.value.0.2.Valid()
  {
    hide ParseHeader, ParseUvarint, ParseBlock, ParseRawPoint;
    match ParseHeader(strs, b)
    case Err =>
    case Ok((h, b1)) =>
      if h.kind == HISTOGRAM {
        var prev := if h.Key() in d then Some(d[h.Key()]) else None;
        ParsedHistsValid(prev, b1);
      }
  }

  lemma ParsedHistsValid(prev: Option<State>, b: Bytes)
    requires prev.Some? ==> prev.value.Valid()
    ensures var r := ParseHists(prev, b);
      r.Ok? ==> r.value.0.1.Valid() && (if prev.Some? then prev.value else FRESH).SameNumbers(r.value.0.1)
  {
    hide ParseUvarint;
    match ParseUvarint(b)
    case Err =>
    case Ok((count, b1)) =>
      ParsedHistPointsValid(if prev.Some? then prev.value else FRESH, b1, count);
  }

  lemma {:induction false} ParsedHistPointsValid(st: State, b: Bytes, n: nat)
    requires st.Valid()
    ensures var r := ParseHistPoints(st, b, n); r.Ok? ==> r.value.0.1.Valid() && st.SameNumbers(r.value.0.1)
    decreases n
  {
    hide ParseUvarint, ParseTotals, ParseBounds, ParseBuckets;
    if n > 0 && ParseHistPoint(st, b).Ok? {
      var ((p, st1), b1) := ParseHistPoint(st, b).value;
      ParsedHistPointsValid(st1, b1, n - 1);
    }
  }

  /** Everything after the string table. */
  ghost function DecodeBody(d: Streams, strs: seq<Bytes>, b: Bytes): (r: (Streams, Result<WireRequest>))
    requires AllValid(d)
    ensures AllValid(r.0)
  {
    match ParseRef(strs, b)
    case Err => (d, Err)
    case Ok((agent, b1)) =>
      match ParseUvarint(b1)
      case Err => (d, Err)
      case Ok((time, b2)) =>
        match ParsePairs(strs, b2)
        case Err => (d, Err)
        case Ok((res, b3)) =>
          match ParseUvarint(b3)
          case Err => (d, Err)
          case Ok((n, b4)) =>
            if n > MAX_FRAME_SERIES then (d, Err)
            else
              var (d', built) := DecodeLoop(d, EMPTY_BUILD, strs, b4, n);
              (d', Rebuilt(agent, Signed(time), res, built))
  }

  function Rebuilt(agent: Bytes, time: I64, res: seq<Pair>, built: Result<Build>): Result<WireRequest> {
    match built
    case Err => Err
    case Ok(bd) => Ok(Request(agent, AttrMap(res), time, bd.scopes))
  }

  ghost function DecodeFrame(d: Streams, b: Bytes): (r: (Streams, Result<WireRequest>))
    requires AllValid(d)
    ensures AllValid(r.0)
  {
    match ParseTable(b)
    case Err => (d, Err)
    case Ok((strs, b1)) => DecodeBody(d, strs, b1)
  }
}
