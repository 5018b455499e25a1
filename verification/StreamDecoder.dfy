/** `StreamDecoder` (`internal/transport/codec/stream.go`): applies frames to a mirror of
    the encoder's states, working on a scratch copy that only success commits. */
module FrameDecoder {
  import opened Words
  import opened BitStream
  import opened Gorilla
  import opened PointStream
  import opened ByteCodec
  import opened Dictionary
  import opened Labels
  import opened StreamFormat

  method ReadRef(r: ByteReader, strs: seq<Bytes>) returns (s: Result<Bytes>)
    requires r.Valid()
    modifies r
    ensures r.Valid() && ParseRef(strs, old(r.Rest())) == Read(s, r.Rest())
  {
    var i := r.ReadUvarint();
    if i.Err? || i.value >= |strs| {
      return Err;
    }
    return Ok(strs[i.value]);
  }

  method ReadPairs(r: ByteReader, strs: seq<Bytes>) returns (ps: Result<seq<Pair>>)
    requires r.Valid()
    modifies r
    ensures r.Valid() && ParsePairs(strs, old(r.Rest())) == Read(ps, r.Rest())
  {
    hide ParseUvarint, ParseRef, ByteReader.Rest;
    var n := r.ReadUvarint();
    if n.Err? || n.value > MAX_ATTRIBUTES {
      return Err;
    }
    var pairs: seq<Pair> := [];
    ghost var parse := ParsePairs(strs, old(r.Rest()));
    PrependedNone(ParsePairList(strs, r.Rest(), n.value));
    for i := 0 to n.value
      invariant r.Valid()
      invariant parse == Prepended(pairs, ParsePairList(strs, r.Rest(), n.value - i))
    {
      ghost var before := r.Rest();
      TwoRefs(strs, before);
      var k := ReadRef(r, strs);
      if k.Err? {
        return Err;
      }
      var v := ReadRef(r, strs);
      if v.Err? {
        return Err;
      }
      ghost var rest := ParsePairList(strs, r.Rest(), n.value - i - 1);
      assert ParsePairList(strs, before, n.value - i) == Prepended([(k.value, v.value)], rest);
      PrependedTwice(pairs, [(k.value, v.value)], rest);
      pairs := pairs + [(k.value, v.value)];
    }
    assert pairs + [] == pairs;
    return Ok(pairs);
  }

  lemma TwoRefs(strs: seq<Bytes>, b: Bytes)
    ensures ParseRefs(strs, b, 2) ==
      match ParseRef(strs, b)
      case Err => Err
      case Ok((k, b1)) =>
        match ParseRef(strs, b1)
        case Err => Err
        case Ok((v, b2)) => Ok(([k, v], b2))
  {
    hide ParseRef;
    match ParseRef(strs, b)
    case Err =>
    case Ok((k, b1)) =>
      assert ParseRefs(strs, b, 2) == Prepended([k], ParseRefs(strs, b1, 1));
      match ParseRef(strs, b1)
      case Err =>
      case Ok((v, b2)) =>
        assert ParseRefs(strs, b1, 1) == Prepended([v], ParseRefs(strs, b2, 0));
        assert [v] + [] == [v] && [k] + [v] == [k, v];
  }

  /** `n` references in a row. */
  method ReadRefs(r: ByteReader, strs: seq<Bytes>, n: nat) returns (ss: Result<seq<Bytes>>)
    requires r.Valid()
    modifies r
    ensures r.Valid() && ParseRefs(strs, old(r.Rest()), n) == Read(ss, r.Rest())
  {
    hide ParseRef, ByteReader.Rest;
    var acc: seq<Bytes> := [];
    PrependedNone(ParseRefs(strs, r.Rest(), n));
    for i := 0 to n
      invariant r.Valid()
      invariant ParseRefs(strs, old(r.Rest()), n) == Prepended(acc, ParseRefs(strs, r.Rest(), n - i))
    {
      ghost var before := r.Rest();
      var s := ReadRef(r, strs);
      if s.Err? {
        return Err;
      }
      assert ParseRefs(strs, before, n - i) == Prepended([s.value], ParseRefs(strs, r.Rest(), n - i - 1));
      PrependedTwice(acc, [s.value], ParseRefs(strs, r.Rest(), n - i - 1));
      acc := acc + [s.value];
    }
    assert acc + [] == acc;
    return Ok(acc);
  }

  method ReadHeader(r: ByteReader, strs: seq<Bytes>) returns (h: Result<Header>)
    requires r.Valid()
    modifies r
    ensures r.Valid() && ParseHeader(strs, old(r.Rest())) == Read(h, r.Rest())
  {
    hide ParseRefs, ParsePairs, ByteReader.Rest;
    var n := ReadRefs(r, strs, 5);
    if n.Err? {
      return Err;
    }
    var kind := r.ReadByte();
    if kind.Err? {
      return Err;
    }
    var f: Byte := 0;
    if kind.value == SUM {
      var flags := r.ReadByte();
      if flags.Err? {
        return Err;
      }
      f := flags.value;
    }
    var attrs := ReadPairs(r, strs);
    if attrs.Err? {
      return Err;
    }
    return Ok(Header(n.value[0], n.value[1], n.value[2], n.value[3], n.value[4],
                     kind.value, f / 2, f % 2 == 1, attrs.value));
  }

  ghost function Seen(st: SeriesState?): Option<State>
    reads st
  {
    if st == null then None else Some(st.View())
  }

  /** Points together with the state a successful read commits. */
  ghost function Committed(pts: Result<seq<StreamPoint>>, st: State, rest: Bytes): Parse<(seq<StreamPoint>, State)> {
    match pts
    case Err => Err
    case Ok(ps) => Ok(((ps, st), rest))
  }

  method ReadBlock(r: ByteReader) returns (b: Result<Bytes>)
    requires r.Valid()
    modifies r
    ensures r.Valid() && ParseBlock(old(r.Rest())) == Read(b, r.Rest())
  {
    var n := r.ReadUvarint();
    if n.Err? {
      return Err;
    }
    b := r.ReadFull(n.value);
  }

  method DecodeNumberSeries(r: ByteReader, prev: SeriesState?)
      returns (pts: Result<seq<StreamPoint>>, work: SeriesState)
    requires r.Valid() && (prev != null ==> prev.View().Valid())
    modifies r
    ensures r.Valid() && fresh(work)
    ensures ParseNumber(Seen(prev), old(r.Rest())) == Committed(pts, work.View(), r.Rest())
    ensures pts.Ok? ==> work.View().Valid()
  {
    hide ParseUvarint, ParseFloat64, ParseBlock, ParsePoints, ParseStreams, ByteReader.Rest, StreamPoints, Unzigzag;
    ghost var start := Seen(prev);
    work := new SeriesState();
    var count := r.ReadUvarint();
    if count.Err? {
      return Err, work;
    }
    var raw := r.ReadByte();
    if raw.Err? {
      return Err, work;
    }
    if prev == null {
      if raw.value == 0 {
        return Err, work;
      }
    } else {
      work := new SeriesState.Copy(prev);
    }
    ghost var s0 := work.View();
    var first: seq<Point> := [];
    var n := count.value;
    if raw.value == 1 {
      var u := r.ReadUvarint();
      if u.Err? {
        return Err, work;
      }
      var val := r.ReadFloat64();
      if val.Err? {
        return Err, work;
      }
      var ts := Unzigzag(u.value);
      work.lastTs, work.lastDelta, work.lastVal := ts, 0, val.value;
      work.hasWindow := false;
      work.initialized := true;
      first := [Point(ts, val.value)];
      n := if count.value > 0 then count.value - 1 else 0;
      assert work.View() == Keyframed(s0, first[0]);
    }
    assert ParseNumber(start, old(r.Rest())) == ParseStreams(work.View(), first, n, r.Rest());
    pts := DecodeStreams(r, work, first, n);
  }

  /** The two blocks, and `n` points read from them in step. */
  method DecodeStreams(r: ByteReader, work: SeriesState, first: seq<Point>, n: nat)
      returns (pts: Result<seq<StreamPoint>>)
    requires r.Valid() && work.View().Valid()
    modifies r, work
    ensures r.Valid()
    ensures ParseStreams(old(work.View()), first, n, old(r.Rest())) == Committed(pts, work.View(), r.Rest())
    ensures pts.Ok? ==> work.View().Valid()
  {
    hide ParseBlock, ByteReader.Rest, BitReader.Rest, StreamPoints;
    var tsBytes := ReadBlock(r);
    if tsBytes.Err? {
      return Err;
    }
    var valBytes := ReadBlock(r);
    if valBytes.Err? {
      return Err;
    }
    var tsR := new BitReader(tsBytes.value);
    var valR := new BitReader(valBytes.value);
    var points := ReadPoints(tsR, valR, work, n);
    if points.Err? {
      return Err;
    }
    return Ok(StreamPoints(first + points.value));
  }

  method ReadPoints(tsR: BitReader, valR: BitReader, work: SeriesState, n: nat) returns (pts: Result<seq<Point>>)
    requires tsR != valR && tsR.Valid() && valR.Valid() && work.View().Valid()
    modifies tsR, valR, work
    ensures tsR.Valid() && valR.Valid() && work.View().Valid()
    ensures ParsePoints(old(work.View()), old(tsR.Rest()), old(valR.Rest()), n)
      == if pts.Ok? then Ok((pts.value, work.View())) else Err
  {
    hide ParseDod, ParseXor, BitReader.Rest, BitReader.Valid;
    ghost var parse := ParsePoints(work.View(), tsR.Rest(), valR.Rest(), n);
    var acc: seq<Point> := [];
    PointsPrependedNone(parse);
    for i := 0 to n
      invariant tsR.Valid() && valR.Valid() && work.View().Valid()
      invariant parse == PointsPrepended(acc, ParsePoints(work.View(), tsR.Rest(), valR.Rest(), n - i))
    {
      ghost var st, tb, vb := work.View(), tsR.Rest(), valR.Rest();
      var dod := ReadDod(tsR);
      if dod.Err? {
        return Err;
      }
      work.lastDelta := Add64(work.lastDelta, dod.value);
      work.lastTs := Add64(work.lastTs, work.lastDelta);
      var val := ReadValueXor(valR, work);
      if val.Err? {
        return Err;
      }
      var p := Point(work.lastTs, val.value);
      assert ParsePoint(st, tb, vb) == Ok((work.View(), tsR.Rest(), valR.Rest()));
      PointsPrependedTwice(acc, p, ParsePoints(work.View(), tsR.Rest(), valR.Rest(), n - i - 1));
      acc := acc + [p];
    }
    assert acc + [] == acc;
    return Ok(acc);
  }

  function PointsPrepended(acc: seq<Point>, r: Result<(seq<Point>, State)>): Result<(seq<Point>, State)> {
    match r
    case Err => Err
    case Ok((pts, st)) => Ok((acc + pts, st))
  }

  lemma PointsPrependedNone(r: Result<(seq<Point>, State)>)
    ensures PointsPrepended([], r) == r
  {
    if r.Ok? {
      assert [] + r.value.0 == r.value.0;
    }
  }

  lemma PointsPrependedTwice(acc: seq<Point>, p: Point, r: Result<(seq<Point>, State)>)
    ensures PointsPrepended(acc, PointsPrepended([p], r)) == PointsPrepended(acc + [p], r)
  {
    if r.Ok? {
      ConcatAssoc(acc, [p], r.value.0);
    }
  }

  method ReadFloats(r: ByteReader, n: nat) returns (vs: Result<seq<U64>>)
    requires r.Valid()
    modifies r
    ensures r.Valid() && ParseFloats(old(r.Rest()), n) == Read(vs, r.Rest())
  {
    hide ParseFloat64, ByteReader.Rest;
    var acc: seq<U64> := [];
    PrependedNone(ParseFloats(r.Rest(), n));
    for i := 0 to n
      invariant r.Valid()
      invariant ParseFloats(old(r.Rest()), n) == Prepended(acc, ParseFloats(r.Rest(), n - i))
    {
      ghost var before := r.Rest();
      var v := r.ReadFloat64();
      if v.Err? {
        return Err;
      }
      assert ParseFloats(before, n - i) == Prepended([v.value], ParseFloats(r.Rest(), n - i - 1));
      PrependedTwice(acc, [v.value], ParseFloats(r.Rest(), n - i - 1));
      acc := acc + [v.value];
    }
    assert acc + [] == acc;
    return Ok(acc);
  }

  method ReadUvarints(r: ByteReader, n: nat) returns (vs: Result<seq<U64>>)
    requires r.Valid()
    modifies r
    ensures r.Valid() && ParseUvarints(old(r.Rest()), n) == Read(vs, r.Rest())
  {
    hide ParseUvarint, ByteReader.Rest;
    var acc: seq<U64> := [];
    PrependedNone(ParseUvarints(r.Rest(), n));
    for i := 0 to n
      invariant r.Valid()
      invariant ParseUvarints(old(r.Rest()), n) == Prepended(acc, ParseUvarints(r.Rest(), n - i))
    {
      ghost var before := r.Rest();
      var v := r.ReadUvarint();
      if v.Err? {
        return Err;
      }
      assert ParseUvarints(before, n - i) == Prepended([v.value], ParseUvarints(r.Rest(), n - i - 1));
      PrependedTwice(acc, [v.value], ParseUvarints(r.Rest(), n - i - 1));
      acc := acc + [v.value];
    }
    assert acc + [] == acc;
    return Ok(acc);
  }

  method ReadTotals(r: ByteReader) returns (t: Result<(U64, U64)>)
    requires r.Valid()
    modifies r
    ensures r.Valid() && ParseTotals(old(r.Rest())) == Read(t, r.Rest())
  {
    var c := r.ReadUvarint();
    if c.Err? {
      return Err;
    }
    var s := r.ReadFloat64();
    if s.Err? {
      return Err;
    }
    return Ok((c.value, s.value));
  }

  /** A bounded count followed by that many varints. */
  method ReadBuckets(r: ByteReader) returns (b: Result<seq<U64>>)
    requires r.Valid()
    modifies r
    ensures r.Valid() && ParseBuckets(old(r.Rest())) == Read(b, r.Rest())
  {
    var n := r.ReadUvarint();
    if n.Err? || n.value > MAX_BUCKETS {
      return Err;
    }
    b := ReadUvarints(r, n.value);
  }

  /** The bounds of a keyframe point; other points inherit the state's. */
  method ReadBounds(r: ByteReader, raw: Byte, work: SeriesState) returns (b: Result<seq<U64>>)
    requires r.Valid()
    modifies r
    ensures r.Valid() && ParseBounds(raw, work.View(), old(r.Rest())) == Read(b, r.Rest())
  {
    if raw != 1 {
      return Ok(work.bounds);
    }
    var n := r.ReadUvarint();
    if n.Err? || n.value > MAX_BUCKETS {
      return Err;
    }
    b := ReadFloats(r, n.value);
  }

  method DecodeHistPoint(r: ByteReader, work: SeriesState) returns (p: Result<StreamPoint>)
    requires r.Valid()
    modifies r, work
    ensures r.Valid()
    ensures ParseHistPoint(old(work.View()), old(r.Rest()))
      == if p.Ok? then Ok(((p.value, work.View()), r.Rest())) else Err
    ensures old(work.View().Valid()) ==> work.View().Valid()
  {
    hide ParseUvarint, ParseTotals, ParseBounds, ParseBuckets, ByteReader.Rest;
    var raw := r.ReadByte();
    if raw.Err? {
      return Err;
    }
    if raw.value != 1 && !work.initialized {
      return Err;
    }
    var u := r.ReadUvarint();
    if u.Err? {
      return Err;
    }
    var ts := if raw.value == 1 then Unzigzag(u.value) else Add64(work.lastTs, Unzigzag(u.value));
    var totals := ReadTotals(r);
    if totals.Err? {
      return Err;
    }
    var bounds := ReadBounds(r, raw.value, work);
    if bounds.Err? {
      return Err;
    }
    var buckets := ReadBuckets(r);
    if buckets.Err? {
      return Err;
    }
    work.lastTs, work.bounds, work.initialized := ts, bounds.value, true;
    return Ok(StreamPoint(ts, 0, Some(DecodedHist(ts, totals.value, buckets.value, bounds.value))));
  }

  method DecodeHistogramSeries(r: ByteReader, prev: SeriesState?)
      returns (pts: Result<seq<StreamPoint>>, work: SeriesState)
    requires r.Valid() && (prev != null ==> prev.View().Valid())
    modifies r
    ensures r.Valid() && fresh(work)
    ensures ParseHists(Seen(prev), old(r.Rest())) == Committed(pts, work.View(), r.Rest())
    ensures pts.Ok? ==> work.View().Valid()
  {
    hide ParseUvarint, ParseHistPoint, ByteReader.Rest;
    ghost var start := ParseHists(Seen(prev), r.Rest());
    work := new SeriesState();
    if prev != null {
      work := new SeriesState.Copy(prev);
    }
    var count := r.ReadUvarint();
    if count.Err? || count.value > MAX_HIST_POINTS {
      return Err, work;
    }
    var acc: seq<StreamPoint> := [];
    var n := count.value;
    HistsPrependedNone(ParseHistPoints(work.View(), r.Rest(), n));
    for i := 0 to n
      invariant r.Valid() && work.View().Valid()
      invariant start == HistsPrepended(acc, ParseHistPoints(work.View(), r.Rest(), n - i))
    {
      ghost var st, before := work.View(), r.Rest();
      var p := DecodeHistPoint(r, work);
      if p.Err? {
        return Err, work;
      }
      ghost var rest := ParseHistPoints(work.View(), r.Rest(), n - i - 1);
      assert ParseHistPoints(st, before, n - i) == AfterFirst(p.value, rest);
      HistsPrependedFirst(acc, p.value, rest);
      acc := acc + [p.value];
    }
    assert acc + [] == acc;
    return Ok(acc), work;
  }

  function HistsPrepended(acc: seq<StreamPoint>, r: Parse<(seq<StreamPoint>, State)>)
      : Parse<(seq<StreamPoint>, State)>
  {
    match r
    case Err => Err
    case Ok(((ps, st), b)) => Ok(((acc + ps, st), b))
  }

  lemma HistsPrependedNone(r: Parse<(seq<StreamPoint>, State)>)
    ensures HistsPrepended([], r) == r
  {
    if r.Ok? {
      assert [] + r.value.0.0 == r.value.0.0;
    }
  }

  lemma HistsPrependedFirst(acc: seq<StreamPoint>, p: StreamPoint, r: Parse<(seq<StreamPoint>, State)>)
    ensures HistsPrepended(acc, AfterFirst(p, r)) == HistsPrepended(acc + [p], r)
  {
    if r.Ok? {
      ConcatAssoc(acc, [p], r.value.0.0);
    }
  }

  class StreamDecoder {
    var series: map<Bytes, SeriesState>

    ghost function View(): Streams
      reads this, series.Values
    {
      map k | k in series :: series[k].View()
    }

    ghost predicate Valid()
      reads this, series.Values
    {
      AllValid(View())
    }

    constructor ()
      ensures Valid() && View() == map[]
    {
      series := map[];
    }

    lemma ViewValid()
      requires Valid()
      ensures AllValid(View())
    {
    }

    /** Keeps the state reached in a series. */
    method Commit(key: Bytes, st: SeriesState)
      requires Valid() && st.View().Valid()
      modifies this
      ensures Valid() && key in series && series[key] == st
      ensures View() == old(View())[key := st.View()]
    {
      series := series[key := st];
      assert View() == old(View())[key := st.View()];
    }

    /** Decodes one series and commits its state. */
    method DecodeSeries(r: ByteReader, strs: seq<Bytes>) returns (res: Result<(Header, seq<StreamPoint>)>)
      requires Valid() && r.Valid()
      modifies this, r
      ensures Valid() && r.Valid()
      ensures res.Err? ==> ParseSeries(old(View()), strs, old(r.Rest())) == Err && View() == old(View())
      ensures res.Ok? ==>
        var (h, ps) := res.value;
        && h.Key() in View()
        && ParseSeries(old(View()), strs, old(r.Rest())) == Ok(((h, ps, View()[h.Key()]), r.Rest()))
        && View() == old(View())[h.Key() := View()[h.Key()]]
    {
      hide ParseHeader, ParseNumber, ParseHists, ByteReader.Rest, SeriesKey;
      ghost var d := View();
      var h := ReadHeader(r, strs);
      if h.Err? {
        return Err;
      }
      var key := h.value.Key();
      var prev: SeriesState? := if key in series then series[key] else null;
      assert prev != null ==> prev.View() == d[key];
      assert Seen(prev) == if key in d then Some(d[key]) else None;
      var pts, st;
      if h.value.kind == HISTOGRAM {
        pts, st := DecodeHistogramSeries(r, prev);
      } else {
        pts, st := DecodeNumberSeries(r, prev);
      }
      assert View() == d;
      if pts.Err? {
        return Err;
      }
      Commit(key, st);
      return Ok((h.value, pts.value));
    }

    /** The series loop, rebuilding the three layers as it goes. */
    method DecodeAll(r: ByteReader, strs: seq<Bytes>, n: nat) returns (built: Result<Build>)
      requires Valid() && r.Valid()
      modifies this, r
      ensures Valid() && r.Valid()
      ensures (View(), built) == DecodeLoop(old(View()), EMPTY_BUILD, strs, old(r.Rest()), n)
    {
      hide ParseSeries, AddSeries, ByteReader.Rest, StreamDecoder.View;
      ghost var outcome := DecodeLoop(View(), EMPTY_BUILD, strs, r.Rest(), n);
      var bd := EMPTY_BUILD;
      for i := 0 to n
        invariant Valid() && r.Valid() && bd.Valid()
        invariant outcome == DecodeLoop(View(), bd, strs, r.Rest(), n - i)
      {
        var s := DecodeSeries(r, strs);
        if s.Err? {
          return Err;
        }
        var added := AddSeries(bd, s.value.0, s.value.1);
        if added.Err? {
          return Err;
        }
        bd := added.value;
      }
      return Ok(bd);
    }

    /** Decodes one frame and rebuilds the request. */
    method DecodeFrame(frame: Bytes) returns (req: Result<WireRequest>)
      requires Valid()
      modifies this
      ensures Valid()
      ensures (View(), req) == StreamFormat.DecodeFrame(old(View()), frame)
    {
      hide ParseTable, ParseRef, ParseUvarint, ParsePairs, DecodeLoop, ByteReader.Rest, StreamDecoder.View;
      var r := new ByteReader(frame);
      var strs := ReadDictionary(r);
      if strs.Err? {
        return Err;
      }
      assert StreamFormat.DecodeFrame(old(View()), frame) == DecodeBody(old(View()), strs.value, r.Rest());
      var agent := ReadRef(r, strs.value);
      if agent.Err? {
        return Err;
      }
      var time := r.ReadUvarint();
      if time.Err? {
        return Err;
      }
      var res := ReadPairs(r, strs.value);
      if res.Err? {
        return Err;
      }
      var n := r.ReadUvarint();
      if n.Err? || n.value > MAX_FRAME_SERIES {
        return Err;
      }
      var built := DecodeAll(r, strs.value, n.value);
      return Rebuilt(agent.value, Signed(time.value), res.value, built);
    }
  }
}
