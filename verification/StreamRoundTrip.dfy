/** One frame read back from a mirrored state: what the encoder writes is what the
    decoder reads, and the two sides' states stay equal wherever they are consulted. */
module StreamRoundTrip {
  import opened Words
  import opened BitStream
  import opened Gorilla
  import opened PointStream
  import opened ByteCodec
  import opened Dictionary
  import opened Labels
  import opened StreamFormat

  // ----- references and headers -----

  lemma RefRoundTrip(strs: seq<Bytes>, s: Bytes, rest: Bytes)
    requires s in strs && |strs| <= MAX_DICTIONARY
    ensures ParseRef(strs, RefBytes(strs, s) + rest) == Ok((s, rest))
  {
    hide Uvarint, ParseUvarint;
    RefResolves(strs, s);
    UvarintRoundTrip(RefOf(strs, s), rest);
  }

  lemma {:induction false} RefsRoundTrip(strs: seq<Bytes>, ss: seq<Bytes>, rest: Bytes)
    requires |strs| <= MAX_DICTIONARY && forall s :: s in ss ==> s in strs
    ensures ParseRefs(strs, RefsBytes(strs, ss) + rest, |ss|) == Ok((ss, rest))
  {
    hide RefBytes, ParseRef;
    if ss == [] {
      assert [] + rest == rest;
    } else {
      var tail := RefsBytes(strs, ss[1..]);
      ConcatAssoc(RefBytes(strs, ss[0]), tail, rest);
      RefRoundTrip(strs, ss[0], tail + rest);
      RefsRoundTrip(strs, ss[1..], rest);
      assert [ss[0]] + ss[1..] == ss;
    }
  }

  lemma {:induction false} PairListRoundTrip(strs: seq<Bytes>, ps: seq<Pair>, rest: Bytes)
    requires |strs| <= MAX_DICTIONARY && forall s :: s in PairStrings(ps) ==> s in strs
    ensures ParsePairList(strs, RefsBytes(strs, PairStrings(ps)) + rest, |ps|) == Ok((ps, rest))
  {
    hide RefBytes, ParseRefs;
    if ps == [] {
      assert [] + rest == rest;
    } else {
      var two, more := [ps[0].0, ps[0].1], PairStrings(ps[1..]);
      assert PairStrings(ps) == two + more;
      assert forall s :: s in two || s in more ==> s in two + more;
      RefsConcat(strs, two, more);
      ConcatAssoc(RefsBytes(strs, two), RefsBytes(strs, more), rest);
      RefsRoundTrip(strs, two, RefsBytes(strs, more) + rest);
      PairListRoundTrip(strs, ps[1..], rest);
      assert [(two[0], two[1])] + ps[1..] == ps;
    }
  }

  lemma {:induction false} RefsConcat(strs: seq<Bytes>, xs: seq<Bytes>, ys: seq<Bytes>)
    requires forall s :: s in xs ==> s in strs
    requires forall s :: s in ys ==> s in strs
    ensures forall s :: s in xs + ys ==> s in strs
    ensures RefsBytes(strs, xs + ys) == RefsBytes(strs, xs) + RefsBytes(strs, ys)
  {
    hide RefBytes;
    if xs == [] {
      assert xs + ys == ys;
    } else {
      assert (xs + ys)[1..] == xs[1..] + ys;
      RefsConcat(strs, xs[1..], ys);
      ConcatAssoc(RefBytes(strs, xs[0]), RefsBytes(strs, xs[1..]), RefsBytes(strs, ys));
    }
  }

  lemma PairsRoundTrip(strs: seq<Bytes>, ps: seq<Pair>, rest: Bytes)
    requires |strs| <= MAX_DICTIONARY && forall s :: s in PairStrings(ps) ==> s in strs
    requires |ps| <= MAX_ATTRIBUTES
    ensures ParsePairs(strs, PairsBytes(strs, ps) + rest) == Ok((ps, rest))
  {
    hide Uvarint, ParseUvarint, RefsBytes, ParsePairList;
    var refs := RefsBytes(strs, PairStrings(ps));
    ConcatAssoc(Uvarint(|ps|), refs, rest);
    UvarintRoundTrip(|ps|, refs + rest);
    PairListRoundTrip(strs, ps, rest);
  }

  /** What the decoder learns of a header: temporality and monotonicity only of sums. */
  function CarriedHeader(h: Header): Header {
    if h.kind == SUM then h else h.(temporality := 0, monotonic := false)
  }

  predicate HeaderFits(h: Header) {
    h.kind <= HISTOGRAM && h.temporality < 128 && |h.attrs| <= MAX_ATTRIBUTES
  }

  lemma HeaderRoundTrip(strs: seq<Bytes>, h: Header, rest: Bytes)
    requires |strs| <= MAX_DICTIONARY && Interns(strs, h) && HeaderFits(h)
    ensures ParseHeader(strs, HeaderBytes(strs, h) + rest) == Ok((CarriedHeader(h), rest))
  {
    hide RefsBytes, ParseRefs, PairsBytes, ParsePairs;
    InternedParts(strs, h);
    var names := RefsBytes(strs, Names(h));
    var flags: Bytes := if h.kind == SUM then [SumFlags(h)] else [];
    var attrs := PairsBytes(strs, h.attrs);
    var b2 := attrs + rest;
    var b1 := flags + b2;
    assert HeaderBytes(strs, h) + rest == names + ([h.kind] + b1) by {
      ConcatAssoc(names, [h.kind] + (flags + attrs), rest);
      ConcatAssoc([h.kind], flags + attrs, rest);
      ConcatAssoc(flags, attrs, rest);
    }
    RefsRoundTrip(strs, Names(h), [h.kind] + b1);
    assert ([h.kind] + b1)[1..] == b1;
    assert ParseFlags(h.kind, b1) == Ok((if h.kind == SUM then SumFlags(h) else 0, b2)) by {
      if h.kind == SUM {
        assert b1[1..] == b2;
      } else {
        assert b1 == b2;
      }
    }
    PairsRoundTrip(strs, h.attrs, rest);
  }

  // ----- number series -----

  const MAX_POINTS := 0x100_0000_0000_0000

  lemma BlockRoundTrip(b: Bits, rest: Bytes)
    requires |Pack(b)| < TWO_TO_64
    ensures ParseBlock(Block(b) + rest) == Ok((Pack(b), rest))
  {
    hide Uvarint, ParseUvarint, Pack;
    ConcatAssoc(Uvarint(|Pack(b)|), Pack(b), rest);
    UvarintRoundTrip(|Pack(b)|, Pack(b) + rest);
    FullRoundTrip(Pack(b), rest);
  }

  lemma StreamsRoundTrip(e: State, d: State, first: seq<Point>, pts: seq<Point>, rest: Bytes)
    requires e.Valid() && d.Valid() && e.Same(d) && |pts| < MAX_POINTS
    ensures var r := ParseStreams(d, first, |pts|, StreamsBytes(e, pts) + rest);
      && r.Ok? && r.value.0.0 == StreamPoints(first + pts) && r.value.1 == rest
      && AfterPoints(e, pts).Same(r.value.0.1)
  {
    hide Block, ParseBlock, TsBits, ValBits, ParsePoints, AfterPoints, BytesBits, Pack, StreamPoints;
    var tb, vb := TsBits(e, pts), ValBits(e, pts);
    CostBound(e, pts);
    ConcatAssoc(Block(tb), Block(vb), rest);
    BlockRoundTrip(tb, Block(vb) + rest);
    BlockRoundTrip(vb, rest);
    UnpackPack(tb);
    UnpackPack(vb);
    PointsRoundTrip(e, d, pts, Zeros(Padding(|tb|)), Zeros(Padding(|vb|)));
  }

  lemma RawPointRoundTrip(p: Point, rest: Bytes)
    ensures ParseRawPoint(RawPoint(p) + rest) == Ok((p, rest))
  {
    hide Uvarint, ParseUvarint, ParseFloat64, BigEndian, Zigzag, Unzigzag;
    ConcatAssoc(Uvarint(Zigzag(p.ts)), BigEndian(p.val, 8), rest);
    UvarintRoundTrip(Zigzag(p.ts), BigEndian(p.val, 8) + rest);
    FloatRoundTrip(p.val, rest);
    ZigzagRoundTrip(p.ts);
  }

  /** A number series reads back from any decoder state when it starts with a keyframe,
      and from an equal one otherwise; the states are equal afterwards in both cases. */
  lemma NumberRoundTrip(e: State, d: Option<State>, pts: seq<Point>, rest: Bytes)
    requires e.Valid() && (d.Some? ==> d.value.Valid())
    requires pts != [] && |pts| < MAX_POINTS
    requires e.initialized ==> d.Some? && e.Same(d.value)
    ensures var r := ParseNumber(d, NumberBytes(e, pts) + rest);
      && r.Ok? && r.value.0.0 == StreamPoints(pts) && r.value.1 == rest
      && NumberState(e, pts).Same(r.value.0.1)
  {
    hide Uvarint, ParseUvarint, RawPoint, ParseRawPoint, ParseStreams, StreamsBytes, AfterPoints, StreamPoints;
    var n := Uvarint(|pts|);
    if e.initialized {
      var tail := StreamsBytes(e, pts);
      ConcatAssoc(n, [0] + tail, rest);
      ConcatAssoc([0], tail, rest);
      UvarintRoundTrip(|pts|, [0] + (tail + rest));
      assert ([0] + (tail + rest))[1..] == tail + rest;
      StreamsRoundTrip(e, d.value, [], pts, rest);
      assert [] + pts == pts;
    } else {
      var e1 := Keyframed(e, pts[0]);
      var d1 := Keyframed(if d.Some? then d.value else FRESH, pts[0]);
      var raw, tail := RawPoint(pts[0]), StreamsBytes(e1, pts[1..]);
      ConcatAssoc(n, [1] + (raw + tail), rest);
      ConcatAssoc([1], raw + tail, rest);
      ConcatAssoc(raw, tail, rest);
      UvarintRoundTrip(|pts|, [1] + (raw + (tail + rest)));
      assert ([1] + (raw + (tail + rest)))[1..] == raw + (tail + rest);
      RawPointRoundTrip(pts[0], tail + rest);
      StreamsRoundTrip(e1, d1, [pts[0]], pts[1..], rest);
      assert [pts[0]] + pts[1..] == pts;
    }
  }

  // ----- histogram series -----

  lemma {:induction false} FloatsRoundTrip(vs: seq<U64>, rest: Bytes)
    ensures ParseFloats(FloatsBytes(vs) + rest, |vs|) == Ok((vs, rest))
  {
    hide BigEndian, ParseFloat64;
    if vs == [] {
      assert [] + rest == rest;
    } else {
      var tail := FloatsBytes(vs[1..]);
      ConcatAssoc(BigEndian(vs[0], 8), tail, rest);
      FloatRoundTrip(vs[0], tail + rest);
      FloatsRoundTrip(vs[1..], rest);
      assert [vs[0]] + vs[1..] == vs;
    }
  }

  lemma {:induction false} UvarintsRoundTrip(vs: seq<U64>, rest: Bytes)
    ensures ParseUvarints(UvarintsBytes(vs) + rest, |vs|) == Ok((vs, rest))
  {
    hide Uvarint, ParseUvarint;
    if vs == [] {
      assert [] + rest == rest;
    } else {
      var tail := UvarintsBytes(vs[1..]);
      ConcatAssoc(Uvarint(vs[0]), tail, rest);
      UvarintRoundTrip(vs[0], tail + rest);
      UvarintsRoundTrip(vs[1..], rest);
      assert [vs[0]] + vs[1..] == vs;
    }
  }

  lemma TotalsRoundTrip(h: Hist, rest: Bytes)
    ensures ParseTotals(TotalsBytes(h) + rest) == Ok(((h.count, h.sum), rest))
  {
    hide Uvarint, ParseUvarint, BigEndian, ParseFloat64;
    ConcatAssoc(Uvarint(h.count), BigEndian(h.sum, 8), rest);
    UvarintRoundTrip(h.count, BigEndian(h.sum, 8) + rest);
    FloatRoundTrip(h.sum, rest);
  }

  lemma BoundsRoundTrip(h: Hist, st: State, rest: Bytes)
    requires |h.bounds| <= MAX_BUCKETS
    ensures ParseBounds(1, st, BoundsBytes(h) + rest) == Ok((h.bounds, rest))
  {
    hide Uvarint, ParseUvarint, FloatsBytes, ParseFloats;
    ConcatAssoc(Uvarint(|h.bounds|), FloatsBytes(h.bounds), rest);
    UvarintRoundTrip(|h.bounds|, FloatsBytes(h.bounds) + rest);
    FloatsRoundTrip(h.bounds, rest);
  }

  lemma BucketsRoundTrip(h: Hist, rest: Bytes)
    requires |h.buckets| <= MAX_BUCKETS
    ensures ParseBuckets(BucketsBytes(h) + rest) == Ok((h.buckets, rest))
  {
    hide Uvarint, ParseUvarint, UvarintsBytes, ParseUvarints;
    ConcatAssoc(Uvarint(|h.buckets|), UvarintsBytes(h.buckets), rest);
    UvarintRoundTrip(|h.buckets|, UvarintsBytes(h.buckets) + rest);
    UvarintsRoundTrip(h.buckets, rest);
  }

  predicate HistFits(p: StreamPoint) {
    |HistOf(p).bounds| <= MAX_BUCKETS && |HistOf(p).buckets| <= MAX_BUCKETS
  }

  /** What a histogram point looks like after the codec: attributes, minimum and maximum
      are not carried, and the bounds are those of the series' keyframe. */
  function CarriedHist(st: State, p: StreamPoint): StreamPoint {
    var h := HistOf(p);
    StreamPoint(p.ts, 0, Some(DecodedHist(p.ts, (h.count, h.sum), h.buckets, HistState(st, p).bounds)))
  }

  /** What a decoder whose state need not agree makes of a histogram point: the difference of
      times counts from its own last time, and the bounds are its own. */
  function ReadHist(e: State, d: State, p: StreamPoint): StreamPoint {
    var h := HistOf(p);
    var ts := if e.initialized then Add64(d.lastTs, Sub64(p.ts, e.lastTs)) else p.ts;
    StreamPoint(ts, 0, Some(DecodedHist(ts, (h.count, h.sum), h.buckets, if e.initialized then d.bounds else h.bounds)))
  }

  lemma HistPointRead(e: State, d: State, p: StreamPoint, rest: Bytes)
    requires (e.initialized ==> d.initialized) && HistFits(p)
    ensures var q := ReadHist(e, d, p);
      ParseHistPoint(d, HistPointBytes(e, p) + rest)
        == Ok(((q, d.(initialized := true, lastTs := q.ts, bounds := HistOf(q).bounds)), rest))
  {
    hide Uvarint, ParseUvarint, TotalsBytes, ParseTotals, BoundsBytes, ParseBounds, BucketsBytes, ParseBuckets;
    hide Zigzag, Unzigzag;
    var h := HistOf(p);
    var t, k := TotalsBytes(h), BucketsBytes(h);
    TotalsRoundTrip(h, (if e.initialized then [] else BoundsBytes(h)) + (k + rest));
    BucketsRoundTrip(h, rest);
    if e.initialized {
      var u := Uvarint(Zigzag(Sub64(p.ts, e.lastTs)));
      var b := [0] + (u + (t + (k + rest)));
      assert HistPointBytes(e, p) + rest == b by {
        ConcatAssoc([0], u + (t + k), rest);
        ConcatAssoc(u, t + k, rest);
        ConcatAssoc(t, k, rest);
      }
      assert b[1..] == u + (t + (k + rest));
      UvarintRoundTrip(Zigzag(Sub64(p.ts, e.lastTs)), t + (k + rest));
      ZigzagRoundTrip(Sub64(p.ts, e.lastTs));
      assert [] + (k + rest) == k + rest;
      assert ParseBounds(0, d, k + rest) == Ok((d.bounds, k + rest)) by {
        InheritedBounds(d, k + rest);
      }
    } else {
      var u, o := Uvarint(Zigzag(p.ts)), BoundsBytes(h);
      var b := [1] + (u + (t + (o + (k + rest))));
      assert HistPointBytes(e, p) + rest == b by {
        ConcatAssoc([1], u + (t + (o + k)), rest);
        ConcatAssoc(u, t + (o + k), rest);
        ConcatAssoc(t, o + k, rest);
        ConcatAssoc(o, k, rest);
      }
      assert b[1..] == u + (t + (o + (k + rest)));
      UvarintRoundTrip(Zigzag(p.ts), t + (o + (k + rest)));
      ZigzagRoundTrip(p.ts);
      BoundsRoundTrip(h, d, k + rest);
    }
  }

  /** A histogram point reads back from an agreeing state, and a keyframe from any state. */
  lemma HistPointRoundTrip(e: State, d: State, p: StreamPoint, rest: Bytes)
    requires (e.initialized ==> e.SameHist(d)) && HistFits(p)
    ensures ParseHistPoint(d, HistPointBytes(e, p) + rest)
      == Ok(((CarriedHist(e, p), d.(initialized := true, lastTs := p.ts, bounds := HistState(e, p).bounds)), rest))
  {
    hide ParseHistPoint, HistPointBytes;
    HistPointRead(e, d, p, rest);
    AddAfterSub(p.ts, e.lastTs);
  }

  lemma InheritedBounds(st: State, b: Bytes)
    ensures ParseBounds(0, st, b) == Ok((st.bounds, b))
  {
  }

  function CarriedHists(st: State, ps: seq<StreamPoint>): seq<StreamPoint>
    decreases |ps|
  {
    if ps == [] then [] else [CarriedHist(st, ps[0])] + CarriedHists(HistState(st, ps[0]), ps[1..])
  }

  lemma {:induction false} HistPointsRoundTrip(e: State, d: State, ps: seq<StreamPoint>, rest: Bytes)
    requires e.initialized || ps == [] ==> e.SameHist(d)
    requires forall p :: p in ps ==> HistFits(p)
    ensures var r := ParseHistPoints(d, HistsBytes(e, ps) + rest, |ps|);
      && r.Ok? && r.value.0.0 == CarriedHists(e, ps) && r.value.1 == rest
      && HistsState(e, ps).SameHist(r.value.0.1)
    decreases |ps|
  {
    hide HistPointBytes, ParseHistPoint, CarriedHist;
    if ps == [] {
      assert [] + rest == rest;
    } else {
      var tail := HistsBytes(HistState(e, ps[0]), ps[1..]);
      ConcatAssoc(HistPointBytes(e, ps[0]), tail, rest);
      HistPointRoundTrip(e, d, ps[0], tail + rest);
      var d' := d.(initialized := true, lastTs := ps[0].ts, bounds := HistState(e, ps[0]).bounds);
      HistPointsRoundTrip(HistState(e, ps[0]), d', ps[1..], rest);
    }
  }

  /** Which bounds the points of a series are carried with. */
  function StreamBounds(st: State, ps: seq<StreamPoint>): seq<U64>
    requires ps != []
  {
    if st.initialized then st.bounds else HistOf(ps[0]).bounds
  }

  /** A flattened histogram point. */
  predicate IsHistPoint(p: StreamPoint) {
    p.hist.Some? && p.val == 0 && p.hist.value.ts == p.ts
  }

  /** Histogram points survive the codec exactly when they have no attributes, no minimum and
      maximum, and the bounds their series started with on this connection. */
  lemma {:induction false} HistsCarriedExactly(st: State, ps: seq<StreamPoint>)
    requires ps != [] && forall p :: p in ps ==> IsHistPoint(p)
    ensures CarriedHists(st, ps) == ps <==>
      forall p :: p in ps ==>
        && HistOf(p).attrs == map[] && HistOf(p).min == 0 && HistOf(p).max == 0
        && HistOf(p).bounds == StreamBounds(st, ps)
    decreases |ps|
  {
    var c, st' := CarriedHists(st, ps), HistState(st, ps[0]);
    assert c[0] == CarriedHist(st, ps[0]) && c[1..] == CarriedHists(st', ps[1..]);
    assert ps == [ps[0]] + ps[1..];
    assert ps[0] in ps && forall p :: p in ps <==> p == ps[0] || p in ps[1..];
    assert c == ps <==> c[0] == ps[0] && c[1..] == ps[1..];
    if |ps| > 1 {
      HistsCarriedExactly(st', ps[1..]);
    }
  }

  lemma HistsRoundTrip(e: State, d: Option<State>, ps: seq<StreamPoint>, rest: Bytes)
    requires ps != [] && (e.initialized ==> d.Some? && e.SameHist(d.value))
    requires |ps| <= MAX_HIST_POINTS && forall p :: p in ps ==> HistFits(p)
    ensures var r := ParseHists(d, Uvarint(|ps|) + HistsBytes(e, ps) + rest);
      && r.Ok? && r.value.0.0 == CarriedHists(e, ps) && r.value.1 == rest
      && HistsState(e, ps).SameHist(r.value.0.1)
  {
    hide Uvarint, ParseUvarint, HistsBytes, ParseHistPoints, CarriedHists, HistsState;
    ConcatAssoc(Uvarint(|ps|), HistsBytes(e, ps), rest);
    UvarintRoundTrip(|ps|, HistsBytes(e, ps) + rest);
    HistPointsRoundTrip(e, if d.Some? then d.value else FRESH, ps, rest);
  }
}
