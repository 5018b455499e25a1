/** What the streaming state is for: over all frames of a connection a number series is one
    Gorilla stream, and a steady series costs two bits a point. */
module StreamCost {
  import opened Words
  import opened BitStream
  import opened Gorilla
  import opened PointStream
  import opened ByteCodec
  import opened StreamFormat

  // ----- one stream over many frames -----

  /** Points in two frames cost what they cost in one. */
  lemma {:induction false} StreamContinues(st: State, xs: seq<Point>, ys: seq<Point>)
    requires st.Valid()
    ensures AfterPoints(st, xs + ys) == AfterPoints(AfterPoints(st, xs), ys)
    ensures TsBits(st, xs + ys) == TsBits(st, xs) + TsBits(AfterPoints(st, xs), ys)
    ensures ValBits(st, xs + ys) == ValBits(st, xs) + ValBits(AfterPoints(st, xs), ys)
    decreases |xs|
  {
    hide DodBits, XorBits, NextState;
    if xs == [] {
      assert xs + ys == ys;
      assert [] + TsBits(st, ys) == TsBits(st, ys) && [] + ValBits(st, ys) == ValBits(st, ys);
    } else {
      var st', after := NextState(st, xs[0]), AfterPoints(st, xs);
      assert (xs + ys)[1..] == xs[1..] + ys;
      StreamContinues(st', xs[1..], ys);
      ConcatAssoc(DodBits(Sub64(Delta(st, xs[0]), st.lastDelta)), TsBits(st', xs[1..]), TsBits(after, ys));
      ConcatAssoc(XorBits(st, xs[0].val), ValBits(st', xs[1..]), ValBits(after, ys));
    }
  }

  /** The key of a number series that goes on from an earlier frame. */
  predicate GoesOn(e: Streams, s: Series) {
    && s.points != [] && s.hdr.kind != HISTOGRAM && |e| < MAX_SERIES
    && s.hdr.Key() in e && e[s.hdr.Key()].initialized
  }

  /** Such a series is written without a raw point: its timestamps and values are the next bits of
      the two streams of its key, and the state of its key, and of no other, moves on by them. */
  lemma SeriesContinues(e: Streams, s: Series)
    requires AllValid(e) && GoesOn(e, s)
    ensures var st, pts := e[s.hdr.Key()], NumberPoints(s.points);
      && st.Valid()
      && PointsBytes(e, s) == Uvarint(|pts|) + ([0] + (Block(TsBits(st, pts)) + Block(ValBits(st, pts))))
      && AfterSeries(e, s) == e[s.hdr.Key() := AfterPoints(st, pts)]
  {
    hide TsBits, ValBits, AfterPoints, Header.Key, Block, Uvarint;
  }

  /** A series that is new, below the cap, starts with its first point raw. */
  lemma SeriesBegins(e: Streams, s: Series)
    requires AllValid(e) && s.points != [] && s.hdr.kind != HISTOGRAM && |e| < MAX_SERIES && s.hdr.Key() !in e
    ensures var pts := NumberPoints(s.points);
      var st := Keyframed(FRESH, pts[0]);
      && PointsBytes(e, s)
        == Uvarint(|pts|) + ([1] + (RawPoint(pts[0]) + (Block(TsBits(st, pts[1..])) + Block(ValBits(st, pts[1..])))))
      && AfterSeries(e, s) == e[s.hdr.Key() := AfterPoints(st, pts[1..])]
      && st.lastTs == pts[0].ts && st.lastVal == pts[0].val && st.lastDelta == 0 && !st.hasWindow
  {
    hide TsBits, ValBits, AfterPoints, Header.Key, Block, Uvarint, RawPoint;
  }

  /** A histogram that goes on is written without its bounds, however many there are. */
  lemma BoundsOnce(st: State, p: StreamPoint, bounds: seq<U64>)
    requires st.initialized && p.hist.Some?
    ensures HistPointBytes(st, p.(hist := Some(p.hist.value.(bounds := bounds)))) == HistPointBytes(st, p)
    ensures |HistPointBytes(st, p)|
      == 1 + |Uvarint(Zigzag(Sub64(p.ts, st.lastTs)))| + |TotalsBytes(p.hist.value)| + |BucketsBytes(p.hist.value)|
  {
    hide Uvarint, Zigzag, FloatsBytes, UvarintsBytes, BigEndian;
  }

  // ----- what frames cost -----

  /** Every point has the value `val`. */
  predicate Constant(pts: seq<Point>, val: U64) {
    forall p :: p in pts ==> p.val == val
  }

  /** Unchanged values cost one bit each. */
  lemma {:induction false} ConstantCost(st: State, pts: seq<Point>)
    requires st.Valid() && Constant(pts, st.lastVal)
    ensures |ValBits(st, pts)| == |pts|
    decreases |pts|
  {
    hide XorWord;
    if pts != [] {
      assert pts[0] in pts;
      SameWord(pts[0].val, st.lastVal);
      ConstantCost(NextState(st, pts[0]), pts[1..]);
    }
  }

  lemma BlockLength(b: Bits)
    ensures |Block(b)| == |Uvarint((|b| + 7) / 8)| + (|b| + 7) / 8
  {
    hide Pack, Uvarint;
    PackLength(b);
  }

  /** The state of a series that goes on is then that of its last point. */
  lemma ContinuedState(e: Streams, s: Series)
    requires AllValid(e) && GoesOn(e, s)
    ensures var key, pts := s.hdr.Key(), NumberPoints(s.points);
      && key in AfterSeries(e, s)
      && var st := AfterSeries(e, s)[key];
         && st.initialized && st.lastTs == pts[|pts| - 1].ts && st.lastVal == pts[|pts| - 1].val
         && st.lastDelta == Gap(e[key], pts, |pts| - 1)
  {
    hide AfterPoints, Header.Key, AfterSeries, PointsBytes, Gap;
    SeriesContinues(e, s);
    LastPoint(e[s.hdr.Key()], NumberPoints(s.points));
  }

  /** A series that goes on at its interval with its value costs two bits a point, rounded up to
      bytes, and a few bytes of lengths. */
  lemma ContinuedCost(e: Streams, s: Series)
    requires AllValid(e) && GoesOn(e, s)
    requires var st, pts := e[s.hdr.Key()], NumberPoints(s.points);
      AtInterval(st, pts, st.lastDelta) && Constant(pts, st.lastVal)
    ensures var n := |s.points|;
      |PointsBytes(e, s)| == |Uvarint(n)| + 1 + 2 * (|Uvarint((n + 7) / 8)| + (n + 7) / 8)
  {
    hide TsBits, ValBits, AfterPoints, Header.Key, Block, Uvarint, AtInterval, Constant;
    var st, pts := e[s.hdr.Key()], NumberPoints(s.points);
    SeriesContinues(e, s);
    SteadyCost(st, pts, st.lastDelta);
    ConstantCost(st, pts);
    BlockLength(TsBits(st, pts));
    BlockLength(ValBits(st, pts));
  }
}
