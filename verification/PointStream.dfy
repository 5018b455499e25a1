/** The two bit streams of a number series: what a run of points costs, and that
    reading it back gives the points and an equal state. */
module PointStream {
  import opened Words
  import opened BitStream
  import opened Gorilla

  datatype Point = Point(ts: I64, val: U64)

  function Delta(st: State, p: Point): I64 {
    Sub64(p.ts, st.lastTs)
  }

  function NextState(st: State, p: Point): (st': State)
    requires st.Valid()
    ensures st'.Valid() && st'.bounds == st.bounds
  {
    XorState(st.(lastTs := p.ts, lastDelta := Delta(st, p)), p.val)
  }

  function AfterPoints(st: State, pts: seq<Point>): (st': State)
    requires st.Valid()
    ensures st'.Valid() && st'.bounds == st.bounds
    decreases |pts|
  {
    if pts == [] then st else AfterPoints(NextState(st, pts[0]), pts[1..])
  }

  function TsBits(st: State, pts: seq<Point>): Bits
    requires st.Valid()
    decreases |pts|
  {
    if pts == [] then []
    else DodBits(Sub64(Delta(st, pts[0]), st.lastDelta)) + TsBits(NextState(st, pts[0]), pts[1..])
  }

  function ValBits(st: State, pts: seq<Point>): Bits
    requires st.Valid()
    decreases |pts|
  {
    if pts == [] then []
    else XorBits(st, pts[0].val) + ValBits(NextState(st, pts[0]), pts[1..])
  }

  /** Reads `n` points from the two streams. */
  function ParsePoints(st: State, tb: Bits, vb: Bits, n: nat): (r: Result<(seq<Point>, State)>)
    requires st.Valid()
    ensures r.Ok? ==> r.value.1.Valid() && |r.value.0| == n && r.value.1.bounds == st.bounds
    decreases n
  {
    if n == 0 then Ok(([], st))
    else match ParsePoint(st, tb, vb)
      case Err => Err
      case Ok((st', tb', vb')) =>
        match ParsePoints(st', tb', vb', n - 1)
        case Err => Err
        case Ok((pts, last)) => Ok(([Point(st'.lastTs, st'.lastVal)] + pts, last))
  }

  function ParsePoint(st: State, tb: Bits, vb: Bits): (r: Result<(State, Bits, Bits)>)
    requires st.Valid()
    ensures r.Ok? ==> r.value.0.Valid() && r.value.0.bounds == st.bounds
  {
    match ParseDod(tb)
    case Err => Err
    case Ok((dod, tb')) =>
      var delta := Add64(st.lastDelta, dod);
      match ParseXor(st.(lastDelta := delta, lastTs := Add64(st.lastTs, delta)), vb)
      case Err => Err
      case Ok((st', vb')) => Ok((st', tb', vb'))
  }

  /** One point read from states that agree. */
  lemma PointRoundTrip(e: State, d: State, p: Point, tr: Bits, vr: Bits)
    requires e.Valid() && d.Valid() && e.Same(d)
    ensures var r := ParsePoint(d, DodBits(Sub64(Delta(e, p), e.lastDelta)) + tr, XorBits(e, p.val) + vr);
      && r.Ok? && r.value.1 == tr && r.value.2 == vr
      && NextState(e, p).Same(r.value.0) && r.value.0.lastTs == p.ts && r.value.0.lastVal == p.val
  {
    hide DodBits, XorBits, ParseDod, ParseXor, XorState;
    var dod := Sub64(Delta(e, p), e.lastDelta);
    DodRoundTrip(dod, tr);
    AddAfterSub(Delta(e, p), e.lastDelta);
    AddAfterSub(p.ts, e.lastTs);
    var e1 := e.(lastTs := p.ts, lastDelta := Delta(e, p));
    var d1 := d.(lastTs := p.ts, lastDelta := Delta(e, p));
    assert XorBits(e1, p.val) == XorBits(e, p.val) && XorKeeps(e1, p.val) by {
      XorIgnoresTime(e, e1, p.val);
    }
    XorRoundTrip(e1, d1, p.val, vr);
  }

  ghost predicate XorKeeps(st: State, val: U64)
    requires st.Valid()
  {
    var st' := XorState(st, val);
    st' == st.(lastVal := val, lz := st'.lz, tz := st'.tz, hasWindow := st'.hasWindow)
  }

  lemma XorIgnoresTime(a: State, b: State, val: U64)
    requires a.Valid() && b == a.(lastTs := b.lastTs, lastDelta := b.lastDelta)
    ensures XorBits(a, val) == XorBits(b, val) && XorKeeps(b, val)
  {
  }

  /** Any list of points, with any timestamps and any 64-bit values, is read back from the
      two streams, whatever follows them, and writer and reader end in states that agree. */
  lemma {:induction false} PointsRoundTrip(e: State, d: State, pts: seq<Point>, tr: Bits, vr: Bits)
    requires e.Valid() && d.Valid() && e.Same(d)
    ensures var r := ParsePoints(d, TsBits(e, pts) + tr, ValBits(e, pts) + vr, |pts|);
      r.Ok? && r.value.0 == pts && AfterPoints(e, pts).Same(r.value.1)
    decreases |pts|
  {
    hide DodBits, XorBits, ParsePoint, NextState;
    if pts != [] {
      var p, rest := pts[0], pts[1..];
      var e' := NextState(e, p);
      var tb, vb := TsBits(e', rest) + tr, ValBits(e', rest) + vr;
      PointRoundTrip(e, d, p, tb, vb);
      ConcatAssoc(DodBits(Sub64(Delta(e, p), e.lastDelta)), TsBits(e', rest), tr);
      ConcatAssoc(XorBits(e, p.val), ValBits(e', rest), vr);
      var d' := ParsePoint(d, TsBits(e, pts) + tr, ValBits(e, pts) + vr).value.0;
      PointsRoundTrip(e', d', rest, tr, vr);
      assert pts == [p] + rest;
    }
  }

  function Gap(st: State, pts: seq<Point>, i: nat): I64
    requires i < |pts|
  {
    Sub64(pts[i].ts, if i == 0 then st.lastTs else pts[i - 1].ts)
  }

  /** The state after a run of points is that of the last one: its time, value and interval. */
  lemma {:induction false} LastPoint(st: State, pts: seq<Point>)
    requires st.Valid() && pts != []
    ensures var st', n := AfterPoints(st, pts), |pts| - 1;
      && st'.lastTs == pts[n].ts && st'.lastVal == pts[n].val && st'.lastDelta == Gap(st, pts, n)
      && st'.initialized == st.initialized
    decreases |pts|
  {
    hide XorBits, XorWord;
    if |pts| > 1 {
      var st1, rest, n := NextState(st, pts[0]), pts[1..], |pts| - 1;
      LastPoint(st1, rest);
      assert Gap(st1, rest, n - 1) == Gap(st, pts, n);
    }
  }

  // ----- what points cost -----

  lemma PointCost(st: State, p: Point)
    requires st.Valid()
    ensures 1 <= |DodBits(Sub64(Delta(st, p), st.lastDelta))| <= 69
    ensures 1 <= |XorBits(st, p.val)| <= 77
  {
  }

  /** A run of points costs at most 69 timestamp bits and 77 value bits a point. */
  lemma {:induction false} CostBound(st: State, pts: seq<Point>)
    requires st.Valid()
    ensures |pts| <= |TsBits(st, pts)| <= 69 * |pts|
    ensures |pts| <= |ValBits(st, pts)| <= 77 * |pts|
    ensures |Pack(TsBits(st, pts))| == (|TsBits(st, pts)| + 7) / 8
    ensures |Pack(ValBits(st, pts))| == (|ValBits(st, pts)| + 7) / 8
    decreases |pts|
  {
    hide DodBits, XorBits, NextState, Pack;
    PackLength(TsBits(st, pts));
    PackLength(ValBits(st, pts));
    if pts != [] {
      PointCost(st, pts[0]);
      CostBound(NextState(st, pts[0]), pts[1..]);
    }
  }

  /** Points follow each other, and `st`, at the constant interval `period`. */
  ghost predicate AtInterval(st: State, pts: seq<Point>, period: I64) {
    forall i :: 0 <= i < |pts| ==> Gap(st, pts, i) == period
  }

  /** Points after the first are at the interval from the state after the first. */
  lemma AtIntervalTail(st: State, pts: seq<Point>, period: I64)
    requires st.Valid() && AtInterval(st, pts, period) && pts != []
    ensures Delta(st, pts[0]) == period
    ensures AtInterval(NextState(st, pts[0]), pts[1..], period)
  {
    assert Gap(st, pts, 0) == period;
    forall i | 0 <= i < |pts| - 1
      ensures Gap(NextState(st, pts[0]), pts[1..], i) == period
    {
      assert Gap(st, pts, i + 1) == period;
    }
  }

  /** Once the interval is known, every further point at it costs one timestamp bit. */
  lemma {:induction false} SteadyCost(st: State, pts: seq<Point>, period: I64)
    requires st.Valid() && st.lastDelta == period && AtInterval(st, pts, period)
    ensures |TsBits(st, pts)| == |pts|
    decreases |pts|
  {
    if pts != [] {
      AtIntervalTail(st, pts, period);
      SteadyCost(NextState(st, pts[0]), pts[1..], period);
    }
  }

  /** After a fresh keyframe, points at a constant interval cost the code of the period
      once and one bit each after that. */
  lemma KeyframeCost(st: State, pts: seq<Point>, period: I64)
    requires st.Valid() && st.lastDelta == 0 && AtInterval(st, pts, period) && pts != []
    ensures |TsBits(st, pts)| == |DodBits(period)| + |pts| - 1
  {
    hide DodBits;
    AtIntervalTail(st, pts, period);
    SteadyCost(NextState(st, pts[0]), pts[1..], period);
  }

  /** The length of each tier. */
  lemma TierLengths(dod: I64)
    ensures |DodBits(dod)| ==
      if dod == 0 then 1 else if -63 <= dod <= 64 then 9 else if -255 <= dod <= 256 then 12
      else if -2047 <= dod <= 2048 then 16 else if FitsInt32(dod) then 37 else 69
  {
  }
}
