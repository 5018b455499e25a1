/** The Gorilla bit codes (`internal/transport/codec/gorilla.go`): delta-of-delta
    timestamps and XOR-compressed values, each as an imperative writer and reader
    proved against a code on bit sequences. */
module Gorilla {
  import opened Words
  import opened BitStream

  /** The per-series stream state, as a value. Floats are their 64-bit patterns. */
  datatype State = State(
    initialized: bool,
    lastTs: I64,
    lastDelta: I64,
    lastVal: U64,
    lz: nat,
    tz: nat,
    hasWindow: bool,
    bounds: seq<U64>)
  {
    /** A stored window leaves at least one significant bit. */
    ghost predicate Valid() {
      hasWindow ==> lz + tz <= 63
    }

    /** Equal in everything a number series reads. */
    ghost predicate Same(other: State) {
      && initialized == other.initialized
      && lastTs == other.lastTs && lastDelta == other.lastDelta
      && SameValue(other)
    }

    /** Equal in everything that only number series read. */
    ghost predicate SameNumbers(other: State) {
      lastDelta == other.lastDelta && SameValue(other)
    }

    /** Equal in everything a series of either kind reads. */
    ghost predicate Equal(other: State) {
      SameHist(other) && SameNumbers(other)
    }

    /** Equal in everything a histogram series reads. */
    ghost predicate SameHist(other: State) {
      initialized == other.initialized && lastTs == other.lastTs && bounds == other.bounds
    }

    ghost predicate SameValue(other: State) {
      && lastVal == other.lastVal
      && hasWindow == other.hasWindow
      && (hasWindow ==> lz == other.lz && tz == other.tz)
    }
  }

  const FRESH := State(false, 0, 0, 0, 0, 0, false, [])

  /** The mutable record that encoder and decoder keep per series. */
  class SeriesState {
    var initialized: bool
    var lastTs: I64
    var lastDelta: I64
    var lastVal: U64
    var lz: nat
    var tz: nat
    var hasWindow: bool
    var bounds: seq<U64>

    ghost function View(): State
      reads this
    {
      State(initialized, lastTs, lastDelta, lastVal, lz, tz, hasWindow, bounds)
    }

    constructor ()
      ensures View() == FRESH
    {
      initialized, lastTs, lastDelta, lastVal := false, 0, 0, 0;
      lz, tz, hasWindow, bounds := 0, 0, false, [];
    }

    /** The scratch copy a decoder works on. */
    constructor Copy(st: SeriesState)
      ensures View() == st.View()
    {
      initialized, lastTs, lastDelta, lastVal := st.initialized, st.lastTs, st.lastDelta, st.lastVal;
      lz, tz, hasWindow, bounds := st.lz, st.tz, st.hasWindow, st.bounds;
    }
  }

  // ----- delta-of-delta timestamps (Gorilla, VLDB 2015, section 4.1) -----

  const MAX_INT32 := 0x7fff_ffff

  /** The tiered code of one delta-of-delta. */
  function DodBits(dod: I64): Bits {
    if dod == 0 then [false]
    else if -63 <= dod <= 64 then ToBits(2, 2) + ToBits(Unsigned(dod + 63), 7)
    else if -255 <= dod <= 256 then ToBits(6, 3) + ToBits(Unsigned(dod + 255), 9)
    else if -2047 <= dod <= 2048 then ToBits(14, 4) + ToBits(Unsigned(dod + 2047), 12)
    else ToBits(15, 4) + WideBits(dod)
  }

  predicate FitsInt32(dod: I64) {
    -MAX_INT32 - 1 <= dod <= MAX_INT32
  }

  function WideBits(dod: I64): Bits {
    if FitsInt32(dod) then [false] + ToBits(Unsigned(dod), 32)
    else [true] + ToBits(Unsigned(dod), 64)
  }

  /** Sign extension of a 32-bit pattern. */
  function FromInt32(v: U64): I64 {
    var low := v % TWO_TO_32;
    if low > MAX_INT32 then low - TWO_TO_32 else low
  }

  /** Reads one tiered code off the front of a bit sequence. */
  function ParseDod(b: Bits): Result<(I64, Bits)> {
    if b == [] then Err
    else if !b[0] then Ok((0, b[1..]))
    else ParseTier(b[1..], 1)
  }

  /** The same after `ones` one bits. */
  function ParseTier(b: Bits, ones: nat): Result<(I64, Bits)>
    requires 1 <= ones <= 4
    decreases 4 - ones
  {
    if b == [] then Err
    else if ones == 4 then ParseWide(b[0], b[1..])
    else if b[0] then ParseTier(b[1..], ones + 1)
    else if ones == 1 then Biased(TakeBits(b[1..], 7), 63)
    else if ones == 2 then Biased(TakeBits(b[1..], 9), 255)
    else Biased(TakeBits(b[1..], 12), 2047)
  }

  function Biased(r: Result<(U64, Bits)>, bias: I64): Result<(I64, Bits)> {
    match r
    case Err => Err
    case Ok((v, rest)) => Ok((Sub64(Signed(v), bias), rest))
  }

  function ParseWide(wide: bool, b: Bits): Result<(I64, Bits)> {
    match TakeBits(b, if wide then 64 else 32)
    case Err => Err
    case Ok((v, rest)) => Ok((if wide then Signed(v) else FromInt32(v), rest))
  }

  method WriteDod(w: BitWriter, dod: I64)
    requires w.Valid()
    modifies w
    ensures w.Valid()
    ensures w.Contents() == old(w.Contents()) + DodBits(dod)
  {
    hide ToBits, BitWriter.Contents;
    ghost var before := w.Contents();
    if dod == 0 {
      w.WriteBit(false);
    } else if -63 <= dod <= 64 {
      w.WriteBits(2, 2);
      w.WriteBits(Unsigned(dod + 63), 7);
      ConcatAssoc(before, ToBits(2, 2), ToBits(Unsigned(dod + 63), 7));
    } else if -255 <= dod <= 256 {
      w.WriteBits(6, 3);
      w.WriteBits(Unsigned(dod + 255), 9);
      ConcatAssoc(before, ToBits(6, 3), ToBits(Unsigned(dod + 255), 9));
    } else if -2047 <= dod <= 2048 {
      w.WriteBits(14, 4);
      w.WriteBits(Unsigned(dod + 2047), 12);
      ConcatAssoc(before, ToBits(14, 4), ToBits(Unsigned(dod + 2047), 12));
    } else {
      w.WriteBits(15, 4);
      ConcatAssoc(before, ToBits(15, 4), WideBits(dod));
      ghost var start := w.Contents();
      if FitsInt32(dod) {
        w.WriteBit(false);
        w.WriteBits(Unsigned(dod), 32);
        ConcatAssoc(start, [false], ToBits(Unsigned(dod), 32));
        return;
      }
      w.WriteBit(true);
      w.WriteBits(Unsigned(dod), 64);
      ConcatAssoc(start, [true], ToBits(Unsigned(dod), 64));
    }
  }

  method ReadDod(r: BitReader) returns (d: Result<I64>)
    requires r.Valid()
    modifies r
    ensures r.Valid()
    ensures ParseDod(old(r.Rest())) == Parsed(d, r.Rest())
  {
    hide TakeBits, BitReader.Rest;
    var b0 := r.ReadBit();
    if b0.Err? { return Err; }
    if !b0.value { return Ok(0); }
    assert ParseDod(old(r.Rest())) == ParseTier(r.Rest(), 1);
    var b1 := r.ReadBit();
    if b1.Err? { return Err; }
    if !b1.value {
      var v := r.ReadBits(7);
      return if v.Ok? then Ok(Sub64(Signed(v.value), 63)) else Err;
    }
    assert ParseDod(old(r.Rest())) == ParseTier(r.Rest(), 2);
    var b2 := r.ReadBit();
    if b2.Err? { return Err; }
    if !b2.value {
      var v := r.ReadBits(9);
      return if v.Ok? then Ok(Sub64(Signed(v.value), 255)) else Err;
    }
    assert ParseDod(old(r.Rest())) == ParseTier(r.Rest(), 3);
    var b3 := r.ReadBit();
    if b3.Err? { return Err; }
    if !b3.value {
      var v := r.ReadBits(12);
      return if v.Ok? then Ok(Sub64(Signed(v.value), 2047)) else Err;
    }
    assert ParseDod(old(r.Rest())) == ParseTier(r.Rest(), 4);
    var wide := r.ReadBit();
    if wide.Err? { return Err; }
    assert ParseDod(old(r.Rest())) == ParseWide(wide.value, r.Rest());
    if !wide.value {
      var v := r.ReadBits(32);
      return if v.Ok? then Ok(FromInt32(v.value)) else Err;
    }
    var v := r.ReadBits(64);
    return if v.Ok? then Ok(Signed(v.value)) else Err;
  }

  /** High bits do not show in a narrower expansion. */
  lemma {:induction false} HighBitsDropped(v: nat, k: nat, n: nat)
    ensures ToBits(v + Shl(k, n), n) == ToBits(v, n)
  {
    if n > 0 {
      HighBitsDropped(v / 2, k, n - 1);
      assert (v + Shl(k, n)) / 2 == v / 2 + Shl(k, n - 1);
    }
  }

  /** The low 32 bits of a sign-extended number are those of its 32-bit pattern. */
  lemma Int32Bits(dod: I64)
    requires FitsInt32(dod)
    ensures ToBits(Unsigned(dod), 32) == ToBits(dod % TWO_TO_32, 32)
  {
    hide ToBits, Pow2;
    if dod < 0 {
      NegativeBits(dod + TWO_TO_32);
      assert dod % TWO_TO_32 == dod + TWO_TO_32;
    } else {
      assert dod % TWO_TO_32 == dod;
    }
  }

  lemma NegativeBits(low: nat)
    requires low < TWO_TO_32
    ensures ToBits(low + (TWO_TO_32 - 1) * TWO_TO_32, 32) == ToBits(low, 32)
  {
    hide Pow2, ToBits, Shl;
    Pow2Values();
    ShlTimes(TWO_TO_32 - 1, 32);
    HighBitsDropped(low, TWO_TO_32 - 1, 32);
  }

  lemma WideRoundTrip(dod: I64, rest: Bits)
    ensures ParseTier(WideBits(dod) + rest, 4) == Ok((dod, rest))
  {
    hide ToBits, Pow2, TakeBits;
    var b := WideBits(dod) + rest;
    Pow2Values();
    if FitsInt32(dod) {
      Int32Bits(dod);
      assert b[1..] == ToBits(dod % TWO_TO_32, 32) + rest;
      TakeWritten(dod % TWO_TO_32, 32, rest);
    } else {
      assert b[1..] == ToBits(Unsigned(dod), 64) + rest;
      TakeWritten(Unsigned(dod), 64, rest);
    }
  }

  lemma Prefixes(b: Bits)
    ensures ParseDod(ToBits(2, 2) + b) == Biased(TakeBits(b, 7), 63)
    ensures ParseDod(ToBits(6, 3) + b) == Biased(TakeBits(b, 9), 255)
    ensures ParseDod(ToBits(14, 4) + b) == Biased(TakeBits(b, 12), 2047)
    ensures ParseDod(ToBits(15, 4) + b) == ParseTier(b, 4)
  {
    assert ToBits(1, 1) == [true] && ToBits(3, 2) == [true, true] && ToBits(7, 3) == [true, true, true];
    AfterOnes(ToBits(2, 2) + b, 1);
    AfterOnes(ToBits(6, 3) + b, 2);
    AfterOnes(ToBits(14, 4) + b, 3);
    AfterOnes(ToBits(15, 4) + b, 4);
    assert (ToBits(2, 2) + b)[1..][1..] == b;
    assert (ToBits(6, 3) + b)[2..][1..] == b;
    assert (ToBits(14, 4) + b)[3..][1..] == b;
    assert (ToBits(15, 4) + b)[4..] == b;
  }

  lemma {:induction false} AfterOnes(b: Bits, ones: nat)
    requires 1 <= ones <= 4 && ones <= |b|
    requires forall i :: 0 <= i < ones ==> b[i]
    ensures ParseDod(b) == ParseTier(b[ones..], ones)
  {
    if ones > 1 {
      AfterOnes(b, ones - 1);
      assert b[ones - 1..][1..] == b[ones..];
    }
  }

  /** Every delta-of-delta, over the whole of int64, reads back, and the code tells
      where it ends: whatever follows it is left alone. */
  lemma DodRoundTrip(dod: I64, rest: Bits)
    ensures ParseDod(DodBits(dod) + rest) == Ok((dod, rest))
  {
    if dod == 0 {
      assert ([false] + rest)[1..] == rest;
    } else {
      NonzeroDodRoundTrip(dod, rest);
    }
  }

  lemma NonzeroDodRoundTrip(dod: I64, rest: Bits)
    requires dod != 0
    ensures ParseDod(DodBits(dod) + rest) == Ok((dod, rest))
  {
    hide ToBits, ParseDod, TakeBits, ParseTier, WideBits, Pow2;
    Pow2Values();
    if -63 <= dod <= 64 {
      Prefixes(ToBits(dod + 63, 7) + rest);
      ConcatAssoc(ToBits(2, 2), ToBits(dod + 63, 7), rest);
      TakeWritten(dod + 63, 7, rest);
    } else if -255 <= dod <= 256 {
      Prefixes(ToBits(dod + 255, 9) + rest);
      ConcatAssoc(ToBits(6, 3), ToBits(dod + 255, 9), rest);
      TakeWritten(dod + 255, 9, rest);
    } else if -2047 <= dod <= 2048 {
      Prefixes(ToBits(dod + 2047, 12) + rest);
      ConcatAssoc(ToBits(14, 4), ToBits(dod + 2047, 12), rest);
      TakeWritten(dod + 2047, 12, rest);
    } else {
      Prefixes(WideBits(dod) + rest);
      ConcatAssoc(ToBits(15, 4), WideBits(dod), rest);
      WideRoundTrip(dod, rest);
    }
  }

  // ----- XOR-compressed values (Gorilla, section 4.2) -----

  /** The number of bits up to and including the highest one set. */
  function BitLength(x: nat): (n: nat)
    ensures x < Pow2(n)
  {
    if x == 0 then 0 else 1 + BitLength(x / 2)
  }

  lemma {:induction false} BitLengthMinimal(x: nat, n: nat)
    requires x < Pow2(n)
    ensures BitLength(x) <= n
  {
    if x > 0 {
      BitLengthMinimal(x / 2, n - 1);
    }
  }

  function LeadingZeros64(x: U64): (n: nat)
    ensures n <= 64 && x < Pow2(64 - n)
    ensures x > 0 ==> n <= 63
  {
    Pow2Values();
    BitLengthMinimal(x, 64);
    64 - BitLength(x)
  }

  function TrailingZeros(x: nat): (n: nat)
    requires x > 0
    ensures Pow2(n) <= x
  {
    if x % 2 == 1 then 0 else 1 + TrailingZeros(x / 2)
  }

  /** Shifting out trailing zeros loses nothing. */
  lemma {:induction false} ShiftBack(x: nat, n: nat)
    requires x > 0 && n <= TrailingZeros(x)
    ensures Shl(Shr(x, n), n) == x
  {
    if n > 0 {
      ShiftBack(x / 2, n - 1);
      ShlFirst(Shr(x / 2, n - 1), n - 1);
    }
  }

  lemma {:induction false} ShlFirst(v: nat, n: nat)
    ensures Shl(v, n + 1) == 2 * Shl(v, n)
  {
  }

  lemma ZerosFit(x: U64)
    requires x > 0
    ensures LeadingZeros64(x) + TrailingZeros(x) <= 63
  {
    var lz, tz := LeadingZeros64(x), TrailingZeros(x);
    if lz + tz > 63 {
      Pow2Monotone(64 - lz, tz);
    }
  }

  /** The window a new XOR opens: at most 31 leading zeros are counted. */
  function WindowLz(x: U64): nat {
    if LeadingZeros64(x) >= 32 then 31 else LeadingZeros64(x)
  }

  predicate Reuses(st: State, x: U64)
    requires x > 0
  {
    st.hasWindow && LeadingZeros64(x) >= st.lz && TrailingZeros(x) >= st.tz
  }

  /** The code of one value after state `st`. */
  function XorBits(st: State, val: U64): Bits
    requires st.Valid()
  {
    var x := XorWord(val, st.lastVal);
    if x == 0 then [false]
    else if Reuses(st, x) then [true, false] + PayloadBits(x, st.lz, st.tz)
    else [true, true] + WindowBits(x)
  }

  function PayloadBits(x: U64, lz: nat, tz: nat): Bits
    requires lz + tz <= 63
  {
    ToBits(Shr(x, tz), 64 - lz - tz)
  }

  /** A new window: five bits of leading zeros, six of length (64 as 0), the payload. */
  function WindowBits(x: U64): Bits
    requires x > 0
  {
    ZerosFit(x);
    var lz, tz := WindowLz(x), TrailingZeros(x);
    ToBits(lz, 5) + (ToBits((64 - lz - tz) % 64, 6) + PayloadBits(x, lz, tz))
  }

  /** The state after one value. */
  function XorState(st: State, val: U64): (st': State)
    requires st.Valid()
    ensures st'.Valid() && st'.lastVal == val && st'.bounds == st.bounds
  {
    var x := XorWord(val, st.lastVal);
    var next := st.(lastVal := val);
    if x == 0 || Reuses(st, x) then next
    else
      ZerosFit(x);
      next.(lz := WindowLz(x), tz := TrailingZeros(x), hasWindow := true)
  }

  /** What a value costs: one bit if it repeats; two and the bits of the stored window, which stays
      in use, if the difference fits it; otherwise thirteen and the bits of a window of its own,
      which is then stored. */
  lemma XorCost(st: State, val: U64)
    requires st.Valid()
    ensures var x, n, st' := XorWord(val, st.lastVal), |XorBits(st, val)|, XorState(st, val);
      if val == st.lastVal then n == 1 && st' == st
      else
        && x > 0
        && var lz, tz := LeadingZeros64(x), TrailingZeros(x);
           if st.hasWindow && st.lz <= lz && st.tz <= tz then
             n == 2 + (64 - st.lz - st.tz) && st' == st.(lastVal := val)
           else
             var cut := if lz > 31 then 31 else lz;
             n == 13 + (64 - cut - tz) && st' == st.(lastVal := val, lz := cut, tz := tz, hasWindow := true)
  {
    hide XorWord, LeadingZeros64, TrailingZeros, Shr;
    SameWord(val, st.lastVal);
    if val != st.lastVal {
      ZerosFit(XorWord(val, st.lastVal));
    }
  }

  method WriteValueXor(w: BitWriter, st: SeriesState, val: U64)
    requires w.Valid() && st.View().Valid()
    modifies w, st
    ensures w.Valid()
    ensures w.Contents() == old(w.Contents()) + XorBits(old(st.View()), val)
    ensures st.View() == XorState(old(st.View()), val)
  {
    hide ToBits, XorWord, LeadingZeros64, TrailingZeros, BitWriter.Contents, BitWriter.Valid, Shr, WindowBits;
    ghost var before, s0 := w.Contents(), st.View();
    var x := XorWord(val, st.lastVal);
    st.lastVal := val;
    if x == 0 {
      w.WriteBit(false);
      return;
    }
    var lz := LeadingZeros64(x);
    var tz := TrailingZeros(x);
    ZerosFit(x);
    w.WriteBit(true);
    if st.hasWindow && lz >= st.lz && tz >= st.tz {
      w.WriteBit(false);
      var sig := 64 - st.lz - st.tz;
      w.WriteBits(ShrWord(x, st.tz), sig);
      assert [true] + [false] == [true, false];
      ConcatAssoc(before, [true], [false]);
      ConcatAssoc(before, [true, false], PayloadBits(x, st.lz, st.tz));
      assert Reuses(s0, x);
      return;
    }
    w.WriteBit(true);
    st.lz, st.tz := WriteWindow(w, x);
    st.hasWindow := true;
    assert [true] + [true] == [true, true];
    ConcatAssoc(before, [true], [true]);
    ConcatAssoc(before, [true, true], WindowBits(x));
  }

  /** Writes a new window and the bits in it. */
  method WriteWindow(w: BitWriter, x: U64) returns (lz: nat, tz: nat)
    requires w.Valid() && x > 0
    modifies w
    ensures w.Valid() && lz == WindowLz(x) && tz == TrailingZeros(x)
    ensures w.Contents() == old(w.Contents()) + WindowBits(x)
  {
    hide ToBits, LeadingZeros64, TrailingZeros, BitWriter.Contents, BitWriter.Valid, Shr;
    ghost var before := w.Contents();
    lz, tz := LeadingZeros64(x), TrailingZeros(x);
    ZerosFit(x);
    if lz >= 32 {
      lz := 31;
    }
    w.WriteBits(lz, 5);
    var sig := 64 - lz - tz;
    w.WriteBits(sig % 64, 6);
    w.WriteBits(ShrWord(x, tz), sig);
    ConcatAssoc(before + ToBits(lz, 5), ToBits(sig % 64, 6), PayloadBits(x, lz, tz));
    ConcatAssoc(before, ToBits(lz, 5), ToBits(sig % 64, 6) + PayloadBits(x, lz, tz));
  }

  function ShrWord(x: U64, n: nat): (r: U64)
    ensures r == Shr(x, n)
  {
    ShrAtMost(x, n);
    Shr(x, n)
  }

  lemma {:induction false} ShrAtMost(x: nat, n: nat)
    ensures Shr(x, n) <= x
  {
    if n > 0 {
      ShrAtMost(x / 2, n - 1);
    }
  }

  /** Reads one value code: the state after it (whose `lastVal` is the value) and the rest. */
  function ParseXor(st: State, b: Bits): (r: Result<(State, Bits)>)
    requires st.Valid()
    ensures r.Ok? ==> r.value.0.Valid() && r.value.0.bounds == st.bounds
  {
    if b == [] then Err
    else if !b[0] then Ok((st, b[1..]))
    else ParseChanged(st, b[1..])
  }

  function ParseChanged(st: State, b: Bits): (r: Result<(State, Bits)>)
    requires st.Valid()
    ensures r.Ok? ==> r.value.0.Valid() && r.value.0.bounds == st.bounds
  {
    if b == [] then Err
    else if b[0] then ParseWindow(st, b[1..])
    else if !st.hasWindow then Err
    else ApplyXor(st, b[1..], st.lz, st.tz)
  }

  function ParseWindow(st: State, b: Bits): (r: Result<(State, Bits)>)
    requires st.Valid()
    ensures r.Ok? ==> r.value.0.Valid() && r.value.0.bounds == st.bounds
  {
    match TakeBits(b, 5)
    case Err => Err
    case Ok((lz, b1)) =>
      match TakeBits(b1, 6)
      case Err => Err
      case Ok((s, b2)) =>
        var sig := if s == 0 then 64 else s;
        var tz := 64 - lz - sig;
        if tz < 0 then Err else ApplyXor(st.(lz := lz, tz := tz, hasWindow := true), b2, lz, tz)
  }

  function ApplyXor(st: State, b: Bits, lz: nat, tz: nat): (r: Result<(State, Bits)>)
    requires st.Valid() && lz + tz <= 63
    ensures r.Ok? ==> r.value.0.Valid() && r.value.0.bounds == st.bounds
  {
    match TakeBits(b, 64 - lz - tz)
    case Err => Err
    case Ok((x, rest)) => Ok((st.(lastVal := XorWord(st.lastVal, ToU64(Shl(x, tz)))), rest))
  }

  ghost function ParsedValue(v: Result<U64>, st: State, rest: Bits): Result<(State, Bits)> {
    if v.Ok? then Ok((st, rest)) else Err
  }

  /** On arbitrary bits the reader keeps the state's window valid. */
  method ReadValueXor(r: BitReader, st: SeriesState) returns (v: Result<U64>)
    requires r.Valid() && st.View().Valid()
    modifies r, st
    ensures r.Valid() && st.View().Valid()
    ensures ParseXor(old(st.View()), old(r.Rest())) == ParsedValue(v, st.View(), r.Rest())
    ensures v.Ok? ==> v.value == st.lastVal
    ensures v.Err? ==> st.lastVal == old(st.lastVal)
  {
    hide TakeBits, XorWord, BitReader.Rest;
    ghost var s0 := st.View();
    var changed := r.ReadBit();
    if changed.Err? { return Err; }
    if !changed.value { return Ok(st.lastVal); }
    assert ParseXor(s0, old(r.Rest())) == ParseChanged(s0, r.Rest());
    var newWindow := r.ReadBit();
    if newWindow.Err? { return Err; }
    var lz, tz, sig: nat;
    if !newWindow.value {
      if !st.hasWindow { return Err; }
      lz, tz := st.lz, st.tz;
      sig := 64 - lz - tz;
    } else {
      assert ParseXor(s0, old(r.Rest())) == ParseWindow(s0, r.Rest());
      var l := r.ReadBits(5);
      if l.Err? { return Err; }
      lz := l.value;
      var s := r.ReadBits(6);
      if s.Err? { return Err; }
      sig := if s.value == 0 then 64 else s.value;
      if 64 - lz - sig < 0 { return Err; }
      tz := 64 - lz - sig;
      st.lz, st.tz, st.hasWindow := lz, tz, true;
    }
    assert ParseXor(s0, old(r.Rest())) == ApplyXor(st.View(), r.Rest(), lz, tz);
    var x := r.ReadBits(sig);
    if x.Err? { return Err; }
    st.lastVal := XorWord(st.lastVal, ToU64(Shl(x.value, tz)));
    return Ok(st.lastVal);
  }

  /** Reading `val` from state `d` succeeds, leaves `rest` unread, and yields a state that
      differs from `d` only in the value and the window, agreeing there with `e'`. */
  ghost predicate ReadsValue(d: State, b: Bits, val: U64, e': State, rest: Bits)
    requires d.Valid()
  {
    && ParseXor(d, b).Ok?
    && var (d', rest') := ParseXor(d, b).value;
      && rest' == rest && d'.lastVal == val && e'.SameValue(d')
      && d' == d.(lastVal := val, lz := d'.lz, tz := d'.tz, hasWindow := d'.hasWindow)
  }

  /** From states that agree, a written value reads back and leaves states that agree. */
  lemma XorRoundTrip(e: State, d: State, val: U64, rest: Bits)
    requires e.Valid() && d.Valid() && e.SameValue(d)
    ensures ReadsValue(d, XorBits(e, val) + rest, val, XorState(e, val), rest)
  {
    hide XorWord, PayloadBits, WindowBits, ParseWindow, ApplyXor, LeadingZeros64, TrailingZeros, WindowLz;
    var x := XorWord(val, e.lastVal);
    var b := XorBits(e, val) + rest;
    SameWord(val, e.lastVal);
    if x == 0 {
      assert b[1..] == rest;
    } else if Reuses(e, x) {
      assert b[1..][1..] == PayloadBits(x, e.lz, e.tz) + rest;
      PayloadRoundTrip(d, val, e.lz, e.tz, rest);
    } else {
      assert b[1..][1..] == WindowBits(x) + rest;
      WindowRoundTrip(d, val, rest);
    }
  }

  lemma SameWord(a: U64, b: U64)
    ensures XorWord(a, b) == 0 <==> a == b
  {
    XorZero(a, b);
  }

  lemma WindowRoundTrip(d: State, val: U64, rest: Bits)
    requires d.Valid() && XorWord(val, d.lastVal) > 0
    ensures var x := XorWord(val, d.lastVal);
      ParseWindow(d, WindowBits(x) + rest)
        == Ok((d.(lastVal := val, lz := WindowLz(x), tz := TrailingZeros(x), hasWindow := true), rest))
  {
    hide ToBits, TakeBits, Pow2, TrailingZeros, LeadingZeros64, XorWord, PayloadBits, ApplyXor;
    var x := XorWord(val, d.lastVal);
    ZerosFit(x);
    var lz, tz := WindowLz(x), TrailingZeros(x);
    var sig := 64 - lz - tz;
    var payload := PayloadBits(x, lz, tz);
    var tail := ToBits(sig % 64, 6) + payload;
    ConcatAssoc(ToBits(lz, 5), tail, rest);
    ConcatAssoc(ToBits(sig % 64, 6), payload, rest);
    Pow2Values();
    TakeWritten(lz, 5, tail + rest);
    TakeWritten(sig % 64, 6, payload + rest);
    PayloadRoundTrip(d.(lz := lz, tz := tz, hasWindow := true), val, lz, tz, rest);
  }

  lemma PayloadRoundTrip(d: State, val: U64, lz: nat, tz: nat, rest: Bits)
    requires d.Valid() && lz + tz <= 63
    requires var x := XorWord(val, d.lastVal);
      x > 0 && LeadingZeros64(x) >= lz && TrailingZeros(x) >= tz
    ensures var x := XorWord(val, d.lastVal);
      ApplyXor(d, PayloadBits(x, lz, tz) + rest, lz, tz) == Ok((d.(lastVal := val), rest))
  {
    var x := XorWord(val, d.lastVal);
    var sig := 64 - lz - tz;
    Pow2Monotone(64 - LeadingZeros64(x), sig + tz);
    ShrBound(x, sig, tz);
    TakeWritten(Shr(x, tz), sig, rest);
    ShiftBack(x, tz);
    XorCommutes(d.lastVal, x);
    XorCommutes(val, d.lastVal);
    XorInvolutive(val, d.lastVal);
  }
}
