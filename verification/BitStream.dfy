/** The bit writer and bit reader (`internal/transport/codec/bitstream.go`),
    each specified by the sequence of bits it stands for. */
module BitStream {
  import opened Words

  /** The bits of a byte string, most significant bit of each byte first. */
  ghost function BytesBits(bs: Bytes): (b: Bits)
    ensures |b| == 8 * |bs|
  {
    if bs == [] then [] else BytesBits(bs[..|bs| - 1]) + ToBits(bs[|bs| - 1], 8)
  }

  lemma {:induction false} BytesBitsAt(bs: Bytes, p: nat, o: nat)
    requires p < |bs| && o < 8
    ensures BytesBits(bs)[8 * p + o] == ToBits(bs[p], 8)[o]
  {
    if p < |bs| - 1 {
      BytesBitsAt(bs[..|bs| - 1], p, o);
    }
  }

  function Zeros(n: nat): (b: Bits)
    ensures |b| == n
    ensures b == ToBits(0, n)
  {
    if n == 0 then [] else Zeros(n - 1) + [false]
  }

  /** How many zero bits complete the last byte. */
  function Padding(n: nat): (p: nat)
    ensures p < 8
  {
    if n == 0 then 0 else if n < 8 then 8 - n else Padding(n - 8)
  }

  /** The whole bytes that hold a bit sequence, the last one padded with zero bits. */
  function Pack(b: Bits): (bs: Bytes)
    decreases |b|
  {
    if b == [] then []
    else if |b| < 8 then
      assert Pow2(8) == 256;
      [FromBits(b + Zeros(8 - |b|))]
    else
      assert Pow2(8) == 256;
      [FromBits(b[..8])] + Pack(b[8..])
  }

  lemma {:induction false} BytesBitsCons(x: Byte, bs: Bytes)
    ensures BytesBits([x] + bs) == ToBits(x, 8) + BytesBits(bs)
  {
    hide ToBits;
    if bs == [] {
      assert [x] + bs == [x];
      assert BytesBits([x]) == BytesBits([x][..0]) + ToBits(x, 8);
    } else {
      var n := |bs| - 1;
      BytesBitsCons(x, bs[..n]);
      assert ([x] + bs)[..n + 1] == [x] + bs[..n];
      ConcatAssoc(ToBits(x, 8), BytesBits(bs[..n]), ToBits(bs[n], 8));
    }
  }

  /** Packing loses nothing: unpacking gives the bits back, then fewer than eight zeros. */
  lemma {:induction false} UnpackPack(b: Bits)
    ensures BytesBits(Pack(b)) == b + Zeros(Padding(|b|))
    decreases |b|
  {
    if b == [] {
    } else if |b| < 8 {
      OneByte(b + Zeros(8 - |b|));
    } else {
      UnpackPack(b[8..]);
      OneByte(b[..8]);
      BytesBitsCons(FromBits(b[..8]), Pack(b[8..]));
      assert b[..8] + b[8..] == b;
      assert Pack(b) == [FromBits(b[..8])] + Pack(b[8..]);
      ConcatAssoc(b[..8], b[8..], Zeros(Padding(|b|)));
    }
  }

  lemma {:induction false} PaddingAfter(k: nat, n: nat)
    requires n < 8
    ensures Padding(8 * k + n) == if n == 0 then 0 else 8 - n
  {
    if k > 0 {
      PaddingAfter(k - 1, n);
    }
  }

  /** The number of bytes is the number of bits divided by eight, rounded up. */
  lemma {:induction false} PackLength(b: Bits)
    ensures |Pack(b)| == (|b| + 7) / 8
    decreases |b|
  {
    if |b| >= 8 {
      PackLength(b[8..]);
    }
  }

  lemma OneByte(w: Bits)
    requires |w| == 8
    ensures FromBits(w) < 256 && Pack(w) == [FromBits(w)]
    ensures ToBits(FromBits(w), 8) == w && BytesBits([FromBits(w)]) == w
  {
    assert Pow2(8) == 256;
    ToFromBits(w);
    assert w[..8] == w && w[8..] == [];
    var x: Byte := FromBits(w);
    assert [x][..0] == [];
  }

  /** What shifting a bit into a partial byte does. */
  lemma ShiftIn(c: nat, n: nat, b: bool)
    requires n < 8 && c < Pow2(n)
    ensures var c' := c * 2 + (if b then 1 else 0);
      c' < Pow2(n + 1) && c' < 256 && ToBits(c', n + 1) == ToBits(c, n) + [b]
  {
    assert (c * 2 + (if b then 1 else 0)) / 2 == c;
    Pow2Monotone(n + 1, 8);
    assert Pow2(8) == 256 by {
      Pow2Values();
    }
  }

  lemma {:induction false} BytesBitsInjective(xs: Bytes, ys: Bytes)
    requires BytesBits(xs) == BytesBits(ys)
    ensures xs == ys
  {
    assert |xs| == |ys|;
    if xs != [] {
      var n := |xs| - 1;
      var a, b := BytesBits(xs[..n]), BytesBits(ys[..n]);
      var p, q := ToBits(xs[n], 8), ToBits(ys[n], 8);
      assert a + p == b + q;
      assert a == (a + p)[..8 * n] == (b + q)[..8 * n] == b;
      assert p == (a + p)[8 * n..] == (b + q)[8 * n..] == q;
      assert Pow2(8) == 256;
      FromToBits(xs[n], 8);
      FromToBits(ys[n], 8);
      BytesBitsInjective(xs[..n], ys[..n]);
      assert xs == xs[..n] + [xs[n]];
      assert ys == ys[..n] + [ys[n]];
    }
  }

  lemma BytesBitsSnoc(bs: Bytes, x: Byte)
    ensures BytesBits(bs + [x]) == BytesBits(bs) + ToBits(x, 8)
  {
    assert (bs + [x])[..|bs|] == bs;
  }

  lemma NoBits()
    ensures 0 < Pow2(0) && ToBits(0, 0) == []
  {
  }

  class BitWriter {
    var buf: Bytes
    var cur: Byte
    var nbits: nat

    ghost predicate Valid()
      reads this
    {
      nbits < 8 && cur < Pow2(nbits)
    }

    /** Every bit written so far. */
    ghost function Contents(): Bits
      reads this
    {
      BytesBits(buf) + ToBits(cur, nbits)
    }

    constructor ()
      ensures Valid() && Contents() == []
    {
      buf, cur, nbits := [], 0, 0;
    }

    method WriteBit(b: bool)
      requires Valid()
      modifies this
      ensures Valid()
      ensures Contents() == old(Contents()) + [b]
    {
      hide BytesBits, ToBits, Pow2;
      ShiftIn(cur, nbits, b);
      ghost var head, tail := BytesBits(buf), ToBits(cur, nbits);
      cur := cur * 2 % 256;
      if b {
        cur := cur + 1;
      }
      nbits := nbits + 1;
      assert ToBits(cur, nbits) == tail + [b];
      if nbits == 8 {
        BytesBitsSnoc(buf, cur);
        buf := buf + [cur];
        cur, nbits := 0, 0;
        NoBits();
        assert head + (tail + [b]) == head + tail + [b];
      }
    }

    /** Writes the low `n` bits of `v`, most significant first. */
    method WriteBits(v: U64, n: nat)
      requires Valid()
      modifies this
      ensures Valid()
      ensures Contents() == old(Contents()) + ToBits(v, n)
    {
      var i := n;
      while i > 0
        invariant 0 <= i <= n && Valid()
        invariant Contents() == old(Contents()) + ToBits(Shr(v, i), n - i)
      {
        ShrLast(v, i - 1);
        WriteBit(Shr(v, i - 1) % 2 == 1);
        i := i - 1;
      }
    }

    /** Completes the partial last byte with zero bits and returns all bytes. */
    method Flush() returns (bs: Bytes)
      requires Valid()
      modifies this
      ensures Valid()
      ensures bs == Pack(old(Contents()))
      ensures Contents() == BytesBits(bs)
    {
      FlushedBytes(buf, cur, nbits);
      if nbits > 0 {
        buf := buf + [Shl(cur, 8 - nbits) % 256];
        cur, nbits := 0, 0;
      }
      bs := buf;
      assert BytesBits(bs) + [] == BytesBits(bs);
    }
  }

  /** The bytes of a writer whose partial byte, if any, is completed with zeros. */
  lemma FlushedBytes(buf: Bytes, c: Byte, n: nat)
    requires n < 8 && c < Pow2(n)
    ensures n == 0 ==> buf == Pack(BytesBits(buf) + ToBits(c, n))
    ensures n > 0 ==> buf + [Shl(c, 8 - n) % 256] == Pack(BytesBits(buf) + ToBits(c, n))
  {
    hide BytesBits, Pack, Shl, Pow2, Padding, ToBits, Zeros;
    var head, tail := BytesBits(buf), ToBits(c, n);
    PaddingAfter(|buf|, n);
    assert |head + tail| == 8 * |buf| + n;
    if n > 0 {
      PadByte(c, n);
      var last: Byte := Shl(c, 8 - n);
      BytesBitsSnoc(buf, last);
      ConcatAssoc(head, tail, Zeros(8 - n));
      assert BytesBits(buf + [last]) == head + tail + Zeros(8 - n);
      PackUnique(buf + [last], head + tail);
    } else {
      assert head + tail + Zeros(0) == head;
      assert head + tail == head;
      PackUnique(buf, head + tail);
    }
  }

  /** Packed bytes are the only ones that unpack to the padded bits. */
  lemma PackUnique(bs: Bytes, b: Bits)
    requires BytesBits(bs) == b + Zeros(Padding(|b|))
    ensures bs == Pack(b)
  {
    UnpackPack(b);
    BytesBitsInjective(bs, Pack(b));
  }

  /** Completing a partial byte with zeros. */
  lemma PadByte(c: nat, n: nat)
    requires n <= 8 && c < Pow2(n)
    ensures 0 <= Shl(c, 8 - n) < 256
    ensures Shl(c, 8 - n) % 256 == Shl(c, 8 - n)
    ensures ToBits(Shl(c, 8 - n), 8) == ToBits(c, n) + Zeros(8 - n)
  {
    hide Pow2, ToBits, Shl;
    Pow2Values();
    ShlBound(c, n, 8 - n);
    ShlBits(c, n, 8 - n);
  }

  lemma FromBitsStep(bits: Bits, i: nat)
    requires i < |bits|
    ensures ToU64(FromBits(bits[..i + 1])) == ToU64(ToU64(FromBits(bits[..i])) * 2) + (if bits[i] then 1 else 0)
  {
    assert bits[..i + 1][..i] == bits[..i];
    DoubleWraps(FromBits(bits[..i]), if bits[i] then 1 else 0);
  }

  lemma DoubleWraps(v: nat, b: nat)
    requires b <= 1
    ensures ToU64(2 * v + b) == ToU64(ToU64(v) * 2) + b
  {
    var q, r := v / TWO_TO_64, ToU64(v);
    if 2 * r < TWO_TO_64 {
      Remainder(2 * v + b, 2 * q, 2 * r + b);
      Remainder(2 * r, 0, 2 * r);
    } else {
      Remainder(2 * v + b, 2 * q + 1, 2 * r - TWO_TO_64 + b);
      Remainder(2 * r, 1, 2 * r - TWO_TO_64);
    }
  }

  lemma Remainder(x: nat, q: nat, r: nat)
    requires r < TWO_TO_64 && x == q * TWO_TO_64 + r
    ensures ToU64(x) == r
  {
  }

  /** What a reader of `n` bits finds at the front of a bit sequence. */
  function TakeBits(b: Bits, n: nat): (r: Result<(U64, Bits)>) {
    if n <= |b| then Ok((ToU64(FromBits(b[..n])), b[n..])) else Err
  }

  /** A reader's result together with what it left unread. */
  function Parsed<T>(r: Result<T>, rest: Bits): Result<(T, Bits)> {
    match r
    case Ok(v) => Ok((v, rest))
    case Err => Err
  }

  lemma TakeWritten(v: nat, n: nat, rest: Bits)
    requires n <= 64 && v < Pow2(n)
    ensures TakeBits(ToBits(v, n) + rest, n) == Ok((v, rest))
  {
    var b := ToBits(v, n) + rest;
    assert b[..n] == ToBits(v, n) && b[n..] == rest;
    FromToBits(v, n);
    Pow2Monotone(n, 64);
    Pow2Values();
  }

  class BitReader {
    const data: Bytes
    var pos: nat
    var off: nat

    ghost predicate Valid()
      reads this
    {
      off < 8 && pos <= |data| && (pos == |data| ==> off == 0)
    }

    /** The bits not read yet. */
    ghost function Rest(): Bits
      requires Valid()
      reads this
    {
      BytesBits(data)[8 * pos + off..]
    }

    constructor (data: Bytes)
      ensures Valid() && this.data == data && Rest() == BytesBits(data)
    {
      this.data := data;
      pos, off := 0, 0;
    }

    method ReadBit() returns (r: Result<bool>)
      requires Valid()
      modifies this
      ensures Valid()
      ensures r.Err? <==> old(Rest()) == []
      ensures r.Ok? ==> old(Rest())[0] == r.value && Rest() == old(Rest())[1..]
      ensures r.Err? ==> Rest() == []
    {
      if pos >= |data| {
        return Err;
      }
      BytesBitsAt(data, pos, off);
      BitAt(data[pos], 8, off);
      var b := Shr(data[pos], 7 - off) % 2 == 1;
      off := off + 1;
      if off == 8 {
        off, pos := 0, pos + 1;
      }
      return Ok(b);
    }

    /** Reads `n` bits as an unsigned number, or runs out of data. */
    method ReadBits(n: nat) returns (r: Result<U64>)
      requires Valid()
      modifies this
      ensures Valid()
      ensures TakeBits(old(Rest()), n) == Parsed(r, Rest())
    {
      ghost var bits := Rest();
      var v: U64 := 0;
      var i := 0;
      while i < n
        invariant 0 <= i <= n && Valid()
        invariant i <= |bits| && Rest() == bits[i..]
        invariant v == ToU64(FromBits(bits[..i]))
      {
        var b := ReadBit();
        if b.Err? {
          return Err;
        }
        FromBitsStep(bits, i);
        v := ToU64(v * 2);
        if b.value {
          v := v + 1;
        }
        i := i + 1;
      }
      return Ok(v);
    }
  }
}
