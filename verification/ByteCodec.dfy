/** Byte-level primitives (`internal/transport/codec/util.go`): base-128 varints and
    zigzag (Protocol Buffers encoding guide, "Base 128 Varints" and "Signed Integers"),
    big-endian floats, and the buffer and reader they work on. */
module ByteCodec {
  import opened Words

  // ----- zigzag -----

  const ALL_ONES: U64 := TWO_TO_64 - 1

  /** `uint64(v<<1) ^ uint64(v>>63)`: the arithmetic shift is all sign bits. */
  function Zigzag(v: I64): U64 {
    XorWord(ToU64(2 * v), if v < 0 then ALL_ONES else 0)
  }

  /** `int64(u>>1) ^ -int64(u&1)`. */
  function Unzigzag(u: U64): I64 {
    Signed(XorWord(u / 2, if u % 2 == 1 then ALL_ONES else 0))
  }

  lemma {:induction false} XorOnes(a: nat, n: nat)
    requires a < Pow2(n)
    ensures Xor(a, Pow2(n) - 1) == Pow2(n) - 1 - a
  {
    if n > 0 {
      XorOnes(a / 2, n - 1);
      assert (Pow2(n) - 1) / 2 == Pow2(n - 1) - 1;
    }
  }

  lemma {:induction false} XorNone(a: nat)
    ensures Xor(a, 0) == a
  {
    if a > 0 {
      XorNone(a / 2);
    }
  }

  /** Zigzag interleaves the signs, so small magnitudes stay small. */
  lemma ZigzagValue(v: I64)
    ensures Zigzag(v) == if v >= 0 then 2 * v else -2 * v - 1
  {
    Pow2Values();
    XorNone(ToU64(2 * v));
    XorOnes(ToU64(2 * v), 64);
  }

  lemma ZigzagRoundTrip(v: I64)
    ensures Unzigzag(Zigzag(v)) == v
  {
    hide Zigzag, XorWord;
    ZigzagValue(v);
    var u := Zigzag(v);
    XorWords(u / 2);
  }

  lemma XorWords(a: U64)
    ensures XorWord(a, 0) == a && XorWord(a, ALL_ONES) == ALL_ONES - a
  {
    hide Xor;
    Pow2Values();
    XorNone(a);
    XorOnes(a, 64);
  }

  // ----- parsing -----

  /** A value read off the front of some bytes, and the bytes after it. */
  type Parse<T> = Result<(T, Bytes)>

  function ParseByte(b: Bytes): Parse<Byte> {
    if b == [] then Err else Ok((b[0], b[1..]))
  }

  function ParseFull(b: Bytes, n: nat): Parse<Bytes> {
    if n <= |b| then Ok((b[..n], b[n..])) else Err
  }

  /** Elements read before the ones a further parse finds. */
  function Prepended<T>(xs: seq<T>, p: Parse<seq<T>>): Parse<seq<T>> {
    match p
    case Err => Err
    case Ok((ys, rest)) => Ok((xs + ys, rest))
  }

  lemma PrependedTwice<T>(xs: seq<T>, ys: seq<T>, p: Parse<seq<T>>)
    ensures Prepended(xs, Prepended(ys, p)) == Prepended(xs + ys, p)
  {
    if p.Ok? {
      ConcatAssoc(xs, ys, p.value.0);
    }
  }

  lemma PrependedNone<T>(p: Parse<seq<T>>)
    ensures Prepended([], p) == p
  {
    if p.Ok? {
      assert [] + p.value.0 == p.value.0;
    }
  }

  /** `binary.PutUvarint`: seven bits a byte, least significant group first. */
  function Uvarint(v: nat): (b: Bytes)
    ensures |b| >= 1
  {
    if v < 128 then [v] else [v % 128 + 128] + Uvarint(v / 128)
  }

  const MAX_VARINT_LEN := 10

  /** `binary.ReadUvarint` after `i` continuation bytes: at most ten bytes, the tenth at most 1. */
  function ParseUvarintFrom(b: Bytes, i: nat): (r: Parse<nat>)
    requires i <= MAX_VARINT_LEN
    ensures r.Ok? && i < MAX_VARINT_LEN ==> r.value.0 < Pow2(64 - 7 * i)
    decreases MAX_VARINT_LEN - i
  {
    if i == MAX_VARINT_LEN || b == [] then Err
    else if b[0] < 128 then
      if i == MAX_VARINT_LEN - 1 && b[0] > 1 then Err
      else
        Pow2Monotone(if i == 9 then 1 else 7, 64 - 7 * i);
        assert Pow2(7) == 128;
        Ok((b[0], b[1..]))
    else match ParseUvarintFrom(b[1..], i + 1)
      case Err => Err
      case Ok((v, rest)) =>
        Pow2Seven(57 - 7 * i);
        Ok((b[0] - 128 + 128 * v, rest))
  }

  lemma Pow2Seven(n: nat)
    ensures Pow2(n + 7) == 128 * Pow2(n)
  {
    assert Pow2(n + 2) == 4 * Pow2(n);
    assert Pow2(n + 4) == 4 * Pow2(n + 2);
    assert Pow2(n + 6) == 4 * Pow2(n + 4);
  }

  function ParseUvarint(b: Bytes): Parse<U64> {
    Pow2Values();
    match ParseUvarintFrom(b, 0)
    case Err => Err
    case Ok((v, rest)) => Ok((v, rest))
  }

  lemma {:induction false} UvarintFromRoundTrip(v: nat, i: nat, rest: Bytes)
    requires i < MAX_VARINT_LEN && v < Pow2(64 - 7 * i)
    ensures ParseUvarintFrom(Uvarint(v) + rest, i) == Ok((v, rest))
    decreases MAX_VARINT_LEN - i
  {
    var b := Uvarint(v) + rest;
    assert Pow2(1) == 2;
    if v < 128 {
      assert b[1..] == rest;
    } else if i < MAX_VARINT_LEN - 1 {
      Pow2Seven(57 - 7 * i);
      UvarintFromRoundTrip(v / 128, i + 1, rest);
      assert b[1..] == Uvarint(v / 128) + rest;
    }
  }

  /** Every `uint64` reads back, and the code tells where it ends. */
  lemma UvarintRoundTrip(v: U64, rest: Bytes)
    ensures ParseUvarint(Uvarint(v) + rest) == Ok((v, rest))
  {
    Pow2Values();
    UvarintFromRoundTrip(v, 0, rest);
  }

  /** A varint of `n` bytes at the front: all but the last have the high bit. */
  predicate IsVarint(b: Bytes, n: nat) {
    0 < n <= |b| && b[n - 1] < 128 && forall i :: 0 <= i < n - 1 ==> b[i] >= 128
  }

  /** The number spelled by groups of seven bits, least significant first. */
  function GroupsValue(b: Bytes): nat {
    if b == [] then 0 else b[0] % 128 + 128 * GroupsValue(b[1..])
  }

  lemma VarintTail(b: Bytes, n: nat)
    requires n > 0 && b != [] && b[0] >= 128
    ensures IsVarint(b, n + 1) <==> IsVarint(b[1..], n)
  {
    assert forall j :: 0 < j < |b| ==> b[j] == b[1..][j - 1];
    if IsVarint(b[1..], n) {
      assert forall j :: 0 < j < n ==> b[j] >= 128;
    }
  }

  lemma VarintBounds(b: Bytes, n: nat)
    requires IsVarint(b, n)
    ensures 0 < n <= |b| && (if n == 1 then b[0] < 128 else b[0] >= 128)
  {
  }

  /** The first group and the others. */
  lemma FirstGroup(b: Bytes, n: nat, i: nat)
    requires 1 < n <= |b| && b[0] >= 128 && i + 1 < MAX_VARINT_LEN
    ensures var v, rest := GroupsValue(b[..n]), GroupsValue(b[1..][..n - 1]);
      v == b[0] - 128 + 128 * rest && (v < Pow2(64 - 7 * i) <==> rest < Pow2(64 - 7 * (i + 1)))
  {
    assert b[..n][1..] == b[1..][..n - 1];
    Pow2Seven(57 - 7 * i);
  }

  lemma {:induction false} VarintFrom(b: Bytes, n: nat, i: nat)
    requires IsVarint(b, n) && i <= MAX_VARINT_LEN
    ensures n <= |b|
    ensures var v := GroupsValue(b[..n]);
      ParseUvarintFrom(b, i)
        == if n <= MAX_VARINT_LEN - i && v < Pow2(64 - 7 * i) then Ok((v, b[n..])) else Err
    decreases n
  {
    hide IsVarint, GroupsValue, Pow2;
    VarintBounds(b, n);
    if i == MAX_VARINT_LEN {
    } else if n == 1 {
      OneGroup(b);
      VarintLast(b[0], i);
    } else {
      VarintTail(b, n - 1);
      VarintFrom(b[1..], n - 1, i + 1);
      assert b[1..][n - 1..] == b[n..];
      if i + 1 < MAX_VARINT_LEN {
        FirstGroup(b, n, i);
      }
    }
  }

  lemma OneGroup(b: Bytes)
    requires b != [] && b[0] < 128
    ensures GroupsValue(b[..1]) == b[0]
  {
  }

  lemma VarintLast(v: Byte, i: nat)
    requires v < 128 && i < MAX_VARINT_LEN
    ensures v < Pow2(64 - 7 * i) <==> i < MAX_VARINT_LEN - 1 || v <= 1
  {
    Pow2Monotone(if i == 9 then 1 else 7, 64 - 7 * i);
    assert Pow2(7) == 128 && Pow2(1) == 2;
  }

  lemma {:induction false} NoVarint(b: Bytes, i: nat)
    requires (forall n: nat :: !IsVarint(b, n)) && i <= MAX_VARINT_LEN
    ensures ParseUvarintFrom(b, i) == Err
    decreases MAX_VARINT_LEN - i
  {
    if i < MAX_VARINT_LEN && b != [] {
      assert !IsVarint(b, 1);
      forall n: nat
        ensures !IsVarint(b[1..], n)
      {
        if n > 0 {
          VarintTail(b, n);
        }
      }
      NoVarint(b[1..], i + 1);
    }
  }

  /** On arbitrary bytes: what is read are at most ten bytes, up to the first without the high bit,
      and the number they spell, exactly if it is one of 64 bits. */
  lemma UvarintExact(b: Bytes)
    ensures (forall n: nat :: !IsVarint(b, n)) ==> ParseUvarint(b) == Err
    ensures forall n: nat :: IsVarint(b, n) ==>
      ParseUvarint(b)
        == if n <= MAX_VARINT_LEN && GroupsValue(b[..n]) < TWO_TO_64 then Ok((GroupsValue(b[..n]), b[n..])) else Err
  {
    Pow2Values();
    if forall n: nat :: !IsVarint(b, n) {
      NoVarint(b, 0);
    }
    forall n: nat | IsVarint(b, n)
      ensures ParseUvarint(b)
        == if n <= MAX_VARINT_LEN && GroupsValue(b[..n]) < TWO_TO_64 then Ok((GroupsValue(b[..n]), b[n..])) else Err
    {
      VarintFrom(b, n, 0);
    }
  }

  /** `n` bytes, most significant first. */
  function BigEndian(v: nat, n: nat): (b: Bytes)
    ensures |b| == n
  {
    if n == 0 then [] else BigEndian(v / 256, n - 1) + [v % 256]
  }

  function FromBigEndian(b: Bytes): (v: nat)
    ensures v < Pow2(8 * |b|)
  {
    if b == [] then 0
    else
      Pow2Byte(8 * |b| - 8);
      256 * FromBigEndian(b[..|b| - 1]) + b[|b| - 1]
  }

  lemma Pow2Byte(n: nat)
    ensures Pow2(n + 8) == 256 * Pow2(n)
  {
    Pow2Nibble(n);
    Pow2Nibble(n + 4);
  }

  lemma {:induction false} BigEndianRoundTrip(v: nat, n: nat)
    requires v < Pow2(8 * n)
    ensures FromBigEndian(BigEndian(v, n)) == v
  {
    if n > 0 {
      Pow2Byte(8 * (n - 1));
      BigEndianRoundTrip(v / 256, n - 1);
      assert BigEndian(v, n)[..n - 1] == BigEndian(v / 256, n - 1);
    }
  }

  /** A float as its 64-bit pattern. */
  function ParseFloat64(b: Bytes): Parse<U64> {
    if |b| < 8 then Err
    else
      Pow2Values();
      Ok((FromBigEndian(b[..8]), b[8..]))
  }

  lemma FloatRoundTrip(v: U64, rest: Bytes)
    ensures ParseFloat64(BigEndian(v, 8) + rest) == Ok((v, rest))
  {
    var b := BigEndian(v, 8) + rest;
    assert b[..8] == BigEndian(v, 8) && b[8..] == rest;
    Pow2Values();
    BigEndianRoundTrip(v, 8);
  }

  lemma FullRoundTrip(s: Bytes, rest: Bytes)
    ensures ParseFull(s + rest, |s|) == Ok((s, rest))
  {
    assert (s + rest)[..|s|] == s && (s + rest)[|s|..] == rest;
  }

  // ----- the buffer and the reader -----

  class Buffer {
    var data: Bytes

    constructor ()
      ensures data == []
    {
      data := [];
    }

    method Write(b: Bytes)
      modifies this
      ensures data == old(data) + b
    {
      data := data + b;
    }

    method WriteUvarint(v: nat)
      modifies this
      ensures data == old(data) + Uvarint(v)
    {
      Write(Uvarint(v));
    }

    method WriteFloat64(v: U64)
      modifies this
      ensures data == old(data) + BigEndian(v, 8)
    {
      Write(BigEndian(v, 8));
    }
  }

  class ByteReader {
    const data: Bytes
    var pos: nat

    ghost predicate Valid()
      reads this
    {
      pos <= |data|
    }

    ghost function Rest(): Bytes
      requires Valid()
      reads this
    {
      data[pos..]
    }

    constructor (data: Bytes)
      ensures Valid() && Rest() == data
    {
      this.data := data;
      pos := 0;
    }

    method ReadByte() returns (r: Result<Byte>)
      requires Valid()
      modifies this
      ensures Valid() && ParseByte(old(Rest())) == Read(r, Rest())
    {
      if pos == |data| {
        return Err;
      }
      pos := pos + 1;
      return Ok(data[pos - 1]);
    }

    method ReadUvarint() returns (r: Result<U64>)
      requires Valid()
      modifies this
      ensures Valid() && ParseUvarint(old(Rest())) == Read(r, Rest())
    {
      hide ParseUvarint;
      match ParseUvarint(data[pos..])
      case Err => return Err;
      case Ok((v, rest)) =>
        UvarintRest(data[pos..]);
        assert rest == data[pos..][|data| - pos - |rest|..] == data[|data| - |rest|..];
        pos := |data| - |rest|;
        return Ok(v);
    }

    method ReadFull(n: nat) returns (r: Result<Bytes>)
      requires Valid()
      modifies this
      ensures Valid() && ParseFull(old(Rest()), n) == Read(r, Rest())
    {
      if pos + n > |data| {
        return Err;
      }
      assert data[pos..][..n] == data[pos..pos + n] && data[pos..][n..] == data[pos + n..];
      pos := pos + n;
      return Ok(data[pos - n..pos]);
    }

    method ReadFloat64() returns (r: Result<U64>)
      requires Valid()
      modifies this
      ensures Valid() && ParseFloat64(old(Rest())) == Read(r, Rest())
    {
      var b := ReadFull(8);
      if b.Err? {
        return Err;
      }
      Pow2Values();
      return Ok(FromBigEndian(b.value));
    }
  }

  /** A reader's result together with what it left unread. */
  function Read<T>(r: Result<T>, rest: Bytes): Parse<T> {
    match r
    case Ok(v) => Ok((v, rest))
    case Err => Err
  }

  lemma UvarintRest(b: Bytes)
    ensures var r := ParseUvarint(b);
      r.Ok? ==> |r.value.1| <= |b| && r.value.1 == b[|b| - |r.value.1|..]
  {
    hide ParseUvarintFrom;
    UvarintSuffix(b, 0);
  }

  lemma {:induction false} UvarintSuffix(b: Bytes, i: nat)
    requires i <= MAX_VARINT_LEN
    ensures var r := ParseUvarintFrom(b, i);
      r.Ok? ==> |r.value.1| <= |b| && r.value.1 == b[|b| - |r.value.1|..]
    decreases MAX_VARINT_LEN - i
  {
    if i < MAX_VARINT_LEN && b != [] && b[0] >= 128 {
      UvarintSuffix(b[1..], i + 1);
    }
  }
}
