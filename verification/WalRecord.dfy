/** Records of the write-ahead log (`internal/wal/record.go`) and what a reader finds in
    the bytes of a segment file. */
module WalRecord {
  import opened Words
  import opened ByteCodec

  const HEADER_SIZE := 9
  const MAX_RECORD := 0x200_0000

  type U32 = x: int | 0 <= x < TWO_TO_32

  /** CRC-32 (IEEE): any function of the payload will do. */
  type Checksum = Bytes -> U32

  datatype Record = Record(flags: Byte, payload: Bytes)

  /** `[flags][length][crc32(payload)][payload]` */
  function RecordBytes(crc: Checksum, r: Record): (b: Bytes)
    ensures |b| == HEADER_SIZE + |r.payload|
  {
    [r.flags] + (BigEndian(|r.payload|, 4) + (BigEndian(crc(r.payload), 4) + r.payload))
  }

  method PutUint32(buf: array<Byte>, at: nat, v: nat)
    requires at + 4 <= buf.Length
    modifies buf
    ensures buf[..] == old(buf[..at]) + BigEndian(v, 4) + old(buf[at + 4..])
  {
    hide BigEndian;
    BigEndianBytes(v);
    buf[at] := v / 0x100_0000 % 256;
    buf[at + 1] := v / 0x1_0000 % 256;
    buf[at + 2] := v / 256 % 256;
    buf[at + 3] := v % 256;
  }

  lemma BigEndianBytes(v: nat)
    ensures BigEndian(v, 4) == [v / 0x100_0000 % 256, v / 0x1_0000 % 256, v / 256 % 256, v % 256]
  {
    assert BigEndian(v, 2) == [v / 256 % 256, v % 256];
    var h := v / 0x1_0000;
    assert BigEndian(v, 4) == BigEndian(v / 256 / 256, 2) + [v / 256 % 256] + [v % 256];
    assert v / 256 / 256 == h;
    assert BigEndian(h, 2) == [h / 256 % 256, h % 256];
    assert h / 256 == v / 0x100_0000;
  }

  /** Fills a fresh buffer in place. */
  method EncodeRecord(crc: Checksum, r: Record) returns (buf: array<Byte>)
    ensures fresh(buf) && buf[..] == RecordBytes(crc, r)
  {
    hide BigEndian;
    buf := new Byte[HEADER_SIZE + |r.payload|](_ => 0);
    buf[0] := r.flags;
    PutUint32(buf, 1, |r.payload|);
    PutUint32(buf, 5, crc(r.payload));
    ghost var n, c := BigEndian(|r.payload|, 4), BigEndian(crc(r.payload), 4);
    assert buf[..9] == [r.flags] + n + c;
    for i := 0 to |r.payload|
      invariant buf[..9] == [r.flags] + n + c
      invariant buf[9..9 + i] == r.payload[..i]
    {
      buf[9 + i] := r.payload[i];
      TakeStep(r.payload, i);
      assert buf[9..9 + i + 1] == buf[9..9 + i] + [r.payload[i]];
    }
    TakeAll(r.payload);
    assert buf[..] == buf[..9] + buf[9..];
    Concat3([r.flags], n, c, r.payload);
  }

  /** What is found at a position: the end of the segment, a damaged record, or a record. */
  datatype Scanned = End | Damaged | Found(record: Record)

  function Scan(crc: Checksum, b: Bytes): (r: Scanned)
    ensures r.End? <==> b == []
  {
    if b == [] then End
    else if |b| < HEADER_SIZE then Damaged
    else
      var n, sum := FromBigEndian(b[1..5]), FromBigEndian(b[5..9]);
      if n > MAX_RECORD || |b| < HEADER_SIZE + n then Damaged
      else
        var payload := b[HEADER_SIZE..HEADER_SIZE + n];
        if crc(payload) != sum then Damaged else Found(Record(b[0], payload))
  }

  lemma HeaderParts(crc: Checksum, r: Record, rest: Bytes)
    ensures var b := RecordBytes(crc, r) + rest;
      && b[0] == r.flags && b[1..5] == BigEndian(|r.payload|, 4) && b[5..9] == BigEndian(crc(r.payload), 4)
      && b[9..] == r.payload + rest
  {
    hide BigEndian;
  }

  /** Exactly the records within the size limit are read back. `Append` does not check it. */
  lemma RecordRoundTrip(crc: Checksum, r: Record, rest: Bytes)
    requires |r.payload| < TWO_TO_32
    ensures Scan(crc, RecordBytes(crc, r) + rest) == Found(r) <==> |r.payload| <= MAX_RECORD
    ensures |r.payload| > MAX_RECORD ==> Scan(crc, RecordBytes(crc, r) + rest) == Damaged
  {
    hide BigEndian, FromBigEndian, RecordBytes;
    var b := RecordBytes(crc, r) + rest;
    HeaderParts(crc, r, rest);
    Pow2Values();
    BigEndianRoundTrip(|r.payload|, 4);
    BigEndianRoundTrip(crc(r.payload), 4);
    if |r.payload| <= MAX_RECORD {
      assert b[9..9 + |r.payload|] == r.payload;
    }
  }

  /** What is stored in place of a record: any flags, a length, any checksum, any bytes. It is taken
      for a record exactly when it is within the limit and the checksum is that of the payload; so
      a changed payload is noticed whenever its checksum differs, and changed flags never are. */
  lemma ChecksumChecked(crc: Checksum, flags: Byte, sum: U32, payload: Bytes, rest: Bytes)
    requires |payload| < TWO_TO_32
    ensures var b := [flags] + (BigEndian(|payload|, 4) + (BigEndian(sum, 4) + payload)) + rest;
      Scan(crc, b) == if |payload| <= MAX_RECORD && crc(payload) == sum then Found(Record(flags, payload)) else Damaged
  {
    hide BigEndian, FromBigEndian;
    var n, s := BigEndian(|payload|, 4), BigEndian(sum, 4);
    var b := [flags] + (n + (s + payload)) + rest;
    Pow2Values();
    BigEndianRoundTrip(|payload|, 4);
    BigEndianRoundTrip(sum, 4);
    StoredParts([flags], n, s, payload, rest);
  }

  lemma StoredParts(f: Bytes, n: Bytes, s: Bytes, payload: Bytes, rest: Bytes)
    requires |f| == 1 && |n| == |s| == 4
    ensures var b := f + (n + (s + payload)) + rest;
      && |b| == HEADER_SIZE + |payload| + |rest|
      && b[0] == f[0] && b[1..5] == n && b[5..9] == s && b[HEADER_SIZE..HEADER_SIZE + |payload|] == payload
  {
  }

  /** A record cut at any interior byte is found to be damaged. */
  lemma TornRecord(crc: Checksum, r: Record, cut: nat)
    requires |r.payload| <= MAX_RECORD && 0 < cut < |RecordBytes(crc, r)|
    ensures Scan(crc, RecordBytes(crc, r)[..cut]) == Damaged
  {
    hide BigEndian, FromBigEndian, RecordBytes;
    var b := RecordBytes(crc, r);
    HeaderParts(crc, r, []);
    assert b + [] == b;
    Pow2Values();
    BigEndianRoundTrip(|r.payload|, 4);
    if cut >= HEADER_SIZE {
      assert b[..cut][1..5] == b[1..5];
    }
  }
}
