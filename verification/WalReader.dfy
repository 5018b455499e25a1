/** The log reader (`internal/wal/reader.go`), hopping from segment to segment. */
module WalReader {
  import opened ByteCodec
  import opened WalRecord
  import opened WalLog
  import opened Wal

  class Reader {
    const dir: Dir
    const crc: Checksum
    var seg: nat
    var off: nat

    constructor (dir: Dir, crc: Checksum, from: Checkpoint)
      ensures this.dir == dir && this.crc == crc && Position() == from
    {
      this.dir, this.crc := dir, crc;
      seg, off := from.segment, from.offset;
    }

    function Position(): Checkpoint
      reads this
    {
      Checkpoint(seg, off)
    }

    method Reset(cp: Checkpoint)
      modifies this
      ensures Position() == cp
    {
      seg, off := cp.segment, cp.offset;
    }

    method AdvanceSegment() returns (moved: bool)
      modifies this
      ensures moved == (old(seg) + 1 in dir.files)
      ensures Position() == if moved then Checkpoint(old(seg) + 1, 0) else old(Position())
    {
      if seg + 1 !in dir.files {
        return false;
      }
      seg, off := seg + 1, 0;
      return true;
    }

    /** The next record and the position after it, the end of the log, or damage. */
    method Next() returns (r: ReadResult)
      modifies this
      ensures (r, Position()) == ReadFrom(crc, dir.files, old(Position()))
    {
      hide FromBigEndian;
      while true
        invariant ReadFrom(crc, dir.files, Position()) == ReadFrom(crc, dir.files, old(Position()))
        decreases Later(dir.files, seg)
      {
        ghost var before := Later(dir.files, seg);
        if seg !in dir.files || off >= |dir.files[seg]| {
          var moved := AdvanceSegment();
          if !moved {
            return Eof;
          }
          assert seg in before && seg !in Later(dir.files, seg);
          continue;
        }
        var rest := dir.files[seg][off..];
        if |rest| < HEADER_SIZE {
          return Corrupt(Position());
        }
        var length := FromBigEndian(rest[1..5]);
        var sum := FromBigEndian(rest[5..9]);
        if length > MAX_RECORD || |rest| < HEADER_SIZE + length {
          return Corrupt(Position());
        }
        var payload := rest[HEADER_SIZE..HEADER_SIZE + length];
        if crc(payload) != sum {
          return Corrupt(Position());
        }
        off := off + HEADER_SIZE + length;
        return Got(Record(rest[0], payload), Position());
      }
    }
  }
}
