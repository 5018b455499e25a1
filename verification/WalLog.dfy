/** The segmented log as a list of records: segment files, positions in them, and the
    record indexes that positions denote. */
module WalLog {
  import opened Words
  import opened WalRecord

  datatype Checkpoint = Checkpoint(segment: nat, offset: nat)

  type Files = map<nat, Bytes>

  /** The contents of a segment of whole records. */
  function SegmentBytes(crc: Checksum, rs: seq<Record>): Bytes {
    if rs == [] then [] else SegmentBytes(crc, rs[..|rs| - 1]) + RecordBytes(crc, rs[|rs| - 1])
  }

  /** Numbered segments of records, the last one active. */
  datatype Log = Log(first: nat, segs: seq<seq<Record>>) {
    ghost predicate Valid() {
      segs != []
    }

    function Active(): int {
      first + |segs| - 1
    }

    /** All records, in the order they were appended. */
    function Records(): seq<Record> {
      Joined(segs)
    }
  }

  function Joined(segs: seq<seq<Record>>): seq<Record> {
    if segs == [] then [] else Joined(segs[..|segs| - 1]) + segs[|segs| - 1]
  }

  ghost predicate AllReadable(rs: seq<Record>) {
    forall r :: r in rs ==> |r.payload| <= MAX_RECORD
  }

  /** The files of the directory hold exactly the log. */
  ghost predicate Represents(crc: Checksum, log: Log, files: Files) {
    && log.Valid()
    && (forall k :: k in files <==> log.first <= k < log.first + |log.segs|)
    && (forall i :: 0 <= i < |log.segs| ==> files[log.first + i] == SegmentBytes(crc, log.segs[i]))
  }

  // ----- positions -----

  predicate InLog(log: Log, i: nat, j: nat) {
    i < |log.segs| && j <= |log.segs[i]|
  }

  /** The byte position before record `j` of segment `i` (or at the end of it). */
  function PosAt(crc: Checksum, log: Log, i: nat, j: nat): Checkpoint
    requires InLog(log, i, j)
  {
    Checkpoint(log.first + i, |SegmentBytes(crc, log.segs[i][..j])|)
  }

  /** Its index among all records. */
  function IndexAt(log: Log, i: nat, j: nat): nat
    requires InLog(log, i, j)
  {
    |Joined(log.segs[..i])| + j
  }

  /** A position denotes a record index; `(s, end)` and `(s+1, 0)` denote the same one. */
  ghost predicate Denotes(crc: Checksum, log: Log, pos: Checkpoint, k: nat) {
    exists i: nat, j: nat :: InLog(log, i, j) && pos == PosAt(crc, log, i, j) && k == IndexAt(log, i, j)
  }

  lemma EndIsStart(crc: Checksum, log: Log, i: nat)
    requires i + 1 < |log.segs|
    ensures IndexAt(log, i, |log.segs[i]|) == IndexAt(log, i + 1, 0)
  {
    TakeStep(log.segs, i);
  }

  lemma {:induction false} JoinedPrefix(segs: seq<seq<Record>>, i: nat)
    requires i <= |segs|
    ensures Joined(segs[..i]) <= Joined(segs)
    decreases |segs| - i
  {
    if i == |segs| {
      TakeAll(segs);
    } else {
      TakeStep(segs, i);
      JoinedPrefix(segs, i + 1);
      assert Joined(segs[..i]) <= Joined(segs[..i + 1]);
    }
  }

  /** The record at a position is the one with its index. */
  lemma RecordAt(log: Log, i: nat, j: nat)
    requires InLog(log, i, j)
    ensures IndexAt(log, i, j) <= |log.Records()|
    ensures j < |log.segs[i]| ==>
      IndexAt(log, i, j) < |log.Records()| && log.Records()[IndexAt(log, i, j)] == log.segs[i][j]
    ensures j == |log.segs[i]| && i == |log.segs| - 1 ==> IndexAt(log, i, j) == |log.Records()|
  {
    TakeStep(log.segs, i);
    JoinedPrefix(log.segs, i + 1);
    TakeAll(log.segs);
    var before, upto := Joined(log.segs[..i]), Joined(log.segs[..i + 1]);
    assert upto == before + log.segs[i];
    assert log.Records()[..|upto|] == upto;
  }

  lemma {:induction false} SegmentPrefix(crc: Checksum, rs: seq<Record>, j: nat)
    requires j <= |rs|
    ensures SegmentBytes(crc, rs[..j]) <= SegmentBytes(crc, rs)
    ensures j < |rs| ==> exists rest ::
      SegmentBytes(crc, rs)[|SegmentBytes(crc, rs[..j])|..] == RecordBytes(crc, rs[j]) + rest
    decreases |rs| - j
  {
    hide RecordBytes;
    if j == |rs| {
      TakeAll(rs);
    } else {
      TakeStep(rs, j);
      SegmentPrefix(crc, rs, j + 1);
      var a, b, all := SegmentBytes(crc, rs[..j]), SegmentBytes(crc, rs[..j + 1]), SegmentBytes(crc, rs);
      assert b == a + RecordBytes(crc, rs[j]);
      assert all[|a|..] == RecordBytes(crc, rs[j]) + all[|b|..];
    }
  }

  // ----- reading -----

  datatype ReadResult =
    | Got(record: Record, next: Checkpoint)
    | Eof
    | Corrupt(at: Checkpoint)

  function Later(files: Files, seg: nat): set<nat> {
    set k | k in files && k > seg
  }

  /** What the reader returns from a position, and the position it is at afterwards. */
  function ReadFrom(crc: Checksum, files: Files, pos: Checkpoint): (r: (ReadResult, Checkpoint))
    decreases Later(files, pos.segment)
  {
    var content := if pos.segment in files then files[pos.segment] else [];
    if pos.offset >= |content| || pos.segment !in files then
      if pos.segment + 1 in files then
        assert pos.segment + 1 in Later(files, pos.segment) && pos.segment + 1 !in Later(files, pos.segment + 1);
        ReadFrom(crc, files, Checkpoint(pos.segment + 1, 0))
      else (Eof, pos)
    else match Scan(crc, content[pos.offset..])
      case End => (Eof, pos)
      case Damaged => (Corrupt(pos), pos)
      case Found(r) =>
        var next := Checkpoint(pos.segment, pos.offset + HEADER_SIZE + |r.payload|);
        (Got(r, next), next)
  }

  /** Reading a represented log from any position returns the record of its index and the
      position of the next one, or reports the end and stays at the same index. */
  lemma {:induction false} ReadsRecord(crc: Checksum, log: Log, files: Files, i: nat, j: nat)
    requires Represents(crc, log, files) && AllReadable(log.Records()) && InLog(log, i, j)
    ensures var k, (r, pos) := IndexAt(log, i, j), ReadFrom(crc, files, PosAt(crc, log, i, j));
      if k < |log.Records()| then
        && r.Got? && r.record == log.Records()[k] && pos == r.next && Denotes(crc, log, r.next, k + 1)
      else r == Eof && Denotes(crc, log, pos, k)
    decreases |log.segs| - i
  {
    hide Scan, RecordBytes, SegmentBytes, Joined;
    var pos, rs := PosAt(crc, log, i, j), log.segs[i];
    RecordAt(log, i, j);
    SegmentPrefix(crc, rs, j);
    if j < |rs| {
      var rest :| SegmentBytes(crc, rs)[pos.offset..] == RecordBytes(crc, rs[j]) + rest;
      assert rs[j] in log.Records();
      RecordRoundTrip(crc, rs[j], rest);
      SegmentGrows(crc, rs, j);
      assert InLog(log, i, j + 1);
      assert PosAt(crc, log, i, j + 1) == Checkpoint(pos.segment, pos.offset + HEADER_SIZE + |rs[j].payload|);
    } else {
      TakeAll(rs);
      if i + 1 < |log.segs| {
        EndIsStart(crc, log, i);
        NoRecords(crc, log, i + 1);
        ReadsRecord(crc, log, files, i + 1, 0);
      }
    }
  }

  lemma NoRecords(crc: Checksum, log: Log, i: nat)
    requires i < |log.segs|
    ensures PosAt(crc, log, i, 0) == Checkpoint(log.first + i, 0)
  {
    assert log.segs[i][..0] == [];
  }

  lemma SegmentGrows(crc: Checksum, rs: seq<Record>, j: nat)
    requires j < |rs|
    ensures SegmentBytes(crc, rs[..j + 1]) == SegmentBytes(crc, rs[..j]) + RecordBytes(crc, rs[j])
    ensures |SegmentBytes(crc, rs[..j + 1])| == |SegmentBytes(crc, rs[..j])| + HEADER_SIZE + |rs[j].payload|
  {
    hide RecordBytes;
    TakeStep(rs, j);
  }

  /** The reader refines the log. */
  lemma ReaderRefines(crc: Checksum, log: Log, files: Files, pos: Checkpoint, k: nat)
    requires Represents(crc, log, files) && AllReadable(log.Records()) && Denotes(crc, log, pos, k)
    ensures var (r, pos') := ReadFrom(crc, files, pos);
      if k < |log.Records()| then
        && r.Got? && r.record == log.Records()[k] && pos' == r.next && Denotes(crc, log, r.next, k + 1)
      else r == Eof && Denotes(crc, log, pos', k)
  {
    hide ReadFrom, SegmentBytes, Represents;
    var i: nat, j: nat :| InLog(log, i, j) && pos == PosAt(crc, log, i, j) && k == IndexAt(log, i, j);
    ReadsRecord(crc, log, files, i, j);
  }

  /** Reading only moves forward. */
  lemma {:induction false} ReadAdvances(crc: Checksum, files: Files, pos: Checkpoint)
    ensures var (r, pos') := ReadFrom(crc, files, pos);
      && pos.segment <= pos'.segment && (pos'.segment == pos.segment ==> pos.offset <= pos'.offset)
      && (r.Got? ==> pos' != pos)
    decreases Later(files, pos.segment)
  {
    hide Scan;
    if (pos.segment !in files || pos.offset >= |files[pos.segment]|) && pos.segment + 1 in files {
      assert pos.segment + 1 in Later(files, pos.segment) && pos.segment + 1 !in Later(files, pos.segment + 1);
      ReadAdvances(crc, files, Checkpoint(pos.segment + 1, 0));
    }
  }
}
