/** What the operations on segment files mean for the log of records. */
module WalProperties {
  import opened Words
  import opened WalRecord
  import opened WalLog
  import opened Wal

  // ----- appending -----

  function LastSegment(log: Log): seq<Record>
    requires log.segs != []
  {
    log.segs[|log.segs| - 1]
  }

  function AppendedLog(crc: Checksum, log: Log, size: int, r: Record): (log': Log)
    requires log.segs != []
  {
    var last := LastSegment(log);
    if |SegmentBytes(crc, last)| > 0 && |SegmentBytes(crc, last)| + HEADER_SIZE + |r.payload| > size then
      log.(segs := log.segs + [[r]])
    else log.(segs := log.segs[|log.segs| - 1 := last + [r]])
  }

  lemma SnocSegment(crc: Checksum, rs: seq<Record>, r: Record)
    ensures SegmentBytes(crc, rs + [r]) == SegmentBytes(crc, rs) + RecordBytes(crc, r)
  {
    assert (rs + [r])[..|rs|] == rs;
  }

  lemma JoinedLast(segs: seq<seq<Record>>, last: seq<Record>)
    ensures Joined(segs + [last]) == Joined(segs) + last
  {
    assert (segs + [last])[..|segs|] == segs;
  }

  /** Appending to the files appends the record to the log, rotation or not. */
  lemma AppendRefines(crc: Checksum, log: Log, files: Files, size: int, r: Record)
    requires Represents(crc, log, files)
    ensures var (files', active') := Appended(files, log.Active(), size, RecordBytes(crc, r));
      var log' := AppendedLog(crc, log, size, r);
      && Represents(crc, log', files') && active' == log'.Active()
      && log'.Records() == log.Records() + [r]
  {
    hide RecordBytes, SegmentBytes, Joined;
    var n := |log.segs| - 1;
    var last := LastSegment(log);
    assert log.segs == log.segs[..n] + [last];
    JoinedLast(log.segs[..n], last);
    SnocSegment(crc, last, r);
    SnocSegment(crc, [], r);
    EmptySegment(crc);
    assert [] + [r] == [r] && [] + RecordBytes(crc, r) == RecordBytes(crc, r);
    var log' := AppendedLog(crc, log, size, r);
    if |log'.segs| > |log.segs| {
      JoinedLast(log.segs, [r]);
    } else {
      assert log'.segs == log.segs[..n] + [last + [r]];
      JoinedLast(log.segs[..n], last + [r]);
      ConcatAssoc(Joined(log.segs[..n]), last, [r]);
    }
  }

  lemma EmptySegment(crc: Checksum)
    ensures SegmentBytes(crc, []) == []
  {
  }

  /** Some more records in the last segment, or more segments. */
  ghost predicate Extends(log: Log, log': Log) {
    && log'.first == log.first && |log.segs| <= |log'.segs|
    && forall i :: 0 <= i < |log.segs| ==>
      log.segs[i] <= log'.segs[i] && (i < |log.segs| - 1 ==> log.segs[i] == log'.segs[i])
  }

  lemma ExtendingKeepsPositions(crc: Checksum, log: Log, log': Log, pos: Checkpoint, k: nat)
    requires Extends(log, log') && Denotes(crc, log, pos, k)
    ensures Denotes(crc, log', pos, k)
  {
    hide SegmentBytes, Joined;
    var i: nat, j: nat :| InLog(log, i, j) && pos == PosAt(crc, log, i, j) && k == IndexAt(log, i, j);
    assert log'.segs[i][..j] == log.segs[i][..j];
    assert log'.segs[..i] == log.segs[..i];
    assert InLog(log', i, j);
  }

  /** Positions keep their meaning when records are appended. */
  lemma AppendKeepsPositions(crc: Checksum, log: Log, size: int, r: Record, pos: Checkpoint, k: nat)
    requires log.segs != [] && Denotes(crc, log, pos, k)
    ensures Denotes(crc, AppendedLog(crc, log, size, r), pos, k)
  {
    hide SegmentBytes, Denotes;
    var log' := AppendedLog(crc, log, size, r);
    assert Extends(log, log');
    ExtendingKeepsPositions(crc, log, log', pos, k);
  }

  /** Every segment is within the size limit or holds a single record. */
  ghost predicate Bounded(crc: Checksum, log: Log, size: int) {
    forall i :: 0 <= i < |log.segs| ==> |SegmentBytes(crc, log.segs[i])| <= size || |log.segs[i]| <= 1
  }

  lemma AppendKeepsBounds(crc: Checksum, log: Log, size: int, r: Record)
    requires log.segs != [] && Bounded(crc, log, size)
    ensures Bounded(crc, AppendedLog(crc, log, size, r), size)
  {
    hide RecordBytes, SegmentBytes;
    var last := LastSegment(log);
    SnocSegment(crc, last, r);
    EmptySegment(crc);
    if last != [] {
      SegmentSize(crc, last);
    }
  }

  /** Segments are filled: none is left while the next record would still have fitted. */
  ghost predicate Filled(log: Log, size: int) {
    forall i :: 0 <= i < |log.segs| - 1 ==> FilledAt(log, i, size)
  }

  predicate FilledAt(log: Log, i: nat, size: int)
    requires i + 1 < |log.segs|
  {
    && log.segs[i] != [] && log.segs[i + 1] != []
    && RecordsSize(log.segs[i]) + HEADER_SIZE + |log.segs[i + 1][0].payload| > size
  }

  lemma AppendKeepsFilled(crc: Checksum, log: Log, size: int, r: Record)
    requires log.segs != [] && Filled(log, size)
    ensures Filled(AppendedLog(crc, log, size, r), size)
  {
    hide SegmentBytes, RecordsSize;
    var last, log' := LastSegment(log), AppendedLog(crc, log, size, r);
    SegmentSize(crc, last);
    EmptySegment(crc);
    forall i | 0 <= i < |log'.segs| - 1
      ensures FilledAt(log', i, size)
    {
      assert log'.segs[i] == log.segs[i];
      assert i + 1 < |log.segs| ==> FilledAt(log, i, size);
    }
  }

  // ----- accounting -----

  /** The bytes of some records on disk. */
  function RecordsSize(rs: seq<Record>): nat {
    if rs == [] then 0 else RecordsSize(rs[..|rs| - 1]) + HEADER_SIZE + |rs[|rs| - 1].payload|
  }

  lemma {:induction false} SegmentSize(crc: Checksum, rs: seq<Record>)
    ensures |SegmentBytes(crc, rs)| == RecordsSize(rs)
    ensures rs != [] ==> RecordsSize(rs) > 0
  {
    hide RecordBytes;
    if rs != [] {
      SegmentSize(crc, rs[..|rs| - 1]);
    }
  }

  lemma {:induction false} SizeConcat(xs: seq<Record>, ys: seq<Record>)
    ensures RecordsSize(xs + ys) == RecordsSize(xs) + RecordsSize(ys)
  {
    if ys == [] {
      assert xs + ys == xs;
    } else {
      var n := |ys| - 1;
      assert (xs + ys)[..|xs| + n] == xs + ys[..n];
      SizeConcat(xs, ys[..n]);
    }
  }

  /** The records from segment `i` on. */
  function From(segs: seq<seq<Record>>, i: nat): seq<Record>
    decreases |segs| - i
  {
    if i >= |segs| then [] else segs[i] + From(segs, i + 1)
  }

  lemma {:induction false} JoinedSplit(segs: seq<seq<Record>>, i: nat)
    requires i <= |segs|
    ensures Joined(segs) == Joined(segs[..i]) + From(segs, i)
    decreases |segs| - i
  {
    if i == |segs| {
      TakeAll(segs);
      assert Joined(segs) + [] == Joined(segs);
    } else {
      JoinedSplit(segs, i + 1);
      TakeStep(segs, i);
      ConcatAssoc(Joined(segs[..i]), segs[i], From(segs, i + 1));
    }
  }

  lemma {:induction false} SizeFrom(crc: Checksum, log: Log, files: Files, cp: Checkpoint, i: nat)
    requires Represents(crc, log, files) && i <= |log.segs|
    ensures SizeOf(files, log.first + i, log.first + |log.segs|) == RecordsSize(From(log.segs, i))
    ensures cp.segment < log.first + i ==>
      UnackedOf(files, cp, log.first + i, log.first + |log.segs|) == RecordsSize(From(log.segs, i))
    decreases |log.segs| - i
  {
    hide SegmentBytes, SizeOf, UnackedOf, RecordsSize, From;
    if i < |log.segs| {
      SegmentSize(crc, log.segs[i]);
      FromStep(log.segs, i);
      SizeConcat(log.segs[i], From(log.segs, i + 1));
      SizeFrom(crc, log, files, cp, i + 1);
      StatsStep(files, cp, log.first + i, log.first + |log.segs|);
    } else {
      NoSegments(files, cp, log.first + i);
      NothingFrom(log.segs);
    }
  }

  lemma {:induction false} AckedBefore(files: Files, cp: Checkpoint, lo: nat, hi: nat)
    requires lo <= cp.segment <= hi && forall k :: lo <= k < hi ==> k in files
    ensures UnackedOf(files, cp, lo, hi) == UnackedOf(files, cp, cp.segment, hi)
    decreases cp.segment - lo
  {
    if lo < cp.segment {
      StatsStep(files, cp, lo, hi);
      AckedBefore(files, cp, lo + 1, hi);
    }
  }

  /** `Stats` counts the records not before the checkpoint, header and payload. */
  lemma StatsMeaning(crc: Checksum, log: Log, files: Files, cp: Checkpoint, k: nat)
    requires Represents(crc, log, files) && Denotes(crc, log, cp, k)
    ensures k <= |log.Records()|
    ensures SizeOf(files, log.first, log.Active() + 1) == RecordsSize(log.Records())
    ensures UnackedOf(files, cp, log.first, log.Active() + 1) == RecordsSize(log.Records()[k..])
  {
    hide SegmentBytes, SizeOf, UnackedOf, From, RecordsSize, Joined;
    var i: nat, j: nat :| InLog(log, i, j) && cp == PosAt(crc, log, i, j) && k == IndexAt(log, i, j);
    RecordAt(log, i, j);
    JoinedIsFrom(log.segs);
    SizeFrom(crc, log, files, cp, 0);
    AckedBefore(files, cp, log.first, log.first + |log.segs|);
    UnackedFrom(crc, log, files, i, j);
    RecordsFrom(log, i, j);
  }

  lemma JoinedIsFrom(segs: seq<seq<Record>>)
    ensures Joined(segs) == From(segs, 0)
  {
    JoinedSplit(segs, 0);
    JoinedEmpty();
    assert segs[..0] == [];
    assert [] + From(segs, 0) == From(segs, 0);
  }

  /** Past a position, the rest of its segment and all later segments are not acknowledged. */
  lemma UnackedFrom(crc: Checksum, log: Log, files: Files, i: nat, j: nat)
    requires Represents(crc, log, files) && InLog(log, i, j)
    ensures UnackedOf(files, PosAt(crc, log, i, j), log.first + i, log.first + |log.segs|)
      == RecordsSize(log.segs[i][j..] + From(log.segs, i + 1))
  {
    hide SegmentBytes, SizeOf, UnackedOf, From, RecordsSize;
    var rs, cp := log.segs[i], PosAt(crc, log, i, j);
    StatsStep(files, cp, log.first + i, log.first + |log.segs|);
    SizeFrom(crc, log, files, cp, i + 1);
    assert rs == rs[..j] + rs[j..];
    SizeConcat(rs[..j], rs[j..]);
    SegmentSize(crc, rs);
    SegmentSize(crc, rs[..j]);
    SizeConcat(rs[j..], From(log.segs, i + 1));
  }

  lemma RecordsFrom(log: Log, i: nat, j: nat)
    requires InLog(log, i, j)
    ensures IndexAt(log, i, j) <= |log.Records()|
    ensures log.Records()[IndexAt(log, i, j)..] == log.segs[i][j..] + From(log.segs, i + 1)
  {
    hide From;
    RecordAt(log, i, j);
    JoinedSplit(log.segs, i);
    FromStep(log.segs, i);
  }

  lemma JoinedEmpty()
    ensures Joined([]) == []
  {
  }

  lemma NothingFrom(segs: seq<seq<Record>>)
    ensures From(segs, |segs|) == [] && RecordsSize([]) == 0
  {
  }

  lemma FromStep(segs: seq<seq<Record>>, i: nat)
    requires i < |segs|
    ensures From(segs, i) == segs[i] + From(segs, i + 1)
  {
  }

  /** What retention keeps: of the whole segments at the end, as many as fit the limit, one at least;
      and all of them exactly when the whole log fits, or is one segment. */
  lemma KeptSize(crc: Checksum, log: Log, files: Files, max: int)
    requires Represents(crc, log, files)
    ensures var f := Keep(files, log.first, log.Active(), max);
      && log.first <= f <= log.Active()
      && (f == log.Active() || RecordsSize(From(log.segs, f - log.first)) <= max)
      && (forall i :: 0 <= i < f - log.first ==> RecordsSize(From(log.segs, i)) > max)
  {
    hide Represents, SizeOf, From, RecordsSize, Keep;
    RepresentsNonempty(crc, log, files);
    var f := Keep(files, log.first, log.Active(), max);
    SizeFrom(crc, log, files, Checkpoint(0, 0), f - log.first);
    forall i | 0 <= i < f - log.first
      ensures RecordsSize(From(log.segs, i)) > max
    {
      assert TooLarge(files, log.first + i, log.Active(), max);
      SizeFrom(crc, log, files, Checkpoint(0, 0), i);
    }
  }

  lemma RepresentsNonempty(crc: Checksum, log: Log, files: Files)
    requires Represents(crc, log, files)
    ensures log.segs != []
  {
  }

  // ----- cutting back -----

  /** The log up to a position. */
  function CutLog(log: Log, i: nat, j: nat): Log
    requires InLog(log, i, j)
  {
    log.(segs := log.segs[..i] + [log.segs[i][..j]])
  }

  /** Truncating at a position keeps exactly the records before it; bytes after the last
      record of the segment, damaged or not, are gone, and so are later segments. */
  lemma TruncateRefines(crc: Checksum, log: Log, files: Files, i: nat, j: nat)
    requires log.Valid() && InLog(log, i, j)
    requires forall k :: k <= log.Active() ==> (k in files <==> log.first <= k)
    requires forall k :: 0 <= k <= i ==> SegmentBytes(crc, log.segs[k]) <= files[log.first + k]
    requires forall k :: 0 <= k < i ==> SegmentBytes(crc, log.segs[k]) == files[log.first + k]
    ensures var pos, log' := PosAt(crc, log, i, j), CutLog(log, i, j);
      && pos.segment in files && Represents(crc, log', Truncated(files, pos))
      && IndexAt(log, i, j) <= |log.Records()|
      && log'.Active() == pos.segment && log'.Records() == log.Records()[..IndexAt(log, i, j)]
      && Denotes(crc, log', pos, |log'.Records()|)
  {
    hide SegmentBytes, Joined;
    var pos, log' := PosAt(crc, log, i, j), CutLog(log, i, j);
    SegmentPrefix(crc, log.segs[i], j);
    var cut := files[pos.segment][..pos.offset];
    assert cut == SegmentBytes(crc, log.segs[i][..j]) by {
      assert SegmentBytes(crc, log.segs[i])[..pos.offset] == cut;
    }
    JoinedLast(log.segs[..i], log.segs[i][..j]);
    TakeStep(log.segs, i);
    JoinedPrefix(log.segs, i + 1);
    JoinedLast(log.segs[..i], log.segs[i]);
    var before := Joined(log.segs[..i]);
    RecordAt(log, i, j);
    assert log.Records()[..|before| + j] == before + log.segs[i][..j] by {
      assert log.Records()[..|before + log.segs[i]|] == before + log.segs[i];
    }
    assert InLog(log', i, j) && log'.segs[i][..j] == log.segs[i][..j] && log'.segs[..i] == log.segs[..i];
    assert pos == PosAt(crc, log', i, j);
    RecordAt(log', i, j);
  }

  // ----- retention -----

  /** The log without its first segments. */
  function DroppedLog(log: Log, f: nat): Log
    requires log.first <= f <= log.first + |log.segs|
  {
    Log(f, log.segs[f - log.first..])
  }

  lemma {:induction false} FromDropped(segs: seq<seq<Record>>, m: nat, i: nat)
    requires m <= |segs|
    ensures From(segs[m..], i) == From(segs, m + i)
    decreases |segs| - i
  {
    if m + i < |segs| {
      FromDropped(segs, m, i + 1);
    }
  }

  /** Retention drops whole segments from the front, and the checkpoint then denotes the first
      record that is both kept and not acknowledged. */
  lemma RetentionRefines(crc: Checksum, log: Log, files: Files, cp: Checkpoint, k: nat, f: nat)
    requires Represents(crc, log, files) && Denotes(crc, log, cp, k) && log.first <= f <= log.Active()
    ensures var log' := DroppedLog(log, f);
      var dropped := |Joined(log.segs[..f - log.first])|;
      && Represents(crc, log', Retained(files, f)) && log'.Active() == log.Active()
      && dropped <= |log.Records()| && log'.Records() == log.Records()[dropped..]
      && Denotes(crc, log', Moved(cp, log.first, f), if k > dropped then k - dropped else 0)
      && (cp.segment >= f ==> k >= dropped) && (cp.segment < f ==> k <= dropped)
  {
    hide SegmentBytes, Joined, From, Denotes;
    var m := f - log.first;
    JoinedSplit(log.segs, m);
    JoinedIsFrom(DroppedLog(log, f).segs);
    FromDropped(log.segs, m, 0);
    var i, j := Place(crc, log, cp, k);
    if i < m {
      DroppedPosition(crc, log, i, j, m);
    } else {
      KeptPosition(crc, log, i, j, m);
    }
  }

  /** A position in a dropped segment is before the log, and the log has a start. */
  lemma DroppedPosition(crc: Checksum, log: Log, i: nat, j: nat, m: nat)
    requires InLog(log, i, j) && i < m < |log.segs|
    ensures IndexAt(log, i, j) <= |Joined(log.segs[..m])|
    ensures Denotes(crc, DroppedLog(log, log.first + m), Checkpoint(log.first + m, 0), 0)
  {
    hide SegmentBytes, Joined;
    var log' := DroppedLog(log, log.first + m);
    TakeStep(log.segs, i);
    JoinedLast(log.segs[..i], log.segs[i]);
    JoinedWithin(log.segs, i + 1, m);
    JoinedEmpty();
    NoRecords(crc, log', 0);
    assert log'.segs[..0] == [];
    assert InLog(log', 0, 0) && IndexAt(log', 0, 0) == 0;
  }

  /** A position in a kept segment stays where it is. */
  lemma KeptPosition(crc: Checksum, log: Log, i: nat, j: nat, m: nat)
    requires InLog(log, i, j) && m <= i
    ensures |Joined(log.segs[..m])| <= IndexAt(log, i, j)
    ensures Denotes(crc, DroppedLog(log, log.first + m), PosAt(crc, log, i, j),
      IndexAt(log, i, j) - |Joined(log.segs[..m])|)
  {
    hide SegmentBytes, Joined, From;
    var log' := DroppedLog(log, log.first + m);
    JoinedWithin(log.segs, m, i);
    assert log.segs[..i][m..] == log'.segs[..i - m];
    JoinedSplit(log.segs[..i], m);
    assert log.segs[..i][..m] == log.segs[..m];
    FromDropped(log.segs[..i], m, 0);
    JoinedIsFrom(log'.segs[..i - m]);
    assert InLog(log', i - m, j) && log'.segs[i - m] == log.segs[i];
    assert PosAt(crc, log', i - m, j) == PosAt(crc, log, i, j);
    assert IndexAt(log', i - m, j) == IndexAt(log, i, j) - |Joined(log.segs[..m])|;
  }

  lemma JoinedWithin(segs: seq<seq<Record>>, a: nat, b: nat)
    requires a <= b <= |segs|
    ensures |Joined(segs[..a])| <= |Joined(segs[..b])|
  {
    JoinedPrefix(segs[..b], a);
    assert segs[..b][..a] == segs[..a];
  }

  /** Cutting the log back and dropping segments from the front keep the size bound. */
  lemma RemovalKeepsBounds(crc: Checksum, log: Log, size: int, i: nat, j: nat, f: nat)
    requires Bounded(crc, log, size) && InLog(log, i, j) && log.first <= f <= log.first + |log.segs|
    ensures Bounded(crc, CutLog(log, i, j), size) && Bounded(crc, DroppedLog(log, f), size)
  {
    hide SegmentBytes;
    SegmentPrefix(crc, log.segs[i], j);
    var cut := CutLog(log, i, j);
    forall n | 0 <= n < |cut.segs|
      ensures |SegmentBytes(crc, cut.segs[n])| <= size || |cut.segs[n]| <= 1
    {
      assert n < i ==> cut.segs[n] == log.segs[n];
    }
  }

  // ----- torn tails -----

  /** The files of a log whose last record was cut at an interior byte. */
  ghost predicate TornTail(crc: Checksum, log: Log, r: Record, cut: nat, files: Files) {
    && log.Valid() && |r.payload| <= MAX_RECORD && 0 < cut < |RecordBytes(crc, r)|
    && log.Active() in files
    && files[log.Active()] == SegmentBytes(crc, LastSegment(log)) + RecordBytes(crc, r)[..cut]
    && Represents(crc, log, files[log.Active() := SegmentBytes(crc, LastSegment(log))])
  }

  function TearAt(crc: Checksum, log: Log): Checkpoint
    requires log.segs != []
  {
    Checkpoint(log.Active(), |SegmentBytes(crc, LastSegment(log))|)
  }

  /** The files of a log up to its last segment, where bytes follow that a reader takes for a
      damaged record. There may be later segments. */
  ghost predicate DamagedAt(crc: Checksum, log: Log, junk: Bytes, files: Files) {
    && log.Valid() && Scan(crc, junk) == Damaged
    && (forall k :: k <= log.Active() ==> (k in files <==> log.first <= k))
    && files[log.Active()] == SegmentBytes(crc, LastSegment(log)) + junk
    && forall i :: 0 <= i < |log.segs| - 1 ==> files[log.first + i] == SegmentBytes(crc, log.segs[i])
  }

  /** Any interior cut of a record is damage. */
  lemma TornDamaged(crc: Checksum, log: Log, r: Record, cut: nat, files: Files)
    requires TornTail(crc, log, r, cut, files)
    ensures exists junk: Bytes :: DamagedAt(crc, log, junk, files)
  {
    hide RecordBytes, SegmentBytes, Scan;
    var whole := files[log.Active() := SegmentBytes(crc, LastSegment(log))];
    assert forall k :: k in files <==> k in whole;
    TornRecord(crc, r, cut);
    assert DamagedAt(crc, log, RecordBytes(crc, r)[..cut], files);
  }

  /** Reading a damaged log returns every intact record, and then reports damage where the
      intact records end. */
  lemma {:induction false} DamagedReads(crc: Checksum, log: Log, junk: Bytes, files: Files, i: nat, j: nat)
    requires DamagedAt(crc, log, junk, files) && AllReadable(log.Records()) && InLog(log, i, j)
    ensures var k, (res, pos) := IndexAt(log, i, j), ReadFrom(crc, files, PosAt(crc, log, i, j));
      if k < |log.Records()| then
        && res.Got? && res.record == log.Records()[k] && pos == res.next && Denotes(crc, log, res.next, k + 1)
      else res == Corrupt(TearAt(crc, log)) && pos == TearAt(crc, log)
    decreases |log.segs| - i
  {
    hide Scan, RecordBytes, SegmentBytes, Joined;
    var pos, rs, last := PosAt(crc, log, i, j), log.segs[i], |log.segs| - 1;
    RecordAt(log, i, j);
    SegmentPrefix(crc, rs, j);
    if j < |rs| {
      var rest :| SegmentBytes(crc, rs)[pos.offset..] == RecordBytes(crc, rs[j]) + rest;
      var tail := if i == last then rest + junk else rest;
      assert rs[j] in log.Records();
      SegmentGrows(crc, rs, j);
      assert files[pos.segment][pos.offset..] == RecordBytes(crc, rs[j]) + tail by {
        if i == last {
          assert files[pos.segment][pos.offset..] == SegmentBytes(crc, rs)[pos.offset..] + junk;
          ConcatAssoc(RecordBytes(crc, rs[j]), rest, junk);
        }
      }
      RecordRoundTrip(crc, rs[j], tail);
      assert InLog(log, i, j + 1);
      assert PosAt(crc, log, i, j + 1) == Checkpoint(pos.segment, pos.offset + HEADER_SIZE + |rs[j].payload|);
    } else {
      TakeAll(rs);
      if i < last {
        EndIsStart(crc, log, i);
        NoRecords(crc, log, i + 1);
        DamagedReads(crc, log, junk, files, i + 1, 0);
      } else {
        assert files[pos.segment][pos.offset..] == junk;
      }
    }
  }

  predicate NotAfter(a: Checkpoint, b: Checkpoint) {
    a.segment < b.segment || (a.segment == b.segment && a.offset <= b.offset)
  }

  lemma OffsetsGrow(crc: Checksum, rs: seq<Record>, j: nat, j': nat)
    requires j < j' <= |rs|
    ensures |SegmentBytes(crc, rs[..j])| < |SegmentBytes(crc, rs[..j'])|
  {
    hide SegmentBytes;
    assert rs[..j'][..j] == rs[..j];
    SegmentPrefix(crc, rs[..j'], j);
  }

  /** A position denotes one index only. */
  lemma DenotesOnce(crc: Checksum, log: Log, pos: Checkpoint, k: nat, k': nat)
    requires Denotes(crc, log, pos, k) && Denotes(crc, log, pos, k')
    ensures k == k'
  {
    hide SegmentBytes, Joined, Denotes;
    var i, j := Place(crc, log, pos, k);
    var i', j' := Place(crc, log, pos, k');
    if j < j' {
      OffsetsGrow(crc, log.segs[i], j, j');
    } else if j' < j {
      OffsetsGrow(crc, log.segs[i], j', j);
    }
  }

  /** Positions up to the cut keep their meaning. */
  lemma CutKeepsPositions(crc: Checksum, log: Log, i: nat, j: nat, pos: Checkpoint, k: nat)
    requires InLog(log, i, j) && Denotes(crc, log, pos, k) && NotAfter(pos, PosAt(crc, log, i, j))
    ensures Denotes(crc, CutLog(log, i, j), pos, k)
  {
    hide SegmentBytes, Joined;
    var a: nat, b: nat :| InLog(log, a, b) && pos == PosAt(crc, log, a, b) && k == IndexAt(log, a, b);
    if a == i && j < b {
      OffsetsGrow(crc, log.segs[i], j, b);
    }
    var log' := CutLog(log, i, j);
    assert log'.segs[a][..b] == log.segs[a][..b];
    assert log'.segs[..a] == log.segs[..a];
    assert InLog(log', a, b);
  }

  /** Repairing at a checkpoint after the last intact record restores a log of exactly the
      intact records, also when the damaged record was the first of a new segment, with the
      checkpoint at its end: later appends go on from there. */
  lemma RepairRestores(crc: Checksum, log: Log, junk: Bytes, files: Files, cp: Checkpoint)
    requires DamagedAt(crc, log, junk, files) && Denotes(crc, log, cp, |log.Records()|)
    ensures cp.segment in files
    ensures exists log': Log ::
      && Represents(crc, log', Truncated(files, cp)) && log'.Records() == log.Records()
      && log'.first == log.first && log'.Active() == cp.segment && Denotes(crc, log', cp, |log.Records()|)
      && forall p, k :: Denotes(crc, log, p, k) && NotAfter(p, cp) ==> Denotes(crc, log', p, k)
  {
    hide RecordBytes, SegmentBytes, Joined, Denotes, Scan;
    var i: nat, j: nat := Place(crc, log, cp, |log.Records()|);
    var last := |log.segs| - 1;
    assert forall k :: 0 <= k < last ==> SegmentBytes(crc, log.segs[k]) == files[log.first + k];
    TruncateRefines(crc, log, files, i, j);
    TakeAll(log.Records());
    forall p, k | Denotes(crc, log, p, k) && NotAfter(p, cp)
      ensures Denotes(crc, CutLog(log, i, j), p, k)
    {
      CutKeepsPositions(crc, log, i, j, p, k);
    }
  }

  /** The segment and record a position stands at. */
  lemma Place(crc: Checksum, log: Log, pos: Checkpoint, k: nat) returns (i: nat, j: nat)
    requires Denotes(crc, log, pos, k)
    ensures InLog(log, i, j) && pos == PosAt(crc, log, i, j) && k == IndexAt(log, i, j)
  {
    i, j :| InLog(log, i, j) && pos == PosAt(crc, log, i, j) && k == IndexAt(log, i, j);
  }
}
