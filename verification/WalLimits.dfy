/** The edges of the log: records over the limit that `Append` accepts, and the sizes of segment
    files over whole runs. */
module WalLimits {
  import opened Words
  import opened ByteCodec
  import opened WalRecord
  import opened WalLog
  import opened Wal
  import opened WalProperties
  import opened WalDelivery

  // ----- records over the limit -----

  /** A record over the limit at the end of the log, with anything behind it. */
  ghost predicate Choked(c: Config, log: Log, r: Record, files: Files) {
    exists rest: Bytes :: DamagedAt(c.crc, log, RecordBytes(c.crc, r) + rest, files)
  }

  predicate Oversized(r: Record) {
    MAX_RECORD < |r.payload| < TWO_TO_32
  }

  /** `Append` accepts a record over the limit, and a reader then finds damage there. */
  lemma ChokedFirst(c: Config, log: Log, files: Files, r: Record)
    requires Represents(c.crc, log, files) && Oversized(r)
    ensures var log' := StartedLog(c.crc, log, c.segmentSize, r);
      var (files', active) := Appended(files, log.Active(), c.segmentSize, RecordBytes(c.crc, r));
      && log'.segs != [] && Extends(log, log') && log'.Records() == log.Records()
      && active == log'.Active() && Choked(c, log', r, files')
  {
    hide RecordBytes, SegmentBytes, Joined, Scan;
    EmptySegment(c.crc);
    var log', rec := StartedLog(c.crc, log, c.segmentSize, r), RecordBytes(c.crc, r);
    var (files', active) := Appended(files, log.Active(), c.segmentSize, rec);
    JoinedLast(log.segs, []);
    assert Joined(log.segs) + [] == Joined(log.segs);
    RecordRoundTrip(c.crc, r, []);
    assert rec + [] == rec && [] + rec == rec;
    assert DamagedAt(c.crc, log', rec + [], files');
  }

  lemma ChokedLater(c: Config, log: Log, r: Record, files: Files, active: nat, rec: Bytes)
    requires Choked(c, log, r, files) && Oversized(r) && log.segs != [] && log.Active() <= active
    ensures var (files', active') := Appended(files, active, c.segmentSize, rec);
      Choked(c, log, r, files') && log.Active() <= active'
  {
    hide RecordBytes, SegmentBytes, Scan;
    var big := RecordBytes(c.crc, r);
    var rest: Bytes :| DamagedAt(c.crc, log, big + rest, files);
    var (files', active') := Appended(files, active, c.segmentSize, rec);
    if active' == log.Active() {
      ConcatAssoc(SegmentBytes(c.crc, LastSegment(log)), big + rest, rec);
      ConcatAssoc(big, rest, rec);
      RecordRoundTrip(c.crc, r, rest + rec);
      assert DamagedAt(c.crc, log, big + (rest + rec), files');
    } else {
      assert DamagedAt(c.crc, log, big + rest, files');
    }
  }

  function Appends(rs: seq<Record>): seq<Step> {
    if rs == [] then [] else [Append(rs[0])] + Appends(rs[1..])
  }

  lemma {:induction false} ChokedAppends(c: Config, st: State, log: Log, r: Record, rs: seq<Record>)
    requires Choked(c, log, r, st.files) && Oversized(r) && log.segs != [] && log.Active() <= st.active
    ensures Run(c, st, Appends(rs))
    ensures var st' := After(c, st, Appends(rs));
      && st' == st.(files := st'.files, active := st'.active)
      && Choked(c, log, r, st'.files) && log.Active() <= st'.active
    decreases |rs|
  {
    hide Choked, Appended, RecordBytes, Oversized;
    if rs != [] {
      ChokedLater(c, log, r, st.files, st.active, RecordBytes(c.crc, rs[0]));
      ChokedAppends(c, Next(c, st, Append(rs[0])), log, r, rs[1..]);
      assert Appends(rs)[1..] == Appends(rs[1..]);
    }
  }

  /** What becomes of a record over the limit, and of every record appended behind it, in that
      segment or in later ones: when the consumer gets there it finds damage, and the repair
      leaves a log and a queue as if none of them had ever been appended. */
  lemma OversizedLost(c: Config, st: State, log: Log, q: Queue, r: Record, later: seq<Record>)
    requires Refines(c, st, log, q) && !st.torn && st.pending.None? && q.acked == |q.records|
    requires Oversized(r) && st.cp.segment in st.files
    ensures Run(c, st, Appends([r] + later))
    ensures var st' := After(c, st, Appends([r] + later));
      ReadFrom(c.crc, st'.files, st'.pos).0.Corrupt? && exists log' :: Refines(c, AfterRead(c, st'), log', q)
  {
    hide Refines, Choked, RecordBytes, Appended, Next, Enabled, Oversized, StartedLog;
    OversizedAppended(c, st, log, q, r);
    var log1, st1 := StartedLog(c.crc, log, c.segmentSize, r), Next(c, st, Append(r));
    assert ([r] + later)[1..] == later;
    assert Appends([r] + later) == [Append(r)] + Appends(later);
    ChokedAppends(c, st1, log1, r, later);
    ChokedStep(c, st, After(c, st1, Appends(later)), log, log1, q, r);
  }

  lemma OversizedAppended(c: Config, st: State, log: Log, q: Queue, r: Record)
    requires Refines(c, st, log, q) && !st.torn && Oversized(r)
    ensures Enabled(c, st, Append(r)) && log.segs != []
    ensures var log1, st1 := StartedLog(c.crc, log, c.segmentSize, r), Next(c, st, Append(r));
      && log1.segs != [] && Extends(log, log1) && log1.Records() == log.Records()
      && log1.Active() == st1.active && Choked(c, log1, r, st1.files)
      && st1 == st.(files := st1.files, active := st1.active)
  {
    hide Represents, Stands, InOrder, Exports, Choked, RecordBytes, Appended, StartedLog, AllReadable;
    ChokedFirst(c, log, st.files, r);
  }

  /** The consumer, having acknowledged all intact records, repairs. */
  lemma ChokedStep(c: Config, st: State, st': State, log: Log, log1: Log, q: Queue, r: Record)
    requires Refines(c, st, log, q) && !st.torn && st.pending.None? && q.acked == |q.records|
    requires st.cp.segment in st.files && st' == st.(files := st'.files, active := st'.active)
    requires log1.segs != [] && Extends(log, log1) && log1.Records() == log.Records()
    requires Choked(c, log1, r, st'.files) && log1.Active() <= st'.active
    ensures ReadFrom(c.crc, st'.files, st'.pos).0.Corrupt? && exists log' :: Refines(c, AfterRead(c, st'), log', q)
  {
    hide Denotes, Represents, InOrder, Exports, ReadFrom, Choked, Truncated, AfterRead;
    InOrderBounds(q);
    RefinesContiguous(c, st, log, q);
    var k := q.acked - q.base;
    ExtendingKeeps(c.crc, log, log1, st.saved, q.saved - q.base);
    ExtendingKeeps(c.crc, log, log1, st.cp, k);
    ExtendingKeeps(c.crc, log, log1, st.pos, k);
    ChokedRepaired(c, st', log1, r, k);
    var log' :| RestoredLog(c, st', log1, log');
    RepairedState(c, st');
    assert Refines(c, AfterRead(c, st'), log', q);
  }

  lemma RepairedState(c: Config, st: State)
    requires ReadFrom(c.crc, st.files, st.pos).0.Corrupt? && st.cp.segment in st.files && st.cp.segment <= st.active
    ensures var st' := AfterRead(c, st);
      st' == st.(files := st'.files, torn := false, pos := st.cp, active := st.cp.segment)
  {
    hide ReadFrom, Truncated;
  }

  /** The log that a repair leaves: the same records, with every position up to the checkpoint. */
  ghost predicate RestoredLog(c: Config, st: State, log: Log, log': Log) {
    var files := AfterRead(c, st).files;
    && Represents(c.crc, log', files) && log'.segs != [] && log'.Records() == log.Records()
    && log'.first == log.first && log'.Active() == st.cp.segment
    && forall p, k :: Denotes(c.crc, log, p, k) && NotAfter(p, st.cp) ==> Denotes(c.crc, log', p, k)
  }

  lemma ChokedRepaired(c: Config, st: State, log: Log, r: Record, k: nat)
    requires Choked(c, log, r, st.files) && log.segs != [] && AllReadable(log.Records()) && k == |log.Records()|
    requires Denotes(c.crc, log, st.cp, k) && Denotes(c.crc, log, st.pos, k)
    ensures st.cp.segment in st.files && ReadFrom(c.crc, st.files, st.pos).0.Corrupt?
    ensures exists log': Log :: RestoredLog(c, st, log, log')
  {
    hide Denotes, DamagedAt, RecordBytes, ReadFrom, Represents, Truncated;
    var rest: Bytes :| DamagedAt(c.crc, log, RecordBytes(c.crc, r) + rest, st.files);
    var junk := RecordBytes(c.crc, r) + rest;
    var i, j := Place(c.crc, log, st.pos, k);
    DamagedReads(c.crc, log, junk, st.files, i, j);
    RepairRestores(c.crc, log, junk, st.files, st.cp);
    var log': Log :| Represents(c.crc, log', Truncated(st.files, st.cp)) && log'.Records() == log.Records()
      && log'.first == log.first && log'.Active() == st.cp.segment && Denotes(c.crc, log', st.cp, |log.Records()|)
      && (forall p, k :: Denotes(c.crc, log, p, k) && NotAfter(p, st.cp) ==> Denotes(c.crc, log', p, k));
    RepresentsValid(c.crc, log', Truncated(st.files, st.cp));
    assert RestoredLog(c, st, log, log');
  }

  // ----- segment sizes -----

  /** The beginning of one record within the limit. */
  ghost predicate OneRecord(crc: Checksum, b: Bytes) {
    exists r: Record :: |r.payload| <= MAX_RECORD && b <= RecordBytes(crc, r)
  }

  /** Nothing follows a record that is alone: its length field leaves no room for more. */
  lemma NothingBehind(crc: Checksum, r: Record, rest: Bytes)
    requires |r.payload| <= MAX_RECORD
    ensures OneRecord(crc, RecordBytes(crc, r) + rest) <==> rest == []
  {
    hide RecordBytes, BigEndian, FromBigEndian;
    var b := RecordBytes(crc, r) + rest;
    assert rest == [] ==> b == RecordBytes(crc, r);
    if OneRecord(crc, b) {
      var r': Record :| |r'.payload| <= MAX_RECORD && b <= RecordBytes(crc, r');
      HeaderParts(crc, r, rest);
      HeaderParts(crc, r', []);
      assert RecordBytes(crc, r') + [] == RecordBytes(crc, r');
      assert RecordBytes(crc, r')[1..5] == b[1..5];
      Pow2Values();
      BigEndianRoundTrip(|r.payload|, 4);
      BigEndianRoundTrip(|r'.payload|, 4);
    }
  }

  /** Every segment file is within the size limit or holds no more than one record. */
  ghost predicate SizesBounded(c: Config, st: State) {
    && (forall k :: k in st.files ==> k <= st.active)
    && forall k :: k in st.files ==> |st.files[k]| <= c.segmentSize || OneRecord(c.crc, st.files[k])
  }

  lemma StepBounds(c: Config, st: State, log: Log, q: Queue, s: Step)
    requires SizesBounded(c, st) && Refines(c, st, log, q) && Enabled(c, st, s)
    ensures Sane(c, st, s) ==> SizesBounded(c, Next(c, st, s))
  {
    hide RecordBytes, Keep, ReadFrom, OneRecord, Refines;
    match s
    case Append(r) =>
      if Sane(c, st, s) {
        PartOfRecord(c.crc, r, RecordBytes(c.crc, r));
      }
    case Crash(r, cut) =>
      if Sane(c, st, s) {
        PartOfRecord(c.crc, r, RecordBytes(c.crc, r)[..cut]);
      }
    case Read =>
      if ReadFrom(c.crc, st.files, st.pos).0.Corrupt? && st.cp.segment in st.files {
        CutsBack(c, st, log, q);
        CutRecord(c.crc, st.files[st.cp.segment], Cut(st.files[st.cp.segment], st.cp.offset));
      }
    case _ =>
  }

  /** A repair never makes a segment longer. */
  lemma CutsBack(c: Config, st: State, log: Log, q: Queue)
    requires Refines(c, st, log, q) && st.pending.None? && st.cp.segment in st.files
    requires ReadFrom(c.crc, st.files, st.pos).0.Corrupt?
    ensures st.cp.offset <= |st.files[st.cp.segment]|
  {
    hide RecordBytes, SegmentBytes, Joined, InOrder, Exports, ReadFrom, Denotes, Scan;
    InOrderBounds(q);
    StoredReads(c.crc, log, st.files, st.torn, st.pos, q.acked - q.base);
    var r: Record, cut: nat :| TornTail(c.crc, log, r, cut, st.files);
    NotStale(c.crc, log, r, cut, st.files, st.cp, q.acked - q.base);
    TornDamaged(c.crc, log, r, cut, st.files);
    var i, j := Place(c.crc, log, st.cp, q.acked - q.base);
    SegmentPrefix(c.crc, log.segs[i], j);
  }

  lemma PartOfRecord(crc: Checksum, r: Record, b: Bytes)
    requires |r.payload| <= MAX_RECORD && b <= RecordBytes(crc, r)
    ensures OneRecord(crc, b) && [] + b == b
  {
  }

  lemma CutRecord(crc: Checksum, b: Bytes, a: Bytes)
    requires a <= b
    ensures OneRecord(crc, b) ==> OneRecord(crc, a)
  {
    if OneRecord(crc, b) {
      var r: Record :| |r.payload| <= MAX_RECORD && b <= RecordBytes(crc, r);
      assert a <= RecordBytes(crc, r);
    }
  }

  lemma {:induction false} RunBounds(c: Config, st: State, q: Queue, steps: seq<Step>)
    requires Means(c, st, q) && SizesBounded(c, st) && Run(c, st, steps) && AllSane(c, st, steps)
    ensures SizesBounded(c, After(c, st, steps))
    decreases |steps|
  {
    hide Refines, SizesBounded, Enabled, Sane, Next, Moves;
    if steps != [] {
      var s := steps[0];
      var log :| Refines(c, st, log, q);
      StepRefines(c, st, log, q, s);
      StepBounds(c, st, log, q, s);
      var log1, q1 :| Refines(c, Next(c, st, s), log1, q1) && Moves(q, s, q1);
      RunBounds(c, Next(c, st, s), q1, steps[1..]);
    }
  }

  /** Over all runs, crashes and repairs included: no segment file exceeds the segment size
      unless it holds a single record, whole or cut short. */
  lemma SegmentsBounded(c: Config, steps: seq<Step>)
    requires Run(c, START, steps) && AllSane(c, START, steps)
    ensures SizesBounded(c, After(c, START, steps))
  {
    hide Means, AllSane, Run, After;
    StartMeans(c);
    PartOfRecord(c.crc, Record(0, []), []);
    RunBounds(c, START, EMPTY, steps);
  }
}
