/** The consumer of the log (`internal/pipeline/wal.go`) as a state machine over the bytes on
    disk, refining a plain queue of records over all runs: appends with rotation, reads,
    failed exports, acknowledgements, restarts, crashes in the middle of an append, repair
    and retention. */
module WalDelivery {
  import opened Words
  import opened WalRecord
  import opened WalLog
  import opened Wal
  import opened WalProperties

  // ----- the machine -----

  /** A record that has been read but not yet acknowledged. */
  datatype Pending = Pending(record: Record, next: Checkpoint)

  /** The disk (files, stored checkpoint), the consumer's memory, and the history of successful
      exports. `torn` remembers that a crash cut the last record short. */
  datatype State = State(
    files: Files, first: nat, active: nat, torn: bool, saved: Checkpoint,
    cp: Checkpoint, pos: Checkpoint, pending: Option<Pending>, exported: seq<Record>)

  datatype Config = Config(crc: Checksum, segmentSize: int, maxSize: int)

  datatype Step =
    | Append(record: Record)
    | Crash(record: Record, cut: nat)
    | Restart
    | Read
    | FailExport
    | Ack(saves: bool)
    | Retain(saves: bool)

  const ZERO := Checkpoint(0, 0)

  const START := State(map[0 := []], 0, 0, false, ZERO, ZERO, ZERO, None, [])

  predicate Enabled(c: Config, st: State, s: Step) {
    match s
    case Crash(r, cut) => cut < HEADER_SIZE + |r.payload|
    case Read => st.pending.None?
    case FailExport => st.pending.Some?
    case Ack(_) => st.pending.Some?
    case Retain(_) => st.pending.None?
    case _ => true
  }

  /** A new process starts at the stored checkpoint. */
  function Restarted(st: State): State {
    st.(cp := st.saved, pos := st.saved, pending := None)
  }

  /** Reading one record, or repairing the log at the checkpoint when damage is found. */
  function AfterRead(c: Config, st: State): State {
    var (r, pos) := ReadFrom(c.crc, st.files, st.pos);
    match r
    case Got(record, next) => st.(pos := pos, pending := Some(Pending(record, next)))
    case Eof => st.(pos := pos)
    case Corrupt(_) =>
      if st.cp.segment in st.files then
        st.(files := Truncated(st.files, st.cp), torn := false, pos := st.cp,
            active := if st.active >= st.cp.segment then st.cp.segment else st.active)
      else st.(files := WithoutLater(st.files, st.cp.segment), pos := pos)
  }

  /** The first segment that retention keeps. */
  function FirstKept(c: Config, st: State): nat {
    if st.first <= st.active then Keep(st.files, st.first, st.active, c.maxSize) else st.first
  }

  function AfterRetain(c: Config, st: State, saves: bool): State {
    var f := FirstKept(c, st);
    var cp := Moved(st.cp, st.first, f);
    var kept := st.(files := Retained(st.files, f), first := f);
    if cp == st.cp then kept else kept.(cp := cp, pos := cp, saved := if saves then cp else st.saved)
  }

  function Next(c: Config, st: State, s: Step): State
    requires Enabled(c, st, s)
  {
    match s
    case Append(r) =>
      var (files, active) := Appended(st.files, st.active, c.segmentSize, RecordBytes(c.crc, r));
      st.(files := files, active := active)
    case Crash(r, cut) =>
      var (files, active) := Written(st.files, st.active, c.segmentSize, RecordBytes(c.crc, r), cut);
      Restarted(st.(files := files, active := active, torn := cut > 0))
    case Restart => Restarted(st)
    case Read => AfterRead(c, st)
    case FailExport => st
    case Ack(saves) =>
      var p := st.pending.value;
      st.(cp := p.next, pending := None, saved := if saves then p.next else st.saved,
          exported := st.exported + [p.record])
    case Retain(saves) => AfterRetain(c, st, saves)
  }

  /** `Append` interrupted after writing `cut` bytes of the record. */
  function Written(files: Files, active: nat, size: int, rec: Bytes, cut: nat): (Files, nat)
    requires cut <= |rec|
  {
    var a := if |Content(files, active)| > 0 && |Content(files, active)| + |rec| > size then active + 1 else active;
    (files[a := Content(files, a) + rec[..cut]], a)
  }

  /** What the run relies on: records within the size limit, no append behind a torn record
      that has not been found yet, a checkpoint whose segment still exists when the log is to be
      cut there, and a stored checkpoint that retention leaves within one segment of the log or
      replaces. Runs in which all checkpoint saves succeed meet the last two (`SavedRunSane`). */
  predicate Sane(c: Config, st: State, s: Step)
    requires Enabled(c, st, s)
  {
    match s
    case Append(r) => |r.payload| <= MAX_RECORD && !st.torn
    case Crash(r, _) => |r.payload| <= MAX_RECORD && !st.torn
    case Read => ReadFrom(c.crc, st.files, st.pos).0.Corrupt? ==> st.cp.segment in st.files
    case Retain(saves) =>
      var f := FirstKept(c, st);
      st.saved.segment + 1 >= f || (saves && st.first <= st.cp.segment < f)
    case _ => true
  }

  // ----- the queue -----

  /** All records ever appended. Those before `base` were deleted by retention, those before
      `acked` are done with, and a restart resumes at `saved`. `order` lists the records
      exported, in the order of the exports. */
  datatype Queue = Queue(records: seq<Record>, base: nat, saved: nat, acked: nat, order: seq<nat>)

  const EMPTY := Queue([], 0, 0, 0, [])

  function Max(a: nat, b: nat): nat {
    if a > b then a else b
  }

  /** What a step means for the queue. */
  ghost predicate Moves(q: Queue, s: Step, q': Queue) {
    match s
    case Append(r) => q' == q.(records := q.records + [r])
    case Crash(_, _) => q' == q.(acked := q.saved)
    case Restart => q' == q.(acked := q.saved)
    case Read => q' == q
    case FailExport => q' == q
    case Ack(saves) =>
      && q.acked < |q.records|
      && q' == q.(acked := q.acked + 1, order := q.order + [q.acked],
                  saved := if saves then q.acked + 1 else q.saved)
    case Retain(saves) =>
      && q.base <= q'.base <= |q.records|
      && q' == q.(base := q'.base, acked := Max(q.acked, q'.base), saved := Max(q.saved, q'.base))
  }

  /** The queue's promise: each export is the successor of the previous one, or goes back, or
      skips nothing but deleted records; the checkpoints never pass a record that was neither
      exported nor deleted. */
  ghost predicate InOrder(q: Queue) {
    && q.base <= q.saved <= q.acked <= |q.records|
    && (forall n :: 0 <= n < |q.order| ==> q.order[n] < |q.records|)
    && (forall n :: 0 < n < |q.order| ==> q.order[n] <= q.order[n - 1] + 1 || q.order[n] <= q.base)
    && (q.order != [] ==> q.order[0] <= q.base)
    && (forall i :: q.base <= i < q.acked ==> i in q.order)
    && q.acked <= (if q.order == [] then q.base else Max(q.base, q.order[|q.order| - 1] + 1))
  }

  lemma AckKeepsOrder(q: Queue, q': Queue)
    requires InOrder(q) && q.acked < |q.records|
    requires q' == q.(acked := q.acked + 1, order := q.order + [q.acked], saved := q'.saved)
    requires q'.saved == q.saved || q'.saved == q.acked + 1
    ensures InOrder(q')
  {
    var m := |q.order|;
    assert q'.order[m] == q.acked && forall n :: 0 <= n < m ==> q'.order[n] == q.order[n];
    forall i | q'.base <= i < q'.acked
      ensures i in q'.order
    {
      assert i == q.acked || i in q.order;
    }
  }

  lemma ChangeKeepsOrder(q: Queue, q': Queue)
    requires InOrder(q) && q'.order == q.order && |q.records| <= |q'.records|
    requires q.base <= q'.base <= q'.saved <= q'.acked <= |q'.records| && q'.acked <= Max(q.acked, q'.base)
    ensures InOrder(q')
  {
  }

  lemma MovesKeepOrder(q: Queue, s: Step, q': Queue)
    requires InOrder(q) && Moves(q, s, q')
    ensures InOrder(q')
  {
    hide InOrder;
    InOrderBounds(q);
    match s
    case Append(r) => ChangeKeepsOrder(q, q');
    case Crash(_, _) => ChangeKeepsOrder(q, q');
    case Restart => ChangeKeepsOrder(q, q');
    case Read =>
    case FailExport =>
    case Ack(_) => AckKeepsOrder(q, q');
    case Retain(_) => ChangeKeepsOrder(q, q');
  }

  // ----- refinement -----

  /** The files hold the log, whose last record may be followed by a torn one. */
  ghost predicate Stored(crc: Checksum, log: Log, files: Files, torn: bool) {
    if torn then exists r: Record, cut: nat :: TornTail(crc, log, r, cut, files)
    else Represents(crc, log, files)
  }

  /** The records exported are those the queue says, in that order. */
  ghost predicate Exports(exported: seq<Record>, q: Queue) {
    && |exported| == |q.order|
    && forall n :: 0 <= n < |exported| ==> q.order[n] < |q.records| && exported[n] == q.records[q.order[n]]
  }

  /** A position in the log, or one in the segment deleted last, from where reading goes on at
      the start of the log. */
  ghost predicate Stands(crc: Checksum, log: Log, pos: Checkpoint, k: nat) {
    Denotes(crc, log, pos, k) || (k == 0 && pos.segment + 1 == log.first)
  }

  /** What the bytes, positions and history of a state mean: the log holds the records not
      deleted, each position denotes its place in the queue, and the record read but not yet
      acknowledged is the next one. */
  ghost predicate Refines(c: Config, st: State, log: Log, q: Queue) {
    && log.segs != [] && log.first == st.first && log.Active() == st.active
    && Stored(c.crc, log, st.files, st.torn) && AllReadable(log.Records())
    && InOrder(q) && log.Records() == q.records[q.base..]
    && Stands(c.crc, log, st.saved, q.saved - q.base)
    && Stands(c.crc, log, st.cp, q.acked - q.base)
    && Stands(c.crc, log, st.pos, q.acked - q.base + if st.pending.Some? then 1 else 0)
    && NotAfter(st.saved, st.cp) && NotAfter(st.cp, st.pos)
    && (st.pending.Some? ==>
          && q.acked < |q.records| && st.pending.value.record == q.records[q.acked]
          && st.pending.value.next == st.pos)
    && Exports(st.exported, q)
  }

  lemma StartRefines(c: Config)
    ensures Refines(c, START, Log(0, [[]]), EMPTY)
  {
    hide SegmentBytes, Joined;
    var log := Log(0, [[]]);
    EmptySegment(c.crc);
    assert log.segs[..0] == [] && log.segs[0][..0] == [];
    JoinedLast([], []);
    JoinedEmpty();
    assert [] + [[]] == log.segs;
    assert InLog(log, 0, 0) && PosAt(c.crc, log, 0, 0) == ZERO && IndexAt(log, 0, 0) == 0;
    assert Denotes(c.crc, log, ZERO, 0);
  }

  lemma RestartRefines(c: Config, st: State, log: Log, q: Queue)
    requires Refines(c, st, log, q)
    ensures Refines(c, Restarted(st), log, q.(acked := q.saved))
  {
    hide Stored, Stands;
    RestartKeepsOrder(q);
  }

  lemma RestartKeepsOrder(q: Queue)
    requires InOrder(q)
    ensures InOrder(q.(acked := q.saved))
  {
    MovesKeepOrder(q, Restart, q.(acked := q.saved));
  }

  // ----- appending -----

  lemma MoreRecords(q: Queue, r: Record, exported: seq<Record>)
    requires InOrder(q) && Exports(exported, q)
    ensures var q' := q.(records := q.records + [r]);
      InOrder(q') && Exports(exported, q') && q'.records[q.base..] == q.records[q.base..] + [r]
  {
    MovesKeepOrder(q, Append(r), q.(records := q.records + [r]));
  }

  lemma ExtendingKeeps(crc: Checksum, log: Log, log': Log, pos: Checkpoint, k: nat)
    requires Extends(log, log') && Stands(crc, log, pos, k)
    ensures Stands(crc, log', pos, k)
  {
    hide Denotes;
    if Denotes(crc, log, pos, k) {
      ExtendingKeepsPositions(crc, log, log', pos, k);
    }
  }

  lemma AppendStep(c: Config, st: State, log: Log, q: Queue, r: Record)
    requires Refines(c, st, log, q) && !st.torn && |r.payload| <= MAX_RECORD
    ensures log.segs != []
    ensures var log', q' := AppendedLog(c.crc, log, c.segmentSize, r), q.(records := q.records + [r]);
      Refines(c, Next(c, st, Append(r)), log', q')
  {
    hide Stands, Represents, Appended, AppendedLog, InOrder, Exports;
    InOrderBounds(q);
    AppendRefines(c.crc, log, st.files, c.segmentSize, r);
    AppendedExtends(c.crc, log, c.segmentSize, r);
    var log' := AppendedLog(c.crc, log, c.segmentSize, r);
    ExtendingKeeps(c.crc, log, log', st.saved, q.saved - q.base);
    ExtendingKeeps(c.crc, log, log', st.cp, q.acked - q.base);
    ExtendingKeeps(c.crc, log, log', st.pos, q.acked - q.base + if st.pending.Some? then 1 else 0);
    MoreRecords(q, r, st.exported);
  }

  lemma AppendedExtends(crc: Checksum, log: Log, size: int, r: Record)
    requires log.segs != []
    ensures AppendedLog(crc, log, size, r).segs != [] && Extends(log, AppendedLog(crc, log, size, r))
  {
    hide SegmentBytes;
  }

  // ----- crashing in the middle of an append -----

  /** The log into which a record of that size would be appended. */
  function StartedLog(crc: Checksum, log: Log, size: int, r: Record): Log
    requires log.segs != []
  {
    var n := |SegmentBytes(crc, LastSegment(log))|;
    if n > 0 && n + HEADER_SIZE + |r.payload| > size then log.(segs := log.segs + [[]]) else log
  }

  lemma StartedRefines(crc: Checksum, log: Log, files: Files, size: int, r: Record, cut: nat)
    requires Represents(crc, log, files) && cut < HEADER_SIZE + |r.payload| && |r.payload| <= MAX_RECORD
    ensures var log', rec := StartedLog(crc, log, size, r), RecordBytes(crc, r);
      var (files', active') := Written(files, log.Active(), size, rec, cut);
      && log'.segs != [] && Extends(log, log') && active' == log'.Active() && log'.Records() == log.Records()
      && Stored(crc, log', files', cut > 0)
  {
    hide RecordBytes, SegmentBytes, Joined;
    EmptySegment(crc);
    var log', rec := StartedLog(crc, log, size, r), RecordBytes(crc, r);
    var (files', active') := Written(files, log.Active(), size, rec, cut);
    JoinedLast(log.segs, []);
    assert Joined(log.segs) + [] == Joined(log.segs);
    var whole := files[active' := SegmentBytes(crc, LastSegment(log'))];
    assert Represents(crc, log', whole);
    assert files'[active' := SegmentBytes(crc, LastSegment(log'))] == whole;
    if cut > 0 {
      assert TornTail(crc, log', r, cut, files');
    } else {
      assert rec[..0] == [] && forall b: Bytes :: b + [] == b;
      assert files'[active'] == whole[active'];
    }
  }

  lemma CrashStep(c: Config, st: State, log: Log, q: Queue, r: Record, cut: nat)
    requires Refines(c, st, log, q) && !st.torn && |r.payload| <= MAX_RECORD && cut < HEADER_SIZE + |r.payload|
    ensures log.segs != []
    ensures Refines(c, Next(c, st, Crash(r, cut)), StartedLog(c.crc, log, c.segmentSize, r), q.(acked := q.saved))
  {
    hide Stands, Represents, Written, StartedLog, InOrder, Exports, RecordBytes;
    InOrderBounds(q);
    var log' := StartedLog(c.crc, log, c.segmentSize, r);
    assert |RecordBytes(c.crc, r)| == HEADER_SIZE + |r.payload|;
    StartedRefines(c.crc, log, st.files, c.segmentSize, r, cut);
    ExtendingKeeps(c.crc, log, log', st.saved, q.saved - q.base);
    ExtendingKeeps(c.crc, log, log', st.cp, q.acked - q.base);
    ExtendingKeeps(c.crc, log, log', st.pos, q.acked - q.base + if st.pending.Some? then 1 else 0);
    var (files, active) := Written(st.files, st.active, c.segmentSize, RecordBytes(c.crc, r), cut);
    RestartRefines(c, st.(files := files, active := active, torn := cut > 0), log', q);
  }

  // ----- reading -----

  lemma TornRefines(crc: Checksum, log: Log, files: Files, pos: Checkpoint, k: nat)
    requires Stored(crc, log, files, true) && AllReadable(log.Records()) && Denotes(crc, log, pos, k)
    ensures var (r, pos') := ReadFrom(crc, files, pos);
      if k < |log.Records()| then
        && r.Got? && r.record == log.Records()[k] && pos' == r.next && Denotes(crc, log, r.next, k + 1)
      else r.Corrupt? && k == |log.Records()|
  {
    hide ReadFrom, TornTail, DamagedAt;
    var r: Record, cut: nat :| TornTail(crc, log, r, cut, files);
    var i, j := Place(crc, log, pos, k);
    RecordAt(log, i, j);
    TornDamaged(crc, log, r, cut, files);
    var junk: Bytes :| DamagedAt(crc, log, junk, files);
    DamagedReads(crc, log, junk, files, i, j);
  }

  /** From the segment deleted last, the reader hops to the start of the log. */
  lemma StaleHop(crc: Checksum, log: Log, files: Files, torn: bool, pos: Checkpoint)
    requires Stored(crc, log, files, torn) && log.segs != [] && pos.segment + 1 == log.first
    ensures ReadFrom(crc, files, pos) == ReadFrom(crc, files, Checkpoint(log.first, 0))
    ensures Denotes(crc, log, Checkpoint(log.first, 0), 0)
  {
    hide RecordBytes, SegmentBytes, Scan, Joined;
    if torn {
      var r: Record, cut: nat :| TornTail(crc, log, r, cut, files);
      var whole := files[log.Active() := SegmentBytes(crc, LastSegment(log))];
      assert forall k :: k in files <==> k in whole;
    }
    NoRecords(crc, log, 0);
    JoinedEmpty();
    assert log.segs[..0] == [];
    assert InLog(log, 0, 0) && IndexAt(log, 0, 0) == 0;
    assert pos.segment !in files && pos.segment + 1 in files;
  }

  /** Reading a log that may have a torn record behind it. */
  lemma StoredReads(crc: Checksum, log: Log, files: Files, torn: bool, pos: Checkpoint, k: nat)
    requires Stored(crc, log, files, torn) && log.segs != [] && AllReadable(log.Records()) && Stands(crc, log, pos, k)
    ensures k <= |log.Records()|
    ensures var (r, pos') := ReadFrom(crc, files, pos);
      if k < |log.Records()| then
        && r.Got? && r.record == log.Records()[k] && pos' == r.next && Denotes(crc, log, r.next, k + 1)
      else if torn then r.Corrupt?
      else r.Eof? && Denotes(crc, log, pos', k)
  {
    hide Denotes, TornTail, Represents, ReadFrom;
    var at := pos;
    if !Denotes(crc, log, pos, k) {
      StaleHop(crc, log, files, torn, pos);
      at := Checkpoint(log.first, 0);
    }
    PlaceInRange(crc, log, at, k);
    if torn {
      TornRefines(crc, log, files, at, k);
    } else {
      ReaderRefines(crc, log, files, at, k);
    }
  }

  /** Repair: the log is cut at the checkpoint, behind the last intact record. */
  lemma RepairStep(c: Config, st: State, log: Log, q: Queue)
    requires Refines(c, st, log, q) && st.torn && q.acked == |q.records| && st.pending.None?
    requires ReadFrom(c.crc, st.files, st.pos).0.Corrupt? && st.cp.segment in st.files
    ensures exists log' :: Refines(c, AfterRead(c, st), log', q)
  {
    hide Denotes, Represents, TornTail, DamagedAt, RecordBytes, Truncated, InOrder, Exports, ReadFrom;
    InOrderBounds(q);
    var r: Record, cut: nat :| TornTail(c.crc, log, r, cut, st.files);
    NotStale(c.crc, log, r, cut, st.files, st.cp, q.acked - q.base);
    TornDamaged(c.crc, log, r, cut, st.files);
    var junk: Bytes :| DamagedAt(c.crc, log, junk, st.files);
    RepairRestores(c.crc, log, junk, st.files, st.cp);
    var log': Log :| Represents(c.crc, log', Truncated(st.files, st.cp)) && log'.Records() == log.Records()
      && log'.first == log.first && log'.Active() == st.cp.segment && Denotes(c.crc, log', st.cp, |log.Records()|)
      && (forall p, k :: Denotes(c.crc, log, p, k) && NotAfter(p, st.cp) ==> Denotes(c.crc, log', p, k));
    RepresentsValid(c.crc, log', Truncated(st.files, st.cp));
    PlaceInRange(c.crc, log, st.cp, q.acked - q.base);
    assert Refines(c, AfterRead(c, st), log', q);
  }

  lemma NotStale(crc: Checksum, log: Log, r: Record, cut: nat, files: Files, pos: Checkpoint, k: nat)
    requires TornTail(crc, log, r, cut, files) && Stands(crc, log, pos, k) && pos.segment in files
    ensures Denotes(crc, log, pos, k)
  {
    hide RecordBytes, SegmentBytes, Denotes;
    var whole := files[log.Active() := SegmentBytes(crc, LastSegment(log))];
    assert pos.segment in whole;
  }

  lemma InOrderBounds(q: Queue)
    requires InOrder(q)
    ensures q.base <= q.saved <= q.acked <= |q.records|
  {
  }

  lemma RepresentsValid(crc: Checksum, log: Log, files: Files)
    requires Represents(crc, log, files)
    ensures log.segs != []
  {
  }

  lemma PlaceInRange(crc: Checksum, log: Log, pos: Checkpoint, k: nat)
    requires Denotes(crc, log, pos, k)
    ensures log.first <= pos.segment <= log.Active() && k <= |log.Records()|
  {
    var i, j := Place(crc, log, pos, k);
    RecordAt(log, i, j);
  }

  lemma ReadStep(c: Config, st: State, log: Log, q: Queue)
    requires Refines(c, st, log, q) && st.pending.None?
    ensures Sane(c, st, Read) ==> exists log' :: Refines(c, AfterRead(c, st), log', q)
    ensures AfterRead(c, st).pending.Some? <==> q.acked < |q.records|
    ensures q.acked < |q.records| ==> Refines(c, AfterRead(c, st), log, q)
  {
    hide Denotes, Represents, TornTail, InOrder, Exports, ReadFrom, Truncated;
    InOrderBounds(q);
    StoredReads(c.crc, log, st.files, st.torn, st.pos, q.acked - q.base);
    ReadAdvances(c.crc, st.files, st.pos);
    var (r, pos) := ReadFrom(c.crc, st.files, st.pos);
    if !r.Corrupt? {
      assert Refines(c, AfterRead(c, st), log, q);
    } else if Sane(c, st, Read) {
      RepairStep(c, st, log, q);
    }
  }

  // ----- acknowledging -----

  lemma AckStep(c: Config, st: State, log: Log, q: Queue, saves: bool)
    requires st.pending.Some? && Refines(c, st, log, q)
    ensures var q' := q.(acked := q.acked + 1, order := q.order + [q.acked],
        saved := if saves then q.acked + 1 else q.saved);
      Refines(c, Next(c, st, Ack(saves)), log, q') && Moves(q, Ack(saves), q')
  {
    hide Stands, Stored, InOrder;
    InOrderBounds(q);
    AckKeepsOrder(q, q.(acked := q.acked + 1, order := q.order + [q.acked],
        saved := if saves then q.acked + 1 else q.saved));
  }

  // ----- retention -----

  /** The files without the torn record. */
  function Whole(crc: Checksum, log: Log, files: Files, torn: bool): Files
    requires log.segs != []
  {
    if torn then files[log.Active() := SegmentBytes(crc, LastSegment(log))] else files
  }

  lemma WholeRepresents(crc: Checksum, log: Log, files: Files, torn: bool)
    requires Stored(crc, log, files, torn) && log.segs != []
    ensures Represents(crc, log, Whole(crc, log, files, torn))
  {
    hide RecordBytes, SegmentBytes, Represents;
  }

  /** Retention on a log that may have a torn record behind it. */
  lemma RetainStored(crc: Checksum, log: Log, files: Files, torn: bool, f: nat)
    requires Stored(crc, log, files, torn) && log.segs != [] && log.first <= f <= log.Active()
    ensures Stored(crc, DroppedLog(log, f), Retained(files, f), torn)
    ensures var dropped := |Joined(log.segs[..f - log.first])|;
      dropped <= |log.Records()| && DroppedLog(log, f).Records() == log.Records()[dropped..]
    ensures DroppedLog(log, f).segs != [] && DroppedLog(log, f).Active() == log.Active()
  {
    hide RecordBytes, SegmentBytes, Joined, Represents, Retained;
    WholeRepresents(crc, log, files, torn);
    NoRecords(crc, log, 0);
    assert Denotes(crc, log, PosAt(crc, log, 0, 0), IndexAt(log, 0, 0)) by {
      assert InLog(log, 0, 0);
    }
    RetentionRefines(crc, log, Whole(crc, log, files, torn), PosAt(crc, log, 0, 0), IndexAt(log, 0, 0), f);
    if torn {
      var r: Record, cut: nat :| TornTail(crc, log, r, cut, files);
      TornRetained(crc, log, r, cut, files, f);
    }
  }

  lemma TornRetained(crc: Checksum, log: Log, r: Record, cut: nat, files: Files, f: nat)
    requires TornTail(crc, log, r, cut, files) && log.first <= f <= log.Active()
    requires Represents(crc, DroppedLog(log, f), Retained(Whole(crc, log, files, true), f))
    ensures TornTail(crc, DroppedLog(log, f), r, cut, Retained(files, f))
  {
    hide RecordBytes, SegmentBytes, Represents;
    var log' := DroppedLog(log, f);
    assert log'.Valid() && LastSegment(log') == LastSegment(log) && log'.Active() == log.Active();
    assert Retained(files, f)[log.Active() := SegmentBytes(crc, LastSegment(log))]
        == Retained(Whole(crc, log, files, true), f);
  }

  /** What retention does to a position that it leaves alone. */
  lemma RetainStands(crc: Checksum, log: Log, files: Files, torn: bool, pos: Checkpoint, k: nat, f: nat)
    requires Stored(crc, log, files, torn) && log.segs != [] && log.first <= f <= log.Active()
    requires Stands(crc, log, pos, k) && pos.segment + 1 >= f
    ensures var dropped := |Joined(log.segs[..f - log.first])|;
      Stands(crc, DroppedLog(log, f), pos, if k > dropped then k - dropped else 0)
  {
    hide RecordBytes, SegmentBytes, Joined, Denotes, Represents, Stored, Whole;
    WholeRepresents(crc, log, files, torn);
    if Denotes(crc, log, pos, k) {
      RetentionRefines(crc, log, Whole(crc, log, files, torn), pos, k, f);
    } else {
      assert f == log.first;
    }
  }

  /** What it does to a checkpoint in a deleted segment. */
  lemma RetainMoves(crc: Checksum, log: Log, files: Files, torn: bool, pos: Checkpoint, k: nat, f: nat)
    requires Stored(crc, log, files, torn) && log.segs != [] && log.first <= f <= log.Active()
    requires Denotes(crc, log, pos, k) && pos.segment < f
    ensures Denotes(crc, DroppedLog(log, f), Checkpoint(f, 0), 0) && k <= |Joined(log.segs[..f - log.first])|
  {
    hide RecordBytes, SegmentBytes, Joined, Denotes, Represents, Stored, Whole;
    WholeRepresents(crc, log, files, torn);
    PlaceInRange(crc, log, pos, k);
    RetentionRefines(crc, log, Whole(crc, log, files, torn), pos, k, f);
  }

  /** The queue after retention has deleted its next `dropped` records. */
  function RetainedQueue(q: Queue, dropped: nat): Queue {
    var base := q.base + dropped;
    q.(base := base, acked := Max(q.acked, base), saved := Max(q.saved, base))
  }

  lemma DroppedRecords(q: Queue, exported: seq<Record>, dropped: nat)
    requires InOrder(q) && Exports(exported, q) && dropped <= |q.records[q.base..]|
    requires AllReadable(q.records[q.base..])
    ensures q.records[q.base..][dropped..] == q.records[q.base + dropped..]
    ensures AllReadable(q.records[q.base + dropped..])
    ensures Exports(exported, RetainedQueue(q, dropped))
  {
  }

  lemma RetainStep(c: Config, st: State, log: Log, q: Queue, saves: bool)
    requires Refines(c, st, log, q) && st.pending.None? && Sane(c, st, Retain(saves))
    ensures exists log', q' :: Refines(c, AfterRetain(c, st, saves), log', q') && Moves(q, Retain(saves), q')
  {
    hide Stands, Stored, InOrder, Exports, Keep, Joined, Retained, AllReadable;
    InOrderBounds(q);
    var f := FirstKept(c, st);
    var log', dropped := DroppedLog(log, f), |Joined(log.segs[..f - log.first])|;
    RetainStored(c.crc, log, st.files, st.torn, f);
    DroppedRecords(q, st.exported, dropped);
    var st', q' := AfterRetain(c, st, saves), RetainedQueue(q, dropped);
    RetainPositions(c, st, log, q, saves, f);
    MovesKeepOrder(q, Retain(saves), q');
    assert Refines(c, st', log', q');
  }

  lemma RetainPositions(c: Config, st: State, log: Log, q: Queue, saves: bool, f: nat)
    requires log.segs != [] && log.first <= f <= log.Active() && f == FirstKept(c, st) && st.pending.None?
    requires Refines(c, st, log, q) && Sane(c, st, Retain(saves))
    ensures var dropped := |Joined(log.segs[..f - log.first])|;
      var st', log', q' := AfterRetain(c, st, saves), DroppedLog(log, f), RetainedQueue(q, dropped);
      && q'.base <= q'.saved <= q'.acked
      && Stands(c.crc, log', st'.saved, q'.saved - q'.base) && Stands(c.crc, log', st'.cp, q'.acked - q'.base)
      && Stands(c.crc, log', st'.pos, q'.acked - q'.base)
      && NotAfter(st'.saved, st'.cp) && NotAfter(st'.cp, st'.pos)
  {
    hide Denotes, Stored, InOrder, Exports, Keep, Joined, Retained, AllReadable, DroppedLog;
    InOrderBounds(q);
    if st.first <= st.cp.segment < f {
      RetainMoves(c.crc, log, st.files, st.torn, st.cp, q.acked - q.base, f);
      if !saves {
        RetainStands(c.crc, log, st.files, st.torn, st.saved, q.saved - q.base, f);
      }
    } else {
      RetainStands(c.crc, log, st.files, st.torn, st.saved, q.saved - q.base, f);
      RetainStands(c.crc, log, st.files, st.torn, st.cp, q.acked - q.base, f);
      RetainStands(c.crc, log, st.files, st.torn, st.pos, q.acked - q.base, f);
    }
  }

  // ----- runs -----

  /** Every step of the machine is a step of the queue. */
  lemma StepRefines(c: Config, st: State, log: Log, q: Queue, s: Step)
    requires Refines(c, st, log, q) && Enabled(c, st, s) && Sane(c, st, s)
    ensures exists log', q' :: Refines(c, Next(c, st, s), log', q') && Moves(q, s, q')
  {
    hide Refines, AfterRead, AfterRetain, Restarted, Moves;
    var st' := Next(c, st, s);
    match s
    case Append(r) =>
      AppendStep(c, st, log, q, r);
      OneStep(c, st', AppendedLog(c.crc, log, c.segmentSize, r), q, s, q.(records := q.records + [r]));
    case Crash(r, cut) =>
      CrashStep(c, st, log, q, r, cut);
      OneStep(c, st', StartedLog(c.crc, log, c.segmentSize, r), q, s, q.(acked := q.saved));
    case Restart =>
      RestartRefines(c, st, log, q);
      OneStep(c, st', log, q, s, q.(acked := q.saved));
    case Read =>
      ReadStep(c, st, log, q);
      var log' :| Refines(c, AfterRead(c, st), log', q);
      OneStep(c, st', log', q, s, q);
    case FailExport => OneStep(c, st', log, q, s, q);
    case Ack(saves) =>
      AckStep(c, st, log, q, saves);
      assert Refines(c, st', log, q.(acked := q.acked + 1, order := q.order + [q.acked],
        saved := if saves then q.acked + 1 else q.saved));
    case Retain(saves) =>
      RetainStep(c, st, log, q, saves);
      var log', q' :| Refines(c, AfterRetain(c, st, saves), log', q') && Moves(q, Retain(saves), q');
      assert Refines(c, st', log', q') && Moves(q, s, q');
  }

  lemma OneStep(c: Config, st': State, log': Log, q: Queue, s: Step, q': Queue)
    requires Refines(c, st', log', q') && !s.Ack? && !s.Retain?
    requires match s
      case Append(r) => q' == q.(records := q.records + [r])
      case Crash(_, _) => q' == q.(acked := q.saved)
      case Restart => q' == q.(acked := q.saved)
      case _ => q' == q
    ensures exists log, q' :: Refines(c, st', log, q') && Moves(q, s, q')
  {
    hide Refines;
    assert Moves(q, s, q');
  }

  /** A run: every step enabled where it is taken. */
  predicate Run(c: Config, st: State, steps: seq<Step>)
    decreases |steps|
  {
    steps == [] || (Enabled(c, st, steps[0]) && Run(c, Next(c, st, steps[0]), steps[1..]))
  }

  predicate AllSane(c: Config, st: State, steps: seq<Step>)
    requires Run(c, st, steps)
    decreases |steps|
  {
    steps == [] || (Sane(c, st, steps[0]) && AllSane(c, Next(c, st, steps[0]), steps[1..]))
  }

  function After(c: Config, st: State, steps: seq<Step>): State
    requires Run(c, st, steps)
    decreases |steps|
  {
    if steps == [] then st else After(c, Next(c, st, steps[0]), steps[1..])
  }

  /** The records appended by a run. An append cut short by a crash does not count. */
  function AppendedBy(steps: seq<Step>): seq<Record> {
    if steps == [] then []
    else (if steps[0].Append? then [steps[0].record] else []) + AppendedBy(steps[1..])
  }

  predicate NoRetention(steps: seq<Step>) {
    forall s :: s in steps ==> !s.Retain?
  }

  lemma MoveRecords(q: Queue, s: Step, q': Queue)
    requires Moves(q, s, q')
    ensures q'.records == q.records + if s.Append? then [s.record] else []
    ensures !s.Retain? ==> q'.base == q.base
  {
  }

  ghost predicate Means(c: Config, st: State, q: Queue) {
    exists log :: Refines(c, st, log, q)
  }

  /** A run of the machine and a run of the queue, step by step: every state means its queue. */
  ghost predicate Traced(c: Config, st: State, steps: seq<Step>, qs: seq<Queue>)
    requires Run(c, st, steps)
    decreases |steps|
  {
    && |qs| == |steps| + 1 && Means(c, st, qs[0])
    && (steps != [] ==> Moves(qs[0], steps[0], qs[1]) && Traced(c, Next(c, st, steps[0]), steps[1..], qs[1..]))
  }

  lemma {:induction false} RunRefines(c: Config, st: State, q: Queue, steps: seq<Step>)
    requires Means(c, st, q) && Run(c, st, steps) && AllSane(c, st, steps)
    ensures exists qs: seq<Queue> :: Traced(c, st, steps, qs) && qs[0] == q
    decreases |steps|
  {
    hide Refines, Enabled, Sane, Next, Moves;
    if steps == [] {
      assert Traced(c, st, steps, [q]);
    } else {
      var s := steps[0];
      var log :| Refines(c, st, log, q);
      StepRefines(c, st, log, q, s);
      var log1, q1 :| Refines(c, Next(c, st, s), log1, q1) && Moves(q, s, q1);
      RunRefines(c, Next(c, st, s), q1, steps[1..]);
      var rest :| Traced(c, Next(c, st, s), steps[1..], rest) && rest[0] == q1;
      assert ([q] + rest)[1..] == rest;
      assert Traced(c, st, steps, [q] + rest);
    }
  }

  /** The queues of a run, seen as a sequence. */
  ghost predicate Chain(steps: seq<Step>, qs: seq<Queue>) {
    |qs| == |steps| + 1 && forall i :: 0 <= i < |steps| ==> Moves(qs[i], steps[i], qs[i + 1])
  }

  lemma {:induction false} TracedChain(c: Config, st: State, steps: seq<Step>, qs: seq<Queue>)
    requires Run(c, st, steps) && Traced(c, st, steps, qs)
    ensures Chain(steps, qs) && Means(c, After(c, st, steps), qs[|steps|]) && InOrder(qs[0])
    ensures qs[|steps|].records == qs[0].records + AppendedBy(steps)
    decreases |steps|
  {
    hide Enabled, Next, Moves, InOrder, Means;
    MeansInOrder(c, st, qs[0]);
    if steps == [] {
      assert qs[0].records + [] == qs[0].records;
    } else {
      var st', rest := Next(c, st, steps[0]), qs[1..];
      TracedChain(c, st', steps[1..], rest);
      MoveRecords(qs[0], steps[0], qs[1]);
      ConcatAssoc(qs[0].records, if steps[0].Append? then [steps[0].record] else [], AppendedBy(steps[1..]));
      forall i | 0 <= i < |steps|
        ensures Moves(qs[i], steps[i], qs[i + 1])
      {
        assert i > 0 ==> rest[i - 1] == qs[i] && rest[i] == qs[i + 1] && steps[1..][i - 1] == steps[i];
      }
    }
  }

  lemma MeansInOrder(c: Config, st: State, q: Queue)
    requires Means(c, st, q)
    ensures InOrder(q)
  {
  }

  lemma StartMeans(c: Config)
    ensures Means(c, START, EMPTY)
  {
    hide Refines;
    StartRefines(c);
  }

  /** Delivery over all runs of the log and its consumer, from an empty directory: step by step
      the bytes mean a queue of exactly the records appended, and every step does to the queue
      what `Moves` says. What that means for the exports is said by `ExportsFollow`,
      `NeverResent` and `ExportedAre`, and for the checkpoints by `InOrder`. */
  lemma Delivery(c: Config, steps: seq<Step>)
    requires Run(c, START, steps) && AllSane(c, START, steps)
    ensures exists qs: seq<Queue> ::
      && Traced(c, START, steps, qs) && Chain(steps, qs) && qs[0] == EMPTY
      && qs[|steps|].records == AppendedBy(steps) && Means(c, After(c, START, steps), qs[|steps|])
  {
    hide Refines, Chain, Means, Moves;
    StartMeans(c);
    RunRefines(c, START, EMPTY, steps);
    var qs: seq<Queue> :| Traced(c, START, steps, qs) && qs[0] == EMPTY;
    TracedChain(c, START, steps, qs);
    assert [] + AppendedBy(steps) == AppendedBy(steps);
  }

  // ----- what a run exports -----

  predicate NoAck(steps: seq<Step>, i: int, j: int) {
    forall k :: 0 <= i <= k < j < |steps| ==> !steps[k].Ack?
  }

  predicate NoRestart(steps: seq<Step>, i: int, j: int) {
    forall k :: 0 <= i <= k < j < |steps| ==> !steps[k].Restart? && !steps[k].Crash?
  }

  lemma {:induction false} ChainInOrder(steps: seq<Step>, qs: seq<Queue>, i: nat)
    requires Chain(steps, qs) && InOrder(qs[0]) && i <= |steps|
    ensures InOrder(qs[i])
    decreases i
  {
    hide InOrder, Moves;
    if i > 0 {
      ChainInOrder(steps, qs, i - 1);
      MovesKeepOrder(qs[i - 1], steps[i - 1], qs[i]);
    }
  }

  /** Neither what is deleted nor what the stored checkpoint has passed ever comes back. */
  lemma {:induction false} ChainGrows(steps: seq<Step>, qs: seq<Queue>, i: nat, j: nat)
    requires Chain(steps, qs) && InOrder(qs[0]) && i <= j <= |steps|
    ensures qs[i].base <= qs[j].base && qs[i].saved <= qs[j].saved <= qs[j].acked
    decreases j - i
  {
    hide Moves, InOrder;
    ChainInOrder(steps, qs, j);
    InOrderBounds(qs[j]);
    if i < j {
      ChainGrows(steps, qs, i, j - 1);
      ChainInOrder(steps, qs, j - 1);
      InOrderBounds(qs[j - 1]);
      MoveGrows(qs[j - 1], steps[j - 1], qs[j]);
    }
  }

  lemma MoveGrows(q: Queue, s: Step, q': Queue)
    requires Moves(q, s, q') && q.base <= q.saved <= q.acked
    ensures q.base <= q'.base && q.saved <= q'.saved
    ensures !s.Ack? && !s.Restart? && !s.Crash? ==>
      q'.acked == Max(q.acked, q'.base) && q'.saved == Max(q.saved, q'.base)
    ensures s.Restart? || s.Crash? ==> q'.acked == q'.saved == q.saved && q'.base == q.base
  {
  }

  /** A record that the stored checkpoint has passed is never exported again: whatever is sent
      after a restart, or at any other time, lies at or after the checkpoint stored by then. */
  lemma NeverResent(steps: seq<Step>, qs: seq<Queue>, i: nat, j: nat)
    requires Chain(steps, qs) && InOrder(qs[0]) && i <= j < |steps| && steps[j].Ack?
    ensures qs[i].saved <= qs[j].acked
  {
    hide Moves, InOrder;
    ChainGrows(steps, qs, i, j);
  }

  /** Where the consumer stands after some steps without an export. */
  lemma {:induction false} Between(steps: seq<Step>, qs: seq<Queue>, i: nat, j: nat)
    requires Chain(steps, qs) && InOrder(qs[0]) && i <= j < |steps| && NoAck(steps, i, j)
    ensures qs[j].saved == Max(qs[i].saved, qs[j].base)
    ensures qs[j].acked == Max(if NoRestart(steps, i, j) then qs[i].acked else qs[i].saved, qs[j].base)
    decreases j - i
  {
    hide Moves, InOrder;
    ChainInOrder(steps, qs, i);
    InOrderBounds(qs[i]);
    if i < j {
      Between(steps, qs, i, j - 1);
      ChainInOrder(steps, qs, j - 1);
      InOrderBounds(qs[j - 1]);
      MoveGrows(qs[j - 1], steps[j - 1], qs[j]);
      assert NoRestart(steps, i, j) <==> NoRestart(steps, i, j - 1) && !steps[j - 1].Restart? && !steps[j - 1].Crash?;
    }
  }

  /** Each export in terms of the one before it: the next record, or the one at the checkpoint
      stored by then if there was a restart in between; records are skipped only if they have
      been deleted by that time. The first export is the first record not deleted. */
  lemma ExportsFollow(steps: seq<Step>, qs: seq<Queue>, i: nat, j: nat)
    requires Chain(steps, qs) && InOrder(qs[0]) && i < j < |steps| && steps[i].Ack? && NoAck(steps, i + 1, j)
    ensures qs[j].acked == Max(if NoRestart(steps, i + 1, j) then qs[i].acked + 1 else qs[i + 1].saved, qs[j].base)
    ensures qs[i + 1].saved == if steps[i].saves then qs[i].acked + 1 else qs[i].saved
  {
    hide InOrder;
    Between(steps, qs, i + 1, j);
    assert Moves(qs[i], steps[i], qs[i + 1]);
  }

  lemma FirstExport(steps: seq<Step>, qs: seq<Queue>, j: nat)
    requires Chain(steps, qs) && qs[0] == EMPTY && j < |steps| && NoAck(steps, 0, j)
    ensures qs[j].acked == qs[j].base
  {
    Between(steps, qs, 0, j);
  }

  /** The indexes of the records exported, one for each acknowledgement. */
  function Acked(steps: seq<Step>, qs: seq<Queue>): seq<nat>
    requires |qs| == |steps| + 1
  {
    if steps == [] then []
    else
      var n := |steps| - 1;
      Acked(steps[..n], qs[..n + 1]) + if steps[n].Ack? then [qs[n].acked] else []
  }

  lemma MoveOrder(q: Queue, s: Step, q': Queue)
    requires Moves(q, s, q')
    ensures q'.order == if s.Ack? then q.order + [q.acked] else q.order
  {
  }

  lemma {:induction false} OrderIsAcked(steps: seq<Step>, qs: seq<Queue>)
    requires Chain(steps, qs) && qs[0].order == []
    ensures qs[|steps|].order == Acked(steps, qs)
  {
    hide Moves;
    if steps != [] {
      var n := |steps| - 1;
      var steps', qs' := steps[..n], qs[..n + 1];
      forall i | 0 <= i < n
        ensures Moves(qs'[i], steps'[i], qs'[i + 1])
      {
        assert Moves(qs[i], steps[i], qs[i + 1]);
      }
      OrderIsAcked(steps', qs');
      MoveOrder(qs[n], steps[n], qs[n + 1]);
      assert Acked(steps', qs') + [] == Acked(steps', qs');
    }
  }

  /** What has been exported, in order: for every acknowledgement the record it was for. */
  lemma ExportedAre(c: Config, steps: seq<Step>, qs: seq<Queue>)
    requires Run(c, START, steps) && Traced(c, START, steps, qs) && qs[0] == EMPTY
    ensures var exported, order := After(c, START, steps).exported, Acked(steps, qs);
      && |exported| == |order|
      && forall n :: 0 <= n < |order| ==> order[n] < |AppendedBy(steps)| && exported[n] == AppendedBy(steps)[order[n]]
  {
    hide Traced, Chain, Acked, Run, After, Stored, Stands;
    TracedChain(c, START, steps, qs);
    OrderIsAcked(steps, qs);
    assert [] + AppendedBy(steps) == AppendedBy(steps);
  }

  /** Every record before `acked` has been exported, the first export is the first record, and
      each later one is the next record or goes back to an earlier one. */
  ghost predicate NoGaps(exported: seq<Record>, records: seq<Record>, order: seq<nat>, acked: nat) {
    && |order| == |exported| && acked <= |records|
    && (forall n :: 0 <= n < |order| ==> order[n] < |records| && exported[n] == records[order[n]])
    && (order != [] ==> order[0] == 0) && (forall n :: 0 < n < |order| ==> order[n] <= order[n - 1] + 1)
    && (forall i :: 0 <= i < acked ==> i in order)
  }

  lemma {:induction false} NoBase(steps: seq<Step>, qs: seq<Queue>, i: nat)
    requires Chain(steps, qs) && NoRetention(steps) && i <= |steps|
    ensures qs[i].base == qs[0].base
    decreases i
  {
    hide Moves;
    if i > 0 {
      NoBase(steps, qs, i - 1);
      assert steps[i - 1] in steps;
      MoveRecords(qs[i - 1], steps[i - 1], qs[i]);
    }
  }

  lemma {:induction false} FirstStays(c: Config, st: State, steps: seq<Step>)
    requires Run(c, st, steps) && NoRetention(steps)
    ensures After(c, st, steps).first == st.first
    decreases |steps|
  {
    hide Enabled, ReadFrom, Appended, Written, Truncated;
    if steps != [] {
      assert steps[0] in steps;
      FirstStays(c, Next(c, st, steps[0]), steps[1..]);
    }
  }

  /** Without retention, and whatever crashes, restarts and failures there were, the consumer
      has skipped nothing, up to the very record that its checkpoint denotes in the log that the
      files hold: the log of all records appended. */
  lemma NothingSkipped(c: Config, steps: seq<Step>)
    requires Run(c, START, steps) && AllSane(c, START, steps) && NoRetention(steps)
    ensures exists order, acked, log: Log ::
      && NoGaps(After(c, START, steps).exported, AppendedBy(steps), order, acked)
      && Stored(c.crc, log, After(c, START, steps).files, After(c, START, steps).torn)
      && log.Records() == AppendedBy(steps) && AllReadable(log.Records())
      && Denotes(c.crc, log, After(c, START, steps).cp, acked)
  {
    hide After, Run, AllSane, AppendedBy, NoGaps, Refines, Traced, Stored, Denotes, AllReadable;
    Delivery(c, steps);
    var qs: seq<Queue> :| Traced(c, START, steps, qs) && Chain(steps, qs) && qs[0] == EMPTY
      && qs[|steps|].records == AppendedBy(steps) && Means(c, After(c, START, steps), qs[|steps|]);
    NoBase(steps, qs, |steps|);
    FirstStays(c, START, steps);
    var q := qs[|steps|];
    var log :| Refines(c, After(c, START, steps), log, q);
    Ungapped(c, After(c, START, steps), log, q);
  }

  lemma Ungapped(c: Config, st: State, log: Log, q: Queue)
    requires Refines(c, st, log, q) && q.base == 0 && st.first == 0
    ensures NoGaps(st.exported, q.records, q.order, q.acked)
    ensures Stored(c.crc, log, st.files, st.torn) && log.Records() == q.records && AllReadable(log.Records())
    ensures Denotes(c.crc, log, st.cp, q.acked)
  {
    hide Stored, Denotes;
    assert q.records[0..] == q.records;
  }

  /** The consumer is never stuck: a read finds the next record exactly when there is one. */
  lemma ReadFinds(c: Config, st: State, log: Log, q: Queue)
    requires Refines(c, st, log, q) && st.pending.None?
    ensures q.acked < |q.records| <==> AfterRead(c, st).pending == Some(Pending(NextRecord(q), AfterRead(c, st).pos))
  {
    ReadStep(c, st, log, q);
  }

  function NextRecord(q: Queue): Record {
    if q.acked < |q.records| then q.records[q.acked] else Record(0, [])
  }

  // ----- checkpoints that can be saved -----

  /** Records of the right size, none appended behind a tear, and every checkpoint saved. */
  predicate Careful(c: Config, st: State, steps: seq<Step>)
    requires Run(c, st, steps)
    decreases |steps|
  {
    steps == [] ||
    (&& (steps[0].Append? || steps[0].Crash? ==> Sane(c, st, steps[0]))
     && (steps[0].Ack? || steps[0].Retain? ==> steps[0].saves)
     && Careful(c, Next(c, st, steps[0]), steps[1..]))
  }

  /** The stored checkpoint is the one in memory, and its segment is still there. */
  predicate Current(st: State) {
    st.saved == st.cp && st.first <= st.cp.segment
  }

  lemma SavedStepSane(c: Config, st: State, log: Log, q: Queue, s: Step)
    requires Refines(c, st, log, q) && Enabled(c, st, s) && Current(st)
    requires (s.Append? || s.Crash? ==> Sane(c, st, s)) && (s.Ack? || s.Retain? ==> s.saves)
    ensures Sane(c, st, s) && Current(Next(c, st, s))
  {
    hide Stored, InOrder, Exports, ReadFrom, Denotes, Appended, Written;
    InOrderBounds(q);
    if s.Read? {
      HasSegment(c.crc, log, st.files, st.torn, st.cp, q.acked - q.base);
    }
    if s.Ack? {
      StandsLow(c.crc, log, st.pos, q.acked + 1 - q.base);
    }
  }

  lemma HasSegment(crc: Checksum, log: Log, files: Files, torn: bool, pos: Checkpoint, k: nat)
    requires Stored(crc, log, files, torn) && log.segs != [] && Stands(crc, log, pos, k) && log.first <= pos.segment
    ensures pos.segment in files
  {
    hide RecordBytes, SegmentBytes, Denotes;
    PlaceInRange(crc, log, pos, k);
    if torn {
      var r: Record, cut: nat :| TornTail(crc, log, r, cut, files);
      var whole := files[log.Active() := SegmentBytes(crc, LastSegment(log))];
      assert pos.segment in whole;
    }
  }

  lemma StandsLow(crc: Checksum, log: Log, pos: Checkpoint, k: nat)
    requires Stands(crc, log, pos, k) && k > 0
    ensures log.first <= pos.segment
  {
    hide Denotes;
    PlaceInRange(crc, log, pos, k);
  }

  /** Runs whose checkpoint saves succeed need no condition on retention: it never outruns the
      stored checkpoint. `Delivery` and what follows from it then hold of them. */
  lemma {:induction false} SavedRunSane(c: Config, st: State, q: Queue, steps: seq<Step>)
    requires Means(c, st, q) && Current(st) && Run(c, st, steps) && Careful(c, st, steps)
    ensures AllSane(c, st, steps) && Current(After(c, st, steps))
    decreases |steps|
  {
    hide Refines, Enabled, Sane, Next, Moves, Current;
    if steps != [] {
      var s := steps[0];
      var log :| Refines(c, st, log, q);
      SavedStepSane(c, st, log, q, s);
      StepRefines(c, st, log, q, s);
      var log1, q1 :| Refines(c, Next(c, st, s), log1, q1) && Moves(q, s, q1);
      SavedRunSane(c, Next(c, st, s), q1, steps[1..]);
    }
  }

  /** Delivery with nothing assumed of retention, for runs whose checkpoint saves succeed. */
  lemma SavedDelivery(c: Config, steps: seq<Step>)
    requires Run(c, START, steps) && Careful(c, START, steps)
    ensures exists qs: seq<Queue> ::
      && Traced(c, START, steps, qs) && Chain(steps, qs) && qs[0] == EMPTY
      && qs[|steps|].records == AppendedBy(steps) && Means(c, After(c, START, steps), qs[|steps|])
  {
    hide Traced, Chain, Means, Careful, Run, AllSane, After, AppendedBy;
    StartMeans(c);
    SavedRunSane(c, START, EMPTY, steps);
    Delivery(c, steps);
  }

  // ----- checkpoints that retention has outrun -----

  /** A new process whose stored checkpoint lies more than one segment before the log. */
  ghost predicate Outrun(st: State) {
    && st.pending.None? && st.cp == st.pos == st.saved && st.cp.segment + 1 < st.first
    && Contiguous(st.files, st.first, st.active)
  }

  /** It reads the end of the log for ever, whatever is appended, and retention does not help it
      on; new processes fare no better. */
  lemma OutrunStays(c: Config, st: State, s: Step)
    requires Outrun(st) && Enabled(c, st, s)
    ensures Outrun(Next(c, st, s)) && Next(c, st, s).exported == st.exported
    ensures s.Read? ==> ReadFrom(c.crc, st.files, st.pos) == (Eof, st.pos)
  {
    hide Scan, RecordBytes;
  }

  lemma {:induction false} NothingExported(c: Config, st: State, steps: seq<Step>)
    requires Outrun(st) && Run(c, st, steps)
    ensures Outrun(After(c, st, steps)) && After(c, st, steps).exported == st.exported
    decreases |steps|
  {
    hide Outrun, Enabled, Next, ReadFrom;
    if steps != [] {
      OutrunStays(c, st, steps[0]);
      NothingExported(c, Next(c, st, steps[0]), steps[1..]);
    }
  }

  /** The exact condition on retention: after it, a restarted consumer finds its place in the log
      exactly when the stored checkpoint is at most one segment behind it, that is when the step
      is sane; otherwise it never exports anything again. */
  lemma RestartFindsLog(c: Config, st: State, log: Log, q: Queue, saves: bool)
    requires Refines(c, st, log, q) && st.pending.None?
    ensures var st' := Restarted(AfterRetain(c, st, saves));
      if Sane(c, st, Retain(saves)) then
        exists q' :: Means(c, st', q') && Moves(q.(acked := q.saved), Retain(saves), q')
      else Outrun(st')
  {
    hide Refines, Stored, Stands, InOrder, Exports, Denotes, Joined;
    var st1 := AfterRetain(c, st, saves);
    if Sane(c, st, Retain(saves)) {
      RetainStep(c, st, log, q, saves);
      var log', q' :| Refines(c, st1, log', q') && Moves(q, Retain(saves), q');
      RestartRefines(c, st1, log', q');
      RefinesOrder(c, st, log, q);
      assert Moves(q.(acked := q.saved), Retain(saves), q'.(acked := q'.saved));
      assert Means(c, Restarted(st1), q'.(acked := q'.saved));
    } else {
      RefinesContiguous(c, st, log, q);
    }
  }

  /** And why a repair needs the checkpoint's segment: without it, it deletes the whole log. */
  lemma RepairLosesLog(c: Config, st: State, log: Log, q: Queue)
    requires Refines(c, st, log, q) && st.pending.None? && ReadFrom(c.crc, st.files, st.pos).0.Corrupt?
    ensures !Sane(c, st, Read) ==> AfterRead(c, st).files == map[]
  {
    hide Stored, InOrder, Exports, ReadFrom, Denotes;
    RefinesContiguous(c, st, log, q);
    RefinesOrder(c, st, log, q);
    if Denotes(c.crc, log, st.cp, q.acked - q.base) {
      PlaceInRange(c.crc, log, st.cp, q.acked - q.base);
    }
  }

  lemma RefinesOrder(c: Config, st: State, log: Log, q: Queue)
    requires Refines(c, st, log, q)
    ensures q.base <= q.saved <= q.acked <= |q.records|
  {
    hide Stored, Stands;
  }

  lemma RefinesContiguous(c: Config, st: State, log: Log, q: Queue)
    requires Refines(c, st, log, q)
    ensures Contiguous(st.files, st.first, st.active)
  {
    hide RecordBytes, SegmentBytes, Stands, InOrder, Exports;
    if st.torn {
      var r: Record, cut: nat :| TornTail(c.crc, log, r, cut, st.files);
      var whole := st.files[log.Active() := SegmentBytes(c.crc, LastSegment(log))];
      assert forall k :: k in st.files <==> k in whole;
    }
  }

  // ----- appending behind a tear -----

  /** Why no append may come behind a torn record, which `Open` does not repair. The repair
      removes the appended record, and it takes place: the reader reports damage at the tear,
      unless the bytes behind it happen to complete a record with a matching checksum. */
  lemma LostBehindTear(
      crc: Checksum, log: Log, r: Record, cut: nat, files: Files, size: int, rec: Bytes, cp: Checkpoint)
    requires TornTail(crc, log, r, cut, files) && Denotes(crc, log, cp, |log.Records()|)
    ensures cp.segment in files
    ensures var (files', active') := Appended(files, log.Active(), size, rec);
      var tear := TearAt(crc, log);
      && Truncated(files', cp) == Truncated(files, cp)
      && (active' != log.Active() ==> ReadFrom(crc, files', tear) == (Corrupt(tear), tear))
      && (active' == log.Active() ==>
            (ReadFrom(crc, files', tear) == (Corrupt(tear), tear) <==>
             !Scan(crc, RecordBytes(crc, r)[..cut] + rec).Found?))
  {
    hide RecordBytes, SegmentBytes, Scan, Denotes, Joined;
    var (files', active') := Appended(files, log.Active(), size, rec);
    var tear, torn := TearAt(crc, log), RecordBytes(crc, r)[..cut];
    var intact := SegmentBytes(crc, LastSegment(log));
    WholeRepresents(crc, log, files, true);
    PlaceInRange(crc, log, cp, |log.Records()|);
    CutInside(crc, log, cp);
    var whole := Whole(crc, log, files, true);
    assert forall k :: k in files <==> log.first <= k <= log.Active() by {
      assert forall k :: k in files <==> k in whole;
    }
    TornRecord(crc, r, cut);
    assert files[log.Active()][tear.offset..] == torn;
    if active' == log.Active() {
      assert files'[active'] == intact + torn + rec;
      assert files'[active'][tear.offset..] == torn + rec;
    }
    if cp.segment == log.Active() {
      assert files'[cp.segment][..cp.offset] == files[cp.segment][..cp.offset];
    }
    assert WithoutLater(files', cp.segment)[cp.segment := []] == WithoutLater(files, cp.segment)[cp.segment := []];
  }

  lemma CutInside(crc: Checksum, log: Log, cp: Checkpoint)
    requires log.segs != [] && Denotes(crc, log, cp, |log.Records()|)
    ensures cp.segment == log.Active() ==> cp.offset <= |SegmentBytes(crc, LastSegment(log))|
  {
    hide SegmentBytes, Joined;
    var i, j := Place(crc, log, cp, |log.Records()|);
    SegmentPrefix(crc, log.segs[i], j);
  }

  lemma {:induction false} RunStep(c: Config, st: State, steps: seq<Step>, s: Step)
    requires Run(c, st, steps) && Enabled(c, After(c, st, steps), s)
    ensures Run(c, st, steps + [s])
    ensures After(c, st, steps + [s]) == Next(c, After(c, st, steps), s)
    decreases |steps|
  {
    hide Enabled, Next;
    if steps == [] {
      assert steps + [s] == [s];
      assert [s][1..] == [];
    } else {
      assert (steps + [s])[1..] == steps[1..] + [s];
      RunStep(c, Next(c, st, steps[0]), steps[1..], s);
    }
  }

  lemma NoSteps(c: Config, st: State)
    ensures Run(c, st, []) && After(c, st, []) == st
  {
  }
}
