/** The consumer (`internal/pipeline/wal.go`) over the log, its reader and the stored
    checkpoint, proved to take only the steps of the machine in WalDelivery. How exports and
    checkpoint saves turn out is an argument of each call. */
module WalConsumer {
  import opened Words
  import opened WalRecord
  import opened WalLog
  import opened Wal
  import opened WalProperties
  import opened WalReader
  import opened WalDelivery

  /** One turn of the loop: whether the export succeeds, and whether the checkpoint can be
      saved after it and after retention. */
  datatype Turn = Turn(sent: bool, saves: bool, retains: bool)

  /** The degradation flag: on above 70% of the limit, off below 50%, and kept in between. */
  function Pressed(degraded: bool, unacked: int, maxSize: int): bool {
    if !degraded && unacked > maxSize * 7 / 10 then true
    else if degraded && unacked < maxSize * 5 / 10 then false
    else degraded
  }

  /** What the flag means for the records: when those not before the checkpoint take more than
      70% of the limit on disk, it goes on; when less than 50%, it goes off; in between it stays. */
  lemma PressureMeans(crc: Checksum, log: Log, files: Files, cp: Checkpoint, k: nat, degraded: bool, maxSize: int)
    requires Represents(crc, log, files) && Denotes(crc, log, cp, k) && maxSize > 0
    ensures k <= |log.Records()|
    ensures var n := RecordsSize(log.Records()[k..]);
      var pressed := Pressed(degraded, UnackedOf(files, cp, log.first, log.Active() + 1), maxSize);
      && (n > maxSize * 7 / 10 ==> pressed) && (n < maxSize * 5 / 10 ==> !pressed)
      && (maxSize * 5 / 10 <= n <= maxSize * 7 / 10 ==> pressed == degraded)
  {
    hide Represents, Denotes, UnackedOf;
    StatsMeaning(crc, log, files, cp, k);
  }

  /** The steps of draining the log with the given turns. */
  function Drained(c: Config, st: State, plan: seq<Turn>): seq<Step>
    decreases |plan|, 1
  {
    if plan == [] then []
    else if st.pending.Some? then Exported(c, st, plan)
    else
      match ReadFrom(c.crc, st.files, st.pos).0
      case Got(_, _) => [Read] + Exported(c, AfterRead(c, st), plan)
      case Eof => [Read, Retain(plan[0].retains)]
      case Corrupt(_) =>
        [Read] + if st.cp.segment in st.files then Drained(c, AfterRead(c, st), plan[1..]) else []
  }

  /** The steps from exporting the pending record on. */
  function Exported(c: Config, st: State, plan: seq<Turn>): seq<Step>
    requires plan != [] && st.pending.Some?
    decreases |plan|, 0
  {
    var t := plan[0];
    if !t.sent then [FailExport] + Drained(c, st, plan[1..])
    else [Ack(t.saves)] + ([Retain(t.retains)] + Drained(c, AfterTurn(c, st, t), plan[1..]))
  }

  function AfterTurn(c: Config, st: State, t: Turn): State
    requires st.pending.Some?
  {
    AfterRetain(c, Next(c, st, Ack(t.saves)), t.retains)
  }

  class WalConsumer {
    const wal: Wal
    const dir: Dir
    const reader: Reader
    var cp: Checkpoint
    var pending: Option<Pending>
    var degraded: bool
    ghost var state: State

    ghost function Settings(): Config
    {
      Config(wal.crc, wal.segmentSize, wal.maxSize)
    }

    /** Disk and memory are where the machine's state says they are. */
    ghost predicate Matches()
      reads this, wal, dir, reader
    {
      && wal.dir == dir && reader.dir == dir && reader.crc == wal.crc
      && state.files == dir.files && state.first == wal.first && state.active == wal.segment
      && state.saved == (if dir.checkpoint.Some? then dir.checkpoint.value else ZERO)
      && state.cp == cp && state.pos == reader.Position() && state.pending == pending
    }

    /** A new process starts reading at the stored checkpoint. */
    constructor (wal: Wal, ghost before: State)
      requires wal.Valid()
      requires before.files == wal.dir.files && before.first == wal.first && before.active == wal.segment
      requires before.saved == if wal.dir.checkpoint.Some? then wal.dir.checkpoint.value else ZERO
      ensures this.wal == wal && wal.Valid() && Matches() && !degraded
      ensures state == Next(Settings(), before, Restart)
    {
      this.wal, dir, degraded, pending := wal, wal.dir, false, None;
      var at := wal.dir.LoadCheckpoint();
      reader := new Reader(wal.dir, wal.crc, at);
      cp := at;
      state := Restarted(before);
    }

    /** One more step of the machine. */
    static lemma Took(c: Config, start: State, steps: seq<Step>, before: State, s: Step) returns (more: seq<Step>)
      requires Run(c, start, steps) && before == After(c, start, steps) && Enabled(c, before, s)
      ensures more == steps + [s] && Run(c, start, more) && After(c, start, more) == Next(c, before, s)
    {
      hide Run, After, Enabled, Next;
      RunStep(c, start, steps, s);
      more := steps + [s];
    }

    method Toggle(unacked: nat)
      modifies this`degraded
      ensures degraded == Pressed(old(degraded), unacked, wal.maxSize)
    {
      var maxSize := wal.maxSize;
      if !degraded && unacked > maxSize * 7 / 10 {
        degraded := true;
      } else if degraded && unacked < maxSize * 5 / 10 {
        degraded := false;
      }
    }

    /** Enforces the size limit and toggles the degradation flag. */
    method ReportPressure(saves: bool)
      requires wal.Valid() && Matches() && pending.None?
      modifies this`cp, this`degraded, this`state, wal`first, dir, reader
      ensures wal.Valid() && Matches()
      ensures Enabled(Settings(), old(state), Retain(saves)) && state == Next(Settings(), old(state), Retain(saves))
      ensures degraded ==
        Pressed(old(degraded), UnackedOf(old(dir.files), old(cp), old(wal.first), wal.segment + 1), wal.maxSize)
    {
      hide Keep, SizeOf, UnackedOf, Pressed;
      ghost var c, before := Settings(), state;
      var total, unacked := wal.Stats(cp);
      KeepStep(dir.files, wal.first, wal.segment, wal.maxSize);
      RetainedAll(dir.files, wal.first, wal.segment);
      var maxSize := wal.maxSize;
      if total > maxSize {
        var newCp := wal.EnforceMaxSize(cp);
        if newCp != cp {
          cp := newCp;
          reader.Reset(newCp);
          dir.SaveCheckpoint(newCp, saves);
        }
      }
      state := AfterRetain(c, before, saves);
      Toggle(unacked);
    }

    /** The next record to export, once the previous one has been acknowledged. */
    method Fetch() returns (r: ReadResult, ok: bool)
      requires wal.Valid() && Matches() && pending.None?
      modifies this`pending, this`state, wal, dir`files, reader
      ensures Matches() && (ok ==> wal.Valid())
      ensures state == Next(Settings(), old(state), Read)
      ensures r == ReadFrom(wal.crc, old(state).files, old(state).pos).0
      ensures r.Got? <==> pending.Some?
      ensures ok <==> (r.Corrupt? ==> old(state).cp.segment in old(state).files)
    {
      hide ReadFrom;
      ghost var before := state;
      r := reader.Next();
      ok := true;
      match r {
        case Eof =>
        case Corrupt(_) =>
          ok := wal.Truncate(cp);
          if ok {
            reader.Reset(cp);
          }
        case Got(record, next) =>
          pending := Some(Pending(record, next));
      }
      state := AfterRead(Settings(), before);
    }

    /** Moves the checkpoint past the pending record, saves it, and reports the pressure. */
    method Acknowledge(t: Turn, ghost start: State, ghost steps: seq<Step>) returns (ghost more: seq<Step>)
      requires wal.Valid() && Matches() && pending.Some?
      requires Run(Settings(), start, steps) && state == After(Settings(), start, steps)
      modifies this`cp, this`pending, this`degraded, this`state, wal`first, dir, reader
      ensures wal.Valid() && Matches()
      ensures more == steps + [Ack(t.saves)] + [Retain(t.retains)] && state == AfterTurn(Settings(), old(state), t)
      ensures Run(Settings(), start, more) && state == After(Settings(), start, more)
    {
      hide Run, After, AfterRetain, Pressed, UnackedOf, Contiguous;
      ghost var c, before := Settings(), state;
      cp, pending := pending.value.next, None;
      dir.SaveCheckpoint(cp, t.saves);
      state := Next(c, before, Ack(t.saves));
      more := Took(c, start, steps, before, Ack(t.saves));
      before := state;
      ReportPressure(t.retains);
      more := Took(c, start, more, before, Retain(t.retains));
    }

    /** Replays records in order, one turn after another, until the log is drained or there are
        no more turns. The checkpoint moves only when an export succeeds, and a failed export
        is tried again with the same record. */
    method Drain(plan: seq<Turn>) returns (ok: bool, ghost steps: seq<Step>)
      requires wal.Valid() && Matches()
      modifies this, wal, dir, reader
      ensures Matches() && (ok ==> wal.Valid())
      ensures Run(Settings(), old(state), steps) && state == After(Settings(), old(state), steps)
      ensures steps == Drained(Settings(), old(state), plan)
    {
      hide Run, After, AfterRead, AfterRetain, Written, Appended, Pressed, UnackedOf, Drained, Exported;
      hide ReadFrom, Contiguous;
      ghost var c, start := Settings(), state;
      steps, ok := [], true;
      NoSteps(c, start);
      assert plan[0..] == plan;
      for i := 0 to |plan|
        invariant Matches() && wal.Valid() && ok
        invariant Run(c, start, steps) && state == After(c, start, steps)
        invariant steps + Drained(c, state, plan[i..]) == Drained(c, start, plan)
      {
        ghost var before, rest := state, plan[i..];
        DrainedStep(c, before, plan, i, steps);
        if pending.None? {
          var r;
          r, ok := Fetch();
          assert r == ReadFrom(c.crc, before.files, before.pos).0;
          steps := Took(c, start, steps, before, Read);
          if r.Eof? {
            before := state;
            ReportPressure(plan[i].retains);
            steps := Took(c, start, steps, before, Retain(plan[i].retains));
            return;
          }
          if !ok {
            return;
          }
          if r.Corrupt? {
            continue;
          }
        }
        before := state;
        assert steps + Exported(c, before, rest) == Drained(c, start, plan);
        ExportedStep(c, before, plan, i, steps);
        if !plan[i].sent {
          steps := Took(c, start, steps, before, FailExport);
          continue;
        }
        steps := Acknowledge(plan[i], start, steps);
      }
      assert plan[|plan|..] == [];
      NoTurns(c, state, steps);
    }
  }

  lemma NoTurns(c: Config, st: State, steps: seq<Step>)
    ensures steps + Drained(c, st, []) == steps
  {
  }

  /** The first read of some turns and what follows it. */
  function AfterFirst(c: Config, st: State, plan: seq<Turn>): seq<Step>
    requires plan != [] && st.pending.None?
  {
    match ReadFrom(c.crc, st.files, st.pos).0
    case Got(_, _) => Exported(c, AfterRead(c, st), plan)
    case Eof => [Retain(plan[0].retains)]
    case Corrupt(_) => if st.cp.segment in st.files then Drained(c, AfterRead(c, st), plan[1..]) else []
  }

  lemma DrainedFirst(c: Config, st: State, plan: seq<Turn>)
    requires plan != []
    ensures st.pending.Some? ==> Drained(c, st, plan) == Exported(c, st, plan)
    ensures st.pending.None? ==> Drained(c, st, plan) == [Read] + AfterFirst(c, st, plan)
  {
    hide Next, ReadFrom, AfterRead, Exported;
  }

  /** The steps after some others, unfolded by one read. */
  lemma DrainedStep(c: Config, st: State, plan: seq<Turn>, i: nat, steps: seq<Step>)
    requires i < |plan|
    ensures st.pending.Some? ==> Drained(c, st, plan[i..]) == Exported(c, st, plan[i..])
    ensures st.pending.None? ==>
      var r, all := ReadFrom(c.crc, st.files, st.pos).0, steps + Drained(c, st, plan[i..]);
      && (r.Got? ==> all == steps + [Read] + Exported(c, AfterRead(c, st), plan[i..]))
      && (r.Eof? ==> all == steps + [Read] + [Retain(plan[i].retains)])
      && (r.Corrupt? ==>
            all == steps + [Read]
                     + if st.cp.segment in st.files then Drained(c, AfterRead(c, st), plan[i + 1..]) else [])
  {
    hide Next, ReadFrom, AfterRead, Drained, Exported;
    var rest := plan[i..];
    DrainedFirst(c, st, rest);
    assert rest[1..] == plan[i + 1..] && rest[0] == plan[i];
    if st.pending.None? {
      ConcatAssoc(steps, [Read], AfterFirst(c, st, rest));
    }
  }

  /** The steps after some others, unfolded by one export. */
  lemma ExportedStep(c: Config, st: State, plan: seq<Turn>, i: nat, steps: seq<Step>)
    requires i < |plan| && st.pending.Some?
    ensures var t, all := plan[i], steps + Exported(c, st, plan[i..]);
      && (!t.sent ==> all == steps + [FailExport] + Drained(c, st, plan[i + 1..]))
      && (t.sent ==>
            all == steps + [Ack(t.saves)] + [Retain(t.retains)] + Drained(c, AfterTurn(c, st, t), plan[i + 1..]))
  {
    hide AfterTurn, Drained;
    assert plan[i..][1..] == plan[i + 1..] && plan[i..][0] == plan[i];
    var rest := Drained(c, AfterTurn(c, st, plan[i]), plan[i + 1..]);
    ConcatAssoc(steps, [FailExport], Drained(c, st, plan[i + 1..]));
    ConcatAssoc(steps, [Ack(plan[i].saves)], [Retain(plan[i].retains)] + rest);
    ConcatAssoc(steps + [Ack(plan[i].saves)], [Retain(plan[i].retains)], rest);
  }

  // ----- draining -----

  /** The number of turns whose export succeeds. */
  function Sends(plan: seq<Turn>): nat {
    if plan == [] then 0 else (if plan[0].sent then 1 else 0) + Sends(plan[1..])
  }

  predicate AllSaved(plan: seq<Turn>) {
    forall t :: t in plan ==> t.saves && t.retains
  }

  /** A state that still means all those records, all of them exported and acknowledged. */
  ghost predicate Finished(c: Config, st: State, records: seq<Record>) {
    st.pending.None? && exists q :: Means(c, st, q) && q.records == records && q.acked == |records|
  }

  /** The successful exports that are still needed: one for each record not acknowledged, one turn
      for the repair if there is a torn record, and one more turn to find the end. */
  function Needed(st: State, q: Queue): int {
    |q.records| - q.acked + (if st.torn then 1 else 0)
  }

  /** One step of a drained log, and what is left to do after it. */
  lemma DrainMoves(c: Config, st: State, q: Queue, s: Step) returns (q': Queue)
    requires Means(c, st, q) && Current(st) && Enabled(c, st, s) && !s.Append? && !s.Crash?
    requires s.Ack? || s.Retain? ==> s.saves
    ensures Means(c, Next(c, st, s), q') && Moves(q, s, q') && Current(Next(c, st, s)) && q.acked <= |q.records|
  {
    hide Refines, Moves, Current, Sane, Next, Enabled;
    var log :| Refines(c, st, log, q);
    RefinesOrder(c, st, log, q);
    SavedStepSane(c, st, log, q, s);
    StepRefines(c, st, log, q, s);
    var log', q1 :| Refines(c, Next(c, st, s), log', q1) && Moves(q, s, q1);
    q' := q1;
  }

  /** What a read finds, in terms of the queue. */
  lemma ReadOutcome(c: Config, st: State, q: Queue)
    requires Means(c, st, q) && st.pending.None?
    ensures var r := ReadFrom(c.crc, st.files, st.pos).0;
      && (r.Got? <==> q.acked < |q.records|) && (r.Corrupt? ==> st.torn) && (r.Eof? ==> !st.torn)
  {
    hide Stored, InOrder, Exports, ReadFrom, Denotes;
    var log :| Refines(c, st, log, q);
    RefinesOrder(c, st, log, q);
    StoredReads(c.crc, log, st.files, st.torn, st.pos, q.acked - q.base);
  }

  /** Every acknowledgement is followed by a look at the sizes. */
  ghost predicate Reported(steps: seq<Step>) {
    forall i :: 0 <= i < |steps| && steps[i].Ack? ==> i + 1 < |steps| && steps[i + 1].Retain?
  }

  lemma ReportedCons(s: Step, steps: seq<Step>)
    requires Reported(steps) && (s.Ack? ==> steps != [] && steps[0].Retain?)
    ensures Reported([s] + steps)
  {
    var all := [s] + steps;
    assert forall i :: 0 < i < |all| ==> all[i] == steps[i - 1];
  }

  /** After every export, and at the end of the log, sizes and pressure are looked at. */
  lemma {:induction false} DrainReports(c: Config, st: State, plan: seq<Turn>)
    ensures Reported(Drained(c, st, plan))
    ensures st.pending.None? && plan != [] && ReadFrom(c.crc, st.files, st.pos).0.Eof? ==>
      Drained(c, st, plan) == [Read, Retain(plan[0].retains)]
    decreases |plan|, 1
  {
    hide ReadFrom, AfterRead, Exported, Reported;
    NothingReported();
    if plan != [] {
      if st.pending.Some? {
        ExportReports(c, st, plan);
      } else {
        var st' := AfterRead(c, st);
        AfterReadShape(c, st);
        match ReadFrom(c.crc, st.files, st.pos).0
        case Got(_, _) =>
          ExportReports(c, st', plan);
          ReportedCons(Read, Exported(c, st', plan));
        case Eof =>
          ReportedCons(Retain(plan[0].retains), []);
          ReportedCons(Read, [Retain(plan[0].retains)]);
          assert [Retain(plan[0].retains)] + [] == [Retain(plan[0].retains)];
          assert [Read] + [Retain(plan[0].retains)] == [Read, Retain(plan[0].retains)];
        case Corrupt(_) =>
          DrainReports(c, st', plan[1..]);
          ReportedCons(Read, Drained(c, st', plan[1..]));
          ReportedCons(Read, []);
      }
    }
  }

  lemma NothingReported()
    ensures Reported([])
  {
  }

  lemma {:induction false} ExportReports(c: Config, st: State, plan: seq<Turn>)
    requires plan != [] && st.pending.Some?
    ensures Reported(Exported(c, st, plan))
    decreases |plan|, 0
  {
    hide AfterRetain, Drained, Reported;
    var t, rest := plan[0], plan[1..];
    if t.sent {
      var tail := Drained(c, AfterTurn(c, st, t), rest);
      DrainReports(c, AfterTurn(c, st, t), rest);
      ReportedCons(Retain(t.retains), tail);
      ReportedCons(Ack(t.saves), [Retain(t.retains)] + tail);
    } else {
      DrainReports(c, st, rest);
      ReportedCons(FailExport, Drained(c, st, rest));
    }
  }

  /** The consumer gets through: whatever exports fail in between, with enough successful ones and
      checkpoints that can be saved it exports and acknowledges every record, repairing the log if
      it must, and stops at the end of it. */
  lemma {:induction false} DrainFinishes(c: Config, st: State, q: Queue, plan: seq<Turn>)
    requires Means(c, st, q) && Current(st) && AllSaved(plan) && Sends(plan) > Needed(st, q)
    ensures Run(c, st, Drained(c, st, plan)) && Finished(c, After(c, st, Drained(c, st, plan)), q.records)
    decreases |plan|, 1
  {
    hide Means, Current, AfterRead, AfterRetain, ReadFrom, Exported, Finished;
    AckedWithin(c, st, q);
    DrainedFirst(c, st, plan);
    if st.pending.Some? {
      ExportFinishes(c, st, q, plan);
    } else {
      ReadOutcome(c, st, q);
      var st1 := AfterRead(c, st);
      var q1 := DrainMoves(c, st, q, Read);
      AfterReadShape(c, st);
      var rest := AfterFirst(c, st, plan);
      assert Drained(c, st, plan)[1..] == rest;
      match ReadFrom(c.crc, st.files, st.pos).0
      case Got(_, _) =>
        ExportFinishes(c, st1, q1, plan);
      case Eof =>
        var q2 := DrainMoves(c, st1, q1, Retain(plan[0].retains));
        assert plan[0] in plan;
        RetainFinishes(c, st1, q1, q2, plan[0].retains);
      case Corrupt(_) =>
        RepairSane(c, st, q);
        assert AllSaved(plan[1..]);
        DrainFinishes(c, st1, q1, plan[1..]);
    }
  }

  lemma AckedWithin(c: Config, st: State, q: Queue)
    requires Means(c, st, q)
    ensures q.acked <= |q.records|
  {
    hide Refines;
    var log :| Refines(c, st, log, q);
    RefinesOrder(c, st, log, q);
  }

  lemma AfterReadShape(c: Config, st: State)
    ensures var st', r := AfterRead(c, st), ReadFrom(c.crc, st.files, st.pos).0;
      && (r.Got? ==> st'.pending.Some? && st'.torn == st.torn)
      && (r.Eof? ==> st'.pending == st.pending && st'.torn == st.torn)
      && (r.Corrupt? ==> st'.pending == st.pending && (st.cp.segment in st.files ==> !st'.torn))
  {
    hide ReadFrom;
  }

  lemma RepairSane(c: Config, st: State, q: Queue)
    requires Means(c, st, q) && Current(st) && st.pending.None?
    ensures ReadFrom(c.crc, st.files, st.pos).0.Corrupt? ==> st.cp.segment in st.files
  {
    hide Refines, ReadFrom;
    var log :| Refines(c, st, log, q);
    SavedStepSane(c, st, log, q, Read);
  }

  lemma RetainFinishes(c: Config, st: State, q: Queue, q': Queue, saves: bool)
    requires st.pending.None? && q.acked == |q.records| && Moves(q, Retain(saves), q')
    requires Means(c, AfterRetain(c, st, saves), q')
    ensures Run(c, st, [Retain(saves)]) && Finished(c, After(c, st, [Retain(saves)]), q.records)
  {
    hide Means, Keep;
    assert [Retain(saves)][1..] == [];
    assert After(c, st, [Retain(saves)]) == AfterRetain(c, st, saves);
  }

  lemma {:induction false} ExportFinishes(c: Config, st: State, q: Queue, plan: seq<Turn>)
    requires Means(c, st, q) && Current(st) && AllSaved(plan) && Sends(plan) > Needed(st, q)
    requires plan != [] && st.pending.Some?
    ensures Run(c, st, Exported(c, st, plan)) && Finished(c, After(c, st, Exported(c, st, plan)), q.records)
    decreases |plan|, 0
  {
    hide Means, Current, AfterRetain, Drained, Finished, Keep;
    var t, rest := plan[0], plan[1..];
    assert t in plan && AllSaved(rest);
    if t.sent {
      var q1 := DrainMoves(c, st, q, Ack(t.saves));
      var st1 := Next(c, st, Ack(t.saves));
      var q2 := DrainMoves(c, st1, q1, Retain(t.retains));
      var st2 := AfterRetain(c, st1, t.retains);
      RetainShape(c, st1, t.retains);
      DrainFinishes(c, st2, q2, rest);
      var tail := Drained(c, st2, rest);
      assert Exported(c, st, plan)[1..] == [Retain(t.retains)] + tail;
      assert ([Retain(t.retains)] + tail)[1..] == tail;
    } else {
      var q1 := DrainMoves(c, st, q, FailExport);
      DrainFinishes(c, st, q1, rest);
      assert Exported(c, st, plan)[1..] == Drained(c, st, rest);
    }
  }

  lemma RetainShape(c: Config, st: State, saves: bool)
    ensures AfterRetain(c, st, saves).torn == st.torn && AfterRetain(c, st, saves).pending == st.pending
  {
    hide Keep;
  }
}
