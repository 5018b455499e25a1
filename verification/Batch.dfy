/** The batch stage (`internal/pipeline/batch.go`) and its driver (`pipeline.go`): a bounded
    queue whose batches are delivered, or put back at its front when the export fails. */
module Batch {
  /** The newest items a bounded queue keeps. */
  function Newest<T>(items: seq<T>, max: nat): seq<T> {
    if |items| > max then items[|items| - max..] else items
  }

  class BatchProcessor<T> {
    const maxBatch: int
    const maxPending: nat
    var pending: seq<T>

    constructor (maxBatch: int, maxPending: nat)
      ensures this.maxBatch == maxBatch && this.maxPending == maxPending && pending == []
    {
      this.maxBatch, this.maxPending, pending := maxBatch, maxPending, [];
    }

    /** Queues items, and returns all that is pending once that makes a batch. */
    method Process(items: seq<T>) returns (batch: seq<T>)
      modifies this
      ensures var all := Newest(old(pending) + items, maxPending);
        (batch, pending) == if |all| >= maxBatch then (all, []) else ([], all)
    {
      Append(items);
      if |pending| >= maxBatch {
        batch := Take();
      } else {
        batch := [];
      }
    }

    method Take() returns (batch: seq<T>)
      modifies this
      ensures batch == old(pending) && pending == []
    {
      batch := pending;
      pending := [];
    }

    /** Puts a failed batch back, before newer items, and drops the oldest of the excess. */
    method Requeue(items: seq<T>)
      modifies this
      ensures pending == Newest(items + old(pending), maxPending)
    {
      pending := items + pending;
      Shrink();
    }

    method Append(items: seq<T>)
      modifies this
      ensures pending == Newest(old(pending) + items, maxPending)
    {
      pending := pending + items;
      Shrink();
    }

    method Shrink()
      modifies this
      ensures pending == Newest(old(pending), maxPending)
    {
      if |pending| > maxPending {
        var dropped := |pending| - maxPending;
        pending := pending[dropped..];
      }
    }
  }

  // ----- the driver -----

  /** Items are named by their arrival numbers. */
  datatype Queue = Queue(arrived: nat, delivered: seq<nat>, pending: seq<nat>, dropped: seq<nat>)

  /** Some items arrive, or the timer fires; if that releases a batch, it is delivered or not. */
  datatype Step =
    | Arrive(count: nat, delivers: bool)
    | Tick(delivers: bool)

  datatype Limits = Limits(maxBatch: int, maxPending: nat)

  function Numbers(from: nat, count: nat): seq<nat> {
    seq(count, i requires 0 <= i < count => from + i)
  }

  /** The oldest items, which `Newest` leaves out. */
  function Excess<T>(items: seq<T>, max: nat): seq<T> {
    if |items| > max then items[..|items| - max] else []
  }

  /** A batch goes out, or comes back to the front of the (meanwhile empty) queue. */
  function Emitted(l: Limits, q: Queue, delivers: bool): Queue {
    if delivers then q.(delivered := q.delivered + q.pending, pending := [])
    else q.(pending := Newest(q.pending + [], l.maxPending),
            dropped := q.dropped + Excess(q.pending + [], l.maxPending))
  }

  function Queued(l: Limits, q: Queue, count: nat): Queue {
    var all := q.pending + Numbers(q.arrived, count);
    q.(arrived := q.arrived + count, pending := Newest(all, l.maxPending),
       dropped := q.dropped + Excess(all, l.maxPending))
  }

  function Next(l: Limits, q: Queue, s: Step): Queue {
    match s
    case Arrive(count, delivers) =>
      var q' := Queued(l, q, count);
      if |q'.pending| >= l.maxBatch then Emitted(l, q', delivers) else q'
    case Tick(delivers) => Emitted(l, q, delivers)
  }

  function After(l: Limits, q: Queue, steps: seq<Step>): Queue
    decreases |steps|
  {
    if steps == [] then q else After(l, Next(l, q, steps[0]), steps[1..])
  }

  const EMPTY := Queue(0, [], [], [])

  ghost predicate Increasing(s: seq<nat>) {
    forall i, j :: 0 <= i < j < |s| ==> s[i] < s[j]
  }

  ghost predicate AllBefore(s: seq<nat>, t: seq<nat>) {
    forall i, j :: 0 <= i < |s| && 0 <= j < |t| ==> s[i] < t[j]
  }

  lemma Joins(s: seq<nat>, t: seq<nat>)
    ensures Increasing(s + t) <==> Increasing(s) && Increasing(t) && AllBefore(s, t)
  {
    if Increasing(s + t) {
      forall i, j | 0 <= i < j < |s|
        ensures s[i] < s[j]
      {
        assert (s + t)[i] < (s + t)[j];
      }
      forall i, j | 0 <= i < j < |t|
        ensures t[i] < t[j]
      {
        assert (s + t)[|s| + i] < (s + t)[|s| + j];
      }
      forall i, j | 0 <= i < |s| && 0 <= j < |t|
        ensures s[i] < t[j]
      {
        assert (s + t)[i] < (s + t)[|s| + j];
      }
    }
  }

  lemma BeforeParts(s: seq<nat>, t: seq<nat>, u: seq<nat>)
    ensures AllBefore(s, t + u) <==> AllBefore(s, t) && AllBefore(s, u)
    ensures AllBefore(t + u, s) <==> AllBefore(t, s) && AllBefore(u, s)
  {
    if AllBefore(s, t + u) {
      forall i, j | 0 <= i < |s| && 0 <= j < |u|
        ensures s[i] < u[j]
      {
        assert s[i] < (t + u)[|t| + j];
      }
      forall i, j | 0 <= i < |s| && 0 <= j < |t|
        ensures s[i] < t[j]
      {
        assert s[i] < (t + u)[j];
      }
    }
    if AllBefore(t + u, s) {
      forall i, j | 0 <= i < |u| && 0 <= j < |s|
        ensures u[i] < s[j]
      {
        assert (t + u)[|t| + i] < s[j];
      }
      forall i, j | 0 <= i < |t| && 0 <= j < |s|
        ensures t[i] < s[j]
      {
        assert (t + u)[i] < s[j];
      }
    }
  }

  /** Delivered items, then pending ones, are in order of arrival; every arrival is delivered,
      pending or dropped, and only one of these; and only the oldest are ever dropped. */
  ghost predicate Ordered(q: Queue) {
    && Increasing(q.delivered + q.pending) && Increasing(q.dropped) && AllBefore(q.dropped, q.pending)
    && multiset(q.delivered) + multiset(q.pending) + multiset(q.dropped) == multiset(Numbers(0, q.arrived))
  }

  /** Dropping the excess. */
  function Trimmed(q: Queue, max: nat): Queue {
    q.(pending := Newest(q.pending, max), dropped := q.dropped + Excess(q.pending, max))
  }

  lemma TrimKeeps(q: Queue, max: nat)
    requires Ordered(q)
    ensures Ordered(Trimmed(q, max)) && |Trimmed(q, max).pending| <= max
  {
    hide Increasing, AllBefore, Numbers;
    var cut, kept := Excess(q.pending, max), Newest(q.pending, max);
    assert q.pending == cut + kept;
    Joins(q.delivered, cut + kept);
    Joins(cut, kept);
    BeforeParts(q.delivered, cut, kept);
    Joins(q.delivered, kept);
    BeforeParts(q.dropped, cut, kept);
    Joins(q.dropped, cut);
    BeforeParts(kept, q.dropped, cut);
    assert q.dropped + [] == q.dropped;
  }

  lemma MoreNumbers(n: nat, count: nat)
    ensures Numbers(0, n + count) == Numbers(0, n) + Numbers(n, count)
    ensures Increasing(Numbers(n, count))
  {
  }

  lemma AllBelow(s: seq<nat>, n: nat, count: nat)
    requires multiset(s) <= multiset(Numbers(0, n))
    ensures AllBefore(s, Numbers(n, count))
  {
    forall i | 0 <= i < |s|
      ensures s[i] < n
    {
      assert s[i] in multiset(s);
      assert s[i] in multiset(Numbers(0, n));
      assert s[i] in Numbers(0, n);
    }
  }

  lemma MoreKeeps(q: Queue, count: nat)
    requires Ordered(q)
    ensures Ordered(q.(arrived := q.arrived + count, pending := q.pending + Numbers(q.arrived, count)))
  {
    hide Increasing, AllBefore, Numbers;
    var more := Numbers(q.arrived, count);
    MoreNumbers(q.arrived, count);
    assert (q.delivered + q.pending) + more == q.delivered + (q.pending + more);
    assert multiset(q.delivered + q.pending) == multiset(q.delivered) + multiset(q.pending);
    AllBelow(q.delivered + q.pending, q.arrived, count);
    AllBelow(q.dropped, q.arrived, count);
    Joins(q.delivered + q.pending, more);
    BeforeParts(q.dropped, q.pending, more);
  }

  lemma DeliverKeeps(q: Queue)
    requires Ordered(q)
    ensures Ordered(q.(delivered := q.delivered + q.pending, pending := []))
  {
    assert q.delivered + q.pending + [] == q.delivered + q.pending;
  }

  lemma EmittedKeeps(l: Limits, q: Queue, delivers: bool)
    requires Ordered(q)
    ensures Ordered(Emitted(l, q, delivers)) && |Emitted(l, q, delivers).pending| <= l.maxPending
  {
    hide Ordered;
    assert q.pending + [] == q.pending;
    if delivers {
      DeliverKeeps(q);
    } else {
      TrimKeeps(q, l.maxPending);
    }
  }

  lemma StepKeeps(l: Limits, q: Queue, s: Step)
    requires Ordered(q)
    ensures Ordered(Next(l, q, s)) && |Next(l, q, s).pending| <= l.maxPending
  {
    hide Ordered, Newest, Excess, Emitted;
    match s
    case Arrive(count, delivers) =>
      MoreKeeps(q, count);
      var q' := q.(arrived := q.arrived + count, pending := q.pending + Numbers(q.arrived, count));
      TrimKeeps(q', l.maxPending);
      EmittedKeeps(l, Queued(l, q, count), delivers);
    case Tick(delivers) => EmittedKeeps(l, q, delivers);
  }

  lemma {:induction false} RunKeeps(l: Limits, q: Queue, steps: seq<Step>)
    requires Ordered(q) && |q.pending| <= l.maxPending
    ensures Ordered(After(l, q, steps)) && |After(l, q, steps).pending| <= l.maxPending
    decreases |steps|
  {
    hide Ordered, Next;
    if steps != [] {
      StepKeeps(l, q, steps[0]);
      RunKeeps(l, Next(l, q, steps[0]), steps[1..]);
    }
  }

  /** Over all runs of the driver, in which a batch put back is the one just taken: what is
      delivered and then what is pending is an in-order subsequence of the arrivals, every arrival
      is delivered, pending or dropped exactly once, and the queue never exceeds its limit. */
  lemma Accounted(l: Limits, steps: seq<Step>)
    ensures Ordered(After(l, EMPTY, steps)) && |After(l, EMPTY, steps).pending| <= l.maxPending
  {
    assert Numbers(0, 0) == [];
    RunKeeps(l, EMPTY, steps);
  }

  /** When a batch goes out: an arrival releases everything that is kept once that makes a batch, and
      nothing before; a tick releases everything that is pending. What is not delivered then comes
      back. */
  lemma Releases(l: Limits, q: Queue, s: Step)
    requires |q.pending| <= l.maxPending
    ensures var waiting := q.pending + (if s.Arrive? then Numbers(q.arrived, s.count) else []);
      var kept := waiting[if |waiting| > l.maxPending then |waiting| - l.maxPending else 0..];
      var q', goes := Next(l, q, s), s.Tick? || |kept| >= l.maxBatch;
      if goes && s.delivers then q'.delivered == q.delivered + kept && q'.pending == []
      else q'.delivered == q.delivered && q'.pending == kept
  {
    assert q.pending + [] == q.pending;
    if s.Arrive? {
      var q' := Queued(l, q, s.count);
      assert q'.pending + [] == q'.pending;
    }
  }

  /** What one step drops from a queue within its limit: of the items waiting, the oldest beyond
      the limit. A batch that comes back fits again. */
  lemma StepDrops(l: Limits, q: Queue, s: Step)
    requires |q.pending| <= l.maxPending
    ensures var waiting := q.pending + (if s.Arrive? then Numbers(q.arrived, s.count) else []);
      var excess := if |waiting| > l.maxPending then |waiting| - l.maxPending else 0;
      Next(l, q, s).dropped == q.dropped + waiting[..excess]
  {
    assert q.pending + [] == q.pending && q.dropped + [] == q.dropped;
    if s.Arrive? {
      var q' := Queued(l, q, s.count);
      assert q'.pending + [] == q'.pending && q'.dropped + [] == q'.dropped;
    }
  }

  /** After any run, nothing is lost but the oldest items beyond the limit: an arrival drops as
      many items as are then waiting beyond it, from the front, and a tick drops none. */
  lemma OnlyExcessDropped(l: Limits, steps: seq<Step>, s: Step)
    ensures var q := After(l, EMPTY, steps);
      var waiting := q.pending + (if s.Arrive? then Numbers(q.arrived, s.count) else []);
      var excess := if s.Arrive? && |waiting| > l.maxPending then |waiting| - l.maxPending else 0;
      Next(l, q, s).dropped == q.dropped + waiting[..excess]
  {
    hide Numbers, Next, Ordered;
    Accounted(l, steps);
    StepDrops(l, After(l, EMPTY, steps), s);
  }

  /** The driver's loop body and the export it makes at once, on the queue in place: an arrival or
      a tick, and, if that releases a batch, its delivery or its return. */
  method Drive(l: Limits, b: BatchProcessor<nat>, ghost q: Queue, arrived: nat, s: Step)
      returns (delivered: seq<nat>, ghost q': Queue)
    requires b.maxBatch == l.maxBatch && b.maxPending == l.maxPending
    requires b.pending == q.pending && arrived == q.arrived
    modifies b
    ensures q' == Next(l, q, s) && b.pending == q'.pending && q'.delivered == q.delivered + delivered
  {
    var batch;
    match s {
      case Arrive(count, _) =>
        batch := b.Process(Numbers(arrived, count));
      case Tick(_) =>
        batch := b.Take();
    }
    q' := Next(l, q, s);
    delivered := [];
    assert batch + [] == batch && q.delivered + [] == q.delivered;
    if |batch| > 0 {
      if s.delivers {
        delivered := batch;
      } else {
        b.Requeue(batch);
      }
    }
  }
}
