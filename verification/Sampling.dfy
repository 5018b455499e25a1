/** The sampling stage (`internal/pipeline/sampling.go`): passing batches through, or
    aggregating them over windows that the mode and the degradation flag choose. */
module Sampling {
  import opened Words
  import opened Samples
  import opened Aggregate
  import opened AggregateProperties
  import A = Aggregator

  datatype Mode = Off | Always | Auto

  datatype Config = Config(mode: Mode, summaryWindow: int, degradedWindow: int)

  /** The window in use, if any, the samples it holds, and whether the next call must flush. */
  datatype State = State(window: Option<int>, seen: seq<Sample>, force: bool)

  const START := State(None, [], false)

  /** The window to aggregate over, or 0 for passing through. */
  function EffectiveWindow(c: Config, degraded: bool): int {
    match c.mode
    case Off => 0
    case Always => c.summaryWindow
    case Auto => if degraded then c.degradedWindow else 0
  }

  /** A window of another length is flushed before it is used. */
  predicate Switched(st: State, w: int) {
    st.window.Some? && st.window.value != w
  }

  function Kept(st: State, w: int): seq<Sample> {
    if Switched(st, w) then [] else st.seen
  }

  function Released(st: State, w: int): seq<Option<RawItem>> {
    if Switched(st, w) then Emitted(Results(st.seen)) else []
  }

  /** What one call does to the state, and what it puts out. */
  function Processed(c: Config, st: State, batch: seq<Option<RawItem>>, now: int, degraded: bool)
      : (State, seq<Option<RawItem>>) {
    var w := EffectiveWindow(c, degraded);
    if w == 0 then (st.(seen := []), Emitted(Results(st.seen)) + batch)
    else
      var seen, out := Kept(st, w) + SamplesOf(batch), Released(st, w);
      var due := A.Elapsed(A.StartOf(seen), w, now);
      if due || st.force then (State(Some(w), [], if due then st.force else false), out + Emitted(Results(seen)))
      else (State(Some(w), seen, false), out)
  }

  /** The mode lets batches through: off, or automatic without pressure, or with no window. */
  predicate LetsThrough(c: Config, degraded: bool) {
    || c.mode.Off? || (c.mode.Always? && c.summaryWindow == 0)
    || (c.mode.Auto? && (degraded ==> c.degradedWindow == 0))
  }

  /** Batches pass through, behind what an earlier mode has left in the window; nothing is held. */
  lemma PassesThrough(c: Config, st: State, batch: seq<Option<RawItem>>, now: int, degraded: bool)
    requires LetsThrough(c, degraded)
    ensures Processed(c, st, batch, now, degraded) == (st.(seen := []), Emitted(Results(st.seen)) + batch)
  {
  }

  /** The window length of a mode that aggregates: the summary window always, the degraded one
      under pressure. */
  predicate Aggregates(c: Config, degraded: bool, w: int) {
    w != 0 && ((c.mode.Always? && w == c.summaryWindow) || (c.mode.Auto? && degraded && w == c.degradedWindow))
  }

  /** The time of a sample: that of the data point it came from. */
  lemma TimeOfPoint(p: Sample)
    ensures A.TimeOf(p.value) == match MetricOf(p).data
      case Gauge(ps) => ps[0].ts
      case Sum(_, _, ps) => ps[0].ts
      case Histogram(_, hs) => hs[0].ts
  {
  }

  /** Aggregating: a window of the mode's length is open afterwards. What a window of another
      length held goes out first; the samples of the window go out exactly when the time has
      reached that of the first of them plus the length, or when a flush was forced, and stay
      otherwise. A forced flush is used up unless the window was due anyway. */
  lemma EmitsWhenDue(c: Config, st: State, batch: seq<Option<RawItem>>, now: int, degraded: bool, w: int)
    requires Aggregates(c, degraded, w)
    ensures var (st', out) := Processed(c, st, batch, now, degraded);
      var goesOn := st.window.None? || st.window.value == w;
      var all := (if goesOn then st.seen else []) + SamplesOf(batch);
      var before := if goesOn then [] else Emitted(Results(st.seen));
      var due := all != [] && now >= A.TimeOf(all[0].value) + w;
      && st'.window == Some(w)
      && (if due || st.force then st'.seen == [] && out == before + Emitted(Results(all))
          else st'.seen == all && out == before)
      && st'.force == (st.force && due)
  {
    hide Results, Emitted, SamplesOf, A.TimeOf, EffectiveWindow, Kept, Released, A.Elapsed, A.StartOf;
    WindowUsed(c, st, degraded, w);
    WindowDue(Kept(st, w) + SamplesOf(batch), w, now);
  }

  lemma WindowUsed(c: Config, st: State, degraded: bool, w: int)
    requires Aggregates(c, degraded, w)
    ensures EffectiveWindow(c, degraded) == w
    ensures if st.window.None? || st.window.value == w then Kept(st, w) == st.seen && Released(st, w) == []
            else Kept(st, w) == [] && Released(st, w) == Emitted(Results(st.seen))
  {
    hide Results, Emitted;
  }

  lemma WindowDue(all: seq<Sample>, w: int, now: int)
    ensures A.Elapsed(A.StartOf(all), w, now) <==> all != [] && now >= A.TimeOf(all[0].value) + w
  {
    hide A.TimeOf;
  }

  class SamplingProcessor {
    const config: Config
    var force: bool
    var agg: A.Aggregator?

    constructor (config: Config)
      ensures Valid() && View() == START && this.config == config && agg == null
    {
      this.config, force, agg := config, false, null;
    }

    ghost predicate Valid()
      reads this, agg, if agg == null then {} else agg.series.Values
    {
      agg != null ==> agg.Valid()
    }

    ghost function View(): State
      reads this, agg
    {
      if agg == null then State(None, [], force) else State(Some(agg.window), agg.seen, force)
    }

    /** Makes the next aggregating call emit its window, elapsed or not. */
    method ForceFlush()
      requires Valid()
      modifies this`force
      ensures Valid() && View() == old(View()).(force := true)
    {
      force := true;
    }

    method Flush() returns (out: seq<Option<RawItem>>)
      requires Valid() && agg != null
      modifies agg
      ensures Valid() && agg.seen == [] && agg.series == map[]
      ensures out == Emitted(Results(old(agg.seen)))
    {
      var results := agg.Flush();
      out := [];
      for i := 0 to |results|
        modifies {}
        invariant out == Emitted(results)[..i]
      {
        TakeStep(Emitted(results), i);
        out := out + [Some(results[i])];
      }
      TakeAll(Emitted(results));
    }

    /** Passing through: drains what a previous mode has left in the window. */
    method Drain() returns (out: seq<Option<RawItem>>)
      requires Valid()
      modifies this`agg, agg
      ensures Valid() && View() == old(View()).(seen := []) && out == Emitted(Results(old(View()).seen))
    {
      hide Results, Emitted;
      NothingEmitted();
      out := [];
      if agg != null {
        var empty := agg.Empty();
        if !empty {
          out := Flush();
        }
      }
    }

    /** Makes the window one of the given length, emitting what a window of another length holds. */
    method Switch(window: int) returns (out: seq<Option<RawItem>>)
      requires Valid()
      modifies this`agg, agg
      ensures Valid() && agg != null && agg.window == window && force == old(force)
      ensures var st := old(View());
        if st.window == Some(window) then
          agg == old(agg) && agg.series == old(agg.series) && agg.seen == st.seen && out == []
        else
          fresh(agg) && agg.series == map[] && agg.seen == [] && out == Emitted(Results(st.seen))
    {
      hide Results, Emitted;
      NothingEmitted();
      out := [];
      if agg != null && agg.window != window {
        out := Flush();
        agg := null;
      }
      if agg == null {
        agg := new A.Aggregator(window);
      }
    }

    /** Emits the window if it has elapsed or a flush is forced. */
    method Close(now: int) returns (out: seq<Option<RawItem>>)
      requires Valid() && agg != null
      modifies this`force, agg
      ensures Valid() && agg == old(agg)
      ensures var due := A.Elapsed(A.StartOf(old(agg.seen)), agg.window, now);
        && force == (if due then old(force) else false)
        && (due || old(force) ==> agg.seen == [] && out == Emitted(Results(old(agg.seen))))
        && (!due && !old(force) ==> agg.seen == old(agg.seen) && out == [])
    {
      hide Results, Emitted, A.Elapsed, A.StartOf;
      out := [];
      var due := agg.Due(now);
      if due {
        out := Flush();
      } else if force {
        force := false;
        out := Flush();
      }
    }

    method Process(batch: seq<Option<RawItem>>, now: int, degraded: bool) returns (out: seq<Option<RawItem>>)
      requires Valid()
      modifies this, agg, if agg == null then {} else agg.series.Values
      ensures Valid()
      ensures (View(), out) == Processed(config, old(View()), batch, now, degraded)
    {
      hide Results, Emitted, A.Elapsed, A.StartOf, SamplesOf, Valid, A.Aggregator.Valid;
      NothingEmitted();
      var window := EffectiveWindow(config, degraded);
      if window == 0 {
        out := Drain();
        return out + batch;
      }
      out := Switch(window);
      AddAll(batch);
      var closed := Close(now);
      assert [] + closed == closed && out + [] == out;
      out := out + closed;
    }

    /** Adds the items of a batch, skipping empty slots. */
    method AddAll(batch: seq<Option<RawItem>>)
      requires Valid() && agg != null
      modifies agg, agg.series.Values
      ensures Valid() && agg.seen == old(agg.seen) + SamplesOf(batch)
      ensures fresh(agg.series.Values - old(agg.series.Values))
    {
      hide SamplesIn, A.Aggregator.Valid;
      ghost var start := agg.seen;
      assert start + [] == start;
      for i := 0 to |batch|
        invariant agg.Valid() && agg.seen == start + SamplesOf(batch[..i])
        invariant fresh(agg.series.Values - old(agg.series.Values))
      {
        SamplesStep(batch, i);
        if batch[i].Some? {
          var it := batch[i].value;
          ConcatAssoc(start, SamplesOf(batch[..i]), SamplesIn(it.scope, it.metric));
          agg.Add(it.scope, it.metric);
        }
      }
      TakeAll(batch);
    }
  }

  lemma NothingEmitted()
    ensures Emitted(Results([])) == []
  {
  }

  lemma SamplesStep(batch: seq<Option<RawItem>>, i: nat)
    requires i < |batch|
    ensures SamplesOf(batch[..i + 1]) ==
      if batch[i].Some? then SamplesOf(batch[..i]) + SamplesIn(batch[i].value.scope, batch[i].value.metric)
      else SamplesOf(batch[..i])
  {
    hide SamplesIn;
    TakeStep(batch, i);
    assert SamplesOf(batch[..i]) + [] == SamplesOf(batch[..i]);
  }
}
