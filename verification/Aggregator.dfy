/** The aggregator's per-series window state (`internal/aggregate/aggregator.go`), updated in
    place and proved against the fold of Aggregate over the samples of the open window. */
module Aggregator {
  import opened Words
  import opened Assembly
  import opened Samples
  import opened Aggregate

  function TimeOf(v: Value): I64 {
    match v
    case GaugeValue(ts, _) => ts
    case SumValue(_, _, ts, _) => ts
    case HistValue(_, h) => h.ts
  }

  /** The window has been open for its full length. */
  predicate Elapsed(start: Option<I64>, window: int, now: int) {
    start.Some? && now >= start.value + window
  }

  function StartOf(seen: seq<Sample>): Option<I64> {
    if seen == [] then None else Some(TimeOf(seen[0].value))
  }

  /** The record of a series: its first sample, and the fold of its samples. */
  ghost predicate Holds(seen: seq<Sample>, key: Bytes, first: Sample, st: Stats) {
    var ps := ForKey(seen, key);
    ps != [] && first == ps[0] && st == Folded(ps)
  }

  lemma HoldsSnoc(seen: seq<Sample>, p: Sample, key: Bytes, first: Sample, st: Stats)
    requires if key in KeysOf(seen) then Holds(seen, key, first, st)
      else key == AgentKey(p) && first == p && st == EMPTY_STATS
    ensures Holds(seen + [p], key, first, if key == AgentKey(p) then Updated(st, p.value) else st)
  {
    hide AgentKey, ForKey, Folded, Updated;
    ForKeySnoc(seen, p, key);
    FoldedSnoc(ForKey(seen, key), p);
    ForKeyNonempty(seen, key);
    NoFold();
  }

  lemma NoFold()
    ensures Folded([]) == EMPTY_STATS
  {
  }

  class Aggregator {
    const window: int
    var windowStart: Option<I64>
    var series: map<Bytes, SeriesStats>
    var order: seq<Bytes>
    ghost var seen: seq<Sample>

    constructor (window: int)
      ensures Valid() && this.window == window && seen == [] && series == map[]
    {
      this.window := window;
      windowStart, series, order, seen := None, map[], [], [];
      new;
      NothingSeen();
    }

    lemma NothingSeen()
      ensures FirstSeen(KeysOf([])) == []
    {
    }

    /** No two keys share a record. */
    ghost predicate Separate()
      reads this
    {
      forall j, k :: j in series && k in series && j != k ==> series[j] != series[k]
    }

    /** `order` lists the keys, each once, in the order of first arrival. */
    ghost predicate Valid()
      reads this, series.Values
    {
      && Separate() && order == FirstSeen(KeysOf(seen)) && windowStart == StartOf(seen)
      && (forall k :: k in series <==> k in KeysOf(seen))
      && (forall k :: k in series ==> Holds(seen, k, series[k].first, series[k].View()))
    }

    method Due(now: int) returns (due: bool)
      requires Valid()
      ensures due == Elapsed(StartOf(seen), window, now)
    {
      return windowStart.Some? && now >= windowStart.value + window;
    }

    method Empty() returns (empty: bool)
      requires Valid()
      ensures empty <==> seen == []
    {
      if seen != [] {
        assert KeysOf(seen)[0] in series;
        assert |series.Keys| > 0;
      } else {
        assert series.Keys == {};
      }
      return |series| == 0;
    }

    method TouchWindow(ts: I64)
      modifies this`windowStart
      ensures windowStart == if old(windowStart).None? then Some(ts) else old(windowStart)
    {
      if windowStart.None? {
        windowStart := Some(ts);
      }
    }

    /** The record of a series, created on first sight. */
    method SeriesFor(p: Sample) returns (st: SeriesStats)
      requires Separate()
      modifies this`series, this`order
      ensures Separate() && series == old(series)[AgentKey(p) := st]
      ensures order == if AgentKey(p) in old(series) then old(order) else old(order) + [AgentKey(p)]
      ensures AgentKey(p) in old(series) ==> st == old(series)[AgentKey(p)]
      ensures AgentKey(p) !in old(series) ==> fresh(st) && st.first == p && st.View() == EMPTY_STATS
    {
      var key := AgentKey(p);
      if key in series {
        st := series[key];
        assert series == series[key := st];
      } else {
        st := new SeriesStats(p);
        series := series[key := st];
        order := order + [key];
      }
    }

    /** All records are those of the window with one more sample, but for the update that the
        record of its series still needs. */
    ghost predicate Ready(p: Sample)
      reads this, series.Values
    {
      && Separate() && order == FirstSeen(KeysOf(seen + [p])) && windowStart == StartOf(seen + [p])
      && (forall k :: k in series <==> k in KeysOf(seen + [p]))
      && (forall k :: k in series ==>
            Holds(seen + [p], k, series[k].first,
              if k == AgentKey(p) then Updated(series[k].View(), p.value) else series[k].View()))
    }

    /** Opens the window and the series of a sample, where they are not open yet. */
    method Prepare(p: Sample) returns (st: SeriesStats)
      requires Valid()
      modifies this`windowStart, this`series, this`order
      ensures Ready(p) && AgentKey(p) in series && st == series[AgentKey(p)]
      ensures fresh(series.Values - old(series.Values))
    {
      hide AgentKey, FirstSeen, Updated, Holds;
      KeysSnoc(seen, p);
      FirstSeenSnoc(KeysOf(seen), AgentKey(p));
      TouchWindow(TimeOf(p.value));
      st := SeriesFor(p);
      forall k | k in series
        ensures Holds(seen + [p], k, series[k].first,
          if k == AgentKey(p) then Updated(series[k].View(), p.value) else series[k].View())
      {
        HoldsSnoc(seen, p, k, series[k].first, series[k].View());
      }
    }

    /** Accumulates one point. */
    method AddSample(p: Sample)
      requires Valid()
      modifies this, series.Values
      ensures Valid() && seen == old(seen) + [p]
      ensures fresh(series.Values - old(series.Values))
    {
      hide AgentKey, FirstSeen, Updated, Holds, KeysOf, StartOf, SeriesStats.View;
      var st := Prepare(p);
      label Prepared:
      st.Update(p.value);
      seen := seen + [p];
      assert forall k :: k in series && k != AgentKey(p) ==> series[k].View() == old@Prepared(series[k].View());
    }

    /** Accumulates all points of a metric. */
    method Add(scope: Bytes, m: RawMetric)
      requires Valid()
      modifies this, series.Values
      ensures Valid() && seen == old(seen) + SamplesIn(scope, m)
      ensures fresh(series.Values - old(series.Values))
    {
      hide SamplesIn;
      var ps := SamplesIn(scope, m);
      for i := 0 to |ps|
        invariant Valid() && seen == old(seen) + ps[..i]
        invariant fresh(series.Values - old(series.Values))
      {
        TakeStep(ps, i);
        ConcatAssoc(old(seen), ps[..i], [ps[i]]);
        AddSample(ps[i]);
      }
      TakeAll(ps);
    }

    /** Emits the results of the window and starts over. */
    method Flush() returns (out: seq<RawItem>)
      requires Valid()
      modifies this
      ensures Valid() && seen == [] && series == map[]
      ensures out == Results(old(seen))
    {
      hide FirstSeen, Summary, Folded, ForKey, AgentKey;
      out := [];
      for i := 0 to |order|
        modifies {}
        invariant out == Results(seen)[..i]
      {
        assert order[i] in order;
        assert Holds(seen, order[i], series[order[i]].first, series[order[i]].View());
        var st := series[order[i]];
        var m := st.Build();
        TakeStep(Results(seen), i);
        ForKeyNonempty(seen, order[i]);
        out := out + [Item(st.first.scope, m)];
      }
      TakeAll(Results(seen));
      series, order, windowStart, seen := map[], [], None, [];
      NothingSeen();
    }
  }
}
