/** Downsampling does not change the counters the server finally holds, over all runs of the
    sampling stage. */
module Downsampling {
  import opened Words
  import opened Assembly
  import opened Samples
  import opened Aggregate
  import opened AggregateProperties
  import opened Accumulate
  import opened Sampling

  // ----- shapes -----

  /** The summary of a series has the shape of its samples. */
  lemma SummaryShape(s: Schema, ps: seq<Sample>)
    requires ps != [] && AllFit(s, ps) && OneSeries(ps)
    ensures Bounded(s, Summary(ps[0], Folded(ps)))
  {
    hide ServerKey, AgentKey, Folded, CleanLabels;
    forall i | 0 <= i < |ps|
      ensures ServerKey(ps[i]) == ServerKey(ps[0])
    {
      SameServerKey(ps[i], ps[0]);
    }
    SummaryKey(ps[0], Folded(ps));
    if ps[0].value.HistValue? {
      var h := ps[0].value.hist;
      assert AllHists(ps, h.bounds, |h.buckets|);
      HistFold(ps, h.bounds, |h.buckets|, HistCount);
    }
  }

  lemma BoundedSnoc(s: Schema, ps: seq<Sample>, p: Sample)
    requires AllBounded(s, ps) && Bounded(s, p)
    ensures AllBounded(s, ps + [p])
  {
  }

  lemma {:induction false} ResultShapes(s: Schema, ps: seq<Sample>, m: nat)
    requires AllFit(s, ps) && m <= |Results(ps)|
    ensures AllBounded(s, SamplesOf(Emitted(Results(ps)[..m])))
    decreases m
  {
    hide AgentKey, FirstSeen, Folded, Summary, ForKey, Fits, MetricOf, SamplesIn, Bounded;
    if m == 0 {
      assert Emitted(Results(ps)[..0]) == [];
    } else {
      var n := m - 1;
      ResultShapes(s, ps, n);
      var keys := FirstSeen(KeysOf(ps));
      assert keys[n] in keys;
      SeriesOf(s, ps, keys[n]);
      SummaryShape(s, ForKey(ps, keys[n]));
      OneResult(ps, n);
      BoundedSnoc(s, SamplesOf(Emitted(Results(ps)[..n])), SummaryOf(ps, keys[n]));
    }
  }

  /** Closing a window. */
  lemma FlushSound(s: Schema, ps: seq<Sample>, key: Bytes, c: Counter)
    requires AllFit(s, ps)
    ensures var out := SamplesOf(Emitted(Results(ps)));
      Total(out, key, c) == Total(ps, key, c) && AllBounded(s, out)
  {
    hide Results, Bounded, Total;
    FlushConserves(s, ps, key, c);
    ResultShapes(s, ps, |Results(ps)|);
    TakeAll(Results(ps));
  }

  // ----- one call -----

  lemma FitsBounded(s: Schema, ps: seq<Sample>)
    requires AllFit(s, ps)
    ensures AllBounded(s, ps)
  {
  }

  lemma ConcatSound(s: Schema, xs: seq<Option<RawItem>>, ys: seq<Option<RawItem>>, key: Bytes, c: Counter)
    requires AllBounded(s, SamplesOf(xs)) && AllBounded(s, SamplesOf(ys))
    ensures AllBounded(s, SamplesOf(xs + ys))
    ensures Total(SamplesOf(xs + ys), key, c) == Total(SamplesOf(xs), key, c) + Total(SamplesOf(ys), key, c)
  {
    hide SamplesOf, Total, Bounded;
    SamplesConcat(xs, ys);
    TotalConcat(SamplesOf(xs), SamplesOf(ys), key, c);
  }

  /** Some items go out and some samples are held: together they count for `total`. */
  ghost predicate Accounts(
      s: Schema, out: seq<Option<RawItem>>, held: seq<Sample>, key: Bytes, c: Counter, total: real)
  {
    && AllFit(s, held) && AllBounded(s, SamplesOf(out))
    && Total(SamplesOf(out), key, c) + Total(held, key, c) == total
  }

  /** What was held and what comes in, together. */
  function Counts(held: seq<Sample>, more: seq<Sample>, key: Bytes, c: Counter): real {
    Total(held, key, c) + Total(more, key, c)
  }

  /** Passing through drains the window. */
  lemma DrainConserves(s: Schema, held: seq<Sample>, batch: seq<Option<RawItem>>, key: Bytes, c: Counter)
    requires AllFit(s, held) && AllFit(s, SamplesOf(batch))
    ensures Accounts(s, Emitted(Results(held)) + batch, [], key, c, Counts(held, SamplesOf(batch), key, c))
  {
    hide Results, Emitted, SamplesOf, Total, Fits, Bounded;
    NoSamples(key, c);
    FlushSound(s, held, key, c);
    FitsBounded(s, SamplesOf(batch));
    ConcatSound(s, Emitted(Results(held)), batch, key, c);
  }

  /** Another window length flushes the window first. */
  lemma SwitchConserves(s: Schema, st: State, w: int, key: Bytes, c: Counter)
    requires AllFit(s, st.seen)
    ensures Accounts(s, Released(st, w), Kept(st, w), key, c, Total(st.seen, key, c))
  {
    hide Results, Emitted, SamplesOf, Total, Fits, Bounded;
    NoSamples(key, c);
    FlushSound(s, st.seen, key, c);
  }

  lemma FitJoin(s: Schema, xs: seq<Sample>, ys: seq<Sample>)
    requires AllFit(s, xs) && AllFit(s, ys)
    ensures AllFit(s, xs + ys)
  {
    hide Fits;
  }

  /** Samples are added to the window. */
  lemma AddConserves(
      s: Schema, out: seq<Option<RawItem>>, held: seq<Sample>, more: seq<Sample>, key: Bytes, c: Counter, total: real)
    requires Accounts(s, out, held, key, c, total) && AllFit(s, more)
    ensures Accounts(s, out, held + more, key, c, total + Total(more, key, c))
  {
    hide SamplesOf, Total, AllFit, AllBounded;
    FitJoin(s, held, more);
    TotalConcat(held, more, key, c);
  }

  /** The window is flushed after what went out before. */
  lemma CloseConserves(s: Schema, out: seq<Option<RawItem>>, held: seq<Sample>, key: Bytes, c: Counter, total: real)
    requires Accounts(s, out, held, key, c, total)
    ensures Accounts(s, out + Emitted(Results(held)), [], key, c, total)
  {
    hide Results, Emitted, SamplesOf, Total, Fits, Bounded;
    NoSamples(key, c);
    FlushSound(s, held, key, c);
    ConcatSound(s, out, Emitted(Results(held)), key, c);
  }

  /** Aggregating: the window is switched if needed, and filled. */
  lemma FillConserves(s: Schema, st: State, w: int, more: seq<Sample>, key: Bytes, c: Counter)
    requires AllFit(s, st.seen) && AllFit(s, more)
    ensures Accounts(s, Released(st, w), Kept(st, w) + more, key, c, Counts(st.seen, more, key, c))
  {
    hide Results, Emitted, SamplesOf, Total, AllFit, Accounts, Kept, Released;
    SwitchConserves(s, st, w, key, c);
    AddConserves(s, Released(st, w), Kept(st, w), more, key, c, Total(st.seen, key, c));
  }

  /** And then it is flushed, or not. */
  lemma WindowConserves(s: Schema, st: State, w: int, more: seq<Sample>, key: Bytes, c: Counter)
    requires AllFit(s, st.seen) && AllFit(s, more)
    ensures var seen, out, total := Kept(st, w) + more, Released(st, w), Counts(st.seen, more, key, c);
      Accounts(s, out, seen, key, c, total) && Accounts(s, out + Emitted(Results(seen)), [], key, c, total)
  {
    hide Results, Emitted, SamplesOf, Total, AllFit, Accounts, Kept, Released, Counts;
    FillConserves(s, st, w, more, key, c);
    CloseConserves(s, Released(st, w), Kept(st, w) + more, key, c, Counts(st.seen, more, key, c));
  }

  /** What goes out and what is still held are together what came in and what was held. */
  lemma CallConserves(s: Schema, cfg: Config, st: State, batch: seq<Option<RawItem>>, now: int, degraded: bool,
                      key: Bytes, c: Counter)
    requires AllFit(s, st.seen) && AllFit(s, SamplesOf(batch))
    ensures var (st', out) := Processed(cfg, st, batch, now, degraded);
      Accounts(s, out, st'.seen, key, c, Counts(st.seen, SamplesOf(batch), key, c))
  {
    hide Processed, Results, Emitted, SamplesOf, Total, AllFit, Accounts, Kept, Released, EffectiveWindow;
    hide Counts;
    var w := EffectiveWindow(cfg, degraded);
    ProcessedCases(cfg, st, batch, now, degraded);
    if w == 0 {
      DrainConserves(s, st.seen, batch, key, c);
    } else {
      WindowConserves(s, st, w, SamplesOf(batch), key, c);
    }
  }

  /** A call passes everything through, or fills the window, or fills it and flushes it. */
  lemma ProcessedCases(cfg: Config, st: State, batch: seq<Option<RawItem>>, now: int, degraded: bool)
    ensures var w, (st', out) := EffectiveWindow(cfg, degraded), Processed(cfg, st, batch, now, degraded);
      var seen := Kept(st, w) + SamplesOf(batch);
      if w == 0 then st'.seen == [] && out == Emitted(Results(st.seen)) + batch
      else (st'.seen == seen && out == Released(st, w))
           || (st'.seen == [] && out == Released(st, w) + Emitted(Results(seen)))
  {
    hide Results, Emitted, SamplesOf, Kept, Released, EffectiveWindow, A.Elapsed, A.StartOf;
  }

  lemma NoSamples(key: Bytes, c: Counter)
    ensures SamplesOf([]) == [] && Total([], key, c) == 0.0
  {
  }

  // ----- runs -----

  /** A call of the sampling stage, at any time and under any pressure, or a forced flush. */
  datatype Call =
    | Batch(items: seq<Option<RawItem>>, now: int, degraded: bool)
    | Force

  /** The state after some calls, and all that they put out. */
  function After(cfg: Config, st: State, calls: seq<Call>): (State, seq<Option<RawItem>>)
    decreases |calls|
  {
    if calls == [] then (st, [])
    else
      var (st', out) := Called(cfg, st, calls[0]);
      var (end, more) := After(cfg, st', calls[1..]);
      (end, out + more)
  }

  function Called(cfg: Config, st: State, call: Call): (State, seq<Option<RawItem>>) {
    match call
    case Batch(items, now, degraded) => Processed(cfg, st, items, now, degraded)
    case Force => (st.(force := true), [])
  }

  function Raw(calls: seq<Call>): seq<Sample> {
    if calls == [] then [] else (if calls[0].Batch? then SamplesOf(calls[0].items) else []) + Raw(calls[1..])
  }

  lemma FitParts(s: Schema, xs: seq<Sample>, ys: seq<Sample>)
    requires AllFit(s, xs + ys)
    ensures AllFit(s, xs) && AllFit(s, ys)
  {
    hide Fits;
    assert forall i :: 0 <= i < |xs| ==> (xs + ys)[i] == xs[i];
    assert forall i :: 0 <= i < |ys| ==> (xs + ys)[|xs| + i] == ys[i];
  }

  lemma {:induction false} RunConserves(s: Schema, cfg: Config, st: State, calls: seq<Call>, key: Bytes, c: Counter)
    requires AllFit(s, st.seen) && AllFit(s, Raw(calls))
    ensures var (end, out) := After(cfg, st, calls);
      && AllBounded(s, SamplesOf(out))
      && Total(SamplesOf(out), key, c) + Total(end.seen, key, c) == Total(st.seen, key, c) + Total(Raw(calls), key, c)
    decreases |calls|
  {
    hide Processed, SamplesOf, Total, Fits, Bounded;
    NoSamples(key, c);
    if calls != [] {
      var first := if calls[0].Batch? then SamplesOf(calls[0].items) else [];
      var (st', out) := Called(cfg, st, calls[0]);
      FitParts(s, first, Raw(calls[1..]));
      TotalConcat(first, Raw(calls[1..]), key, c);
      if calls[0].Batch? {
        CallConserves(s, cfg, st, calls[0].items, calls[0].now, calls[0].degraded, key, c);
      }
      RunConserves(s, cfg, st', calls[1..], key, c);
      ConcatSound(s, out, After(cfg, st', calls[1..]).1, key, c);
    }
  }

  /** For any batches, any clock, any mode, any switching between windows and passing through,
      and any forced flushes: what the
      server has accumulated from the emitted points, plus what the aggregator still holds, is
      the total of the raw points, for every counter: delta sums, and counts, sums and single
      buckets of histograms. */
  lemma ServerKeepsCounters(s: Schema, cfg: Config, calls: seq<Call>, key: Bytes, c: Counter)
    requires AllFit(s, Raw(calls))
    ensures var (end, out) := After(cfg, START, calls);
      Counted(AbsorbedAll(NO_TOTALS, SamplesOf(out)), key, c) + Total(end.seen, key, c) == Total(Raw(calls), key, c)
  {
    hide AbsorbedAll, After, SamplesOf, Raw, Fits, Counted;
    var (_, out) := After(cfg, START, calls);
    RunConserves(s, cfg, START, calls, key, c);
    CountersAreTotals(s, SamplesOf(out), key, c);
  }
}
