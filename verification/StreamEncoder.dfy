/** `StreamEncoder` (`internal/transport/codec/stream.go`): per-series states updated in
    place while a frame is appended to a buffer. */
module FrameEncoder {
  import opened Words
  import opened BitStream
  import opened Gorilla
  import opened PointStream
  import opened ByteCodec
  import opened Dictionary
  import opened Labels
  import opened StreamFormat

  /** `flatten`, with the index that finds a series by its key. */
  method FlattenRequest(req: WireRequest) returns (out: seq<Series>)
    ensures out == Flatten(req)
  {
    hide Pushed, MetricAtoms, MetricsAtoms, ScopesAtoms, Indexed;
    out := [];
    var idx: map<Bytes, nat> := map[];
    ghost var done: seq<Atom> := [];
    NothingIndexed();
    for i := 0 to |req.scopes|
      invariant done == ScopesAtoms(req.scopes[..i]) && Indexed(out, idx, done)
    {
      var sm := req.scopes[i];
      ghost var before := done;
      for j := 0 to |sm.metrics|
        invariant done == before + MetricsAtoms(sm, sm.metrics[..j]) && Indexed(out, idx, done)
      {
        var atoms := MetricAtoms(sm, sm.metrics[j]);
        ghost var start := done;
        for k := 0 to |atoms|
          invariant done == start + atoms[..k] && Indexed(out, idx, done)
        {
          out, idx := PushIndexed(out, idx, done, atoms[k]);
          done := done + [atoms[k]];
          TakeStep(atoms, k);
          ConcatAssoc(start, atoms[..k], [atoms[k]]);
        }
        TakeAll(atoms);
        MetricsAtomsStep(sm, sm.metrics, j);
        ConcatAssoc(before, MetricsAtoms(sm, sm.metrics[..j]), atoms);
      }
      TakeAll(sm.metrics);
      ScopesAtomsStep(req.scopes, i);
    }
    TakeAll(req.scopes);
    IndexedOut(out, idx, done);
  }

  lemma NothingIndexed()
    ensures Indexed([], map[], []) && ScopesAtoms([]) == []
    ensures forall sm :: MetricsAtoms(sm, []) == []
  {
  }

  lemma MetricsAtomsStep(sm: WireScope, ms: seq<WireMetric>, j: nat)
    requires j < |ms|
    ensures MetricsAtoms(sm, ms[..j + 1]) == MetricsAtoms(sm, ms[..j]) + MetricAtoms(sm, ms[j])
  {
    TakeStep(ms, j);
  }

  lemma ScopesAtomsStep(sms: seq<WireScope>, i: nat)
    requires i < |sms|
    ensures ScopesAtoms(sms[..i + 1]) == ScopesAtoms(sms[..i]) + MetricsAtoms(sms[i], sms[i].metrics)
  {
    TakeStep(sms, i);
  }

  lemma IndexedOut(out: seq<Series>, idx: map<Bytes, nat>, done: seq<Atom>)
    requires Indexed(out, idx, done)
    ensures out == PushAll(done)
  {
  }

  /** `out` holds the series of the atoms seen so far and `idx` finds them by key. */
  ghost predicate Indexed(out: seq<Series>, idx: map<Bytes, nat>, done: seq<Atom>) {
    && out == PushAll(done)
    && (forall k :: k in idx <==> k in Keys(out))
    && (forall k :: k in idx ==> idx[k] == IndexOf(Keys(out), k))
  }

  method PushIndexed(out: seq<Series>, idx: map<Bytes, nat>, ghost done: seq<Atom>, a: Atom)
    returns (out': seq<Series>, idx': map<Bytes, nat>)
    requires Indexed(out, idx, done)
    ensures Indexed(out', idx', done + [a])
  {
    assert (done + [a])[..|done|] == done;
    var key := a.hdr.Key();
    if key in idx {
      var i := idx[key];
      out' := out[i := out[i].(points := out[i].points + [a.point])];
      idx' := idx;
      assert Keys(out') == Keys(out);
    } else {
      out' := out + [Series(a.hdr, [a.point])];
      idx' := idx[key := |out|];
      KeysAppend(out, Series(a.hdr, [a.point]));
      LastIndex(Keys(out), key);
      forall k | k in idx
        ensures IndexOf(Keys(out'), k) == idx[k]
      {
        IndexOfExtend(Keys(out), [key], k);
      }
    }
  }

  lemma KeysAppend(out: seq<Series>, s: Series)
    ensures Keys(out + [s]) == Keys(out) + [s.hdr.Key()]
  {
  }

  class StreamEncoder {
    var series: map<Bytes, SeriesState>

    /** No two keys share a state record. */
    ghost predicate Separate()
      reads this
    {
      forall j, k :: j in series && k in series && j != k ==> series[j] != series[k]
    }

    ghost function View(): Streams
      reads this, series.Values
    {
      map k | k in series :: series[k].View()
    }

    ghost predicate Valid()
      reads this, series.Values
    {
      Separate() && AllValid(View())
    }

    constructor ()
      ensures Valid() && View() == map[] && series == map[]
    {
      series := map[];
    }

    /** Drops all states: the next point of every series is a keyframe. */
    method Reset()
      modifies this
      ensures Valid() && View() == map[] && series == map[]
    {
      series := map[];
    }

    lemma ViewValid()
      requires Valid()
      ensures AllValid(View())
    {
    }

    /** When only one key's record has changed, so has only that key's state. */
    lemma UpdatedView(before: Streams, key: Bytes)
      requires key in series && series.Keys == before.Keys + {key}
      requires forall k :: k in series && k != key ==> series[k].View() == before[k]
      ensures View() == before[key := series[key].View()]
      ensures AllValid(before) && series[key].View().Valid() ==> AllValid(View())
    {
    }

    lemma SizeOfView()
      ensures |View()| == |series|
    {
      assert View().Keys == series.Keys;
    }

    /** The state of a series, opened fresh on first sight. */
    method StateFor(key: Bytes) returns (st: SeriesState)
      requires Valid()
      modifies this
      ensures Valid()
      ensures series == old(series)[key := st]
      ensures st.View() == StateAt(old(View()), key)
      ensures key in old(series) ==> st == old(series)[key]
      ensures key !in old(series) ==> fresh(st)
      ensures fresh(series.Values - old(series.Values))
    {
      if key in series {
        st := series[key];
        assert series == series[key := st];
      } else {
        ghost var before := View();
        st := new SeriesState();
        series := series[key := st];
        assert View() == before[key := FRESH];
      }
    }

    /** Appends the points of a gauge or sum series. */
    method EncodeNumberSeries(buf: Buffer, s: Series)
      requires Valid() && s.points != [] && s.hdr.kind != HISTOGRAM
      modifies this, series.Values, buf
      ensures Valid() && View() == AfterSeries(old(View()), s)
      ensures buf.data == old(buf.data) + PointsBytes(old(View()), s)
      ensures fresh(series.Values - old(series.Values))
    {
      hide NumberBytes, NumberState, NumberPoints, SeriesKey;
      StartValid(View(), s);
      SizeOfView();
      if |series| < MAX_SERIES {
        EncodeFrom(buf, s.hdr.Key(), NumberPoints(s.points));
      } else {
        // beyond the cap: a state of its own, so every frame starts with a raw point
        var st := new SeriesState();
        EncodePoints(buf, st, NumberPoints(s.points));
        assert View() == old(View());
      }
    }

    /** Appends number points from the state of a key. */
    method EncodeFrom(buf: Buffer, key: Bytes, points: seq<Point>)
      requires Valid() && points != []
      modifies this, series.Values, buf
      ensures Valid()
      ensures StateAt(old(View()), key).Valid()
      ensures View() == old(View())[key := NumberState(StateAt(old(View()), key), points)]
      ensures buf.data == old(buf.data) + NumberBytes(StateAt(old(View()), key), points)
      ensures fresh(series.Values - old(series.Values))
    {
      hide NumberBytes, NumberState;
      var st := StateFor(key);
      EncodePoints(buf, st, points);
      UpdatedView(old(View()), key);
    }

    /** Appends the points of a histogram series. */
    method EncodeHistogramSeries(buf: Buffer, s: Series)
      requires Valid() && s.points != [] && s.hdr.kind == HISTOGRAM
      modifies this, series.Values, buf
      ensures Valid() && View() == AfterSeries(old(View()), s)
      ensures buf.data == old(buf.data) + PointsBytes(old(View()), s)
      ensures fresh(series.Values - old(series.Values))
    {
      hide HistsBytes, HistsState, SeriesKey, Uvarint, PointsBytes, AfterSeries;
      ghost var e, b0 := View(), buf.data;
      var st := StateFor(s.hdr.Key());
      ghost var s0 := st.View();
      buf.WriteUvarint(|s.points|);
      EncodeHistograms(buf, st, s.points);
      UpdatedView(e, s.hdr.Key());
      HistParts(e, s, b0);
    }

    lemma HistParts(e: Streams, s: Series, b0: Bytes)
      requires AllValid(e) && s.points != [] && s.hdr.kind == HISTOGRAM
      ensures var st := StateAt(e, s.hdr.Key());
        && b0 + Uvarint(|s.points|) + HistsBytes(st, s.points) == b0 + PointsBytes(e, s)
        && st.Valid() && HistsState(st, s.points).Valid()
        && AfterSeries(e, s) == e[s.hdr.Key() := HistsState(st, s.points)]
    {
      hide HistsBytes, HistsState, SeriesKey, Uvarint;
      StartValid(e, s);
      HistsStateValid(StateAt(e, s.hdr.Key()), s.points);
      ConcatAssoc(b0, Uvarint(|s.points|), HistsBytes(StateAt(e, s.hdr.Key()), s.points));
    }

    /** Compresses one batch, continuing the state of every series. */
    method EncodeFrame(req: WireRequest) returns (frame: Bytes)
      requires Valid()
      modifies this, series.Values
      ensures Valid()
      ensures frame == FrameBytes(old(View()), req)
      ensures View() == AfterFrame(old(View()), req)
      ensures fresh(series.Values - old(series.Values))
    {
      hide FrameTable, BodyBytes, TableBytes, AfterList, Flatten, SortedPairs, ScopesAtoms, Ready;
      hide StreamEncoder.View, StreamEncoder.Valid;
      var ss := FlattenRequest(req);
      PushAllNonempty(ScopesAtoms(req.scopes));
      FrameReady(req);
      var res := SortedPairs(req.attrs);
      var dict := InternFrame(req.agentId, res, ss);
      var buf := new Buffer();
      dict.WriteTo(buf);
      assert buf.data == TableBytes(dict.strs);
      EncodeBody(buf, dict, req.agentId, req.exportTime, res, ss);
      frame := buf.data;
    }

    /** Everything after the string table. */
    method EncodeBody(buf: Buffer, dict: Table, agent: Bytes, time: I64, res: seq<Pair>, ss: seq<Series>)
      requires Valid() && dict.Valid() && Ready(dict.strs, ss) && agent in dict.strs
      requires forall s :: s in PairStrings(res) ==> s in dict.strs
      modifies this, series.Values, buf, dict
      ensures Valid()
      ensures buf.data == old(buf.data) + BodyBytes(old(View()), old(dict.strs), agent, time, res, ss)
      ensures View() == AfterList(old(View()), ss)
      ensures fresh(series.Values - old(series.Values))
    {
      hide RefBytes, Uvarint, PairsBytes, ListBytes, AfterList, StreamEncoder.View, StreamEncoder.Valid;
      ghost var b0, strs := buf.data, dict.strs;
      ViewValid();
      WriteRef(buf, dict, agent);
      buf.WriteUvarint(Unsigned(time));
      WritePairs(buf, dict, res);
      buf.WriteUvarint(|ss|);
      ghost var tail := ListBytes(View(), strs, ss);
      EncodeList(buf, dict, ss);
      Concat5(b0, RefBytes(strs, agent), Uvarint(Unsigned(time)), PairsBytes(strs, res), Uvarint(|ss|), tail);
    }

    method EncodeList(buf: Buffer, dict: Table, ss: seq<Series>)
      requires Valid() && dict.Valid() && Ready(dict.strs, ss)
      modifies this, series.Values, buf, dict
      ensures Valid()
      ensures buf.data == old(buf.data) + ListBytes(old(View()), old(dict.strs), ss)
      ensures View() == AfterList(old(View()), ss)
      ensures fresh(series.Values - old(series.Values))
    {
      hide HeaderBytes, PointsBytes, AfterSeries, AllValid, StreamEncoder.View, StreamEncoder.Valid, Interns;
      ghost var b0, strs, e0 := buf.data, dict.strs, View();
      ViewValid();
      for i := 0 to |ss|
        invariant Valid() && dict.Valid() && dict.strs == strs
        invariant fresh(series.Values - old(series.Values))
        invariant forall s :: s in ss[i..] ==> s in ss
        invariant AllValid(View())
        invariant AfterList(View(), ss[i..]) == AfterList(e0, ss)
        invariant buf.data + ListBytes(View(), strs, ss[i..]) == b0 + ListBytes(e0, strs, ss)
      {
        var s := ss[i];
        ghost var b, e := buf.data, View();
        DropStep(ss, i);
        WriteHeader(buf, dict, s.hdr);
        if s.hdr.kind == HISTOGRAM {
          EncodeHistogramSeries(buf, s);
        } else {
          EncodeNumberSeries(buf, s);
        }
        ViewValid();
        ConcatAssoc(b, HeaderBytes(strs, s.hdr), PointsBytes(e, s));
        ConcatAssoc(b, SeriesBytes(e, strs, s), ListBytes(View(), strs, ss[i + 1..]));
      }
      assert buf.data + [] == buf.data;
    }
  }

  method WriteRef(buf: Buffer, dict: Table, s: Bytes)
    requires dict.Valid() && s in dict.strs
    modifies buf, dict
    ensures dict.Valid() && dict.strs == old(dict.strs)
    ensures buf.data == old(buf.data) + RefBytes(dict.strs, s)
  {
    var i := dict.Ref(s);
    buf.WriteUvarint(i);
  }

  method WritePairs(buf: Buffer, dict: Table, ps: seq<Pair>)
    requires dict.Valid() && forall s :: s in PairStrings(ps) ==> s in dict.strs
    modifies buf, dict
    ensures dict.Valid() && dict.strs == old(dict.strs)
    ensures buf.data == old(buf.data) + PairsBytes(dict.strs, ps)
  {
    hide RefBytes, Uvarint;
    ghost var b0, strs := buf.data, dict.strs;
    buf.WriteUvarint(|ps|);
    ghost var start := buf.data;
    for i := 0 to |ps|
      invariant dict.Valid() && dict.strs == strs
      invariant forall s :: s in PairStrings(ps[i..]) ==> s in strs
      invariant buf.data + RefsBytes(strs, PairStrings(ps[i..])) == start + RefsBytes(strs, PairStrings(ps))
    {
      ghost var b, rest := buf.data, PairStrings(ps[i + 1..]);
      DropStep(ps, i);
      PairFirst(ps[i..], strs);
      WriteRef(buf, dict, ps[i].0);
      WriteRef(buf, dict, ps[i].1);
      Concat3(b, RefBytes(strs, ps[i].0), RefBytes(strs, ps[i].1), RefsBytes(strs, rest));
    }
    assert buf.data + [] == buf.data;
    ConcatAssoc(b0, Uvarint(|ps|), RefsBytes(strs, PairStrings(ps)));
  }

  /** The references of the first pair come first. */
  lemma PairFirst(ps: seq<Pair>, strs: seq<Bytes>)
    requires ps != [] && forall s :: s in PairStrings(ps) ==> s in strs
    ensures ps[0].0 in strs && ps[0].1 in strs && forall s :: s in PairStrings(ps[1..]) ==> s in strs
    ensures RefsBytes(strs, PairStrings(ps))
      == RefBytes(strs, ps[0].0) + (RefBytes(strs, ps[0].1) + RefsBytes(strs, PairStrings(ps[1..])))
  {
    var all, rest := PairStrings(ps), PairStrings(ps[1..]);
    assert all[0] == ps[0].0 && all[1] == ps[0].1 && all[1..][1..] == rest;
    assert forall s :: s in rest ==> s in all;
  }

  method WriteHeader(buf: Buffer, dict: Table, h: Header)
    requires dict.Valid() && Interns(dict.strs, h)
    modifies buf, dict
    ensures dict.Valid() && dict.strs == old(dict.strs)
    ensures buf.data == old(buf.data) + HeaderBytes(dict.strs, h)
  {
    hide RefBytes, PairsBytes, RefsBytes, PairStrings;
    ghost var b0, strs := buf.data, dict.strs;
    InternedParts(strs, h);
    WriteRef(buf, dict, h.scope);
    WriteRef(buf, dict, h.version);
    WriteRef(buf, dict, h.name);
    WriteRef(buf, dict, h.unit);
    WriteRef(buf, dict, h.desc);
    NamesBytes(b0, strs, h);
    ghost var flags: Bytes := [];
    buf.Write([h.kind]);
    if h.kind == SUM {
      buf.Write([SumFlags(h)]);
      flags := [SumFlags(h)];
    } else {
      assert buf.data + [] == buf.data;
    }
    WritePairs(buf, dict, h.attrs);
    Concat4(b0, RefsBytes(strs, Names(h)), [h.kind], flags, PairsBytes(strs, h.attrs));
  }

  lemma NamesBytes(b: Bytes, strs: seq<Bytes>, h: Header)
    requires forall s :: s in Names(h) ==> s in strs
    ensures h.scope in strs && h.version in strs && h.name in strs && h.unit in strs && h.desc in strs
    ensures b + RefBytes(strs, h.scope) + RefBytes(strs, h.version) + RefBytes(strs, h.name)
      + RefBytes(strs, h.unit) + RefBytes(strs, h.desc) == b + RefsBytes(strs, Names(h))
  {
    hide RefBytes;
    var ns := Names(h);
    assert ns[0] in ns && ns[1] in ns && ns[2] in ns && ns[3] in ns && ns[4] in ns;
    RefsList5(strs, ns[0], ns[1], ns[2], ns[3], ns[4]);
    Concat5(b, RefBytes(strs, h.scope), RefBytes(strs, h.version), RefBytes(strs, h.name),
      RefBytes(strs, h.unit), RefBytes(strs, h.desc));
  }

  lemma RefsList5(strs: seq<Bytes>, a: Bytes, b: Bytes, c: Bytes, d: Bytes, e: Bytes)
    requires a in strs && b in strs && c in strs && d in strs && e in strs
    ensures RefsBytes(strs, [a, b, c, d, e]) == RefBytes(strs, a)
      + (RefBytes(strs, b) + (RefBytes(strs, c) + (RefBytes(strs, d) + RefBytes(strs, e))))
  {
    hide RefBytes, RefsBytes;
    RefsCons(strs, a, [b, c, d, e]);
    RefsCons(strs, b, [c, d, e]);
    RefsCons(strs, c, [d, e]);
    RefsCons(strs, d, [e]);
    RefsCons(strs, e, []);
    assert [a, b, c, d, e] == [a] + [b, c, d, e];
    assert [b, c, d, e] == [b] + [c, d, e];
    assert [c, d, e] == [c] + [d, e];
    assert [d, e] == [d] + [e];
    assert [e] == [e] + [];
  }

  lemma RefsCons(strs: seq<Bytes>, s: Bytes, rest: seq<Bytes>)
    requires s in strs && forall x :: x in rest ==> x in strs
    ensures forall x :: x in [s] + rest ==> x in strs
    ensures RefsBytes(strs, [s] + rest) == RefBytes(strs, s) + RefsBytes(strs, rest)
    ensures rest == [] ==> RefsBytes(strs, [s] + rest) == RefBytes(strs, s)
  {
    hide RefBytes;
    assert ([s] + rest)[1..] == rest;
    assert RefBytes(strs, s) + [] == RefBytes(strs, s);
  }

  /** Interns every string a frame refers to, in the order of the first pass. */
  method InternFrame(agent: Bytes, res: seq<Pair>, ss: seq<Series>) returns (dict: Table)
    ensures fresh(dict) && dict.Valid()
    ensures dict.strs == FrameTable(agent, res, ss)
  {
    hide Interned, SeriesStrings;
    dict := new Table();
    var _ := dict.Ref(agent);
    InternPairs(dict, res);
    InternConcat([], [agent], PairStrings(res));
    assert InternAll(Interned([], agent), []) == Interned([], agent);
    ghost var start, first := dict.strs, [agent] + PairStrings(res);
    NoStrings();
    for i := 0 to |ss|
      invariant dict.Valid() && dict.strs == InternAll(start, SeriesStrings(ss[..i]))
    {
      var h := ss[i].hdr;
      ghost var before := dict.strs;
      var _ := dict.Ref(h.scope);
      var _ := dict.Ref(h.version);
      var _ := dict.Ref(h.name);
      var _ := dict.Ref(h.unit);
      var _ := dict.Ref(h.desc);
      InternNames(before, h);
      InternPairs(dict, h.attrs);
      InternConcat(before, Names(h), PairStrings(h.attrs));
      SeriesStringsStep(ss, i);
      InternConcat(start, SeriesStrings(ss[..i]), HeaderStrings(h));
    }
    TakeAll(ss);
    InternConcat([], first, SeriesStrings(ss));
  }

  lemma NoStrings()
    ensures SeriesStrings([]) == []
  {
  }

  lemma SeriesStringsStep(ss: seq<Series>, i: nat)
    requires i < |ss|
    ensures SeriesStrings(ss[..i + 1]) == SeriesStrings(ss[..i]) + HeaderStrings(ss[i].hdr)
  {
    TakeStep(ss, i);
  }

  lemma InternNames(strs: seq<Bytes>, h: Header)
    ensures InternAll(strs, Names(h))
      == Interned(Interned(Interned(Interned(Interned(strs, h.scope), h.version), h.name), h.unit), h.desc)
  {
    hide Interned, InternAll;
    InternCons(strs, h.scope, [h.version, h.name, h.unit, h.desc]);
    var s1 := Interned(strs, h.scope);
    InternCons(s1, h.version, [h.name, h.unit, h.desc]);
    var s2 := Interned(s1, h.version);
    InternCons(s2, h.name, [h.unit, h.desc]);
    var s3 := Interned(s2, h.name);
    InternCons(s3, h.unit, [h.desc]);
    InternCons(Interned(s3, h.unit), h.desc, []);
    assert Names(h) == [h.scope] + [h.version, h.name, h.unit, h.desc];
    assert [h.version, h.name, h.unit, h.desc] == [h.version] + [h.name, h.unit, h.desc];
    assert [h.name, h.unit, h.desc] == [h.name] + [h.unit, h.desc];
    assert [h.unit, h.desc] == [h.unit] + [h.desc];
    assert [h.desc] == [h.desc] + [];
  }

  lemma InternCons(strs: seq<Bytes>, s: Bytes, rest: seq<Bytes>)
    ensures InternAll(strs, [s] + rest) == InternAll(Interned(strs, s), rest)
    ensures rest == [] ==> InternAll(strs, [s] + rest) == Interned(strs, s)
  {
    assert ([s] + rest)[1..] == rest;
  }

  method InternPairs(dict: Table, ps: seq<Pair>)
    requires dict.Valid()
    modifies dict
    ensures dict.Valid() && dict.strs == InternAll(old(dict.strs), PairStrings(ps))
  {
    hide Interned;
    for i := 0 to |ps|
      invariant dict.Valid()
      invariant InternAll(dict.strs, PairStrings(ps[i..])) == InternAll(old(dict.strs), PairStrings(ps))
    {
      ghost var strs := dict.strs;
      DropStep(ps, i);
      InternPairFirst(strs, ps[i..]);
      var _ := dict.Ref(ps[i].0);
      var _ := dict.Ref(ps[i].1);
    }
  }

  lemma InternPairFirst(strs: seq<Bytes>, ps: seq<Pair>)
    requires ps != []
    ensures InternAll(strs, PairStrings(ps))
      == InternAll(Interned(Interned(strs, ps[0].0), ps[0].1), PairStrings(ps[1..]))
  {
    hide Interned;
    var all := PairStrings(ps);
    assert all[0] == ps[0].0 && all[1..][0] == ps[0].1 && all[1..][1..] == PairStrings(ps[1..]);
  }

  /** The points of a histogram series, the bounds written with the keyframe only. */
  method EncodeHistograms(buf: Buffer, st: SeriesState, ps: seq<StreamPoint>)
    modifies buf, st
    ensures buf.data == old(buf.data) + HistsBytes(old(st.View()), ps)
    ensures st.View() == HistsState(old(st.View()), ps)
  {
    hide HistPointBytes, HistState;
    ghost var b0, s0 := buf.data, st.View();
    for i := 0 to |ps|
      invariant HistsState(st.View(), ps[i..]) == HistsState(s0, ps)
      invariant buf.data + HistsBytes(st.View(), ps[i..]) == b0 + HistsBytes(s0, ps)
    {
      ghost var b, s := buf.data, st.View();
      DropStep(ps, i);
      EncodeHistPoint(buf, st, ps[i]);
      ConcatAssoc(b, HistPointBytes(s, ps[i]), HistsBytes(st.View(), ps[i + 1..]));
    }
    assert buf.data + [] == buf.data;
  }

  method EncodeHistPoint(buf: Buffer, st: SeriesState, p: StreamPoint)
    modifies buf, st
    ensures buf.data == old(buf.data) + HistPointBytes(old(st.View()), p)
    ensures st.View() == HistState(old(st.View()), p)
  {
    hide Uvarint, Zigzag;
    ghost var b0 := buf.data;
    var h := HistOf(p);
    if !st.initialized {
      buf.Write([1]);
      buf.WriteUvarint(Zigzag(p.ts));
      WriteTotals(buf, h);
      ghost var b1 := buf.data;
      buf.WriteUvarint(|h.bounds|);
      WriteFloats(buf, h.bounds);
      ConcatAssoc(b1, Uvarint(|h.bounds|), FloatsBytes(h.bounds));
      st.bounds := h.bounds;
      st.initialized := true;
      WriteBuckets(buf, h);
      Concat5(b0, [1], Uvarint(Zigzag(p.ts)), TotalsBytes(h), BoundsBytes(h), BucketsBytes(h));
    } else {
      buf.Write([0]);
      buf.WriteUvarint(Zigzag(Sub64(p.ts, st.lastTs)));
      WriteTotals(buf, h);
      WriteBuckets(buf, h);
      Concat4(b0, [0], Uvarint(Zigzag(Sub64(p.ts, st.lastTs))), TotalsBytes(h), BucketsBytes(h));
    }
    st.lastTs := p.ts;
  }

  method WriteTotals(buf: Buffer, h: Hist)
    modifies buf
    ensures buf.data == old(buf.data) + TotalsBytes(h)
  {
    buf.WriteUvarint(h.count);
    buf.WriteFloat64(h.sum);
    ConcatAssoc(old(buf.data), Uvarint(h.count), BigEndian(h.sum, 8));
  }

  method WriteBuckets(buf: Buffer, h: Hist)
    modifies buf
    ensures buf.data == old(buf.data) + BucketsBytes(h)
  {
    hide Uvarint;
    buf.WriteUvarint(|h.buckets|);
    ghost var start := buf.data;
    for i := 0 to |h.buckets|
      invariant buf.data + UvarintsBytes(h.buckets[i..]) == start + UvarintsBytes(h.buckets)
    {
      ghost var b := buf.data;
      DropStep(h.buckets, i);
      buf.WriteUvarint(h.buckets[i]);
      ConcatAssoc(b, Uvarint(h.buckets[i]), UvarintsBytes(h.buckets[i + 1..]));
    }
    assert buf.data + [] == buf.data;
    ConcatAssoc(old(buf.data), Uvarint(|h.buckets|), UvarintsBytes(h.buckets));
  }

  method WriteFloats(buf: Buffer, vs: seq<U64>)
    modifies buf
    ensures buf.data == old(buf.data) + FloatsBytes(vs)
  {
    hide BigEndian;
    ghost var start := buf.data;
    for i := 0 to |vs|
      invariant buf.data + FloatsBytes(vs[i..]) == start + FloatsBytes(vs)
    {
      ghost var b := buf.data;
      DropStep(vs, i);
      buf.WriteFloat64(vs[i]);
      ConcatAssoc(b, BigEndian(vs[i], 8), FloatsBytes(vs[i + 1..]));
    }
    assert buf.data + [] == buf.data;
  }

  /** `[pointCount][rawFlag][raw point?][ts bitstream][val bitstream]` from one state record. */
  method EncodePoints(buf: Buffer, st: SeriesState, points: seq<Point>)
    requires st.View().Valid() && points != []
    modifies buf, st
    ensures buf.data == old(buf.data) + NumberBytes(old(st.View()), points)
    ensures st.View() == NumberState(old(st.View()), points)
  {
    hide BitWriter.Contents, BitWriter.Valid, Pack, Uvarint, DodBits, XorBits, XorState;
    ghost var b0, s0 := buf.data, st.View();
    buf.WriteUvarint(|points|);
    var pts := points;
    if !st.initialized {
      buf.Write([1]);
      var p := pts[0];
      buf.WriteUvarint(Zigzag(p.ts));
      buf.WriteFloat64(p.val);
      st.lastTs, st.lastDelta, st.lastVal := p.ts, 0, p.val;
      st.hasWindow := false;
      st.initialized := true;
      pts := pts[1..];
      ghost var tail := StreamsBytes(st.View(), pts);
      EncodeStreams(buf, st, pts);
      Concat5(b0, Uvarint(|points|), [1], Uvarint(Zigzag(p.ts)), BigEndian(p.val, 8), tail);
      ConcatAssoc(Uvarint(Zigzag(p.ts)), BigEndian(p.val, 8), tail);
    } else {
      buf.Write([0]);
      EncodeStreams(buf, st, pts);
      Concat3(b0, Uvarint(|points|), [0], StreamsBytes(s0, points));
    }
  }

  /** The points after a keyframe ride the delta-of-delta and XOR streams. */
  method EncodeStreams(buf: Buffer, st: SeriesState, pts: seq<Point>)
    requires st.View().Valid()
    modifies buf, st
    ensures buf.data == old(buf.data) + StreamsBytes(old(st.View()), pts)
    ensures st.View() == AfterPoints(old(st.View()), pts)
  {
    hide BitWriter.Contents, BitWriter.Valid, Pack, Uvarint, DodBits, XorBits, XorState;
    ghost var b0, s0 := buf.data, st.View();
    var tsW := new BitWriter();
    var valW := new BitWriter();
    for i := 0 to |pts|
      invariant buf.data == b0
      invariant tsW.Valid() && valW.Valid() && st.View().Valid()
      invariant tsW.Contents() + TsBits(st.View(), pts[i..]) == TsBits(s0, pts)
      invariant valW.Contents() + ValBits(st.View(), pts[i..]) == ValBits(s0, pts)
      invariant AfterPoints(st.View(), pts[i..]) == AfterPoints(s0, pts)
    {
      var p := pts[i];
      ghost var s, ts, vals := st.View(), tsW.Contents(), valW.Contents();
      var delta := Sub64(p.ts, st.lastTs);
      WriteDod(tsW, Sub64(delta, st.lastDelta));
      st.lastDelta, st.lastTs := delta, p.ts;
      XorIgnoresTime(s, st.View(), p.val);
      WriteValueXor(valW, st, p.val);
      assert st.View() == NextState(s, p);
      DropStep(pts, i);
      ConcatAssoc(ts, DodBits(Sub64(Delta(s, p), s.lastDelta)), TsBits(st.View(), pts[i + 1..]));
      ConcatAssoc(vals, XorBits(s, p.val), ValBits(st.View(), pts[i + 1..]));
    }
    assert tsW.Contents() == TsBits(s0, pts) && valW.Contents() == ValBits(s0, pts);
    var tsBytes := tsW.Flush();
    var valBytes := valW.Flush();
    buf.WriteUvarint(|tsBytes|);
    buf.Write(tsBytes);
    buf.WriteUvarint(|valBytes|);
    buf.Write(valBytes);
    Concat4(b0, Uvarint(|tsBytes|), tsBytes, Uvarint(|valBytes|), valBytes);
    ConcatAssoc(Uvarint(|tsBytes|), tsBytes, Uvarint(|valBytes|) + valBytes);
  }
}
