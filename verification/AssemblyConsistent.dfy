/** Assembled requests have the grouping that the stream codec needs. */
module AssemblyConsistent {
  import opened Words
  import opened Labels
  import opened StreamFormat
  import opened StreamRequest
  import opened Assembly

  /** The keys of some data points, in order. */
  function AtomKeys(atoms: seq<Atom>): (r: seq<Bytes>)
    ensures |r| == |atoms|
  {
    seq(|atoms|, i requires 0 <= i < |atoms| => atoms[i].hdr.Key())
  }

  /** Flattening makes one series per key, in the order in which the keys first occur; its header
      is that of the first point of the key. */
  lemma {:induction false} FlattenOrder(atoms: seq<Atom>)
    ensures Keys(PushAll(atoms)) == FirstSeen(AtomKeys(atoms))
  {
    hide Header.Key, Pushed, Keys, FirstSeen, AtomKeys;
    if atoms == [] {
      NothingFlattened();
    } else {
      var n := |atoms| - 1;
      FlattenOrder(atoms[..n]);
      FirstSeenSnoc(AtomKeys(atoms[..n]), atoms[n].hdr.Key());
      AtomKeysSnoc(atoms);
      PushedKeys(PushAll(atoms[..n]), atoms[n]);
    }
  }

  lemma AtomKeysSnoc(atoms: seq<Atom>)
    requires atoms != []
    ensures AtomKeys(atoms) == AtomKeys(atoms[..|atoms| - 1]) + [atoms[|atoms| - 1].hdr.Key()]
  {
    hide Header.Key;
  }

  lemma NothingFlattened()
    ensures Keys([]) == FirstSeen(AtomKeys([]))
  {
  }

  lemma PushedKeys(out: seq<Series>, a: Atom)
    ensures Keys(Pushed(out, a)) == if a.hdr.Key() in Keys(out) then Keys(out) else Keys(out) + [a.hdr.Key()]
  {
    hide Header.Key;
  }

  /** The header of a metric without the attributes of a series. */
  function MetricHeader(sm: WireScope, m: WireMetric): Header {
    match m.data
    case NoData => HeaderOf(sm, m, GAUGE, 0, false, map[])
    case Gauge(_) => HeaderOf(sm, m, GAUGE, 0, false, map[])
    case Sum(t, mono, _) => HeaderOf(sm, m, SUM, t, mono, map[])
    case Histogram(t, _) => HeaderOf(sm, m, HISTOGRAM, t, false, map[])
  }

  ghost predicate Within(sms: seq<WireScope>, i: int, j: int) {
    0 <= i < |sms| && 0 <= j < |sms[i].metrics|
  }

  /** A header comes from a metric of the request. */
  ghost predicate ComesFrom(sms: seq<WireScope>, h: Header, i: int, j: int) {
    Within(sms, i, j) && h.(attrs := []) == MetricHeader(sms[i], sms[i].metrics[j]).(attrs := [])
  }

  lemma {:induction false} MetricOrigin(sm: WireScope, ms: seq<WireMetric>, a: Atom) returns (j: int)
    requires a in MetricsAtoms(sm, ms)
    ensures 0 <= j < |ms| && a.hdr.(attrs := []) == MetricHeader(sm, ms[j]).(attrs := [])
  {
    var n := |ms| - 1;
    if a in MetricAtoms(sm, ms[n]) {
      j := n;
    } else {
      j := MetricOrigin(sm, ms[..n], a);
    }
  }

  lemma {:induction false} Origin(sms: seq<WireScope>, a: Atom) returns (i: int, j: int)
    requires a in ScopesAtoms(sms)
    ensures ComesFrom(sms, a.hdr, i, j)
  {
    hide MetricsAtoms;
    var n := |sms| - 1;
    if a in MetricsAtoms(sms[n], sms[n].metrics) {
      i := n;
      j := MetricOrigin(sms[n], sms[n].metrics, a);
    } else {
      i, j := Origin(sms[..n], a);
    }
  }

  /** Every scope once, and every metric name once in its scope. */
  ghost predicate Unambiguous(sms: seq<WireScope>) {
    && (forall i, k :: 0 <= i < k < |sms| ==> sms[i].scope != sms[k].scope)
    && (forall i, j, k :: Within(sms, i, j) && Within(sms, i, k) && j != k ==>
          sms[i].metrics[j].name != sms[i].metrics[k].name)
  }

  lemma AssembledUnambiguous(items: seq<Item<U64, U64>>)
    ensures Unambiguous(Assembled(items))
  {
    hide Assembled;
    var all := Assembled(items);
    forall i, k | 0 <= i < k < |all|
      ensures all[i].scope != all[k].scope
    {
      assert all[i].scope == FirstSeen(ScopesOf(items))[i];
    }
    forall i, j, k | Within(all, i, j) && Within(all, i, k) && j != k
      ensures all[i].metrics[j].name != all[i].metrics[k].name
    {
      AssembledOnce(items, i, j);
    }
  }

  /** Whatever the batch, the request assembled from it is one that the codec carries without
      mixing up series, as long as its labels are free of the separator bytes. */
  lemma AssembledConsistent(items: seq<Item<U64, U64>>)
    requires forall a :: a in ScopesAtoms(Assembled(items)) ==> Clean(a.hdr.scope, a.hdr.name, a.hdr.attrs)
    ensures Consistent(Headers(ScopesAtoms(Assembled(items))))
  {
    hide Assembled, ScopesAtoms, Clean;
    var sms := Assembled(items);
    var atoms := ScopesAtoms(sms);
    AssembledUnambiguous(items);
    forall g, h | g in Headers(atoms) && h in Headers(atoms)
      ensures Clean(h.scope, h.name, h.attrs)
      ensures g.scope == h.scope ==> g.version == h.version && (g.name == h.name ==> SameMetric(g, h))
    {
      var m, n :| 0 <= m < |atoms| && atoms[m].hdr == g && 0 <= n < |atoms| && atoms[n].hdr == h;
      var i, j := Origin(sms, atoms[m]);
      var k, l := Origin(sms, atoms[n]);
      if g.scope == h.scope {
        SameOrigin(sms, g, h, i, j, k, l);
      }
    }
  }

  lemma SameOrigin(sms: seq<WireScope>, g: Header, h: Header, i: int, j: int, k: int, l: int)
    requires Unambiguous(sms) && ComesFrom(sms, g, i, j) && ComesFrom(sms, h, k, l) && g.scope == h.scope
    ensures g.version == h.version && (g.name == h.name ==> SameMetric(g, h))
  {
    FieldsOf(sms[i], sms[i].metrics[j], g);
    FieldsOf(sms[k], sms[k].metrics[l], h);
    assert i == k;
  }

  lemma FieldsOf(sm: WireScope, m: WireMetric, h: Header)
    requires h.(attrs := []) == MetricHeader(sm, m).(attrs := [])
    ensures h.scope == sm.scope && h.version == sm.version && h.name == m.name
  {
    var a, b := h.(attrs := []), MetricHeader(sm, m).(attrs := []);
    assert a.scope == b.scope && a.version == b.version && a.name == b.name;
  }
}
