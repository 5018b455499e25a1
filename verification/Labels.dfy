/** Attribute maps as sorted pairs, and the series key built from them
    (`internal/transport/codec/stream.go`). */
module Labels {
  import opened Words

  type Pair = (Bytes, Bytes)
  type Attrs = map<Bytes, Bytes>

  /** Go's order on strings. */
  predicate Leq(a: Bytes, b: Bytes) {
    a == [] || (b != [] && (a[0] < b[0] || (a[0] == b[0] && Leq(a[1..], b[1..]))))
  }

  lemma {:induction false} LeqTotal(a: Bytes, b: Bytes)
    ensures Leq(a, b) || Leq(b, a)
  {
    if a != [] && b != [] && a[0] == b[0] {
      LeqTotal(a[1..], b[1..]);
    }
  }

  lemma {:induction false} LeqAntisymmetric(a: Bytes, b: Bytes)
    requires Leq(a, b) && Leq(b, a)
    ensures a == b
  {
    if a != [] && b != [] {
      LeqAntisymmetric(a[1..], b[1..]);
      assert a == [a[0]] + a[1..] && b == [b[0]] + b[1..];
    }
  }

  lemma {:induction false} LeqTransitive(a: Bytes, b: Bytes, c: Bytes)
    requires Leq(a, b) && Leq(b, c)
    ensures Leq(a, c)
  {
    if a != [] && a[0] == b[0] && b[0] == c[0] {
      LeqTransitive(a[1..], b[1..], c[1..]);
    }
  }

  predicate IsLeast(k: Bytes, keys: set<Bytes>) {
    k in keys && forall x :: x in keys ==> Leq(k, x)
  }

  lemma {:induction false} LeastExists(keys: set<Bytes>)
    requires keys != {}
    ensures exists k :: IsLeast(k, keys)
  {
    var x :| x in keys;
    LeqTotal(x, x);
    if keys == {x} {
      assert IsLeast(x, keys);
    } else {
      LeastExists(keys - {x});
      var k :| IsLeast(k, keys - {x});
      LeqTotal(k, x);
      if Leq(k, x) {
        assert IsLeast(k, keys);
      } else {
        forall y | y in keys
          ensures Leq(x, y)
        {
          if y != x {
            LeqTransitive(x, k, y);
          }
        }
        assert IsLeast(x, keys);
      }
    }
  }

  function Least(keys: set<Bytes>): (k: Bytes)
    requires keys != {}
    ensures IsLeast(k, keys)
  {
    LeastExists(keys);
    LeastUnique(keys);
    var k :| IsLeast(k, keys);
    k
  }

  lemma LeastUnique(keys: set<Bytes>)
    ensures forall j, k :: IsLeast(j, keys) && IsLeast(k, keys) ==> j == k
  {
    forall j, k | IsLeast(j, keys) && IsLeast(k, keys)
      ensures j == k
    {
      LeqAntisymmetric(j, k);
    }
  }

  /** `sortedAttrPairs`: the pairs of a map, in the order of their keys. */
  function SortedPairs(m: Attrs): (ps: seq<Pair>)
    ensures |ps| == |m|
    ensures forall i :: 0 <= i < |ps| ==> ps[i].0 in m && m[ps[i].0] == ps[i].1
    ensures forall i, j :: 0 <= i < j < |ps| ==> ps[i].0 != ps[j].0 && Leq(ps[i].0, ps[j].0)
    decreases |m|
  {
    if m.Keys == {} then []
    else
      var k := Least(m.Keys);
      [(k, m[k])] + SortedPairs(m - {k})
  }

  /** `attrMap`. */
  function AttrMap(ps: seq<Pair>): Attrs {
    if ps == [] then map[] else AttrMap(ps[..|ps| - 1])[ps[|ps| - 1].0 := ps[|ps| - 1].1]
  }

  lemma {:induction false} AttrMapCons(p: Pair, ps: seq<Pair>)
    requires forall i :: 0 <= i < |ps| ==> ps[i].0 != p.0
    ensures AttrMap([p] + ps) == AttrMap(ps)[p.0 := p.1]
  {
    if ps == [] {
      assert [p] + ps == [p];
      assert [p][..0] == [];
    } else {
      var n := |ps|;
      AttrMapCons(p, ps[..n - 1]);
      assert ([p] + ps)[..n] == [p] + ps[..n - 1];
    }
  }

  /** Every entry of a map is among its pairs. */
  lemma {:induction false} PairOf(m: Attrs, k: Bytes)
    requires k in m
    ensures (k, m[k]) in SortedPairs(m)
    decreases |m|
  {
    var least := Least(m.Keys);
    if k != least {
      PairOf(m - {least}, k);
    }
  }

  /** Sorting the pairs of a map and rebuilding the map loses nothing. */
  lemma {:induction false} SortedPairsRoundTrip(m: Attrs)
    ensures AttrMap(SortedPairs(m)) == m
    decreases |m|
  {
    if m.Keys != {} {
      var k := Least(m.Keys);
      SortedPairsRoundTrip(m - {k});
      AttrMapCons((k, m[k]), SortedPairs(m - {k}));
      assert (m - {k})[k := m[k]] == m;
    }
  }

  // ----- series keys -----

  function PairsKey(ps: seq<Pair>): Bytes {
    if ps == [] then [] else [0] + ps[0].0 + [1] + ps[0].1 + PairsKey(ps[1..])
  }

  /** `seriesKey`: names and attribute pairs joined by the separator bytes 0 and 1. */
  function SeriesKey(scope: Bytes, name: Bytes, ps: seq<Pair>): Bytes {
    scope + [0] + name + PairsKey(ps)
  }

  /** The separators do not occur where they would be taken for the end of a label. */
  predicate CleanPairs(ps: seq<Pair>) {
    forall p :: p in ps ==> 1 !in p.0 && 0 !in p.1
  }

  predicate Clean(scope: Bytes, name: Bytes, ps: seq<Pair>) {
    0 !in scope && 0 !in name && CleanPairs(ps)
  }

  lemma SplitUnique(sep: Byte, a: Bytes, x: Bytes, b: Bytes, y: Bytes)
    requires sep !in a && sep !in b
    requires a + [sep] + x == b + [sep] + y
    ensures a == b && x == y
  {
    FirstSeparator(sep, a, x);
    FirstSeparator(sep, b, y);
    var s, t := a + [sep] + x, b + [sep] + y;
    assert a == s[..|a|] == t[..|b|] == b;
    assert x == s[|a| + 1..] == t[|b| + 1..] == y;
  }

  /** The position of the first `sep`, or the length if there is none. */
  function First(sep: Byte, s: Bytes): nat {
    if s == [] || s[0] == sep then 0 else 1 + First(sep, s[1..])
  }

  lemma {:induction false} FirstSeparator(sep: Byte, a: Bytes, x: Bytes)
    requires sep !in a
    ensures First(sep, a + [sep] + x) == |a|
  {
    if a != [] {
      FirstSeparator(sep, a[1..], x);
      assert (a + [sep] + x)[1..] == a[1..] + [sep] + x;
    }
  }

  /** A key tail always starts with a separator once one is put behind it. */
  lemma TailStartsZero(ps: seq<Pair>)
    ensures var t := PairsKey(ps) + [0]; t == [0] + t[1..]
    ensures ps == [] ==> (PairsKey(ps) + [0])[1..] == []
    ensures ps != [] ==> (PairsKey(ps) + [0])[1..] == ps[0].0 + [1] + (ps[0].1 + (PairsKey(ps[1..]) + [0]))
  {
  }

  lemma {:induction false} PairsKeyInjective(ps: seq<Pair>, qs: seq<Pair>)
    requires CleanPairs(ps) && CleanPairs(qs)
    requires PairsKey(ps) == PairsKey(qs)
    ensures ps == qs
  {
    TailStartsZero(ps);
    TailStartsZero(qs);
    if ps != [] && qs != [] {
      var p, q, ps', qs' := ps[0], qs[0], ps[1..], qs[1..];
      var u, v := p.1 + (PairsKey(ps') + [0]), q.1 + (PairsKey(qs') + [0]);
      assert p in ps && q in qs;
      SplitUnique(1, p.0, u, q.0, v);
      NameThenPairs(p.1, ps', q.1, qs');
      PairsKeyInjective(ps', qs');
      assert ps == [p] + ps' && qs == [q] + qs';
    }
  }

  lemma NameThenPairs(a: Bytes, ps: seq<Pair>, b: Bytes, qs: seq<Pair>)
    requires 0 !in a && 0 !in b
    requires a + (PairsKey(ps) + [0]) == b + (PairsKey(qs) + [0])
    ensures a == b && PairsKey(ps) == PairsKey(qs)
  {
    TailStartsZero(ps);
    TailStartsZero(qs);
    var s, t := PairsKey(ps) + [0], PairsKey(qs) + [0];
    ConcatAssoc(a, [0], s[1..]);
    ConcatAssoc(b, [0], t[1..]);
    SplitUnique(0, a, s[1..], b, t[1..]);
    assert PairsKey(ps) == s[..|s| - 1] && PairsKey(qs) == t[..|t| - 1];
  }

  /** Two series of clean labels share a key only when they are the same series. */
  lemma SeriesKeyInjective(s1: Bytes, n1: Bytes, ps: seq<Pair>, s2: Bytes, n2: Bytes, qs: seq<Pair>)
    requires Clean(s1, n1, ps) && Clean(s2, n2, qs)
    requires SeriesKey(s1, n1, ps) == SeriesKey(s2, n2, qs)
    ensures s1 == s2 && n1 == n2 && ps == qs
  {
    ConcatAssoc(s1 + [0], n1, PairsKey(ps));
    ConcatAssoc(s2 + [0], n2, PairsKey(qs));
    SplitUnique(0, s1, n1 + PairsKey(ps), s2, n2 + PairsKey(qs));
    ConcatAssoc(n1, PairsKey(ps), [0]);
    ConcatAssoc(n2, PairsKey(qs), [0]);
    NameThenPairs(n1, ps, n2, qs);
    PairsKeyInjective(ps, qs);
  }
}
