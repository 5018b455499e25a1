/** The per-frame string table (`internal/transport/codec/dictionary.go`). */
module Dictionary {
  import opened Words
  import opened ByteCodec

  const MAX_DICTIONARY := 0x1_0000
  const MAX_STRING := 0x10_0000

  /** The table after one string is interned. */
  function Interned(strs: seq<Bytes>, s: Bytes): (r: seq<Bytes>)
    ensures s in r && strs <= r
  {
    if s in strs then strs else strs + [s]
  }

  function InternAll(strs: seq<Bytes>, ss: seq<Bytes>): (r: seq<Bytes>)
    ensures strs <= r
    ensures forall s :: s in strs || s in ss ==> s in r
    decreases |ss|
  {
    if ss == [] then strs
    else
      var r := InternAll(Interned(strs, ss[0]), ss[1..]);
      assert forall s :: s in ss ==> s == ss[0] || s in ss[1..];
      r
  }

  /** The position of the first occurrence. */
  function IndexOf(strs: seq<Bytes>, s: Bytes): (i: nat)
    requires s in strs
    ensures i < |strs| && strs[i] == s && s !in strs[..i]
  {
    if strs[0] == s then 0 else
      var i := 1 + IndexOf(strs[1..], s);
      assert strs[..i] == [strs[0]] + strs[1..][..i - 1];
      i
  }

  lemma {:induction false} IndexOfExtend(strs: seq<Bytes>, more: seq<Bytes>, s: Bytes)
    requires s in strs
    ensures IndexOf(strs + more, s) == IndexOf(strs, s)
  {
    if strs[0] != s {
      assert (strs + more)[1..] == strs[1..] + more;
      IndexOfExtend(strs[1..], more, s);
    }
  }

  /** The index written for a string: a `uint32`. */
  function RefOf(strs: seq<Bytes>, s: Bytes): nat
    requires s in strs
  {
    IndexOf(strs, s) % TWO_TO_32
  }

  /** Interning what is already there changes nothing. */
  lemma {:induction false} InternAgain(strs: seq<Bytes>, ss: seq<Bytes>)
    requires forall s :: s in ss ==> s in strs
    ensures InternAll(strs, ss) == strs
    decreases |ss|
  {
    if ss != [] {
      InternAgain(strs, ss[1..]);
    }
  }

  lemma {:induction false} InternConcat(strs: seq<Bytes>, xs: seq<Bytes>, ys: seq<Bytes>)
    ensures InternAll(strs, xs + ys) == InternAll(InternAll(strs, xs), ys)
    decreases |xs|
  {
    if xs == [] {
      assert xs + ys == ys;
    } else {
      assert (xs + ys)[1..] == xs[1..] + ys;
      InternConcat(Interned(strs, xs[0]), xs[1..], ys);
    }
  }

  class Table {
    var index: map<Bytes, nat>
    var strs: seq<Bytes>

    ghost predicate Valid()
      reads this
    {
      && (forall s :: s in index <==> s in strs)
      && (forall s :: s in strs ==> index[s] == RefOf(strs, s))
    }

    constructor ()
      ensures Valid() && strs == []
    {
      index, strs := map[], [];
    }

    /** The index of `s`, interning it on first sight. */
    method Ref(s: Bytes) returns (i: nat)
      requires Valid()
      modifies this
      ensures Valid()
      ensures strs == Interned(old(strs), s)
      ensures i == RefOf(strs, s)
      ensures s in old(strs) ==> index == old(index)
    {
      if s in index {
        return index[s];
      }
      i := |strs| % TWO_TO_32;
      index := index[s := i];
      strs := strs + [s];
      LastIndex(old(strs), s);
      forall t | t in old(strs)
        ensures index[t] == RefOf(strs, t)
      {
        IndexOfExtend(old(strs), [s], t);
      }
    }

    method WriteTo(buf: Buffer)
      modifies buf
      ensures buf.data == old(buf.data) + TableBytes(strs)
    {
      buf.WriteUvarint(|strs|);
      ghost var start := buf.data;
      for i := 0 to |strs|
        invariant buf.data + StringsBytes(strs[i..]) == start + StringsBytes(strs)
      {
        ghost var before := buf.data;
        buf.WriteUvarint(|strs[i]|);
        buf.Write(strs[i]);
        ConcatAssoc(before, Uvarint(|strs[i]|), strs[i]);
        ConcatAssoc(before, Uvarint(|strs[i]|) + strs[i], StringsBytes(strs[i + 1..]));
        assert strs[i..][1..] == strs[i + 1..];
      }
      assert buf.data + [] == buf.data;
      ConcatAssoc(old(buf.data), Uvarint(|strs|), StringsBytes(strs));
    }
  }

  lemma {:induction false} LastIndex(strs: seq<Bytes>, s: Bytes)
    requires s !in strs
    ensures IndexOf(strs + [s], s) == |strs|
  {
    if strs != [] {
      assert (strs + [s])[1..] == strs[1..] + [s];
      LastIndex(strs[1..], s);
    }
  }

  function StringsBytes(strs: seq<Bytes>): Bytes {
    if strs == [] then []
    else Uvarint(|strs[0]|) + strs[0] + StringsBytes(strs[1..])
  }

  function TableBytes(strs: seq<Bytes>): Bytes {
    Uvarint(|strs|) + StringsBytes(strs)
  }

  function ParseStrings(b: Bytes, n: nat): Parse<seq<Bytes>>
    decreases n
  {
    if n == 0 then Ok(([], b))
    else match ParseUvarint(b)
      case Err => Err
      case Ok((l, b1)) =>
        if l > MAX_STRING then Err
        else match ParseFull(b1, l)
          case Err => Err
          case Ok((s, b2)) => Prepended([s], ParseStrings(b2, n - 1))
  }

  function ParseTable(b: Bytes): Parse<seq<Bytes>> {
    match ParseUvarint(b)
    case Err => Err
    case Ok((n, b1)) => if n > MAX_DICTIONARY then Err else ParseStrings(b1, n)
  }

  method ReadDictionary(r: ByteReader) returns (d: Result<seq<Bytes>>)
    requires r.Valid()
    modifies r
    ensures r.Valid() && ParseTable(old(r.Rest())) == Read(d, r.Rest())
  {
    hide ParseUvarint, ParseFull, ByteReader.Rest;
    var n := r.ReadUvarint();
    if n.Err? || n.value > MAX_DICTIONARY {
      return Err;
    }
    var strs: seq<Bytes> := [];
    PrependedNone(ParseStrings(r.Rest(), n.value));
    ghost var parse := ParseTable(old(r.Rest()));
    for i := 0 to n.value
      invariant r.Valid()
      invariant parse == Prepended(strs, ParseStrings(r.Rest(), n.value - i))
    {
      ghost var before := r.Rest();
      var l := r.ReadUvarint();
      if l.Err? || l.value > MAX_STRING {
        return Err;
      }
      var s := r.ReadFull(l.value);
      if s.Err? {
        return Err;
      }
      assert ParseStrings(before, n.value - i) == Prepended([s.value], ParseStrings(r.Rest(), n.value - i - 1));
      PrependedTwice(strs, [s.value], ParseStrings(r.Rest(), n.value - i - 1));
      strs := strs + [s.value];
    }
    assert strs + [] == strs;
    return Ok(strs);
  }

  /** Strings within the decoder's limits. */
  predicate Fits(strs: seq<Bytes>) {
    |strs| <= MAX_DICTIONARY && forall s :: s in strs ==> |s| <= MAX_STRING
  }

  lemma {:induction false} StringsRoundTrip(strs: seq<Bytes>, rest: Bytes)
    requires forall s :: s in strs ==> |s| <= MAX_STRING
    ensures ParseStrings(StringsBytes(strs) + rest, |strs|) == Ok((strs, rest))
  {
    hide Uvarint, ParseUvarint, ParseFull;
    if strs == [] {
      assert [] + rest == rest;
    } else {
      var s, tail := strs[0], StringsBytes(strs[1..]) + rest;
      ConcatAssoc(Uvarint(|s|) + s, StringsBytes(strs[1..]), rest);
      StringsRoundTrip(strs[1..], rest);
      StringFirst(s, tail, |strs|);
      assert [s] + strs[1..] == strs;
    }
  }

  lemma StringFirst(s: Bytes, tail: Bytes, n: nat)
    requires |s| <= MAX_STRING && n > 0
    ensures ParseStrings(Uvarint(|s|) + s + tail, n) == Prepended([s], ParseStrings(tail, n - 1))
  {
    hide Uvarint, ParseUvarint, ParseFull;
    ConcatAssoc(Uvarint(|s|), s, tail);
    UvarintRoundTrip(|s|, s + tail);
    FullRoundTrip(s, tail);
  }

  /** A string table within the limits reads back. */
  lemma TableRoundTrip(strs: seq<Bytes>, rest: Bytes)
    requires Fits(strs)
    ensures ParseTable(TableBytes(strs) + rest) == Ok((strs, rest))
  {
    hide Uvarint, ParseUvarint;
    ConcatAssoc(Uvarint(|strs|), StringsBytes(strs), rest);
    UvarintRoundTrip(|strs|, StringsBytes(strs) + rest);
    StringsRoundTrip(strs, rest);
  }

  /** Every index written after the table resolves, in a table that fits, to its string. */
  lemma RefResolves(strs: seq<Bytes>, s: Bytes)
    requires s in strs && |strs| <= MAX_DICTIONARY
    ensures RefOf(strs, s) < |strs| && strs[RefOf(strs, s)] == s
  {
  }
}
