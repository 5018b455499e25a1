/** The byte pipe between agent and server (`internal/transport/quic/client.go`,
    `server/main/quic_server.go`) and the protocol of reconnects and failed sends
    (`internal/pipeline/exporter.go`) as a state machine. */
module Connection {
  import opened Words
  import opened ByteCodec
  import opened StreamFormat
  import opened StreamMirror
  import opened StreamConnection

  const FLAG_GORILLA: Byte := 2
  const MAX_WIRE := 10 * 1024 * 1024

  /** The compressor around stream frames, and the decoding of other payloads: library code. */
  datatype Wrapping = Wrapping(
    compress: Bytes -> Bytes,
    expand: Bytes -> Result<Bytes>,
    stateless: (Byte, Bytes) -> Result<WireRequest>)
  {
    ghost predicate Inverse() {
      forall b :: expand(compress(b)) == Ok(b)
    }
  }

  // ----- frames on the stream -----

  /** `[length:4][flags:1][payload]`; the length, a `uint32`, covers flags and payload. */
  function WireFrame(flags: Byte, payload: Bytes): Bytes {
    BigEndian(|payload| + 1, 4) + ([flags] + payload)
  }

  datatype Wire = Partial | Refused | Frame(flags: Byte, payload: Bytes, rest: Bytes)

  /** What the server's read loop finds at the front of the bytes it has. */
  function ParseWire(b: Bytes): (w: Wire)
    ensures w.Frame? ==> |w.rest| < |b|
  {
    if |b| < 4 then Partial
    else
      var n := FromBigEndian(b[..4]);
      if n > MAX_WIRE || n < 1 then Refused
      else if |b| < 4 + n then Partial
      else Frame(b[4], b[5..4 + n], b[4 + n..])
  }

  ghost function DecodePayload(z: Wrapping, d: Streams, flags: Byte, payload: Bytes)
      : (r: (Streams, Result<WireRequest>))
    requires AllValid(d)
    ensures AllValid(r.0)
  {
    if flags != FLAG_GORILLA then (d, z.stateless(flags, payload))
    else match z.expand(payload)
      case Err => (d, Err)
      case Ok(frame) => DecodeFrame(d, frame)
  }

  /** The server's side of a connection. */
  datatype Inbound = Inbound(d: Streams, inbox: Bytes, got: seq<WireRequest>, up: bool)

  /** Decodes whole frames until none is left, or the connection is given up. */
  ghost function Drain(z: Wrapping, d: Streams, b: Bytes): (r: Inbound)
    requires AllValid(d)
    ensures AllValid(r.d)
    decreases |b|
  {
    match ParseWire(b)
    case Partial => Inbound(d, b, [], true)
    case Refused => Inbound(d, b, [], false)
    case Frame(flags, payload, rest) =>
      var (d', r) := DecodePayload(z, d, flags, payload);
      if r.Err? then Inbound(d', rest, [], false)
      else
        var more := Drain(z, d', rest);
        more.(got := [r.value] + more.got)
  }

  /** The bytes of one request on the stream. */
  function SentFrame(z: Wrapping, x: Sender, req: WireRequest): Bytes
    requires AllValid(x.states)
  {
    WireFrame(FLAG_GORILLA, z.compress(FrameBytes(x.states, req)))
  }

  /** Short enough for the length prefix not to wrap around. */
  predicate Short(z: Wrapping, x: Sender, req: WireRequest)
    requires AllValid(x.states)
  {
    |z.compress(FrameBytes(x.states, req))| + 1 < TWO_TO_32
  }

  function SentBytes(z: Wrapping, x: Sender, reqs: seq<WireRequest>): Bytes
    requires AllValid(x.states)
    decreases |reqs|
  {
    if reqs == [] then [] else SentFrame(z, x, reqs[0]) + SentBytes(z, SentRequest(x, reqs[0]), reqs[1..])
  }

  /** Requests that may be sent one after the other from state `x`. */
  ghost predicate Sendable(z: Wrapping, x: Sender, reqs: seq<WireRequest>)
    requires AllValid(x.states)
    decreases |reqs|
  {
    reqs == [] ||
    (RequestOk(reqs[0]) && RequestShared(x, reqs[0]) && Short(z, x, reqs[0])
      && Sendable(z, SentRequest(x, reqs[0]), reqs[1..]))
  }

  /** `got` is what arrives of the first requests of `reqs`, in order. */
  ghost predicate Received(x: Sender, reqs: seq<WireRequest>, got: seq<WireRequest>)
    requires AllValid(x.states)
    decreases |got|
  {
    got == [] ||
    (reqs != [] && Delivers(x.states, reqs[0], got[0]) && Received(SentRequest(x, reqs[0]), reqs[1..], got[1..]))
  }

  lemma ShortLength(flags: Byte, payload: Bytes)
    requires |payload| + 1 < TWO_TO_32
    ensures FromBigEndian(BigEndian(|payload| + 1, 4)) == |payload| + 1
  {
    Pow2Values();
    BigEndianRoundTrip(|payload| + 1, 4);
  }

  /** A whole frame is read back; if it is too long for the server, it is refused. */
  lemma WireRoundTrip(flags: Byte, payload: Bytes, rest: Bytes)
    requires |payload| + 1 < TWO_TO_32
    ensures ParseWire(WireFrame(flags, payload) + rest)
      == if |payload| + 1 > MAX_WIRE then Refused else Frame(flags, payload, rest)
  {
    hide BigEndian, FromBigEndian;
    var n := BigEndian(|payload| + 1, 4);
    var b := WireFrame(flags, payload) + rest;
    ShortLength(flags, payload);
    assert b[..4] == n;
    assert b[4] == flags && b[5..5 + |payload|] == payload && b[5 + |payload|..] == rest;
  }

  /** A length of nothing, or over the limit, is refused as soon as it is read. */
  lemma LengthRefused(n: nat, rest: Bytes)
    requires n < TWO_TO_32
    ensures ParseWire(BigEndian(n, 4) + rest) == Refused <==> n == 0 || n > MAX_WIRE
  {
    hide BigEndian, FromBigEndian;
    Pow2Values();
    BigEndianRoundTrip(n, 4);
    assert (BigEndian(n, 4) + rest)[..4] == BigEndian(n, 4);
  }

  /** A part of a frame never yields a frame. */
  lemma PartialFrame(flags: Byte, payload: Bytes, b: Bytes)
    requires |payload| + 1 < TWO_TO_32 && b < WireFrame(flags, payload)
    ensures !ParseWire(b).Frame?
  {
    hide BigEndian, FromBigEndian;
    var n := BigEndian(|payload| + 1, 4);
    ShortLength(flags, payload);
    if |b| >= 4 {
      assert b[..4] == WireFrame(flags, payload)[..4] == n;
    }
  }

  /** Whatever prefix of the sent bytes has arrived: the server has decoded an in-order prefix
      of the requests, each as it was sent, and while it keeps the connection its states
      mirror the encoder's and its unread bytes continue into exactly the frames to come. */
  lemma {:induction false} DrainPrefix(
      z: Wrapping, x: Sender, d: Streams, reqs: seq<WireRequest>, b: Bytes)
    requires z.Inverse() && Mirror(x, d) && AllValid(x.states) && Sendable(z, x, reqs)
    requires b <= SentBytes(z, x, reqs)
    ensures AllValid(d)
    ensures var r := Drain(z, d, b);
      && Received(x, reqs, r.got) && |r.got| <= |reqs|
      && (r.up ==>
            && Mirror(Skip(x, reqs, |r.got|), r.d)
            && r.inbox + SentBytes(z, x, reqs)[|b|..] == SentBytes(z, Skip(x, reqs, |r.got|), reqs[|r.got|..]))
    decreases |reqs|
  {
    hide RequestOk, RequestShared, Mirror, Delivers, SentFrame, SentRequest, AfterFrame, Drain, Short, Wrapping.Inverse;
    hide AllValid, FirstState, FrameBytes;
    MirrorValid(x, d);
    var all := SentBytes(z, x, reqs);
    if reqs == [] {
      assert b == [];
      NoBytes(z, d);
    } else {
      var frame, x' := SentFrame(z, x, reqs[0]), SentRequest(x, reqs[0]);
      var later := SentBytes(z, x', reqs[1..]);
      assert all == frame + later;
      if |b| < |frame| {
        assert b == frame[..|b|];
        assert b < frame;
        PartialDrained(z, x, d, reqs[0], b);
        assert b + all[|b|..] == all;
        assert reqs[0..] == reqs;
      } else {
        var b' := b[|frame|..];
        assert b == frame + b' && b' <= later && later[|b'|..] == all[|b|..];
        FirstDrained(z, x, d, reqs[0], b');
        var r := Drain(z, d, b);
        if r.got != [] {
          var d' := FirstState(z, d, x, reqs[0]);
          MirrorValid(x', d');
          DrainPrefix(z, x', d', reqs[1..], b');
          var more := Drain(z, d', b');
          assert r.got[1..] == more.got;
          assert reqs[1..][|more.got|..] == reqs[|r.got|..];
        }
      }
    }
  }

  /** The server's states after the first frame of a stream. */
  ghost function FirstState(z: Wrapping, d: Streams, x: Sender, req: WireRequest): (d': Streams)
    requires AllValid(d) && AllValid(x.states)
    ensures AllValid(d')
  {
    DecodeFrame(d, FrameBytes(x.states, req)).0
  }

  /** A whole frame at the front: refused if it is too long, delivered otherwise. */
  lemma FirstDrained(z: Wrapping, x: Sender, d: Streams, req: WireRequest, rest: Bytes)
    requires z.Inverse() && Mirror(x, d) && AllValid(x.states) && AllValid(d)
    requires RequestOk(req) && RequestShared(x, req) && Short(z, x, req)
    ensures var r, d' := Drain(z, d, SentFrame(z, x, req) + rest), FirstState(z, d, x, req);
      if |z.compress(FrameBytes(x.states, req))| + 1 > MAX_WIRE then r.got == [] && !r.up
      else
        var more := Drain(z, d', rest);
        && r.got != [] && Delivers(x.states, req, r.got[0]) && r == more.(got := [r.got[0]] + more.got)
        && Mirror(SentRequest(x, req), d')
  {
    hide RequestOk, RequestShared, Mirror, Delivers, FrameBytes, DecodeFrame, SentRequest;
    hide AfterFrame, WireFrame, ParseWire;
    WireRoundTrip(FLAG_GORILLA, z.compress(FrameBytes(x.states, req)), rest);
    FrameDelivered(x, d, req);
  }

  lemma PartialDrained(z: Wrapping, x: Sender, d: Streams, req: WireRequest, b: Bytes)
    requires AllValid(x.states) && AllValid(d) && Short(z, x, req) && b < SentFrame(z, x, req)
    ensures var r := Drain(z, d, b); r.got == [] && r.d == d && r.inbox == b
  {
    hide FrameBytes, WireFrame, ParseWire;
    PartialFrame(FLAG_GORILLA, z.compress(FrameBytes(x.states, req)), b);
  }

  /** A frame of another codec in between is handed over as its decoder says, and does not touch the
      states of the streams. */
  lemma OtherFrame(z: Wrapping, d: Streams, flags: Byte, payload: Bytes, rest: Bytes)
    requires AllValid(d) && flags != FLAG_GORILLA && |payload| + 1 <= MAX_WIRE
    ensures var r := Drain(z, d, WireFrame(flags, payload) + rest);
      match z.stateless(flags, payload)
      case Err => r == Inbound(d, rest, [], false)
      case Ok(req) => var more := Drain(z, d, rest); r == more.(got := [req] + more.got)
  {
    hide WireFrame, ParseWire;
    Pow2Values();
    WireRoundTrip(flags, payload, rest);
  }

  lemma NoBytes(z: Wrapping, d: Streams)
    requires AllValid(d)
    ensures Drain(z, d, []) == Inbound(d, [], [], true)
  {
  }

  /** The encoder's states after the first `m` requests. */
  function Skip(x: Sender, reqs: seq<WireRequest>, m: nat): (x': Sender)
    requires AllValid(x.states) && m <= |reqs|
    ensures AllValid(x'.states)
    decreases m
  {
    if m == 0 then x else Skip(SentRequest(x, reqs[0]), reqs[1..], m - 1)
  }

  // ----- appending -----

  lemma {:induction false} SkipAll(x: Sender, reqs: seq<WireRequest>)
    requires AllValid(x.states)
    ensures Skip(x, reqs, |reqs|) == SentAll(x, reqs)
    decreases |reqs|
  {
    hide SentRequest, AfterFrame;
    if reqs != [] {
      SkipAll(SentRequest(x, reqs[0]), reqs[1..]);
    }
  }

  lemma {:induction false} SentAppend(z: Wrapping, x: Sender, reqs: seq<WireRequest>, req: WireRequest)
    requires AllValid(x.states)
    ensures SentBytes(z, x, reqs + [req]) == SentBytes(z, x, reqs) + SentFrame(z, SentAll(x, reqs), req)
    ensures SentAll(x, reqs + [req]) == SentRequest(SentAll(x, reqs), req)
    ensures (Sendable(z, x, reqs) && RequestOk(req) && RequestShared(SentAll(x, reqs), req)
             && Short(z, SentAll(x, reqs), req)) ==>
      Sendable(z, x, reqs + [req])
    decreases |reqs|
  {
    hide SentRequest, AfterFrame, SentFrame, RequestOk, RequestShared, Short;
    if reqs == [] {
      assert reqs + [req] == [req];
      assert [req][1..] == [];
      assert SentFrame(z, x, req) + [] == [] + SentFrame(z, x, req);
    } else {
      var x' := SentRequest(x, reqs[0]);
      assert (reqs + [req])[1..] == reqs[1..] + [req];
      SentAppend(z, x', reqs[1..], req);
      ConcatAssoc(SentFrame(z, x, reqs[0]), SentBytes(z, x', reqs[1..]), SentFrame(z, SentAll(x, reqs), req));
    }
  }

  lemma {:induction false} ReceivedMore(
      x: Sender, reqs: seq<WireRequest>, more: seq<WireRequest>, got: seq<WireRequest>)
    requires AllValid(x.states) && Received(x, reqs, got)
    ensures Received(x, reqs + more, got) && |got| <= |reqs|
    ensures Skip(x, reqs + more, |got|) == Skip(x, reqs, |got|)
    decreases |got|
  {
    hide SentRequest, AfterFrame, Delivers;
    if got != [] {
      assert (reqs + more)[1..] == reqs[1..] + more;
      ReceivedMore(SentRequest(x, reqs[0]), reqs[1..], more, got[1..]);
    }
  }

  lemma {:induction false} ReceivedConcat(
      x: Sender, reqs: seq<WireRequest>, got: seq<WireRequest>, more: seq<WireRequest>)
    requires AllValid(x.states) && Received(x, reqs, got) && |got| <= |reqs|
    requires Received(Skip(x, reqs, |got|), reqs[|got|..], more) && |more| <= |reqs| - |got|
    ensures Received(x, reqs, got + more)
    ensures Skip(x, reqs, |got| + |more|) == Skip(Skip(x, reqs, |got|), reqs[|got|..], |more|)
    decreases |got|
  {
    hide SentRequest, AfterFrame, Delivers;
    if got == [] {
      assert got + more == more;
      assert reqs[0..] == reqs;
    } else {
      assert (got + more)[1..] == got[1..] + more;
      assert reqs[1..][|got| - 1..] == reqs[|got|..];
      ReceivedConcat(SentRequest(x, reqs[0]), reqs[1..], got[1..], more);
    }
  }

  lemma {:induction false} SendableSkip(z: Wrapping, x: Sender, reqs: seq<WireRequest>, m: nat)
    requires AllValid(x.states) && Sendable(z, x, reqs) && m <= |reqs|
    ensures Sendable(z, Skip(x, reqs, m), reqs[m..])
    decreases m
  {
    hide SentRequest, AfterFrame, RequestOk, RequestShared, Short;
    if m == 0 {
      assert reqs[0..] == reqs;
    } else {
      SendableSkip(z, SentRequest(x, reqs[0]), reqs[1..], m - 1);
      assert reqs[1..][m - 1..] == reqs[m..];
    }
  }

  // ----- frames within the limit -----

  /** No frame is over the server's limit. */
  ghost predicate AllAccepted(z: Wrapping, x: Sender, reqs: seq<WireRequest>)
    requires AllValid(x.states)
    decreases |reqs|
  {
    reqs == [] ||
    (|z.compress(FrameBytes(x.states, reqs[0]))| + 1 <= MAX_WIRE && AllAccepted(z, SentRequest(x, reqs[0]), reqs[1..]))
  }

  /** Requests are accepted together exactly when the first ones and the later ones are. */
  lemma {:induction false} AcceptedSplit(z: Wrapping, x: Sender, reqs: seq<WireRequest>, m: nat)
    requires AllValid(x.states) && m <= |reqs|
    ensures AllAccepted(z, x, reqs) <==>
            AllAccepted(z, x, reqs[..m]) && AllAccepted(z, Skip(x, reqs, m), reqs[m..])
    decreases m
  {
    hide SentRequest, AfterFrame, FrameBytes, AllValid;
    if m == 0 {
      assert reqs[0..] == reqs;
    } else {
      AcceptedSplit(z, SentRequest(x, reqs[0]), reqs[1..], m - 1);
      assert reqs[1..][m - 1..] == reqs[m..];
      assert reqs[..m][1..] == reqs[1..][..m - 1];
    }
  }

  /** Once all bytes have been read, no frame is left over. */
  lemma {:induction false} AllDrained(
      z: Wrapping, x: Sender, d: Streams, reqs: seq<WireRequest>, b: Bytes)
    requires z.Inverse() && Mirror(x, d) && AllValid(x.states) && AllValid(d) && Sendable(z, x, reqs)
    requires b == SentBytes(z, x, reqs)
    ensures var r := Drain(z, d, b); r.up ==> |r.got| == |reqs| && r.inbox == []
    decreases |reqs|
  {
    hide RequestOk, RequestShared, Mirror, Delivers, SentFrame, SentRequest, AfterFrame, Drain, Short, Wrapping.Inverse;
    if reqs == [] {
      NoBytes(z, d);
    } else {
      var x', d' := SentRequest(x, reqs[0]), FirstState(z, d, x, reqs[0]);
      FirstDrained(z, x, d, reqs[0], SentBytes(z, x', reqs[1..]));
      if Drain(z, d, b).got != [] {
        AllDrained(z, x', d', reqs[1..], SentBytes(z, x', reqs[1..]));
      }
    }
  }

  /** Reading a part of a stream decodes only frames within the limit, and gives the stream up
      only over a frame that is not: no decoding error can occur. */
  lemma {:induction false} DrainAccepts(
      z: Wrapping, x: Sender, d: Streams, reqs: seq<WireRequest>, b: Bytes)
    requires z.Inverse() && Mirror(x, d) && AllValid(x.states) && AllValid(d) && Sendable(z, x, reqs)
    requires b <= SentBytes(z, x, reqs)
    ensures var r := Drain(z, d, b);
      && |r.got| <= |reqs| && AllAccepted(z, x, reqs[..|r.got|])
      && (AllAccepted(z, x, reqs) ==> r.up)
    decreases |reqs|
  {
    hide AllValid, FirstState, FrameBytes, RequestOk, RequestShared, Mirror, Delivers, SentFrame, SentRequest;
    hide AfterFrame, Drain, Short, Wrapping.Inverse;
    var r := Drain(z, d, b);
    if reqs == [] {
      NoBytes(z, d);
    } else {
      var frame, x' := SentFrame(z, x, reqs[0]), SentRequest(x, reqs[0]);
      if |b| < |frame| {
        assert b == frame[..|b|];
        PartialDrained(z, x, d, reqs[0], b);
        if AllAccepted(z, x, reqs) {
          PartialUp(z, x, d, reqs[0], b);
        }
      } else {
        var b' := b[|frame|..];
        assert b == frame + b' && b' <= SentBytes(z, x', reqs[1..]);
        FirstDrained(z, x, d, reqs[0], b');
        if r.got != [] {
          DrainAccepts(z, x', FirstState(z, d, x, reqs[0]), reqs[1..], b');
          assert reqs[..|r.got|][1..] == reqs[1..][..|r.got| - 1];
        }
      }
    }
  }

  lemma PartialUp(z: Wrapping, x: Sender, d: Streams, req: WireRequest, b: Bytes)
    requires AllValid(x.states) && AllValid(d) && b < SentFrame(z, x, req)
    requires |z.compress(FrameBytes(x.states, req))| + 1 <= MAX_WIRE
    ensures Drain(z, d, b).up
  {
    hide FrameBytes, BigEndian, FromBigEndian;
    var payload := z.compress(FrameBytes(x.states, req));
    ShortLength(FLAG_GORILLA, payload);
    if |b| >= 4 {
      assert b[..4] == WireFrame(FLAG_GORILLA, payload)[..4] == BigEndian(|payload| + 1, 4);
    }
  }

  // ----- the protocol -----

  /** One connection: the requests whose frames went onto its stream (the last one perhaps in
      part), the bytes written, how many of them the server has read, and the server's side. */
  datatype Conn = Conn(tried: seq<WireRequest>, wire: Bytes, read: nat, server: Inbound)

  const NEW_CONN := Conn([], [], 0, Inbound(map[], [], [], true))

  /** All connections so far; the client uses the last one while it is live. */
  datatype World = World(conns: seq<Conn>, live: bool, enc: Sender)

  datatype Step =
    | Connect
    | Lose
    | Send(req: WireRequest)
    | FailSend(req: WireRequest, written: nat)
    | Deliver(conn: nat, bytes: nat)

  predicate Enabled(w: World, s: Step) {
    match s
    case Connect => !w.live
    case Lose => w.live
    case Send(_) => w.live && w.conns != [] && AllValid(w.enc.states)
    case FailSend(_, _) => w.live && w.conns != [] && AllValid(w.enc.states)
    case Deliver(i, n) =>
      i < |w.conns| && w.conns[i].read + n <= |w.conns[i].wire| && AllValid(w.conns[i].server.d)
  }

  /** The server reads some more bytes. */
  ghost function Reads(z: Wrapping, sv: Inbound, chunk: Bytes): Inbound
    requires AllValid(sv.d)
  {
    if !sv.up then sv
    else
      var r := Drain(z, sv.d, sv.inbox + chunk);
      r.(got := sv.got + r.got)
  }

  /** The server reads `n` more bytes of a connection. */
  ghost function ServerReads(z: Wrapping, c: Conn, n: nat): Conn
    requires c.read + n <= |c.wire| && AllValid(c.server.d)
  {
    c.(read := c.read + n, server := Reads(z, c.server, c.wire[c.read..c.read + n]))
  }

  function Min(a: nat, b: nat): nat {
    if a < b then a else b
  }

  /** The world after a step. A fresh connection and a failed send both reset the encoder. */
  ghost function Next(z: Wrapping, w: World, s: Step): World
    requires Enabled(w, s)
  {
    match s
    case Connect => World(w.conns + [NEW_CONN], true, NEW_SENDER)
    case Lose => w.(live := false)
    case Send(req) =>
      var c := w.conns[|w.conns| - 1];
      var c' := c.(tried := c.tried + [req], wire := c.wire + SentFrame(z, w.enc, req));
      World(w.conns[|w.conns| - 1 := c'], true, SentRequest(w.enc, req))
    case FailSend(req, n) =>
      var c, frame := w.conns[|w.conns| - 1], SentFrame(z, w.enc, req);
      var c' := c.(tried := c.tried + [req], wire := c.wire + frame[..Min(n, |frame|)]);
      World(w.conns[|w.conns| - 1 := c'], false, NEW_SENDER)
    case Deliver(i, n) => w.(conns := w.conns[i := ServerReads(z, w.conns[i], n)])
  }

  /** Every request a step sends can be carried. */
  ghost predicate Sane(z: Wrapping, w: World, s: Step) {
    match s
    case Send(req) => CanSend(z, w.enc, req)
    case FailSend(req, _) => CanSend(z, w.enc, req)
    case _ => true
  }

  ghost predicate CanSend(z: Wrapping, x: Sender, req: WireRequest) {
    AllValid(x.states) && RequestOk(req) && RequestShared(x, req) && Short(z, x, req)
  }

  /** What holds of one connection: the server has decoded, in order, an exact prefix of what
      was sent on it; while it is up, its states mirror the encoder's at that point, and what
      it has not decoded yet is the rest of the stream. */
  ghost predicate ConnOk(z: Wrapping, c: Conn) {
    var all, m := SentBytes(z, NEW_SENDER, c.tried), |c.server.got|;
    && Sendable(z, NEW_SENDER, c.tried)
    && c.wire <= all && c.read <= |c.wire| && AllValid(c.server.d)
    && Received(NEW_SENDER, c.tried, c.server.got) && m <= |c.tried|
    && (c.server.up ==>
          && Mirror(Skip(NEW_SENDER, c.tried, m), c.server.d)
          && c.server.inbox + all[c.read..] == SentBytes(z, Skip(NEW_SENDER, c.tried, m), c.tried[m..]))
  }

  /** The frames that were decoded are within the server's limit, and the server has given up a
      connection only if some frame on it is over the limit. */
  ghost predicate ConnUp(z: Wrapping, c: Conn) {
    && |c.server.got| <= |c.tried| && AllAccepted(z, NEW_SENDER, c.tried[..|c.server.got|])
    && (AllAccepted(z, NEW_SENDER, c.tried) ==> c.server.up)
  }

  /** While the client thinks it is connected, its encoder is where the stream of the last
      connection has taken it, with only whole frames written. */
  ghost predicate Inv(z: Wrapping, w: World) {
    && (forall i :: 0 <= i < |w.conns| ==> ConnOk(z, w.conns[i]) && ConnUp(z, w.conns[i]))
    && (w.live ==>
          && w.conns != []
          && var c := w.conns[|w.conns| - 1];
             c.wire == SentBytes(z, NEW_SENDER, c.tried) && w.enc == SentAll(NEW_SENDER, c.tried))
  }

  lemma NewConnOk(z: Wrapping)
    ensures ConnOk(z, NEW_CONN) && ConnUp(z, NEW_CONN)
  {
    FreshMirror();
  }

  /** Writing a frame, or a part of one, onto a connection that holds only whole frames. */
  lemma WriteKeeps(z: Wrapping, c: Conn, req: WireRequest, n: nat)
    requires ConnOk(z, c) && c.wire == SentBytes(z, NEW_SENDER, c.tried)
    requires RequestOk(req) && RequestShared(SentAll(NEW_SENDER, c.tried), req)
    requires Short(z, SentAll(NEW_SENDER, c.tried), req)
    requires n <= |SentFrame(z, SentAll(NEW_SENDER, c.tried), req)|
    ensures var frame := SentFrame(z, SentAll(NEW_SENDER, c.tried), req);
      ConnOk(z, c.(tried := c.tried + [req], wire := c.wire + frame[..n]))
  {
    hide RequestOk, RequestShared, Short, SentFrame, Mirror, Received, Sendable, SentBytes, Skip, SentAll;
    var frame := SentFrame(z, SentAll(NEW_SENDER, c.tried), req);
    var all, m := SentBytes(z, NEW_SENDER, c.tried), |c.server.got|;
    SentAppend(z, NEW_SENDER, c.tried, req);
    WrittenParts(all, frame, n, c.read);
    ReceivedMore(NEW_SENDER, c.tried, [req], c.server.got);
    if c.server.up {
      var x := Skip(NEW_SENDER, c.tried, m);
      AppendAfterSkip(z, NEW_SENDER, c.tried, m, req);
      assert (c.tried + [req])[m..] == c.tried[m..] + [req];
      ConcatAssoc(c.server.inbox, all[c.read..], frame);
    }
  }

  lemma WrittenParts(all: Bytes, frame: Bytes, n: nat, read: nat)
    requires n <= |frame| && read <= |all|
    ensures all + frame[..n] <= all + frame
    ensures (all + frame)[read..] == all[read..] + frame
  {
  }

  /** Sending one more request after `m` others extends what is left to send. */
  lemma AppendAfterSkip(z: Wrapping, x: Sender, reqs: seq<WireRequest>, m: nat, req: WireRequest)
    requires AllValid(x.states) && m <= |reqs|
    ensures SentBytes(z, Skip(x, reqs, m), reqs[m..] + [req])
      == SentBytes(z, Skip(x, reqs, m), reqs[m..]) + SentFrame(z, SentAll(x, reqs), req)
  {
    SentAppend(z, Skip(x, reqs, m), reqs[m..], req);
    AfterSkip(x, reqs, m);
  }

  lemma {:induction false} AfterSkip(x: Sender, reqs: seq<WireRequest>, m: nat)
    requires AllValid(x.states) && m <= |reqs|
    ensures SentAll(Skip(x, reqs, m), reqs[m..]) == SentAll(x, reqs)
    decreases m
  {
    hide SentRequest, AfterFrame;
    if m == 0 {
      assert reqs[0..] == reqs;
    } else {
      AfterSkip(SentRequest(x, reqs[0]), reqs[1..], m - 1);
      assert reqs[1..][m - 1..] == reqs[m..];
    }
  }

  lemma WriteKeepsUp(z: Wrapping, c: Conn, req: WireRequest, wire: Bytes)
    requires ConnUp(z, c)
    ensures ConnUp(z, c.(tried := c.tried + [req], wire := wire))
  {
    hide AllAccepted, Skip;
    var n, m := |c.tried|, |c.server.got|;
    AcceptedSplit(z, NEW_SENDER, c.tried + [req], n);
    assert (c.tried + [req])[..n] == c.tried && (c.tried + [req])[..m] == c.tried[..m];
  }

  /** The bytes that the server looks at after `n` more: the beginning of what is left to send. */
  lemma Unread(z: Wrapping, c: Conn, n: nat)
    requires ConnOk(z, c) && c.read + n <= |c.wire| && c.server.up
    ensures var m := |c.server.got|;
      var x, left := Skip(NEW_SENDER, c.tried, m), c.tried[m..];
      var b, all := c.server.inbox + c.wire[c.read..c.read + n], SentBytes(z, NEW_SENDER, c.tried);
      && Mirror(x, c.server.d) && Sendable(z, x, left)
      && b <= SentBytes(z, x, left) && SentBytes(z, x, left)[|b|..] == all[c.read + n..]
  {
    hide Mirror, Received, Sendable, SentBytes, Skip;
    var all, m, sv := SentBytes(z, NEW_SENDER, c.tried), |c.server.got|, c.server;
    var chunk := c.wire[c.read..c.read + n];
    assert chunk + all[c.read + n..] == all[c.read..];
    ConcatAssoc(sv.inbox, chunk, all[c.read + n..]);
    assert sv.inbox + chunk + all[c.read + n..] == SentBytes(z, Skip(NEW_SENDER, c.tried, m), c.tried[m..]);
    SendableSkip(z, NEW_SENDER, c.tried, m);
  }

  /** The server reading on keeps the connection's promise. */
  lemma DeliverKeeps(z: Wrapping, c: Conn, n: nat)
    requires z.Inverse() && ConnOk(z, c) && c.read + n <= |c.wire|
    ensures ConnOk(z, ServerReads(z, c, n))
  {
    hide Mirror, Received, Sendable, SentBytes, Skip, Drain, Wrapping.Inverse;
    if c.server.up {
      var m, sv := |c.server.got|, c.server;
      var x, left := Skip(NEW_SENDER, c.tried, m), c.tried[m..];
      var b := sv.inbox + c.wire[c.read..c.read + n];
      Unread(z, c, n);
      DrainPrefix(z, x, sv.d, left, b);
      var r := Drain(z, sv.d, b);
      ReceivedConcat(NEW_SENDER, c.tried, sv.got, r.got);
      assert left[|r.got|..] == c.tried[m + |r.got|..];
    }
  }

  /** Reading on gives a connection up only over a frame that is too long. */
  lemma DeliverKeepsUp(z: Wrapping, c: Conn, n: nat)
    requires z.Inverse() && ConnOk(z, c) && ConnUp(z, c) && c.read + n <= |c.wire|
    ensures ConnUp(z, ServerReads(z, c, n))
  {
    hide Mirror, Received, Sendable, SentBytes, Skip, Drain, Wrapping.Inverse, AllAccepted;
    if c.server.up {
      var m, sv := |c.server.got|, c.server;
      var x, left := Skip(NEW_SENDER, c.tried, m), c.tried[m..];
      var b := sv.inbox + c.wire[c.read..c.read + n];
      Unread(z, c, n);
      DrainAccepts(z, x, sv.d, left, b);
      var k := |Drain(z, sv.d, b).got|;
      AcceptedSplit(z, NEW_SENDER, c.tried, m);
      AcceptedTogether(z, c.tried, m, k);
    }
  }

  lemma AcceptedTogether(z: Wrapping, reqs: seq<WireRequest>, m: nat, k: nat)
    requires m + k <= |reqs| && AllAccepted(z, NEW_SENDER, reqs[..m])
    requires AllAccepted(z, Skip(NEW_SENDER, reqs, m), reqs[m..][..k])
    ensures AllAccepted(z, NEW_SENDER, reqs[..m + k])
  {
    hide AllAccepted, Skip;
    var front := reqs[..m + k];
    assert front[..m] == reqs[..m] && front[m..] == reqs[m..][..k];
    SkipPrefix(NEW_SENDER, reqs, m, m + k);
    AcceptedSplit(z, NEW_SENDER, front, m);
  }

  lemma {:induction false} SkipPrefix(x: Sender, reqs: seq<WireRequest>, m: nat, n: nat)
    requires AllValid(x.states) && m <= n <= |reqs|
    ensures Skip(x, reqs[..n], m) == Skip(x, reqs, m)
    decreases m
  {
    hide SentRequest, AfterFrame;
    if m > 0 {
      assert reqs[..n][1..] == reqs[1..][..n - 1];
      SkipPrefix(SentRequest(x, reqs[0]), reqs[1..], m - 1, n - 1);
    }
  }

  /** Every step keeps the invariant. */
  lemma StepKeeps(z: Wrapping, w: World, s: Step)
    requires z.Inverse() && Inv(z, w) && Enabled(w, s) && Sane(z, w, s)
    ensures Inv(z, Next(z, w, s))
  {
    hide ConnOk, ConnUp, RequestOk, RequestShared, Short, SentFrame, ServerReads, SentBytes, SentAll;
    hide SentRequest, AfterFrame;
    match s
    case Connect =>
      NewConnOk(z);
      NothingSent(z);
    case Lose =>
    case Send(req) =>
      var c := w.conns[|w.conns| - 1];
      var frame := SentFrame(z, w.enc, req);
      WriteKeeps(z, c, req, |frame|);
      WriteKeepsUp(z, c, req, c.wire + frame);
      assert frame[..|frame|] == frame;
      SentAppend(z, NEW_SENDER, c.tried, req);
    case FailSend(req, n) =>
      var c, frame := w.conns[|w.conns| - 1], SentFrame(z, w.enc, req);
      WriteKeeps(z, c, req, Min(n, |frame|));
      WriteKeepsUp(z, c, req, c.wire + frame[..Min(n, |frame|)]);
    case Deliver(i, n) =>
      ConnRead(z, w.conns[i]);
      DeliverKeeps(z, w.conns[i], n);
      DeliverKeepsUp(z, w.conns[i], n);
      DeliverKeepsWriting(z, w.conns[i], n);
  }

  lemma NothingSent(z: Wrapping)
    ensures SentBytes(z, NEW_SENDER, []) == [] && SentAll(NEW_SENDER, []) == NEW_SENDER
  {
  }

  lemma ConnRead(z: Wrapping, c: Conn)
    requires ConnOk(z, c)
    ensures c.read <= |c.wire| && AllValid(c.server.d)
  {
  }

  lemma DeliverKeepsWriting(z: Wrapping, c: Conn, n: nat)
    requires c.read + n <= |c.wire| && AllValid(c.server.d)
    ensures ServerReads(z, c, n).tried == c.tried && ServerReads(z, c, n).wire == c.wire
  {
  }

  /** A run: every step enabled and sane where it is taken. */
  ghost predicate Run(z: Wrapping, w: World, steps: seq<Step>)
    decreases |steps|
  {
    steps == [] ||
    (Enabled(w, steps[0]) && Sane(z, w, steps[0]) && Run(z, Next(z, w, steps[0]), steps[1..]))
  }

  ghost function After(z: Wrapping, w: World, steps: seq<Step>): World
    requires Run(z, w, steps)
    decreases |steps|
  {
    if steps == [] then w else After(z, Next(z, w, steps[0]), steps[1..])
  }

  lemma {:induction false} RunKeeps(z: Wrapping, w: World, steps: seq<Step>)
    requires z.Inverse() && Inv(z, w) && Run(z, w, steps)
    ensures Inv(z, After(z, w, steps))
    decreases |steps|
  {
    hide Inv, Enabled, Sane, Next;
    if steps != [] {
      StepKeeps(z, w, steps[0]);
      RunKeeps(z, Next(z, w, steps[0]), steps[1..]);
    }
  }

  const START := World([], false, NEW_SENDER)

  /** Safety over all runs: for any interleaving of connects, sends, failed sends, losses and
      deliveries of any number of bytes, what the server has decoded on a connection is an
      in-order prefix of what was sent on that connection, each request as it was sent. */
  lemma Safety(z: Wrapping, steps: seq<Step>, i: nat)
    requires z.Inverse() && Run(z, START, steps)
    requires i < |After(z, START, steps).conns|
    ensures var c := After(z, START, steps).conns[i];
      Received(NEW_SENDER, c.tried, c.server.got)
  {
    RunKeeps(z, START, steps);
  }

  /** Over all runs, the server never gives up a connection whose frames are all within its
      limit: no decoding error can occur, so no resynchronization is ever forced. */
  lemma StaysUp(z: Wrapping, steps: seq<Step>, i: nat)
    requires z.Inverse() && Run(z, START, steps)
    requires i < |After(z, START, steps).conns|
    ensures var c := After(z, START, steps).conns[i];
      AllAccepted(z, NEW_SENDER, c.tried) ==> c.server.up
  {
    hide AllAccepted;
    RunKeeps(z, START, steps);
  }

  /** The server once it has read everything that was written on a connection. */
  ghost function ReadOut(z: Wrapping, c: Conn): Inbound
    requires c.read <= |c.wire| && AllValid(c.server.d)
  {
    Reads(z, c.server, c.wire[c.read..])
  }

  /** A connection with only whole frames written, once they are all read: the server has kept
      it exactly when every frame is within the limit, and then it has every request and
      mirrors the encoder. */
  lemma ConnMeets(z: Wrapping, c: Conn)
    requires z.Inverse() && ConnOk(z, c) && ConnUp(z, c) && c.wire == SentBytes(z, NEW_SENDER, c.tried)
    ensures var sv := ReadOut(z, c);
      && (sv.up <==> AllAccepted(z, NEW_SENDER, c.tried))
      && (sv.up ==> |sv.got| == |c.tried| && sv.inbox == [] && Mirror(SentAll(NEW_SENDER, c.tried), sv.d))
  {
    hide Mirror, Received, Sendable, Drain, Wrapping.Inverse, SentBytes, Skip, SentAll, AllAccepted;
    if c.server.up {
      var m, n := |c.server.got|, |c.wire| - c.read;
      var x, left := Skip(NEW_SENDER, c.tried, m), c.tried[m..];
      var b := c.server.inbox + c.wire[c.read..];
      assert c.wire[c.read..c.read + n] == c.wire[c.read..];
      Unread(z, c, n);
      assert b == SentBytes(z, x, left);
      var r := Drain(z, c.server.d, b);
      DrainAccepts(z, x, c.server.d, left, b);
      AcceptedSplit(z, NEW_SENDER, c.tried, m);
      AllDrained(z, x, c.server.d, left, b);
      if r.up {
        assert left[..|r.got|] == left;
        DrainPrefix(z, x, c.server.d, left, b);
        SkipAll(x, left);
        AfterSkip(NEW_SENDER, c.tried, m);
      }
    }
  }

  /** Over all runs, on a live connection: the server's states, advanced by the frames still
      under way, mirror the encoder's, unless one of the frames is over the limit. */
  lemma LiveStatesMeet(z: Wrapping, steps: seq<Step>)
    requires z.Inverse() && Run(z, START, steps) && After(z, START, steps).live
    ensures var w := After(z, START, steps);
      && w.conns != []
      && var c := w.conns[|w.conns| - 1];
         && c.read <= |c.wire| && AllValid(c.server.d)
         && var sv := ReadOut(z, c);
            && (sv.up <==> AllAccepted(z, NEW_SENDER, c.tried))
            && (sv.up ==> |sv.got| == |c.tried| && sv.inbox == [] && Mirror(w.enc, sv.d))
  {
    hide ConnOk, ConnUp, ReadOut, AllAccepted, Mirror, SentBytes, SentAll, After, Run, Wrapping.Inverse;
    RunKeeps(z, START, steps);
    var w := After(z, START, steps);
    var c := w.conns[|w.conns| - 1];
    assert ConnOk(z, c) && ConnUp(z, c);
    ConnRead(z, c);
    ConnMeets(z, c);
  }

  /** One more step at the end of a run. */
  lemma {:induction false} RunStep(z: Wrapping, w: World, steps: seq<Step>, s: Step)
    requires Run(z, w, steps)
    requires Enabled(After(z, w, steps), s) && Sane(z, After(z, w, steps), s)
    ensures Run(z, w, steps + [s])
    ensures After(z, w, steps + [s]) == Next(z, After(z, w, steps), s)
    decreases |steps|
  {
    hide Enabled, Sane, Next;
    if steps == [] {
      assert steps + [s] == [s];
      assert [s][1..] == [];
    } else {
      assert (steps + [s])[1..] == steps[1..] + [s];
      RunStep(z, Next(z, w, steps[0]), steps[1..], s);
    }
  }
}
