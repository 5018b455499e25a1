/** The exporter (`internal/pipeline/exporter.go`) with the client it drives, and the
    server's read loop (`server/main/quic_server.go`), proved to take only the steps of the
    protocol in Connection. What the network does is an argument of each call. */
module Exporter {
  import opened Words
  import opened ByteCodec
  import opened StreamFormat
  import opened StreamMirror
  import opened StreamConnection
  import opened Connection
  import FrameEncoder
  import FrameDecoder

  /** What the network does in one attempt: whether the old connection is still up, whether
      dialling works, and after how many bytes writing the frame fails, if it does. */
  datatype Attempt = Attempt(alive: bool, dials: bool, failsAfter: Option<nat>)

  class Client {
    var connected: bool
    var wire: Bytes

    constructor ()
      ensures !connected
    {
      connected, wire := false, [];
    }

    /** The connection's context may have ended by the time it is asked. */
    method IsConnected(alive: bool) returns (r: bool)
      modifies this
      ensures r == connected == (old(connected) && alive) && wire == old(wire)
    {
      connected := connected && alive;
      return connected;
    }

    method Connect(works: bool) returns (ok: bool)
      modifies this
      ensures ok == connected == works
      ensures ok ==> wire == []
    {
      connected := works;
      if works {
        wire := [];
      }
      return works;
    }

    /** Writes one frame to the data stream; a failure may leave a part of it there. */
    method SendRaw(flags: Byte, data: Bytes, failsAfter: Option<nat>) returns (ok: bool)
      requires connected
      modifies this
      ensures connected && ok == failsAfter.None?
      ensures wire == old(wire) +
        if ok then WireFrame(flags, data) else WireFrame(flags, data)[..Min(failsAfter.value, |WireFrame(flags, data)|)]
    {
      var frame: Bytes := BigEndian(|data| + 1, 4) + [flags] + data;
      ConcatAssoc(BigEndian(|data| + 1, 4), [flags], data);
      match failsAfter
      case None =>
        wire := wire + frame;
        return true;
      case Some(n) =>
        wire := wire + frame[..Min(n, |frame|)];
        return false;
    }

    method Close()
      modifies this
      ensures !connected && wire == old(wire)
    {
      connected := false;
    }
  }

  class Exporter {
    const z: Wrapping
    const maxRetries: nat
    const client: Client
    const encoder: FrameEncoder.StreamEncoder
    ghost var world: World

    constructor (z: Wrapping, maxRetries: nat)
      requires z.Inverse()
      ensures Valid() && world == START
      ensures this.z == z && this.maxRetries == maxRetries
      ensures fresh(client) && fresh(encoder) && encoder.series == map[]
    {
      this.z, this.maxRetries := z, maxRetries;
      client := new Client();
      encoder := new FrameEncoder.StreamEncoder();
      world := START;
    }

    /** Client and encoder are where the protocol's state says they are. */
    ghost predicate Valid()
      reads this, client, encoder, encoder.series.Values
    {
      && z.Inverse() && encoder.Valid() && Inv(z, world)
      && client.connected == world.live && encoder.View() == world.enc.states
      && (client.connected ==> client.wire == world.conns[|world.conns| - 1].wire)
    }

    /** The request can be carried on the connection at hand, and on a fresh one. */
    static ghost predicate Fits(z: Wrapping, x: Sender, req: WireRequest) {
      && AllValid(x.states) && RequestOk(req)
      && RequestShared(x, req) && Short(z, x, req)
      && RequestShared(NEW_SENDER, req) && Short(z, NEW_SENDER, req)
    }

    /** Reconnects, losses and failed sends of this request only. */
    static ghost predicate Failing(req: WireRequest, steps: seq<Step>) {
      forall s :: s in steps ==> s.Connect? || s.Lose? || (s.FailSend? && s.req == req)
    }

    /** After any such steps, the request is sent whole, once, as the last step. */
    static ghost predicate Shipped(req: WireRequest, steps: seq<Step>) {
      steps != [] && steps[|steps| - 1] == Send(req) && Failing(req, steps[..|steps| - 1])
    }

    /** An attempt that gets the frame out: on the connection at hand, or on a new one. */
    static predicate Succeeds(connected: bool, a: Attempt) {
      a.failsAfter.None? && (a.dials || (connected && a.alive))
    }

    /** Some attempt within the retry limit gets the frame out. Every attempt but the first has
        to dial, because a failed one leaves no connection. */
    ghost predicate Reaches(connected: bool, plan: seq<Attempt>) {
      exists i :: 0 <= i < |plan| && i <= maxRetries && Succeeds(connected && i == 0, plan[i])
    }

    /** Ships one batch: reconnects and resets as needed, never repeating an encoded frame.
        `parsed` is the batch unmarshalled; fewer attempts in `plan` than retries allow stand
        for a cancelled context. The batch is exported exactly when there is nothing to send, or
        it can be read and some attempt succeeds. The protocol takes the steps returned; the
        frame was written whole, as the very last step, exactly when the batch is exported. */
    method ExportBatch(raw: Bytes, parsed: Result<WireRequest>, plan: seq<Attempt>)
        returns (ok: bool, ghost steps: seq<Step>)
      requires Valid()
      requires parsed.Ok? ==> Fits(z, world.enc, parsed.value)
      modifies this, client, encoder, encoder.series.Values
      ensures Valid()
      ensures fresh(encoder.series.Values - old(encoder.series.Values))
      ensures ok <==> raw == [] || (parsed.Ok? && Reaches(old(client.connected), plan))
      ensures raw == [] ==> steps == []
      ensures raw != [] && parsed.Err? ==> steps == []
      ensures Run(z, old(world), steps) && world == After(z, old(world), steps)
      ensures raw != [] && parsed.Ok? ==>
        if ok then Shipped(parsed.value, steps) else Failing(parsed.value, steps)
    {
      hide Inv, Run, After, Fits, FrameEncoder.StreamEncoder.View, FrameEncoder.StreamEncoder.Valid;
      NoSteps(world);
      steps := [];
      if |raw| == 0 {
        return true, steps;
      }
      if parsed.Err? {
        return false, steps;
      }
      var req := parsed.value;
      var attempt := 0;
      while attempt <= maxRetries && attempt < |plan|
        invariant Valid() && fresh(encoder.series.Values - old(encoder.series.Values))
        invariant Run(z, old(world), steps) && world == After(z, old(world), steps)
        invariant Failing(req, steps) && Fits(z, world.enc, req)
        invariant attempt <= |plan| && attempt <= maxRetries + 1
        invariant client.connected == (attempt == 0 && old(client.connected))
        invariant forall i :: 0 <= i < attempt ==> !Succeeds(old(client.connected) && i == 0, plan[i])
        decreases |plan| - attempt
      {
        var sent;
        ghost var more;
        sent, more := Try(req, plan[attempt]);
        RunConcat(old(world), steps, more);
        FailingConcat(req, steps, more);
        steps := steps + more;
        if sent {
          assert Succeeds(old(client.connected) && attempt == 0, plan[attempt]);
          return true, steps;
        }
        attempt := attempt + 1;
      }
      return false, steps;
    }

    static lemma FailingConcat(req: WireRequest, steps: seq<Step>, more: seq<Step>)
      requires Failing(req, steps)
      ensures Failing(req, more) ==> Failing(req, steps + more)
      ensures Shipped(req, more) ==> Shipped(req, steps + more)
    {
      if Shipped(req, more) {
        assert (steps + more)[..|steps + more| - 1] == steps + more[..|more| - 1];
      }
    }

    lemma {:induction false} RunConcat(w: World, steps: seq<Step>, more: seq<Step>)
      requires Run(z, w, steps) && Run(z, After(z, w, steps), more)
      ensures Run(z, w, steps + more)
      ensures After(z, w, steps + more) == After(z, After(z, w, steps), more)
      decreases |steps|
    {
      hide Enabled, Sane, Next;
      if steps == [] {
        assert steps + more == more;
      } else {
        assert (steps + more)[1..] == steps[1..] + more;
        RunConcat(Next(z, w, steps[0]), steps[1..], more);
      }
    }

    /** Takes one step of the protocol that client and encoder have just taken. */
    ghost method Advance(start: World, steps: seq<Step>, s: Step) returns (more: seq<Step>)
      requires z.Inverse() && Inv(z, world)
      requires Run(z, start, steps) && world == After(z, start, steps)
      requires Enabled(world, s) && Sane(z, world, s)
      modifies this`world
      ensures more == steps + [s] && world == Next(z, old(world), s) && Inv(z, world)
      ensures Run(z, start, more) && world == After(z, start, more)
    {
      hide Inv, Run, After, Enabled, Sane, Next;
      StepKeeps(z, world, s);
      RunStep(z, start, steps, s);
      more := steps + [s];
      world := Next(z, world, s);
    }

    /** One attempt of the retry loop. */
    method Try(req: WireRequest, a: Attempt) returns (sent: bool, ghost steps: seq<Step>)
      requires Valid() && Fits(z, world.enc, req)
      modifies this, client, encoder, encoder.series.Values
      ensures Valid() && fresh(encoder.series.Values - old(encoder.series.Values))
      ensures Run(z, old(world), steps) && world == After(z, old(world), steps)
      ensures sent <==> Succeeds(old(client.connected), a)
      ensures !sent ==> !client.connected
      ensures if sent then Shipped(req, steps) else Failing(req, steps) && Fits(z, world.enc, req)
    {
      hide Inv, Run, After, Fits, FrameEncoder.StreamEncoder.View, FrameEncoder.StreamEncoder.Valid;
      FitsFresh(world.enc, req);
      ghost var start := world;
      var up;
      up, steps := Reconnect(req, a);
      if !up {
        return false, steps;
      }
      ghost var before := steps;
      sent, steps := EncodeAndSend(req, a.failsAfter, start, steps);
      assert steps[..|steps| - 1] == before;
    }

    /** Dials if the connection is gone, and restarts the encoder on a new one. */
    method Reconnect(req: WireRequest, a: Attempt) returns (up: bool, ghost steps: seq<Step>)
      requires Valid() && Fits(z, world.enc, req)
      modifies this, client, encoder, encoder.series.Values
      ensures Valid() && fresh(encoder.series.Values - old(encoder.series.Values))
      ensures Run(z, old(world), steps) && world == After(z, old(world), steps)
      ensures up == client.connected == (a.dials || (old(client.connected) && a.alive))
      ensures Failing(req, steps) && Fits(z, world.enc, req)
    {
      hide Inv, Run, After, Fits, FrameEncoder.StreamEncoder.View, FrameEncoder.StreamEncoder.Valid;
      hide AllValid, SentRequest, SentFrame, Wrapping.Inverse, ServerReads;
      FitsFresh(world.enc, req);
      ghost var start := world;
      steps := [];
      NoSteps(start);
      up := client.IsConnected(a.alive);
      if up {
        return;
      }
      if world.live {
        steps := Advance(start, steps, Lose);
      }
      up := client.Connect(a.dials);
      if !up {
        return;
      }
      encoder.Reset();
      steps := Advance(start, steps, Connect);
    }

    lemma FitsFresh(x: Sender, req: WireRequest)
      requires Fits(z, x, req)
      ensures Fits(z, NEW_SENDER, req)
    {
    }

    lemma NoSteps(w: World)
      ensures Run(z, w, []) && After(z, w, []) == w
    {
    }

    /** Encodes against the state of the connection at hand, and drops both on failure. */
    method EncodeAndSend(req: WireRequest, failsAfter: Option<nat>, ghost start: World, ghost before: seq<Step>)
        returns (sent: bool, ghost steps: seq<Step>)
      requires Valid() && client.connected && Fits(z, world.enc, req)
      requires Run(z, start, before) && world == After(z, start, before)
      modifies this, client, encoder, encoder.series.Values
      ensures Valid() && fresh(encoder.series.Values - old(encoder.series.Values))
      ensures Run(z, start, steps) && world == After(z, start, steps)
      ensures sent == failsAfter.None? && client.connected == sent && (!sent ==> world.enc == NEW_SENDER)
      ensures steps == before + [if sent then Send(req) else FailSend(req, failsAfter.value)]
    {
      hide Inv, Run, After, RequestOk, RequestShared, Short, FrameBytes, AfterFrame, SentRequest, WireFrame;
      hide Wrapping.Inverse, ServerReads, FrameEncoder.StreamEncoder.View, FrameEncoder.StreamEncoder.Valid;
      LiveConn(world);
      encoder.ViewValid();
      var frame := encoder.EncodeFrame(req);
      var ok := client.SendRaw(FLAG_GORILLA, z.compress(frame), failsAfter);
      if !ok {
        client.Close();
        encoder.Reset();
        steps := Advance(start, before, FailSend(req, failsAfter.value));
        return false, steps;
      }
      steps := Advance(start, before, Send(req));
      return true, steps;
    }

    lemma LiveConn(w: World)
      requires Inv(z, w)
      ensures w.live ==> w.conns != []
    {
    }
  }

  /** The read loop of one connection. */
  class Server {
    const z: Wrapping
    const decoder: FrameDecoder.StreamDecoder
    var inbox: Bytes
    var got: seq<WireRequest>
    var up: bool

    constructor (z: Wrapping)
      ensures Valid() && this.z == z && View() == NEW_CONN.server && fresh(decoder)
    {
      this.z := z;
      decoder := new FrameDecoder.StreamDecoder();
      inbox, got, up := [], [], true;
    }

    ghost predicate Valid()
      reads this, decoder, decoder.series.Values
    {
      decoder.Valid()
    }

    ghost function View(): Inbound
      reads this, decoder, decoder.series.Values
    {
      Inbound(decoder.View(), inbox, got, up)
    }

    /** Reads a chunk of the stream and decodes every frame it completes. */
    method Receive(chunk: Bytes)
      requires Valid()
      modifies this, decoder
      ensures Valid()
      ensures AllValid(old(View()).d) && View() == Reads(z, old(View()), chunk)
    {
      hide ParseWire, FrameDecoder.StreamDecoder.View, DecodePayload;
      ghost var start := View();
      decoder.ViewValid();
      if !up {
        return;
      }
      inbox := inbox + chunk;
      ghost var all := Drain(z, decoder.View(), inbox);
      assert got + all.got == start.got + all.got;
      while up
        invariant Valid()
        invariant up ==> all.(got := start.got + all.got) == Resumed(z, decoder.View(), inbox, got)
        invariant !up ==> View() == all.(got := start.got + all.got)
        decreases if up then 1 else 0, |inbox|
      {
        decoder.ViewValid();
        match ParseWire(inbox)
        case Partial =>
          assert got + [] == got;
          break;
        case Refused =>
          assert got + [] == got;
          up := false;
        case Frame(flags, payload, rest) =>
          ghost var d := decoder.View();
          var r := Decode(flags, payload);
          assert Drain(z, d, inbox) == DrainStep(z, decoder.View(), rest, r);
          inbox := rest;
          if r.Err? {
            assert got + [] == got;
            up := false;
          } else {
            ConcatAssoc(got, [r.value], Drain(z, decoder.View(), rest).got);
            got := got + [r.value];
          }
      }
    }

    method Decode(flags: Byte, payload: Bytes) returns (r: Result<WireRequest>)
      requires Valid()
      modifies decoder
      ensures Valid() && AllValid(old(decoder.View()))
      ensures (decoder.View(), r) == DecodePayload(z, old(decoder.View()), flags, payload)
    {
      if flags != FLAG_GORILLA {
        return z.stateless(flags, payload);
      }
      var frame := z.expand(payload);
      if frame.Err? {
        return Err;
      }
      r := decoder.DecodeFrame(frame.value);
    }
  }

  /** Draining on, after the requests already decoded. */
  ghost function Resumed(z: Wrapping, d: Streams, b: Bytes, got: seq<WireRequest>): Inbound
    requires AllValid(d)
  {
    var r := Drain(z, d, b);
    r.(got := got + r.got)
  }

  ghost function DrainStep(z: Wrapping, d: Streams, rest: Bytes, r: Result<WireRequest>): Inbound
    requires AllValid(d)
  {
    if r.Err? then Inbound(d, rest, [], false)
    else
      var more := Drain(z, d, rest);
      more.(got := [r.value] + more.got)
  }
}
