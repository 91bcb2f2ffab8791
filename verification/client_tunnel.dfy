/** The local agent's tunnel to the remote agent: one per SOCKS5 connection that got as
    far as a CONNECT request. It connects to the remote agent, sends the framed REQUEST,
    turns the framed RESPONSE into a SOCKS5 reply to the application and afterwards
    unwraps DATA frames onto the application connection. Leg `Server` is the application
    connection (`serverCon_`), leg `Client` the connection to the remote agent. */
module ClientTunnel {
  import opened Bytes
  import opened Effects
  import opened Wire
  import opened Framing
  import Packet
  import Backpressure

  datatype State = Init | SetUp | Connected | Transport | Teardown

  /** `clientUp`: `clientCon_` holds a connection; `timerArmed`: the timeout timer is
      pending; `hasCallback`: a transport callback was set. */
  datatype Tunnel = Tunnel(
    domain: Bytes, port: nat, password: Bytes, timeout: real,
    state: State, clientUp: bool, timerArmed: bool, hasCallback: bool,
    flow: Backpressure.Flow)

  /** Result of a handler: the tunnel afterwards and the effects, in order. */
  datatype Out = Out(tunnel: Tunnel, actions: seq<Action>)

  /** Result of a message handler: also the number of bytes retrieved from the buffer. */
  datatype Step = Step(tunnel: Tunnel, consumed: nat, actions: seq<Action>)

  const DefaultTimeout: real := 6.0

  /** Commands the tunnel's REQUEST carries: only CONNECT. */
  const CmdConnect: nat := 0x01

  /** SOCKS5 reply codes the tunnel writes to the application. */
  const RepSuccess: nat := 0x00
  const RepGeneralFailure: byte := 0x01
  const RepTtlExpired: byte := 0x04

  function New(domain: Bytes, port: nat, password: Bytes): (t: Tunnel)
    ensures t.state == Init && !t.clientUp && !t.timerArmed && !t.hasCallback
    ensures t.timeout == DefaultTimeout && t.flow == Backpressure.Idle
    ensures t.domain == domain && t.port == port && t.password == password
  {
    Tunnel(domain, port, password, DefaultTimeout, Init, false, false, false, Backpressure.Idle)
  }

  /** Installs the handlers, watches the application leg's high-water mark and arms the
      timeout. */
  function Setup(t: Tunnel): (r: Out)
    ensures r.tunnel == t.(state := SetUp, timerArmed := true)
    ensures r.actions == [WatchHighWater(Server, HighWaterMark), ArmTimer(t.timeout)]
  {
    Out(t.(state := SetUp, timerArmed := true),
        [WatchHighWater(Server, HighWaterMark), ArmTimer(t.timeout)])
  }

  /** What the SOCKS5 front end does for a parsed request: construct the tunnel, give it
      the front end's timeout and transport callback, set it up and connect. */
  function Open(domain: Bytes, port: nat, password: Bytes, timeout: real): (r: Out)
    ensures r.tunnel.state == SetUp && r.tunnel.timerArmed && r.tunnel.hasCallback
    ensures !r.tunnel.clientUp && r.tunnel.flow == Backpressure.Idle
    ensures r.tunnel.domain == domain && r.tunnel.port == port && r.tunnel.password == password
    ensures r.actions == [WatchHighWater(Server, HighWaterMark), ArmTimer(timeout), Connect]
  {
    var s := Setup(New(domain, port, password).(timeout := timeout, hasCallback := true));
    Out(s.tunnel, s.actions + [Connect])
  }

  /** Restores the default handlers, clears the application connection's context, shuts
      it down and forgets the remote connection. The timer is left running. */
  function TeardownOf(t: Tunnel): (r: Out)
    ensures r.tunnel.state == Teardown && !r.tunnel.clientUp
    ensures r.tunnel.timerArmed == t.timerArmed && r.tunnel.flow == t.flow
    ensures r.actions == [ClearContext(Server), Shutdown(Server)]
  {
    Out(t.(state := Teardown, clientUp := false), [ClearContext(Server), Shutdown(Server)])
  }

  /** A second teardown leaves the tunnel as the first one left it. */
  lemma TeardownIdempotent(t: Tunnel)
    ensures TeardownOf(TeardownOf(t).tunnel).tunnel == TeardownOf(t).tunnel
  {
  }

  /** Writes a 10-byte SOCKS5 reply carrying `rep` to the application, then tears down. */
  function SendResponseAndTeardown(t: Tunnel, rep: byte): (r: Out)
    ensures r.tunnel == TeardownOf(t).tunnel
    ensures r.actions == [Send(Server, Packet.ErrorReply(rep)), ClearContext(Server), Shutdown(Server)]
  {
    var d := TeardownOf(t);
    Out(d.tunnel, [Send(Server, Packet.ErrorReply(rep))] + d.actions)
  }

  /** The REQUEST frame the tunnel sends once connected. */
  function RequestFrame(c: Codec, t: Tunnel): Bytes
  {
    EncodeFrame(ClientPayload(c, Request(t.password, CmdConnect, t.domain, t.port)))
  }

  function OnConnection(c: Codec, t: Tunnel, up: bool): (r: Out)
    ensures up ==> r.tunnel == t.(state := Connected, clientUp := true)
    ensures up ==> r.actions == [Send(Client, RequestFrame(c, t))]
    ensures !up && t.state == Connected ==> r == SendResponseAndTeardown(t, RepGeneralFailure)
    ensures !up && t.state != Connected ==> r == TeardownOf(t)
  {
    if up then Out(t.(state := Connected, clientUp := true), [Send(Client, RequestFrame(c, t))])
    else if t.state == Connected then SendResponseAndTeardown(t, RepGeneralFailure)
    else TeardownOf(t)
  }

  /** The reply codes the remote agent may report that reach the application unchanged;
      every other failure is reported as general failure. */
  predicate PassedThrough(rep: nat)
  {
    rep == 0x03 || rep == 0x04 || rep == 0x05 || rep == 0x07
  }

  function ForwardedRep(rep: nat): (b: byte)
    ensures PassedThrough(rep) ==> b == rep
    ensures !PassedThrough(rep) ==> b == RepGeneralFailure
  {
    if PassedThrough(rep) then rep else RepGeneralFailure
  }

  /** The success branch: enter Transport, cancel a pending timer, send the success reply
      with the address the remote agent reported, link the legs, resume reading the
      application and announce the transport. */
  function OnSuccess(t: Tunnel, addr: nat, port: nat): (r: Out)
    ensures r.tunnel == t.(state := Transport, timerArmed := false)
    ensures r.actions ==
      (if t.timerArmed then [CancelTimer] else [])
      + [Send(Server, Packet.SuccessReply(addr, port)), SetContext(Server), StartRead(Server)]
      + (if t.hasCallback then [TransportReady] else [])
  {
    Out(t.(state := Transport, timerArmed := false),
        (if t.timerArmed then [CancelTimer] else [])
        + [Send(Server, Packet.SuccessReply(addr, port)), SetContext(Server), StartRead(Server)]
        + (if t.hasCallback then [TransportReady] else []))
  }

  /** One frame's payload while Connected. */
  function OnReply(c: Codec, t: Tunnel, payload: Bytes): (r: Out)
  {
    match c.parseServer(payload)
    case Some(Response(rep, addr, port)) =>
      if rep == RepSuccess then OnSuccess(t, addr, port)
      else SendResponseAndTeardown(t, ForwardedRep(rep))
    case _ => SendResponseAndTeardown(t, RepGeneralFailure)
  }

  /** The reply mapping: success enters Transport; any other reply code, another message
      type or an unparsable payload ends the tunnel after one SOCKS5 reply, whose code is
      the remote code when it is one of 3, 4, 5, 7 and general failure otherwise. */
  lemma ReplyMapping(c: Codec, t: Tunnel, payload: Bytes)
    ensures OnReply(c, t, payload).tunnel.state == Transport
        <==> c.parseServer(payload).Some? && c.parseServer(payload).value.Response?
             && c.parseServer(payload).value.rep == RepSuccess
    ensures OnReply(c, t, payload).tunnel.state != Transport ==>
      OnReply(c, t, payload).tunnel.state == Teardown &&
      OnReply(c, t, payload).actions[0] == Send(Server, Packet.ErrorReply(
        if c.parseServer(payload).Some? && c.parseServer(payload).value.Response?
        then ForwardedRep(c.parseServer(payload).value.rep) else RepGeneralFailure))
  {
  }

  /** The Transport decode loop: every complete frame is handled, even after one of them
      tore the tunnel down. A DATA payload goes to the application byte for byte; an
      empty one is fatal; anything else tears down. */
  function Drain(c: Codec, t: Tunnel, buf: Bytes): (r: Step)
    ensures r.consumed <= |buf|
    ensures r.tunnel.state == t.state || r.tunnel.state == Teardown
    ensures !Decode(buf).Frame? && !Decode(buf).Malformed? ==> r == Step(t, 0, [])
    decreases |buf|
  {
    match Decode(buf)
    case NeedMore => Step(t, 0, [])
    case Malformed =>
      var d := TeardownOf(t);
      Step(d.tunnel, |buf|, d.actions)
    case Frame(p, n) =>
      match c.parseServer(p)
      case Some(ServerData(data)) =>
        if data == [] then Step(t, n, [Abort])
        else
          var rest := Drain(c, t, buf[n..]);
          Step(rest.tunnel, n + rest.consumed, [Send(Server, data)] + rest.actions)
      case _ =>
        var d := TeardownOf(t);
        var rest := Drain(c, d.tunnel, buf[n..]);
        Step(rest.tunnel, n + rest.consumed, d.actions + rest.actions)
  }

  /** `onMessage` as written: while Connected only the first frame is handled, whatever
      follows it in the buffer. Messages in Init or SetUp tear down; after teardown they
      are ignored. A negative frame length is treated as an unreadable message and the
      buffer is dropped. */
  function OnMessage(c: Codec, t: Tunnel, buf: Bytes): (r: Step)
    ensures r.consumed <= |buf|
    ensures t.state == Connected && Decode(buf).NeedMore? ==> r == Step(t, 0, [])
    ensures t.state == Connected && Decode(buf).Malformed? ==>
      r == Step(SendResponseAndTeardown(t, RepGeneralFailure).tunnel, |buf|,
                SendResponseAndTeardown(t, RepGeneralFailure).actions)
    ensures t.state == Connected && Decode(buf).Frame? ==>
      r == Step(OnReply(c, t, Decode(buf).payload).tunnel, Decode(buf).size,
                OnReply(c, t, Decode(buf).payload).actions)
    ensures t.state == Transport ==> r == Drain(c, t, buf)
    ensures t.state == Init || t.state == SetUp ==> r == Step(TeardownOf(t).tunnel, 0, TeardownOf(t).actions)
    ensures t.state == Teardown ==> r == Step(t, 0, [])
  {
    match t.state
    case Connected =>
      (match Decode(buf)
       case NeedMore => Step(t, 0, [])
       case Malformed =>
         var d := SendResponseAndTeardown(t, RepGeneralFailure);
         Step(d.tunnel, |buf|, d.actions)
       case Frame(p, n) =>
         var o := OnReply(c, t, p);
         Step(o.tunnel, n, o.actions))
    case Transport => Drain(c, t, buf)
    case Teardown => Step(t, 0, [])
    case _ =>
      var d := TeardownOf(t);
      Step(d.tunnel, 0, d.actions)
  }

  /** `onMessage` with the Connected branch corrected: once the success reply switched
      the tunnel to Transport, the frames after it in the same buffer are drained too. */
  function OnMessageFixed(c: Codec, t: Tunnel, buf: Bytes): (r: Step)
    ensures r.consumed <= |buf|
    ensures t.state != Connected ==> r == OnMessage(c, t, buf)
    ensures t.state == Connected && Decode(buf).Frame? ==>
      var n := Decode(buf).size;
      var o := OnReply(c, t, Decode(buf).payload);
      if o.tunnel.state == Transport then
        r == Step(Drain(c, o.tunnel, buf[n..]).tunnel, n + Drain(c, o.tunnel, buf[n..]).consumed,
                  o.actions + Drain(c, o.tunnel, buf[n..]).actions)
      else r == OnMessage(c, t, buf)
  {
    var first := OnMessage(c, t, buf);
    if t.state == Connected && first.tunnel.state == Transport then
      var rest := Drain(c, first.tunnel, buf[first.consumed..]);
      Step(rest.tunnel, first.consumed + rest.consumed, first.actions + rest.actions)
    else first
  }

  /** The remote agent gave up waiting, or the connect did not complete in time. */
  function OnTimeout(t: Tunnel): (r: Out)
    ensures r.tunnel == TeardownOf(t).tunnel
    ensures r.actions == [StopConnecting, Send(Server, Packet.ErrorReply(RepTtlExpired)),
                          ClearContext(Server), Shutdown(Server)]
  {
    var d := SendResponseAndTeardown(t, RepTtlExpired);
    Out(d.tunnel, [StopConnecting] + d.actions)
  }

  /** `onHighWaterMark(which)`; only the application leg's mark is watched. */
  function OnHighWaterMark(t: Tunnel, which: Leg, outputPending: bool): (r: Out)
    ensures r.tunnel.(flow := t.flow) == t
    ensures (r.tunnel.flow, r.actions) == Backpressure.HighWater(t.flow, t.clientUp, which, outputPending)
    ensures Backpressure.Coupled(t.flow) ==> Backpressure.Coupled(r.tunnel.flow)
  {
    var (f, acts) := Backpressure.HighWater(t.flow, t.clientUp, which, outputPending);
    Out(t.(flow := f), acts)
  }

  function OnWriteComplete(t: Tunnel, which: Leg): (r: Out)
    ensures r.tunnel.(flow := t.flow) == t
    ensures (r.tunnel.flow, r.actions) == Backpressure.WriteComplete(t.flow, t.clientUp, which)
    ensures Backpressure.Coupled(t.flow) ==> Backpressure.Coupled(r.tunnel.flow)
  {
    var (f, acts) := Backpressure.WriteComplete(t.flow, t.clientUp, which);
    Out(t.(flow := f), acts)
  }

  // The weak-pointer wrappers: a handler registered with the event loop holds only a weak
  // reference; once the tunnel is destroyed the event has no effect.

  function OnTimeoutWeak(t: Option<Tunnel>): (r: (Option<Tunnel>, seq<Action>))
    ensures t.None? ==> r == (None, [])
    ensures t.Some? ==> r == (Some(OnTimeout(t.value).tunnel), OnTimeout(t.value).actions)
  {
    if t.None? then (None, []) else (Some(OnTimeout(t.value).tunnel), OnTimeout(t.value).actions)
  }

  function OnHighWaterMarkWeak(t: Option<Tunnel>, which: Leg, outputPending: bool): (r: (Option<Tunnel>, seq<Action>))
    ensures t.None? ==> r == (None, [])
    ensures t.Some? ==> r == (Some(OnHighWaterMark(t.value, which, outputPending).tunnel),
                              OnHighWaterMark(t.value, which, outputPending).actions)
  {
    if t.None? then (None, [])
    else
      var o := OnHighWaterMark(t.value, which, outputPending);
      (Some(o.tunnel), o.actions)
  }

  function OnWriteCompleteWeak(t: Option<Tunnel>, which: Leg): (r: (Option<Tunnel>, seq<Action>))
    ensures t.None? ==> r == (None, [])
    ensures t.Some? ==> r == (Some(OnWriteComplete(t.value, which).tunnel), OnWriteComplete(t.value, which).actions)
  {
    if t.None? then (None, [])
    else
      var o := OnWriteComplete(t.value, which);
      (Some(o.tunnel), o.actions)
  }

  // ---------------------------------------------------------------------------
  // Properties relating the tunnel to the remote agent's encoder.

  /** The frame payloads of DATA messages carrying `ds`. */
  function DataPayloads(c: Codec, ds: seq<Bytes>): (ps: seq<Bytes>)
    ensures |ps| == |ds|
    ensures forall i :: 0 <= i < |ds| ==> ps[i] == ServerPayload(c, ServerData(ds[i]))
  {
    seq(|ds|, i requires 0 <= i < |ds| => ServerPayload(c, ServerData(ds[i])))
  }

  /** The remote agent's reply frame, followed by anything, is handled according to the
      reply mapping and exactly its own bytes are consumed. */
  lemma ConnectedReply(c: Codec, t: Tunnel, rep: nat, addr: nat, port: nat, rest: Bytes)
    requires Lawful(c) && t.state == Connected
    requires 0 < |ServerPayload(c, Response(rep, addr, port))| < TwoTo31
    ensures var r := OnMessage(c, t, EncodeFrame(ServerPayload(c, Response(rep, addr, port))) + rest);
      && r.consumed == 4 + |ServerPayload(c, Response(rep, addr, port))|
      && (rep == RepSuccess ==>
            r.tunnel.state == Transport && !r.tunnel.timerArmed &&
            r.actions == OnSuccess(t, addr, port).actions)
      && (rep != RepSuccess ==>
            r.tunnel.state == Teardown &&
            r.actions == [Send(Server, Packet.ErrorReply(ForwardedRep(rep))), ClearContext(Server), Shutdown(Server)])
  {
    var p := ServerPayload(c, Response(rep, addr, port));
    DecodeEncodeFrame(p, rest);
    ServerPayloadRoundTrip(c, Response(rep, addr, port));
  }

  /** In Transport every DATA frame of a buffer reaches the application unchanged and in
      order, and the whole buffer is consumed. */
  lemma {:induction false} TransportForwardsAll(c: Codec, t: Tunnel, ds: seq<Bytes>)
    requires Lawful(c) && Sendable(DataPayloads(c, ds))
    requires forall i :: 0 <= i < |ds| ==> ds[i] != []
    ensures Drain(c, t, EncodeAll(DataPayloads(c, ds))) ==
      Step(t, |EncodeAll(DataPayloads(c, ds))|, Sends(Server, ds))
  {
    var ps := DataPayloads(c, ds);
    if ds != [] {
      var tailBuf := EncodeAll(ps[1..]);
      EncodeAllCons(ps, []);
      assert EncodeAll(ps) == EncodeFrame(ps[0]) + tailBuf;
      assert 0 < |ps[0]| < TwoTo31;
      DataDelivered(c, t, ds[0], tailBuf);
      assert DataPayloads(c, ds[1..]) == ps[1..];
      SendableTail(ps);
      TransportForwardsAll(c, t, ds[1..]);
      SendsCons(Server, ds);
    }
  }

  /** One turn of the Transport loop: a non-empty DATA frame is written to the application
      and the loop goes on after it in the same tunnel. */
  lemma DataDelivered(c: Codec, t: Tunnel, d: Bytes, rest: Bytes)
    requires Lawful(c) && d != [] && 0 < |ServerPayload(c, ServerData(d))| < TwoTo31
    ensures var after := Drain(c, t, rest);
      Drain(c, t, EncodeFrame(ServerPayload(c, ServerData(d))) + rest)
        == Step(after.tunnel, 4 + |ServerPayload(c, ServerData(d))| + after.consumed, [Send(Server, d)] + after.actions)
  {
    var p := ServerPayload(c, ServerData(d));
    DecodeEncodeFrame(p, rest);
    ServerPayloadRoundTrip(c, ServerData(d));
    assert (EncodeFrame(p) + rest)[4 + |p|..] == rest;
  }

  /** The Transport loop does not stop at a teardown: a DATA frame that follows an
      unexpected RESPONSE is still written to the application after its shutdown. */
  lemma DrainContinuesAfterTeardown(c: Codec, t: Tunnel, m: ServerMsg, d: Bytes)
    requires Lawful(c) && m.Response? && d != []
    requires 0 < |ServerPayload(c, m)| < TwoTo31 && 0 < |ServerPayload(c, ServerData(d))| < TwoTo31
    ensures var r := Drain(c, t, EncodeFrame(ServerPayload(c, m)) + EncodeFrame(ServerPayload(c, ServerData(d))));
      r.tunnel.state == Teardown && r.actions == [ClearContext(Server), Shutdown(Server), Send(Server, d)]
  {
    var p1 := ServerPayload(c, m);
    var p2 := ServerPayload(c, ServerData(d));
    var second := EncodeFrame(p2);
    var buf := EncodeFrame(p1) + second;
    DecodeEncodeFrame(p1, second);
    ServerPayloadRoundTrip(c, m);
    assert buf[4 + |p1|..] == second;
    DecodeEncodeFrame(p2, []);
    assert second + [] == second;
    ServerPayloadRoundTrip(c, ServerData(d));
    assert second[4 + |p2|..] == [];
  }

  /** As written, a DATA frame that arrives in the same read as the success reply is left
      in the buffer: it is complete, yet nothing is forwarded until more bytes arrive. The
      corrected handler forwards it in the same call. */
  lemma DataAfterSuccess(c: Codec, t: Tunnel, addr: nat, port: nat, d: Bytes)
    requires Lawful(c) && t.state == Connected && d != []
    requires 0 < |ServerPayload(c, Response(RepSuccess, addr, port))| < TwoTo31
    requires 0 < |ServerPayload(c, ServerData(d))| < TwoTo31
    ensures var buf := EncodeFrame(ServerPayload(c, Response(RepSuccess, addr, port)))
                       + EncodeFrame(ServerPayload(c, ServerData(d)));
      && OnMessage(c, t, buf).consumed < |buf|
      && Decode(buf[OnMessage(c, t, buf).consumed..]) == Frame(ServerPayload(c, ServerData(d)), 4 + |ServerPayload(c, ServerData(d))|)
      && OnMessage(c, t, buf).actions == OnSuccess(t, addr, port).actions
      && OnMessageFixed(c, t, buf).consumed == |buf|
      && OnMessageFixed(c, t, buf).actions == OnSuccess(t, addr, port).actions + [Send(Server, d)]
  {
    var p1 := ServerPayload(c, Response(RepSuccess, addr, port));
    var p2 := ServerPayload(c, ServerData(d));
    var second := EncodeFrame(p2);
    var buf := EncodeFrame(p1) + second;
    DecodeEncodeFrame(p1, second);
    ServerPayloadRoundTrip(c, Response(RepSuccess, addr, port));
    assert buf[4 + |p1|..] == second;
    DecodeEncodeFrame(p2, []);
    assert second + [] == second;
    ServerPayloadRoundTrip(c, ServerData(d));
    assert second[4 + |p2|..] == [];
  }

  /** Once torn down, the tunnel still receives the remote leg's bytes (the live
      connection keeps the handlers it was created with) but takes none of them, sends
      nothing and does not change; a later disconnect leaves it torn down. */
  lemma SilentAfterTeardown(c: Codec, t: Tunnel, buf: Bytes)
    ensures OnMessage(c, TeardownOf(t).tunnel, buf) == Step(TeardownOf(t).tunnel, 0, [])
    ensures OnConnection(c, TeardownOf(t).tunnel, false).tunnel == TeardownOf(t).tunnel
  {
  }

  /** A complete exchange: the tunnel is opened, connects, sends the REQUEST carrying the
      stored password, domain and port with CONNECT, and a success reply puts it into
      Transport with the timer cancelled. */
  lemma {:induction false} SuccessfulSession(c: Codec, domain: Bytes, port: nat, password: Bytes,
                                             timeout: real, addr: nat, bound: nat)
    requires Lawful(c)
    requires 0 < |ServerPayload(c, Response(RepSuccess, addr, bound))| < TwoTo31
    ensures var o := Open(domain, port, password, timeout);
      var up := OnConnection(c, o.tunnel, true);
      var reply := EncodeFrame(ServerPayload(c, Response(RepSuccess, addr, bound)));
      var r := OnMessage(c, up.tunnel, reply);
      && ReadClientPayload(c, up.actions[0].bytes[4..]) == Some(Request(password, CmdConnect, domain, port))
      && r.consumed == |reply|
      && r.tunnel.state == Transport && !r.tunnel.timerArmed
      && r.actions == [CancelTimer, Send(Server, Packet.SuccessReply(addr, bound)),
                       SetContext(Server), StartRead(Server), TransportReady]
  {
    var o := Open(domain, port, password, timeout);
    var up := OnConnection(c, o.tunnel, true);
    ClientPayloadRoundTrip(c, Request(password, CmdConnect, domain, port));
    var p := ServerPayload(c, Response(RepSuccess, addr, bound));
    var reply := EncodeFrame(p);
    DecodeEncodeFrame(p, []);
    assert reply + [] == reply;
    ServerPayloadRoundTrip(c, Response(RepSuccess, addr, bound));
    assert reply[4 + |p|..] == [];
  }
}
