/** The remote agent's relay: one per request whose host resolved. It connects to the
    destination, reports success (with the destination-side local address) or timeout to
    the local agent in a framed RESPONSE, and wraps every read from the destination in a
    DATA frame. Leg `Server` is the connection from the local agent (`serverCon_`), leg
    `Client` the connection to the destination. */
module ServerTunnel {
  import opened Bytes
  import opened Effects
  import opened Wire
  import opened Framing
  import Backpressure

  /** `ip`, `port`: the destination; `clientUp`: `clientCon_` holds a connection;
      `timerArmed`: `timerId_` is set; `hasCallback`: a connection callback was set. */
  datatype Relay = Relay(
    ip: nat, port: nat, timeout: real,
    clientUp: bool, timerArmed: bool, hasCallback: bool,
    flow: Backpressure.Flow)

  datatype Out = Out(relay: Relay, actions: seq<Action>)

  datatype Step = Step(relay: Relay, consumed: nat, actions: seq<Action>)

  const DefaultTimeout: real := 5.0

  const RepSuccess: nat := 0x00
  const RepTtlExpired: nat := 0x04

  function New(ip: nat, port: nat): (t: Relay)
    ensures t.ip == ip && t.port == port && t.timeout == DefaultTimeout
    ensures !t.clientUp && !t.timerArmed && !t.hasCallback && t.flow == Backpressure.Idle
  {
    Relay(ip, port, DefaultTimeout, false, false, false, Backpressure.Idle)
  }

  /** Installs the handlers, watches the local agent's leg and arms the connect timeout. */
  function Setup(t: Relay): (r: Out)
    ensures r.relay == t.(timerArmed := true)
    ensures r.actions == [WatchHighWater(Server, HighWaterMark), ArmTimer(t.timeout)]
  {
    Out(t.(timerArmed := true), [WatchHighWater(Server, HighWaterMark), ArmTimer(t.timeout)])
  }

  /** What the dispatcher does with a resolved address: construct the relay, give it the
      tunnel timeout and the callback, set it up and connect. */
  function Open(ip: nat, port: nat, timeout: real): (r: Out)
    ensures r.relay.ip == ip && r.relay.port == port && r.relay.timeout == timeout
    ensures r.relay.timerArmed && r.relay.hasCallback && !r.relay.clientUp
    ensures r.relay.flow == Backpressure.Idle
    ensures r.actions == [WatchHighWater(Server, HighWaterMark), ArmTimer(timeout), Connect]
  {
    var s := Setup(New(ip, port).(timeout := timeout, hasCallback := true));
    Out(s.relay, s.actions + [Connect])
  }

  /** A framed, uncompressed RESPONSE. */
  function ResponseFrame(c: Codec, rep: nat, addr: nat, port: nat): Bytes
  {
    EncodeFrame(ServerPayload(c, Response(rep, addr, port)))
  }

  /** Restores the default handlers, clears the context of the local agent's connection,
      shuts it down and forgets the destination connection. */
  function TeardownOf(t: Relay): (r: Out)
    ensures r.relay == t.(clientUp := false)
    ensures r.actions == [ClearContext(Server), Shutdown(Server)]
  {
    Out(t.(clientUp := false), [ClearContext(Server), Shutdown(Server)])
  }

  /** The destination connection came up (with local address `localIp:localPort`, both as
      network-order numbers) or went down. */
  function OnClientConnection(c: Codec, t: Relay, up: bool, localIp: nat, localPort: nat): (r: Out)
    ensures up ==> r.relay == t.(clientUp := true, timerArmed := false)
    ensures up ==> (r.actions ==
      (if t.timerArmed then [CancelTimer] else [])
      + [WatchHighWater(Client, HighWaterMark), Send(Server, ResponseFrame(c, RepSuccess, localIp, localPort)),
         SetContext(Server), StartRead(Server)]
      + (if t.hasCallback then [TransportReady] else []))
    ensures !up ==> r == TeardownOf(t)
  {
    if up then
      Out(t.(clientUp := true, timerArmed := false),
          (if t.timerArmed then [CancelTimer] else [])
          + [WatchHighWater(Client, HighWaterMark), Send(Server, ResponseFrame(c, RepSuccess, localIp, localPort)),
             SetContext(Server), StartRead(Server)]
          + (if t.hasCallback then [TransportReady] else []))
    else TeardownOf(t)
  }

  /** Every read from the destination becomes one DATA frame; the buffer ends empty. */
  function OnClientMessage(c: Codec, t: Relay, buf: Bytes): (r: Step)
    ensures r.relay == t && r.consumed == |buf|
    ensures r.actions == [Send(Server, EncodeFrame(ServerPayload(c, ServerData(buf))))]
  {
    Step(t, |buf|, [Send(Server, EncodeFrame(ServerPayload(c, ServerData(buf))))])
  }

  /** The destination did not answer in time: stop connecting, report rep 4 and shut the
      local agent's connection (without a teardown). */
  function OnTimeout(c: Codec, t: Relay): (r: Out)
    ensures r.relay == t
    ensures r.actions == [StopConnecting, Send(Server, ResponseFrame(c, RepTtlExpired, 0, 0)), Shutdown(Server)]
  {
    Out(t, [StopConnecting, Send(Server, ResponseFrame(c, RepTtlExpired, 0, 0)), Shutdown(Server)])
  }

  function OnHighWaterMark(t: Relay, which: Leg, outputPending: bool): (r: Out)
    ensures r.relay.(flow := t.flow) == t
    ensures (r.relay.flow, r.actions) == Backpressure.HighWater(t.flow, t.clientUp, which, outputPending)
    ensures Backpressure.Coupled(t.flow) ==> Backpressure.Coupled(r.relay.flow)
  {
    var (f, acts) := Backpressure.HighWater(t.flow, t.clientUp, which, outputPending);
    Out(t.(flow := f), acts)
  }

  function OnWriteComplete(t: Relay, which: Leg): (r: Out)
    ensures r.relay.(flow := t.flow) == t
    ensures (r.relay.flow, r.actions) == Backpressure.WriteComplete(t.flow, t.clientUp, which)
    ensures Backpressure.Coupled(t.flow) ==> Backpressure.Coupled(r.relay.flow)
  {
    var (f, acts) := Backpressure.WriteComplete(t.flow, t.clientUp, which);
    Out(t.(flow := f), acts)
  }

  // The weak-pointer wrappers: no effect once the relay is destroyed.

  function OnTimeoutWeak(c: Codec, t: Option<Relay>): (r: (Option<Relay>, seq<Action>))
    ensures t.None? ==> r == (None, [])
    ensures t.Some? ==> r == (Some(OnTimeout(c, t.value).relay), OnTimeout(c, t.value).actions)
  {
    if t.None? then (None, []) else (Some(OnTimeout(c, t.value).relay), OnTimeout(c, t.value).actions)
  }

  function OnHighWaterMarkWeak(t: Option<Relay>, which: Leg, outputPending: bool): (r: (Option<Relay>, seq<Action>))
    ensures t.None? ==> r == (None, [])
    ensures t.Some? ==> r == (Some(OnHighWaterMark(t.value, which, outputPending).relay),
                              OnHighWaterMark(t.value, which, outputPending).actions)
  {
    if t.None? then (None, [])
    else
      var o := OnHighWaterMark(t.value, which, outputPending);
      (Some(o.relay), o.actions)
  }

  function OnWriteCompleteWeak(t: Option<Relay>, which: Leg): (r: (Option<Relay>, seq<Action>))
    ensures t.None? ==> r == (None, [])
    ensures t.Some? ==> r == (Some(OnWriteComplete(t.value, which).relay), OnWriteComplete(t.value, which).actions)
  {
    if t.None? then (None, [])
    else
      var o := OnWriteComplete(t.value, which);
      (Some(o.relay), o.actions)
  }

  // ---------------------------------------------------------------------------

  /** The frames a relay sends decode back to what it meant: the connect report carries
      rep 0 and the local address, the timeout report rep 4, a read its bytes. */
  lemma {:induction false} FramesDecode(c: Codec, m: ServerMsg, rest: Bytes)
    requires Lawful(c) && 0 < |ServerPayload(c, m)| < TwoTo31
    ensures Decode(EncodeFrame(ServerPayload(c, m)) + rest) == Frame(ServerPayload(c, m), 4 + |ServerPayload(c, m)|)
    ensures c.parseServer(Decode(EncodeFrame(ServerPayload(c, m)) + rest).payload) == Some(m)
  {
    DecodeEncodeFrame(ServerPayload(c, m), rest);
    ServerPayloadRoundTrip(c, m);
  }

  /** The relay tears down only when the destination disconnects, so no destination bytes
      follow a teardown; a repeated disconnect repeats the same teardown and leaves the
      relay as the first one left it. */
  lemma TeardownRepeats(c: Codec, t: Relay, localIp: nat, localPort: nat)
    ensures OnClientConnection(c, t, false, localIp, localPort) == TeardownOf(t)
    ensures OnClientConnection(c, TeardownOf(t).relay, false, localIp, localPort)
         == Out(TeardownOf(t).relay, [ClearContext(Server), Shutdown(Server)])
  {
  }
}
