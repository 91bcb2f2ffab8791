/** The remote agent's dispatcher. It keeps a name-to-state registry of connections from
    local agents and decodes their frames: a REQUEST with the right password and CONNECT
    starts a DNS lookup, DATA in Transport goes to the destination, and anything else
    shuts the connection. Leg `Server` is the local agent's connection, leg `Client` the
    destination connection kept in its context. */
module SocksServer {
  import opened Bytes
  import opened Effects
  import opened Wire
  import opened Framing
  import Resolver
  import ServerTunnel

  datatype ConState = Start | GotCmd | Resolved | Transport

  /** The dispatcher's data: the password, both registries, the two timeouts and the
      resolver it owns. */
  datatype Dispatcher = Dispatcher(
    password: Bytes,
    states: map<string, ConState>,
    tunnels: map<string, ServerTunnel.Relay>,
    dnsTimeout: real,
    tunnelTimeout: real,
    resolver: Resolver.Resolver)

  const DefaultDnsTimeout: real := 3.0
  const DefaultTunnelTimeout: real := 5.0

  const CmdConnect: nat := 0x01
  const RepHostUnreachable: nat := 0x03
  const RepNotAllowed: nat := 0x05
  const RepCmdNotSupported: nat := 0x07

  /** The constructor: empty registries, default timeouts, and a resolver given the DNS
      timeout and both callbacks. */
  function New(password: Bytes): (d: Dispatcher)
    ensures d.states == map[] && d.tunnels == map[] && d.password == password
    ensures d.dnsTimeout == DefaultDnsTimeout && d.tunnelTimeout == DefaultTunnelTimeout
    ensures d.resolver == Resolver.Resolver(DefaultDnsTimeout, true, true)
  {
    Dispatcher(password, map[], map[], DefaultDnsTimeout, DefaultTunnelTimeout,
               Resolver.Default.(timeout := DefaultDnsTimeout, hasResolveCallback := true, hasErrorCallback := true))
  }

  /** `set_dns_timeout` as written: it stores the value, but the resolver was given its
      timeout in the constructor and keeps it. */
  function SetDnsTimeout(d: Dispatcher, t: real): (r: Dispatcher)
    ensures r.dnsTimeout == t && r.resolver == d.resolver
    ensures r.(dnsTimeout := d.dnsTimeout) == d
  {
    d.(dnsTimeout := t)
  }

  /** `set_dns_timeout` corrected: the resolver uses the new timeout too. */
  function SetDnsTimeoutFixed(d: Dispatcher, t: real): (r: Dispatcher)
    ensures r.dnsTimeout == t && r.resolver.timeout == t
    ensures r.(dnsTimeout := d.dnsTimeout, resolver := d.resolver) == d
  {
    d.(dnsTimeout := t, resolver := d.resolver.(timeout := t))
  }

  function SetTunnelTimeout(d: Dispatcher, t: real): (r: Dispatcher)
    ensures r.tunnelTimeout == t && r.(tunnelTimeout := d.tunnelTimeout) == d
  {
    d.(tunnelTimeout := t)
  }

  function EraseFromConStates(d: Dispatcher, name: string): (r: Dispatcher)
    ensures name !in r.states && r.tunnels == d.tunnels
    ensures forall n :: n != name ==> (n in r.states <==> n in d.states)
    ensures forall n :: n != name && n in d.states ==> r.states[n] == d.states[n]
  {
    d.(states := d.states - {name})
  }

  function EraseFromTunnels(d: Dispatcher, name: string): (r: Dispatcher)
    ensures name !in r.tunnels && r.states == d.states
    ensures forall n :: n != name ==> (n in r.tunnels <==> n in d.tunnels)
    ensures forall n :: n != name && n in d.tunnels ==> r.tunnels[n] == d.tunnels[n]
  {
    d.(tunnels := d.tunnels - {name})
  }

  /** A connection from a local agent registers in Start; its disconnect removes it from
      both registries. */
  function OnConnection(d: Dispatcher, name: string, up: bool): (r: Dispatcher)
    ensures up ==> r.states == d.states[name := Start] && r.tunnels == d.tunnels
    ensures !up ==> name !in r.states && name !in r.tunnels
    ensures forall n :: n != name ==> (n in r.states <==> n in d.states) && (n in r.tunnels <==> n in d.tunnels)
    ensures forall n :: n != name && n in d.states ==> r.states[n] == d.states[n]
    ensures forall n :: n != name && n in d.tunnels ==> r.tunnels[n] == d.tunnels[n]
  {
    if up then d.(states := d.states[name := Start])
    else EraseFromTunnels(EraseFromConStates(d, name), name)
  }

  /** A framed RESPONSE carrying only `rep`, then a shutdown. */
  function SendResponseAndDown(c: Codec, rep: nat): (acts: seq<Action>)
    ensures acts == [Send(Server, ServerTunnel.ResponseFrame(c, rep, 0, 0)), Shutdown(Server)]
  {
    [Send(Server, EncodeFrame(ServerPayload(c, Response(rep, 0, 0)))), Shutdown(Server)]
  }

  datatype Drained = Drained(state: ConState, consumed: nat, actions: seq<Action>)

  /** The decode loop of `onMessage` over the connection's state. Each complete frame is
      decompressed and parsed. A wrong password or command replies and returns at once;
      every other outcome goes on to the next frame. A negative frame length reaches the
      `std::string` range constructor with its end before its start: the library throws,
      nothing catches it, and the remote agent ends after taking the four header bytes. */
  function Drain(c: Codec, password: Bytes, res: Resolver.Resolver, st: ConState, hasContext: bool, buf: Bytes): (r: Drained)
    ensures r.consumed <= |buf|
    ensures Decode(buf).NeedMore? ==> r == Drained(st, 0, [])
    ensures Decode(buf).Malformed? ==> r == Drained(st, 4, [Abort])
    decreases |buf|
  {
    match Decode(buf)
    case NeedMore => Drained(st, 0, [])
    case Malformed => Drained(st, 4, [Abort])
    case Frame(p, n) =>
      match ReadClientPayload(c, p)
      case Some(ClientData(data)) =>
        if st == Transport && hasContext then
          var rest := Drain(c, password, res, st, hasContext, buf[n..]);
          Drained(rest.state, n + rest.consumed, [Send(Client, data)] + rest.actions)
        else
          var rest := Drain(c, password, res, st, hasContext, buf[n..]);
          Drained(rest.state, n + rest.consumed, [Shutdown(Server)] + rest.actions)
      case Some(Request(pw, cmd, addr, port)) =>
        if st != Start then
          var rest := Drain(c, password, res, st, hasContext, buf[n..]);
          Drained(rest.state, n + rest.consumed, [Shutdown(Server)] + rest.actions)
        else if pw != password then Drained(st, n, SendResponseAndDown(c, RepNotAllowed))
        else if cmd != CmdConnect then Drained(st, n, SendResponseAndDown(c, RepCmdNotSupported))
        else
          var lookup := Resolver.Resolve(res, UpToNul(addr), ToUint16(port)).1;
          var rest := Drain(c, password, res, GotCmd, hasContext, buf[n..]);
          Drained(rest.state, n + rest.consumed, lookup + [StopRead(Server)] + rest.actions)
      case None =>
        var rest := Drain(c, password, res, st, hasContext, buf[n..]);
        Drained(rest.state, n + rest.consumed, [Shutdown(Server)] + rest.actions)
  }

  datatype Handled = Fatal | Handled(dispatcher: Dispatcher, consumed: nat, actions: seq<Action>)

  /** `onMessage`: fatal for a connection missing from the registry; otherwise the loop
      runs and its final state is stored under the connection's name. */
  function OnMessage(c: Codec, d: Dispatcher, name: string, buf: Bytes, hasContext: bool): (h: Handled)
    ensures h.Fatal? <==> name !in d.states
    ensures h.Handled? ==>
      var r := Drain(c, d.password, d.resolver, d.states[name], hasContext, buf);
      h == Handled(d.(states := d.states[name := r.state]), r.consumed, r.actions)
  {
    if name !in d.states then Fatal
    else
      var r := Drain(c, d.password, d.resolver, d.states[name], hasContext, buf);
      Handled(d.(states := d.states[name := r.state]), r.consumed, r.actions)
  }

  /** The resolver found the host: the name is (re)registered as Resolved and a relay to
      the address is opened and registered under it. */
  function OnResolve(d: Dispatcher, name: string, ip: nat, port: nat): (r: (Dispatcher, seq<Action>))
    ensures r.0.states == d.states[name := Resolved]
    ensures r.0.tunnels == d.tunnels[name := ServerTunnel.Open(ip, port, d.tunnelTimeout).relay]
    ensures r.0.(states := d.states, tunnels := d.tunnels) == d
    ensures r.1 == [WatchHighWater(Server, HighWaterMark), ArmTimer(d.tunnelTimeout), Connect]
  {
    var o := ServerTunnel.Open(ip, port, d.tunnelTimeout);
    (d.(states := d.states[name := Resolved], tunnels := d.tunnels[name := o.relay]), o.actions)
  }

  /** The resolver failed or timed out: reply "host unreachable" and shut down. */
  function OnResolveError(c: Codec, d: Dispatcher, name: string): (r: (Dispatcher, seq<Action>))
    ensures r.0 == d
    ensures r.1 == SendResponseAndDown(c, RepHostUnreachable)
  {
    (d, SendResponseAndDown(c, RepHostUnreachable))
  }

  /** The relay's connection callback moves a connection to Transport, but only one still
      registered. */
  function SetConState(d: Dispatcher, name: string, st: ConState): (r: Dispatcher)
    ensures name in d.states ==> r.states == d.states[name := st]
    ensures name !in d.states ==> r.states == d.states
    ensures r.(states := d.states) == d
  {
    if name in d.states then d.(states := d.states[name := st]) else d
  }

  // ---------------------------------------------------------------------------
  // Properties of the request check, against the local agent's encoder.

  /** The frame a local agent sends for `m`. */
  function ClientFrame(c: Codec, m: ClientMsg): Bytes
  {
    EncodeFrame(ClientPayload(c, m))
  }

  lemma {:induction false} ClientFrameDecodes(c: Codec, m: ClientMsg, rest: Bytes)
    requires Lawful(c) && 0 < |ClientPayload(c, m)| < TwoTo31
    ensures Decode(ClientFrame(c, m) + rest) == Frame(ClientPayload(c, m), 4 + |ClientPayload(c, m)|)
    ensures ReadClientPayload(c, ClientPayload(c, m)) == Some(m)
    ensures (ClientFrame(c, m) + rest)[4 + |ClientPayload(c, m)|..] == rest
  {
    DecodeEncodeFrame(ClientPayload(c, m), rest);
    ClientPayloadRoundTrip(c, m);
  }

  /** In Start the password is checked first: a wrong one is answered with rep 5 and the
      connection shut down, whatever the command, and the rest of the buffer is left. */
  lemma WrongPassword(c: Codec, password: Bytes, res: Resolver.Resolver, ctx: bool, m: ClientMsg, rest: Bytes)
    requires Lawful(c) && 0 < |ClientPayload(c, m)| < TwoTo31
    requires m.Request? && m.password != password
    ensures Drain(c, password, res, Start, ctx, ClientFrame(c, m) + rest)
         == Drained(Start, 4 + |ClientPayload(c, m)|, SendResponseAndDown(c, RepNotAllowed))
  {
    ClientFrameDecodes(c, m, rest);
  }

  /** With the right password, a command other than CONNECT gets rep 7 and a shutdown. */
  lemma UnsupportedCommand(c: Codec, password: Bytes, res: Resolver.Resolver, ctx: bool, m: ClientMsg, rest: Bytes)
    requires Lawful(c) && 0 < |ClientPayload(c, m)| < TwoTo31
    requires m.Request? && m.password == password && m.cmd != CmdConnect
    ensures Drain(c, password, res, Start, ctx, ClientFrame(c, m) + rest)
         == Drained(Start, 4 + |ClientPayload(c, m)|, SendResponseAndDown(c, RepCmdNotSupported))
  {
    ClientFrameDecodes(c, m, rest);
  }

  /** A valid CONNECT request starts a lookup of the address up to its first NUL byte with
      the port truncated to 16 bits, pauses reading and moves to GotCmd; the loop goes on
      with the rest of the buffer in that state. */
  lemma RequestAccepted(c: Codec, password: Bytes, res: Resolver.Resolver, ctx: bool, addr: Bytes, port: nat, rest: Bytes)
    requires Lawful(c) && 0 < |ClientPayload(c, Request(password, CmdConnect, addr, port))| < TwoTo31
    ensures var m := Request(password, CmdConnect, addr, port);
      var after := Drain(c, password, res, GotCmd, ctx, rest);
      Drain(c, password, res, Start, ctx, ClientFrame(c, m) + rest)
        == Drained(after.state, 4 + |ClientPayload(c, m)| + after.consumed,
                   [ArmTimer(res.timeout), Lookup(UpToNul(addr), ToUint16(port)), StopRead(Server)] + after.actions)
  {
    var m := Request(password, CmdConnect, addr, port);
    var p := ClientPayload(c, m);
    var buf := ClientFrame(c, m) + rest;
    ClientFrameDecodes(c, m, rest);
    assert Decode(buf) == Frame(p, 4 + |p|);
    assert ReadClientPayload(c, p) == Some(m);
    assert buf[4 + |p|..] == rest;
    assert Resolver.Resolve(res, UpToNul(addr), ToUint16(port)).1 == [ArmTimer(res.timeout), Lookup(UpToNul(addr), ToUint16(port))];
  }

  /** A request alone in the buffer: exactly the lookup and the pause, and state GotCmd. */
  lemma RequestAlone(c: Codec, password: Bytes, res: Resolver.Resolver, ctx: bool, addr: Bytes, port: nat)
    requires Lawful(c) && 0 < |ClientPayload(c, Request(password, CmdConnect, addr, port))| < TwoTo31
    ensures var f := ClientFrame(c, Request(password, CmdConnect, addr, port));
      Drain(c, password, res, Start, ctx, f)
        == Drained(GotCmd, |f|, [ArmTimer(res.timeout), Lookup(UpToNul(addr), ToUint16(port)), StopRead(Server)])
  {
    var f := ClientFrame(c, Request(password, CmdConnect, addr, port));
    var acts := [ArmTimer(res.timeout), Lookup(UpToNul(addr), ToUint16(port)), StopRead(Server)];
    RequestAccepted(c, password, res, ctx, addr, port, []);
    DrainEmpty(c, password, res, GotCmd, ctx);
    AppendNothing(f);
    AppendNothing(acts);
  }

  /** An empty buffer is left alone. */
  lemma DrainEmpty(c: Codec, password: Bytes, res: Resolver.Resolver, st: ConState, ctx: bool)
    ensures Drain(c, password, res, st, ctx, []) == Drained(st, 0, [])
  {
  }

  /** A payload the loop answers with a shutdown alone: unreadable, DATA without a
      destination to write to, or REQUEST after Start. */
  predicate Refused(c: Codec, st: ConState, ctx: bool, p: Bytes)
  {
    match ReadClientPayload(c, p)
    case None => true
    case Some(ClientData(_)) => !(st == Transport && ctx)
    case Some(Request(_, _, _, _)) => st != Start
  }

  /** Every (state, message) pair other than DATA in Transport with a context and REQUEST
      in Start, and every unreadable message, shuts the connection without a reply and
      the loop goes on. */
  lemma OtherwiseShutdown(c: Codec, password: Bytes, res: Resolver.Resolver, st: ConState, ctx: bool, p: Bytes, rest: Bytes)
    requires 0 < |p| < TwoTo31
    requires Refused(c, st, ctx, p)
    ensures var after := Drain(c, password, res, st, ctx, rest);
      Drain(c, password, res, st, ctx, EncodeFrame(p) + rest)
        == Drained(after.state, 4 + |p| + after.consumed, [Shutdown(Server)] + after.actions)
  {
    DecodeEncodeFrame(p, rest);
    assert (EncodeFrame(p) + rest)[4 + |p|..] == rest;
  }

  /** Client-to-server payloads of DATA messages carrying `ds`. */
  function DataPayloads(c: Codec, ds: seq<Bytes>): (ps: seq<Bytes>)
    ensures |ps| == |ds|
    ensures forall i :: 0 <= i < |ds| ==> ps[i] == ClientPayload(c, ClientData(ds[i]))
  {
    seq(|ds|, i requires 0 <= i < |ds| => ClientPayload(c, ClientData(ds[i])))
  }

  /** In Transport with a destination, every DATA frame's bytes go to the destination
      unchanged and in order, and the whole buffer is consumed. */
  lemma {:induction false} UpstreamForwardsAll(c: Codec, password: Bytes, res: Resolver.Resolver, ds: seq<Bytes>)
    requires Lawful(c) && Sendable(DataPayloads(c, ds))
    ensures Drain(c, password, res, Transport, true, EncodeAll(DataPayloads(c, ds)))
         == Drained(Transport, |EncodeAll(DataPayloads(c, ds))|, Sends(Client, ds))
  {
    var ps := DataPayloads(c, ds);
    if ds != [] {
      var tailBuf := EncodeAll(ps[1..]);
      EncodeAllCons(ps, []);
      assert EncodeAll(ps) == ClientFrame(c, ClientData(ds[0])) + tailBuf;
      assert 0 < |ps[0]| < TwoTo31;
      DataForwarded(c, password, res, ds[0], tailBuf);
      assert DataPayloads(c, ds[1..]) == ps[1..];
      SendableTail(ps);
      UpstreamForwardsAll(c, password, res, ds[1..]);
      SendsCons(Client, ds);
    }
  }

  /** One turn of the Transport loop: a DATA frame is written to the destination and the
      loop goes on after it. */
  lemma DataForwarded(c: Codec, password: Bytes, res: Resolver.Resolver, d: Bytes, rest: Bytes)
    requires Lawful(c) && 0 < |ClientPayload(c, ClientData(d))| < TwoTo31
    ensures var after := Drain(c, password, res, Transport, true, rest);
      Drain(c, password, res, Transport, true, ClientFrame(c, ClientData(d)) + rest)
        == Drained(after.state, 4 + |ClientPayload(c, ClientData(d))| + after.consumed, [Send(Client, d)] + after.actions)
  {
    ClientFrameDecodes(c, ClientData(d), rest);
  }

  // ---------------------------------------------------------------------------
  // The configured DNS timeout.

  /** A registered connection in Start whose first frame is a valid request arms the
      resolver's timeout, queues the lookup, pauses reading and is stored as GotCmd. */
  lemma AcceptedArmsResolverTimer(c: Codec, d: Dispatcher, name: string, addr: Bytes, port: nat)
    requires Lawful(c) && 0 < |ClientPayload(c, Request(d.password, CmdConnect, addr, port))| < TwoTo31
    requires name in d.states && d.states[name] == Start
    ensures var f := ClientFrame(c, Request(d.password, CmdConnect, addr, port));
      OnMessage(c, d, name, f, false)
        == Handled(d.(states := d.states[name := GotCmd]), |f|,
                   [ArmTimer(d.resolver.timeout), Lookup(UpToNul(addr), ToUint16(port)), StopRead(Server)])
  {
    RequestAlone(c, d.password, d.resolver, false, addr, port);
  }

  /** As written, a DNS timeout configured after construction never reaches the resolver:
      an accepted request still arms the 3-second default. */
  lemma DnsTimeoutIgnored(c: Codec, password: Bytes, t: real, name: string, addr: Bytes, port: nat)
    requires Lawful(c) && 0 < |ClientPayload(c, Request(password, CmdConnect, addr, port))| < TwoTo31
    ensures var d := OnConnection(SetDnsTimeout(New(password), t), name, true);
      var h := OnMessage(c, d, name, ClientFrame(c, Request(password, CmdConnect, addr, port)), false);
      d.dnsTimeout == t && h.Handled? && |h.actions| > 0 && h.actions[0] == ArmTimer(DefaultDnsTimeout)
  {
    var d := OnConnection(SetDnsTimeout(New(password), t), name, true);
    assert d.password == password && d.resolver.timeout == DefaultDnsTimeout;
    AcceptedArmsResolverTimer(c, d, name, addr, port);
  }

  /** Corrected, the lookup arms the configured timeout. */
  lemma DnsTimeoutApplied(c: Codec, password: Bytes, t: real, name: string, addr: Bytes, port: nat)
    requires Lawful(c) && 0 < |ClientPayload(c, Request(password, CmdConnect, addr, port))| < TwoTo31
    ensures var d := OnConnection(SetDnsTimeoutFixed(New(password), t), name, true);
      var h := OnMessage(c, d, name, ClientFrame(c, Request(password, CmdConnect, addr, port)), false);
      d.dnsTimeout == t && h.Handled? && |h.actions| > 0 && h.actions[0] == ArmTimer(t) && h.dispatcher.states[name] == GotCmd
  {
    var d := OnConnection(SetDnsTimeoutFixed(New(password), t), name, true);
    assert d.password == password && d.resolver.timeout == t;
    AcceptedArmsResolverTimer(c, d, name, addr, port);
  }
}
