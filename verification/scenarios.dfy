/** The two agents against each other: what one side sends, the other side's handler
    turns into the effect the protocol means. */
module Scenarios {
  import opened Bytes
  import opened Effects
  import opened Wire
  import opened Framing
  import Packet
  import LocalServer
  import ClientTunnel
  import SocksServer
  import ServerTunnel
  import Resolver

  /** Application bytes read by the local agent in Transport reach the destination
      unchanged: the frame it sends is decoded by the remote agent's dispatcher into a
      single write to the destination, consuming the whole frame. */
  lemma Upstream(c: Codec, password: Bytes, res: Resolver.Resolver, buf: Bytes)
    requires Lawful(c) && 0 < |ClientPayload(c, ClientData(buf))| < TwoTo31
    ensures var out := LocalServer.OnMessage(c, LocalServer.Transport, buf, true);
      && out.consumed == |buf|
      && |out.actions| == 1 && out.actions[0].Send? && out.actions[0].to == Client
      && SocksServer.Drain(c, password, res, SocksServer.Transport, true, out.actions[0].bytes)
         == SocksServer.Drained(SocksServer.Transport, |out.actions[0].bytes|, [Send(Client, buf)])
  {
    var f := SocksServer.ClientFrame(c, ClientData(buf));
    SocksServer.DataForwarded(c, password, res, buf, []);
    SocksServer.DrainEmpty(c, password, res, SocksServer.Transport, true);
    AppendNothing(f);
    AppendNothing([Send(Client, buf)]);
  }

  /** Destination bytes read by the relay reach the application unchanged: the frame it
      sends is decoded by a client tunnel in Transport into a single write to the
      application, consuming the whole frame. */
  lemma Downstream(c: Codec, relay: ServerTunnel.Relay, t: ClientTunnel.Tunnel, buf: Bytes)
    requires Lawful(c) && buf != [] && 0 < |ServerPayload(c, ServerData(buf))| < TwoTo31
    requires t.state == ClientTunnel.Transport
    ensures var out := ServerTunnel.OnClientMessage(c, relay, buf);
      && |out.actions| == 1 && out.actions[0].Send? && out.actions[0].to == Server
      && ClientTunnel.OnMessage(c, t, out.actions[0].bytes)
         == ClientTunnel.Step(t, |out.actions[0].bytes|, [Send(Server, buf)])
  {
    var ps := ClientTunnel.DataPayloads(c, [buf]);
    assert ps == [ServerPayload(c, ServerData(buf))];
    assert Sendable(ps);
    ClientTunnel.TransportForwardsAll(c, t, [buf]);
    EncodeAllCons(ps, []);
    assert EncodeAll(ps[1..]) == [];
    assert EncodeAll(ps) == EncodeFrame(ps[0]) + [];
    assert Sends(Server, [buf]) == [Send(Server, buf)];
  }

  /** The REQUEST a freshly connected client tunnel sends is accepted by a dispatcher with
      the same password: a lookup of the domain (up to its first NUL byte) at the port,
      guarded by the resolver's timer, and the connection waits in GotCmd. */
  lemma RequestAccepted(c: Codec, domain: Bytes, port: nat, password: Bytes, timeout: real, res: Resolver.Resolver)
    requires Lawful(c) && 0 < |ClientPayload(c, Request(password, ClientTunnel.CmdConnect, domain, port))| < TwoTo31
    ensures var up := ClientTunnel.OnConnection(c, ClientTunnel.Open(domain, port, password, timeout).tunnel, true);
      && up.actions == [Send(Client, up.actions[0].bytes)]
      && SocksServer.Drain(c, password, res, SocksServer.Start, false, up.actions[0].bytes)
         == SocksServer.Drained(SocksServer.GotCmd, |up.actions[0].bytes|,
                                [ArmTimer(res.timeout), Lookup(UpToNul(domain), ToUint16(port)), StopRead(Server)])
  {
    SocksServer.RequestAlone(c, password, res, false, domain, port);
  }

  /** A client tunnel whose password differs from the remote agent's: the dispatcher
      answers rep 5 and shuts down, and the client tunnel passes rep 5 on to the
      application in a SOCKS5 reply and tears down. */
  lemma WrongPasswordReported(c: Codec, t: ClientTunnel.Tunnel, password: Bytes, res: Resolver.Resolver)
    requires Lawful(c) && t.password != password
    requires t.state == ClientTunnel.Connected
    requires 0 < |ClientPayload(c, Request(t.password, ClientTunnel.CmdConnect, t.domain, t.port))| < TwoTo31
    requires 0 < |ServerPayload(c, Response(SocksServer.RepNotAllowed, 0, 0))| < TwoTo31
    ensures var answer := SocksServer.Drain(c, password, res, SocksServer.Start, false, ClientTunnel.RequestFrame(c, t));
      && answer.actions == [Send(Server, ServerTunnel.ResponseFrame(c, SocksServer.RepNotAllowed, 0, 0)), Shutdown(Server)]
      && var got := ClientTunnel.OnMessage(c, t, answer.actions[0].bytes);
         got.tunnel.state == ClientTunnel.Teardown
         && got.actions == [Send(Server, Packet.ErrorReply(0x05)), ClearContext(Server), Shutdown(Server)]
  {
    var m := Request(t.password, ClientTunnel.CmdConnect, t.domain, t.port);
    SocksServer.WrongPassword(c, password, res, false, m, []);
    assert SocksServer.ClientFrame(c, m) + [] == ClientTunnel.RequestFrame(c, t);
    ErrorReported(c, t, SocksServer.RepNotAllowed);
  }

  /** A failure reply from the remote agent (host unreachable, TTL expired, not allowed,
      command not supported) reaches the application as a SOCKS5 reply with that code,
      and the client tunnel tears down. */
  lemma ErrorReported(c: Codec, t: ClientTunnel.Tunnel, rep: nat)
    requires Lawful(c) && ClientTunnel.PassedThrough(rep)
    requires t.state == ClientTunnel.Connected
    requires 0 < |ServerPayload(c, Response(rep, 0, 0))| < TwoTo31
    ensures var got := ClientTunnel.OnMessage(c, t, ServerTunnel.ResponseFrame(c, rep, 0, 0));
      && got.tunnel.state == ClientTunnel.Teardown
      && got.consumed == |ServerTunnel.ResponseFrame(c, rep, 0, 0)|
      && got.actions == [Send(Server, Packet.ErrorReply(rep)), ClearContext(Server), Shutdown(Server)]
  {
    var p := ServerPayload(c, Response(rep, 0, 0));
    DecodeEncodeFrame(p, []);
    AppendNothing(EncodeFrame(p));
    ServerPayloadRoundTrip(c, Response(rep, 0, 0));
  }

  /** The relay's connect timeout reaches the application as "TTL expired", and a failed
      lookup as "host unreachable". */
  lemma TimeoutsReported(c: Codec, relay: ServerTunnel.Relay, d: SocksServer.Dispatcher, name: string, t: ClientTunnel.Tunnel)
    requires Lawful(c) && t.state == ClientTunnel.Connected
    requires 0 < |ServerPayload(c, Response(ServerTunnel.RepTtlExpired, 0, 0))| < TwoTo31
    requires 0 < |ServerPayload(c, Response(SocksServer.RepHostUnreachable, 0, 0))| < TwoTo31
    ensures var sent := ServerTunnel.OnTimeout(c, relay).actions[1];
      sent.Send? && ClientTunnel.OnMessage(c, t, sent.bytes).actions
                    == [Send(Server, Packet.ErrorReply(0x04)), ClearContext(Server), Shutdown(Server)]
    ensures var sent := SocksServer.OnResolveError(c, d, name).1[0];
      sent.Send? && ClientTunnel.OnMessage(c, t, sent.bytes).actions
                    == [Send(Server, Packet.ErrorReply(0x03)), ClearContext(Server), Shutdown(Server)]
  {
    ErrorReported(c, t, ServerTunnel.RepTtlExpired);
    ErrorReported(c, t, SocksServer.RepHostUnreachable);
  }

  /** The relay's success report carries the destination-side local address; the client
      tunnel turns it into the SOCKS5 success reply whose address and port bytes are
      exactly the network-order bytes of that address. */
  lemma SuccessReported(c: Codec, relay: ServerTunnel.Relay, t: ClientTunnel.Tunnel, ip: Bytes, port: Bytes)
    requires Lawful(c) && |ip| == 4 && |port| == 2
    requires t.state == ClientTunnel.Connected
    requires 0 < |ServerPayload(c, Response(ServerTunnel.RepSuccess, ReadLittleEndian(ip), ReadLittleEndian(port)))| < TwoTo31
    ensures var f := ServerTunnel.ResponseFrame(c, ServerTunnel.RepSuccess, ReadLittleEndian(ip), ReadLittleEndian(port));
      && Send(Server, f) in ServerTunnel.OnClientConnection(c, relay, true, ReadLittleEndian(ip), ReadLittleEndian(port)).actions
      && ClientTunnel.OnMessage(c, t, f).tunnel.state == ClientTunnel.Transport
      && Send(Server, [0x05, 0x00, 0x00, 0x01] + ip + port) in ClientTunnel.OnMessage(c, t, f).actions
  {
    var a := ReadLittleEndian(ip);
    var b := ReadLittleEndian(port);
    RelayReportsSuccess(c, relay, a, b);
    SuccessFrameReceived(c, t, a, b);
    Packet.SuccessReplyIsNetworkOrder(ip, port);
  }

  /** The relay's connect callback sends the success frame on the local agent's leg. */
  lemma RelayReportsSuccess(c: Codec, relay: ServerTunnel.Relay, a: nat, b: nat)
    ensures Send(Server, ServerTunnel.ResponseFrame(c, ServerTunnel.RepSuccess, a, b))
            in ServerTunnel.OnClientConnection(c, relay, true, a, b).actions
  {
    var up := ServerTunnel.OnClientConnection(c, relay, true, a, b);
    assert up.actions[(if relay.timerArmed then 1 else 0) + 1]
        == Send(Server, ServerTunnel.ResponseFrame(c, ServerTunnel.RepSuccess, a, b));
  }

  /** A success frame alone in the buffer: the client tunnel does what `OnSuccess` does
      and consumes the frame. */
  lemma SuccessFrameReceived(c: Codec, t: ClientTunnel.Tunnel, a: nat, b: nat)
    requires Lawful(c) && t.state == ClientTunnel.Connected
    requires 0 < |ServerPayload(c, Response(ServerTunnel.RepSuccess, a, b))| < TwoTo31
    ensures var f := ServerTunnel.ResponseFrame(c, ServerTunnel.RepSuccess, a, b);
      var o := ClientTunnel.OnSuccess(t, a, b);
      ClientTunnel.OnMessage(c, t, f) == ClientTunnel.Step(o.tunnel, |f|, o.actions)
    ensures var f := ServerTunnel.ResponseFrame(c, ServerTunnel.RepSuccess, a, b);
      && ClientTunnel.OnMessage(c, t, f).tunnel.state == ClientTunnel.Transport
      && Send(Server, Packet.SuccessReply(a, b)) in ClientTunnel.OnMessage(c, t, f).actions
  {
    var p := ServerPayload(c, Response(ServerTunnel.RepSuccess, a, b));
    var f := EncodeFrame(p);
    DecodeEncodeFrame(p, []);
    AppendNothing(f);
    assert f[4 + |p|..] == [];
    ServerPayloadRoundTrip(c, Response(ServerTunnel.RepSuccess, a, b));
    var o := ClientTunnel.OnSuccess(t, a, b);
    assert ClientTunnel.Drain(c, o.tunnel, []) == ClientTunnel.Step(o.tunnel, 0, []);
    AppendNothing(o.actions);
    assert o.actions[(if t.timerArmed then 1 else 0)] == Send(Server, Packet.SuccessReply(a, b));
  }
}
