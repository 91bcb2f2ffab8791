/** The local agent's SOCKS5 front end (`local_server`): method selection and the
    CONNECT request of RFC 1928 (sections 3, 4 and 6), parsed from an input buffer that
    may hold only part of a message, then the wrapping of application bytes into tunnel
    frames. Sessions live in a registry keyed by connection name. */
module LocalServer {
  import opened Bytes
  import opened Effects
  import opened Wire
  import Framing
  import Packet

  datatype ConState = Start | Verified | GotCmd | Transport

  /** One `onMessage` call: the session's next state, the number of bytes taken from the
      front of the input buffer, and the effects, in order. */
  datatype Step = Step(state: ConState, consumed: nat, actions: seq<Action>)

  const SocksVersion: byte := 0x05
  const NoAuth: byte := 0x00
  const NoAcceptable: byte := 0xFF
  const CmdConnect: byte := 0x01
  const AtypDomain: byte := 0x03
  const RepCmdNotSupported: byte := 0x07
  const RepAtypNotSupported: byte := 0x08

  /** Empty the buffer, send `reply`, half-close. */
  function Refuse(st: ConState, buf: Bytes, reply: Bytes): Step
  {
    Step(st, |buf|, [Send(Server, reply), Shutdown(Server)])
  }

  /** Start state with more than two bytes buffered: the greeting
      VER NMETHODS METHODS[NMETHODS]. */
  function OnGreeting(buf: Bytes): (r: Step)
    requires |buf| > 2
  {
    if buf[0] != SocksVersion then Refuse(Start, buf, Packet.MethodReply(NoAcceptable))
    else
      var n := buf[1] as nat;
      if |buf| < 2 + n then Step(Start, 0, [])
      else if NoAuth !in buf[2..2 + n] then Refuse(Start, buf, Packet.MethodReply(NoAcceptable))
      else Step(Verified, 2 + n, [Send(Server, Packet.MethodReply(NoAuth))])
  }

  /** Verified state with more than six bytes buffered: the request
      VER CMD RSV ATYP LEN DOMAIN[LEN] PORT[2]; VER and RSV are not looked at. */
  function OnRequest(buf: Bytes): (r: Step)
    requires |buf| > 6
  {
    if buf[1] != CmdConnect then Refuse(Verified, buf, Packet.ErrorReply(RepCmdNotSupported))
    else if buf[3] != AtypDomain then Refuse(Verified, buf, Packet.ErrorReply(RepAtypNotSupported))
    else
      var len := buf[4] as nat;
      if |buf| < 7 + len then Step(Verified, 0, [])
      else Step(GotCmd, 7 + len, [StopRead(Server), OpenTunnel(buf[5..5 + len], ReadBE16(buf[5 + len..]))])
  }

  /** `local_server::onMessage` as written. Each state's test also demands a minimum
      buffer size, and a buffer below it falls through to the last branch, which closes
      the connection instead of waiting. */
  function OnMessage(c: Codec, st: ConState, buf: Bytes, hasContext: bool): (r: Step)
    ensures r.consumed <= |buf|
    ensures st == Start && |buf| <= 2 ==> r == Step(Start, 0, [Shutdown(Server)])
    ensures st == Start && |buf| > 2 && buf[0] != 0x05 ==>
      r == Step(Start, |buf|, [Send(Server, [0x05, 0xFF]), Shutdown(Server)])
    ensures st == Start && |buf| > 2 && buf[0] == 0x05 && |buf| < 2 + buf[1] as int ==> r == Step(Start, 0, [])
    ensures st == Start && |buf| > 2 && buf[0] == 0x05 && |buf| >= 2 + buf[1] as int ==>
      if 0x00 in buf[2..2 + buf[1] as int] then r == Step(Verified, 2 + buf[1] as int, [Send(Server, [0x05, 0x00])])
      else r == Step(Start, |buf|, [Send(Server, [0x05, 0xFF]), Shutdown(Server)])
    ensures st == Verified && |buf| <= 6 ==> r == Step(Verified, 0, [Shutdown(Server)])
    ensures st == Verified && |buf| > 6 && buf[1] != 0x01 ==>
      r == Step(Verified, |buf|, [Send(Server, [0x05, 0x07, 0x00, 0x01, 0, 0, 0, 0, 0, 0]), Shutdown(Server)])
    ensures st == Verified && |buf| > 6 && buf[1] == 0x01 && buf[3] != 0x03 ==>
      r == Step(Verified, |buf|, [Send(Server, [0x05, 0x08, 0x00, 0x01, 0, 0, 0, 0, 0, 0]), Shutdown(Server)])
    ensures st == Verified && |buf| > 6 && buf[1] == 0x01 && buf[3] == 0x03 ==>
      if |buf| < 7 + buf[4] as int then r == Step(Verified, 0, [])
      else r.state == GotCmd && r.consumed == 7 + buf[4] as int
    ensures st == Verified && |buf| > 6 && buf[1] == 0x01 && buf[3] == 0x03 && |buf| >= 7 + buf[4] as int ==>
      r.actions == [StopRead(Server), OpenTunnel(buf[5..5 + buf[4] as int], ReadBE16(buf[5 + buf[4] as int..]))]
    ensures r.state == GotCmd && st != GotCmd ==>
      st == Verified && exists d, p :: r.actions == [StopRead(Server), OpenTunnel(d, p)]
    ensures st == Transport && hasContext ==>
      r == Step(Transport, |buf|, [Send(Client, Framing.EncodeFrame(ClientPayload(c, ClientData(buf))))])
    ensures st == GotCmd || (st == Transport && !hasContext) ==> r == Step(st, 0, [Shutdown(Server)])
  {
    if st == Start && |buf| > 2 then OnGreeting(buf)
    else if st == Verified && |buf| > 6 then OnRequest(buf)
    else if st == Transport && hasContext then
      Step(Transport, |buf|, [Send(Client, Framing.EncodeFrame(ClientPayload(c, ClientData(buf))))])
    else Step(st, 0, [Shutdown(Server)])
  }

  /** The evidently intended behaviour: a buffer too short for its state's test is left
      alone until more bytes arrive. Everything else is as written. */
  function OnMessageFixed(c: Codec, st: ConState, buf: Bytes, hasContext: bool): (r: Step)
    ensures r.consumed <= |buf|
    ensures (st == Start && |buf| <= 2) || (st == Verified && |buf| <= 6) ==> r == Step(st, 0, [])
    ensures !((st == Start && |buf| <= 2) || (st == Verified && |buf| <= 6)) ==> r == OnMessage(c, st, buf, hasContext)
  {
    if (st == Start && |buf| <= 2) || (st == Verified && |buf| <= 6) then Step(st, 0, [])
    else OnMessage(c, st, buf, hasContext)
  }

  /** As written, a greeting that arrives in pieces is refused: the first byte alone
      closes the connection. */
  lemma SplitGreetingRefused()
    ensures forall c: Codec, ctx: bool :: OnMessage(c, Start, [0x05], ctx).actions == [Shutdown(Server)]
  {
  }

  // ---------------------------------------------------------------------------
  // Independent encoders of the two client messages, and what the parser makes of them.

  /** The client's greeting offering `methods`. */
  function Greeting(methods: Bytes): Bytes
    requires |methods| < 256
  {
    [0x05, |methods|] + methods
  }

  /** The client's CONNECT request for `domain`:`port`. */
  function ConnectRequest(domain: Bytes, port: nat): Bytes
    requires |domain| < 256 && port < TwoTo16
  {
    [0x05, 0x01, 0x00, 0x03, |domain|] + domain + BE16(port)
  }

  /** A complete greeting that offers "no authentication" is accepted and consumed
      exactly, whatever follows it in the buffer. Of its proper prefixes, as written, the
      ones of at most two bytes close the connection and the longer ones are waited on;
      the corrected handler waits on all of them. */
  lemma GreetingAccepted(c: Codec, methods: Bytes, rest: Bytes, ctx: bool)
    requires |methods| < 256 && NoAuth in methods
    ensures OnMessage(c, Start, Greeting(methods) + rest, ctx)
         == Step(Verified, 2 + |methods|, [Send(Server, [0x05, 0x00])])
    ensures OnMessageFixed(c, Start, Greeting(methods) + rest, ctx) == OnMessage(c, Start, Greeting(methods) + rest, ctx)
    ensures forall k :: 0 <= k <= 2 ==>
      OnMessage(c, Start, Greeting(methods)[..k], ctx) == Step(Start, 0, [Shutdown(Server)])
    ensures forall k :: 2 < k < 2 + |methods| ==>
      OnMessage(c, Start, Greeting(methods)[..k], ctx) == Step(Start, 0, [])
    ensures forall k :: 0 <= k < 2 + |methods| ==>
      OnMessageFixed(c, Start, Greeting(methods)[..k], ctx) == Step(Start, 0, [])
  {
    var g := Greeting(methods) + rest;
    assert g[2..2 + |methods|] == methods;
    forall k | 2 < k < 2 + |methods|
      ensures OnMessage(c, Start, Greeting(methods)[..k], ctx) == Step(Start, 0, [])
    {
      var p := Greeting(methods)[..k];
      assert p[0] == 0x05 && p[1] == |methods|;
    }
  }

  /** A greeting without "no authentication" is refused with `05 FF`. */
  lemma GreetingRefused(c: Codec, methods: Bytes, rest: Bytes, ctx: bool)
    requires 0 < |methods| < 256 && NoAuth !in methods
    ensures OnMessage(c, Start, Greeting(methods) + rest, ctx)
         == Step(Start, 2 + |methods| + |rest|, [Send(Server, [0x05, 0xFF]), Shutdown(Server)])
  {
    var g := Greeting(methods) + rest;
    assert g[2..2 + |methods|] == methods;
  }

  /** A complete CONNECT request is consumed exactly and yields the domain and port it
      was built from. Of its proper prefixes, as written, the ones of at most six bytes
      close the connection and the longer ones are waited on; the corrected handler waits
      on all of them. */
  lemma RequestParsed(c: Codec, domain: Bytes, port: nat, rest: Bytes, ctx: bool)
    requires |domain| < 256 && port < TwoTo16
    ensures OnMessage(c, Verified, ConnectRequest(domain, port) + rest, ctx)
         == Step(GotCmd, 7 + |domain|, [StopRead(Server), OpenTunnel(domain, port)])
    ensures OnMessageFixed(c, Verified, ConnectRequest(domain, port) + rest, ctx)
         == OnMessage(c, Verified, ConnectRequest(domain, port) + rest, ctx)
    ensures forall k :: 0 <= k <= 6 ==>
      OnMessage(c, Verified, ConnectRequest(domain, port)[..k], ctx) == Step(Verified, 0, [Shutdown(Server)])
    ensures forall k :: 6 < k < 7 + |domain| ==>
      OnMessage(c, Verified, ConnectRequest(domain, port)[..k], ctx) == Step(Verified, 0, [])
    ensures forall k :: 0 <= k < 7 + |domain| ==>
      OnMessageFixed(c, Verified, ConnectRequest(domain, port)[..k], ctx) == Step(Verified, 0, [])
  {
    var b := ConnectRequest(domain, port) + rest;
    var n := |domain|;
    assert b[5..5 + n] == domain;
    assert b[5 + n..][..2] == BE16(port);
    forall k | 6 < k < 7 + n
      ensures OnMessage(c, Verified, ConnectRequest(domain, port)[..k], ctx) == Step(Verified, 0, [])
    {
      var p := ConnectRequest(domain, port)[..k];
      assert p[1] == 0x01 && p[3] == 0x03 && p[4] == n;
    }
  }

  /** The handshake of a client reaching localhost port 80: `05 01 00` is answered `05 00`,
      then the request opens a tunnel to "localhost":80. */
  lemma LocalhostHandshake(c: Codec)
    ensures OnMessage(c, Start, [0x05, 0x01, 0x00], false)
         == Step(Verified, 3, [Send(Server, [0x05, 0x00])])
    ensures var localhost: Bytes := [0x6C, 0x6F, 0x63, 0x61, 0x6C, 0x68, 0x6F, 0x73, 0x74];
      OnMessage(c, Verified, [0x05, 0x01, 0x00, 0x03, 0x09] + localhost + [0x00, 0x50], false)
         == Step(GotCmd, 16, [StopRead(Server), OpenTunnel(localhost, 80)])
  {
    GreetingAccepted(c, [0x00], [], false);
    assert Greeting([0x00]) + [] == [0x05, 0x01, 0x00];
    var localhost: Bytes := [0x6C, 0x6F, 0x63, 0x61, 0x6C, 0x68, 0x6F, 0x73, 0x74];
    RequestParsed(c, localhost, 80, [], false);
    assert ConnectRequest(localhost, 80) + [] == [0x05, 0x01, 0x00, 0x03, 0x09] + localhost + [0x00, 0x50];
  }

  /** A BIND request is refused with reply code 7 before the remote agent is contacted. */
  lemma BindRefused(c: Codec, rest: Bytes)
    requires |rest| >= 2
    ensures var r := OnMessage(c, Verified, [0x05, 0x02, 0x00, 0x03, 0x01] + rest, false);
      r.actions == [Send(Server, [0x05, 0x07, 0x00, 0x01, 0, 0, 0, 0, 0, 0]), Shutdown(Server)]
      && forall a :: a in r.actions ==> !a.OpenTunnel?
  {
  }

  // ---------------------------------------------------------------------------
  // The session registry.

  /** A registry entry: the state and whether the entry owns a tunnel. */
  datatype Session = Session(state: ConState, hasTunnel: bool)

  type Registry = map<string, Session>

  /** Connect creates (or replaces) the entry in Start; disconnect erases it. */
  function OnConnection(reg: Registry, name: string, up: bool): (r: Registry)
    ensures up ==> name in r && r[name] == Session(Start, false)
    ensures !up ==> name !in r
    ensures forall n :: n != name ==> (n in r <==> n in reg)
    ensures forall n :: n in r && n != name ==> r[n] == reg[n]
  {
    if up then reg[name := Session(Start, false)] else EraseFromTunnel(reg, name)
  }

  /** `erase_from_tunnel`: removes the entry when present. */
  function EraseFromTunnel(reg: Registry, name: string): (r: Registry)
    ensures r.Keys == reg.Keys - {name}
    ensures forall n :: n in r ==> r[n] == reg[n]
  {
    if name in reg then reg - {name} else reg
  }

  /** `set_con_state`: updates an existing entry and never inserts one. */
  function SetConState(reg: Registry, name: string, st: ConState): (r: Registry)
    ensures r.Keys == reg.Keys
    ensures name in reg ==> r[name] == reg[name].(state := st)
    ensures forall n :: n in reg && n != name ==> r[n] == reg[n]
  {
    if name in reg then reg[name := reg[name].(state := st)] else reg
  }

  datatype Handled = Fatal | Handled(reg: Registry, consumed: nat, actions: seq<Action>)

  /** The registry-level message handler: a message for an unregistered connection is
      fatal; otherwise only that connection's entry changes, as the written step says,
      and it comes to own a tunnel exactly when the step opens one. */
  function HandleMessage(c: Codec, reg: Registry, name: string, buf: Bytes, hasContext: bool): (h: Handled)
    ensures h.Fatal? <==> name !in reg
    ensures h.Handled? ==> h.reg.Keys == reg.Keys && h.consumed <= |buf|
    ensures h.Handled? ==> forall n :: n in reg && n != name ==> h.reg[n] == reg[n]
    ensures h.Handled? ==>
      var s := OnMessage(c, reg[name].state, buf, hasContext);
      && h.reg[name].state == s.state && h.consumed == s.consumed && h.actions == s.actions
      && (h.reg[name].hasTunnel <==> reg[name].hasTunnel || exists a :: a in h.actions && a.OpenTunnel?)
  {
    if name !in reg then Fatal
    else
      var entry := reg[name];
      var s := OnMessage(c, entry.state, buf, hasContext);
      var opens := exists a :: a in s.actions && a.OpenTunnel?;
      Handled(reg[name := Session(s.state, entry.hasTunnel || opens)], s.consumed, s.actions)
  }
}
