# zy_socks in Dafny

zy_socks is a two-part SOCKS5 proxy. The **local agent** (`client/`) accepts SOCKS5
connections from applications. It answers method selection and the CONNECT request of
RFC 1928 itself (sections 3, 4 and 6). It then opens a *tunnel* to the **remote agent**
(`server/`) and sends it a REQUEST carrying a shared password, the domain and the port.
The remote agent's *dispatcher* checks the request and resolves the domain with a
timeout. It then opens a *relay* to the destination and answers with a RESPONSE. From
then on both sides carry the application's bytes as DATA messages.

Every tunnel message is a *frame*: a 4-byte network-order signed length, then the payload.
The payload is a protobuf message, snappy-compressed in the client-to-server direction.
Both relays also share the same pause/resume (*backpressure*) logic, driven by muduo's
high-water-mark and write-complete callbacks.

## How the model is built

Each handler is a pure step function. It takes the component's state and the input
buffer, and returns three things:

- the new state;
- how many bytes it takes from the front of the buffer;
- the list of effects it asks the event loop for (`Effects.Action`: send on a leg,
  shut down, stop/start reading, arm/cancel a timer, connect, and so on).

Connections, timers and DNS answers do not exist as objects. A timer firing, an answer
arriving or a connection coming up is a call to the matching handler.

Where the source is wrong (see "## Findings"), the component's handler and its entry point
are modelled as written. The corrected handler sits beside it as a separate member
(`LocalServer.OnMessageFixed`, `ClientTunnel.OnMessageFixed`, `Resolver.StepGuarded`, ...),
with the intended property proved about it. The frame test is the exception: every state
machine decodes with the corrected `Framing.Decode`, and the written test's divergences
from it are stated as lemmas and listed under "## Left out".

Protobuf and snappy are uninterpreted functions in `Wire.Codec`. The round-trip lemmas
assume only `Wire.Lawful`: parse inverts serialise, and uncompress inverts compress.

The modules, file by file:

- `bytes.dfy`: byte order and integer-width conversions.
- `effects.dfy`: the legs and the effects.
- `wire.dfy`: the messages and the codec.
- `framing.dfy`: the frame encoder and decoder.
- `packet.dfy`: the packed SOCKS5 reply structs.
- `backpressure.dfy`: the shared pause/resume logic.
- `local_server.dfy`: the local agent's SOCKS5 parser and registry.
- `client_tunnel.dfy`: the local agent's tunnel.
- `resolver.dfy`: the remote agent's DNS front end.
- `server_tunnel.dfy`: the remote agent's relay.
- `socks_server.dfy`: the remote agent's dispatcher.
- `config.dfy`: the JSON configuration check and the port accessors.
- `scenarios.dfy`: the two agents against each other.

## Model

| member | source | states |
|---|---|---|
| Bytes.Int32RoundTrip | client/local_server.cc:152 | a length written with `appendInt32` is read back unchanged by `peekInt32`, for every int32 |
| Bytes.LittleEndianRoundTrip | client/packet.h:17-18 | a number stored in a packed field of n bytes on a little-endian host reads back as itself modulo 256^n |
| Bytes.UpToNul | server/socks_server.cc:104 | the domain taken with `.c_str()` is the longest NUL-free prefix of the address: it stops exactly at the first NUL |
| Framing.HeaderOfEncodeFrame | server/tunnel.cc:80-82 | the header of every frame a sender builds carries the payload length when that length fits an int32 |
| Framing.GuardAdmitsBadLength | server/socks_server.cc:71 | the written frame test passes a negative length, and a length near INT32_MAX whose `+ 4` wraps. In both cases the bytes the loop then reads are not in the buffer |
| Framing.HugeBufferRefused | server/socks_server.cc:71 | the written test casts the buffered byte count to int32, so on a buffer of 2^31 bytes or more it refuses a complete frame with a sane header, and the loop waits |
| Framing.HugeBufferDecoded | client/tunnel.cc:133 | on the same buffers `Decode` finds the frame that the written test refuses |
| Framing.Decode | server/socks_server.cc:71-73 | a decoded frame's size is four plus its non-negative header length, within the buffer, and its payload is the bytes after the header. A malformed buffer has a negative length. "Need more" means no complete frame is there |
| Framing.DecodedIsFrame | server/socks_server.cc:71-73 | what the decoder takes from the front of the buffer is exactly the encoding of the payload it returns |
| Framing.DecodeAgreesWithWrittenTest | client/tunnel.cc:133 | wherever the written test sees a sane length, it accepts exactly the buffers the corrected decoder decodes |
| Framing.DecodeEncodeFrame | server/tunnel.cc:79-84 | a frame followed by anything decodes to its own payload and size |
| Framing.EmptyFrameWaits | client/tunnel.cc:133 | a frame with an empty payload alone in the buffer is never decoded, because the test is `> 4` |
| Framing.DecodePartialFrame | server/socks_server.cc:71 | any proper prefix of a frame is waited on |
| Framing.SplitStops | server/socks_server.cc:71 | the decode loop stops only where no complete frame is left |
| Framing.SplitConsumesFrames | server/socks_server.cc:71-123 | the bytes the decode loop consumes are exactly the frames of the payloads it takes |
| Framing.SplitEncodeAll | server/socks_server.cc:71-123 | the decode loop recovers every payload of a sequence of frames, in order, and consumes exactly their bytes |
| Framing.TwoReadsYieldAll | client/tunnel.cc:133-159 | however a frame sequence is split across two reads, the two runs of the loop together yield exactly the original payloads |
| Packet.VerifyRoundTrip | client/packet.h:5-9 | the 2-byte method reply has no padding: bytes and struct convert both ways without loss |
| Packet.ResponseRoundTrip | client/packet.h:11-22 | the 10-byte reply struct has no padding: bytes and struct convert both ways without loss |
| Packet.MethodReply | client/local_server.cc:57-59 | the method reply is `05` followed by the selected method |
| Packet.ErrorReply | client/tunnel.cc:168-174 | an error reply is `05 rep 00 01` followed by six zero bytes |
| Packet.SuccessReply | client/tunnel.cc:81-84 | the success reply starts `05 00 00 01` and carries the reported address and port, truncated to 32 and 16 bits |
| Packet.SuccessReplyIsNetworkOrder | client/tunnel.cc:81-84 | address and port numbers given in network order reach the application as their network-order bytes |
| Wire.ClientPayloadRoundTrip | server/socks_server.cc:76-82 | a client message, serialised and compressed, is read back by the dispatcher as the same message |
| Wire.ServerPayloadRoundTrip | client/tunnel.cc:137 | a server message, serialised, is parsed back by the client tunnel as the same message |
| Backpressure.OnHighWater | client/tunnel.cc:214-235 | a high-water event with bytes pending pauses the opposite leg and arms the full leg. Without pending bytes nothing changes. No other leg is touched. Coupling is preserved |
| Backpressure.OnWriteComplete | client/tunnel.cc:200-212 | an armed write-complete resumes the opposite leg and disarms itself. An unarmed one does nothing. No other leg is touched. Coupling is preserved |
| Backpressure.RunKeepsCoupled | server/tunnel.cc:137-178 | for any sequence of events, a leg is paused exactly while the opposite leg is armed |
| Backpressure.HighWater | client/tunnel.cc:214-235 | with the destination connection up this is the pure pause logic. Without it, a client-leg event, or a server-leg event with bytes pending, dereferences the null `clientCon_`. Either way a coupled flow stays coupled |
| Backpressure.WriteComplete | client/tunnel.cc:200-212 | with the destination connection up this is the pure resume logic. Without it, an armed server-leg event crashes, and an armed client-leg event resumes the accepted leg first and then crashes. Either way a coupled flow stays coupled |
| LocalServer.OnMessage | client/local_server.cc:41-162 | every branch of the SOCKS5 parser: a bad version, an incomplete method list, no acceptable method, an unsupported command or address type, an incomplete domain, a complete request, Transport forwarding and the fallback shutdown, with the bytes consumed by each. A complete request stops reading and opens a tunnel to the domain `buf[5..5+LEN]` and the big-endian port after it; VER and RSV are not looked at |
| LocalServer.SplitGreetingRefused | client/local_server.cc:51 | a greeting whose first byte arrives alone is answered by a shutdown |
| LocalServer.OnMessageFixed | client/local_server.cc:51-93 | a buffer too short for its state's test is left untouched, and nothing is sent. Every other buffer is handled as written |
| LocalServer.GreetingAccepted | client/local_server.cc:51-161 | as written, a complete greeting offering "no authentication" is answered `05 00` and consumed exactly. Its proper prefixes of at most two bytes are shut down (lines 157-161) and the longer ones are waited on. The corrected handler waits on every proper prefix |
| LocalServer.GreetingRefused | client/local_server.cc:74-82 | a greeting without "no authentication" is answered `05 FF`, the buffer is emptied and the connection is shut down |
| LocalServer.RequestParsed | client/local_server.cc:93-161 | as written, a complete CONNECT request is consumed exactly and opens a tunnel to the domain and port it encodes. Its proper prefixes of at most six bytes are shut down (lines 157-161) and the longer ones are waited on. The corrected handler waits on every proper prefix |
| LocalServer.LocalhostHandshake | client/local_server.cc:51-138 | `05 01 00`, then the request for "localhost":80, gives `05 00` and a tunnel to localhost:80 |
| LocalServer.BindRefused | client/local_server.cc:95-104 | a BIND request is refused with reply code 7 and no tunnel is opened |
| LocalServer.OnConnection | client/local_server.cc:26-39 | a connect registers the name in Start and a disconnect removes it. No other entry changes |
| LocalServer.EraseFromTunnel | client/local_server.cc:173-178 | the name and only the name is removed |
| LocalServer.SetConState | client/local_server.cc:164-171 | an existing entry's state is updated. A missing name is never inserted |
| LocalServer.HandleMessage | client/local_server.cc:45-50 | an unregistered connection is fatal. Otherwise the written step runs on its entry, only that entry changes, and it owns a tunnel exactly when the step opened one |
| ClientTunnel.Open | client/local_server.cc:132-136 | a fresh tunnel is set up and connecting: the server leg is watched, the timer is armed with the given timeout, and `Connect` is issued |
| ClientTunnel.TeardownIdempotent | client/tunnel.cc:187-198 | tearing down twice is the same as tearing down once |
| ClientTunnel.OnConnection | client/tunnel.cc:29-56 | on connect, the REQUEST frame is sent and the state is Connected. On a disconnect while Connected, rep 1 is sent and the tunnel tears down. Otherwise it just tears down |
| ClientTunnel.ForwardedRep | client/tunnel.cc:91-115 | reply codes 3, 4, 5 and 7 reach the application unchanged. Every other failure becomes 1 |
| ClientTunnel.ReplyMapping | client/tunnel.cc:67-127 | the tunnel enters Transport exactly on a parsed RESPONSE with rep 0. Otherwise it tears down after one SOCKS5 reply with the forwarded code |
| ClientTunnel.ConnectedReply | client/tunnel.cc:61-129 | a RESPONSE frame, followed by anything, consumes exactly its own bytes; rep 0 enters Transport with exactly the success branch's actions (timer cancel, success reply carrying the remote address, link, resume, announce), and any other code tears down after exactly the forwarded error reply, context clear and shutdown |
| ClientTunnel.Drain | client/tunnel.cc:133-159 | the Transport loop consumes only what it decodes. It waits on an incomplete frame and ends in the same state or in Teardown |
| ClientTunnel.OnMessage | client/tunnel.cc:58-166 | while Connected, only the first frame is handled, and the step's state, consumed count and actions (the SOCKS5 reply written to the application) are those of the reply mapping; an unreadable length sends the general-failure reply, drops the buffer and tears down; NeedMore waits; Transport runs the loop, Init and SetUp tear down, and Teardown ignores the buffer |
| ClientTunnel.TransportForwardsAll | client/tunnel.cc:131-159 | in Transport, every DATA frame of a buffer reaches the application unchanged and in order, and the whole buffer is consumed |
| ClientTunnel.DrainContinuesAfterTeardown | client/tunnel.cc:147-158 | after an unexpected RESPONSE tears the tunnel down, a following DATA frame is still written to the application |
| ClientTunnel.DataAfterSuccess | client/tunnel.cc:61-130 | as written, a DATA frame in the same read as the success reply stays in the buffer. The corrected handler forwards it in the same call |
| ClientTunnel.OnMessageFixed | client/tunnel.cc:61-160 | after the success reply, the rest of the buffer is drained in Transport. Everything else is as written |
| ClientTunnel.SilentAfterTeardown | client/tunnel.cc:161-165 | the live connection keeps delivering bytes after teardown, and a torn-down tunnel takes none of them, sends nothing and does not change. A later disconnect leaves it torn down |
| ClientTunnel.OnTimeout | client/tunnel.cc:237-242 | a timeout stops connecting, sends reply code 4 and tears down |
| ClientTunnel.OnHighWaterMark | client/tunnel.cc:214-235 | only the tunnel's flow state changes, as the shared pause logic says, and a coupled flow stays coupled: each leg is armed exactly when the other is paused |
| ClientTunnel.OnWriteComplete | client/tunnel.cc:200-212 | only the tunnel's flow state changes, as the shared resume logic says, and a coupled flow stays coupled |
| ClientTunnel.OnTimeoutWeak | client/tunnel.cc:264-269 | a destroyed tunnel ignores its timer |
| ClientTunnel.OnHighWaterMarkWeak | client/tunnel.cc:254-262 | a destroyed tunnel ignores high-water events |
| ClientTunnel.OnWriteCompleteWeak | client/tunnel.cc:244-252 | a destroyed tunnel ignores write-complete events |
| ClientTunnel.SuccessfulSession | client/tunnel.cc:29-90 | open, connect and a success reply: the REQUEST carries the password, CONNECT, the domain and the port, and the success reply puts the tunnel in Transport with the timer cancelled |
| Resolver.Resolve | server/Resolver.cc:17-22 | a lookup arms the timeout first, then queues the query with the requested port |
| Resolver.OnResolve | server/Resolver.cc:24-47 | the answer always cancels the timer. A dead connection gets nothing. An invalid address gets the error callback. A valid one gets the resolve callback with the requested port |
| Resolver.OnError | server/Resolver.cc:49-61 | the timeout reports an error only for a live connection with a callback installed |
| Resolver.DoubleFire | server/Resolver.cc:20-31 | a timeout on a live connection followed by a valid answer reports twice: error, then address |
| Resolver.SettledIsSilent | server/Resolver.cc:31 | a query with neither its timer nor its answer still to come does nothing more |
| Resolver.AnswerFirstFiresOnce | server/Resolver.cc:31 | when the answer comes first, at most one report is ever made |
| Resolver.StepGuarded | server/Resolver.cc:24-61 | the corrected step reports at most once and is silent once the query is complete. Until then it behaves as written |
| Resolver.GuardedFiresAtMostOnce | server/Resolver.cc:20-61 | whatever the order of events, the corrected resolver reports at most once |
| Resolver.GuardedIsPrefix | server/Resolver.cc:20-61 | the corrected resolver's reports are a prefix of the written one's |
| ServerTunnel.Open | server/socks_server.cc:149-153 | a relay to the resolved address gets the tunnel timeout and the callback, watches the local agent's leg, arms the timer and connects |
| ServerTunnel.OnClientConnection | server/tunnel.cc:29-67 | on connect: cancel the timer if armed, watch the destination leg, send a rep-0 RESPONSE with the destination-side local address, link and resume the local agent's leg, and announce the transport. On disconnect: tear down |
| ServerTunnel.OnClientMessage | server/tunnel.cc:69-85 | each read from the destination becomes one DATA frame and the buffer ends empty |
| ServerTunnel.OnTimeout | server/tunnel.cc:109-135 | a connect timeout stops connecting, reports rep 4 and shuts the local agent's leg, without a teardown |
| ServerTunnel.OnHighWaterMark | server/tunnel.cc:137-162 | only the relay's flow state changes, as the shared pause logic says, and a coupled flow stays coupled: each leg is armed exactly when the other is paused |
| ServerTunnel.OnWriteComplete | server/tunnel.cc:164-178 | only the relay's flow state changes, as the shared resume logic says, and a coupled flow stays coupled |
| ServerTunnel.OnTimeoutWeak | server/tunnel.cc:199-204 | a destroyed relay ignores its timer |
| ServerTunnel.OnHighWaterMarkWeak | server/tunnel.cc:180-188 | a destroyed relay ignores high-water events |
| ServerTunnel.OnWriteCompleteWeak | server/tunnel.cc:190-197 | a destroyed relay ignores write-complete events |
| ServerTunnel.FramesDecode | server/tunnel.cc:43-56 | every frame the relay sends decodes back to the message it meant |
| ServerTunnel.TeardownRepeats | server/tunnel.cc:63-66 | a disconnect of the destination is a teardown, and a repeated disconnect repeats the same two effects and leaves the relay unchanged |
| SocksServer.New | server/socks_server.cc:12-29 | empty registries, DNS timeout 3, tunnel timeout 5, and a resolver with both callbacks and a 3-second timeout |
| SocksServer.SetDnsTimeout | server/socks_server.h:34 | only the stored DNS timeout changes. The resolver keeps its timeout |
| SocksServer.SetDnsTimeoutFixed | server/socks_server.h:34 | the stored DNS timeout and the resolver's timeout both change, and nothing else does |
| SocksServer.SetTunnelTimeout | server/socks_server.h:36 | only the tunnel timeout changes |
| SocksServer.OnConnection | server/socks_server.cc:31-45 | a connect registers the name in Start. A disconnect removes it from both registries. No other entry changes |
| SocksServer.EraseFromConStates | server/socks_server.cc:47-52 | the name and only the name leaves the state registry |
| SocksServer.EraseFromTunnels | server/socks_server.cc:54-59 | the name and only the name leaves the relay registry |
| SocksServer.SendResponseAndDown | server/socks_server.cc:127-143 | a framed RESPONSE carrying only `rep` (address and port 0), then a shutdown |
| SocksServer.Drain | server/socks_server.cc:71-123 | the decode loop consumes only what it decodes. It waits on an incomplete frame. A negative length ends the remote agent: the `std::string` built over the frame at line 78 has its end before its start, and the resulting exception is not caught |
| SocksServer.OnMessage | server/socks_server.cc:61-124 | an unregistered connection is fatal. Otherwise the loop runs from the stored state and its final state is stored back |
| SocksServer.OnResolve | server/socks_server.cc:146-155 | the name becomes Resolved and a relay to the address is opened and registered under it. Nothing else changes |
| SocksServer.OnResolveError | server/socks_server.cc:157-161 | a failed lookup is answered with rep 3 and a shutdown |
| SocksServer.SetConState | server/socks_server.cc:163-167 | an existing entry's state is updated. A missing name is never inserted |
| SocksServer.WrongPassword | server/socks_server.cc:92-97 | in Start, a wrong password gets rep 5 and a shutdown whatever the command, and the loop stops after that frame |
| SocksServer.UnsupportedCommand | server/socks_server.cc:98-103 | with the right password, a command other than CONNECT gets rep 7 and a shutdown |
| SocksServer.RequestAccepted | server/socks_server.cc:104-109 | a valid request looks up the address up to its first NUL at the port truncated to 16 bits, with the resolver's timer armed first. It then pauses reading, and the loop goes on in GotCmd |
| SocksServer.RequestAlone | server/socks_server.cc:104-109 | a request alone in the buffer yields exactly the timer, the lookup and the pause, and ends in GotCmd |
| SocksServer.OtherwiseShutdown | server/socks_server.cc:111-121 | every other combination of state and message, and every unreadable message, shuts the connection without a reply, and the loop goes on |
| SocksServer.UpstreamForwardsAll | server/socks_server.cc:84-88 | in Transport with a destination, every DATA frame's bytes go to the destination unchanged and in order |
| SocksServer.AcceptedArmsResolverTimer | server/socks_server.cc:89-109 | a registered connection's valid request arms the resolver's timeout, queues the lookup, pauses reading and is stored as GotCmd |
| SocksServer.DnsTimeoutIgnored | server/socks_server.cc:26 | as written, after `set_dns_timeout(t)` an accepted request still arms the 3-second default |
| SocksServer.DnsTimeoutApplied | server/socks_server.h:34 | corrected, an accepted request arms the configured timeout |
| Config.ValidateIsFirstFailing | config_json.cc:32-70 | the constructor's chain of checks equals the first-failing reference run over the required members of the mode |
| Config.ValidateChecksRequired | config_json.cc:32-70 | a document is accepted exactly when every required member of the mode is present with its kind. A rejection names the first one that is not |
| Config.ModesIgnoreOtherKeys | config_json.cc:48-69 | server mode never looks at `server`, `local_address` or `local_port`. Client mode never looks at `dns_timeout` |
| Config.Startup | client/client_main.cc:38 | as written, both agents construct the configuration without a mode (here the local agent; the remote agent does the same at server/server_main.cc:39), so each accepts exactly the documents complete for server mode |
| Config.ClientStartupFixed | client/client_main.cc:38 | corrected, the local agent accepts exactly the documents complete for client mode |
| Config.ClientConfigRejected | config_json.h:28 | a complete client configuration without `dns_timeout` stops the local agent as written, and is accepted in client mode |
| Config.ServerAddressUnchecked | client/client_main.cc:40 | as written, the local agent starts with no `server` member; client mode rejects that document at `server` |
| Config.GetInt | config_json.cc:87 | an integer value is readable exactly when it fits an `int` |
| Config.PortOf | config_json.cc:86-92 | `server_port` and `local_port`: the accessor gives an int16 congruent to the stored `int` modulo 2^16, and is defined exactly when the value is an `int` |
| Config.PortRoundTrip | client/client_main.cc:42 | through the `uint16_t` the caller stores it in, a valid port comes back unchanged. Any other `int` is reduced modulo 2^16 |
| Config.HighPortIsNegative | config_json.cc:86-88 | a port above 32767 passes through the accessor as a negative number |
| Scenarios.Upstream | client/local_server.cc:140-156 | bytes the local agent reads in Transport reach the destination unchanged, in one write, through the dispatcher |
| Scenarios.Downstream | server/tunnel.cc:69-85 | bytes the relay reads from the destination reach the application unchanged, in one write, through the client tunnel |
| Scenarios.RequestAccepted | client/tunnel.cc:38-45 | the REQUEST of a freshly connected tunnel is accepted by a dispatcher with the same password, which looks up the domain at the port |
| Scenarios.WrongPasswordReported | server/socks_server.cc:92-97 | a password mismatch reaches the application as SOCKS5 reply code 5, and the client tunnel tears down |
| Scenarios.ErrorReported | client/tunnel.cc:91-110 | a failure RESPONSE with rep 3, 4, 5 or 7 reaches the application as a SOCKS5 reply with that code, and the client tunnel tears down |
| Scenarios.TimeoutsReported | server/tunnel.cc:109-130 | the relay's connect timeout reaches the application as code 4, and a failed lookup as code 3 |
| Scenarios.SuccessReported | server/tunnel.cc:43-56 | the relay's success report reaches the application as `05 00 00 01` followed by the destination-side local address and port in network order |

## Left out

- Sockets, muduo's `TcpServer`, `TcpClient`, `TcpConnection` and `EventLoop`, and timers are not modelled as objects. Handlers return `Effects.Action`s. Events are calls.
- Muduo's own behaviour after a shutdown (a send on a half-closed connection is dropped) is not modelled. The actions record what the code asks for.
- Timeouts are `real` seconds. Real time and the ordering of timer expiry against I/O are not modelled. Any event can come next.
- Protobuf and snappy are uninterpreted (`Wire.Codec`). Only the round trips are assumed. Snappy's success flag is ignored at server/socks_server.cc:80, so uncompress is total.
- The proto schema is reduced to the fields the code reads. An unset field reads as 0.
- client/send_thread_pool.cc is not part of this model. The REQUEST it frames and compresses is modelled as the same `EncodeFrame` of the compressed payload. The worker thread and its check for a dead connection are left out.
- client/client_main.cc and server/server_main.cc are process plumbing: arguments, `daemon` and log files. Only their calls into the configuration are modelled.
- The `Tunnel` constructor used at client/local_server.cc:132 does not match the one in client/tunnel.h, which takes a pool. The local agent's parser therefore emits the abstract `OpenTunnel` action, and `ClientTunnel.Open` models the tunnel's creation, setup and connect. The two are not reconciled.
- A negative frame length: `Framing.Decode` reports it as `Malformed`. In the dispatcher the length reaches the `std::string` range constructor at server/socks_server.cc:78 with its end before its start. The library throws `length_error`, nothing catches it, and `SocksServer.Drain` ends the process with `Abort`. In the client tunnel, protobuf's `ParseFromArray` with a negative size is taken to fail, and muduo's `retrieve` of the length converted to `size_t` empties the buffer (its assertion is compiled out in a release build). The tunnel reports code 1 while Connected and tears down in Transport. How protobuf treats a negative size is not modelled.
- A header in [2^31 - 4, 2^31): the written test's `peekInt32() + 4` wraps and passes (`Framing.GuardAdmitsBadLength`), and the source then reads past the buffer, which is undefined behaviour. Every state machine decodes with `Framing.Decode`, which waits on such a header as on any incomplete frame. The over-read is not modelled.
- A buffer of 2^31 bytes or more: `int32(readableBytes())` wraps negative, so the written decode loops refuse a complete frame and wait (`Framing.HugeBufferRefused`). `Framing.Decode`, which every state machine uses, decodes the frame (`Framing.HugeBufferDecoded`). On such buffers `SocksServer.Drain`, `ClientTunnel.Drain` and `ClientTunnel.OnMessage` therefore handle a frame where the source waits.
- Teardown puts muduo's default callbacks back on the `TcpClient` (client/tunnel.cc:189-190, server/tunnel.cc:99-100). A `TcpClient` copies its callbacks only into the connections it creates later, and none is created after teardown. The live connection keeps calling the tunnel's own handlers, so the swap has no modelled effect.
- The DNS library is the abstract `Lookup` action. The re-encoding of the answer as `InetAddress(addr.toIp(), port)` is reduced to the pair of numbers.
- The client tunnel registers a high-water callback on the accepted leg only (client/tunnel.cc:180). The model still accepts destination-leg events, as the handler code allows.
- The server relay's `onTimeout` tests `serverCon_`, which is never reset. Its else branch is unreachable and is not modelled.
- `setTcpNoDelay` and all logging are left out.
- Reading the configuration file is left out. `fopen` and the rapidjson parse are replaced by a given map from top-level keys to value kinds. A document that fails to parse is not modelled.
- The configuration accessors `password`, `server_addr`, `local_addr`, `timeout`, `dns_timeout` and `server_ipv6` only return the stored value and are not modelled. Only the port accessors are.
- Config.GetInt: `GetInt` on a number that is not an `int` is an assertion failure in rapidjson. The model returns `None`, and does not model what a release build reads.
- LocalServer.HandleMessage: the entry's tunnel pointer is reduced to a flag saying whether the entry owns a tunnel.

## Findings

| source | as written | input that shows it | evidently intended | confidence | as-written member | corrected member |
|---|---|---|---|---|---|---|
| server/socks_server.cc:71 | frame test `readableBytes() > 4 && int32(readableBytes()) >= peekInt32() + 4`, the same in client/tunnel.cc:63,133 | header `FF FF FF FF` followed by one byte: length -1 passes the test. The dispatcher then builds a string over a reversed range, and the uncaught `length_error` ends the remote agent | reject a negative length, and wait until the whole frame is buffered | high; not executed | Framing.GuardAdmitsBadLength | Framing.Decode |
| client/local_server.cc:51 | the Start branch requires `> 2` bytes and Verified requires `> 6`. Shorter buffers fall through to the final `shutdown` | a greeting whose first byte `05` arrives alone | wait for more bytes | high; not executed | LocalServer.SplitGreetingRefused | LocalServer.OnMessageFixed |
| client/tunnel.cc:61-130 | while Connected, only one frame is handled per read | a success RESPONSE and a DATA frame in the same read: the DATA frame stays buffered until more bytes arrive | drain the remaining frames in Transport | medium; not executed | ClientTunnel.DataAfterSuccess | ClientTunnel.OnMessageFixed |
| server/Resolver.cc:20-31 | the timeout's callback and the answer's callback are independent. `cancel` of an expired timer does nothing | the timer fires on a live connection, then a valid answer arrives: the error callback and then the resolve callback both run | report exactly once | high; not executed | Resolver.DoubleFire | Resolver.StepGuarded |
| server/socks_server.h:34 | `set_dns_timeout` stores `dns_timeout_` only. The resolver took its timeout in the constructor (server/socks_server.cc:26) | `set_dns_timeout(10)`, as server/server_main.cc:59 does, then a valid request: the lookup timer is still 3 seconds | the resolver uses the configured timeout | high; not executed | SocksServer.DnsTimeoutIgnored | SocksServer.DnsTimeoutApplied |
| client/client_main.cc:38 | `config_json config(argv[1])` uses the default `server = true` (config_json.h:28) | a complete client configuration without `dns_timeout` is rejected at start-up | validate in client mode | high; not executed | Config.ClientConfigRejected | Config.ClientStartupFixed |
