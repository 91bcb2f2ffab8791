/** The legs of a relay and the abstract effects a step asks the event loop to perform.
    Connections, timers and callbacks are not modelled as objects: a step returns the
    list of things the C++ code would do to them, in order. */
module Effects {
  import opened Bytes

  /** The two connections a relay bridges, named as in the source: `Server` is the
      connection this agent accepted (`serverCon_`, the `con` of a listener callback),
      `Client` is the one it opened itself (`clientCon_`, the connection kept in the
      accepted connection's context). */
  datatype Leg = Server | Client

  function Other(l: Leg): (o: Leg)
    ensures o != l
  {
    if l == Server then Client else Server
  }

  /** High-water mark both relays install on their legs (1 MiB). */
  const HighWaterMark: nat := 1024 * 1024

  datatype Action =
    | Send(to: Leg, bytes: Bytes)          // TcpConnection::send
    | Shutdown(on: Leg)                    // TcpConnection::shutdown (half-close)
    | StopRead(on: Leg)
    | StartRead(on: Leg)
    | SetContext(on: Leg)                  // store the opposite leg in this leg's context
    | ClearContext(on: Leg)
    | WatchHighWater(on: Leg, mark: nat)   // setHighWaterMarkCallback
    | ArmWriteComplete(on: Leg)            // setWriteCompleteCallback(handler)
    | DisarmWriteComplete(on: Leg)         // setWriteCompleteCallback(empty)
    | ArmTimer(seconds: real)              // EventLoop::runAfter
    | CancelTimer
    | Connect                              // TcpClient::connect
    | StopConnecting                       // TcpClient::stop
    | OpenTunnel(domain: Bytes, port: nat) // local agent creates, sets up and connects a Tunnel
    | Lookup(host: Bytes, port: nat)       // Resolver queues a DNS query, remembering the port
    | TransportReady                       // the relay's "transport begins" callback
    | ResolveCallback(ip: nat, port: nat)
    | ErrorCallback(host: Bytes)
    | Abort                                // LOG_FATAL, an uncaught exception, or a null connection dereferenced

  /** Sending each of `ds` to a leg, in order. */
  function Sends(l: Leg, ds: seq<Bytes>): (acts: seq<Action>)
    ensures |acts| == |ds|
    ensures forall i :: 0 <= i < |ds| ==> acts[i] == Send(l, ds[i])
  {
    seq(|ds|, i requires 0 <= i < |ds| => Send(l, ds[i]))
  }

  lemma SendsCons(l: Leg, ds: seq<Bytes>)
    requires ds != []
    ensures Sends(l, ds) == [Send(l, ds[0])] + Sends(l, ds[1..])
  {
    assert Sends(l, ds)[1..] == Sends(l, ds[1..]);
  }
}
