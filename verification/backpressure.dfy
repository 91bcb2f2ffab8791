/** The pause/resume logic both relays share (the client tunnel and the server tunnel
    carry identical copies). When a leg's output queue passes the high-water mark while
    still holding bytes, reading stops on the opposite leg and a one-shot write-complete
    handler is armed on the full leg; when that leg's queue drains, the handler resumes
    the opposite leg and disarms itself. */
module Backpressure {
  import opened Effects

  /** `paused`: legs whose reading backpressure has stopped; `armed`: legs that carry a
      write-complete handler. */
  datatype Flow = Flow(paused: set<Leg>, armed: set<Leg>)

  const Idle: Flow := Flow({}, {})

  /** Each leg is armed exactly when the opposite leg is paused. */
  ghost predicate Coupled(f: Flow)
  {
    && (Server in f.armed <==> Client in f.paused)
    && (Client in f.armed <==> Server in f.paused)
  }

  /** `onHighWaterMark(which)`: only a queue that still holds bytes pauses the other leg. */
  function OnHighWater(f: Flow, which: Leg, outputPending: bool): (r: (Flow, seq<Action>))
    ensures !outputPending ==> r.0 == f && r.1 == []
    ensures outputPending ==> Other(which) in r.0.paused && which in r.0.armed
    ensures outputPending ==> r.1 == [StopRead(Other(which)), ArmWriteComplete(which)]
    ensures r.0.paused - {Other(which)} == f.paused - {Other(which)}
    ensures r.0.armed - {which} == f.armed - {which}
    ensures Coupled(f) ==> Coupled(r.0)
  {
    if outputPending then
      (Flow(f.paused + {Other(which)}, f.armed + {which}), [StopRead(Other(which)), ArmWriteComplete(which)])
    else (f, [])
  }

  /** `onWriteComplete(which)`: delivered only while the handler is armed on `which`. */
  function OnWriteComplete(f: Flow, which: Leg): (r: (Flow, seq<Action>))
    ensures which !in f.armed ==> r.0 == f && r.1 == []
    ensures which in f.armed ==> Other(which) !in r.0.paused && which !in r.0.armed
    ensures which in f.armed ==> r.1 == [StartRead(Other(which)), DisarmWriteComplete(which)]
    ensures r.0.paused - {Other(which)} == f.paused - {Other(which)}
    ensures r.0.armed - {which} == f.armed - {which}
    ensures Coupled(f) ==> Coupled(r.0)
  {
    if which in f.armed then
      (Flow(f.paused - {Other(which)}, f.armed - {which}), [StartRead(Other(which)), DisarmWriteComplete(which)])
    else (f, [])
  }

  /** Events that can reach the machine. */
  datatype Event = HighWaterEvent(leg: Leg, outputPending: bool) | WriteCompleteEvent(leg: Leg)

  function Apply(f: Flow, e: Event): Flow
  {
    match e
    case HighWaterEvent(l, p) => OnHighWater(f, l, p).0
    case WriteCompleteEvent(l) => OnWriteComplete(f, l).0
  }

  function Run(f: Flow, es: seq<Event>): Flow
    decreases |es|
  {
    if es == [] then f else Run(Apply(f, es[0]), es[1..])
  }

  /** From an idle relay, whatever events arrive, a leg is paused exactly while the
      opposite leg has an undrained write-complete handler: a pause is never lost and
      never outlives the drain that should end it. */
  lemma {:induction false} RunKeepsCoupled(f: Flow, es: seq<Event>)
    requires Coupled(f)
    ensures Coupled(Run(f, es))
    decreases |es|
  {
    if es != [] {
      RunKeepsCoupled(Apply(f, es[0]), es[1..]);
    }
  }

  // ---------------------------------------------------------------------------
  // The handlers as both relays write them. `serverCon_` is held for the relay's whole
  // life; `clientCon_` only while `clientUp`. Dereferencing a reset `clientCon_` crashes.

  /** `onHighWaterMark(which)`: reads `which`'s output buffer, then pauses the other leg. */
  function HighWater(f: Flow, clientUp: bool, which: Leg, outputPending: bool): (r: (Flow, seq<Action>))
    ensures clientUp ==> r == OnHighWater(f, which, outputPending)
    ensures !clientUp ==> r.0 == f
    ensures !clientUp && (which == Client || outputPending) ==> r.1 == [Abort]
    ensures !clientUp && which == Server && !outputPending ==> r.1 == []
    ensures Coupled(f) ==> Coupled(r.0)
  {
    if which == Client && !clientUp then (f, [Abort])
    else if !outputPending then (f, [])
    else if !clientUp then (f, [Abort])
    else OnHighWater(f, which, true)
  }

  /** `onWriteComplete(which)`: resumes the other leg, then disarms `which`. */
  function WriteComplete(f: Flow, clientUp: bool, which: Leg): (r: (Flow, seq<Action>))
    ensures clientUp || which !in f.armed ==> r == OnWriteComplete(f, which)
    ensures !clientUp && which in f.armed ==> r.0 == f
    ensures !clientUp && which == Server && which in f.armed ==> r.1 == [Abort]
    ensures !clientUp && which == Client && which in f.armed ==> r.1 == [StartRead(Server), Abort]
    ensures Coupled(f) ==> Coupled(r.0)
  {
    if which !in f.armed then (f, [])
    else if !clientUp then
      (f, if which == Server then [Abort] else [StartRead(Server), Abort])
    else OnWriteComplete(f, which)
  }
}
