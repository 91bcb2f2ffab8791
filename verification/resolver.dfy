/** The remote agent's DNS front end. A lookup arms a timeout and queues the query; the
    answer cancels the timer and reports either the address (with the port that was
    asked for) or an error, and the timeout reports an error. Each report is made only
    while the requesting connection is still alive. */
module Resolver {
  import opened Bytes
  import opened Effects

  const DefaultTimeout: real := 3.0

  /** INADDR_ANY: the answer the DNS library gives when it found nothing. */
  const AnyAddress: nat := 0

  /** The resolver's settings: its timeout and which callbacks are installed. */
  datatype Resolver = Resolver(timeout: real, hasResolveCallback: bool, hasErrorCallback: bool)

  const Default: Resolver := Resolver(DefaultTimeout, false, false)

  predicate IsValid(ip: nat)
  {
    ip != AnyAddress
  }

  /** One query in flight: what it asked for and whether its timer and its answer are
      still to come. `done` is used by the corrected resolver only. */
  datatype Query = Query(host: Bytes, port: nat, timerPending: bool, answerPending: bool, done: bool)

  /** `resolve`: arm the timeout first, then queue the lookup. */
  function Resolve(r: Resolver, host: Bytes, port: nat): (out: (Query, seq<Action>))
    ensures out.0 == Query(host, port, true, true, false)
    ensures out.1 == [ArmTimer(r.timeout), Lookup(host, port)]
  {
    (Query(host, port, true, true, false), [ArmTimer(r.timeout), Lookup(host, port)])
  }

  /** `onResolve`: the timer is cancelled whatever the outcome. */
  function OnResolve(r: Resolver, alive: bool, host: Bytes, port: nat, ip: nat): (acts: seq<Action>)
    ensures |acts| >= 1 && acts[0] == CancelTimer
    ensures !alive ==> acts == [CancelTimer]
    ensures alive && !IsValid(ip) ==> acts == [CancelTimer] + (if r.hasErrorCallback then [ErrorCallback(host)] else [])
    ensures alive && IsValid(ip) ==> acts == [CancelTimer] + (if r.hasResolveCallback then [ResolveCallback(ip, port)] else [])
  {
    [CancelTimer] +
      (if !alive then []
       else if !IsValid(ip) then (if r.hasErrorCallback then [ErrorCallback(host)] else [])
       else if r.hasResolveCallback then [ResolveCallback(ip, port)]
       else [])
  }

  /** `onError`: the timeout fired. */
  function OnError(r: Resolver, alive: bool, host: Bytes): (acts: seq<Action>)
    ensures acts == (if alive && r.hasErrorCallback then [ErrorCallback(host)] else [])
  {
    if alive && r.hasErrorCallback then [ErrorCallback(host)] else []
  }

  /** What can happen to a query in flight: its timer fires, or the DNS answer arrives.
      Either carries whether the requesting connection is still alive at that moment. */
  datatype Event = TimerFires(alive: bool) | Answer(alive: bool, ip: nat)

  /** The resolver as written: a cancelled timer never fires and the answer comes once,
      but nothing stops the answer from being reported after the timeout was. */
  function Step(r: Resolver, q: Query, e: Event): (out: (Query, seq<Action>))
  {
    match e
    case TimerFires(alive) =>
      if q.timerPending then (q.(timerPending := false), OnError(r, alive, q.host)) else (q, [])
    case Answer(alive, ip) =>
      if q.answerPending then (q.(answerPending := false, timerPending := false), OnResolve(r, alive, q.host, q.port, ip))
      else (q, [])
  }

  function Run(r: Resolver, q: Query, es: seq<Event>): (acts: seq<Action>)
    decreases |es|
  {
    if es == [] then [] else
      var (q1, a) := Step(r, q, es[0]);
      a + Run(r, q1, es[1..])
  }

  predicate IsCallback(a: Action)
  {
    a.ResolveCallback? || a.ErrorCallback?
  }

  /** The callbacks among a sequence of effects, in order. */
  function Callbacks(acts: seq<Action>): (cs: seq<Action>)
    ensures |cs| <= |acts|
    ensures forall i :: 0 <= i < |cs| ==> IsCallback(cs[i])
    decreases |acts|
  {
    if acts == [] then []
    else (if IsCallback(acts[0]) then [acts[0]] else []) + Callbacks(acts[1..])
  }

  lemma {:induction false} CallbacksAppend(a: seq<Action>, b: seq<Action>)
    ensures Callbacks(a + b) == Callbacks(a) + Callbacks(b)
    decreases |a|
  {
    if a != [] {
      assert (a + b)[1..] == a[1..] + b;
      CallbacksAppend(a[1..], b);
    } else {
      assert a + b == b;
    }
  }

  /** A timeout on a live connection followed by a valid answer reports twice: first the
      error, then the address. */
  lemma DoubleFire(r: Resolver, host: Bytes, port: nat, ip: nat)
    requires r.hasResolveCallback && r.hasErrorCallback && IsValid(ip)
    ensures Callbacks(Run(r, Resolve(r, host, port).0, [TimerFires(true), Answer(true, ip)]))
         == [ErrorCallback(host), ResolveCallback(ip, port)]
  {
    var q := Resolve(r, host, port).0;
    var es := [TimerFires(true), Answer(true, ip)];
    var q1 := q.(timerPending := false);
    assert Step(r, q, es[0]) == (q1, [ErrorCallback(host)]);
    assert es[1..] == [Answer(true, ip)];
    var second := Step(r, q1, Answer(true, ip));
    assert second.1 == [CancelTimer, ResolveCallback(ip, port)];
    assert Run(r, second.0, []) == [];
    assert Run(r, q1, [Answer(true, ip)]) == second.1 + Run(r, second.0, []);
    assert Run(r, q, es) == [ErrorCallback(host)] + Run(r, q1, [Answer(true, ip)]);
    assert second.1 + [] == second.1;
    assert Run(r, q, es) == [ErrorCallback(host)] + [CancelTimer, ResolveCallback(ip, port)];
    CallbacksAppend([ErrorCallback(host)], [CancelTimer, ResolveCallback(ip, port)]);
    assert [CancelTimer, ResolveCallback(ip, port)][1..] == [ResolveCallback(ip, port)];
    assert Callbacks([ResolveCallback(ip, port)]) == [ResolveCallback(ip, port)] + Callbacks([]);
    assert Callbacks([CancelTimer, ResolveCallback(ip, port)]) == Callbacks([ResolveCallback(ip, port)]);
    assert Callbacks([ErrorCallback(host)]) == [ErrorCallback(host)] + Callbacks([]);
  }

  /** A query with neither its timer nor its answer still to come does nothing more. */
  lemma {:induction false} SettledIsSilent(r: Resolver, q: Query, es: seq<Event>)
    requires !q.timerPending && !q.answerPending
    ensures Run(r, q, es) == []
    decreases |es|
  {
    if es != [] {
      SettledIsSilent(r, q, es[1..]);
    }
  }

  /** The double report needs the timer to go first: when the answer arrives first it
      cancels the timer, and at most one report is ever made. */
  lemma AnswerFirstFiresOnce(r: Resolver, q: Query, alive: bool, ip: nat, es: seq<Event>)
    requires q.answerPending
    ensures |Callbacks(Run(r, q, [Answer(alive, ip)] + es))| <= 1
  {
    var all := [Answer(alive, ip)] + es;
    assert all[0] == Answer(alive, ip) && all[1..] == es;
    var (q1, a) := Step(r, q, all[0]);
    SettledIsSilent(r, q1, es);
    assert Run(r, q, all) == a + [];
    assert a + [] == a;
    assert a == [CancelTimer] + a[1..];
    CallbacksAppend([CancelTimer], a[1..]);
    assert Callbacks([CancelTimer]) == [];
  }

  /** The corrected resolver: the first of the two events completes the query, and the
      other one, if it still comes, only cancels the timer. */
  function StepGuarded(r: Resolver, q: Query, e: Event): (out: (Query, seq<Action>))
    ensures |Callbacks(out.1)| <= 1
    ensures q.done ==> out.0.done && Callbacks(out.1) == []
    ensures |Callbacks(out.1)| == 1 ==> out.0.done
    ensures !q.done ==> out.1 == Step(r, q, e).1
    ensures out.0.(done := false) == Step(r, q, e).0.(done := false)
  {
    match e
    case TimerFires(alive) =>
      if q.timerPending then
        (q.(timerPending := false, done := true), if q.done then [] else OnError(r, alive, q.host))
      else (q, [])
    case Answer(alive, ip) =>
      if q.answerPending then
        (q.(answerPending := false, timerPending := false, done := true),
         if q.done then [CancelTimer] else OnResolve(r, alive, q.host, q.port, ip))
      else (q, [])
  }

  function RunGuarded(r: Resolver, q: Query, es: seq<Event>): (acts: seq<Action>)
    decreases |es|
  {
    if es == [] then [] else
      var (q1, a) := StepGuarded(r, q, es[0]);
      a + RunGuarded(r, q1, es[1..])
  }

  /** Whatever order the events come in, the corrected resolver reports at most once,
      and not at all once the query is complete. */
  lemma {:induction false} GuardedFiresAtMostOnce(r: Resolver, q: Query, es: seq<Event>)
    ensures |Callbacks(RunGuarded(r, q, es))| <= (if q.done then 0 else 1)
    decreases |es|
  {
    if es != [] {
      var (q1, a) := StepGuarded(r, q, es[0]);
      GuardedFiresAtMostOnce(r, q1, es[1..]);
      CallbacksAppend(a, RunGuarded(r, q1, es[1..]));
    }
  }

  /** The correction only drops reports: the corrected resolver's reports are a prefix of
      the written one's, so the first report is always the same. */
  lemma {:induction false} GuardedIsPrefix(r: Resolver, q: Query, es: seq<Event>)
    requires !q.done
    ensures Callbacks(RunGuarded(r, q, es)) <= Callbacks(Run(r, q, es))
    decreases |es|
  {
    if es != [] {
      var (g1, ga) := StepGuarded(r, q, es[0]);
      var (w1, wa) := Step(r, q, es[0]);
      CallbacksAppend(ga, RunGuarded(r, g1, es[1..]));
      CallbacksAppend(wa, Run(r, w1, es[1..]));
      assert ga == wa;
      if g1.done {
        GuardedFiresAtMostOnce(r, g1, es[1..]);
      } else {
        assert w1 == g1;
        GuardedIsPrefix(r, g1, es[1..]);
      }
    }
  }
}
