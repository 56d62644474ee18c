/** The dispatch loop (`EventDispatcher`) and error routing
    (`ErrorHandler`). They call each other, a failing handler's error being
    dispatched as an `ExceptionEvent`, so both live in this module and the
    recursion is bounded by `fuel`.

    A dispatch is a pure function from the registry, the liveness and
    equality oracle, the shutdown flag and a stream of handler behaviours to
    the registry afterwards, the trace of actions taken and the unconsumed
    behaviours. */
module EventDispatcher {
  import opened Base
  import opened Classes
  import opened ListenerMethod
  import opened Events
  import opened ListenersRegistry

  /** What one synchronous handler invocation does: whether it interrupts
      the handler chain it received through the event, and what the handler
      body throws, if anything. */
  datatype Behaviour = Behaviour(interrupts: bool, thrown: Option<Throwable>)

  /** A handler that returns normally without interrupting. */
  const Returns := Behaviour(false, None)

  /** The dispatcher's flags: `isShutdownInitiated` and whether the executor
      has been shut down. */
  datatype Dispatcher = Dispatcher(shutdownInitiated: bool, executorShutdown: bool)

  const Fresh := Dispatcher(false, false)

  /** Observable steps of a dispatch. */
  datatype Action =
    | SetChain(event: Event)                          // `setHandlerChain` on a chain-aware event
    | Invoke(entry: Entry, owner: ObjId, event: Event) // synchronous `method.invoke(owner, event)`
    | Submit(entry: Entry, event: Event)              // handed to the executor
    | Sweep(handle: Handle)                           // `removeWeakListener` for a collected owner
    | RouteError(entry: Entry, exceptionEvent: Event) // error re-dispatched to its subscribers
    | Unhandled(error: Throwable)                     // error only logged
    | OutOfFuel(event: Event)                         // the model's recursion bound was reached

  /** The registry after a dispatch, its trace, and the behaviours left. */
  datatype Run = Run(registry: Registry, trace: seq<Action>, rest: seq<Behaviour>)

  /** The behaviour of the next synchronous invocation; an exhausted stream
      means the handler returns normally. */
  function Next(outs: seq<Behaviour>): Behaviour {
    if |outs| == 0 then Returns else outs[0]
  }

  function Drop(outs: seq<Behaviour>): seq<Behaviour> {
    if |outs| == 0 then [] else outs[1..]
  }

  /** `Method.invoke` wraps what the handler body throws. */
  function Wrapped(x: Throwable): (t: Throwable)
    ensures t.cause == Some(x)
  {
    Throwable("java.lang.reflect.InvocationTargetException", Some(x))
  }

  /** What `dispatchSingle` hands to the error handler: the cause when there
      is one, otherwise the exception itself. */
  function Routed(e: Throwable): (t: Throwable)
    ensures e.cause.Some? ==> t == e.cause.value
    ensures e.cause.None? ==> t == e
  {
    if e.cause.Some? then e.cause.value else e
  }

  /** A handler's own exception reaches the error handler unwrapped. */
  lemma RoutedUnwrapsInvocation(x: Throwable)
    ensures Routed(Wrapped(x)) == x
  {
  }

  /** The owner an entry's method is invoked on: the live referent of a weak
      entry, the target of a strong one. */
  function Owner(e: Entry, w: World): (o: Option<ObjId>)
    ensures e.binding.StrongTarget? ==> o == Some(e.binding.target)
    ensures e.binding.WeakHandle? ==> o == Deref(e.binding.handle, w)
    ensures e.binding.Unbound? ==> o.None?
  {
    match e.binding
    case Unbound => None
    case StrongTarget(t) => Some(t)
    case WeakHandle(h) => Deref(h, w)
  }

  /** Every entry whose owner can be invoked: strongly bound, or weakly bound
      to a live referent. */
  predicate AllLive(chain: seq<Entry>, w: World) {
    forall i | 0 <= i < |chain| :: Owner(chain[i], w).Some?
  }

  /** Neither of the registry's keys nor its lists change, except that lists
      can lose entries: each list afterwards is a sub-multiset of the one
      before, so no entry is added or duplicated. */
  ghost predicate Shrinks(r: Registry, r': Registry) {
    && r'.keys == r.keys
    && r'.lists.Keys == r.lists.Keys
    && (forall k | k in r.lists :: forall x | x in r'.lists[k] :: x in r.lists[k])
    && (forall k {:trigger multiset(r'.lists[k])} | k in r.lists :: multiset(r'.lists[k]) <= multiset(r.lists[k]))
  }

  /** `e` is in one of the registry's lists. */
  ghost predicate Registered(r: Registry, e: Entry) {
    exists k | k in r.lists :: e in r.lists[k]
  }

  /** Every invocation in `trace` is made on its entry's live owner, and its
      entry comes from `chain` or from one of the lists of `r`. */
  ghost predicate InvokesOwners(trace: seq<Action>, w: World, r: Registry, chain: seq<Entry>) {
    forall a | a in trace && a.Invoke? ::
      Owner(a.entry, w) == Some(a.owner) && (a.entry in chain || Registered(r, a.entry))
  }

  /** What is registered after a shrinking step was registered before. */
  lemma ShrinksKeepsInvokes(trace: seq<Action>, w: World, r: Registry, r': Registry, chain: seq<Entry>)
    requires Shrinks(r, r') && InvokesOwners(trace, w, r', chain)
    ensures InvokesOwners(trace, w, r, chain)
  {
    forall a | a in trace && a.Invoke? && a.entry !in chain ensures Registered(r, a.entry) {
      var k :| k in r'.lists && a.entry in r'.lists[k];
      assert k in r.lists;
    }
  }

  /** A chain whose entries are all in `c'` or registered can stand in
      for `c'`. */
  lemma InvokesOwnersWiden(trace: seq<Action>, w: World, r: Registry, c: seq<Entry>, c': seq<Entry>)
    requires InvokesOwners(trace, w, r, c)
    requires forall x | x in c :: x in c' || Registered(r, x)
    ensures InvokesOwners(trace, w, r, c')
  {
  }

  // ---------------------------------------------------------------------
  // dispatch, dispatchSingle, handle

  /** `dispatch(event, chain)`: hand the chain to a chain-aware event, then
      walk the chain. */
  function Dispatch(reg: Registry, w: World, d: Dispatcher, event: Event, chain: seq<Entry>,
                    outs: seq<Behaviour>, fuel: nat): (r: Run)
    decreases fuel, 3, 0
    ensures ChainAware(w, event) ==> |r.trace| > 0 && r.trace[0] == SetChain(event)
    ensures d.shutdownInitiated ==>
      r == Run(reg, if ChainAware(w, event) then [SetChain(event)] else [], outs)
    ensures Shrinks(reg, r.registry)
    ensures Valid(reg) ==> Valid(r.registry)
    ensures InvokesOwners(r.trace, w, reg, chain)
  {
    var prefix := if ChainAware(w, event) then [SetChain(event)] else [];
    var l := Loop(reg, w, d, event, chain, 0, false, outs, fuel);
    Run(l.registry, prefix + l.trace, l.rest)
  }

  /** The loop of `dispatch` from position `i`, with the chain's interrupt
      flag. A set shutdown flag ends the loop; an interrupted chain skips
      every remaining entry; an asynchronous entry is only submitted. */
  function Loop(reg: Registry, w: World, d: Dispatcher, event: Event, chain: seq<Entry>, i: nat,
                interrupted: bool, outs: seq<Behaviour>, fuel: nat): (r: Run)
    requires i <= |chain|
    decreases fuel, 2, |chain| - i
    ensures d.shutdownInitiated || interrupted ==> r == Run(reg, [], outs)
    ensures Shrinks(reg, r.registry)
    ensures Valid(reg) ==> Valid(r.registry)
    ensures InvokesOwners(r.trace, w, reg, chain)
  {
    if i == |chain| || d.shutdownInitiated then Run(reg, [], outs)
    else if interrupted then Loop(reg, w, d, event, chain, i + 1, interrupted, outs, fuel)
    else if chain[i].async then
      var l := Loop(reg, w, d, event, chain, i + 1, false, outs, fuel);
      Run(l.registry, [Submit(chain[i], event)] + l.trace, l.rest)
    else
      var s := Single(reg, w, d, event, chain[i], outs, fuel);
      var l := Loop(s.run.registry, w, d, event, chain, i + 1, s.interrupted, s.run.rest, fuel);
      InvokesOwnersWiden(s.run.trace, w, reg, [chain[i]], chain);
      ShrinksKeepsInvokes(l.trace, w, reg, s.run.registry, chain);
      Run(l.registry, s.run.trace + l.trace, l.rest)
  }

  /** The result of `dispatchSingle`, and whether the invoked handler
      interrupted the chain. */
  datatype SingleRun = SingleRun(run: Run, interrupted: bool)

  /** `dispatchSingle(event, entry)`: a weak entry whose owner was collected
      is swept instead of invoked, by `removeWeakListener` as written, whose
      `NullPointerException` (thrown when some list holds a strong entry) is
      routed to the error handler like a handler's own; otherwise the method
      is invoked on the owner, and any exception is routed to the error
      handler. */
  function Single(reg: Registry, w: World, d: Dispatcher, event: Event, e: Entry,
                  outs: seq<Behaviour>, fuel: nat): (r: SingleRun)
    decreases fuel, 1, 0
    ensures IsDeadWeak(e, w) ==>
      && |r.run.trace| > 0
      && r.run.trace[0] == Sweep(e.binding.handle)
      && !r.interrupted
      && (RemoveWeakListenerAsWritten(reg, w, e.binding.handle).outcome.Pass? ==>
            r.run == Run(RemoveWeakListenerAsWritten(reg, w, e.binding.handle).state, [Sweep(e.binding.handle)], outs))
      && (RemoveWeakListenerAsWritten(reg, w, e.binding.handle).outcome.Fail? ==>
            |r.run.trace| > 1 && ErrorStep(r.run.trace[1], e, ExceptionEvent(NullPointer, ContextOf(e, w, event))))
    ensures Owner(e, w).Some? ==>
      && |r.run.trace| > 0
      && r.run.trace[0] == Invoke(e, Owner(e, w).value, event)
      && (r.interrupted <==> Next(outs).interrupts && ChainAware(w, event))
      && (Next(outs).thrown.None? ==> r.run == Run(reg, [Invoke(e, Owner(e, w).value, event)], Drop(outs)))
    ensures Shrinks(reg, r.run.registry)
    ensures Valid(reg) ==> Valid(r.run.registry)
    ensures InvokesOwners(r.run.trace, w, reg, [e])
  {
    if IsDeadWeak(e, w) then
      var h := e.binding.handle;
      var s := RemoveWeakListenerAsWritten(reg, w, h);
      RemoveWeakListenerAsWrittenShrinks(reg, w, h);
      assert Valid(reg) ==> Valid(s.state) by {
        if Valid(reg) { RemoveWeakListenerPreservesValid(reg, w, h); }
      }
      if s.outcome.Pass? then SingleRun(Run(s.state, [Sweep(h)], outs), false)
      else
        var x := HandleError(s.state, w, d, event, e, Routed(NullPointer), outs, fuel);
        ShrinksKeepsInvokes(x.trace, w, reg, s.state, []);
        InvokesOwnersWiden(x.trace, w, reg, [], [e]);
        SingleRun(Run(x.registry, [Sweep(h)] + x.trace, x.rest), false)
    else
      match Owner(e, w)
      case None =>
        var x := HandleError(reg, w, d, event, e, Routed(NullPointer), outs, fuel);
        InvokesOwnersWiden(x.trace, w, reg, [], [e]);
        SingleRun(x, false)
      case Some(o) =>
        var b := Next(outs);
        var interrupted := b.interrupts && ChainAware(w, event);
        if b.thrown.None? then SingleRun(Run(reg, [Invoke(e, o, event)], Drop(outs)), interrupted)
        else
          var x := HandleError(reg, w, d, event, e, Routed(Wrapped(b.thrown.value)), Drop(outs), fuel);
          InvokesOwnersWiden(x.trace, w, reg, [], [e]);
          SingleRun(Run(x.registry, [Invoke(e, o, event)] + x.trace, x.rest), interrupted)
  }

  /** One synchronous step of the loop: the entry's own run, then the rest
      of the loop from the registry, interrupt flag and behaviours it left. */
  lemma LoopSyncStep(reg: Registry, w: World, d: Dispatcher, event: Event, chain: seq<Entry>, i: nat,
                     outs: seq<Behaviour>, fuel: nat)
    requires i < |chain| && !d.shutdownInitiated && !chain[i].async
    ensures var s := Single(reg, w, d, event, chain[i], outs, fuel);
      var l := Loop(s.run.registry, w, d, event, chain, i + 1, s.interrupted, s.run.rest, fuel);
      Loop(reg, w, d, event, chain, i, false, outs, fuel) == Run(l.registry, s.run.trace + l.trace, l.rest)
  {
  }

  /** The context `handle` builds for a failing entry. */
  function ContextOf(e: Entry, w: World, event: Event): (c: ExceptionContext)
    ensures e.HoldWeakReference() ==> c.listener == Deref(e.binding.handle, w)
    ensures !e.HoldWeakReference() ==> c.listener == e.Target()
    ensures c.event == event && c.subscribedMethod == e.handler
  {
    ExceptionContext(if e.HoldWeakReference() then Deref(e.binding.handle, w) else e.Target(), event, e.handler)
  }

  /** What the error handler does first with the exception event `ev`
      raised for entry `e`: log its error, dispatch it to its subscribers,
      or reach the recursion bound. */
  predicate ErrorStep(a: Action, e: Entry, ev: Event) {
    ev.ExceptionEvent? && (a == Unhandled(ev.exception) || a == RouteError(e, ev) || a == OutOfFuel(ev))
  }

  /** `ErrorHandler.handle(event, entry, error)`: wrap the error and its
      context in an exception event and dispatch it on a fresh chain to the
      subscribers of that exact type; without subscribers only log it. */
  function HandleError(reg: Registry, w: World, d: Dispatcher, event: Event, e: Entry, error: Throwable,
                       outs: seq<Behaviour>, fuel: nat): (r: Run)
    decreases fuel, 0, 0
    ensures var ev := ExceptionEvent(error, ContextOf(e, w, event));
      var subs := GetSubscribers(reg, w, Some(ev));
      && (subs.None? || |subs.value| == 0 ==> r == Run(reg, [Unhandled(error)], outs))
      && (subs.Some? && |subs.value| > 0 && fuel > 0 ==> |r.trace| > 0 && r.trace[0] == RouteError(e, ev))
      && |r.trace| > 0 && ErrorStep(r.trace[0], e, ev)
    ensures Shrinks(reg, r.registry)
    ensures Valid(reg) ==> Valid(r.registry)
    ensures InvokesOwners(r.trace, w, reg, [])
  {
    var ev := ExceptionEvent(error, ContextOf(e, w, event));
    var subs := GetSubscribers(reg, w, Some(ev));
    if subs.Some? && |subs.value| > 0 then
      if fuel == 0 then Run(reg, [OutOfFuel(ev)], outs)
      else
        var x := Dispatch(reg, w, d, ev, subs.value, outs, fuel - 1);
        assert forall y | y in subs.value :: Registered(reg, y) by {
          assert EXCEPTION_EVENT in reg.lists && subs.value == reg.lists[EXCEPTION_EVENT];
        }
        InvokesOwnersWiden(x.trace, w, reg, subs.value, []);
        Run(x.registry, [RouteError(e, ev)] + x.trace, x.rest)
    else Run(reg, [Unhandled(error)], outs)
  }

  /** The shutdown hook: set the flag; shut the executor down unless it
      already is. The second result says whether `shutdown()` was called. */
  function ShutdownHook(d: Dispatcher): (r: (Dispatcher, bool))
    ensures r.0.shutdownInitiated && r.0.executorShutdown
    ensures r.1 <==> !d.executorShutdown
  {
    (Dispatcher(true, true), !d.executorShutdown)
  }

  /** Running the hook twice shuts the executor down once. */
  lemma ShutdownHookIdempotent(d: Dispatcher)
    ensures ShutdownHook(ShutdownHook(d).0) == (ShutdownHook(d).0, false)
  {
  }

  // ---------------------------------------------------------------------
  // A reference semantics for the common case

  /** No subscriber listens for `ExceptionEvent`. */
  predicate NoErrorSubscribers(reg: Registry) {
    EXCEPTION_EVENT !in reg.lists || |reg.lists[EXCEPTION_EVENT]| == 0
  }

  /** The actions a dispatch over live entries takes when no one listens for
      errors, stated entry by entry: an asynchronous entry is submitted; a
      synchronous one is invoked on its owner, its error (if any) is logged as
      unhandled, and if it interrupted a chain-aware event nothing after it
      happens. */
  function Expected(w: World, event: Event, chain: seq<Entry>, outs: seq<Behaviour>): seq<Action>
    requires AllLive(chain, w)
    decreases |chain|
  {
    if |chain| == 0 then []
    else
      assert AllLive(chain[1..], w) by {
        forall i | 0 <= i < |chain| - 1 ensures Owner(chain[1..][i], w).Some? {
          assert chain[1..][i] == chain[i + 1];
        }
      }
      if chain[0].async then [Submit(chain[0], event)] + Expected(w, event, chain[1..], outs)
      else
        var b := Next(outs);
        [Invoke(chain[0], Owner(chain[0], w).value, event)]
        + (if b.thrown.Some? then [Unhandled(b.thrown.value)] else [])
        + (if b.interrupts && ChainAware(w, event) then [] else Expected(w, event, chain[1..], Drop(outs)))
  }

  lemma AllLiveSuffix(chain: seq<Entry>, w: World, i: nat)
    requires AllLive(chain, w) && i <= |chain|
    ensures AllLive(chain[i..], w)
  {
    forall j | 0 <= j < |chain| - i ensures Owner(chain[i..][j], w).Some? {
      assert chain[i..][j] == chain[i + j];
    }
  }

  /** A registry free of duplicates stays so while it shrinks. */
  lemma ShrinksPreservesNoDupAll(r: Registry, r': Registry, w: World)
    requires Shrinks(r, r') && NoDupAll(r, w)
    ensures NoDupAll(r', w)
  {
    forall k | k in r'.lists ensures NoDup(r'.lists[k], w) {
      SubMultisetNoDup(r.lists[k], r'.lists[k], w);
    }
  }

  /** A registry without error subscribers keeps none while it shrinks. */
  lemma ShrinksKeepsNoErrorSubscribers(reg: Registry, r': Registry)
    requires Shrinks(reg, r') && NoErrorSubscribers(reg)
    ensures NoErrorSubscribers(r')
  {
    if EXCEPTION_EVENT in r'.lists {
      ContainedInEmptyIsEmpty(r'.lists[EXCEPTION_EVENT], reg.lists[EXCEPTION_EVENT]);
    }
  }

  /** A list whose entries all occur in `b` is empty when `b` is. */
  lemma ContainedInEmptyIsEmpty(a: seq<Entry>, b: seq<Entry>)
    requires forall x | x in a :: x in b
    ensures |b| == 0 ==> |a| == 0
  {
    if |a| > 0 {
      assert a[0] in b;
    }
  }

  /** A collected weak entry whose sweep throws, with no error subscribers:
      the sweep is followed by the logged `NullPointerException`, and the
      registry is left as the interrupted sweep left it. */
  lemma SingleSweepThrowsUnhandled(reg: Registry, w: World, d: Dispatcher, event: Event, e: Entry,
                                   outs: seq<Behaviour>, fuel: nat)
    requires IsDeadWeak(e, w) && NoErrorSubscribers(reg)
    requires RemoveWeakListenerAsWritten(reg, w, e.binding.handle).outcome.Fail?
    ensures Single(reg, w, d, event, e, outs, fuel).run ==
      Run(RemoveWeakListenerAsWritten(reg, w, e.binding.handle).state, [Sweep(e.binding.handle), Unhandled(NullPointer)], outs)
    ensures !Single(reg, w, d, event, e, outs, fuel).interrupted
  {
    var s := RemoveWeakListenerAsWritten(reg, w, e.binding.handle).state;
    var ev := ExceptionEvent(NullPointer, ContextOf(e, w, event));
    assert EventClass(w, ev).id == EXCEPTION_EVENT;
    RemoveWeakListenerAsWrittenShrinks(reg, w, e.binding.handle);
    ShrinksKeepsNoErrorSubscribers(reg, s);
    assert HandleError(s, w, d, event, e, NullPointer, outs, fuel) == Run(s, [Unhandled(NullPointer)], outs);
  }

  /** A collected weak entry, with a strong entry in some list: the sweep
      throws, and the error handler takes the `NullPointerException` next. */
  lemma SingleSweepThrows(reg: Registry, w: World, d: Dispatcher, event: Event, e: Entry,
                          outs: seq<Behaviour>, fuel: nat)
    requires Valid(reg) && HoldsStrong(reg) && IsDeadWeak(e, w)
    ensures var t := Single(reg, w, d, event, e, outs, fuel).run.trace;
      && |t| > 1
      && t[0] == Sweep(e.binding.handle)
      && ErrorStep(t[1], e, ExceptionEvent(NullPointer, ContextOf(e, w, event)))
      && (NoErrorSubscribers(reg) ==> t[1] == Unhandled(NullPointer))
  {
    RemoveWeakListenerAsWrittenThrows(reg, w, e.binding.handle);
    if NoErrorSubscribers(reg) {
      SingleSweepThrowsUnhandled(reg, w, d, event, e, outs, fuel);
    }
  }

  /** A collected weak entry, with no strong entry anywhere: the sweep
      completes and no list keeps the entry. */
  lemma SingleSweepRemoves(reg: Registry, w: World, d: Dispatcher, event: Event, e: Entry,
                           outs: seq<Behaviour>, fuel: nat)
    requires Valid(reg) && NoDupAll(reg, w) && !HoldsStrong(reg) && IsDeadWeak(e, w)
    ensures var r := Single(reg, w, d, event, e, outs, fuel).run.registry;
      forall k | k in r.lists :: e !in r.lists[k]
  {
    RemoveWeakListenerAsWrittenRemoves(reg, w, e);
  }

  /** A live synchronous entry whose handler throws, with no error
      subscribers: invoked, then the error is logged, and the registry is
      untouched. */
  lemma SingleThrowsUnhandled(reg: Registry, w: World, d: Dispatcher, event: Event, e: Entry,
                              outs: seq<Behaviour>, fuel: nat)
    requires Owner(e, w).Some? && Next(outs).thrown.Some? && NoErrorSubscribers(reg)
    ensures Single(reg, w, d, event, e, outs, fuel).run ==
      Run(reg, [Invoke(e, Owner(e, w).value, event), Unhandled(Next(outs).thrown.value)], Drop(outs))
  {
    var x := Next(outs).thrown.value;
    RoutedUnwrapsInvocation(x);
    var ev := ExceptionEvent(Routed(Wrapped(x)), ContextOf(e, w, event));
    assert EventClass(w, ev).id == EXCEPTION_EVENT;
    assert HandleError(reg, w, d, event, e, Routed(Wrapped(x)), Drop(outs), fuel) == Run(reg, [Unhandled(x)], Drop(outs));
  }

  /** A live synchronous entry, with no error subscribers: invoked, its
      error (if any) logged, the registry untouched. */
  lemma SingleLive(reg: Registry, w: World, d: Dispatcher, event: Event, e: Entry,
                   outs: seq<Behaviour>, fuel: nat)
    requires Owner(e, w).Some? && NoErrorSubscribers(reg)
    ensures var b := Next(outs);
      && Single(reg, w, d, event, e, outs, fuel).run ==
           Run(reg, [Invoke(e, Owner(e, w).value, event)] + (if b.thrown.Some? then [Unhandled(b.thrown.value)] else []), Drop(outs))
      && Single(reg, w, d, event, e, outs, fuel).interrupted == (b.interrupts && ChainAware(w, event))
  {
    if Next(outs).thrown.Some? {
      SingleThrowsUnhandled(reg, w, d, event, e, outs, fuel);
    }
  }

  /** The loop from position `i` follows the reference semantics and leaves
      the registry as it was. */
  lemma {:induction false} LoopFollowsExpected(reg: Registry, w: World, d: Dispatcher, event: Event,
                                               chain: seq<Entry>, i: nat, outs: seq<Behaviour>, fuel: nat)
    requires i <= |chain| && !d.shutdownInitiated && AllLive(chain, w) && NoErrorSubscribers(reg)
    decreases |chain| - i
    ensures AllLive(chain[i..], w)
    ensures Loop(reg, w, d, event, chain, i, false, outs, fuel).registry == reg
    ensures Loop(reg, w, d, event, chain, i, false, outs, fuel).trace == Expected(w, event, chain[i..], outs)
  {
    AllLiveSuffix(chain, w, i);
    if i < |chain| {
      var e := chain[i];
      AllLiveSuffix(chain, w, i + 1);
      assert chain[i..][0] == e && chain[i..][1..] == chain[i + 1..];
      if e.async {
        LoopFollowsExpected(reg, w, d, event, chain, i + 1, outs, fuel);
      } else {
        var b := Next(outs);
        var s := Single(reg, w, d, event, e, outs, fuel);
        var head := [Invoke(e, Owner(e, w).value, event)]
          + (if b.thrown.Some? then [Unhandled(b.thrown.value)] else []);
        SingleLive(reg, w, d, event, e, outs, fuel);
        if !s.interrupted {
          LoopFollowsExpected(reg, w, d, event, chain, i + 1, Drop(outs), fuel);
        }
        assert Loop(reg, w, d, event, chain, i, false, outs, fuel).trace ==
          head + Loop(reg, w, d, event, chain, i + 1, s.interrupted, Drop(outs), fuel).trace;
      }
    }
  }

  /** A dispatch over live entries with no error subscribers and no
      shutdown: the chain is handed over first if the event is chain-aware,
      then the entries are processed as the reference semantics says, and
      the registry does not change. */
  lemma DispatchFollowsExpected(reg: Registry, w: World, d: Dispatcher, event: Event,
                                chain: seq<Entry>, outs: seq<Behaviour>, fuel: nat)
    requires !d.shutdownInitiated && AllLive(chain, w) && NoErrorSubscribers(reg)
    ensures Dispatch(reg, w, d, event, chain, outs, fuel).registry == reg
    ensures Dispatch(reg, w, d, event, chain, outs, fuel).trace ==
      (if ChainAware(w, event) then [SetChain(event)] else []) + Expected(w, event, chain, outs)
  {
    LoopFollowsExpected(reg, w, d, event, chain, 0, outs, fuel);
    assert chain[0..] == chain;
  }

  // ---------------------------------------------------------------------
  // Interruption

  /** One synchronous invocation per entry, in order. */
  function Invocations(w: World, event: Event, chain: seq<Entry>): (t: seq<Action>)
    requires AllLive(chain, w)
    ensures |t| == |chain|
    ensures forall j | 0 <= j < |chain| :: t[j] == Invoke(chain[j], Owner(chain[j], w).value, event)
  {
    seq(|chain|, j requires 0 <= j < |chain| => Invoke(chain[j], Owner(chain[j], w).value, event))
  }

  /** Synchronous live entries whose handlers neither throw nor interrupt:
      every entry is invoked once, in order. */
  lemma {:induction false} UninterruptedInvokesAll(w: World, event: Event, chain: seq<Entry>, outs: seq<Behaviour>)
    requires AllLive(chain, w)
    requires forall j | 0 <= j < |chain| :: !chain[j].async
    requires forall j | 0 <= j < |outs| :: outs[j] == Returns
    decreases |chain|
    ensures Expected(w, event, chain, outs) == Invocations(w, event, chain)
  {
    if |chain| > 0 {
      AllLiveSuffix(chain, w, 1);
      assert Next(outs) == Returns;
      ExpectedContinues(w, event, chain, outs);
      UninterruptedInvokesAll(w, event, chain[1..], Drop(outs));
      InvocationsCons(w, event, chain);
    }
  }

  lemma InvocationsCons(w: World, event: Event, chain: seq<Entry>)
    requires AllLive(chain, w) && |chain| > 0
    ensures AllLive(chain[1..], w)
    ensures Invocations(w, event, chain) ==
      [Invoke(chain[0], Owner(chain[0], w).value, event)] + Invocations(w, event, chain[1..])
  {
    AllLiveSuffix(chain, w, 1);
    var t := Invocations(w, event, chain);
    var t' := [Invoke(chain[0], Owner(chain[0], w).value, event)] + Invocations(w, event, chain[1..]);
    assert |t| == |t'|;
    forall j | 0 <= j < |t| ensures t[j] == t'[j] {
      if j > 0 {
        assert chain[1..][j - 1] == chain[j];
      }
    }
  }

  /** Synchronous live entries on a chain-aware event whose handlers do not
      throw, where handler `k` is the first to interrupt: exactly the first
      `k + 1` entries are invoked, the interrupting one included. */
  lemma InterruptStopsAfter(w: World, event: Event, chain: seq<Entry>, outs: seq<Behaviour>, k: nat)
    requires AllLive(chain, w) && ChainAware(w, event)
    requires forall j | 0 <= j < |chain| :: !chain[j].async
    requires k < |chain| && k < |outs|
    requires forall j | 0 <= j <= k :: outs[j].thrown.None?
    requires forall j | 0 <= j < k :: !outs[j].interrupts
    requires outs[k].interrupts
    ensures AllLive(chain[..k + 1], w)
    ensures Expected(w, event, chain, outs) == Invocations(w, event, chain[..k + 1])
  {
    InterruptStopsFrom(w, event, chain, outs, 0, k);
    assert chain[0..] == chain && outs[0..] == outs && chain[0..k + 1] == chain[..k + 1];
  }

  /** `InterruptStopsAfter` from position `i` of the chain on. */
  lemma {:induction false} InterruptStopsFrom(w: World, event: Event, chain: seq<Entry>, outs: seq<Behaviour>,
                                              i: nat, k: nat)
    requires AllLive(chain, w) && ChainAware(w, event)
    requires forall j | 0 <= j < |chain| :: !chain[j].async
    requires i <= k < |chain| && k < |outs|
    requires forall j | 0 <= j <= k :: outs[j].thrown.None?
    requires forall j | 0 <= j < k :: !outs[j].interrupts
    requires outs[k].interrupts
    decreases k - i
    ensures AllLive(chain[i..], w) && AllLive(chain[i..k + 1], w)
    ensures Expected(w, event, chain[i..], outs[i..]) == Invocations(w, event, chain[i..k + 1])
  {
    AllLiveSuffix(chain, w, i);
    var pre := chain[i..k + 1];
    assert AllLive(pre, w) by {
      forall j | 0 <= j < |pre| ensures Owner(pre[j], w).Some? {
        assert pre[j] == chain[i + j];
      }
    }
    InvocationsCons(w, event, pre);
    assert pre[0] == chain[i] && chain[i..][0] == chain[i] && outs[i..][0] == outs[i];
    assert !chain[i].async && outs[i].thrown.None?;
    if i == k {
      ExpectedStops(w, event, chain[i..], outs[i..]);
      assert |Invocations(w, event, pre[1..])| == 0;
    } else {
      assert outs[i] == Returns;
      ExpectedContinues(w, event, chain[i..], outs[i..]);
      assert chain[i..][1..] == chain[i + 1..] && Drop(outs[i..]) == outs[i + 1..];
      InterruptStopsFrom(w, event, chain, outs, i + 1, k);
      assert chain[i + 1..k + 1] == pre[1..];
    }
  }

  /** `Expected` on a live synchronous head whose handler neither throws
      nor interrupts: the invocation, then the rest. */
  lemma ExpectedContinues(w: World, event: Event, chain: seq<Entry>, outs: seq<Behaviour>)
    requires AllLive(chain, w) && |chain| > 0
    requires !chain[0].async && Next(outs) == Returns
    ensures AllLive(chain[1..], w)
    ensures Expected(w, event, chain, outs) ==
      [Invoke(chain[0], Owner(chain[0], w).value, event)] + Expected(w, event, chain[1..], Drop(outs))
  {
    AllLiveSuffix(chain, w, 1);
  }

  /** `Expected` on a live synchronous head whose handler interrupts a
      chain-aware event without throwing: the invocation alone. */
  lemma ExpectedStops(w: World, event: Event, chain: seq<Entry>, outs: seq<Behaviour>)
    requires AllLive(chain, w) && |chain| > 0 && |outs| > 0
    requires !chain[0].async && outs[0].thrown.None? && outs[0].interrupts && ChainAware(w, event)
    ensures Expected(w, event, chain, outs) == [Invoke(chain[0], Owner(chain[0], w).value, event)]
  {
    assert Next(outs) == outs[0];
  }

  // ---------------------------------------------------------------------
  // Error routing

  /** The loop over a chain whose first entry is synchronous, live and
      throws `x`, with someone listening for `ExceptionEvent`: it invokes
      the entry, routes `x` with its context, and hands the exception event
      its chain. */
  lemma LoopRoutesFirstError(reg: Registry, w: World, d: Dispatcher, event: Event, chain: seq<Entry>,
                             outs: seq<Behaviour>, fuel: nat, x: Throwable)
    requires |chain| > 0 && !d.shutdownInitiated && !chain[0].async && Owner(chain[0], w).Some?
    requires Next(outs).thrown == Some(x)
    requires EXCEPTION_EVENT in reg.lists && |reg.lists[EXCEPTION_EVENT]| > 0 && fuel > 0
    ensures var ev := ExceptionEvent(x, ExceptionContext(Owner(chain[0], w), event, chain[0].handler));
      var t := Loop(reg, w, d, event, chain, 0, false, outs, fuel).trace;
      && |t| > 2
      && t[0] == Invoke(chain[0], Owner(chain[0], w).value, event)
      && t[1] == RouteError(chain[0], ev)
      && t[2] == SetChain(ev)
  {
    var e := chain[0];
    var h := HandleError(reg, w, d, event, e, x, Drop(outs), fuel);
    ErrorIsRouted(reg, w, d, event, e, x, Drop(outs), fuel);
    SingleHandsOver(reg, w, d, event, e, outs, fuel, x);
    var s := Single(reg, w, d, event, e, outs, fuel);
    LoopSyncStep(reg, w, d, event, chain, 0, outs, fuel);
    var l := Loop(s.run.registry, w, d, event, chain, 1, s.interrupted, s.run.rest, fuel);
    var t := [Invoke(e, Owner(e, w).value, event)] + h.trace + l.trace;
    assert Loop(reg, w, d, event, chain, 0, false, outs, fuel).trace == t;
    FrontOfConcat(Invoke(e, Owner(e, w).value, event), h.trace, l.trace);
  }

  /** The first three elements after a prefix. */
  lemma FrontAfterPrefix<T>(p: seq<T>, l: seq<T>)
    requires |l| > 2
    ensures |p + l| > |p| + 2
    ensures (p + l)[|p|] == l[0] && (p + l)[|p| + 1] == l[1] && (p + l)[|p| + 2] == l[2]
  {
  }

  /** The first three elements of a concatenation led by one element. */
  lemma FrontOfConcat<T>(x: T, a: seq<T>, b: seq<T>)
    requires |a| > 1
    ensures |[x] + a + b| > 2 && ([x] + a + b)[0] == x && ([x] + a + b)[1] == a[0] && ([x] + a + b)[2] == a[1]
  {
  }

  /** A live entry whose handler throws `x`: invoked, then `x` itself is
      handed to the error handler. */
  lemma SingleHandsOver(reg: Registry, w: World, d: Dispatcher, event: Event, e: Entry,
                        outs: seq<Behaviour>, fuel: nat, x: Throwable)
    requires Owner(e, w).Some? && Next(outs).thrown == Some(x)
    ensures Single(reg, w, d, event, e, outs, fuel).run.trace ==
      [Invoke(e, Owner(e, w).value, event)] + HandleError(reg, w, d, event, e, x, Drop(outs), fuel).trace
  {
    RoutedUnwrapsInvocation(x);
  }

  /** With exception-event subscribers and fuel left, the error is routed:
      the exception event carries the error and a context naming the owner
      (the referent for weak entries, the target for strong ones), the
      triggering event and the failing method, and its own dispatch starts
      by handing it its fresh chain. */
  lemma ErrorIsRouted(reg: Registry, w: World, d: Dispatcher, event: Event, e: Entry, error: Throwable,
                      outs: seq<Behaviour>, fuel: nat)
    requires EXCEPTION_EVENT in reg.lists && |reg.lists[EXCEPTION_EVENT]| > 0 && fuel > 0
    ensures var ev := ExceptionEvent(error, ExceptionContext(Owner(e, w), event, e.handler));
      var r := HandleError(reg, w, d, event, e, error, outs, fuel);
      && |r.trace| > 1
      && r.trace[0] == RouteError(e, ev)
      && r.trace[1] == SetChain(ev)
  {
    var ev := ExceptionEvent(error, ContextOf(e, w, event));
    assert ContextOf(e, w, event) == ExceptionContext(Owner(e, w), event, e.handler);
    ExceptionEventsAreChainAware(w, error, ContextOf(e, w, event));
    assert GetSubscribers(reg, w, Some(ev)) == Some(reg.lists[EXCEPTION_EVENT]);
  }

  /** When the recursion bound is reached with subscribers present, the
      model stops and records it instead of dispatching. */
  lemma ErrorRoutingOutOfFuel(reg: Registry, w: World, d: Dispatcher, event: Event, e: Entry, error: Throwable,
                              outs: seq<Behaviour>)
    requires EXCEPTION_EVENT in reg.lists && |reg.lists[EXCEPTION_EVENT]| > 0
    ensures HandleError(reg, w, d, event, e, error, outs, 0).trace ==
      [OutOfFuel(ExceptionEvent(error, ContextOf(e, w, event)))]
  {
    var ev := ExceptionEvent(error, ContextOf(e, w, event));
    assert GetSubscribers(reg, w, Some(ev)) == Some(reg.lists[EXCEPTION_EVENT]);
  }

  // ---------------------------------------------------------------------
  // A collected exception-event subscriber behind a strong entry

  /** Object 1 is alive and object 2, the posted event, is of class 7;
      object 3, the weak owner of the exception-event subscriber, has been
      collected. */
  const CycleEventClass := Class(7, [], Some(ObjectClass), [])
  const CycleWorld := World({1, 2}, (x: ObjId, y: ObjId) => x == y,
                            (x: ObjId) => if x == 2 then CycleEventClass else ObjectClass)
  const CycleHandle := Handle(4, 3)
  const StrongOnSeven := Entry(0, Method("on", 1, 12), 7, false, StrongTarget(1))
  const DeadErrorSubscriber := Entry(5, Method("onError", 1, 13), EXCEPTION_EVENT, false, WeakHandle(CycleHandle))

  /** Type 7, swept first, holds a strong entry for object 1; the exception
      event type holds the collected subscriber. `cache` is the weak cache,
      which the first sweep empties. */
  function CycleRegistry(cache: seq<Handle>): Registry {
    Registry(map[7 := [StrongOnSeven], EXCEPTION_EVENT := [DeadErrorSubscriber]], [7, EXCEPTION_EVENT], [1], cache, 6)
  }

  /** The sweep for the collected subscriber, as written, throws on the
      strong entry of type 7 before it reaches the subscriber's list. */
  lemma CycleSweepThrows(cache: seq<Handle>)
    requires cache == [CycleHandle] || cache == []
    ensures RemoveWeakListenerAsWritten(CycleRegistry(cache), CycleWorld, CycleHandle) ==
      Step(CycleRegistry([]), Fail(NullDereference))
  {
    var w := CycleWorld;
    var r' := CycleRegistry(cache).(weakCache := RemoveHandle(cache, CycleHandle));
    assert RemoveHandle(cache, CycleHandle) == [];
    var res := SweepList([StrongOnSeven], 0, [StrongOnSeven], [], w, Deref(CycleHandle, w), true);
    assert res == SweepResult([StrongOnSeven], [], true);
    assert r'.lists[7 := res.live] == r'.lists;
  }

  /** A loop over a one-entry chain is that entry's own run. */
  lemma LoopOfOne(reg: Registry, w: World, d: Dispatcher, event: Event, e: Entry, outs: seq<Behaviour>, fuel: nat)
    requires !d.shutdownInitiated && !e.async
    ensures var l := Loop(reg, w, d, event, [e], 0, false, outs, fuel);
      var s := Single(reg, w, d, event, e, outs, fuel).run;
      l.trace == s.trace && l.registry == s.registry && l.rest == s.rest
  {
    var s := Single(reg, w, d, event, e, outs, fuel);
    LoopSyncStep(reg, w, d, event, [e], 0, outs, fuel);
    assert Loop(s.run.registry, w, d, event, [e], 1, s.interrupted, s.run.rest, fuel) == Run(s.run.registry, [], s.run.rest);
    assert s.run.trace + [] == s.run.trace;
  }

  /** The collected subscriber's own run: the sweep, which throws, then the
      routing of the `NullPointerException` on the emptied weak cache. */
  lemma CycleSingle(cache: seq<Handle>, d: Dispatcher, event: Event, outs: seq<Behaviour>, fuel: nat)
    requires cache == [CycleHandle] || cache == []
    ensures var x := HandleError(CycleRegistry([]), CycleWorld, d, event, DeadErrorSubscriber, NullPointer, outs, fuel);
      var s := Single(CycleRegistry(cache), CycleWorld, d, event, DeadErrorSubscriber, outs, fuel).run;
      s.trace == [Sweep(CycleHandle)] + x.trace && s.registry == x.registry && s.rest == x.rest
  {
    CycleSweepThrows(cache);
    assert IsDeadWeak(DeadErrorSubscriber, CycleWorld);
  }

  /** Error routing with subscribers and fuel left is the routing action
      followed by the dispatch of the exception event to them. */
  lemma RoutesToSubscribers(reg: Registry, w: World, d: Dispatcher, event: Event, e: Entry, error: Throwable,
                            outs: seq<Behaviour>, fuel: nat, subs: seq<Entry>)
    requires GetSubscribers(reg, w, Some(ExceptionEvent(error, ContextOf(e, w, event)))) == Some(subs)
    requires |subs| > 0 && fuel > 0
    ensures var ev := ExceptionEvent(error, ContextOf(e, w, event));
      var x := Dispatch(reg, w, d, ev, subs, outs, fuel - 1);
      var r := HandleError(reg, w, d, event, e, error, outs, fuel);
      r.trace == [RouteError(e, ev)] + x.trace && r.registry == x.registry && r.rest == x.rest
  {
  }

  /** The dispatch of a chain-aware event is the chain hand-over followed
      by the loop over the chain. */
  lemma DispatchHandsOverChain(reg: Registry, w: World, d: Dispatcher, event: Event, chain: seq<Entry>,
                               outs: seq<Behaviour>, fuel: nat)
    requires ChainAware(w, event)
    ensures var l := Loop(reg, w, d, event, chain, 0, false, outs, fuel);
      var x := Dispatch(reg, w, d, event, chain, outs, fuel);
      x.trace == [SetChain(event)] + l.trace && x.registry == l.registry && x.rest == l.rest
  {
  }

  /** Prepending one action, then another, is prepending both. */
  lemma PrependTwo<T>(a: T, b: T, t: seq<T>)
    ensures [a] + ([b] + t) == [a, b] + t
  {
  }

  /** Error routing to a single synchronous subscriber: the routing action,
      the chain hand-over, then the subscriber's own run. */
  lemma RoutesToOne(reg: Registry, w: World, d: Dispatcher, event: Event, e: Entry, error: Throwable,
                    outs: seq<Behaviour>, fuel: nat, sub: Entry)
    requires GetSubscribers(reg, w, Some(ExceptionEvent(error, ContextOf(e, w, event)))) == Some([sub])
    requires !d.shutdownInitiated && !sub.async && fuel > 0
    ensures var ev := ExceptionEvent(error, ContextOf(e, w, event));
      var s := Single(reg, w, d, ev, sub, outs, fuel - 1).run;
      var r := HandleError(reg, w, d, event, e, error, outs, fuel);
      r.trace == [RouteError(e, ev), SetChain(ev)] + s.trace && r.registry == s.registry && r.rest == s.rest
  {
    var ev := ExceptionEvent(error, ContextOf(e, w, event));
    RoutesToSubscribers(reg, w, d, event, e, error, outs, fuel, [sub]);
    ExceptionEventsAreChainAware(w, error, ContextOf(e, w, event));
    DispatchHandsOverChain(reg, w, d, ev, [sub], outs, fuel - 1);
    LoopOfOne(reg, w, d, ev, sub, outs, fuel - 1);
    PrependTwo(RouteError(e, ev), SetChain(ev), Single(reg, w, d, ev, sub, outs, fuel - 1).run.trace);
  }

  /** Error routing to a single synchronous subscriber whose own run is a
      sweep followed by a further routing: the three actions, then that
      further routing. */
  lemma RoutesThroughSweep(reg: Registry, w: World, d: Dispatcher, event: Event, e: Entry, error: Throwable,
                           outs: seq<Behaviour>, fuel: nat, sub: Entry, h: Handle, x: Run)
    requires GetSubscribers(reg, w, Some(ExceptionEvent(error, ContextOf(e, w, event)))) == Some([sub])
    requires !d.shutdownInitiated && !sub.async && fuel > 0
    requires var s := Single(reg, w, d, ExceptionEvent(error, ContextOf(e, w, event)), sub, outs, fuel - 1).run;
      s.trace == [Sweep(h)] + x.trace && s.registry == x.registry && s.rest == x.rest
    ensures var ev := ExceptionEvent(error, ContextOf(e, w, event));
      var r := HandleError(reg, w, d, event, e, error, outs, fuel);
      r.trace == [RouteError(e, ev), SetChain(ev), Sweep(h)] + x.trace && r.registry == x.registry && r.rest == x.rest
  {
    var ev := ExceptionEvent(error, ContextOf(e, w, event));
    RoutesToOne(reg, w, d, event, e, error, outs, fuel, sub);
    PrependThree(RouteError(e, ev), SetChain(ev), Sweep(h), x.trace);
  }

  /** A run that is the sweep of `h`, then the run `x`. */
  ghost predicate SweepsThen(s: Run, h: Handle, x: Run) {
    s.trace == [Sweep(h)] + x.trace && s.registry == x.registry && s.rest == x.rest
  }

  /** Every exception event on `reg` goes to the one synchronous subscriber
      `sub` alone, and that subscriber's run is the sweep of `h` followed by
      the routing of a `NullPointerException` on `next`. */
  ghost predicate RoutesBackThrough(reg: Registry, next: Registry, w: World, d: Dispatcher, sub: Entry, h: Handle) {
    && !d.shutdownInitiated
    && !sub.async
    && reg.lists == next.lists
    && (forall error, c :: GetSubscribers(reg, w, Some(ExceptionEvent(error, c))) == Some([sub]))
    && (forall event, outs, fuel {:trigger Single(reg, w, d, event, sub, outs, fuel)} ::
          SweepsThen(Single(reg, w, d, event, sub, outs, fuel).run, h,
                     HandleError(next, w, d, event, sub, NullPointer, outs, fuel)))
  }

  /** With no fuel left, routing on such a registry stops at once. */
  lemma RoutingOutOfFuel(reg: Registry, next: Registry, w: World, d: Dispatcher, sub: Entry, h: Handle,
                         event: Event, e: Entry, error: Throwable, outs: seq<Behaviour>)
    requires RoutesBackThrough(reg, next, w, d, sub, h)
    ensures var r := HandleError(reg, w, d, event, e, error, outs, 0);
      && (exists a | a in r.trace :: a.OutOfFuel?)
      && r.rest == outs
      && r.registry == reg
  {
    var ev := ExceptionEvent(error, ContextOf(e, w, event));
    assert GetSubscribers(reg, w, Some(ev)) == Some([sub]);
    assert OutOfFuel(ev) in HandleError(reg, w, d, event, e, error, outs, 0).trace;
  }

  /** One round of routing on such a registry: the routing action, the
      chain hand-over and the sweep, then the routing of the sweep's
      `NullPointerException` on `next`. */
  lemma RoutingRound(reg: Registry, next: Registry, w: World, d: Dispatcher, sub: Entry, h: Handle,
                     event: Event, e: Entry, error: Throwable, outs: seq<Behaviour>, fuel: nat)
    requires RoutesBackThrough(reg, next, w, d, sub, h)
    requires fuel > 0
    ensures var ev := ExceptionEvent(error, ContextOf(e, w, event));
      var x := HandleError(next, w, d, ev, sub, NullPointer, outs, fuel - 1);
      var r := HandleError(reg, w, d, event, e, error, outs, fuel);
      r.trace == [RouteError(e, ev), SetChain(ev), Sweep(h)] + x.trace && r.registry == x.registry && r.rest == x.rest
  {
    var ev := ExceptionEvent(error, ContextOf(e, w, event));
    var x := HandleError(next, w, d, ev, sub, NullPointer, outs, fuel - 1);
    assert SweepsThen(Single(reg, w, d, ev, sub, outs, fuel - 1).run, h, x);
    RoutesThroughSweep(reg, w, d, event, e, error, outs, fuel, sub, h, x);
  }

  /** On registries that route back to themselves, error routing never
      ends: whatever the bound, it is used up, no handler behaviour is
      consumed and the lists stay as they were. */
  lemma {:induction false} RoutingNeverEnds(reg: Registry, next: Registry, w: World, d: Dispatcher, sub: Entry, h: Handle,
                                            event: Event, e: Entry, error: Throwable, outs: seq<Behaviour>, fuel: nat)
    requires RoutesBackThrough(reg, next, w, d, sub, h)
    requires RoutesBackThrough(next, next, w, d, sub, h)
    ensures var r := HandleError(reg, w, d, event, e, error, outs, fuel);
      && (exists a | a in r.trace :: a.OutOfFuel?)
      && r.rest == outs
      && r.registry.lists == reg.lists
    decreases fuel
  {
    if fuel == 0 {
      RoutingOutOfFuel(reg, next, w, d, sub, h, event, e, error, outs);
    } else {
      var ev := ExceptionEvent(error, ContextOf(e, w, event));
      var x := HandleError(next, w, d, ev, sub, NullPointer, outs, fuel - 1);
      RoutingRound(reg, next, w, d, sub, h, event, e, error, outs, fuel);
      RoutingNeverEnds(next, next, w, d, sub, h, ev, sub, NullPointer, outs, fuel - 1);
      OutOfFuelKept([RouteError(e, ev), SetChain(ev), Sweep(h)], x.trace);
    }
  }

  /** The registry with the collected subscriber routes back to itself,
      with its weak cache emptied, through the throwing sweep. */
  lemma CycleRoutesBack(cache: seq<Handle>, d: Dispatcher)
    requires cache == [CycleHandle] || cache == []
    requires !d.shutdownInitiated
    ensures RoutesBackThrough(CycleRegistry(cache), CycleRegistry([]), CycleWorld, d, DeadErrorSubscriber, CycleHandle)
  {
    forall error, c ensures GetSubscribers(CycleRegistry(cache), CycleWorld, Some(ExceptionEvent(error, c))) == Some([DeadErrorSubscriber]) {
      assert CycleRegistry(cache).lists[EXCEPTION_EVENT] == [DeadErrorSubscriber];
    }
    forall event, outs, fuel
      ensures SweepsThen(Single(CycleRegistry(cache), CycleWorld, d, event, DeadErrorSubscriber, outs, fuel).run, CycleHandle,
                         HandleError(CycleRegistry([]), CycleWorld, d, event, DeadErrorSubscriber, NullPointer, outs, fuel))
    {
      CycleSingle(cache, d, event, outs, fuel);
    }
  }

  /** Running out of fuel stays visible under any prefix. */
  lemma OutOfFuelKept(pre: seq<Action>, t: seq<Action>)
    requires exists a | a in t :: a.OutOfFuel?
    ensures exists a | a in pre + t :: a.OutOfFuel?
  {
    var a :| a in t && a.OutOfFuel?;
    assert a in pre + t;
  }

  /** Prepending two actions, then one more, is prepending all three. */
  lemma PrependThree<T>(a: T, b: T, c: T, t: seq<T>)
    ensures [a, b] + ([c] + t) == [a, b, c] + t
  {
  }

  /** With the sweep as written, error routing never ends: each round
      dispatches the exception event to the collected subscriber, whose
      sweep throws again and is routed to the same subscriber. Whatever the
      bound, the model runs out of it, consumes no handler behaviour and
      leaves the lists as they were. */
  lemma ErrorRoutingCyclesAsWritten(cache: seq<Handle>, d: Dispatcher, event: Event, e: Entry,
                                    error: Throwable, outs: seq<Behaviour>, fuel: nat)
    requires cache == [CycleHandle] || cache == []
    requires !d.shutdownInitiated
    ensures var r := HandleError(CycleRegistry(cache), CycleWorld, d, event, e, error, outs, fuel);
      && (exists a | a in r.trace :: a.OutOfFuel?)
      && r.rest == outs
      && r.registry.lists == CycleRegistry(cache).lists
  {
    CycleRoutesBack(cache, d);
    CycleRoutesBack([], d);
    RoutingNeverEnds(CycleRegistry(cache), CycleRegistry([]), CycleWorld, d, DeadErrorSubscriber, CycleHandle,
                     event, e, error, outs, fuel);
  }

  /** The corrected sweep removes the collected subscriber, so the
      exception event afterwards has no subscriber and any error is only
      logged: the cycle ends after one round. */
  lemma CorrectedSweepEndsCycle(cache: seq<Handle>, d: Dispatcher, event: Event, e: Entry,
                                error: Throwable, outs: seq<Behaviour>, fuel: nat)
    requires cache == [CycleHandle] || cache == []
    ensures var s := RemoveWeakListener(CycleRegistry(cache), CycleWorld, CycleHandle);
      && s.outcome == Pass
      && s.state.lists == map[7 := [StrongOnSeven], EXCEPTION_EVENT := []]
      && HandleError(s.state, CycleWorld, d, event, e, error, outs, fuel) == Run(s.state, [Unhandled(error)], outs)
  {
    var w := CycleWorld;
    var h := CycleHandle;
    assert Deref(h, w) == None;
    var r' := CycleRegistry(cache).(weakCache := RemoveHandle(cache, h));
    assert RemoveHandle(cache, h) == [];
    var first := SweepList([StrongOnSeven], 0, [StrongOnSeven], [], w, None, false);
    assert SweepList([StrongOnSeven], 1, [StrongOnSeven], [], w, None, false) == SweepResult([StrongOnSeven], [], false);
    assert first == SweepResult([StrongOnSeven], [], false);
    var r1 := r'.(lists := r'.lists[7 := first.live], weakCache := first.cache);
    assert r1 == r';
    EqualsReflexive(DeadErrorSubscriber, w);
    assert RemoveFirst([DeadErrorSubscriber], DeadErrorSubscriber, w) == [];
    assert SweepList([DeadErrorSubscriber], 1, [], [], w, None, false) == SweepResult([], [], false);
    var second := SweepList([DeadErrorSubscriber], 0, [DeadErrorSubscriber], [], w, None, false);
    assert second == SweepResult([], [], false);
    var r2 := r1.(lists := r1.lists[EXCEPTION_EVENT := []], weakCache := []);
    assert SweepKeys(r2, w, None, false, 2) == Step(r2, Pass);
    assert SweepKeys(r1, w, None, false, 1) == Step(r2, Pass);
    assert SweepKeys(r', w, None, false, 0) == Step(r2, Pass);
    var s := RemoveWeakListener(CycleRegistry(cache), w, h).state;
    assert s == r2;
    assert s.lists == map[7 := [StrongOnSeven], EXCEPTION_EVENT := []];
    assert GetSubscribers(s, w, Some(ExceptionEvent(error, ContextOf(e, w, event)))) == Some([]);
  }
}
