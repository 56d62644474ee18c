/** The `JBus` façade: null checks on its arguments, then delegation to the
    registry (`register`, `registerWeak`, `deregister`) and to the
    dispatcher (`post`), plus the tag and the shutdown hook. A Java
    `NullPointerException` thrown for a null argument is the `NullArgument`
    failure, and leaves the bus as it was. */
module JBus {
  import opened Base
  import opened Classes
  import opened ListenerMethod
  import opened Events
  import ReflectionUtil
  import LR = ListenersRegistry
  import ED = EventDispatcher

  /** A bus: its registry, its dispatcher and its identification tag. */
  datatype Bus = Bus(registry: LR.Registry, dispatcher: ED.Dispatcher, tag: string)

  /** `new JBus()`: an empty registry, a running dispatcher, an empty tag. */
  const New := Bus(LR.Empty, ED.Fresh, "")

  /** Why a façade call throws: a null argument, or the registry's own
      exception. */
  datatype BusError = NullArgument | Rejected(cause: LR.RegError)

  /** A bus after a call, and whether the call returned or threw. */
  datatype BusStep = BusStep(bus: Bus, outcome: Outcome<BusError>)

  /** A bus after a post, with the dispatch's trace and the handler
      behaviours it did not consume. */
  datatype Posted = Posted(bus: Bus, outcome: Outcome<BusError>, trace: seq<ED.Action>, rest: seq<ED.Behaviour>)

  function Lift(b: Bus, s: LR.Step): (r: BusStep)
    ensures r.bus == b.(registry := s.state)
    ensures s.outcome.Pass? <==> r.outcome.Pass?
    ensures s.outcome.Fail? ==> r.outcome == Fail(Rejected(s.outcome.error))
  {
    BusStep(b.(registry := s.state), if s.outcome.Pass? then Pass else Fail(Rejected(s.outcome.error)))
  }

  // ---------------------------------------------------------------------
  // register, registerWeak, deregister

  /** Discovery finds at least one subscriber method in the class of `o`. */
  predicate Discovers(w: World, o: ObjId) {
    ReflectionUtil.FindSubscribedMethods(w.classOf(o)).Success?
    && |ReflectionUtil.FindSubscribedMethods(w.classOf(o)).value| > 0
  }

  /** `register(listener)`: keep a strong reference to the listener. */
  function Register(b: Bus, w: World, listener: Option<ObjId>): (r: BusStep)
    ensures listener.None? ==> r == BusStep(b, Fail(NullArgument))
    ensures r.bus.dispatcher == b.dispatcher && r.bus.tag == b.tag
    // an equal object registered strongly already: rejected, bus unchanged
    ensures listener.Some? ==>
      (r.outcome == Fail(Rejected(LR.AlreadyRegistered)) <==> LR.ContainsStrong(b.registry.strongCache, w, listener.value))
    ensures listener.Some? && LR.ContainsStrong(b.registry.strongCache, w, listener.value) ==> r.bus == b
    // a class without subscriber methods: rejected, though the object stays cached
    ensures listener.Some? && !LR.ContainsStrong(b.registry.strongCache, w, listener.value) ==>
      (r.outcome == Fail(Rejected(LR.NoSubscriberMethod)) <==>
         ReflectionUtil.FindSubscribedMethods(w.classOf(listener.value)) == Success([]))
    // not yet registered: succeeds exactly when discovery finds a method,
    // and an ineligible handler method's exception propagates
    ensures listener.Some? && !LR.ContainsStrong(b.registry.strongCache, w, listener.value) ==>
      && (r.outcome.Pass? <==> Discovers(w, listener.value))
      && (ReflectionUtil.FindSubscribedMethods(w.classOf(listener.value)).Failure? ==>
            r.outcome == Fail(Rejected(LR.IneligibleHandler(ReflectionUtil.FindSubscribedMethods(w.classOf(listener.value)).error))))
    // on success every discovered event type has a list
    ensures r.outcome.Pass? ==>
      && listener.Some?
      && ReflectionUtil.FindSubscribedMethods(w.classOf(listener.value)).Success?
      && forall c | c in ReflectionUtil.FindSubscribedMethods(w.classOf(listener.value)).value ::
           c.eventType in r.bus.registry.lists
    ensures LR.Valid(b.registry) ==> LR.Valid(r.bus.registry)
  {
    match listener
    case None => BusStep(b, Fail(NullArgument))
    case Some(o) =>
      var s := LR.Register(b.registry, w, o, false);
      assert LR.Valid(b.registry) ==> LR.Valid(s.state) by {
        if LR.Valid(b.registry) { LR.RegisterPreservesValid(b.registry, w, o, false); }
      }
      Lift(b, s)
  }

  /** `registerWeak(listener)`: keep only a weak reference to the listener. */
  function RegisterWeak(b: Bus, w: World, listener: Option<ObjId>): (r: BusStep)
    ensures listener.None? ==> r == BusStep(b, Fail(NullArgument))
    ensures r.bus.dispatcher == b.dispatcher && r.bus.tag == b.tag
    // a live weakly registered object equal to the listener: rejected
    ensures listener.Some? ==>
      (r.outcome == Fail(Rejected(LR.AlreadyRegistered)) <==>
         exists h | h in b.registry.weakCache :: LR.LiveMatch(h, w, listener.value))
    // the strong cache is neither consulted nor changed
    ensures r.bus.registry.strongCache == b.registry.strongCache
    // not yet registered: the outcome is discovery's
    ensures listener.Some? && !(exists h | h in b.registry.weakCache :: LR.LiveMatch(h, w, listener.value)) ==>
      && (r.outcome.Pass? <==> Discovers(w, listener.value))
      && (r.outcome == Fail(Rejected(LR.NoSubscriberMethod)) <==>
            ReflectionUtil.FindSubscribedMethods(w.classOf(listener.value)) == Success([]))
      && (ReflectionUtil.FindSubscribedMethods(w.classOf(listener.value)).Failure? ==>
            r.outcome == Fail(Rejected(LR.IneligibleHandler(ReflectionUtil.FindSubscribedMethods(w.classOf(listener.value)).error))))
    ensures r.outcome.Pass? ==>
      && listener.Some?
      && ReflectionUtil.FindSubscribedMethods(w.classOf(listener.value)).Success?
      && forall c | c in ReflectionUtil.FindSubscribedMethods(w.classOf(listener.value)).value ::
           c.eventType in r.bus.registry.lists
    ensures LR.Valid(b.registry) ==> LR.Valid(r.bus.registry)
  {
    match listener
    case None => BusStep(b, Fail(NullArgument))
    case Some(o) =>
      var s := LR.Register(b.registry, w, o, true);
      assert LR.Valid(b.registry) ==> LR.Valid(s.state) by {
        if LR.Valid(b.registry) { LR.RegisterPreservesValid(b.registry, w, o, true); }
      }
      Lift(b, s)
  }

  /** `deregister(listener)`: on a valid duplicate-free registry it returns
      normally and leaves in every list exactly the entries that neither
      belong to the listener nor hold a collected referent, in order. */
  function Deregister(b: Bus, w: World, listener: Option<ObjId>): (r: BusStep)
    ensures listener.None? ==> r == BusStep(b, Fail(NullArgument))
    ensures r.bus.dispatcher == b.dispatcher && r.bus.tag == b.tag
    ensures listener.Some? ==>
      r.bus.registry.keys == b.registry.keys && r.bus.registry.lists.Keys == b.registry.lists.Keys
    ensures listener.Some? && LR.Valid(b.registry) && LR.NoDupAll(b.registry, w) ==>
      && r.outcome == Pass
      && forall k | k in b.registry.lists :: r.bus.registry.lists[k] == LR.Survivors(b.registry.lists[k], w, listener)
    ensures LR.Valid(b.registry) ==> LR.Valid(r.bus.registry)
  {
    match listener
    case None => BusStep(b, Fail(NullArgument))
    case Some(o) =>
      var s := LR.Deregister(b.registry, w, o);
      assert LR.Valid(b.registry) ==> LR.Valid(s.state) by {
        if LR.Valid(b.registry) { LR.DeregisterPreservesValid(b.registry, w, o); }
      }
      assert LR.Valid(b.registry) && LR.NoDupAll(b.registry, w) ==>
        && s.outcome == Pass
        && forall k | k in b.registry.lists :: s.state.lists[k] == LR.Survivors(b.registry.lists[k], w, listener)
      by {
        if LR.Valid(b.registry) && LR.NoDupAll(b.registry, w) { LR.DeregisterFilters(b.registry, w, o); }
      }
      Lift(b, s)
  }

  // ---------------------------------------------------------------------
  // post

  /** The dispatch's opening action for `event`, if any. */
  function Prefix(w: World, event: Event): seq<ED.Action> {
    if ChainAware(w, event) then [ED.SetChain(event)] else []
  }

  /** `post(event)`: the subscribers of the event's exact class get it on a
      fresh handler chain; with none, nothing happens. A non-null post
      returns normally whatever the handlers do, unless error routing
      recurses without bound: the model marks that with an `OutOfFuel`
      action, where the code ends in a stack overflow that its
      `catch (Exception)` does not catch and that escapes `post`. */
  function Post(b: Bus, w: World, event: Option<Event>, outs: seq<ED.Behaviour>, fuel: nat): (p: Posted)
    ensures event.None? ==> p == Posted(b, Fail(NullArgument), [], outs)
    ensures event.Some? && (forall a | a in p.trace :: !a.OutOfFuel?) ==> p.outcome == Pass
    ensures p.bus.dispatcher == b.dispatcher && p.bus.tag == b.tag
    // no list for the event's class: nothing happens
    ensures event.Some? && EventClass(w, event.value).id !in b.registry.lists ==> p == Posted(b, Pass, [], outs)
    // an empty list for it: nothing happens either
    ensures (event.Some? && EventClass(w, event.value).id in b.registry.lists
             && |b.registry.lists[EventClass(w, event.value).id]| == 0) ==> p == Posted(b, Pass, [], outs)
    // every invocation is of a registered entry, on its live owner
    ensures ED.InvokesOwners(p.trace, w, b.registry, [])
    ensures ED.Shrinks(b.registry, p.bus.registry)
    ensures LR.Valid(b.registry) ==> LR.Valid(p.bus.registry)
  {
    match event
    case None => Posted(b, Fail(NullArgument), [], outs)
    case Some(e) =>
      var subs := LR.GetSubscribers(b.registry, w, event);
      if subs.Some? && |subs.value| > 0 then
        var k := EventClass(w, e).id;
        var d := ED.Dispatch(b.registry, w, b.dispatcher, e, subs.value, outs, fuel);
        assert forall y | y in subs.value :: ED.Registered(b.registry, y) by {
          assert k in b.registry.lists && subs.value == b.registry.lists[k];
        }
        ED.InvokesOwnersWiden(d.trace, w, b.registry, subs.value, []);
        Posted(b.(registry := d.registry), Pass, d.trace, d.rest)
      else Posted(b, Pass, [], outs)
  }

  /** `setTag(tag)`. */
  function SetTag(b: Bus, tag: string): (b': Bus)
    ensures b'.tag == tag
    ensures b'.registry == b.registry && b'.dispatcher == b.dispatcher
  {
    b.(tag := tag)
  }

  /** The shutdown hook `addShutdownHook()` installs, run at exit: the
      dispatcher stops; the second result says whether its executor was
      shut down by this run. */
  function Shutdown(b: Bus): (r: (Bus, bool))
    ensures r.0.dispatcher.shutdownInitiated
    ensures r.0.registry == b.registry && r.0.tag == b.tag
    ensures r.1 <==> !b.dispatcher.executorShutdown
  {
    var (d, stopped) := ED.ShutdownHook(b.dispatcher);
    (b.(dispatcher := d), stopped)
  }

  // ---------------------------------------------------------------------
  // Properties of posting

  /** The tag only identifies the bus: it changes nothing a post does. */
  lemma TagDoesNotAffectPost(b: Bus, w: World, tag: string, event: Option<Event>, outs: seq<ED.Behaviour>, fuel: nat)
    ensures var p := Post(b, w, event, outs, fuel);
      var q := Post(SetTag(b, tag), w, event, outs, fuel);
      && q.trace == p.trace && q.rest == p.rest && q.outcome == p.outcome
      && q.bus == p.bus.(tag := tag)
  {
  }

  /** After the shutdown hook has run, a post invokes nothing and changes no
      registration: at most the chain is handed to the event. */
  lemma PostAfterShutdown(b: Bus, w: World, event: Event, outs: seq<ED.Behaviour>, fuel: nat)
    ensures var p := Post(Shutdown(b).0, w, Some(event), outs, fuel);
      && p.bus == Shutdown(b).0
      && p.rest == outs
      && forall a | a in p.trace :: a == ED.SetChain(event)
  {
  }

  /** A post over live subscribers, with no one listening for errors and the
      bus running, follows the reference semantics of the dispatcher and
      leaves the registrations as they were. */
  lemma PostFollowsExpected(b: Bus, w: World, event: Event, chain: seq<Entry>, outs: seq<ED.Behaviour>, fuel: nat)
    requires LR.GetSubscribers(b.registry, w, Some(event)) == Some(chain)
    requires !b.dispatcher.shutdownInitiated && ED.AllLive(chain, w) && ED.NoErrorSubscribers(b.registry)
    ensures Post(b, w, Some(event), outs, fuel).bus == b
    ensures Post(b, w, Some(event), outs, fuel).trace ==
      if |chain| == 0 then [] else Prefix(w, event) + ED.Expected(w, event, chain, outs)
  {
    if |chain| > 0 {
      ED.DispatchFollowsExpected(b.registry, w, b.dispatcher, event, chain, outs, fuel);
    }
  }

  /** Synchronous live subscribers whose handlers neither throw nor
      interrupt are each invoked once, in registration order. */
  lemma PostInvokesAll(b: Bus, w: World, event: Event, chain: seq<Entry>, outs: seq<ED.Behaviour>, fuel: nat)
    requires LR.GetSubscribers(b.registry, w, Some(event)) == Some(chain) && |chain| > 0
    requires !b.dispatcher.shutdownInitiated && ED.AllLive(chain, w) && ED.NoErrorSubscribers(b.registry)
    requires forall j | 0 <= j < |chain| :: !chain[j].async
    requires forall j | 0 <= j < |outs| :: outs[j] == ED.Returns
    ensures Post(b, w, Some(event), outs, fuel).trace == Prefix(w, event) + ED.Invocations(w, event, chain)
  {
    PostFollowsExpected(b, w, event, chain, outs, fuel);
    ED.UninterruptedInvokesAll(w, event, chain, outs);
  }

  /** On a chain-aware event, the first handler to interrupt the chain is
      the last one invoked. */
  lemma PostInterrupted(b: Bus, w: World, event: Event, chain: seq<Entry>, outs: seq<ED.Behaviour>, fuel: nat, k: nat)
    requires LR.GetSubscribers(b.registry, w, Some(event)) == Some(chain)
    requires !b.dispatcher.shutdownInitiated && ED.AllLive(chain, w) && ED.NoErrorSubscribers(b.registry)
    requires ChainAware(w, event)
    requires forall j | 0 <= j < |chain| :: !chain[j].async
    requires k < |chain| && k < |outs|
    requires forall j | 0 <= j <= k :: outs[j].thrown.None?
    requires forall j | 0 <= j < k :: !outs[j].interrupts
    requires outs[k].interrupts
    ensures ED.AllLive(chain[..k + 1], w)
    ensures Post(b, w, Some(event), outs, fuel).bus == b
    ensures Post(b, w, Some(event), outs, fuel).trace == [ED.SetChain(event)] + ED.Invocations(w, event, chain[..k + 1])
  {
    PostFollowsExpected(b, w, event, chain, outs, fuel);
    ED.InterruptStopsAfter(w, event, chain, outs, k);
  }

  /** Ten synchronous subscribers on a chain-aware event, the sixth of which
      interrupts: the first six are invoked, in order; posting again on the
      bus the first post left, with no interruption, invokes all ten. */
  lemma InterruptAtSixthOfTen(b: Bus, w: World, event: Event, chain: seq<Entry>, fuel: nat)
    requires LR.GetSubscribers(b.registry, w, Some(event)) == Some(chain) && |chain| == 10
    requires !b.dispatcher.shutdownInitiated && ED.AllLive(chain, w) && ED.NoErrorSubscribers(b.registry)
    requires ChainAware(w, event)
    requires forall j | 0 <= j < |chain| :: !chain[j].async
    ensures ED.AllLive(chain[..6], w)
    ensures var outs := seq(10, j => if j == 5 then ED.Behaviour(true, None) else ED.Returns);
      var first := Post(b, w, Some(event), outs, fuel);
      && first.trace == [ED.SetChain(event)] + ED.Invocations(w, event, chain[..6])
      && Post(first.bus, w, Some(event), [], fuel).trace == [ED.SetChain(event)] + ED.Invocations(w, event, chain)
  {
    var outs := seq(10, j => if j == 5 then ED.Behaviour(true, None) else ED.Returns);
    PostInterrupted(b, w, event, chain, outs, fuel, 5);
    PostInvokesAll(b, w, event, chain, [], fuel);
  }

  /** A subscriber whose handler throws, with someone listening for
      `ExceptionEvent`: right after the invocation the handler's own
      exception is routed, with a context naming the owner, the event and
      the failing method, and its dispatch starts by handing it its chain. */
  lemma PostRoutesError(b: Bus, w: World, event: Event, chain: seq<Entry>, outs: seq<ED.Behaviour>, fuel: nat,
                        x: Throwable)
    requires LR.GetSubscribers(b.registry, w, Some(event)) == Some(chain) && |chain| > 0
    requires !b.dispatcher.shutdownInitiated
    requires !chain[0].async && ED.Owner(chain[0], w).Some?
    requires ED.Next(outs).thrown == Some(x)
    requires EXCEPTION_EVENT in b.registry.lists && |b.registry.lists[EXCEPTION_EVENT]| > 0 && fuel > 0
    ensures var ev := ExceptionEvent(x, ExceptionContext(ED.Owner(chain[0], w), event, chain[0].handler));
      var t := Post(b, w, Some(event), outs, fuel).trace;
      var n := |Prefix(w, event)|;
      && |t| > n + 2
      && t[n] == ED.Invoke(chain[0], ED.Owner(chain[0], w).value, event)
      && t[n + 1] == ED.RouteError(chain[0], ev)
      && t[n + 2] == ED.SetChain(ev)
  {
    var l := ED.Loop(b.registry, w, b.dispatcher, event, chain, 0, false, outs, fuel).trace;
    ED.LoopRoutesFirstError(b.registry, w, b.dispatcher, event, chain, outs, fuel, x);
    PostDispatches(b, w, event, chain, outs, fuel);
    ED.FrontAfterPrefix(Prefix(w, event), l);
  }

  /** A post with subscribers is the dispatch of the event to them. */
  lemma PostDispatches(b: Bus, w: World, event: Event, chain: seq<Entry>, outs: seq<ED.Behaviour>, fuel: nat)
    requires LR.GetSubscribers(b.registry, w, Some(event)) == Some(chain) && |chain| > 0
    ensures var d := ED.Dispatch(b.registry, w, b.dispatcher, event, chain, outs, fuel);
      && Post(b, w, Some(event), outs, fuel).trace == d.trace
      && d.trace == Prefix(w, event) + ED.Loop(b.registry, w, b.dispatcher, event, chain, 0, false, outs, fuel).trace
      && Post(b, w, Some(event), outs, fuel).bus.registry == d.registry
  {
  }

  /** A synchronous subscriber whose weak owner was collected is swept
      instead of invoked: the sweep is the first thing the dispatch does to
      it, and it is never invoked. When no list holds a strong entry, the
      sweep completes and afterwards no list holds the subscriber; otherwise
      the sweep throws `NullPointerException`, which the error handler takes
      next (and, with no one listening for errors, logs). */
  lemma PostSweepsCollected(b: Bus, w: World, event: Event, chain: seq<Entry>, outs: seq<ED.Behaviour>, fuel: nat)
    requires LR.Valid(b.registry) && LR.NoDupAll(b.registry, w)
    requires LR.GetSubscribers(b.registry, w, Some(event)) == Some(chain) && |chain| > 0
    requires !b.dispatcher.shutdownInitiated
    requires !chain[0].async && IsDeadWeak(chain[0], w)
    ensures var p := Post(b, w, Some(event), outs, fuel);
      && |p.trace| > |Prefix(w, event)|
      && p.trace[|Prefix(w, event)|] == ED.Sweep(chain[0].binding.handle)
      && forall a | a in p.trace && a.Invoke? :: a.entry != chain[0]
    ensures !LR.HoldsStrong(b.registry) ==>
      var p := Post(b, w, Some(event), outs, fuel);
      forall k | k in p.bus.registry.lists :: chain[0] !in p.bus.registry.lists[k]
    ensures LR.HoldsStrong(b.registry) ==>
      var p := Post(b, w, Some(event), outs, fuel);
      var n := |Prefix(w, event)|;
      && |p.trace| > n + 1
      && ED.ErrorStep(p.trace[n + 1], chain[0], ExceptionEvent(NullPointer, ED.ContextOf(chain[0], w, event)))
      && (ED.NoErrorSubscribers(b.registry) ==> p.trace[n + 1] == ED.Unhandled(NullPointer))
  {
    var e := chain[0];
    var reg := b.registry;
    var s := ED.Single(reg, w, b.dispatcher, event, e, outs, fuel);
    var p := Post(b, w, Some(event), outs, fuel);
    PostStartsWithSingle(b, w, event, chain, outs, fuel);
    CollectedNeverInvoked(b, w, Some(event), outs, fuel, e);
    assert p.trace[|Prefix(w, event)|] == s.run.trace[0];
    if !LR.HoldsStrong(reg) {
      ED.SingleSweepRemoves(reg, w, b.dispatcher, event, e, outs, fuel);
    } else {
      ED.SingleSweepThrows(reg, w, b.dispatcher, event, e, outs, fuel);
      assert p.trace[|Prefix(w, event)| + 1] == s.run.trace[1];
    }
  }

  /** A post keeps the registry free of duplicates, so what is proved of
      duplicate-free registries still applies after any number of posts. */
  lemma PostPreservesNoDupAll(b: Bus, w: World, event: Option<Event>, outs: seq<ED.Behaviour>, fuel: nat)
    requires LR.NoDupAll(b.registry, w)
    ensures LR.NoDupAll(Post(b, w, event, outs, fuel).bus.registry, w)
  {
    ED.ShrinksPreservesNoDupAll(b.registry, Post(b, w, event, outs, fuel).bus.registry, w);
  }

  /** No post invokes an entry whose weak owner was collected. */
  lemma CollectedNeverInvoked(b: Bus, w: World, event: Option<Event>, outs: seq<ED.Behaviour>, fuel: nat, e: Entry)
    requires IsDeadWeak(e, w)
    ensures forall a | a in Post(b, w, event, outs, fuel).trace && a.Invoke? :: a.entry != e
  {
    assert ED.Owner(e, w).None?;
  }

  /** A post whose first subscriber is synchronous starts, after the
      chain hand-over, with that subscriber's own run, and the rest of the
      dispatch only shrinks the registry that run left. */
  lemma PostStartsWithSingle(b: Bus, w: World, event: Event, chain: seq<Entry>, outs: seq<ED.Behaviour>, fuel: nat)
    requires LR.GetSubscribers(b.registry, w, Some(event)) == Some(chain) && |chain| > 0
    requires !b.dispatcher.shutdownInitiated && !chain[0].async
    ensures var s := ED.Single(b.registry, w, b.dispatcher, event, chain[0], outs, fuel);
      var p := Post(b, w, Some(event), outs, fuel);
      && |p.trace| >= |Prefix(w, event)| + |s.run.trace|
      && (forall i | 0 <= i < |s.run.trace| :: p.trace[|Prefix(w, event)| + i] == s.run.trace[i])
      && ED.Shrinks(s.run.registry, p.bus.registry)
  {
    var reg := b.registry;
    var s := ED.Single(reg, w, b.dispatcher, event, chain[0], outs, fuel);
    var rest := ED.Loop(s.run.registry, w, b.dispatcher, event, chain, 1, s.interrupted, s.run.rest, fuel);
    ED.LoopSyncStep(reg, w, b.dispatcher, event, chain, 0, outs, fuel);
    PostDispatches(b, w, event, chain, outs, fuel);
    var p := Post(b, w, Some(event), outs, fuel);
    assert p.trace == Prefix(w, event) + s.run.trace + rest.trace;
    assert p.bus.registry == rest.registry;
    forall i | 0 <= i < |s.run.trace| ensures p.trace[|Prefix(w, event)| + i] == s.run.trace[i] {
      assert (Prefix(w, event) + s.run.trace + rest.trace)[|Prefix(w, event)| + i] == s.run.trace[i];
    }
  }

  /** Once deregistered, an object receives nothing: no invocation of a
      later post is made on an owner equal to it. */
  lemma DeregisteredIsNeverInvoked(b: Bus, w: World, o: ObjId, event: Option<Event>, outs: seq<ED.Behaviour>, fuel: nat)
    requires LR.Valid(b.registry) && LR.NoDupAll(b.registry, w)
    ensures var b' := Deregister(b, w, Some(o)).bus;
      forall a | a in Post(b', w, event, outs, fuel).trace && a.Invoke? :: !w.equals(a.owner, o)
  {
    var b' := Deregister(b, w, Some(o)).bus;
    var p := Post(b', w, event, outs, fuel);
    assert ED.InvokesOwners(p.trace, w, b'.registry, []);
    forall a | a in p.trace && a.Invoke? ensures !w.equals(a.owner, o) {
      var k :| k in b'.registry.lists && a.entry in b'.registry.lists[k];
      assert b'.registry.lists[k] == LR.Survivors(b.registry.lists[k], w, Some(o));
      SurvivorOwnerUnequal(a.entry, w, o, a.owner);
    }
  }

  /** An entry the sweep for `o` keeps is not invoked on anything equal
      to `o`. */
  lemma SurvivorOwnerUnequal(e: Entry, w: World, o: ObjId, owner: ObjId)
    requires !LR.Swept(e, w, Some(o)) && ED.Owner(e, w) == Some(owner)
    ensures !w.equals(owner, o)
  {
  }

  // ---------------------------------------------------------------------
  // A register, post, deregister, post run

  const EventType: ClassId := ReflectionUtil.USER_EVENT
  const ListenerType: ClassId := 12

  /** An event class, and a listener class with one handler for it. */
  const EventClassDecl := Class(EventType, [], Some(ObjectClass), [])
  const ListenerClassDecl := Class(ListenerType, [ReflectionUtil.Listen("listen", 1)], Some(ObjectClass), [])

  /** Object 1 is the listener, object 2 the event; equality is identity. */
  function ScenarioWorld(): World {
    World({1, 2}, (x: ObjId, y: ObjId) => x == y, (x: ObjId) => if x == 1 then ListenerClassDecl else EventClassDecl)
  }

  const ScenarioEntry := Entry(0, Method("listen", 1, ListenerType), EventType, false, StrongTarget(1))

  /** The registry after object 1 is registered on a new bus. */
  const ScenarioRegistry := LR.Registry(map[EventType := [ScenarioEntry]], [EventType], [1], [], 1)

  /** Discovery finds the listener class's one handler. */
  lemma ScenarioDiscovery()
    ensures ReflectionUtil.FindSubscribedMethods(ListenerClassDecl) ==
      Success([ReflectionUtil.Candidate(Method("listen", 1, ListenerType), EventType, false)])
  {
    var c := ReflectionUtil.Candidate(Method("listen", 1, ListenerType), EventType, false);
    var decl := ReflectionUtil.Listen("listen", 1);
    var own := ReflectionUtil.Own(ListenerClassDecl);
    assert own[0] == ReflectionUtil.Declared(ListenerType, decl) && own[1..] == [];
    assert ReflectionUtil.Collects(decl) && ReflectionUtil.ShapeError(decl).None?;
    assert ReflectionUtil.ToCandidate(own[0]) == c;
    assert ReflectionUtil.Scan(own[1..]) == Success([]);
    assert [c] + [] == [c];
    assert ReflectionUtil.Scan(own) == Success([c]);
    assert ReflectionUtil.FromInterfaces(ListenerClassDecl, 0) == Success([]);
    assert [c] + [] + [] == [c];
  }

  /** Registering object 1 on a new bus adds one entry for the event type. */
  lemma ScenarioRegister()
    ensures Register(New, ScenarioWorld(), Some(1)) == BusStep(New.(registry := ScenarioRegistry), Pass)
  {
    var w := ScenarioWorld();
    var c := ReflectionUtil.Candidate(Method("listen", 1, ListenerType), EventType, false);
    ScenarioDiscovery();
    assert ReflectionUtil.FindSubscribedMethods(w.classOf(1)) == Success([c]);
    var r1 := LR.Empty.(strongCache := [1]);
    assert !LR.ContainsStrong(LR.Empty.strongCache, w, 1);
    assert LR.BindEntry(c, 0, StrongTarget(1)) == ScenarioEntry;
    var r2 := LR.AddEntry(r1, w, ScenarioEntry);
    assert r2 == ScenarioRegistry;
    assert LR.Insert(r2, w, [c][1..], StrongTarget(1)) == r2;
    assert LR.Insert(r1, w, [c], StrongTarget(1)) == ScenarioRegistry;
    assert LR.Bind(r1, w, 1, StrongTarget(1)) == LR.Step(ScenarioRegistry, Pass);
    assert LR.Empty.(strongCache := LR.Empty.strongCache + [1]) == r1;
    assert LR.Register(LR.Empty, w, 1, false) == LR.Step(ScenarioRegistry, Pass);
  }

  /** A post of the event invokes the one handler on object 1. */
  lemma ScenarioPost()
    ensures Post(New.(registry := ScenarioRegistry), ScenarioWorld(), Some(UserEvent(2)), [], 1) ==
      Posted(New.(registry := ScenarioRegistry), Pass, [ED.Invoke(ScenarioEntry, 1, UserEvent(2))], [])
  {
    var w := ScenarioWorld();
    var ev := UserEvent(2);
    var b := New.(registry := ScenarioRegistry);
    assert EventClass(w, ev) == EventClassDecl;
    assert !ChainAware(w, ev);
    assert LR.GetSubscribers(b.registry, w, Some(ev)) == Some([ScenarioEntry]);
    assert ED.AllLive([ScenarioEntry], w);
    PostFollowsExpected(b, w, ev, [ScenarioEntry], [], 1);
    assert ED.Expected(w, ev, [ScenarioEntry], []) == [ED.Invoke(ScenarioEntry, 1, ev)];
    ED.DispatchFollowsExpected(b.registry, w, b.dispatcher, ev, [ScenarioEntry], [], 1);
  }

  /** Deregistering object 1 empties the event type's list. */
  lemma ScenarioDeregister()
    ensures var d := Deregister(New.(registry := ScenarioRegistry), ScenarioWorld(), Some(1));
      && d.outcome == Pass
      && d.bus.registry.lists == map[EventType := []]
  {
    var w := ScenarioWorld();
    assert LR.Valid(ScenarioRegistry);
    assert LR.NoDupAll(ScenarioRegistry, w);
    assert LR.Swept(ScenarioEntry, w, Some(1));
    assert LR.Survivors([ScenarioEntry], w, Some(1)) == [] by {
      assert [ScenarioEntry][..0] == [];
    }
  }

  /** A registered listener is invoked once per post of its event type, and
      not at all once deregistered. */
  lemma RegisterPostDeregisterPost()
    ensures var w := ScenarioWorld();
      var ev := UserEvent(2);
      var r := Register(New, w, Some(1));
      var p := Post(r.bus, w, Some(ev), [], 1);
      var d := Deregister(p.bus, w, Some(1));
      && r.outcome == Pass
      && p.trace == [ED.Invoke(ScenarioEntry, 1, ev)]
      && d.outcome == Pass
      && Post(d.bus, w, Some(ev), [], 1).trace == []
  {
    ScenarioRegister();
    ScenarioPost();
    ScenarioDeregister();
    var w := ScenarioWorld();
    var d := Deregister(New.(registry := ScenarioRegistry), w, Some(1));
    assert LR.GetSubscribers(d.bus.registry, w, Some(UserEvent(2))) == Some([]);
  }

  // ---------------------------------------------------------------------
  // A collected weak owner next to a strong registration

  /** A weak registration of object 3, which has since been collected. */
  const CollectedEntry := Entry(5, Method("listen", 1, ListenerType), EventType, false, WeakHandle(Handle(4, 3)))

  /** Object 1 registered strongly and object 3 weakly for the same event
      type. */
  const MixedScenarioRegistry :=
    LR.Registry(map[EventType := [ScenarioEntry, CollectedEntry]], [EventType], [1], [Handle(4, 3)], 6)

  /** The sweep for object 3, as written, throws on object 1's entry
      before it reaches object 3's, leaving the list as it was. */
  lemma MixedSweepThrows()
    ensures var s := LR.RemoveWeakListenerAsWritten(MixedScenarioRegistry, ScenarioWorld(), Handle(4, 3));
      s.outcome == Fail(LR.NullDereference) && s.state.lists == MixedScenarioRegistry.lists
  {
    var w := ScenarioWorld();
    var reg := MixedScenarioRegistry;
    var h := Handle(4, 3);
    var chain := [ScenarioEntry, CollectedEntry];
    var r' := reg.(weakCache := LR.RemoveHandle(reg.weakCache, h));
    assert r'.keys[0] == EventType && r'.lists[EventType] == chain;
    var res := LR.SweepList(chain, 0, chain, r'.weakCache, w, Deref(h, w), true);
    assert res.npe && res.live == chain;
  }

  /** The dispatch of the post's chain: object 1 invoked, then the failed
      sweep for object 3 logged. */
  lemma MixedLoop()
    ensures var l := ED.Loop(MixedScenarioRegistry, ScenarioWorld(), ED.Fresh, UserEvent(2),
                             [ScenarioEntry, CollectedEntry], 0, false, [], 1);
      && l.trace == [ED.Invoke(ScenarioEntry, 1, UserEvent(2)), ED.Sweep(Handle(4, 3)), ED.Unhandled(NullPointer)]
      && l.registry.lists == MixedScenarioRegistry.lists
  {
    var w := ScenarioWorld();
    var ev := UserEvent(2);
    var reg := MixedScenarioRegistry;
    var d := ED.Fresh;
    var chain := [ScenarioEntry, CollectedEntry];
    var h := Handle(4, 3);
    assert ED.NoErrorSubscribers(reg);
    ED.LoopSyncStep(reg, w, d, ev, chain, 0, [], 1);
    ED.SingleLive(reg, w, d, ev, ScenarioEntry, [], 1);
    ED.LoopSyncStep(reg, w, d, ev, chain, 1, [], 1);
    MixedSweepThrows();
    var s1 := LR.RemoveWeakListenerAsWritten(reg, w, h);
    ED.SingleSweepThrowsUnhandled(reg, w, d, ev, CollectedEntry, [], 1);
    assert ED.Loop(s1.state, w, d, ev, chain, 2, false, [], 1) == ED.Run(s1.state, [], []);
  }

  /** With `removeWeakListener` as written, a post invokes object 1, then
      the sweep for object 3 throws on object 1's strong entry and the
      exception is logged; the collected entry stays in its list, so every
      later post repeats the failed sweep. */
  lemma PostKeepsCollectedEntryAsWritten()
    ensures var p := Post(New.(registry := MixedScenarioRegistry), ScenarioWorld(), Some(UserEvent(2)), [], 1);
      && p.trace == [ED.Invoke(ScenarioEntry, 1, UserEvent(2)), ED.Sweep(Handle(4, 3)), ED.Unhandled(NullPointer)]
      && p.bus.registry.lists == MixedScenarioRegistry.lists
  {
    var w := ScenarioWorld();
    var ev := UserEvent(2);
    var b := New.(registry := MixedScenarioRegistry);
    var chain := [ScenarioEntry, CollectedEntry];
    assert EventClass(w, ev) == EventClassDecl;
    assert !ChainAware(w, ev);
    assert LR.GetSubscribers(b.registry, w, Some(ev)) == Some(chain);
    PostDispatches(b, w, ev, chain, [], 1);
    MixedLoop();
  }
}
