# jbus in Dafny

A model of the core of jbus, an in-process publish/subscribe event bus for
Java. It covers the parts that decide who receives an event and what
happens when delivery goes wrong:

- the equality between two subscriber entries (`ListenerMethod.equals`),
  which is the deduplication relation of the whole registry;
- the subscription registry (`ListenersRegistry`):
  - a map from event type to an ordered list of entries;
  - a cache of strongly registered owners;
  - a cache of weak handles;
  - the operations `register`, `deregister`, `getSubscribers`,
    `containsWeak`, `removeWeakListener` and `removeFromRegistry`;
- handler discovery (`ReflectionUtil.findSubscribedMethods`) over a class
  hierarchy;
- the dispatch loop (`EventDispatcher`) and error routing (`ErrorHandler`),
  which call each other;
- the `JBus` façade.

The model is sequential and purely functional. Each operation is a function
from a state to a new state plus an outcome (returned or threw, and why).

The things Java decides at run time are explicit inputs, gathered in a
`World`:
- which objects the collector has reclaimed (`alive`);
- what the users' `equals` answers (`equals`);
- the class of every object (`classOf`).

Classes are an inductive datatype: declared methods, an optional superclass
and interfaces. Assignability is computed from that structure.

What each synchronous handler invocation does is a stream of `Behaviour`s,
each saying whether it interrupts the chain and what it throws. Dispatch
returns three things:
- the registry afterwards, because dead weak owners are swept during
  dispatch;
- the trace of actions: `SetChain`, `Invoke`, `Submit`, `Sweep`,
  `RouteError`, `Unhandled` and `OutOfFuel`;
- the unconsumed behaviours.

`DefaultHandlerChain` is not part of this model. A handler chain is the
snapshot of the subscriber list plus the `interrupt` flag, and the flag is
threaded through the loop.

Modules follow the source: `Classes` holds the class hierarchy and the
`World` oracle, and `Events` holds `ExceptionEvent` and `ExceptionContext`.
The remaining modules are `ListenerMethod`, `ReflectionUtil`,
`ListenersRegistry`, `EventDispatcher` (with the error handler) and `JBus`.
`Base` holds `Option`, `Result` and `Outcome`.

Two behaviours of the code are easy to miss, and the model keeps both:
- **Collected weak owners.** When both owners of two weak entries have been
  collected, `ListenerMethod.equals` compares signatures only
  (`ListenerMethod.java:78-84`), so such entries are equal when their
  signatures match (`ListenerMethod.DeadEntriesEqualBySignature`). The
  registry's freedom from equal pairs therefore exempts dead weak entries,
  and collection preserves it (`ListenersRegistry.CollectionPreservesNoDup`).
- **Re-registration.** `register(listener, weak)` consults only the cache of
  the requested mode (`ListenersRegistry.java:62-81`). The Javadoc of
  `register` and `registerWeak` (`JBus.java:111`, `JBus.java:132`) says an
  already registered object is rejected without naming a mode; in the code
  an object registered strongly can also be registered weakly
  (`ListenersRegistry.Register`).

## Model

| member | source | states |
|---|---|---|
| ListenerMethod.EqualsReflexive | src/main/java/org/dizitart/jbus/ListenerMethod.java:50-51 | an entry equals itself, even when its method is exactly private |
| ListenerMethod.StrongEquality | src/main/java/org/dizitart/jbus/ListenerMethod.java:89-99 | two distinct strong entries are equal iff they have the same name, neither mask is exactly private, the event type and mode match, the targets are equal, and one target's class is assignable to the other's |
| ListenerMethod.WeakNeverEqualsStrong | src/main/java/org/dizitart/jbus/ListenerMethod.java:74-99 | a weak entry never equals a strong entry, in either direction |
| ListenerMethod.DeadNeverEqualsAlive | src/main/java/org/dizitart/jbus/ListenerMethod.java:74-101 | a weak entry whose owner was collected never equals one whose owner is alive |
| ListenerMethod.DeadEntriesEqualBySignature | src/main/java/org/dizitart/jbus/ListenerMethod.java:78-84 | two weak entries whose owners were both collected are equal iff their signatures match; owners are not compared |
| ListenerMethod.LiveWeakEquality | src/main/java/org/dizitart/jbus/ListenerMethod.java:78-86 | two live weak entries are equal iff their signatures match and the referents are equal with related classes |
| ListenerMethod.PrivateEqualsOnlyItself | src/main/java/org/dizitart/jbus/ListenerMethod.java:79-92 | an entry whose method is exactly private equals only itself, in both directions |
| ListenerMethod.EqualsSymmetric | src/main/java/org/dizitart/jbus/ListenerMethod.java:79-99 | entry equality is symmetric whenever the owners' equality is |
| ListenerMethod.AsymmetricOwnerEqualsBreaksSymmetry | src/main/java/org/dizitart/jbus/ListenerMethod.java:95-99 | with an asymmetric user `equals`, entry equality is asymmetric too (a concrete pair) |
| ReflectionUtil.Scan | src/main/java/org/dizitart/jbus/ReflectionUtil.java:44-70 | scanning declared methods fails iff an annotated, non-bridge, non-synthetic method is malformed, and reports the first such method; on success every collected method's entry is in the result, every result entry is built from an eligible declared method, and the count is the number collected |
| ReflectionUtil.ScanBuildsFromCollected | src/main/java/org/dizitart/jbus/ReflectionUtil.java:44-70 | on success the result is, position by position, the entry built from each collected method in declaration order, so order and multiplicities are fixed |
| ReflectionUtil.ScanAppend | src/main/java/org/dizitart/jbus/ReflectionUtil.java:77-88 | scanning a concatenation is the first failure or the concatenation of the two results |
| ReflectionUtil.FindIsScanOfTraversal | src/main/java/org/dizitart/jbus/ReflectionUtil.java:41-91 | discovery equals a scan of the traversal: own methods, then the superclass (stopping at `Object`), then each interface in order |
| ReflectionUtil.FromInterfacesIsScan | src/main/java/org/dizitart/jbus/ReflectionUtil.java:81-89 | the interface loop equals a scan of the interfaces' traversals in order |
| ReflectionUtil.Discovery | src/main/java/org/dizitart/jbus/ReflectionUtil.java:41-91 | over the whole hierarchy, discovery fails iff some collected method has a parameter count other than one or an array or varargs parameter, with the first such method's name and error (count checked first); on success the result is, position by position, the entry built from each collected method in visiting order, with the sole parameter type as event type and the annotation's `async` as mode; a class reached twice (an interface inherited along two paths) contributes its entries twice |
| ReflectionUtil.OverrideFoundOncePerDeclaringClass | src/main/java/org/dizitart/jbus/ReflectionUtil.java:72-79 | an annotated override is discovered once per declaring class, the subclass's first |
| ListenersRegistry.ScanWeak | src/main/java/org/dizitart/jbus/ListenersRegistry.java:192-210 | the weak scan finds the first live handle whose referent equals the owner, and the cache loses exactly the dead handles passed before it |
| ListenersRegistry.AddEntry | src/main/java/org/dizitart/jbus/ListenersRegistry.java:103-119 | an entry is appended to its type's list iff no equal entry is present; an unseen type gets a one-element list and joins the key order; other lists are untouched |
| ListenersRegistry.InsertAppends | src/main/java/org/dizitart/jbus/ListenersRegistry.java:94-120 | the insertion loop only appends: every old list and the key order are prefixes of the new ones |
| ListenersRegistry.InsertCovers | src/main/java/org/dizitart/jbus/ListenersRegistry.java:103-119 | after insertion, every discovered method has an equal entry in its type's list |
| ListenersRegistry.OverrideMergedOnRegister | src/main/java/org/dizitart/jbus/ListenersRegistry.java:104-116 | an override discovered twice registers once, keeping the subclass's entry; exactly private copies both stay |
| ListenersRegistry.Bind | src/main/java/org/dizitart/jbus/ListenersRegistry.java:88-120 | succeeds iff discovery succeeds with at least one method; an empty result throws `NoSubscriberMethod` and a failed discovery propagates its `IneligibleHandler` error, both changing nothing; on success the caches are kept and the lists only grow |
| ListenersRegistry.RegisterWeak | src/main/java/org/dizitart/jbus/ListenersRegistry.java:62-120 | weak registration throws iff a live cached referent equals the owner, and then only the purge of the cache scan remains; the strong cache is not consulted; otherwise the new handle is appended after the purge and the outcome is discovery's (success iff a method is found, `NoSubscriberMethod` iff none, the `IneligibleHandler` error otherwise) |
| ListenersRegistry.Register | src/main/java/org/dizitart/jbus/ListenersRegistry.java:56-121 | strong registration throws iff an equal owner is cached strongly, changing nothing; otherwise the owner is cached before discovery, so it stays cached if discovery then throws; an owner not yet in the requested cache gets discovery's outcome (success iff a method is found, `NoSubscriberMethod` iff none, the `IneligibleHandler` error otherwise); the lists only grow |
| ListenersRegistry.GetSubscribers | src/main/java/org/dizitart/jbus/ListenersRegistry.java:178-187 | the list under the event's exact class, or none for a null event or an unseen class |
| ListenersRegistry.RegisterInserts | src/main/java/org/dizitart/jbus/ListenersRegistry.java:56-120 | a successful registration is discovery succeeding, followed by the insertion of every discovered method into the registry with the owner already cached |
| ListenersRegistry.SubscribersAfterRegister | src/main/java/org/dizitart/jbus/ListenersRegistry.java:178-187 | after a successful registration, `getSubscribers` for an event of any discovered type returns a list holding an entry equal to the one bound for that method |
| ListenersRegistry.SweepListLive | src/main/java/org/dizitart/jbus/ListenersRegistry.java:243-273 | on a duplicate-free list, the inner loop removes exactly the swept entries and keeps the rest in order |
| ListenersRegistry.SweepListCache | src/main/java/org/dizitart/jbus/ListenersRegistry.java:250-261 | the inner loop removes from the weak cache exactly the handles of dead weak entries |
| ListenersRegistry.RemoveFromRegistryFilters | src/main/java/org/dizitart/jbus/ListenersRegistry.java:239-276 | without `confirmedWeak`, removal never throws; each list becomes its survivors; the weak cache loses exactly the dead handles found in some list |
| ListenersRegistry.DeregisterFilters | src/main/java/org/dizitart/jbus/ListenersRegistry.java:126-173 | `deregister` succeeds and leaves each list holding exactly the entries not bound to an owner equal to the argument and not dead |
| ListenersRegistry.DeregisterUnknownOwner | src/main/java/org/dizitart/jbus/ListenersRegistry.java:136-138 | on a well-shaped registry free of equal pairs that holds no entry equal to the owner and no dead weak entry, deregistering leaves the lists unchanged and does not throw |
| ListenersRegistry.SweptByNull | src/main/java/org/dizitart/jbus/ListenersRegistry.java:250-266 | a sweep for a null listener removes exactly the dead weak entries |
| ListenersRegistry.RemoveWeakListenerFilters | src/main/java/org/dizitart/jbus/ListenersRegistry.java:215-230 | the corrected `removeWeakListener` drops the handle and every dead weak entry, and keeps everything else |
| ListenersRegistry.ConfirmedWeakKeysThrow | src/main/java/org/dizitart/jbus/ListenersRegistry.java:241-250 | with `confirmedWeak` set, the sweep throws iff some list still ahead holds a strong entry |
| ListenersRegistry.RemoveWeakListenerAsWrittenThrows | src/main/java/org/dizitart/jbus/ListenersRegistry.java:229 | `removeWeakListener` as written throws a null dereference iff some list holds a strongly bound entry |
| ListenersRegistry.RemoveWeakListenerAsWrittenAgrees | src/main/java/org/dizitart/jbus/ListenersRegistry.java:215-273 | when no list holds a strongly bound entry, `removeWeakListener` as written has the same outcome and state as the corrected version |
| ListenersRegistry.RemoveWeakListenerAsWrittenRemoves | src/main/java/org/dizitart/jbus/ListenersRegistry.java:215-273 | when no list holds a strongly bound entry, `removeWeakListener` as written returns normally and no list keeps the collected entry it was called for |
| ListenersRegistry.DeadWeakEntrySurvivesAsWritten | src/main/java/org/dizitart/jbus/ListenersRegistry.java:244-250 | on a list with a strong entry ahead of a dead weak one, the sweep as written throws and the dead entry stays |
| ListenersRegistry.DeadWeakEntryRemoved | src/main/java/org/dizitart/jbus/ListenersRegistry.java:215-230 | on the same registry, the corrected sweep returns and removes the dead entry |
| ListenersRegistry.RegisterPreservesValid | src/main/java/org/dizitart/jbus/ListenersRegistry.java:56-121 | registration keeps the registry well shaped: distinct keys, lists bound and filed under their own type, distinct and fresh handles |
| ListenersRegistry.DeregisterPreservesValid | src/main/java/org/dizitart/jbus/ListenersRegistry.java:126-173 | deregistration keeps the registry well shaped |
| ListenersRegistry.RemoveWeakListenerPreservesValid | src/main/java/org/dizitart/jbus/ListenersRegistry.java:215-230 | both versions of `removeWeakListener` keep the registry well shaped |
| ListenersRegistry.RegisterPreservesNoDup | src/main/java/org/dizitart/jbus/ListenersRegistry.java:104-113 | when owner equality is symmetric, registration never puts two equal entries into one list (dead weak entries exempt) |
| ListenersRegistry.DeregisterPreservesNoDup | src/main/java/org/dizitart/jbus/ListenersRegistry.java:239-276 | deregistration keeps lists free of equal pairs (dead weak entries exempt) |
| ListenersRegistry.CollectionMergesDeadEntries | src/main/java/org/dizitart/jbus/ListenerMethod.java:78-84 | two unequal weak entries of live owners become equal once both owners are collected, and the list stays free of duplicates because dead weak entries are exempt |
| ListenersRegistry.CollectionPreservesNoDup | src/main/java/org/dizitart/jbus/ListenerMethod.java:74-101 | collecting any set of objects keeps a list free of equal pairs among entries that are not dead weak ones |
| ListenersRegistry.CollectionPreservesNoDupAll | src/main/java/org/dizitart/jbus/ListenerMethod.java:74-101 | the same for every list of the registry |
| ListenersRegistry.SubMultisetNoDup | src/main/java/org/dizitart/jbus/ListenerMethod.java:74-101 | a list whose entries are a sub-multiset of a duplicate-free list is duplicate-free itself |
| ListenersRegistry.RemoveWeakListenerAsWrittenShrinks | src/main/java/org/dizitart/jbus/ListenersRegistry.java:229-276 | `removeWeakListener` as written, whether it returns or throws part-way, leaves each list a sub-multiset of what it was: entries are only removed, never added or duplicated |
| ListenersRegistry.RemoveObjectDeletesFirst | src/main/java/org/dizitart/jbus/ListenersRegistry.java:158-166 | `List.remove(listener)` deletes exactly the first cached object the listener equals |
| ListenersRegistry.DeregisterClearsStrong | src/main/java/org/dizitart/jbus/ListenersRegistry.java:158-166 | with an equivalence `equals` and no two equal cached objects, the strong loop removes at most one object and leaves none equal to the owner |
| ListenersRegistry.DeregisterClearsStrongCache | src/main/java/org/dizitart/jbus/ListenersRegistry.java:126-173 | after `deregister`, no strongly cached object equals the owner, and the cache still has no equal pair |
| ListenersRegistry.DeregisterClearsWeak | src/main/java/org/dizitart/jbus/ListenersRegistry.java:140-156 | with no two live cached referents equal, the weak loop leaves no live handle whose referent equals the owner |
| ListenersRegistry.DeregisterClearsWeakCache | src/main/java/org/dizitart/jbus/ListenersRegistry.java:126-173 | after `deregister`, no live weak handle refers to an object equal to the owner |
| ListenersRegistry.RegisterPreservesStrongCacheDistinct | src/main/java/org/dizitart/jbus/ListenersRegistry.java:74-81 | the strong cache never holds two equal objects |
| ListenersRegistry.RegisterPreservesWeakCacheDistinct | src/main/java/org/dizitart/jbus/ListenersRegistry.java:62-71 | the weak cache never holds two handles with equal live referents |
| ListenersRegistry.DeregisterThenRegister | src/main/java/org/dizitart/jbus/ListenersRegistry.java:126-173 | after `deregister`, registering the same owner in either mode is not rejected as already registered |
| EventDispatcher.RoutedUnwrapsInvocation | src/main/java/org/dizitart/jbus/EventDispatcher.java:116-123 | an error the handler threw, wrapped by reflective invocation, reaches the error handler as its cause, unwrapped |
| EventDispatcher.Dispatch | src/main/java/org/dizitart/jbus/EventDispatcher.java:54-84 | a chain-aware event gets the chain first; after shutdown nothing else happens; each list ends as a sub-multiset of what it was, so entries are only removed and never added or duplicated; every invocation is on a live owner of a registered entry |
| EventDispatcher.ShrinksPreservesNoDupAll | src/main/java/org/dizitart/jbus/ListenerMethod.java:74-101 | a registry that only loses entries stays free of equal pairs (dead weak entries exempt) |
| EventDispatcher.Loop | src/main/java/org/dizitart/jbus/EventDispatcher.java:66-83 | once shut down or interrupted, the remaining entries are skipped |
| EventDispatcher.Single | src/main/java/org/dizitart/jbus/EventDispatcher.java:101-125 | a dead weak entry is swept by `removeWeakListener` as written and not invoked: when the sweep returns, the run is that sweep alone; when it throws, the error handler's first action for the `NullPointerException` follows; a live entry is invoked on its owner, and interrupts iff the handler interrupts a chain-aware event |
| EventDispatcher.HandleError | src/main/java/org/dizitart/jbus/ErrorHandler.java:37-59 | with no `ExceptionEvent` subscribers the error is only logged; otherwise the exception event is routed through the same dispatch |
| EventDispatcher.ShutdownHookIdempotent | src/main/java/org/dizitart/jbus/EventDispatcher.java:130-144 | running the hook twice shuts the executor only once, and the second run leaves the dispatcher as the first left it |
| EventDispatcher.SingleThrowsUnhandled | src/main/java/org/dizitart/jbus/ErrorHandler.java:49-58 | with no error subscribers, a failing handler is invoked, its error is logged, and the registry is unchanged |
| EventDispatcher.SingleSweepThrows | src/main/java/org/dizitart/jbus/EventDispatcher.java:101-125 | for a collected weak entry while some list holds a strong entry, the sweep comes first and the error handler's action for the `NullPointerException` second, a logged error when no one listens for `ExceptionEvent` |
| EventDispatcher.SingleSweepThrowsUnhandled | src/main/java/org/dizitart/jbus/ErrorHandler.java:49-58 | when that sweep throws and no one listens for `ExceptionEvent`, the run is exactly the sweep and the logged `NullPointerException`, on the registry the failed sweep left |
| EventDispatcher.SingleSweepRemoves | src/main/java/org/dizitart/jbus/EventDispatcher.java:103-108 | for a collected weak entry with no strong entry registered, no list holds the entry after its run |
| EventDispatcher.DispatchFollowsExpected | src/main/java/org/dizitart/jbus/EventDispatcher.java:54-96 | over live entries with no error subscribers, dispatch takes exactly the reference sequence of actions: async entries submitted, sync ones invoked in order, errors logged, stopping after an interrupt |
| EventDispatcher.LoopFollowsExpected | src/main/java/org/dizitart/jbus/EventDispatcher.java:66-83 | the loop from any position follows the reference sequence for the rest of the chain |
| EventDispatcher.UninterruptedInvokesAll | src/main/java/org/dizitart/jbus/EventDispatcher.java:66-83 | synchronous handlers that return normally are each invoked once, in list order |
| EventDispatcher.InterruptStopsAfter | src/main/java/org/dizitart/jbus/EventDispatcher.java:74 | when the k-th handler interrupts a chain-aware event, exactly the first k+1 handlers are invoked |
| EventDispatcher.SingleHandsOver | src/main/java/org/dizitart/jbus/EventDispatcher.java:116-124 | a failing invocation is followed by the error handler's actions for the routed error |
| EventDispatcher.ErrorIsRouted | src/main/java/org/dizitart/jbus/ErrorHandler.java:49-55 | with error subscribers, the error is wrapped with its context and dispatched to them on a fresh chain |
| EventDispatcher.LoopRoutesFirstError | src/main/java/org/dizitart/jbus/EventDispatcher.java:101-125 | a failing first handler is followed at once by routing its error and handing the chain to the exception event |
| EventDispatcher.ErrorRoutingOutOfFuel | src/main/java/org/dizitart/jbus/ErrorHandler.java:55 | the model's recursion bound shows as an `OutOfFuel` action, never as a silent drop |
| EventDispatcher.LoopOfOne | src/main/java/org/dizitart/jbus/EventDispatcher.java:66-83 | the loop over a one-entry synchronous chain is that entry's own run |
| EventDispatcher.RoutesToOne | src/main/java/org/dizitart/jbus/ErrorHandler.java:49-55 | error routing to a single synchronous subscriber is the routing action, the chain hand-over to the exception event, then that subscriber's own run |
| EventDispatcher.RoutingRound | src/main/java/org/dizitart/jbus/ErrorHandler.java:49-55 | on a registry whose exception events all go to one subscriber whose run is a sweep and a further routing, one round of routing is the routing action, the hand-over and the sweep, then the routing of the sweep's `NullPointerException` |
| EventDispatcher.RoutingNeverEnds | src/main/java/org/dizitart/jbus/ErrorHandler.java:49-55 | on registries that route back to themselves that way, error routing uses up any bound, consumes no handler behaviour and leaves the lists as they were |
| EventDispatcher.CycleSweepThrows | src/main/java/org/dizitart/jbus/ListenersRegistry.java:229 | with a strong entry listed ahead, sweeping the collected exception-event subscriber as written throws and leaves every list as it was, with the handle gone from the weak cache |
| EventDispatcher.CycleSingle | src/main/java/org/dizitart/jbus/EventDispatcher.java:103-122 | that subscriber's own run is the throwing sweep, then the routing of the `NullPointerException` on the emptied weak cache |
| EventDispatcher.CycleRoutesBack | src/main/java/org/dizitart/jbus/ErrorHandler.java:49-55 | that registry sends every exception event to the collected subscriber alone, and its run routes back to the same lists |
| EventDispatcher.ErrorRoutingCyclesAsWritten | src/main/java/org/dizitart/jbus/ListenersRegistry.java:229 | with the sweep as written, any error routed on that registry cycles until the bound is used up, with the lists unchanged |
| EventDispatcher.CorrectedSweepEndsCycle | src/main/java/org/dizitart/jbus/ListenersRegistry.java:229 | the corrected sweep returns normally and removes the collected subscriber, after which any error on that registry is only logged |
| JBus.Register | src/main/java/org/dizitart/jbus/JBus.java:116-123 | a null listener throws and changes nothing; otherwise rejected as already registered iff an equal owner is cached strongly; a new owner succeeds iff discovery finds a method, is rejected with `NoSubscriberMethod` iff it finds none, and with discovery's `IneligibleHandler` error when it fails; on success every discovered type has a list |
| JBus.RegisterWeak | src/main/java/org/dizitart/jbus/JBus.java:137-144 | a null listener throws; otherwise rejected as already registered iff a live cached referent equals it, and the strong cache is untouched; a new owner succeeds iff discovery finds a method, is rejected with `NoSubscriberMethod` iff it finds none, and with discovery's `IneligibleHandler` error when it fails |
| JBus.Deregister | src/main/java/org/dizitart/jbus/JBus.java:155-162 | a null listener throws; otherwise keys are kept, and on a well-formed registry each list becomes its survivors |
| JBus.Post | src/main/java/org/dizitart/jbus/JBus.java:173-189 | a null event throws; any other post returns normally unless error routing recursed past the bound (an `OutOfFuel` action in the trace); with no list, or an empty list, for the exact class nothing happens; invocations are only on live owners of registered entries |
| JBus.TagDoesNotAffectPost | src/main/java/org/dizitart/jbus/JBus.java:196-198 | a post on a bus whose tag was changed has the same outcome, trace and registry as on the original bus; only the tag differs |
| JBus.Shutdown | src/main/java/org/dizitart/jbus/EventDispatcher.java:130-144 | after the hook runs, the dispatcher is shut down and the registry and tag are unchanged |
| JBus.PostAfterShutdown | src/main/java/org/dizitart/jbus/EventDispatcher.java:66-70 | after shutdown, a post at most hands the chain to the event and changes nothing |
| JBus.PostFollowsExpected | src/main/java/org/dizitart/jbus/JBus.java:180-187 | a post dispatches the exact-class list on a fresh chain and follows the reference sequence; an empty list does nothing |
| JBus.PostInvokesAll | src/main/java/org/dizitart/jbus/JBus.java:180-187 | with normally returning sync handlers, a post invokes each subscriber once, in order |
| JBus.PostInterrupted | src/main/java/org/dizitart/jbus/EventDispatcher.java:74-82 | a post whose k-th handler interrupts invokes exactly the first k+1 |
| JBus.InterruptAtSixthOfTen | src/test/java/org/dizitart/jbus/HandlerChainAwareTest.java:43-50 | of ten handlers with an interrupt in the sixth, the post's trace is the chain hand-over then exactly the first six invocations in order; posting again on the bus the first post left, without interrupts, yields the hand-over then all ten invocations |
| JBus.PostRoutesError | src/main/java/org/dizitart/jbus/EventDispatcher.java:116-124 | a failing first handler's error goes straight to the exception-event subscribers and the post still returns |
| JBus.PostSweepsCollected | src/main/java/org/dizitart/jbus/EventDispatcher.java:103-108 | a first entry whose weak owner was collected is swept right after the chain hand-over and never invoked; with no strong entry registered, no list holds it afterwards; otherwise the sweep throws and the error handler's action for the `NullPointerException` comes next, a logged error when no one listens for `ExceptionEvent` |
| JBus.PostPreservesNoDupAll | src/main/java/org/dizitart/jbus/EventDispatcher.java:54-125 | a post, with its sweeps and error routing, keeps a registry free of equal pairs (dead weak entries exempt), so the duplicate-free premises of `deregister` and of the sweep lemmas still hold after any number of posts |
| JBus.DeregisteredIsNeverInvoked | src/main/java/org/dizitart/jbus/ListenersRegistry.java:239-276 | after `deregister(o)`, no post invokes any handler on an owner equal to `o` |
| JBus.ScenarioDiscovery | src/main/java/org/dizitart/jbus/ReflectionUtil.java:44-68 | a class declaring one annotated one-parameter method yields exactly that handler, for that parameter's type, synchronous by default |
| JBus.ScenarioRegister | src/main/java/org/dizitart/jbus/ListenersRegistry.java:114-118 | registering that listener on a new bus caches it strongly and creates a one-entry list under the event type |
| JBus.ScenarioPost | src/main/java/org/dizitart/jbus/JBus.java:180-187 | posting an event of that type invokes the handler once, on the listener |
| JBus.ScenarioDeregister | src/main/java/org/dizitart/jbus/ListenersRegistry.java:267-272 | deregistering the listener empties the list but keeps the key |
| JBus.RegisterPostDeregisterPost | src/test/java/org/dizitart/jbus/ListenerTest.java:86-103 | a one-handler version of the test: register, post (one invocation), deregister, post (no invocation) |
| ListenersRegistry.DeadWeakEntryRemovedBeforeThrowAsWritten | src/main/java/org/dizitart/jbus/ListenersRegistry.java:239-276 | with the collected weak entry ahead of the strong one in the list, the sweep as written removes the dead entry and then throws `NullPointerException` at the strong entry, leaving only the strong entry |
| JBus.PostKeepsCollectedEntryAsWritten | src/main/java/org/dizitart/jbus/ListenersRegistry.java:229 | a strongly registered object 1 and a collected weakly registered object 3 on one type: a post invokes object 1, the sweep for object 3 throws, the exception is logged, and the lists are unchanged |

## Left out

- Concurrency: `synchronized`, the thread-safe collections and the cached
  thread pool are out. The model is one sequential history. Lists are
  iterated over a snapshot, as `CopyOnWriteArrayList` iterators do.
- Asynchronous handlers: only submitted (`Submit`). Their execution, and
  anything they later throw or sweep, happens on another thread and is not
  modelled.
- Garbage collection is the `World.alive` set, and `Classes.Collect`
  reclaims objects between operations. Reference queues and timing are not
  modelled.
- Reflection: `Method.invoke`, `setAccessible` and annotation lookup are out.
  A handler's outcome is the `Behaviour` input, and bridge, synthetic,
  varargs and array parameters are booleans of the declaration.
- `hashCode`, `toString` and all logging produce no state and are left out.
  The tag is kept only to show it has no effect.
- `addShutdownHook` registers with the JVM; only the hook itself is modelled.
- `DefaultHandlerChain` and `HandlerChain` are not part of this model. A
  chain is the list snapshot plus one `interrupt` flag. A handler can reach
  the flag only through `getHandlerChain()`, so its interrupt takes effect
  only for chain-aware events.
- `ConcurrentHashMap` iteration order is unspecified. The model iterates
  types in first-registration order (`Registry.keys`); this matters only
  for where the sweep as written throws.
- EventDispatcher.Dispatch: error routing can recurse without bound in the
  code, because a failing exception-event subscriber triggers another
  `handle`. No failing handler is needed: a collected weak `ExceptionEvent`
  subscriber, with a strong entry in a list swept before its own, makes
  every sweep of it throw, and each throw is routed back to it
  (`EventDispatcher.ErrorRoutingCyclesAsWritten`). The model bounds the
  recursion with `fuel`, and running out shows as an `OutOfFuel` action.
  The code ends in a `StackOverflowError`, which the `catch (Exception)` at
  EventDispatcher.java:116 does not catch, so it is thrown out of `post`.
- ListenersRegistry.RemoveFromRegistryFilters: characterises removal only on
  lists free of equal pairs among entries that are not dead weak ones,
  because `List.remove` deletes the first equal entry, which otherwise need
  not be the one being examined. The function itself models every case.
- ListenersRegistry.DeregisterFilters: stated for well-shaped registries
  free of such equal pairs, for the same reason.
- ListenersRegistry.DeregisterClearsStrongCache: assumes the users' `equals`
  is an equivalence. Otherwise the source removes the first object the owner
  equals, which `ListenersRegistry.RemoveObjectDeletesFirst` states for any
  `equals`.
- ListenersRegistry.RegisterPreservesNoDup: assumes the users' `equals` is
  symmetric, because the duplicate check compares the new entry against the
  old ones in one direction only.
- JBus.Deregister: characterises the resulting lists only on well-shaped
  registries free of equal pairs (dead weak entries exempt), for the reason
  given for `ListenersRegistry.RemoveFromRegistryFilters`; on other
  registries only the keys and the null check are stated.
- JBus.PostSweepsCollected: when a strong entry is registered, whether the
  collected entry stays is not stated. The sweep as written removes it if it
  reaches the entry before the first strong entry, and throws first
  otherwise (`ListenersRegistry.DeadWeakEntryRemovedBeforeThrowAsWritten`
  shows the first case for the sweep alone,
  `JBus.PostKeepsCollectedEntryAsWritten` the second for a whole post).
- JBus.Post: the trace after the first error routing is characterised only
  through `EventDispatcher.Dispatch`'s general contract, not action by
  action.
- JBus.Post: a normal return is promised only when the trace holds no
  `OutOfFuel` action. Past the bound the code throws a `StackOverflowError`
  out of `post`, which the model does not represent as an outcome.
- JBus.Post: the Javadoc at JBus.java:170 promises a `JBusException` when a
  subscriber throws. The code never throws one: a handler's exception is
  routed to the `ExceptionEvent` subscribers or logged, and the model
  follows the code.

## Findings

| source | as written | input that shows it | evidently intended | confidence | as-written member | corrected member |
|---|---|---|---|---|---|---|
| src/main/java/org/dizitart/jbus/ListenersRegistry.java:229 | `removeWeakListener` calls `removeFromRegistry(weakRef.get(), true)`. With `confirmedWeak` set, every entry's `weakListener` is dereferenced (line 250), and it is null on strongly bound entries. | Event type 5 lists a strong entry for live owner 1, then a weak entry for collected owner 2. Sweeping the collected handle throws `NullPointerException` at the strong entry, and the dead entry stays registered. | Purge dead weak entries and leave strong ones alone, as the scan with `confirmedWeak` unset does. | not executed | ListenersRegistry.DeadWeakEntrySurvivesAsWritten | ListenersRegistry.DeadWeakEntryRemoved |
| src/main/java/org/dizitart/jbus/ListenersRegistry.java:229 | The same throwing sweep, reached from dispatch. The `NullPointerException` goes to `handle` (ErrorHandler.java:49-55), which dispatches the `ExceptionEvent` to its subscribers, and sweeping a collected one throws again. | Type 7 lists a strong entry for live owner 1 and is swept first; `ExceptionEvent` lists one weak subscriber whose owner 3 was collected. Any error routed there re-dispatches to that subscriber, whose sweep throws and is routed again, without end. | The sweep removes the collected subscriber, so the next error finds no subscriber and is logged. | not executed | EventDispatcher.ErrorRoutingCyclesAsWritten | EventDispatcher.CorrectedSweepEndsCycle |

The dispatcher follows the code as written (`EventDispatcher.Single` calls
`ListenersRegistry.RemoveWeakListenerAsWritten`), so a post that reaches a
collected entry while a strong entry is registered makes the sweep throw a
`NullPointerException` at the first strong entry it reaches. The exception
goes to the `ExceptionEvent` subscribers, or is logged when there are none.
Whether the dead entry survives depends on order: it stays when the sweep
meets a strong entry before it (`JBus.PostKeepsCollectedEntryAsWritten`,
strong entry first in the list), and it is removed when the sweep reaches
it first (`ListenersRegistry.DeadWeakEntryRemovedBeforeThrowAsWritten`,
the same two entries in the other order). The corrected removal,
`ListenersRegistry.RemoveWeakListener`, is proved to remove exactly the dead
weak entries (`ListenersRegistry.RemoveWeakListenerFilters`) and agrees with
the code when no strong entry is registered
(`ListenersRegistry.RemoveWeakListenerAsWrittenAgrees`).
