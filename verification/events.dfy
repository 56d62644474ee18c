/** Events as the bus sees them: user events (any object) and the
    `ExceptionEvent` the error handler synthesises, with its
    `ExceptionContext`. */
module Events {
  import opened Base
  import opened Classes
  import opened ListenerMethod

  /** A `Throwable`: its kind and its optional cause (`getCause()`). */
  datatype Throwable = Throwable(kind: string, cause: Option<Throwable>)

  /** What `Method.invoke` throws when the handler body is reached with a
      null receiver, and what a null dereference inside the bus throws. */
  const NullPointer := Throwable("java.lang.NullPointerException", None)

  /** A posted value: a user object, or an `ExceptionEvent` wrapping a
      handler failure and its context. */
  datatype Event =
    | UserEvent(obj: ObjId)
    | ExceptionEvent(exception: Throwable, context: ExceptionContext)

  /** `ExceptionContext`: the resolved owner (null for a collected weak
      owner), the triggering event and the failing method. */
  datatype ExceptionContext = ExceptionContext(listener: Option<ObjId>, event: Event, subscribedMethod: Method)

  /** `event.getClass()`. */
  function EventClass(w: World, e: Event): (c: Class)
    ensures e.ExceptionEvent? ==> c.id == EXCEPTION_EVENT
  {
    match e
    case UserEvent(o) => w.classOf(o)
    case ExceptionEvent(_, _) => ExceptionEventClass
  }

  /** `event instanceof HandlerChainAware`. */
  predicate ChainAware(w: World, e: Event) {
    IsSubtype(EventClass(w, e), HANDLER_CHAIN_AWARE)
  }

  /** Every exception event can receive its handler chain. */
  lemma ExceptionEventsAreChainAware(w: World, x: Throwable, ctx: ExceptionContext)
    ensures ChainAware(w, ExceptionEvent(x, ctx))
  {
    ExceptionEventIsChainAware();
  }
}
