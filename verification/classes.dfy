/** The parts of the Java runtime the bus consults but does not own: object
    identity, the class hierarchy, `Class.isAssignableFrom`, user-defined
    `Object.equals`, and garbage-collector liveness. Everything the runtime
    decides on its own is an explicit input (`World`). */
module Classes {
  import opened Base

  /** Object identity: two references are `==` iff their ids are equal. */
  type ObjId = nat

  /** Class identity: `Class.equals` is identity, so ids compare with `==`. */
  type ClassId = nat

  const OBJECT: ClassId := 0
  /** The `HandlerChainAware` interface. */
  const HANDLER_CHAIN_AWARE: ClassId := 1
  /** The `ExceptionEvent` class. */
  const EXCEPTION_EVENT: ClassId := 2

  /** `java.lang.reflect.Modifier.PRIVATE`. */
  const PRIVATE: nat := 0x2

  /** The `@Subscribe` annotation; `async` defaults to false in the source. */
  datatype Subscribe = Subscribe(async: bool)

  const DEFAULT_SUBSCRIBE := Subscribe(false)

  datatype Param = Param(paramType: ClassId, isArray: bool)

  /** A method as `Class.getDeclaredMethods` reports it. */
  datatype MethodDecl = MethodDecl(
    name: string,
    modifiers: nat,
    annotation: Option<Subscribe>,
    bridge: bool,
    synthetic: bool,
    varArgs: bool,
    params: seq<Param>)

  /** A class or interface: its own declared methods, its superclass (None
      for `Object` and for interfaces) and its directly implemented or
      extended interfaces, in declaration order. */
  datatype Class = Class(
    id: ClassId,
    declared: seq<MethodDecl>,
    superclass: Option<Class>,
    interfaces: seq<Class>)

  /** `Class.forId(target).isAssignableFrom(c)`: `c` is `target` or one of
      its supertypes is. Every class and interface is assignable to `Object`. */
  predicate IsSubtype(c: Class, target: ClassId)
    decreases c
  {
    || target == OBJECT
    || c.id == target
    || (c.superclass.Some? && IsSubtype(c.superclass.value, target))
    || (exists i | 0 <= i < |c.interfaces| :: IsSubtype(c.interfaces[i], target))
  }

  /** `a.getClass().isAssignableFrom(b.getClass()) || b.getClass().isAssignableFrom(a.getClass())`. */
  predicate Related(a: Class, b: Class) {
    IsSubtype(b, a.id) || IsSubtype(a, b.id)
  }

  const ObjectClass := Class(OBJECT, [], None, [])
  const HandlerChainAwareClass := Class(HANDLER_CHAIN_AWARE, [], None, [])
  /** `ExceptionEvent extends Object implements HandlerChainAware`. */
  const ExceptionEventClass := Class(EXCEPTION_EVENT, [], Some(ObjectClass), [HandlerChainAwareClass])

  /** The runtime facts the bus observes but does not control:
      - `alive`: objects the garbage collector has not reclaimed;
      - `equals`: user-defined `Object.equals` (receiver first);
      - `classOf`: `Object.getClass`. */
  datatype World = World(
    alive: set<ObjId>,
    equals: (ObjId, ObjId) -> bool,
    classOf: ObjId -> Class)

  /** The `Object.equals` contract: an equivalence relation. */
  ghost predicate EqualsIsEquivalence(w: World) {
    && (forall x :: w.equals(x, x))
    && (forall x, y :: w.equals(x, y) == w.equals(y, x))
    && (forall x, y, z :: w.equals(x, y) && w.equals(y, z) ==> w.equals(x, z))
  }

  ghost predicate EqualsIsSymmetric(w: World) {
    forall x, y :: w.equals(x, y) == w.equals(y, x)
  }

  /** `x.equals(y)` where `y` may be null: false for null, as the
      `Object.equals` contract requires. */
  predicate EqualsRef(w: World, x: ObjId, y: Option<ObjId>) {
    y.Some? && w.equals(x, y.value)
  }

  /** A garbage-collection step: `dead` objects are reclaimed. */
  function Collect(w: World, dead: set<ObjId>): (w': World)
    ensures w'.alive == w.alive - dead
    ensures forall x :: x in dead ==> x !in w'.alive
    ensures w'.equals == w.equals && w'.classOf == w.classOf
  {
    w.(alive := w.alive - dead)
  }

  lemma {:induction false} ObjectIsAssignableFromEverything(c: Class)
    ensures IsSubtype(c, OBJECT)
  {
  }

  lemma {:induction false} SubtypeReflexive(c: Class)
    ensures IsSubtype(c, c.id)
    ensures Related(c, c)
  {
  }

  lemma ExceptionEventIsChainAware()
    ensures IsSubtype(ExceptionEventClass, HANDLER_CHAIN_AWARE)
  {
    assert IsSubtype(ExceptionEventClass.interfaces[0], HANDLER_CHAIN_AWARE);
  }
}
