/** One subscriber method bound to its owner (`ListenerMethod`), and the
    liveness-sensitive equality the registry uses to deduplicate entries. */
module ListenerMethod {
  import opened Base
  import opened Classes

  /** The reflective `Method`: name, modifier mask and declaring class. */
  datatype Method = Method(name: string, modifiers: nat, declaring: ClassId)

  /** `Modifier.PRIVATE == method.getModifiers()`: the mask is exactly
      `private`, so `private static` or `private final` methods do not count. */
  predicate ExactlyPrivate(m: Method) {
    m.modifiers == PRIVATE
  }

  /** A `WeakReference` object: its own identity plus the referent it was
      created for. `get()` is `Deref`. */
  datatype Handle = Handle(hid: nat, referent: ObjId)

  /** `weakListener.get()`: the referent while the collector has not
      reclaimed it, null afterwards. */
  function Deref(h: Handle, w: World): (r: Option<ObjId>)
    ensures r.Some? <==> h.referent in w.alive
    ensures r.Some? ==> r.value == h.referent
  {
    if h.referent in w.alive then Some(h.referent) else None
  }

  /** The three reachable combinations of `target`, `weakListener` and
      `holdWeakReference`: freshly discovered (all unset), bound strongly
      (`target` set) or bound weakly (`weakListener` set, flag true). */
  datatype Binding = Unbound | StrongTarget(target: ObjId) | WeakHandle(handle: Handle)

  /** A `ListenerMethod` object; `uid` is its object identity. */
  datatype Entry = Entry(uid: nat, handler: Method, eventType: ClassId, async: bool, binding: Binding) {
    predicate HoldWeakReference() {
      binding.WeakHandle?
    }

    /** The `target` field (null unless bound strongly). */
    function Target(): Option<ObjId> {
      if binding.StrongTarget? then Some(binding.target) else None
    }
  }

  /** The name/modifier/type/mode clauses shared by both branches of
      `ListenerMethod.equals`. */
  predicate SameSignature(a: Entry, b: Entry) {
    && a.handler.name == b.handler.name
    && !ExactlyPrivate(a.handler)
    && !ExactlyPrivate(b.handler)
    && a.eventType == b.eventType
    && a.async == b.async
  }

  /** `t1.equals(t2)` together with class assignability in either direction. */
  predicate SameOwner(w: World, t1: ObjId, t2: ObjId) {
    w.equals(t1, t2) && Related(w.classOf(t1), w.classOf(t2))
  }

  /** `a.equals(b)` for two `ListenerMethod` objects. */
  predicate Equals(a: Entry, b: Entry, w: World) {
    if a.uid == b.uid then
      true
    else if a.HoldWeakReference() && b.HoldWeakReference() then
      var t1 := Deref(a.binding.handle, w);
      var t2 := Deref(b.binding.handle, w);
      if t1.None? && t2.None? then SameSignature(a, b)
      else if t1.Some? && t2.Some? then SameSignature(a, b) && SameOwner(w, t1.value, t2.value)
      else false
    else
      && SameSignature(a, b)
      && a.Target().Some?
      && b.Target().Some?
      && SameOwner(w, a.Target().value, b.Target().value)
  }

  /** Weakly bound, and the referent is still reachable. */
  predicate IsLiveWeak(e: Entry, w: World) {
    e.binding.WeakHandle? && e.binding.handle.referent in w.alive
  }

  /** Weakly bound, and the referent has been collected. */
  predicate IsDeadWeak(e: Entry, w: World) {
    e.binding.WeakHandle? && e.binding.handle.referent !in w.alive
  }

  // ---------------------------------------------------------------------
  // Properties of the equality

  /** `this == obj` answers first, so an entry equals itself even when its
      method is exactly private. */
  lemma EqualsReflexive(e: Entry, w: World)
    ensures Equals(e, e, w)
  {
  }

  /** Two distinct strongly bound entries are equal exactly when names
      match, neither is exactly private, event type and mode match, and the
      targets are equal and of related classes. */
  lemma StrongEquality(a: Entry, b: Entry, w: World)
    requires a.uid != b.uid
    requires a.binding.StrongTarget? && b.binding.StrongTarget?
    ensures Equals(a, b, w) <==>
      && a.handler.name == b.handler.name
      && a.handler.modifiers != PRIVATE
      && b.handler.modifiers != PRIVATE
      && a.eventType == b.eventType
      && a.async == b.async
      && w.equals(a.binding.target, b.binding.target)
      && Related(w.classOf(a.binding.target), w.classOf(b.binding.target))
  {
  }

  /** A weak entry never equals a distinct strong or unbound one, in either
      order: the mixed case takes the strong branch, which needs both
      targets, and a weak entry has none. */
  lemma WeakNeverEqualsStrong(a: Entry, b: Entry, w: World)
    requires a.uid != b.uid
    requires a.HoldWeakReference() && !b.HoldWeakReference()
    ensures !Equals(a, b, w) && !Equals(b, a, w)
  {
  }

  /** A weak entry whose referent is dead never equals a distinct weak
      entry whose referent is alive. */
  lemma DeadNeverEqualsAlive(a: Entry, b: Entry, w: World)
    requires a.uid != b.uid
    requires IsDeadWeak(a, w) && IsLiveWeak(b, w)
    ensures !Equals(a, b, w) && !Equals(b, a, w)
  {
  }

  /** Two dead weak entries are equal exactly when their signatures match;
      the (former) owners are not compared at all. */
  lemma DeadEntriesEqualBySignature(a: Entry, b: Entry, w: World)
    requires a.uid != b.uid
    requires IsDeadWeak(a, w) && IsDeadWeak(b, w)
    ensures Equals(a, b, w) <==> SameSignature(a, b)
  {
  }

  /** Two live weak entries also need equal referents of related classes. */
  lemma LiveWeakEquality(a: Entry, b: Entry, w: World)
    requires a.uid != b.uid
    requires IsLiveWeak(a, w) && IsLiveWeak(b, w)
    ensures Equals(a, b, w) <==>
      SameSignature(a, b) && SameOwner(w, a.binding.handle.referent, b.binding.handle.referent)
  {
  }

  /** An exactly-private entry equals no other entry, in either order. */
  lemma PrivateEqualsOnlyItself(a: Entry, b: Entry, w: World)
    requires ExactlyPrivate(a.handler)
    ensures Equals(a, b, w) <==> a.uid == b.uid
    ensures Equals(b, a, w) <==> a.uid == b.uid
  {
  }

  /** Every clause pairs the two sides symmetrically, so the equality is
      symmetric whenever the owners' `equals` is. */
  lemma EqualsSymmetric(a: Entry, b: Entry, w: World)
    requires EqualsIsSymmetric(w)
    ensures Equals(a, b, w) == Equals(b, a, w)
  {
  }

  /** Without a symmetric owner `equals`, entry equality is not symmetric
      either: a target that claims equality with another, unreciprocated. */
  lemma AsymmetricOwnerEqualsBreaksSymmetry()
    ensures
      var w := World({}, (x: ObjId, y: ObjId) => x == 0, (x: ObjId) => ObjectClass);
      var m := Method("on", 1, 7);
      var a := Entry(1, m, 9, false, StrongTarget(0));
      var b := Entry(2, m, 9, false, StrongTarget(1));
      Equals(a, b, w) && !Equals(b, a, w)
  {
    var w := World({}, (x: ObjId, y: ObjId) => x == 0, (x: ObjId) => ObjectClass);
    SubtypeReflexive(ObjectClass);
    assert Related(w.classOf(0), w.classOf(1));
  }
}
