/** The subscription registry (`ListenersRegistry`): a map from event type
    to an ordered list of entries, a strong owner cache and a weak handle
    cache, with `register`, `deregister`, `getSubscribers` and
    `removeWeakListener` as pure state transitions. */
module ListenersRegistry {
  import opened Base
  import opened Classes
  import opened ListenerMethod
  import opened ReflectionUtil
  import opened Events

  /** The `JBusException`s and the one `NullPointerException` the registry
      can throw. */
  datatype RegError =
    | AlreadyRegistered
    | NoSubscriberMethod
    | IneligibleHandler(cause: DiscoveryError)
    | NullDereference

  /** Registry state. `keys` lists the event types of `lists` in the order
      they were first registered; the model iterates the map in that order.
      `nextId` supplies identities for newly created `ListenerMethod` and
      `WeakReference` objects. */
  datatype Registry = Registry(
    lists: map<ClassId, seq<Entry>>,
    keys: seq<ClassId>,
    strongCache: seq<ObjId>,
    weakCache: seq<Handle>,
    nextId: nat)

  const Empty := Registry(map[], [], [], [], 0)

  /** A registry operation's new state and whether it returned or threw. */
  datatype Step = Step(state: Registry, outcome: Outcome<RegError>)

  // ---------------------------------------------------------------------
  // Invariants

  predicate HandlesDistinct(s: seq<Handle>) {
    forall i, j | 0 <= i < j < |s| :: s[i] != s[j]
  }

  /** No entry of `s` is unbound: registration binds every entry it adds. */
  predicate AllBound(s: seq<Entry>) {
    forall j | 0 <= j < |s| :: !s[j].binding.Unbound?
  }

  /** The shape every reachable registry has: `keys` enumerates the map's
      key set without repetition, each list holds bound entries for its own
      key, and the weak cache holds distinct handles that were allocated
      before `nextId`. */
  ghost predicate Valid(r: Registry) {
    && (forall i, j | 0 <= i < j < |r.keys| :: r.keys[i] != r.keys[j])
    && (forall k :: k in r.lists <==> k in r.keys)
    && (forall k | k in r.lists :: AllBound(r.lists[k]) && forall x | x in r.lists[k] :: x.eventType == k)
    && HandlesDistinct(r.weakCache)
    && (forall h | h in r.weakCache :: h.hid < r.nextId)
  }

  /** No list holds one entry object twice, nor two equal entries of which
      neither is a dead weak entry. Dead weak entries are exempt: once their
      owners are collected, entries of one signature become equal (see
      `CollectionMergesDeadEntries`), and the next sweep removes them. */
  ghost predicate NoDup(s: seq<Entry>, w: World) {
    forall i, j | 0 <= i < |s| && 0 <= j < |s| && i != j :: NotDuplicates(s[i], s[j], w)
  }

  /** Two entries at distinct positions of a duplicate-free list. */
  predicate NotDuplicates(a: Entry, b: Entry, w: World) {
    a.uid != b.uid && (IsDeadWeak(a, w) || IsDeadWeak(b, w) || !Equals(a, b, w))
  }

  ghost predicate NoDupAll(r: Registry, w: World) {
    forall k | k in r.lists :: NoDup(r.lists[k], w)
  }

  /** No two distinct live weak handles have equal referents. */
  ghost predicate WeakCacheDistinct(r: Registry, w: World) {
    LiveDistinct(r.weakCache, w)
  }

  /** No two distinct handles of `c` have live, equal referents. */
  ghost predicate LiveDistinct(c: seq<Handle>, w: World) {
    forall h1, h2 | h1 in c && h2 in c && h1 != h2 ::
      !(h1.referent in w.alive && LiveMatch(h2, w, h1.referent))
  }

  /** No two objects of the strong cache are equal. */
  ghost predicate StrongCacheDistinct(r: Registry, w: World) {
    Unequal(r.strongCache, w)
  }

  /** No two positions of `c` hold equal objects. */
  ghost predicate Unequal(c: seq<ObjId>, w: World) {
    forall i, j | 0 <= i < |c| && 0 <= j < |c| && i != j :: !w.equals(c[i], c[j])
  }

  // ---------------------------------------------------------------------
  // List and cache primitives

  /** `list.remove(e)`: drop the first `x` with `e.equals(x)`. */
  function RemoveFirst(s: seq<Entry>, e: Entry, w: World): (r: seq<Entry>)
    ensures |r| == |s| || |r| == |s| - 1
    ensures forall x | x in r :: x in s
  {
    if |s| == 0 then []
    else if Equals(e, s[0], w) then s[1..]
    else [s[0]] + RemoveFirst(s[1..], e, w)
  }

  /** `list.remove(e)` removes at most one occurrence and adds nothing. */
  lemma {:induction false} RemoveFirstShrinks(s: seq<Entry>, e: Entry, w: World)
    ensures multiset(RemoveFirst(s, e, w)) <= multiset(s)
  {
    if |s| > 0 {
      assert s == [s[0]] + s[1..];
      if !Equals(e, s[0], w) {
        RemoveFirstShrinks(s[1..], e, w);
      }
    }
  }

  /** `weakSubscriberCache.remove(h)`: drop the first occurrence of the
      same `WeakReference` object. */
  function RemoveHandle(s: seq<Handle>, h: Handle): (r: seq<Handle>)
    ensures forall x | x in r :: x in s
    ensures HandlesDistinct(s) ==> HandlesDistinct(r) && forall x :: x in r <==> x in s && x != h
  {
    if |s| == 0 then []
    else if s[0] == h then
      assert HandlesDistinct(s) ==> forall j | 1 <= j < |s| :: s[0] != s[j];
      s[1..]
    else
      var t := RemoveHandle(s[1..], h);
      assert HandlesDistinct(s) ==> s[0] !in t;
      [s[0]] + t
  }

  /** `subscriberCache.remove(o)`: drop the first `x` with `o.equals(x)`. */
  function RemoveObject(s: seq<ObjId>, w: World, o: ObjId): (r: seq<ObjId>)
    ensures (exists i | 0 <= i < |s| :: w.equals(o, s[i])) ==> |r| == |s| - 1
    ensures !(exists i | 0 <= i < |s| :: w.equals(o, s[i])) ==> r == s
    ensures forall x | x in r :: x in s
  {
    if |s| == 0 then []
    else if w.equals(o, s[0]) then s[1..]
    else [s[0]] + RemoveObject(s[1..], w, o)
  }

  /** `subscriberCache.contains(o)`: some cached `x` with `o.equals(x)`. */
  predicate ContainsStrong(s: seq<ObjId>, w: World, o: ObjId) {
    exists i | 0 <= i < |s| :: w.equals(o, s[i])
  }

  /** A live weak handle whose referent claims equality with `o`. */
  predicate LiveMatch(h: Handle, w: World, o: ObjId) {
    h.referent in w.alive && w.equals(h.referent, o)
  }

  /** Result of scanning the weak cache for `o`: whether a live match was
      found, at which position, and the cache after purging. */
  datatype WeakScan = WeakScan(found: bool, at: nat, cache: seq<Handle>)

  /** The loop shared by `containsWeak` and the first half of `deregister`:
      walk a snapshot of the weak cache, removing every handle whose
      referent is dead, until a live referent equals `o`. */
  function ScanWeak(snap: seq<Handle>, i: nat, live: seq<Handle>, w: World, o: ObjId): (r: WeakScan)
    requires i <= |snap|
    decreases |snap| - i
    ensures i <= r.at <= |snap|
    ensures r.found <==> r.at < |snap|
    ensures r.found ==> LiveMatch(snap[r.at], w, o)
    ensures forall j | i <= j < r.at :: !LiveMatch(snap[j], w, o)
    ensures forall x | x in r.cache :: x in live
    ensures HandlesDistinct(live) ==> HandlesDistinct(r.cache)
    ensures HandlesDistinct(live) ==>
      forall x :: x in r.cache <==> x in live && !(x in snap[i..r.at] && x.referent !in w.alive)
  {
    if i == |snap| then WeakScan(false, i, live)
    else
      var h := snap[i];
      if h.referent !in w.alive then
        var r := ScanWeak(snap, i + 1, RemoveHandle(live, h), w, o);
        assert forall x :: x in snap[i..r.at] <==> x == h || x in snap[i + 1..r.at] by {
          assert snap[i..r.at] == [h] + snap[i + 1..r.at];
        }
        r
      else if w.equals(h.referent, o) then WeakScan(true, i, live)
      else
        var r := ScanWeak(snap, i + 1, live, w, o);
        assert forall x :: x in snap[i..r.at] <==> x == h || x in snap[i + 1..r.at] by {
          assert snap[i..r.at] == [h] + snap[i + 1..r.at];
        }
        r
  }

  /** `containsWeak(o)`, with the purge it performs as a side effect. */
  function ContainsWeak(cache: seq<Handle>, w: World, o: ObjId): WeakScan {
    ScanWeak(cache, 0, cache, w, o)
  }

  // ---------------------------------------------------------------------
  // register

  /** The entry registered for a discovered method. */
  function BindEntry(c: Candidate, uid: nat, b: Binding): (e: Entry)
    ensures e.uid == uid && e.binding == b
    ensures e.handler == c.handler && e.eventType == c.eventType && e.async == c.async
  {
    Entry(uid, c.handler, c.eventType, c.async, b)
  }

  /** Insert one entry into its type's list unless an equal entry is
      present; an unseen type gets a new one-element list. */
  function AddEntry(r: Registry, w: World, e: Entry): (r': Registry)
    ensures r'.nextId == r.nextId + 1
    ensures r'.strongCache == r.strongCache && r'.weakCache == r.weakCache
    ensures r'.lists.Keys == r.lists.Keys + {e.eventType}
    ensures e.eventType in r.lists ==> r'.keys == r.keys
    ensures e.eventType !in r.lists ==> r'.keys == r.keys + [e.eventType] && r'.lists[e.eventType] == [e]
    ensures forall k | k in r.lists && k != e.eventType :: r'.lists[k] == r.lists[k]
    ensures e.eventType in r.lists ==>
      if Covered(r.lists[e.eventType], e, w)
      then r'.lists[e.eventType] == r.lists[e.eventType]
      else r'.lists[e.eventType] == r.lists[e.eventType] + [e]
  {
    var k := e.eventType;
    if k in r.lists then
      if Covered(r.lists[k], e, w) then r.(nextId := r.nextId + 1)
      else r.(lists := r.lists[k := r.lists[k] + [e]], nextId := r.nextId + 1)
    else
      r.(lists := r.lists[k := [e]], keys := r.keys + [k], nextId := r.nextId + 1)
  }

  /** The event types of a sequence of discovered methods. */
  function TypesOf(cs: seq<Candidate>): (ts: set<ClassId>)
    ensures forall i | 0 <= i < |cs| :: cs[i].eventType in ts
  {
    if |cs| == 0 then {}
    else
      assert forall i | 1 <= i < |cs| :: cs[i] == cs[1..][i - 1];
      {cs[0].eventType} + TypesOf(cs[1..])
  }

  /** The insertion loop of `register`: bind each discovered method in
      discovery order and insert it. */
  function Insert(r: Registry, w: World, cs: seq<Candidate>, b: Binding): (r': Registry)
    decreases |cs|
    ensures r'.nextId == r.nextId + |cs|
    ensures r'.strongCache == r.strongCache && r'.weakCache == r.weakCache
    ensures r'.lists.Keys == r.lists.Keys + TypesOf(cs)
    ensures forall k | k in r.lists && k !in TypesOf(cs) :: r'.lists[k] == r.lists[k]
  {
    if |cs| == 0 then r
    else Insert(AddEntry(r, w, BindEntry(cs[0], r.nextId, b)), w, cs[1..], b)
  }

  /** Lists and the key order only grow, by appending. */
  lemma {:induction false} InsertAppends(r: Registry, w: World, cs: seq<Candidate>, b: Binding)
    decreases |cs|
    ensures IsPrefix(r.keys, Insert(r, w, cs, b).keys)
    ensures forall k | k in r.lists :: IsPrefix(r.lists[k], Insert(r, w, cs, b).lists[k])
  {
    if |cs| > 0 {
      var r1 := AddEntry(r, w, BindEntry(cs[0], r.nextId, b));
      var r2 := Insert(r1, w, cs[1..], b);
      InsertAppends(r1, w, cs[1..], b);
      PrefixTransitive(r.keys, r1.keys, r2.keys);
      forall k | k in r.lists
        ensures IsPrefix(r.lists[k], r2.lists[k])
      {
        PrefixTransitive(r.lists[k], r1.lists[k], r2.lists[k]);
      }
    }
  }

  /** Some entry of `l` is equal to `e`. */
  predicate Covered(l: seq<Entry>, e: Entry, w: World) {
    |l| > 0 && (Equals(e, l[0], w) || Covered(l[1..], e, w))
  }

  /** `Covered` is `List.contains`: some element the entry equals. */
  lemma {:induction false} CoveredMeans(l: seq<Entry>, e: Entry, w: World)
    ensures Covered(l, e, w) <==> exists x | x in l :: Equals(e, x, w)
  {
    if |l| > 0 {
      CoveredMeans(l[1..], e, w);
      assert l == [l[0]] + l[1..];
    }
  }

  lemma AddEntryCovers(r: Registry, w: World, e: Entry)
    ensures Covered(AddEntry(r, w, e).lists[e.eventType], e, w)
  {
    var l := AddEntry(r, w, e).lists[e.eventType];
    if e.eventType in r.lists && Covered(r.lists[e.eventType], e, w) {
      assert l == r.lists[e.eventType];
    } else {
      assert e in l;
      EqualsReflexive(e, w);
      CoveredMeans(l, e, w);
    }
  }

  lemma CoveredPrefix(s: seq<Entry>, t: seq<Entry>, e: Entry, w: World)
    requires IsPrefix(s, t) && Covered(s, e, w)
    ensures Covered(t, e, w)
  {
    CoveredMeans(s, e, w);
    CoveredMeans(t, e, w);
    var x :| x in s && Equals(e, x, w);
    PrefixMembership(s, t, x);
  }

  /** The first discovered method, once bound, is equal to some entry of
      its type's list after the whole insertion. */
  lemma InsertCoversHead(r: Registry, w: World, cs: seq<Candidate>, b: Binding)
    requires |cs| > 0
    ensures cs[0].eventType in Insert(r, w, cs, b).lists
    ensures Covered(Insert(r, w, cs, b).lists[cs[0].eventType], BindEntry(cs[0], r.nextId, b), w)
  {
    var e := BindEntry(cs[0], r.nextId, b);
    var r1 := AddEntry(r, w, e);
    var r2 := Insert(r1, w, cs[1..], b);
    assert r2 == Insert(r, w, cs, b);
    InsertAppends(r1, w, cs[1..], b);
    AddEntryCovers(r, w, e);
    CoveredPrefix(r1.lists[e.eventType], r2.lists[e.eventType], e, w);
  }

  /** Inserting a sequence inserts its first `i` elements and then the
      rest. */
  lemma {:induction false} InsertSplit(r: Registry, w: World, cs: seq<Candidate>, b: Binding, i: nat)
    requires i <= |cs|
    decreases i
    ensures Insert(r, w, cs, b) == Insert(Insert(r, w, cs[..i], b), w, cs[i..], b)
  {
    if i > 0 {
      var r1 := AddEntry(r, w, BindEntry(cs[0], r.nextId, b));
      assert cs[..i][0] == cs[0] && cs[..i][1..] == cs[1..][..i - 1] && cs[i..] == cs[1..][i - 1..];
      InsertSplit(r1, w, cs[1..], b, i - 1);
    }
  }

  /** Every discovered method, once bound, is equal to some entry of its
      type's list afterwards: either it was appended or an equal entry was
      already there. */
  lemma InsertCovers(r: Registry, w: World, cs: seq<Candidate>, b: Binding, i: nat)
    requires i < |cs|
    ensures cs[i].eventType in Insert(r, w, cs, b).lists
    ensures Covered(Insert(r, w, cs, b).lists[cs[i].eventType], BindEntry(cs[i], r.nextId + i, b), w)
  {
    var mid := Insert(r, w, cs[..i], b);
    InsertSplit(r, w, cs, b, i);
    assert mid.nextId == r.nextId + i;
    InsertCoversHead(mid, w, cs[i..], b);
    assert cs[i..][0] == cs[i];
    assert BindEntry(cs[i..][0], mid.nextId, b) == BindEntry(cs[i], r.nextId + i, b);
    var after := Insert(r, w, cs, b);
    assert after == Insert(mid, w, cs[i..], b);
    assert cs[i].eventType in after.lists;
    assert Covered(after.lists[cs[i].eventType], BindEntry(cs[i], r.nextId + i, b), w);
  }

  /** Inserting two discovered methods is two `AddEntry` steps. */
  lemma InsertTwo(r: Registry, w: World, c1: Candidate, c2: Candidate, b: Binding)
    ensures Insert(r, w, [c1, c2], b) ==
      AddEntry(AddEntry(r, w, BindEntry(c1, r.nextId, b)), w, BindEntry(c2, r.nextId + 1, b))
  {
    InsertSplit(r, w, [c1, c2], b, 1);
    assert [c1, c2][..1] == [c1] && [c1, c2][1..] == [c2];
    InsertOne(r, w, c1, b);
    InsertOne(AddEntry(r, w, BindEntry(c1, r.nextId, b)), w, c2, b);
  }

  lemma InsertOne(r: Registry, w: World, c: Candidate, b: Binding)
    ensures Insert(r, w, [c], b) == AddEntry(r, w, BindEntry(c, r.nextId, b))
  {
    assert [c][1..] == [];
  }

  /** Discovery reports an annotated override once per declaring class,
      the subclass's first. Registered strongly under a type with no list
      yet, the superclass's copy equals the subclass's entry and is
      dropped; when the methods are exactly private neither equals the
      other and both stay. */
  lemma OverrideMergedOnRegister(r: Registry, w: World, sub: Candidate, sup: Candidate, owner: ObjId)
    requires sub.eventType !in r.lists
    requires sub.handler.name == sup.handler.name && sub.eventType == sup.eventType && sub.async == sup.async
    requires w.equals(owner, owner)
    ensures var b := StrongTarget(owner);
      var l := Insert(r, w, [sub, sup], b).lists[sub.eventType];
      && (!ExactlyPrivate(sub.handler) && !ExactlyPrivate(sup.handler) ==> l == [BindEntry(sub, r.nextId, b)])
      && (ExactlyPrivate(sub.handler) ==> l == [BindEntry(sub, r.nextId, b), BindEntry(sup, r.nextId + 1, b)])
  {
    var b := StrongTarget(owner);
    var e1 := BindEntry(sub, r.nextId, b);
    var e2 := BindEntry(sup, r.nextId + 1, b);
    var r1 := AddEntry(r, w, e1);
    InsertTwo(r, w, sub, sup, b);
    assert r1.lists[sub.eventType] == [e1];
    assert [e1][1..] == [] && !Covered([], e2, w);
    assert Covered([e1], e2, w) == Equals(e2, e1, w);
    SubtypeReflexive(w.classOf(owner));
    if ExactlyPrivate(sub.handler) {
      PrivateEqualsOnlyItself(e1, e2, w);
    }
  }

  lemma PrefixMembership<T>(s: seq<T>, t: seq<T>, x: T)
    requires IsPrefix(s, t) && x in s
    ensures x in t
  {
    var i :| 0 <= i < |s| && s[i] == x;
    assert t[i] == x;
  }

  lemma PrefixTransitive<T>(a: seq<T>, b: seq<T>, c: seq<T>)
    requires IsPrefix(a, b) && IsPrefix(b, c)
    ensures IsPrefix(a, c)
  {
    assert c[..|a|] == c[..|b|][..|a|];
  }

  /** The part of `register` after the owner is cached: discover, reject an
      empty result, insert. The owner stays cached when this throws. */
  function Bind(r: Registry, w: World, owner: ObjId, b: Binding): (s: Step)
    ensures s.outcome.Fail? ==> s.state == r
    ensures s.outcome.Pass? ==> s.state.strongCache == r.strongCache && s.state.weakCache == r.weakCache
    // succeeds exactly when discovery finds at least one method
    ensures s.outcome.Pass? <==>
      FindSubscribedMethods(w.classOf(owner)).Success? && |FindSubscribedMethods(w.classOf(owner)).value| > 0
    ensures s.outcome == Fail(NoSubscriberMethod) <==> FindSubscribedMethods(w.classOf(owner)) == Success([])
    // an ineligible handler method: discovery's exception propagates
    ensures FindSubscribedMethods(w.classOf(owner)).Failure? ==>
      s.outcome == Fail(IneligibleHandler(FindSubscribedMethods(w.classOf(owner)).error))
    ensures IsPrefix(r.keys, s.state.keys)
    ensures forall k | k in r.lists :: k in s.state.lists && IsPrefix(r.lists[k], s.state.lists[k])
  {
    match FindSubscribedMethods(w.classOf(owner))
    case Failure(e) => Step(r, Fail(IneligibleHandler(e)))
    case Success(cs) =>
      if |cs| == 0 then Step(r, Fail(NoSubscriberMethod))
      else
        InsertAppends(r, w, cs, b);
        Step(Insert(r, w, cs, b), Pass)
  }

  /** The weak branch of `register`: the scan of the weak cache drops the
      handles of collected referents it passes. */
  function RegisterWeak(r: Registry, w: World, owner: ObjId): (s: Step)
    ensures s.outcome == Fail(AlreadyRegistered) <==> exists h | h in r.weakCache :: LiveMatch(h, w, owner)
    ensures s.state.strongCache == r.strongCache
    ensures !(exists h | h in r.weakCache :: LiveMatch(h, w, owner)) ==>
      s.state.weakCache == ContainsWeak(r.weakCache, w, owner).cache + [Handle(r.nextId, owner)]
    ensures forall k | k in r.lists :: k in s.state.lists && IsPrefix(r.lists[k], s.state.lists[k])
    ensures IsPrefix(r.keys, s.state.keys)
    ensures s.outcome.Fail? ==> s.state.lists == r.lists && s.state.keys == r.keys
    // a live equal referent: only the purge of the cache scan remains
    ensures s.outcome == Fail(AlreadyRegistered) ==> s.state == r.(weakCache := ContainsWeak(r.weakCache, w, owner).cache)
    // otherwise the outcome is discovery's
    ensures !(exists h | h in r.weakCache :: LiveMatch(h, w, owner)) ==>
      && (s.outcome.Pass? <==>
            FindSubscribedMethods(w.classOf(owner)).Success? && |FindSubscribedMethods(w.classOf(owner)).value| > 0)
      && (s.outcome == Fail(NoSubscriberMethod) <==> FindSubscribedMethods(w.classOf(owner)) == Success([]))
      && (FindSubscribedMethods(w.classOf(owner)).Failure? ==>
            s.outcome == Fail(IneligibleHandler(FindSubscribedMethods(w.classOf(owner)).error)))
  {
    var scan := ContainsWeak(r.weakCache, w, owner);
    if scan.found then
      assert r.weakCache[scan.at] in r.weakCache;
      Step(r.(weakCache := scan.cache), Fail(AlreadyRegistered))
    else
      var h := Handle(r.nextId, owner);
      Bind(r.(weakCache := scan.cache + [h], nextId := r.nextId + 1), w, owner, WeakHandle(h))
  }

  /** The cache `register(owner, weak)` consults already holds an object
      equal to the owner (for the weak cache, a live one). */
  ghost predicate AlreadyIn(r: Registry, w: World, owner: ObjId, weak: bool) {
    if weak then exists h | h in r.weakCache :: LiveMatch(h, w, owner)
    else ContainsStrong(r.strongCache, w, owner)
  }

  /** `register(listener, weak)`. */
  function Register(r: Registry, w: World, owner: ObjId, weak: bool): (s: Step)
    // strong: throws iff an equal object is already cached; the weak cache is not consulted
    ensures !weak ==> (s.outcome == Fail(AlreadyRegistered) <==> ContainsStrong(r.strongCache, w, owner))
    ensures !weak && ContainsStrong(r.strongCache, w, owner) ==> s.state == r
    ensures !weak ==> s.state.weakCache == r.weakCache
    ensures !weak && !ContainsStrong(r.strongCache, w, owner) ==> s.state.strongCache == r.strongCache + [owner]
    // weak: throws iff a live referent equals the owner; the strong cache is not consulted
    ensures weak ==> (s.outcome == Fail(AlreadyRegistered) <==> exists h | h in r.weakCache :: LiveMatch(h, w, owner))
    ensures weak ==> s.state.strongCache == r.strongCache
    ensures weak && !(exists h | h in r.weakCache :: LiveMatch(h, w, owner)) ==>
      s.state.weakCache == ContainsWeak(r.weakCache, w, owner).cache + [Handle(r.nextId, owner)]
    // lists only grow, by appending
    ensures forall k | k in r.lists :: k in s.state.lists && IsPrefix(r.lists[k], s.state.lists[k])
    ensures IsPrefix(r.keys, s.state.keys)
    // nothing reaches the lists unless registration succeeds
    ensures s.outcome.Fail? ==> s.state.lists == r.lists && s.state.keys == r.keys
    // not registered yet: the outcome is discovery's
    ensures !AlreadyIn(r, w, owner, weak) ==>
      && (s.outcome.Pass? <==>
            FindSubscribedMethods(w.classOf(owner)).Success? && |FindSubscribedMethods(w.classOf(owner)).value| > 0)
      && (s.outcome == Fail(NoSubscriberMethod) <==> FindSubscribedMethods(w.classOf(owner)) == Success([]))
      && (FindSubscribedMethods(w.classOf(owner)).Failure? ==>
            s.outcome == Fail(IneligibleHandler(FindSubscribedMethods(w.classOf(owner)).error)))
  {
    if weak then RegisterWeak(r, w, owner)
    else if ContainsStrong(r.strongCache, w, owner) then
      Step(r, Fail(AlreadyRegistered))
    else
      Bind(r.(strongCache := r.strongCache + [owner]), w, owner, StrongTarget(owner))
  }

  // ---------------------------------------------------------------------
  // getSubscribers

  /** `getSubscribers(event)`: the list under the event's exact runtime
      type; null for a null event or an unseen type. */
  function GetSubscribers(r: Registry, w: World, event: Option<Event>): (s: Option<seq<Entry>>)
    ensures event.None? ==> s.None?
    ensures event.Some? ==> (s.Some? <==> EventClass(w, event.value).id in r.lists)
    ensures s.Some? ==> s.value == r.lists[EventClass(w, event.value).id]
    ensures Valid(r) && s.Some? ==> forall e | e in s.value :: e.eventType == EventClass(w, event.value).id
  {
    if event.None? then None
    else
      var k := EventClass(w, event.value).id;
      if k in r.lists then Some(r.lists[k]) else None
  }

  /** The registry `register(owner, weak)` inserts into once the owner is
      cached: weak registration also draws the handle's id. */
  function Cached(r: Registry, w: World, owner: ObjId, weak: bool): Registry {
    if weak then r.(weakCache := ContainsWeak(r.weakCache, w, owner).cache + [Handle(r.nextId, owner)], nextId := r.nextId + 1)
    else r.(strongCache := r.strongCache + [owner])
  }

  /** How `register(owner, weak)` binds the owner's entries. */
  function BindingOf(r: Registry, owner: ObjId, weak: bool): Binding {
    if weak then WeakHandle(Handle(r.nextId, owner)) else StrongTarget(owner)
  }

  /** A successful registration is the insertion of every discovered
      method into the registry with the owner cached. */
  lemma RegisterInserts(r: Registry, w: World, owner: ObjId, weak: bool)
    requires Register(r, w, owner, weak).outcome.Pass?
    ensures FindSubscribedMethods(w.classOf(owner)).Success?
    ensures Register(r, w, owner, weak).state ==
      Insert(Cached(r, w, owner, weak), w, FindSubscribedMethods(w.classOf(owner)).value, BindingOf(r, owner, weak))
  {
    if weak {
      RegisterWeakBinds(r, w, owner);
    }
  }

  /** After a successful registration, an event of any discovered type
      finds a subscriber list, and that list holds an entry equal to the
      one bound for the discovered method. */
  lemma SubscribersAfterRegister(r: Registry, w: World, owner: ObjId, weak: bool, i: nat, event: Event)
    requires Register(r, w, owner, weak).outcome.Pass?
    requires var cs := FindSubscribedMethods(w.classOf(owner));
      cs.Success? && i < |cs.value| && EventClass(w, event).id == cs.value[i].eventType
    ensures var l := GetSubscribers(Register(r, w, owner, weak).state, w, Some(event));
      var c := FindSubscribedMethods(w.classOf(owner)).value[i];
      && l.Some?
      && exists x | x in l.value ::
           Equals(BindEntry(c, Cached(r, w, owner, weak).nextId + i, BindingOf(r, owner, weak)), x, w)
  {
    var cs := FindSubscribedMethods(w.classOf(owner)).value;
    var r1 := Cached(r, w, owner, weak);
    var b := BindingOf(r, owner, weak);
    RegisterInserts(r, w, owner, weak);
    InsertCovers(r1, w, cs, b, i);
    SubscribersCover(Insert(r1, w, cs, b), w, event, BindEntry(cs[i], r1.nextId + i, b));
  }

  /** A list that covers an entry is what `getSubscribers` answers for an
      event of the entry's type. */
  lemma SubscribersCover(r: Registry, w: World, event: Event, e: Entry)
    requires EventClass(w, event).id in r.lists && Covered(r.lists[EventClass(w, event).id], e, w)
    ensures GetSubscribers(r, w, Some(event)).Some?
    ensures exists x | x in GetSubscribers(r, w, Some(event)).value :: Equals(e, x, w)
  {
    CoveredMeans(r.lists[EventClass(w, event).id], e, w);
  }

  // ---------------------------------------------------------------------
  // removeFromRegistry, deregister, removeWeakListener

  /** An entry the scan of `removeFromRegistry(listener, false)` removes:
      a weak entry whose referent is dead, or whose live referent equals the
      listener, or a strong entry whose target equals it. */
  predicate Swept(e: Entry, w: World, listener: Option<ObjId>) {
    match e.binding
    case Unbound => false
    case StrongTarget(t) => EqualsRef(w, t, listener)
    case WeakHandle(h) => h.referent !in w.alive || EqualsRef(w, h.referent, listener)
  }

  /** The entries of `s` that are not swept, in order. */
  function Survivors(s: seq<Entry>, w: World, listener: Option<ObjId>): (r: seq<Entry>)
    ensures |r| <= |s|
    ensures forall x | x in r :: x in s && !Swept(x, w, listener)
    ensures forall i | 0 <= i < |s| && !Swept(s[i], w, listener) :: s[i] in r
  {
    if |s| == 0 then []
    else
      var init := Survivors(s[..|s| - 1], w, listener);
      assert forall i | 0 <= i < |s| - 1 :: s[i] == s[..|s| - 1][i];
      if Swept(s[|s| - 1], w, listener) then init else init + [s[|s| - 1]]
  }

  datatype SweepResult = SweepResult(live: seq<Entry>, cache: seq<Handle>, npe: bool)

  /** The inner loop of `removeFromRegistry` over a snapshot of one list;
      `live` is the list being mutated, `cache` the weak cache. With
      `confirmedWeak`, every entry takes the weak path, and dereferencing
      the unset `weakListener` of a strong entry throws. */
  function SweepList(snap: seq<Entry>, i: nat, live: seq<Entry>, cache: seq<Handle>, w: World,
                     listener: Option<ObjId>, confirmedWeak: bool): (r: SweepResult)
    requires i <= |snap|
    decreases |snap| - i
    ensures forall x | x in r.live :: x in live
    ensures forall h | h in r.cache :: h in cache
    ensures HandlesDistinct(cache) ==> HandlesDistinct(r.cache)
  {
    if i == |snap| then SweepResult(live, cache, false)
    else
      var e := snap[i];
      if confirmedWeak || e.HoldWeakReference() then
        match e.binding
        case WeakHandle(h) =>
          if h.referent !in w.alive then
            SweepList(snap, i + 1, RemoveFirst(live, e, w), RemoveHandle(cache, h), w, listener, confirmedWeak)
          else if EqualsRef(w, h.referent, listener) then
            SweepList(snap, i + 1, RemoveFirst(live, e, w), cache, w, listener, confirmedWeak)
          else
            SweepList(snap, i + 1, live, cache, w, listener, confirmedWeak)
        case _ => SweepResult(live, cache, true)
      else
        match e.binding
        case StrongTarget(t) =>
          if EqualsRef(w, t, listener) then
            SweepList(snap, i + 1, RemoveFirst(live, e, w), cache, w, listener, confirmedWeak)
          else
            SweepList(snap, i + 1, live, cache, w, listener, confirmedWeak)
        case _ => SweepResult(live, cache, true)
  }

  /** The outer loop of `removeFromRegistry` over the event types from
      position `j` on; a null dereference ends the whole operation. */
  function SweepKeys(r: Registry, w: World, listener: Option<ObjId>, confirmedWeak: bool, j: nat): (s: Step)
    decreases |r.keys| - j
    ensures s.state.keys == r.keys && s.state.lists.Keys == r.lists.Keys
    ensures s.state.strongCache == r.strongCache && s.state.nextId == r.nextId
    ensures forall k | k in r.lists :: forall x | x in s.state.lists[k] :: x in r.lists[k]
    ensures forall h | h in s.state.weakCache :: h in r.weakCache
    ensures HandlesDistinct(r.weakCache) ==> HandlesDistinct(s.state.weakCache)
  {
    if j >= |r.keys| then Step(r, Pass)
    else
      var k := r.keys[j];
      if k !in r.lists then SweepKeys(r, w, listener, confirmedWeak, j + 1)
      else
        var res := SweepList(r.lists[k], 0, r.lists[k], r.weakCache, w, listener, confirmedWeak);
        var r' := r.(lists := r.lists[k := res.live], weakCache := res.cache);
        if res.npe then Step(r', Fail(NullDereference))
        else SweepKeys(r', w, listener, confirmedWeak, j + 1)
  }

  /** `removeFromRegistry(listener, confirmedWeak)`. */
  function RemoveFromRegistry(r: Registry, w: World, listener: Option<ObjId>, confirmedWeak: bool): Step {
    SweepKeys(r, w, listener, confirmedWeak, 0)
  }

  /** `deregister(listener)`: purge dead weak handles until a live one equal
      to the owner is found and removed; remove one equal object from the
      strong cache; then sweep the lists. */
  function Deregister(r: Registry, w: World, owner: ObjId): (s: Step)
    ensures s.state.keys == r.keys && s.state.lists.Keys == r.lists.Keys
    ensures s.state.strongCache == DeregisterStrong(r.strongCache, w, owner)
    ensures forall h | h in s.state.weakCache :: h in DeregisterWeak(r.weakCache, w, owner)
  {
    var r' := r.(weakCache := DeregisterWeak(r.weakCache, w, owner),
                 strongCache := DeregisterStrong(r.strongCache, w, owner));
    RemoveFromRegistry(r', w, Some(owner), false)
  }

  /** The weak-cache loop of `deregister`: purge dead handles until a live
      one whose referent equals the owner is found, and remove that one. */
  function DeregisterWeak(cache: seq<Handle>, w: World, owner: ObjId): (c: seq<Handle>)
    ensures forall h | h in c :: h in cache
    ensures HandlesDistinct(cache) ==> HandlesDistinct(c)
  {
    var scan := ScanWeak(cache, 0, cache, w, owner);
    if scan.found then RemoveHandle(scan.cache, cache[scan.at]) else scan.cache
  }

  /** The strong-cache loop of `deregister`: if some cached object equals
      the owner, remove the first cached object the owner equals. */
  function DeregisterStrong(cache: seq<ObjId>, w: World, owner: ObjId): (c: seq<ObjId>)
    ensures forall x | x in c :: x in cache
    ensures |c| >= |cache| - 1
  {
    if exists i | 0 <= i < |cache| :: w.equals(cache[i], owner)
    then RemoveObject(cache, w, owner) else cache
  }

  /** `removeWeakListener(weakRef)` as the source writes it: the sweep runs
      with `confirmedWeak` set. */
  function RemoveWeakListenerAsWritten(r: Registry, w: World, h: Handle): Step {
    RemoveFromRegistry(r.(weakCache := RemoveHandle(r.weakCache, h)), w, Deref(h, w), true)
  }

  /** `removeWeakListener(weakRef)` with the sweep taking the weak path only
      for weak entries, so strong entries are left alone. */
  function RemoveWeakListener(r: Registry, w: World, h: Handle): Step {
    RemoveFromRegistry(r.(weakCache := RemoveHandle(r.weakCache, h)), w, Deref(h, w), false)
  }

  /** The inner loop only removes: the list it leaves is a sub-multiset
      of the one it started from. */
  lemma {:induction false} SweepListShrinks(snap: seq<Entry>, i: nat, live: seq<Entry>, cache: seq<Handle>, w: World,
                                            listener: Option<ObjId>, confirmedWeak: bool)
    requires i <= |snap|
    decreases |snap| - i
    ensures multiset(SweepList(snap, i, live, cache, w, listener, confirmedWeak).live) <= multiset(live)
  {
    if i < |snap| {
      var e := snap[i];
      var r := SweepList(snap, i, live, cache, w, listener, confirmedWeak);
      if r.npe && r.live == live {
      } else {
        var next, cache' := SweepListStep(snap, i, live, cache, w, listener, confirmedWeak);
        SweepListShrinks(snap, i + 1, next, cache', w, listener, confirmedWeak);
        RemoveFirstShrinks(live, e, w);
      }
    }
  }

  /** One step of the inner loop that does not stop: it continues from the
      next position on `live`, with or without `snap[i]` removed. */
  lemma SweepListStep(snap: seq<Entry>, i: nat, live: seq<Entry>, cache: seq<Handle>, w: World,
                      listener: Option<ObjId>, confirmedWeak: bool) returns (next: seq<Entry>, cache': seq<Handle>)
    requires i < |snap|
    requires var r := SweepList(snap, i, live, cache, w, listener, confirmedWeak); !(r.npe && r.live == live)
    ensures next == live || next == RemoveFirst(live, snap[i], w)
    ensures SweepList(snap, i, live, cache, w, listener, confirmedWeak)
      == SweepList(snap, i + 1, next, cache', w, listener, confirmedWeak)
  {
    var e := snap[i];
    next, cache' := live, cache;
    if confirmedWeak || e.HoldWeakReference() {
      var h := e.binding.handle;
      if h.referent !in w.alive {
        next, cache' := RemoveFirst(live, e, w), RemoveHandle(cache, h);
      } else if EqualsRef(w, h.referent, listener) {
        next := RemoveFirst(live, e, w);
      }
    } else if EqualsRef(w, e.binding.target, listener) {
      next := RemoveFirst(live, e, w);
    }
  }

  /** The outer loop only removes: every list it leaves is a sub-multiset
      of the list before. */
  lemma {:induction false} SweepKeysShrinks(r: Registry, w: World, listener: Option<ObjId>, confirmedWeak: bool, j: nat)
    decreases |r.keys| - j
    ensures forall k | k in r.lists ::
      multiset(SweepKeys(r, w, listener, confirmedWeak, j).state.lists[k]) <= multiset(r.lists[k])
  {
    if j < |r.keys| {
      var k := r.keys[j];
      if k !in r.lists {
        SweepKeysShrinks(r, w, listener, confirmedWeak, j + 1);
      } else {
        var res := SweepList(r.lists[k], 0, r.lists[k], r.weakCache, w, listener, confirmedWeak);
        var r' := r.(lists := r.lists[k := res.live], weakCache := res.cache);
        SweepListShrinks(r.lists[k], 0, r.lists[k], r.weakCache, w, listener, confirmedWeak);
        if !res.npe {
          SweepKeysShrinks(r', w, listener, confirmedWeak, j + 1);
        }
      }
    }
  }

  /** `removeWeakListener` as written only removes entries from lists. */
  lemma RemoveWeakListenerAsWrittenShrinks(r: Registry, w: World, h: Handle)
    ensures forall k | k in r.lists ::
      multiset(RemoveWeakListenerAsWritten(r, w, h).state.lists[k]) <= multiset(r.lists[k])
  {
    SweepKeysShrinks(r.(weakCache := RemoveHandle(r.weakCache, h)), w, Deref(h, w), true, 0);
  }

  // ---------------------------------------------------------------------
  // Sweeping is filtering

  /** `h` is the handle of a weak entry of `s` whose referent is dead. */
  predicate DeadHandleIn(s: seq<Entry>, h: Handle, w: World) {
    exists j | 0 <= j < |s| :: IsDeadWeak(s[j], w) && s[j].binding.handle == h
  }

  lemma DeadHandleInCons(s: seq<Entry>, i: nat, h: Handle, w: World)
    requires i < |s|
    ensures DeadHandleIn(s[i..], h, w) <==>
      (IsDeadWeak(s[i], w) && s[i].binding.handle == h) || DeadHandleIn(s[i + 1..], h, w)
  {
    assert s[i..][0] == s[i];
    assert forall j | 1 <= j < |s[i..]| :: s[i..][j] == s[i + 1..][j - 1];
    if DeadHandleIn(s[i + 1..], h, w) {
      var j :| 0 <= j < |s[i + 1..]| && IsDeadWeak(s[i + 1..][j], w) && s[i + 1..][j].binding.handle == h;
      assert s[i..][j + 1] == s[i + 1..][j];
    }
  }

  /** Removing the first entry equal to `e` skips a prefix none of whose
      elements `e` equals, and then finds `e` itself. */
  lemma {:induction false} RemoveFirstSkips(a: seq<Entry>, e: Entry, b: seq<Entry>, w: World)
    requires forall x | x in a :: !Equals(e, x, w)
    ensures RemoveFirst(a + [e] + b, e, w) == a + b
  {
    if |a| == 0 {
      assert a + [e] + b == [e] + b;
      assert ([e] + b)[1..] == b;
    } else {
      assert (a + [e] + b)[0] == a[0];
      assert (a + [e] + b)[1..] == a[1..] + [e] + b;
      RemoveFirstSkips(a[1..], e, b, w);
      assert a + b == [a[0]] + (a[1..] + b);
    }
  }

  /** `Survivors` over one more element of a prefix. */
  lemma SurvivorsSnoc(s: seq<Entry>, i: nat, w: World, listener: Option<ObjId>)
    requires i < |s|
    ensures Survivors(s[..i + 1], w, listener) ==
      Survivors(s[..i], w, listener) + (if Swept(s[i], w, listener) then [] else [s[i]])
  {
    var t := s[..i + 1];
    assert t[..|t| - 1] == s[..i];
    assert t[|t| - 1] == s[i];
  }

  /** One step of the inner loop with `confirmedWeak` unset, on a bound
      entry: a swept entry is removed from the list, and a dead weak one
      also loses its handle. */
  lemma SweepStep(snap: seq<Entry>, i: nat, live: seq<Entry>, cache: seq<Handle>,
                  w: World, listener: Option<ObjId>)
    requires i < |snap| && !snap[i].binding.Unbound?
    ensures SweepList(snap, i, live, cache, w, listener, false) ==
      SweepList(snap, i + 1,
        if Swept(snap[i], w, listener) then RemoveFirst(live, snap[i], w) else live,
        if IsDeadWeak(snap[i], w) then RemoveHandle(cache, snap[i].binding.handle) else cache,
        w, listener, false)
  {
  }

  /** In a duplicate-free list, no survivor before position `i` equals the
      entry at `i`: a survivor is not a dead weak entry, and a dead weak
      entry equals no other entry that is not one. */
  lemma NoDupAhead(snap: seq<Entry>, i: nat, w: World, listener: Option<ObjId>)
    requires i < |snap| && NoDup(snap, w)
    ensures forall x | x in Survivors(snap[..i], w, listener) :: !Equals(snap[i], x, w)
  {
    forall x | x in Survivors(snap[..i], w, listener) ensures !Equals(snap[i], x, w) {
      assert x in snap[..i];
      var j :| 0 <= j < i && snap[..i][j] == x;
      assert snap[j] == x;
      if IsDeadWeak(snap[i], w) {
        if x.HoldWeakReference() {
          DeadNeverEqualsAlive(snap[i], x, w);
        } else {
          WeakNeverEqualsStrong(snap[i], x, w);
        }
      }
    }
  }

  /** Removing a swept entry from the partly swept list removes exactly
      that entry. */
  lemma SweptEntryRemoved(snap: seq<Entry>, i: nat, w: World, listener: Option<ObjId>)
    requires i < |snap| && NoDup(snap, w) && Swept(snap[i], w, listener)
    ensures RemoveFirst(Survivors(snap[..i], w, listener) + snap[i..], snap[i], w) ==
      Survivors(snap[..i + 1], w, listener) + snap[i + 1..]
  {
    var pre := Survivors(snap[..i], w, listener);
    NoDupAhead(snap, i, w, listener);
    RemoveFirstSkips(pre, snap[i], snap[i + 1..], w);
    assert snap[i..] == [snap[i]] + snap[i + 1..];
    assert pre + snap[i..] == pre + [snap[i]] + snap[i + 1..];
    SurvivorsSnoc(snap, i, w, listener);
    assert pre + [] == pre;
  }

  /** Passing over an entry that is not swept leaves the partly swept list
      as it is. */
  lemma KeptEntryStays(snap: seq<Entry>, i: nat, w: World, listener: Option<ObjId>)
    requires i < |snap| && !Swept(snap[i], w, listener)
    ensures Survivors(snap[..i], w, listener) + snap[i..] == Survivors(snap[..i + 1], w, listener) + snap[i + 1..]
  {
    var pre := Survivors(snap[..i], w, listener);
    SurvivorsSnoc(snap, i, w, listener);
    assert snap[i..] == [snap[i]] + snap[i + 1..];
    assert pre + ([snap[i]] + snap[i + 1..]) == (pre + [snap[i]]) + snap[i + 1..];
  }

  lemma {:induction false} SweepListLive(snap: seq<Entry>, i: nat, live: seq<Entry>, cache: seq<Handle>,
                                         w: World, listener: Option<ObjId>)
    requires i <= |snap|
    requires NoDup(snap, w) && AllBound(snap)
    requires live == Survivors(snap[..i], w, listener) + snap[i..]
    decreases |snap| - i
    ensures !SweepList(snap, i, live, cache, w, listener, false).npe
    ensures SweepList(snap, i, live, cache, w, listener, false).live == Survivors(snap, w, listener)
  {
    if i == |snap| {
      assert snap[..i] == snap;
      assert live == Survivors(snap, w, listener) + [];
    } else {
      var e := snap[i];
      SweepStep(snap, i, live, cache, w, listener);
      var cache' := if IsDeadWeak(e, w) then RemoveHandle(cache, e.binding.handle) else cache;
      if Swept(e, w, listener) {
        SweptEntryRemoved(snap, i, w, listener);
        var live' := RemoveFirst(live, e, w);
        assert live' == Survivors(snap[..i + 1], w, listener) + snap[i + 1..];
        assert SweepList(snap, i, live, cache, w, listener, false) == SweepList(snap, i + 1, live', cache', w, listener, false);
        SweepListLive(snap, i + 1, live', cache', w, listener);
      } else {
        KeptEntryStays(snap, i, w, listener);
        SweepListLive(snap, i + 1, live, cache', w, listener);
      }
    }
  }

  lemma {:induction false} SweepListCache(snap: seq<Entry>, i: nat, live: seq<Entry>, cache: seq<Handle>,
                                          w: World, listener: Option<ObjId>)
    requires i <= |snap|
    requires AllBound(snap)
    requires HandlesDistinct(cache)
    decreases |snap| - i
    ensures forall h :: h in SweepList(snap, i, live, cache, w, listener, false).cache <==>
      h in cache && !DeadHandleIn(snap[i..], h, w)
  {
    if i < |snap| {
      var e := snap[i];
      SweepStep(snap, i, live, cache, w, listener);
      var live' := if Swept(e, w, listener) then RemoveFirst(live, e, w) else live;
      var cache' := if IsDeadWeak(e, w) then RemoveHandle(cache, e.binding.handle) else cache;
      SweepListCache(snap, i + 1, live', cache', w, listener);
      forall h ensures DeadHandleIn(snap[i..], h, w) <==>
        (IsDeadWeak(e, w) && e.binding.handle == h) || DeadHandleIn(snap[i + 1..], h, w)
      {
        DeadHandleInCons(snap, i, h, w);
      }
    }
  }

  /** `h` is the handle of a dead weak entry in a list the outer loop
      reaches from position `j` on. */
  ghost predicate DeadHandleAhead(r: Registry, w: World, j: nat, h: Handle) {
    exists i | j <= i < |r.keys| :: r.keys[i] in r.lists && DeadHandleIn(r.lists[r.keys[i]], h, w)
  }

  /** Every list the outer loop reaches from position `j` on is present,
      duplicate-free and bound, and no later key repeats. */
  ghost predicate SweepReady(r: Registry, w: World, j: nat) {
    && (forall i | j <= i < |r.keys| :: r.keys[i] in r.lists && NoDup(r.lists[r.keys[i]], w) && AllBound(r.lists[r.keys[i]]))
    && (forall a, b | j <= a < b < |r.keys| :: r.keys[a] != r.keys[b])
  }

  /** One list of the outer loop, swept. */
  lemma SweepOneList(r: Registry, w: World, listener: Option<ObjId>, k: ClassId)
    requires k in r.lists && NoDup(r.lists[k], w) && AllBound(r.lists[k]) && HandlesDistinct(r.weakCache)
    ensures var res := SweepList(r.lists[k], 0, r.lists[k], r.weakCache, w, listener, false);
      && !res.npe
      && res.live == Survivors(r.lists[k], w, listener)
      && HandlesDistinct(res.cache)
      && forall h :: h in res.cache <==> h in r.weakCache && !DeadHandleIn(r.lists[k], h, w)
  {
    var l := r.lists[k];
    assert l[..0] == [] && l[0..] == l;
    assert Survivors([], w, listener) == [];
    SweepListLive(l, 0, l, r.weakCache, w, listener);
    SweepListCache(l, 0, l, r.weakCache, w, listener);
  }

  /** Replacing the list at position `j` leaves what the outer loop sees
      from `j + 1` on unchanged. */
  lemma SweepAheadFrame(r: Registry, r': Registry, w: World, j: nat, n: nat)
    requires j < |r.keys| && n == j + 1 && SweepReady(r, w, j)
    requires r'.keys == r.keys && r.keys[j] in r'.lists && r'.lists == r.lists[r.keys[j] := r'.lists[r.keys[j]]]
    ensures SweepReady(r', w, n)
    ensures forall h :: DeadHandleAhead(r', w, n, h) <==> DeadHandleAhead(r, w, n, h)
    ensures forall h :: DeadHandleAhead(r, w, j, h) <==>
      DeadHandleIn(r.lists[r.keys[j]], h, w) || DeadHandleAhead(r, w, n, h)
  {
    forall i | n <= i < |r.keys| ensures r'.lists[r.keys[i]] == r.lists[r.keys[i]] {
      assert r.keys[i] != r.keys[j];
    }
    forall h ensures DeadHandleAhead(r, w, j, h) ==>
      DeadHandleIn(r.lists[r.keys[j]], h, w) || DeadHandleAhead(r, w, n, h)
    {
      if DeadHandleAhead(r, w, j, h) {
        var i :| j <= i < |r.keys| && r.keys[i] in r.lists && DeadHandleIn(r.lists[r.keys[i]], h, w);
        if i > j { assert DeadHandleAhead(r, w, n, h); }
      }
    }
  }

  /** The registry after the outer loop has swept the list of `k`. */
  function SweptAt(r: Registry, w: World, listener: Option<ObjId>, k: ClassId): Registry
    requires k in r.lists
  {
    var res := SweepList(r.lists[k], 0, r.lists[k], r.weakCache, w, listener, false);
    r.(lists := r.lists[k := res.live], weakCache := res.cache)
  }

  /** One step of the outer loop over a ready registry: it sweeps the list
      at position `j` without throwing and carries on from `j + 1`. */
  lemma SweepKeysStep(r: Registry, w: World, listener: Option<ObjId>, j: nat)
    requires j < |r.keys| && SweepReady(r, w, j) && HandlesDistinct(r.weakCache)
    ensures var k := r.keys[j];
      && SweptAt(r, w, listener, k).lists[k] == Survivors(r.lists[k], w, listener)
      && HandlesDistinct(SweptAt(r, w, listener, k).weakCache)
      && SweepReady(SweptAt(r, w, listener, k), w, j + 1)
      && SweepKeys(r, w, listener, false, j) == SweepKeys(SweptAt(r, w, listener, k), w, listener, false, j + 1)
  {
    var k := r.keys[j];
    SweepOneList(r, w, listener, k);
    SweepAheadFrame(r, SweptAt(r, w, listener, k), w, j, j + 1);
  }

  /** Reference definition of the outer loop's effect on the lists: those
      of the event types in `ks` are replaced, in order, by their
      survivors. */
  function SweptLists(lists: map<ClassId, seq<Entry>>, ks: seq<ClassId>, w: World,
                      listener: Option<ObjId>): map<ClassId, seq<Entry>>
    decreases |ks|
  {
    if |ks| == 0 then lists
    else if ks[0] in lists then SweptLists(lists[ks[0] := Survivors(lists[ks[0]], w, listener)], ks[1..], w, listener)
    else SweptLists(lists, ks[1..], w, listener)
  }

  /** With no event type repeated, a list is swept once if its type is
      among `ks` and left alone otherwise. */
  lemma {:induction false} SweptListsAt(lists: map<ClassId, seq<Entry>>, ks: seq<ClassId>, w: World,
                                        listener: Option<ObjId>, k: ClassId)
    requires forall a, b | 0 <= a < b < |ks| :: ks[a] != ks[b]
    requires k in lists
    decreases |ks|
    ensures k in SweptLists(lists, ks, w, listener)
    ensures SweptLists(lists, ks, w, listener)[k] == if k in ks then Survivors(lists[k], w, listener) else lists[k]
  {
    if |ks| > 0 {
      var k0 := ks[0];
      var rest := ks[1..];
      var lists' := if k0 in lists then lists[k0 := Survivors(lists[k0], w, listener)] else lists;
      forall a, b | 0 <= a < b < |rest| ensures rest[a] != rest[b] {
        assert rest[a] == ks[a + 1] && rest[b] == ks[b + 1];
      }
      SweptListsAt(lists', rest, w, listener, k);
      assert ks == [k0] + rest;
      if k == k0 {
        forall a | 0 <= a < |rest| ensures rest[a] != k {
          assert rest[a] == ks[a + 1];
        }
      }
    }
  }

  /** The outer loop of `removeFromRegistry` with `confirmedWeak` unset
      completes and sweeps the lists as the reference definition says. */
  lemma {:induction false} SweepKeysLists(r: Registry, w: World, listener: Option<ObjId>, j: nat)
    requires j <= |r.keys| && SweepReady(r, w, j) && HandlesDistinct(r.weakCache)
    decreases |r.keys| - j
    ensures SweepKeys(r, w, listener, false, j).outcome == Pass
    ensures SweepKeys(r, w, listener, false, j).state.lists == SweptLists(r.lists, r.keys[j..], w, listener)
  {
    if j < |r.keys| {
      var k := r.keys[j];
      SweepKeysStep(r, w, listener, j);
      var r' := SweptAt(r, w, listener, k);
      SweepKeysLists(r', w, listener, j + 1);
      assert r'.lists == r.lists[k := Survivors(r.lists[k], w, listener)];
      assert r.keys[j..][0] == k && r.keys[j..][1..] == r.keys[j + 1..];
    } else {
      assert r.keys[j..] == [];
    }
  }

  /** The same loop removes from the weak cache exactly the handles of dead
      weak entries in the reached lists. */
  lemma {:induction false} SweepKeysCache(r: Registry, w: World, listener: Option<ObjId>, j: nat)
    requires j <= |r.keys| && SweepReady(r, w, j) && HandlesDistinct(r.weakCache)
    decreases |r.keys| - j
    ensures forall h :: h in SweepKeys(r, w, listener, false, j).state.weakCache <==>
      h in r.weakCache && !DeadHandleAhead(r, w, j, h)
  {
    if j < |r.keys| {
      var k := r.keys[j];
      SweepKeysStep(r, w, listener, j);
      SweepOneList(r, w, listener, k);
      var r' := SweptAt(r, w, listener, k);
      SweepAheadFrame(r, r', w, j, j + 1);
      SweepKeysCache(r', w, listener, j + 1);
    }
  }

  /** A list of a valid, duplicate-free registry is ready for the outer
      loop from position 0. */
  lemma ValidIsSweepReady(r: Registry, w: World)
    requires Valid(r) && NoDupAll(r, w)
    ensures SweepReady(r, w, 0)
  {
    forall i | 0 <= i < |r.keys| ensures r.keys[i] in r.lists { assert r.keys[i] in r.keys; }
  }

  /** `removeFromRegistry(listener, false)` on a valid, duplicate-free
      registry completes and leaves each list holding exactly its survivors;
      the weak cache loses exactly the handles of dead weak entries. */
  lemma RemoveFromRegistryFilters(r: Registry, w: World, listener: Option<ObjId>)
    requires Valid(r) && NoDupAll(r, w)
    ensures var s := RemoveFromRegistry(r, w, listener, false);
      && s.outcome == Pass
      && (forall k | k in r.lists :: s.state.lists[k] == Survivors(r.lists[k], w, listener))
      && forall h :: h in s.state.weakCache <==>
           h in r.weakCache && !exists k | k in r.lists :: DeadHandleIn(r.lists[k], h, w)
  {
    ValidIsSweepReady(r, w);
    SweepKeysLists(r, w, listener, 0);
    SweepKeysCache(r, w, listener, 0);
    assert r.keys[0..] == r.keys;
    forall k | k in r.lists ensures RemoveFromRegistry(r, w, listener, false).state.lists[k] == Survivors(r.lists[k], w, listener) {
      SweptListsAt(r.lists, r.keys, w, listener, k);
    }
    forall h ensures DeadHandleAhead(r, w, 0, h) <==> exists k | k in r.lists :: DeadHandleIn(r.lists[k], h, w) {
      if exists k | k in r.lists :: DeadHandleIn(r.lists[k], h, w) {
        var k :| k in r.lists && DeadHandleIn(r.lists[k], h, w);
        var i :| 0 <= i < |r.keys| && r.keys[i] == k;
      }
    }
  }

  /** `deregister(owner)` on a valid, duplicate-free registry never throws
      and leaves every list holding exactly the entries that neither belong
      to the owner (strong target or live referent equal to it) nor are dead
      weak entries, in their original order. No event type disappears. */
  lemma DeregisterFilters(r: Registry, w: World, owner: ObjId)
    requires Valid(r) && NoDupAll(r, w)
    ensures var s := Deregister(r, w, owner);
      && s.outcome == Pass
      && s.state.keys == r.keys
      && forall k | k in r.lists :: s.state.lists[k] == Survivors(r.lists[k], w, Some(owner))
  {
    var r' := r.(weakCache := DeregisterWeak(r.weakCache, w, owner),
                 strongCache := DeregisterStrong(r.strongCache, w, owner));
    RemoveFromRegistryFilters(r', w, Some(owner));
  }

  /** Nothing is swept from a list none of whose entries is swept. */
  lemma SurvivorsOfUnsweptList(s: seq<Entry>, w: World, listener: Option<ObjId>)
    requires forall i | 0 <= i < |s| :: !Swept(s[i], w, listener)
    ensures Survivors(s, w, listener) == s
  {
    UnsweptPrefixSurvives(s, |s|, w, listener);
    assert s[..|s|] == s;
  }

  /** The prefix form of `SurvivorsOfUnsweptList`, by induction on its
      length. */
  lemma {:induction false} UnsweptPrefixSurvives(s: seq<Entry>, n: nat, w: World, listener: Option<ObjId>)
    requires n <= |s|
    requires forall i | 0 <= i < |s| :: !Swept(s[i], w, listener)
    decreases n
    ensures Survivors(s[..n], w, listener) == s[..n]
  {
    if n > 0 {
      UnsweptPrefixSurvives(s, n - 1, w, listener);
      SurvivorsSnoc(s, n - 1, w, listener);
      assert s[..n] == s[..n - 1] + [s[n - 1]];
    } else {
      assert s[..n] == [];
    }
  }

  /** `deregister` of an owner that owns no entry, in a registry without
      dead weak entries, leaves every list as it was. */
  lemma DeregisterUnknownOwner(r: Registry, w: World, owner: ObjId)
    requires Valid(r) && NoDupAll(r, w)
    requires forall k, x | k in r.lists && x in r.lists[k] :: !Swept(x, w, Some(owner))
    ensures Deregister(r, w, owner).outcome == Pass
    ensures Deregister(r, w, owner).state.lists == r.lists
  {
    DeregisterFilters(r, w, owner);
    var s := Deregister(r, w, owner).state;
    forall k | k in r.lists ensures s.lists[k] == r.lists[k] {
      var l := r.lists[k];
      forall i | 0 <= i < |l| ensures !Swept(l[i], w, Some(owner)) {
        assert l[i] in l;
      }
      SurvivorsOfUnsweptList(l, w, Some(owner));
    }
    assert s.lists.Keys == r.lists.Keys;
  }

  /** What the sweep with a null listener removes: exactly the dead weak
      entries. */
  lemma SweptByNull(e: Entry, w: World)
    requires !e.binding.Unbound?
    ensures Swept(e, w, None) <==> IsDeadWeak(e, w)
  {
  }

  /** `removeWeakListener` (corrected) on a valid, duplicate-free registry:
      for a collected referent it never throws and removes exactly the dead
      weak entries from every list, in order. */
  lemma RemoveWeakListenerFilters(r: Registry, w: World, h: Handle)
    requires Valid(r) && NoDupAll(r, w)
    requires h.referent !in w.alive
    ensures var s := RemoveWeakListener(r, w, h);
      && s.outcome == Pass
      && (forall k | k in r.lists :: s.state.lists[k] == Survivors(r.lists[k], w, None))
      && (forall k, x | k in r.lists && x in s.state.lists[k] :: !IsDeadWeak(x, w))
      && h !in s.state.weakCache
  {
    var r' := r.(weakCache := RemoveHandle(r.weakCache, h));
    assert Valid(r');
    RemoveFromRegistryFilters(r', w, None);
  }

  // ---------------------------------------------------------------------
  // removeWeakListener as written

  /** Some list the outer loop reaches from position `j` holds an entry
      that is not weakly bound. */
  ghost predicate NonWeakAhead(r: Registry, j: nat) {
    exists i | j <= i < |r.keys| :: NonWeakAt(r, i)
  }

  /** The list under the `i`-th key holds an entry that is not weakly bound. */
  ghost predicate NonWeakAt(r: Registry, i: nat)
    requires i < |r.keys|
  {
    r.keys[i] in r.lists && exists x | x in r.lists[r.keys[i]] :: !x.HoldWeakReference()
  }

  /** With `confirmedWeak` set, the inner loop throws exactly when some
      entry from position `i` on is not weakly bound. */
  lemma {:induction false} ConfirmedWeakSweepThrows(snap: seq<Entry>, i: nat, live: seq<Entry>, cache: seq<Handle>,
                                                    w: World, listener: Option<ObjId>)
    requires i <= |snap|
    decreases |snap| - i
    ensures SweepList(snap, i, live, cache, w, listener, true).npe <==>
      exists j | i <= j < |snap| :: !snap[j].HoldWeakReference()
  {
    if i < |snap| && snap[i].HoldWeakReference() {
      var h := snap[i].binding.handle;
      var live' := if h.referent !in w.alive || EqualsRef(w, h.referent, listener) then RemoveFirst(live, snap[i], w) else live;
      var cache' := if h.referent !in w.alive then RemoveHandle(cache, h) else cache;
      assert SweepList(snap, i, live, cache, w, listener, true) == SweepList(snap, i + 1, live', cache', w, listener, true);
      ConfirmedWeakSweepThrows(snap, i + 1, live', cache', w, listener);
    }
  }

  /** The whole-list form of `ConfirmedWeakSweepThrows`. */
  lemma ConfirmedWeakListThrows(l: seq<Entry>, cache: seq<Handle>, w: World, listener: Option<ObjId>)
    ensures SweepList(l, 0, l, cache, w, listener, true).npe <==> exists x | x in l :: !x.HoldWeakReference()
  {
    ConfirmedWeakSweepThrows(l, 0, l, cache, w, listener);
    if exists x | x in l :: !x.HoldWeakReference() {
      var x :| x in l && !x.HoldWeakReference();
      var jx :| 0 <= jx < |l| && l[jx] == x;
    }
  }

  /** `NonWeakAhead` unrolled by one key, across a step that leaves the
      later keys' lists alone. */
  lemma NonWeakAheadStep(r: Registry, r': Registry, j: nat)
    requires j < |r.keys| && r'.keys == r.keys
    requires forall i | j + 1 <= i < |r.keys| :: (r.keys[i] in r'.lists <==> r.keys[i] in r.lists)
    requires forall i | j + 1 <= i < |r.keys| && r.keys[i] in r.lists :: r'.lists[r.keys[i]] == r.lists[r.keys[i]]
    ensures NonWeakAhead(r, j) <==> NonWeakAt(r, j) || NonWeakAhead(r', j + 1)
  {
    if NonWeakAhead(r', j + 1) {
      var i :| j + 1 <= i < |r.keys| && NonWeakAt(r', i);
      assert NonWeakAt(r, i);
    }
    if NonWeakAhead(r, j) && !NonWeakAt(r, j) {
      var i :| j <= i < |r.keys| && NonWeakAt(r, i);
      assert NonWeakAt(r', i);
    }
  }

  lemma {:induction false} ConfirmedWeakKeysThrow(r: Registry, w: World, listener: Option<ObjId>, j: nat)
    requires j <= |r.keys|
    requires forall a, b | j <= a < b < |r.keys| :: r.keys[a] != r.keys[b]
    decreases |r.keys| - j
    ensures SweepKeys(r, w, listener, true, j).outcome == Fail(NullDereference) <==> NonWeakAhead(r, j)
  {
    if j < |r.keys| {
      var k := r.keys[j];
      if k !in r.lists {
        ConfirmedWeakKeysThrow(r, w, listener, j + 1);
        NonWeakAheadStep(r, r, j);
      } else {
        var l := r.lists[k];
        var res := SweepList(l, 0, l, r.weakCache, w, listener, true);
        ConfirmedWeakListThrows(l, r.weakCache, w, listener);
        if res.npe {
          assert NonWeakAt(r, j);
        } else {
          var r' := r.(lists := r.lists[k := res.live], weakCache := res.cache);
          ConfirmedWeakKeysThrow(r', w, listener, j + 1);
          forall i | j + 1 <= i < |r.keys| ensures r.keys[i] != k {
          }
          NonWeakAheadStep(r, r', j);
          assert SweepKeys(r, w, listener, true, j) == SweepKeys(r', w, listener, true, j + 1);
        }
      }
    }
  }

  /** Some list of `r` holds a strongly bound entry. */
  ghost predicate HoldsStrong(r: Registry) {
    exists k, x | k in r.lists && x in r.lists[k] :: x.binding.StrongTarget?
  }

  /** `removeWeakListener` as written throws `NullPointerException` exactly
      when some list holds a strongly bound entry, whatever the handle. */
  lemma RemoveWeakListenerAsWrittenThrows(r: Registry, w: World, h: Handle)
    requires Valid(r)
    ensures RemoveWeakListenerAsWritten(r, w, h).outcome == Fail(NullDereference) <==>
      exists k, x | k in r.lists && x in r.lists[k] :: x.binding.StrongTarget?
  {
    var r' := r.(weakCache := RemoveHandle(r.weakCache, h));
    ConfirmedWeakKeysThrow(r', w, Deref(h, w), 0);
    if exists k, x | k in r.lists && x in r.lists[k] :: x.binding.StrongTarget? {
      var k, x :| k in r.lists && x in r.lists[k] && x.binding.StrongTarget?;
      var i :| 0 <= i < |r.keys| && r.keys[i] == k;
      assert NonWeakAt(r', i);
    }
  }

  /** On a snapshot whose remaining entries are all weakly bound, setting
      `confirmedWeak` changes nothing. */
  lemma {:induction false} WeakSnapshotSweepsAlike(snap: seq<Entry>, i: nat, live: seq<Entry>, cache: seq<Handle>,
                                                   w: World, listener: Option<ObjId>)
    requires i <= |snap|
    requires forall j | i <= j < |snap| :: snap[j].HoldWeakReference()
    decreases |snap| - i
    ensures SweepList(snap, i, live, cache, w, listener, true) == SweepList(snap, i, live, cache, w, listener, false)
  {
    if i < |snap| {
      var h := snap[i].binding.handle;
      var live' := if h.referent !in w.alive || EqualsRef(w, h.referent, listener) then RemoveFirst(live, snap[i], w) else live;
      var cache' := if h.referent !in w.alive then RemoveHandle(cache, h) else cache;
      assert SweepList(snap, i, live, cache, w, listener, true) == SweepList(snap, i + 1, live', cache', w, listener, true);
      assert SweepList(snap, i, live, cache, w, listener, false) == SweepList(snap, i + 1, live', cache', w, listener, false);
      WeakSnapshotSweepsAlike(snap, i + 1, live', cache', w, listener);
    }
  }

  /** Every entry of every list is weakly bound. */
  ghost predicate AllWeak(r: Registry) {
    forall k, x | k in r.lists && x in r.lists[k] :: x.HoldWeakReference()
  }

  /** The outer loop over a registry of weak entries only: setting
      `confirmedWeak` changes nothing. */
  lemma {:induction false} WeakRegistrySweepsAlike(r: Registry, w: World, listener: Option<ObjId>, j: nat)
    requires AllWeak(r)
    decreases |r.keys| - j
    ensures SweepKeys(r, w, listener, true, j) == SweepKeys(r, w, listener, false, j)
  {
    if j < |r.keys| {
      var k := r.keys[j];
      if k in r.lists {
        var l := r.lists[k];
        AllWeakAt(r, k);
        WeakSnapshotSweepsAlike(l, 0, l, r.weakCache, w, listener);
        var res := SweepList(l, 0, l, r.weakCache, w, listener, false);
        var r' := r.(lists := r.lists[k := res.live], weakCache := res.cache);
        SweptListStaysWeak(r, k, res.live);
        WeakRegistrySweepsAlike(r', w, listener, j + 1);
        SweepKeysAt(r, w, listener, true, j);
        SweepKeysAt(r, w, listener, false, j);
      } else {
        WeakRegistrySweepsAlike(r, w, listener, j + 1);
      }
    }
  }

  /** The entries of one list of an all-weak registry, by position. */
  lemma AllWeakAt(r: Registry, k: ClassId)
    requires AllWeak(r) && k in r.lists
    ensures forall j | 0 <= j < |r.lists[k]| :: r.lists[k][j].HoldWeakReference()
  {
  }

  /** One step of the outer loop at a present key. */
  lemma SweepKeysAt(r: Registry, w: World, listener: Option<ObjId>, confirmedWeak: bool, j: nat)
    requires j < |r.keys| && r.keys[j] in r.lists
    ensures var k := r.keys[j];
      var res := SweepList(r.lists[k], 0, r.lists[k], r.weakCache, w, listener, confirmedWeak);
      var r' := r.(lists := r.lists[k := res.live], weakCache := res.cache);
      SweepKeys(r, w, listener, confirmedWeak, j) ==
        if res.npe then Step(r', Fail(NullDereference)) else SweepKeys(r', w, listener, confirmedWeak, j + 1)
  {
  }

  /** Replacing a list by a sublist keeps every entry weakly bound. */
  lemma SweptListStaysWeak(r: Registry, k: ClassId, l: seq<Entry>)
    requires AllWeak(r) && k in r.lists
    requires forall x | x in l :: x in r.lists[k]
    ensures AllWeak(r.(lists := r.lists[k := l]))
  {
  }

  /** Without strongly bound entries, `removeWeakListener` as written does
      exactly what the corrected version does. */
  lemma RemoveWeakListenerAsWrittenAgrees(r: Registry, w: World, h: Handle)
    requires Valid(r)
    requires forall k, x | k in r.lists && x in r.lists[k] :: !x.binding.StrongTarget?
    ensures RemoveWeakListenerAsWritten(r, w, h) == RemoveWeakListener(r, w, h)
  {
    var r' := r.(weakCache := RemoveHandle(r.weakCache, h));
    forall k, x | k in r'.lists && x in r'.lists[k] ensures x.HoldWeakReference() {
      var i :| 0 <= i < |r.lists[k]| && r.lists[k][i] == x;
    }
    WeakRegistrySweepsAlike(r', w, Deref(h, w), 0);
  }

  /** Without strongly bound entries, `removeWeakListener` as written
      completes and no list keeps the collected entry it was called for. */
  lemma RemoveWeakListenerAsWrittenRemoves(r: Registry, w: World, e: Entry)
    requires Valid(r) && NoDupAll(r, w) && !HoldsStrong(r)
    requires IsDeadWeak(e, w)
    ensures RemoveWeakListenerAsWritten(r, w, e.binding.handle).outcome == Pass
    ensures forall k | k in RemoveWeakListenerAsWritten(r, w, e.binding.handle).state.lists ::
      e !in RemoveWeakListenerAsWritten(r, w, e.binding.handle).state.lists[k]
  {
    var h := e.binding.handle;
    RemoveWeakListenerAsWrittenAgrees(r, w, h);
    RemoveWeakListenerFilters(r, w, h);
    var swept := RemoveWeakListener(r, w, h).state;
    assert Swept(e, w, None);
    forall k | k in swept.lists ensures e !in swept.lists[k] {
      assert swept.lists[k] == Survivors(r.lists[k], w, None);
    }
  }

  /** A concrete registry showing the discrepancy: event type 5 has a
      strong entry for owner 1 followed by a weak entry whose owner 2 has
      been collected. */
  const CollectedWorld := World({1}, (x: ObjId, y: ObjId) => x == y, (x: ObjId) => ObjectClass)
  const CollectedHandle := Handle(3, 2)
  const StrongOfOne := Entry(0, Method("on", 1, 7), 5, false, StrongTarget(1))
  const WeakOfTwo := Entry(4, Method("on", 1, 8), 5, false, WeakHandle(CollectedHandle))
  const MixedRegistry := Registry(map[5 := [StrongOfOne, WeakOfTwo]], [5], [1], [CollectedHandle], 5)

  /** Sweeping the dead owner as written throws on the strong entry and
      leaves the dead entry registered. */
  lemma DeadWeakEntrySurvivesAsWritten()
    ensures RemoveWeakListenerAsWritten(MixedRegistry, CollectedWorld, CollectedHandle).outcome == Fail(NullDereference)
    ensures WeakOfTwo in RemoveWeakListenerAsWritten(MixedRegistry, CollectedWorld, CollectedHandle).state.lists[5]
  {
    var r := MixedRegistry;
    var w := CollectedWorld;
    var h := CollectedHandle;
    var r' := r.(weakCache := RemoveHandle(r.weakCache, h));
    assert r'.lists == r.lists;
    var res := SweepList(r.lists[5], 0, r.lists[5], r'.weakCache, w, Deref(h, w), true);
    assert res.npe && res.live == r.lists[5];
    assert RemoveWeakListenerAsWritten(r, w, h).state.lists == r.lists;
  }

  /** The same entries in the other order: the sweep as written reaches the
      dead entry first and removes it, then throws on the strong entry. */
  const WeakFirstRegistry := Registry(map[5 := [WeakOfTwo, StrongOfOne]], [5], [1], [CollectedHandle], 5)

  lemma DeadWeakEntryRemovedBeforeThrowAsWritten()
    ensures RemoveWeakListenerAsWritten(WeakFirstRegistry, CollectedWorld, CollectedHandle).outcome == Fail(NullDereference)
    ensures RemoveWeakListenerAsWritten(WeakFirstRegistry, CollectedWorld, CollectedHandle).state.lists[5] == [StrongOfOne]
  {
    var r := WeakFirstRegistry;
    var w := CollectedWorld;
    var h := CollectedHandle;
    var r' := r.(weakCache := RemoveHandle(r.weakCache, h));
    assert r'.lists == r.lists;
    var l := [WeakOfTwo, StrongOfOne];
    assert r.lists[5] == l;
    assert Equals(WeakOfTwo, WeakOfTwo, w);
    assert RemoveFirst(l, WeakOfTwo, w) == [StrongOfOne];
    var rest := SweepList(l, 1, [StrongOfOne], RemoveHandle(r'.weakCache, h), w, Deref(h, w), true);
    assert rest.npe && rest.live == [StrongOfOne];
    assert SweepList(l, 0, l, r'.weakCache, w, Deref(h, w), true) == rest;
  }

  /** The corrected sweep removes the dead entry and keeps the strong one. */
  lemma DeadWeakEntryRemoved()
    ensures RemoveWeakListener(MixedRegistry, CollectedWorld, CollectedHandle).outcome == Pass
    ensures RemoveWeakListener(MixedRegistry, CollectedWorld, CollectedHandle).state.lists[5] == [StrongOfOne]
  {
    var r := MixedRegistry;
    var w := CollectedWorld;
    var a, b := StrongOfOne, WeakOfTwo;
    assert Valid(r);
    assert NoDupAll(r, w);
    RemoveWeakListenerFilters(r, w, CollectedHandle);
    assert Survivors([a, b], w, None) == [a] by {
      assert [a, b][..1] == [a];
      assert Survivors([a], w, None) == [a] by {
        assert [a][..0] == [];
        assert [] + [a] == [a];
      }
    }
  }

  // ---------------------------------------------------------------------
  // Invariants preserved

  lemma EmptyIsValid(w: World)
    ensures Valid(Empty) && NoDupAll(Empty, w) && StrongCacheDistinct(Empty, w)
  {
  }

  lemma AddEntryPreservesValid(r: Registry, w: World, e: Entry)
    requires Valid(r) && !e.binding.Unbound?
    ensures Valid(AddEntry(r, w, e))
  {
    var k := e.eventType;
    var r' := AddEntry(r, w, e);
    if k !in r.lists {
      assert k !in r.keys;
      AppendKeyDistinct(r.keys, k);
    }
    forall k' | k' in r'.lists ensures AllBound(r'.lists[k']) && forall x | x in r'.lists[k'] :: x.eventType == k' {
      if k' == k && k in r.lists && !Covered(r.lists[k], e, w) {
        assert r'.lists[k] == r.lists[k] + [e];
      }
    }
  }

  /** Appending a new key keeps the key order free of repetition. */
  lemma AppendKeyDistinct(keys: seq<ClassId>, k: ClassId)
    requires k !in keys && forall i, j | 0 <= i < j < |keys| :: keys[i] != keys[j]
    ensures forall i, j | 0 <= i < j < |keys + [k]| :: (keys + [k])[i] != (keys + [k])[j]
  {
    forall i, j | 0 <= i < j < |keys + [k]| ensures (keys + [k])[i] != (keys + [k])[j] {
      if j == |keys| { assert keys[i] in keys; }
    }
  }

  lemma {:induction false} InsertPreservesValid(r: Registry, w: World, cs: seq<Candidate>, b: Binding)
    requires Valid(r) && !b.Unbound?
    decreases |cs|
    ensures Valid(Insert(r, w, cs, b))
  {
    if |cs| > 0 {
      var r1 := AddEntry(r, w, BindEntry(cs[0], r.nextId, b));
      AddEntryPreservesValid(r, w, BindEntry(cs[0], r.nextId, b));
      InsertPreservesValid(r1, w, cs[1..], b);
    }
  }

  lemma BindPreservesValid(r: Registry, w: World, owner: ObjId, b: Binding)
    requires Valid(r) && !b.Unbound?
    ensures Valid(Bind(r, w, owner, b).state)
  {
    if FindSubscribedMethods(w.classOf(owner)).Success? {
      InsertPreservesValid(r, w, FindSubscribedMethods(w.classOf(owner)).value, b);
    }
  }

  /** A fresh handle appended to a purged weak cache keeps the shape. */
  lemma FreshHandleValid(r: Registry, c: seq<Handle>, h: Handle)
    requires Valid(r) && HandlesDistinct(c) && forall x | x in c :: x in r.weakCache
    requires h.hid == r.nextId
    ensures Valid(r.(weakCache := c + [h], nextId := r.nextId + 1))
  {
    var c' := c + [h];
    assert h !in c;
    forall i, j | 0 <= i < j < |c'| ensures c'[i] != c'[j] {
      if j == |c| { assert c[i] in c; }
    }
  }

  /** A weak `register` that finds no live match binds under a fresh
      handle appended to the purged cache. */
  lemma RegisterWeakBinds(r: Registry, w: World, owner: ObjId)
    requires !ContainsWeak(r.weakCache, w, owner).found
    ensures var h := Handle(r.nextId, owner);
      RegisterWeak(r, w, owner) ==
      Bind(r.(weakCache := ContainsWeak(r.weakCache, w, owner).cache + [h], nextId := r.nextId + 1), w, owner, WeakHandle(h))
  {
  }

  /** `register` keeps the registry's shape: in particular the new weak
      handle is distinct from every cached one. */
  lemma RegisterPreservesValid(r: Registry, w: World, owner: ObjId, weak: bool)
    requires Valid(r)
    ensures Valid(Register(r, w, owner, weak).state)
  {
    if weak {
      var scan := ContainsWeak(r.weakCache, w, owner);
      if !scan.found {
        var h := Handle(r.nextId, owner);
        var r' := r.(weakCache := scan.cache + [h], nextId := r.nextId + 1);
        FreshHandleValid(r, scan.cache, h);
        BindPreservesValid(r', w, owner, WeakHandle(h));
        RegisterWeakBinds(r, w, owner);
      }
    } else if !ContainsStrong(r.strongCache, w, owner) {
      var r' := r.(strongCache := r.strongCache + [owner]);
      BindPreservesValid(r', w, owner, StrongTarget(owner));
      assert Register(r, w, owner, weak) == Bind(r', w, owner, StrongTarget(owner));
    }
  }

  lemma SweepKeysPreservesValid(r: Registry, w: World, listener: Option<ObjId>, confirmedWeak: bool)
    requires Valid(r)
    ensures Valid(SweepKeys(r, w, listener, confirmedWeak, 0).state)
  {
    var s := SweepKeys(r, w, listener, confirmedWeak, 0).state;
    forall k | k in s.lists ensures AllBound(s.lists[k]) {
      forall j | 0 <= j < |s.lists[k]| ensures !s.lists[k][j].binding.Unbound? {
        assert s.lists[k][j] in r.lists[k];
      }
    }
  }

  /** `deregister` keeps the registry's shape. */
  lemma DeregisterPreservesValid(r: Registry, w: World, owner: ObjId)
    requires Valid(r)
    ensures Valid(Deregister(r, w, owner).state)
  {
    var r' := r.(weakCache := DeregisterWeak(r.weakCache, w, owner),
                 strongCache := DeregisterStrong(r.strongCache, w, owner));
    SweepKeysPreservesValid(r', w, Some(owner), false);
  }

  /** Both versions of `removeWeakListener` keep the registry's shape. */
  lemma RemoveWeakListenerPreservesValid(r: Registry, w: World, h: Handle)
    requires Valid(r)
    ensures Valid(RemoveWeakListener(r, w, h).state)
    ensures Valid(RemoveWeakListenerAsWritten(r, w, h).state)
  {
    var r' := r.(weakCache := RemoveHandle(r.weakCache, h));
    SweepKeysPreservesValid(r', w, Deref(h, w), false);
    SweepKeysPreservesValid(r', w, Deref(h, w), true);
  }

  /** Appending an entry only when no equal one is present keeps a list
      duplicate-free, provided owner equality is symmetric (so that the
      one-directional `contains` check also excludes the other direction). */
  lemma AddEntryPreservesNoDup(r: Registry, w: World, e: Entry)
    requires NoDupAll(r, w) && EqualsIsSymmetric(w)
    ensures NoDupAll(AddEntry(r, w, e), w)
  {
    var k := e.eventType;
    var r' := AddEntry(r, w, e);
    if k in r.lists && !Covered(r.lists[k], e, w) {
      var l := r.lists[k];
      CoveredMeans(l, e, w);
      forall i, j | 0 <= i < |r'.lists[k]| && 0 <= j < |r'.lists[k]| && i != j
        ensures NotDuplicates(r'.lists[k][i], r'.lists[k][j], w)
      {
        if i == |l| {
          assert l[j] in l;
        } else if j == |l| {
          assert l[i] in l;
          EqualsSymmetric(l[i], e, w);
        }
      }
    }
  }

  lemma {:induction false} InsertPreservesNoDup(r: Registry, w: World, cs: seq<Candidate>, b: Binding)
    requires NoDupAll(r, w) && EqualsIsSymmetric(w)
    decreases |cs|
    ensures NoDupAll(Insert(r, w, cs, b), w)
  {
    if |cs| > 0 {
      var e := BindEntry(cs[0], r.nextId, b);
      AddEntryPreservesNoDup(r, w, e);
      InsertPreservesNoDup(AddEntry(r, w, e), w, cs[1..], b);
    }
  }

  lemma BindPreservesNoDup(r: Registry, w: World, owner: ObjId, b: Binding)
    requires NoDupAll(r, w) && EqualsIsSymmetric(w)
    ensures NoDupAll(Bind(r, w, owner, b).state, w)
  {
    if FindSubscribedMethods(w.classOf(owner)).Success? {
      InsertPreservesNoDup(r, w, FindSubscribedMethods(w.classOf(owner)).value, b);
    }
  }

  /** `register` never puts two equal entries in one list. */
  lemma RegisterPreservesNoDup(r: Registry, w: World, owner: ObjId, weak: bool)
    requires NoDupAll(r, w) && EqualsIsSymmetric(w)
    ensures NoDupAll(Register(r, w, owner, weak).state, w)
  {
    if weak {
      var scan := ContainsWeak(r.weakCache, w, owner);
      if !scan.found {
        var h := Handle(r.nextId, owner);
        BindPreservesNoDup(r.(weakCache := scan.cache + [h], nextId := r.nextId + 1), w, owner, WeakHandle(h));
        RegisterWeakBinds(r, w, owner);
      }
    } else if !ContainsStrong(r.strongCache, w, owner) {
      var r' := r.(strongCache := r.strongCache + [owner]);
      BindPreservesNoDup(r', w, owner, StrongTarget(owner));
      assert Register(r, w, owner, weak) == Bind(r', w, owner, StrongTarget(owner));
    }
  }

  /** A prefix of a duplicate-free list is duplicate-free. */
  lemma NoDupPrefix(s: seq<Entry>, n: nat, w: World)
    requires n <= |s| && NoDup(s, w)
    ensures NoDup(s[..n], w)
  {
    var init := s[..n];
    forall i, j | 0 <= i < |init| && 0 <= j < |init| && i != j ensures NotDuplicates(init[i], init[j], w) {
      assert init[i] == s[i] && init[j] == s[j];
    }
  }

  /** Appending an entry unequal to every element, in both directions,
      keeps a list duplicate-free. */
  lemma NoDupSnoc(t: seq<Entry>, x: Entry, w: World)
    requires NoDup(t, w)
    requires forall y | y in t :: !Equals(x, y, w) && !Equals(y, x, w)
    ensures NoDup(t + [x], w)
  {
    var t' := t + [x];
    forall i, j | 0 <= i < |t'| && 0 <= j < |t'| && i != j ensures NotDuplicates(t'[i], t'[j], w) {
      if i == |t| {
        assert t[j] in t;
      } else if j == |t| {
        assert t[i] in t;
      } else {
        assert t'[i] == t[i] && t'[j] == t[j];
      }
    }
  }

  /** The survivors of a duplicate-free list are duplicate-free. */
  lemma {:induction false} SurvivorsPreserveNoDup(s: seq<Entry>, w: World, listener: Option<ObjId>)
    requires NoDup(s, w)
    ensures NoDup(Survivors(s, w, listener), w)
  {
    if |s| > 0 {
      var n := |s| - 1;
      var init := s[..n];
      NoDupPrefix(s, n, w);
      SurvivorsPreserveNoDup(init, w, listener);
      var t := Survivors(init, w, listener);
      if !Swept(s[n], w, listener) {
        forall x | x in t ensures !Equals(s[n], x, w) && !Equals(x, s[n], w) {
          var j :| 0 <= j < n && init[j] == x;
          assert s[j] == x;
        }
        NoDupSnoc(t, s[n], w);
      }
    }
  }

  /** `deregister` never introduces equal entries into a duplicate-free
      registry. */
  lemma DeregisterPreservesNoDup(r: Registry, w: World, owner: ObjId)
    requires Valid(r) && NoDupAll(r, w)
    ensures NoDupAll(Deregister(r, w, owner).state, w)
  {
    DeregisterFilters(r, w, owner);
    forall k | k in r.lists ensures NoDup(Survivors(r.lists[k], w, Some(owner)), w) {
      SurvivorsPreserveNoDup(r.lists[k], w, Some(owner));
    }
  }

  /** Equality is relative to one moment: two weak entries of distinct
      live owners with the same signature are unequal, and become equal
      once both owners are collected. The list stays duplicate-free, as
      dead weak entries are exempt. */
  lemma CollectionMergesDeadEntries()
    ensures
      var w := World({1, 2}, (x: ObjId, y: ObjId) => x == y, (x: ObjId) => ObjectClass);
      var a := Entry(0, Method("on", 1, 7), 5, false, WeakHandle(Handle(3, 1)));
      var b := Entry(4, Method("on", 1, 7), 5, false, WeakHandle(Handle(5, 2)));
      && !Equals(a, b, w)
      && Equals(a, b, Collect(w, {1, 2}))
      && NoDup([a, b], w)
      && NoDup([a, b], Collect(w, {1, 2}))
  {
    var w := World({1, 2}, (x: ObjId, y: ObjId) => x == y, (x: ObjId) => ObjectClass);
    var a := Entry(0, Method("on", 1, 7), 5, false, WeakHandle(Handle(3, 1)));
    var b := Entry(4, Method("on", 1, 7), 5, false, WeakHandle(Handle(5, 2)));
    assert !Equals(a, b, w) && !Equals(b, a, w);
  }

  /** Collection keeps a list duplicate-free: an entry that is not dead
      weak afterwards was not before, and equality between such entries
      does not depend on other objects' liveness. */
  lemma CollectionPreservesNoDup(s: seq<Entry>, w: World, dead: set<ObjId>)
    requires NoDup(s, w)
    ensures NoDup(s, Collect(w, dead))
  {
    var w' := Collect(w, dead);
    forall i, j | 0 <= i < |s| && 0 <= j < |s| && i != j ensures NotDuplicates(s[i], s[j], w') {
      if !IsDeadWeak(s[i], w') && !IsDeadWeak(s[j], w') {
        assert NotDuplicates(s[i], s[j], w);
        assert !IsDeadWeak(s[i], w) && !IsDeadWeak(s[j], w);
        assert Equals(s[i], s[j], w') == Equals(s[i], s[j], w);
      }
    }
  }

  /** The registry-wide form of `CollectionPreservesNoDup`. */
  lemma CollectionPreservesNoDupAll(r: Registry, w: World, dead: set<ObjId>)
    requires NoDupAll(r, w)
    ensures NoDupAll(r, Collect(w, dead))
  {
    forall k | k in r.lists ensures NoDup(r.lists[k], Collect(w, dead)) {
      CollectionPreservesNoDup(r.lists[k], w, dead);
    }
  }

  /** An entry found at position `p` and nowhere else occurs once. */
  lemma OccursOnlyAt(s: seq<Entry>, p: nat, x: Entry)
    requires p < |s| && s[p] == x
    requires forall q | 0 <= q < |s| && q != p :: s[q] != x
    ensures multiset(s)[x] == 1
  {
    var before, after := s[..p], s[p + 1..];
    assert s == before + [x] + after;
    assert x !in before by {
      forall q | 0 <= q < |before| ensures before[q] != x { assert before[q] == s[q]; }
    }
    assert x !in after by {
      forall q | 0 <= q < |after| ensures after[q] != x { assert after[q] == s[p + 1 + q]; }
    }
  }

  /** In a duplicate-free list every entry occurs at most once. */
  lemma NoDupOccursOnce(s: seq<Entry>, w: World, x: Entry)
    requires NoDup(s, w)
    ensures multiset(s)[x] <= 1
  {
    if x in s {
      var p :| 0 <= p < |s| && s[p] == x;
      forall q | 0 <= q < |s| && q != p ensures s[q] != x {
        assert NotDuplicates(s[q], s[p], w);
      }
      OccursOnlyAt(s, p, x);
    }
  }

  /** An entry at two distinct positions occurs at least twice. */
  lemma OccursTwice(t: seq<Entry>, i: nat, j: nat)
    requires i < j < |t|
    ensures t[i] == t[j] ==> multiset(t)[t[i]] >= 2
  {
    assert t == t[..j] + [t[j]] + t[j + 1..];
    assert t[..j][i] == t[i];
  }

  /** Dropping entries keeps a list duplicate-free: a sub-multiset of a
      duplicate-free list is duplicate-free. */
  lemma SubMultisetNoDup(s: seq<Entry>, t: seq<Entry>, w: World)
    requires NoDup(s, w) && multiset(t) <= multiset(s)
    ensures NoDup(t, w)
  {
    forall i, j | 0 <= i < |t| && 0 <= j < |t| && i != j ensures NotDuplicates(t[i], t[j], w) {
      if i < j { OccursTwice(t, i, j); } else { OccursTwice(t, j, i); }
      NoDupOccursOnce(s, w, t[i]);
      assert t[i] in multiset(t) && t[j] in multiset(t);
      var a :| 0 <= a < |s| && s[a] == t[i];
      var b :| 0 <= b < |s| && s[b] == t[j];
      assert NotDuplicates(s[a], s[b], w);
    }
  }

  // ---------------------------------------------------------------------
  // The caches after deregister

  /** `remove(o)` on the strong cache deletes exactly position `j`, the
      first whose object `o` equals. */
  lemma {:induction false} RemoveObjectDeletesFirst(s: seq<ObjId>, w: World, o: ObjId, j: nat)
    requires j < |s| && w.equals(o, s[j])
    requires forall i | 0 <= i < j :: !w.equals(o, s[i])
    ensures RemoveObject(s, w, o) == s[..j] + s[j + 1..]
  {
    if j == 0 {
      assert s[..0] + s[1..] == s[1..];
    } else {
      var t := s[1..];
      FirstEqualInTail(s, w, o, j);
      RemoveObjectDeletesFirst(t, w, o, j - 1);
      assert RemoveObject(s, w, o) == [s[0]] + RemoveObject(t, w, o);
      DeleteAfterCons(s, j - 1);
    }
  }

  /** The first position `o` equals, past the head, is one earlier in the
      tail. */
  lemma FirstEqualInTail(s: seq<ObjId>, w: World, o: ObjId, j: nat)
    requires 0 < j < |s| && w.equals(o, s[j])
    requires forall i | 0 <= i < j :: !w.equals(o, s[i])
    ensures w.equals(o, s[1..][j - 1])
    ensures forall i | 0 <= i < j - 1 :: !w.equals(o, s[1..][i])
  {
    forall i | 0 <= i < j - 1 ensures !w.equals(o, s[1..][i]) {
      assert s[1..][i] == s[i + 1];
    }
  }

  /** Deleting position `j` of the tail and putting the head back is
      deleting position `j + 1`. */
  lemma DeleteAfterCons<T>(s: seq<T>, j: nat)
    requires j + 1 < |s|
    ensures [s[0]] + (s[1..][..j] + s[1..][j + 1..]) == s[..j + 1] + s[j + 2..]
  {
    assert s[..j + 1] == [s[0]] + s[1..][..j];
    assert s[j + 2..] == s[1..][j + 1..];
  }

  /** Deleting one position keeps a sequence free of equal pairs. */
  lemma DeletePreservesUnequal(c: seq<ObjId>, w: World, j: nat)
    requires j < |c| && Unequal(c, w)
    ensures Unequal(c[..j] + c[j + 1..], w)
  {
    var t := c[..j] + c[j + 1..];
    forall a, b | 0 <= a < |t| && 0 <= b < |t| && a != b ensures !w.equals(t[a], t[b]) {
      var a' := if a < j then a else a + 1;
      var b' := if b < j then b else b + 1;
      assert t[a] == c[a'] && t[b] == c[b'];
    }
  }

  /** In a sequence free of equal pairs, under an equivalence, at most one
      position holds an object equal to `o`. */
  lemma OnlyOneEqual(c: seq<ObjId>, w: World, o: ObjId, j: nat)
    requires EqualsIsEquivalence(w) && Unequal(c, w)
    requires j < |c| && w.equals(o, c[j])
    ensures forall q | 0 <= q < |c| && q != j :: !w.equals(o, c[q])
  {
    forall q | 0 <= q < |c| && q != j ensures !w.equals(o, c[q]) {
      assert !w.equals(c[j], c[q]);
      assert w.equals(c[j], o);
    }
  }

  /** Deleting the only position equal to `o` leaves none. */
  lemma DeleteOnlyEqual(c: seq<ObjId>, w: World, o: ObjId, j: nat)
    requires j < |c| && forall q | 0 <= q < |c| && q != j :: !w.equals(o, c[q])
    ensures !ContainsStrong(c[..j] + c[j + 1..], w, o)
  {
    var t := c[..j] + c[j + 1..];
    forall p | 0 <= p < |t| ensures !w.equals(o, t[p]) {
      if p >= j {
        assert t[p] == c[p + 1];
      } else {
        assert t[p] == c[p];
      }
    }
  }

  /** `deregister` on a strong cache in which position `j` holds the only
      object equal to the owner deletes exactly that position. */
  lemma StrongRemovedAt(c: seq<ObjId>, w: World, owner: ObjId, j: nat)
    requires Unequal(c, w) && j < |c| && w.equals(c[j], owner) && w.equals(owner, c[j])
    requires forall q | 0 <= q < |c| && q != j :: !w.equals(owner, c[q])
    ensures DeregisterStrong(c, w, owner) == c[..j] + c[j + 1..]
    ensures !ContainsStrong(DeregisterStrong(c, w, owner), w, owner)
    ensures Unequal(DeregisterStrong(c, w, owner), w)
  {
    RemoveObjectDeletesFirst(c, w, owner, j);
    DeletePreservesUnequal(c, w, j);
    DeleteOnlyEqual(c, w, owner, j);
  }

  /** The strong cache after `deregister(owner)`: one object equal to the
      owner is gone and, when owner equality is an equivalence and the cache
      held no equal pair, no object equal to the owner is left and still no
      two cached objects are equal. */
  lemma DeregisterClearsStrong(c: seq<ObjId>, w: World, owner: ObjId)
    requires EqualsIsEquivalence(w) && Unequal(c, w)
    ensures !ContainsStrong(DeregisterStrong(c, w, owner), w, owner)
    ensures ContainsStrong(c, w, owner) ==> |DeregisterStrong(c, w, owner)| == |c| - 1
    ensures Unequal(DeregisterStrong(c, w, owner), w)
  {
    if exists i | 0 <= i < |c| :: w.equals(c[i], owner) {
      var i :| 0 <= i < |c| && w.equals(c[i], owner);
      assert w.equals(owner, c[i]);
      OnlyOneEqual(c, w, owner, i);
      StrongRemovedAt(c, w, owner, i);
    } else {
      forall p | 0 <= p < |c| ensures !w.equals(owner, c[p]) {
        assert !w.equals(c[p], owner);
      }
    }
  }

  /** `deregister` keeps the strong cache free of equal pairs and, under an
      equivalence, leaves no cached object equal to the owner. */
  lemma DeregisterClearsStrongCache(r: Registry, w: World, owner: ObjId)
    requires EqualsIsEquivalence(w) && StrongCacheDistinct(r, w)
    ensures !ContainsStrong(Deregister(r, w, owner).state.strongCache, w, owner)
    ensures StrongCacheDistinct(Deregister(r, w, owner).state, w)
  {
    DeregisterClearsStrong(r.strongCache, w, owner);
  }

  /** The weak cache after `deregister(owner)`: no live handle whose
      referent equals the owner is left, provided owner equality is an
      equivalence and no two live handles had equal referents. */
  lemma DeregisterClearsWeak(c: seq<Handle>, w: World, owner: ObjId)
    requires HandlesDistinct(c) && EqualsIsEquivalence(w) && LiveDistinct(c, w)
    ensures forall h | h in DeregisterWeak(c, w, owner) :: !LiveMatch(h, w, owner)
  {
    var scan := ScanWeak(c, 0, c, w, owner);
    forall h | h in DeregisterWeak(c, w, owner) ensures !LiveMatch(h, w, owner) {
      var p :| 0 <= p < |c| && c[p] == h;
      if scan.found {
        var m := c[scan.at];
        assert h != m;
        assert LiveMatch(m, w, owner);
        assert !(m.referent in w.alive && LiveMatch(h, w, m.referent));
      } else {
        assert p < scan.at;
      }
    }
  }

  lemma DeregisterClearsWeakCache(r: Registry, w: World, owner: ObjId)
    requires Valid(r) && EqualsIsEquivalence(w) && WeakCacheDistinct(r, w)
    ensures forall h | h in Deregister(r, w, owner).state.weakCache :: !LiveMatch(h, w, owner)
    ensures WeakCacheDistinct(Deregister(r, w, owner).state, w)
  {
    DeregisterClearsWeak(r.weakCache, w, owner);
  }

  /** Strong `register` keeps the strong cache free of equal pairs when
      owner equality is symmetric; weak `register` does not touch it. */
  lemma RegisterPreservesStrongCacheDistinct(r: Registry, w: World, owner: ObjId, weak: bool)
    requires EqualsIsSymmetric(w) && StrongCacheDistinct(r, w)
    ensures StrongCacheDistinct(Register(r, w, owner, weak).state, w)
  {
    var s := Register(r, w, owner, weak).state;
    if !weak && !ContainsStrong(r.strongCache, w, owner) {
      var c := r.strongCache;
      assert s.strongCache == c + [owner];
      forall a, b | 0 <= a < |s.strongCache| && 0 <= b < |s.strongCache| && a != b
        ensures !w.equals(s.strongCache[a], s.strongCache[b])
      {
        if a == |c| {
          assert !w.equals(owner, c[b]);
        } else if b == |c| {
          assert !w.equals(owner, c[a]);
        } else {
          assert s.strongCache[a] == c[a] && s.strongCache[b] == c[b];
        }
      }
    }
  }

  /** Weak `register` keeps live referents pairwise unequal when owner
      equality is symmetric; strong `register` does not touch the weak cache. */
  lemma RegisterPreservesWeakCacheDistinct(r: Registry, w: World, owner: ObjId, weak: bool)
    requires Valid(r) && EqualsIsSymmetric(w) && WeakCacheDistinct(r, w)
    ensures WeakCacheDistinct(Register(r, w, owner, weak).state, w)
  {
    var scan := ContainsWeak(r.weakCache, w, owner);
    if weak && !scan.found {
      var h := Handle(r.nextId, owner);
      FreshHandleLiveDistinct(r.weakCache, scan.cache, w, h);
      RegisterWeakBinds(r, w, owner);
    }
  }

  /** Appending a handle whose referent no live cached handle equals to a
      sub-cache keeps live referents pairwise unequal. */
  lemma FreshHandleLiveDistinct(c: seq<Handle>, purged: seq<Handle>, w: World, h: Handle)
    requires LiveDistinct(c, w) && EqualsIsSymmetric(w)
    requires forall x | x in purged :: x in c
    requires forall j | 0 <= j < |c| :: !LiveMatch(c[j], w, h.referent)
    ensures LiveDistinct(purged + [h], w)
  {
    var c' := purged + [h];
    forall h1, h2 | h1 in c' && h2 in c' && h1 != h2
      ensures !(h1.referent in w.alive && LiveMatch(h2, w, h1.referent))
    {
      if h1 == h {
        var p :| 0 <= p < |c| && c[p] == h2;
        assert !LiveMatch(c[p], w, h.referent);
      } else if h2 == h {
        var p :| 0 <= p < |c| && c[p] == h1;
        assert !LiveMatch(c[p], w, h.referent);
      }
    }
  }

  /** After `deregister(owner)`, registering the same owner again, in either
      mode, is not refused as a repeat. */
  lemma DeregisterThenRegister(r: Registry, w: World, owner: ObjId, weak: bool)
    requires Valid(r) && EqualsIsEquivalence(w) && StrongCacheDistinct(r, w) && WeakCacheDistinct(r, w)
    ensures Register(Deregister(r, w, owner).state, w, owner, weak).outcome != Fail(AlreadyRegistered)
  {
    DeregisterClearsStrongCache(r, w, owner);
    DeregisterClearsWeakCache(r, w, owner);
  }
}

