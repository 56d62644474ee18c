/** Handler discovery (`ReflectionUtil.findSubscribedMethods`) over an
    abstract class hierarchy: which declared methods are collected, the two
    shape errors, and the fixed traversal order (own methods, superclass,
    interfaces). */
module ReflectionUtil {
  import opened Base
  import opened Classes
  import opened ListenerMethod

  /** Why an annotated method is rejected. */
  datatype Shape = WrongParameterCount | ArrayParameter

  /** The `JBusException` discovery throws, naming the offending method. */
  datatype DiscoveryError = Ineligible(methodName: string, shape: Shape)

  /** A freshly built `ListenerMethod` before the registry binds it to an
      owner: method, event type (the sole parameter type) and mode. */
  datatype Candidate = Candidate(handler: Method, eventType: ClassId, async: bool)

  /** A declared method together with the class that declares it. */
  datatype Declared = Declared(owner: ClassId, decl: MethodDecl)

  /** Annotated with `@Subscribe` and neither bridge nor synthetic. */
  predicate Collects(d: MethodDecl) {
    d.annotation.Some? && !d.bridge && !d.synthetic
  }

  /** The shape check applied to a collected method, in source order:
      the parameter count first, then array or varargs. */
  function ShapeError(d: MethodDecl): (r: Option<Shape>)
    ensures r == Some(WrongParameterCount) <==> |d.params| != 1
    ensures r == Some(ArrayParameter) <==> |d.params| == 1 && (d.params[0].isArray || d.varArgs)
    ensures r.None? <==> |d.params| == 1 && !d.params[0].isArray && !d.varArgs
  {
    if |d.params| != 1 then Some(WrongParameterCount)
    else if d.params[0].isArray || d.varArgs then Some(ArrayParameter)
    else None
  }

  predicate Eligible(d: MethodDecl) {
    Collects(d) && ShapeError(d).None?
  }

  /** The entry built for an eligible method: its event type is the sole
      parameter type and its mode is the annotation's `async` flag. */
  function ToCandidate(x: Declared): (c: Candidate)
    requires Eligible(x.decl)
    ensures c.eventType == x.decl.params[0].paramType
    ensures c.async == x.decl.annotation.value.async
    ensures c.handler == Method(x.decl.name, x.decl.modifiers, x.owner)
  {
    Candidate(Method(x.decl.name, x.decl.modifiers, x.owner), x.decl.params[0].paramType, x.decl.annotation.value.async)
  }

  /** The collected methods of `ds`, in order. */
  function Collected(ds: seq<Declared>): seq<Declared> {
    if |ds| == 0 then [] else (if Collects(ds[0].decl) then [ds[0]] else []) + Collected(ds[1..])
  }

  /** `cs` holds, position by position, the entry built from each collected
      method of `ds`, so multiplicities and order are fixed too. */
  predicate BuiltFromCollected(ds: seq<Declared>, cs: seq<Candidate>) {
    var col := Collected(ds);
    && |cs| == |col|
    && forall n | 0 <= n < |cs| :: Eligible(col[n].decl) && cs[n] == ToCandidate(col[n])
  }

  /** The inner loop over a sequence of declared methods: collect eligible
      ones in order, throw at the first collected method of the wrong shape. */
  function Scan(ds: seq<Declared>): (r: Result<seq<Candidate>, DiscoveryError>)
    ensures r.Success? <==> (forall j | 0 <= j < |ds| :: Collects(ds[j].decl) ==> ShapeError(ds[j].decl).None?)
    ensures r.Failure? ==>
      exists j | 0 <= j < |ds| ::
        && Collects(ds[j].decl)
        && ShapeError(ds[j].decl).Some?
        && r.error == Ineligible(ds[j].decl.name, ShapeError(ds[j].decl).value)
        && (forall k | 0 <= k < j :: Collects(ds[k].decl) ==> ShapeError(ds[k].decl).None?)
    ensures r.Success? ==> |r.value| == |Collected(ds)|
    ensures r.Success? ==>
      forall c | c in r.value :: exists j | 0 <= j < |ds| :: Eligible(ds[j].decl) && c == ToCandidate(ds[j])
    ensures r.Success? ==>
      forall j | 0 <= j < |ds| && Collects(ds[j].decl) :: ToCandidate(ds[j]) in r.value
  {
    if |ds| == 0 then Success([])
    else
      var d := ds[0].decl;
      if !Collects(d) then
        var r := Scan(ds[1..]);
        assert forall j | 1 <= j < |ds| :: ds[j] == ds[1..][j - 1];
        r
      else match ShapeError(d)
        case Some(s) => Failure(Ineligible(d.name, s))
        case None =>
          match Scan(ds[1..])
          case Failure(e) =>
            assert forall j | 1 <= j < |ds| :: ds[j] == ds[1..][j - 1];
            Failure(e)
          case Success(rest) =>
            assert forall j | 1 <= j < |ds| :: ds[j] == ds[1..][j - 1];
            Success([ToCandidate(ds[0])] + rest)
  }

  /** A successful scan yields, position by position, the entry built from
      each collected method. */
  lemma {:induction false} ScanBuildsFromCollected(ds: seq<Declared>)
    ensures Scan(ds).Success? ==> BuiltFromCollected(ds, Scan(ds).value)
  {
    if |ds| > 0 {
      ScanBuildsFromCollected(ds[1..]);
      var col := Collected(ds);
      if Collects(ds[0].decl) && Scan(ds).Success? {
        assert col == [ds[0]] + Collected(ds[1..]);
        var rest := Scan(ds[1..]).value;
        assert Scan(ds).value == [ToCandidate(ds[0])] + rest;
        forall n | 1 <= n < |col| ensures col[n] == Collected(ds[1..])[n - 1] { }
      } else if Scan(ds).Success? {
        assert col == Collected(ds[1..]);
      }
    }
  }

  /** The class's own declared methods, tagged with the class. */
  function Own(c: Class): (ds: seq<Declared>)
    ensures |ds| == |c.declared|
    ensures forall i | 0 <= i < |ds| :: ds[i] == Declared(c.id, c.declared[i])
  {
    seq(|c.declared|, i requires 0 <= i < |c.declared| => Declared(c.id, c.declared[i]))
  }

  /** The superclass is searched unless it is absent or `Object`. */
  predicate VisitsSuper(c: Class) {
    c.superclass.Some? && c.superclass.value.id != OBJECT
  }

  /** `findSubscribedMethods(subscribedClass)` for a non-null class: own
      methods, then the superclass's result, then each interface's result. */
  function FindSubscribedMethods(c: Class): Result<seq<Candidate>, DiscoveryError>
    decreases c, 1, 0
  {
    var own :- Scan(Own(c));
    var sup :- if VisitsSuper(c) then FindSubscribedMethods(c.superclass.value) else Success([]);
    var ifs :- FromInterfaces(c, 0);
    Success(own + sup + ifs)
  }

  /** The results for `c.interfaces[i..]`, concatenated in order. */
  function FromInterfaces(c: Class, i: nat): Result<seq<Candidate>, DiscoveryError>
    decreases c, 0, |c.interfaces| - i
  {
    if i >= |c.interfaces| then Success([])
    else
      var head :- FindSubscribedMethods(c.interfaces[i]);
      var tail :- FromInterfaces(c, i + 1);
      Success(head + tail)
  }

  /** `findSubscribedMethods` on a possibly null class. */
  function FindSubscribedMethodsOf(c: Option<Class>): (r: Result<seq<Candidate>, DiscoveryError>)
    ensures c.None? ==> r == Success([])
    ensures c.Some? ==> r == FindSubscribedMethods(c.value)
  {
    if c.None? then Success([]) else FindSubscribedMethods(c.value)
  }

  // ---------------------------------------------------------------------
  // Reference definition: flatten the hierarchy, then scan once.

  /** Every declared method the search visits, in visiting order. */
  function Traversal(c: Class): seq<Declared>
    decreases c, 1, 0
  {
    Own(c) + (if VisitsSuper(c) then Traversal(c.superclass.value) else []) + TraversalFrom(c, 0)
  }

  function TraversalFrom(c: Class, i: nat): seq<Declared>
    decreases c, 0, |c.interfaces| - i
  {
    if i >= |c.interfaces| then [] else Traversal(c.interfaces[i]) + TraversalFrom(c, i + 1)
  }

  /** Scanning a concatenation: the first part's error wins, then the second
      part's, and on success the results concatenate. */
  lemma {:induction false} ScanAppend(a: seq<Declared>, b: seq<Declared>)
    ensures Scan(a + b) ==
      match Scan(a)
      case Failure(e) => Failure(e)
      case Success(x) =>
        match Scan(b)
        case Failure(e) => Failure(e)
        case Success(y) => Success(x + y)
  {
    if |a| == 0 {
      assert a + b == b;
      match Scan(b) {
        case Failure(e) =>
        case Success(y) => assert [] + y == y;
      }
    } else {
      assert (a + b)[0] == a[0];
      assert (a + b)[1..] == a[1..] + b;
      ScanAppend(a[1..], b);
      if Eligible(a[0].decl) {
        match Scan(a[1..]) {
          case Failure(e) =>
          case Success(x) =>
            match Scan(b) {
              case Failure(e) =>
              case Success(y) =>
                assert [ToCandidate(a[0])] + (x + y) == ([ToCandidate(a[0])] + x) + y;
            }
        }
      }
    }
  }

  /** The recursive search computes exactly the one-pass scan of the
      flattened hierarchy. */
  lemma {:induction false} FindIsScanOfTraversal(c: Class)
    ensures FindSubscribedMethods(c) == Scan(Traversal(c))
    decreases c, 1, 0
  {
    var sup := if VisitsSuper(c) then Traversal(c.superclass.value) else [];
    if VisitsSuper(c) {
      FindIsScanOfTraversal(c.superclass.value);
    }
    FromInterfacesIsScan(c, 0);
    ScanAppend(Own(c), sup);
    ScanAppend(Own(c) + sup, TraversalFrom(c, 0));
    match Scan(Own(c)) {
      case Failure(e) =>
      case Success(x) =>
        match Scan(sup) {
          case Failure(e) =>
          case Success(y) =>
            match Scan(TraversalFrom(c, 0)) {
              case Failure(e) =>
              case Success(z) =>
            }
        }
    }
  }

  lemma {:induction false} FromInterfacesIsScan(c: Class, i: nat)
    ensures FromInterfaces(c, i) == Scan(TraversalFrom(c, i))
    decreases c, 0, |c.interfaces| - i
  {
    if i < |c.interfaces| {
      FindIsScanOfTraversal(c.interfaces[i]);
      FromInterfacesIsScan(c, i + 1);
      ScanAppend(Traversal(c.interfaces[i]), TraversalFrom(c, i + 1));
    }
  }

  /** What discovery promises, stated over the visiting order: it throws iff
      some collected method anywhere in the hierarchy has the wrong shape,
      and then names the first such method; otherwise it returns one entry
      per collected method, each built from an eligible method. */
  lemma Discovery(c: Class)
    ensures var r := FindSubscribedMethods(c); var t := Traversal(c);
      && (r.Success? <==> forall j | 0 <= j < |t| :: Collects(t[j].decl) ==> ShapeError(t[j].decl).None?)
      && (r.Failure? ==>
            exists j | 0 <= j < |t| ::
              && Collects(t[j].decl)
              && ShapeError(t[j].decl).Some?
              && r.error == Ineligible(t[j].decl.name, ShapeError(t[j].decl).value)
              && (forall k | 0 <= k < j :: Collects(t[k].decl) ==> ShapeError(t[k].decl).None?))
      && (r.Success? ==> |r.value| == |Collected(t)|)
      && (r.Success? ==> BuiltFromCollected(t, r.value))
      && (r.Success? ==> forall x | x in r.value :: exists j | 0 <= j < |t| :: Eligible(t[j].decl) && x == ToCandidate(t[j]))
  {
    FindIsScanOfTraversal(c);
    ScanBuildsFromCollected(Traversal(c));
  }

  // ---------------------------------------------------------------------
  // Overrides are not merged here

  const USER_EVENT: ClassId := 10

  function Listen(name: string, modifiers: nat): MethodDecl {
    MethodDecl(name, modifiers, Some(DEFAULT_SUBSCRIBE), false, false, false, [Param(USER_EVENT, false)])
  }

  /** A subclass overriding an annotated superclass method: discovery
      returns one entry per declaring class, the subclass's first. */
  lemma OverrideFoundOncePerDeclaringClass()
    ensures
      var sup := Class(20, [Listen("common", 1)], Some(ObjectClass), []);
      var child := Class(21, [Listen("common", 1)], Some(sup), []);
      FindSubscribedMethods(child) == Success([
        Candidate(Method("common", 1, 21), USER_EVENT, false),
        Candidate(Method("common", 1, 20), USER_EVENT, false)])
  {
    var sup := Class(20, [Listen("common", 1)], Some(ObjectClass), []);
    var child := Class(21, [Listen("common", 1)], Some(sup), []);
    var s := Candidate(Method("common", 1, 20), USER_EVENT, false);
    var c := Candidate(Method("common", 1, 21), USER_EVENT, false);
    assert Eligible(Listen("common", 1));
    assert ToCandidate(Declared(20, Listen("common", 1))) == s;
    assert ToCandidate(Declared(21, Listen("common", 1))) == c;
    assert [s] + [] == [s] && [c] + [] == [c] && [s] + [] + [] == [s];
    assert Own(sup) == [Declared(20, Listen("common", 1))];
    assert Scan(Own(sup)[1..]) == Success([]);
    assert Scan(Own(sup)) == Success([s]);
    assert FindSubscribedMethods(sup) == Success([s]);
    assert Own(child) == [Declared(21, Listen("common", 1))];
    assert Scan(Own(child)[1..]) == Success([]);
    assert Scan(Own(child)) == Success([c]);
    assert FromInterfaces(child, 0) == Success([]);
    assert [c] + [s] + [] == [c, s];
  }
}
