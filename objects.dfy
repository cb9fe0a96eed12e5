/** Creating objects and changing their state in place (goop.go, New,
    SetSuper, Super, IsEquiv, Set, Unset). */
module Objects {
  import opened Goop
  import opened Lookup
  import opened Dispatch

  /** New: a fresh object with no members and no prototypes. When a
      constructor is given (`ctorArgs[0]`) it is called reflectively with the new object
      first and the remaining arguments after it; its results are dropped,
      and `ok` is false exactly when that call panics. */
  method New(ctorArgs: seq<Value>, run: (Callable, seq<Value>) -> seq<Value>) returns (obj: Object, ok: bool)
    ensures fresh(obj.implementation)
    ensures obj.implementation.symbolTable == map[] && obj.implementation.prototypes == []
    ensures ok <==> |ctorArgs| == 0 || Invoke(ctorArgs[0], [ObjectVal(obj)] + ctorArgs[1..], run).Returned?
  {
    var impl := new Internal();
    obj := Object(impl);
    if |ctorArgs| == 0 {
      return obj, true;
    }
    var argList := [ObjectVal(obj)] + ctorArgs[1..];
    var discarded := Invoke(ctorArgs[0], argList, run);
    ok := discarded.Returned?;
  }

  /** The prototype list SetSuper builds, and whether it gets through all of
      its arguments: an object is appended, a slice has each of its elements
      appended, and anything else (or a slice element that is not an object)
      panics, leaving the list built so far. */
  datatype Flat = Flat(objs: seq<Object>, complete: bool)

  /** The objects at the front of a slice, up to the first element that is
      not an object. */
  function ObjectPrefix(elems: seq<Value>): (r: Flat)
    ensures |r.objs| <= |elems|
    ensures r.complete <==> |r.objs| == |elems|
  {
    if elems == [] then Flat([], true)
    else if !elems[0].ObjectVal? then Flat([], false)
    else
      var rest := ObjectPrefix(elems[1..]);
      Flat([elems[0].obj] + rest.objs, rest.complete)
  }

  /** The objects ObjectPrefix keeps are the slice's leading elements, in
      order, and it is complete exactly when every element is an object. */
  lemma {:induction false} ObjectPrefixElements(elems: seq<Value>)
    ensures forall i :: 0 <= i < |ObjectPrefix(elems).objs| ==> elems[i] == ObjectVal(ObjectPrefix(elems).objs[i])
    ensures ObjectPrefix(elems).complete <==> forall i :: 0 <= i < |elems| ==> elems[i].ObjectVal?
    decreases |elems|
  {
    if elems != [] && elems[0].ObjectVal? {
      ObjectPrefixElements(elems[1..]);
      assert forall i :: 1 <= i < |elems| ==> elems[i] == elems[1..][i - 1];
    }
  }

  /** SetSuper's reading of one argument. */
  function Expand(parent: Value): Flat
  {
    match parent
    case SliceVal(elems) => ObjectPrefix(elems)
    case ObjectVal(o) => Flat([o], true)
    case _ => Flat([], false)
  }

  /** SetSuper's reading of all its arguments, in order. */
  function Flattened(parents: seq<Value>): Flat
  {
    if parents == [] then Flat([], true)
    else
      var head := Expand(parents[0]);
      if !head.complete then head
      else
        var rest := Flattened(parents[1..]);
        Flat(head.objs + rest.objs, rest.complete)
  }

  /** One step of Flattened from argument `n`. */
  lemma FlattenedStep(parents: seq<Value>, n: nat)
    requires n < |parents|
    ensures !Expand(parents[n]).complete ==> Flattened(parents[n..]) == Expand(parents[n])
    ensures Expand(parents[n]).complete ==>
      Flattened(parents[n..]) == Flat(Expand(parents[n]).objs + Flattened(parents[n + 1..]).objs, Flattened(parents[n + 1..]).complete)
  {
    assert parents[n..][0] == parents[n] && parents[n..][1..] == parents[n + 1..];
  }

  /** Giving the parents one by one or as one slice is the same. */
  lemma {:induction false} SliceFormIsSame(parents: seq<Value>)
    requires forall i :: 0 <= i < |parents| ==> !parents[i].SliceVal?
    ensures Flattened([SliceVal(parents)]) == Flattened(parents)
    decreases |parents|
  {
    if parents != [] {
      SliceFormIsSame(parents[1..]);
      assert [SliceVal(parents)][1..] == [];
      assert [SliceVal(parents[1..])][1..] == [];
    }
  }

  /** A list of objects is installed as it is, in order. */
  lemma {:induction false} FlattenedObjects(parents: seq<Object>)
    ensures Flattened(seq(|parents|, i requires 0 <= i < |parents| => ObjectVal(parents[i]))) == Flat(parents, true)
    decreases |parents|
  {
    var vals := seq(|parents|, i requires 0 <= i < |parents| => ObjectVal(parents[i]));
    if parents != [] {
      FlattenedObjects(parents[1..]);
      assert vals[1..] == seq(|parents[1..]|, i requires 0 <= i < |parents[1..]| => ObjectVal(parents[1..][i]));
      assert [parents[0]] + parents[1..] == parents;
    }
  }

  /** SetSuper: throw the prototype list away and append the arguments. The
      new list depends on the arguments only; `ok` is false when an argument
      made it panic part way. */
  method SetSuper(obj: Object, parentObjs: seq<Value>) returns (ok: bool)
    modifies obj.implementation
    ensures obj.implementation.prototypes == Flattened(parentObjs).objs
    ensures ok == Flattened(parentObjs).complete
    ensures obj.implementation.symbolTable == old(obj.implementation.symbolTable)
  {
    var impl := obj.implementation;
    impl.prototypes := [];
    var n := 0;
    while n < |parentObjs|
      invariant 0 <= n <= |parentObjs|
      invariant impl.symbolTable == old(impl.symbolTable)
      invariant Flattened(parentObjs[n..]).complete == Flattened(parentObjs).complete
      invariant impl.prototypes + Flattened(parentObjs[n..]).objs == Flattened(parentObjs).objs
    {
      FlattenedStep(parentObjs, n);
      ghost var built := impl.prototypes;
      ok := AppendParent(impl, parentObjs[n]);
      if !ok {
        return;
      }
      assert impl.prototypes + Flattened(parentObjs[n + 1..]).objs ==
        built + (Expand(parentObjs[n]).objs + Flattened(parentObjs[n + 1..]).objs);
      n := n + 1;
    }
    assert parentObjs[n..] == [];
    ok := true;
  }

  /** The body of SetSuper's loop: append one argument, or each element of a
      slice argument, stopping where the source's type assertion panics. */
  method AppendParent(impl: Internal, parent: Value) returns (ok: bool)
    modifies impl
    ensures impl.prototypes == old(impl.prototypes) + Expand(parent).objs
    ensures ok == Expand(parent).complete
    ensures impl.symbolTable == old(impl.symbolTable)
  {
    match parent {
      case SliceVal(elems) =>
        ok := AppendElements(impl, elems);
      case ObjectVal(o) =>
        impl.prototypes := impl.prototypes + [o];
        ok := true;
      case _ =>
        ok := false;
    }
  }

  /** The inner loop of SetSuper over a slice argument: append its elements
      in order until one is not an object. */
  method AppendElements(impl: Internal, elems: seq<Value>) returns (ok: bool)
    modifies impl
    ensures impl.prototypes == old(impl.prototypes) + ObjectPrefix(elems).objs
    ensures ok == ObjectPrefix(elems).complete
    ensures impl.symbolTable == old(impl.symbolTable)
  {
    var i := 0;
    while i < |elems|
      invariant 0 <= i <= |elems|
      invariant impl.symbolTable == old(impl.symbolTable)
      invariant ObjectPrefix(elems[i..]).complete == ObjectPrefix(elems).complete
      invariant impl.prototypes + ObjectPrefix(elems[i..]).objs == old(impl.prototypes) + ObjectPrefix(elems).objs
    {
      ObjectPrefixStep(elems, i);
      if !elems[i].ObjectVal? {
        return false;
      }
      impl.prototypes := impl.prototypes + [elems[i].obj];
      i := i + 1;
    }
    assert elems[i..] == [];
    ok := true;
  }

  /** One step of ObjectPrefix from position `i` of a slice. */
  lemma ObjectPrefixStep(elems: seq<Value>, i: nat)
    requires i < |elems|
    ensures !elems[i].ObjectVal? ==> ObjectPrefix(elems[i..]) == Flat([], false)
    ensures elems[i].ObjectVal? ==>
      ObjectPrefix(elems[i..]) == Flat([elems[i].obj] + ObjectPrefix(elems[i + 1..]).objs, ObjectPrefix(elems[i + 1..]).complete)
  {
    assert elems[i..][0] == elems[i] && elems[i..][1..] == elems[i + 1..];
  }

  /** Super: a fresh copy of the prototype list, so that changing the copy
      leaves the object alone. */
  method Super(obj: Object) returns (protoCopy: array<Object>)
    ensures fresh(protoCopy)
    ensures protoCopy[..] == obj.implementation.prototypes
  {
    var protos := obj.implementation.prototypes;
    protoCopy := new Object[|protos|](i requires 0 <= i < |protos| => protos[i]);
  }

  /** IsEquiv: two handles are equivalent exactly when they are copies of
      one another, that is, refer to the same shared state. */
  function IsEquiv(obj: Object, otherObj: Object): (r: bool)
    ensures r <==> obj == otherObj
  {
    obj.implementation == otherObj.implementation
  }

  /** Set: insert or overwrite one own member. The member then wins over
      anything the prototypes hold, and objects ranked below this one are
      unaffected. */
  method Set(obj: Object, memberName: string, value: Value)
    modifies obj.implementation
    ensures obj.implementation.symbolTable == old(obj.implementation.symbolTable)[memberName := value]
    ensures obj.implementation.prototypes == old(obj.implementation.prototypes)
    ensures forall rank: Ranking :: Acyclic(rank, obj) ==> Resolve(rank, obj, memberName) == value
    ensures forall rank: Ranking :: old(allocated(rank)) && old(Acyclic(rank, obj)) ==> Acyclic(rank, obj)
    ensures forall rank: Ranking, name: string :: old(allocated(rank)) && old(Acyclic(rank, obj)) ==>
      ResolveAmong(rank, rank[obj.implementation], obj.implementation.prototypes, name) ==
      old(ResolveAmong(rank, rank[obj.implementation], obj.implementation.prototypes, name))
  {
    obj.implementation.symbolTable := obj.implementation.symbolTable[memberName := value];
    forall rank: Ranking, name: string | old(allocated(rank)) && old(Acyclic(rank, obj))
      ensures Acyclic(rank, obj)
      ensures ResolveAmong(rank, rank[obj.implementation], obj.implementation.prototypes, name) ==
        old(ResolveAmong(rank, rank[obj.implementation], obj.implementation.prototypes, name))
    {
      // Only this object's members changed, and it is not ranked below itself.
      assert obj.implementation !in Under(rank, rank[obj.implementation]);
    }
  }

  /** Unset: remove one own member, whether or not it is there. Lookup then
      falls through to the prototypes, whose answers are what they were. */
  method Unset(obj: Object, memberName: string)
    modifies obj.implementation
    ensures obj.implementation.symbolTable == old(obj.implementation.symbolTable) - {memberName}
    ensures obj.implementation.prototypes == old(obj.implementation.prototypes)
    ensures forall rank: Ranking :: Acyclic(rank, obj) ==>
      Resolve(rank, obj, memberName) == ResolveAmong(rank, rank[obj.implementation], obj.implementation.prototypes, memberName)
    ensures forall rank: Ranking :: old(allocated(rank)) && old(Acyclic(rank, obj)) ==> Acyclic(rank, obj)
    ensures forall rank: Ranking, name: string :: old(allocated(rank)) && old(Acyclic(rank, obj)) ==>
      ResolveAmong(rank, rank[obj.implementation], obj.implementation.prototypes, name) ==
      old(ResolveAmong(rank, rank[obj.implementation], obj.implementation.prototypes, name))
  {
    obj.implementation.symbolTable := obj.implementation.symbolTable - {memberName};
    forall rank: Ranking, name: string | old(allocated(rank)) && old(Acyclic(rank, obj))
      ensures Acyclic(rank, obj)
      ensures ResolveAmong(rank, rank[obj.implementation], obj.implementation.prototypes, name) ==
        old(ResolveAmong(rank, rank[obj.implementation], obj.implementation.prototypes, name))
    {
      // Only this object's members changed, and it is not ranked below itself.
      assert obj.implementation !in Under(rank, rank[obj.implementation]);
    }
  }
}
