/** Member lookup through the prototype graph (goop.go, Object.Get).

    The graph must be acyclic. That is stated with a ghost ranking: every
    prototype of a ranked object has a strictly smaller rank. The
    specification functions read only the objects ranked at or below the
    object they are asked about, so a change to one object's state leaves
    the answers for every object ranked below it untouched. */
module Lookup {
  import opened Goop

  type Ranking = map<Internal, nat>

  /** The objects ranked strictly below `k`. */
  ghost function Under(rank: Ranking, k: nat): set<Internal>
  {
    set x | x in rank && rank[x] < k
  }

  /** Every object ranked below `k` lists only prototypes of smaller rank. */
  ghost predicate RankedUnder(rank: Ranking, k: nat)
    reads Under(rank, k)
  {
    forall x: Internal, i :: x in rank && rank[x] < k && 0 <= i < |x.prototypes| ==>
      x.prototypes[i].implementation in rank && rank[x.prototypes[i].implementation] < rank[x]
  }

  /** The objects a lookup starting at `obj` may visit. */
  ghost function Footprint(rank: Ranking, obj: Object): set<Internal>
  {
    if obj.implementation in rank then Under(rank, rank[obj.implementation] + 1) else {}
  }

  /** The prototype graph reachable from `obj` is acyclic, witnessed by `rank`. */
  ghost predicate Acyclic(rank: Ranking, obj: Object)
    reads Footprint(rank, obj)
  {
    obj.implementation in rank && RankedUnder(rank, rank[obj.implementation] + 1)
  }

  /** Every object of `ps` is ranked below `k`. */
  ghost predicate AllBelow(rank: Ranking, k: nat, ps: seq<Object>)
  {
    forall i :: 0 <= i < |ps| ==> ps[i].implementation in rank && rank[ps[i].implementation] < k
  }

  /** A prototype of an acyclic object is acyclic and ranked below it. */
  lemma PrototypeAcyclic(rank: Ranking, obj: Object, i: nat)
    requires Acyclic(rank, obj) && i < |obj.implementation.prototypes|
    ensures Acyclic(rank, obj.implementation.prototypes[i])
    ensures rank[obj.implementation.prototypes[i].implementation] < rank[obj.implementation]
  {
  }

  /** What Get returns: an own member wins; otherwise the prototypes decide. */
  ghost function Resolve(rank: Ranking, obj: Object, name: string): Value
    reads Footprint(rank, obj)
    requires Acyclic(rank, obj)
    decreases rank[obj.implementation], 1
  {
    var impl := obj.implementation;
    if name in impl.symbolTable then impl.symbolTable[name]
    else ResolveAmong(rank, rank[impl], impl.prototypes, name)
  }

  /** The first result other than NotFound among the prototypes `ps`, in
      declaration order; NotFound when none of them resolves `name`. */
  ghost function ResolveAmong(rank: Ranking, k: nat, ps: seq<Object>, name: string): Value
    reads Under(rank, k)
    requires RankedUnder(rank, k) && AllBelow(rank, k, ps)
    decreases k, 0, |ps|
  {
    if ps == [] then NotFound
    else
      var found := Resolve(rank, ps[0], name);
      if !found.NotFound? then found else ResolveAmong(rank, k, ps[1..], name)
  }

  /** Object.Get: search the own members, then each prototype in turn. */
  method Get(obj: Object, memberName: string, ghost rank: Ranking) returns (value: Value)
    requires Acyclic(rank, obj)
    ensures value == Resolve(rank, obj, memberName)
    decreases rank[obj.implementation]
  {
    var impl := obj.implementation;
    if memberName in impl.symbolTable {
      value := impl.symbolTable[memberName];
      return;
    }
    value := NotFound;
    var i := 0;
    while i < |impl.prototypes|
      invariant 0 <= i <= |impl.prototypes|
      invariant AllBelow(rank, rank[impl], impl.prototypes[i..])
      invariant ResolveAmong(rank, rank[impl], impl.prototypes[i..], memberName) == Resolve(rank, obj, memberName)
    {
      ghost var before := ResolveAmong(rank, rank[impl], impl.prototypes[i..], memberName);
      var parentValue := Get(impl.prototypes[i], memberName, rank);
      // The call changes no object, so the answers for the ranked ones stand.
      assert forall x :: x in Under(rank, rank[impl]) ==> allocated(x);
      assert before == ResolveAmong(rank, rank[impl], impl.prototypes[i..], memberName);
      assert impl.prototypes[i..][0] == impl.prototypes[i];
      if !parentValue.NotFound? {
        value := parentValue;
        return;
      }
      assert impl.prototypes[i..][1..] == impl.prototypes[i + 1..];
      i := i + 1;
    }
  }

  /** Lookup precedence among prototypes: the first-declared prototype that
      resolves `name` decides (ResolveAmongMissing covers the case where
      none does). */
  lemma {:induction false} ResolveAmongFirst(rank: Ranking, k: nat, ps: seq<Object>, name: string, i: nat)
    requires RankedUnder(rank, k) && AllBelow(rank, k, ps)
    requires i < |ps|
    requires forall j :: 0 <= j < i ==> Resolve(rank, ps[j], name).NotFound?
    ensures !Resolve(rank, ps[i], name).NotFound? ==> ResolveAmong(rank, k, ps, name) == Resolve(rank, ps[i], name)
    ensures Resolve(rank, ps[i], name).NotFound? ==> ResolveAmong(rank, k, ps, name) == ResolveAmong(rank, k, ps[i + 1..], name)
    decreases i
  {
    if i > 0 {
      assert ps[1..][i - 1] == ps[i];
      assert ps[1..][i..] == ps[i + 1..];
      ResolveAmongFirst(rank, k, ps[1..], name, i - 1);
    }
  }

  /** NotFound comes back from the prototypes exactly when every one of them
      fails to resolve `name`. */
  lemma {:induction false} ResolveAmongMissing(rank: Ranking, k: nat, ps: seq<Object>, name: string)
    requires RankedUnder(rank, k) && AllBelow(rank, k, ps)
    ensures ResolveAmong(rank, k, ps, name).NotFound? <==>
      forall j :: 0 <= j < |ps| ==> Resolve(rank, ps[j], name).NotFound?
    decreases |ps|
  {
    if ps != [] {
      ResolveAmongMissing(rank, k, ps[1..], name);
      assert forall j :: 1 <= j < |ps| ==> ps[j] == ps[1..][j - 1];
    }
  }
}
