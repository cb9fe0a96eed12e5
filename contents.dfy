/** Merged enumeration of an object's members (goop.go, Object.Contents). */
module Enumeration {
  import opened Goop
  import opened Lookup

  /** The own members that Contents copies: all of them, or only those that
      are not method functions. */
  ghost function OwnEntries(table: map<string, Value>, alsoMethods: bool): map<string, Value>
  {
    map key | key in table && (alsoMethods || !IsMethod(table[key])) :: table[key]
  }

  /** What Contents returns: the prototypes' merged contents, overlaid by the
      own members that are kept. */
  ghost function Merged(rank: Ranking, obj: Object, alsoMethods: bool): map<string, Value>
    reads Footprint(rank, obj)
    requires Acyclic(rank, obj)
    decreases rank[obj.implementation], 1
  {
    var impl := obj.implementation;
    MergedAmong(rank, rank[impl], impl.prototypes, alsoMethods) + OwnEntries(impl.symbolTable, alsoMethods)
  }

  /** The prototypes' contents written from the last-declared to the
      first-declared, each overwriting what is already there. */
  ghost function MergedAmong(rank: Ranking, k: nat, ps: seq<Object>, alsoMethods: bool): map<string, Value>
    reads Under(rank, k)
    requires RankedUnder(rank, k) && AllBelow(rank, k, ps)
    decreases k, 0, |ps|
  {
    if ps == [] then map[]
    else MergedAmong(rank, k, ps[1..], alsoMethods) + Merged(rank, ps[0], alsoMethods)
  }

  /** Object.Contents: a loop over the prototypes in reverse order, then a
      loop over the own members. */
  method Contents(obj: Object, alsoMethods: bool, ghost rank: Ranking) returns (resultMap: map<string, Value>)
    requires Acyclic(rank, obj)
    ensures resultMap == Merged(rank, obj, alsoMethods)
    decreases rank[obj.implementation], 1
  {
    var impl := obj.implementation;
    ghost var merged := Merged(rank, obj, alsoMethods);
    resultMap := CopyParents(obj, alsoMethods, rank);
    // Neither loop changes an object, so the merged contents stand.
    assert forall x :: x in Footprint(rank, obj) ==> allocated(x);
    assert merged == Merged(rank, obj, alsoMethods);
    resultMap := CopyOwn(resultMap, impl.symbolTable, alsoMethods);
  }

  /** The loop of Contents over the prototypes, from the last-declared to
      the first-declared, each one's contents overwriting what is there. */
  method CopyParents(obj: Object, alsoMethods: bool, ghost rank: Ranking) returns (resultMap: map<string, Value>)
    requires Acyclic(rank, obj)
    ensures resultMap == MergedAmong(rank, rank[obj.implementation], obj.implementation.prototypes, alsoMethods)
    decreases rank[obj.implementation], 0
  {
    var impl := obj.implementation;
    resultMap := map[];
    var i := |impl.prototypes|;
    while i > 0
      invariant 0 <= i <= |impl.prototypes|
      invariant AllBelow(rank, rank[impl], impl.prototypes[i..])
      invariant resultMap == MergedAmong(rank, rank[impl], impl.prototypes[i..], alsoMethods)
    {
      i := i - 1;
      ghost var later := MergedAmong(rank, rank[impl], impl.prototypes[i + 1..], alsoMethods);
      var parentContents := Contents(impl.prototypes[i], alsoMethods, rank);
      // The call changes no object, so the merged contents computed so far stand.
      assert forall x :: x in Under(rank, rank[impl]) ==> allocated(x);
      assert later == MergedAmong(rank, rank[impl], impl.prototypes[i + 1..], alsoMethods);
      MergedAmongStep(rank, rank[impl], impl.prototypes, i, alsoMethods);
      resultMap := resultMap + parentContents;
    }
    assert impl.prototypes[0..] == impl.prototypes;
  }

  /** One step of MergedAmong from position `i` of the prototype list. */
  lemma MergedAmongStep(rank: Ranking, k: nat, ps: seq<Object>, i: nat, alsoMethods: bool)
    requires RankedUnder(rank, k) && AllBelow(rank, k, ps) && i < |ps|
    ensures MergedAmong(rank, k, ps[i..], alsoMethods) ==
      MergedAmong(rank, k, ps[i + 1..], alsoMethods) + Merged(rank, ps[i], alsoMethods)
  {
    assert ps[i..][0] == ps[i] && ps[i..][1..] == ps[i + 1..];
  }

  /** The loop of Contents over the own members: each kept entry overwrites
      whatever the prototypes put under its key. */
  method CopyOwn(inherited: map<string, Value>, table: map<string, Value>, alsoMethods: bool)
    returns (resultMap: map<string, Value>)
    ensures resultMap == inherited + OwnEntries(table, alsoMethods)
  {
    resultMap := inherited;
    var pending := table.Keys;
    while pending != {}
      invariant pending <= table.Keys
      invariant resultMap == inherited + OwnEntries(table - pending, alsoMethods)
      decreases pending
    {
      var key :| key in pending;
      var val := table[key];
      OwnEntriesStep(table, pending, key, alsoMethods);
      if alsoMethods || !IsMethod(val) {
        OverlayUpdate(inherited, OwnEntries(table - pending, alsoMethods), key, val);
        resultMap := resultMap[key := val];
      }
      pending := pending - {key};
    }
    assert table - {} == table;
  }

  /** Writing an entry over an overlay writes it into the upper map. */
  lemma OverlayUpdate(lower: map<string, Value>, upper: map<string, Value>, key: string, val: Value)
    ensures (lower + upper)[key := val] == lower + upper[key := val]
  {
  }

  /** Taking one more key of `table` into account adds its entry if it is kept. */
  lemma OwnEntriesStep(table: map<string, Value>, pending: set<string>, key: string, alsoMethods: bool)
    requires key in pending && pending <= table.Keys
    ensures OwnEntries(table - (pending - {key}), alsoMethods) ==
      if alsoMethods || !IsMethod(table[key]) then OwnEntries(table - pending, alsoMethods)[key := table[key]]
      else OwnEntries(table - pending, alsoMethods)
  {
  }

  /** A key is in the prototypes' merged contents exactly when some
      prototype's contents have it. */
  lemma {:induction false} MergedAmongKeys(rank: Ranking, k: nat, ps: seq<Object>, alsoMethods: bool, key: string)
    requires RankedUnder(rank, k) && AllBelow(rank, k, ps)
    ensures key in MergedAmong(rank, k, ps, alsoMethods) <==>
      exists i :: 0 <= i < |ps| && key in Merged(rank, ps[i], alsoMethods)
    decreases |ps|
  {
    if ps != [] {
      MergedAmongKeys(rank, k, ps[1..], alsoMethods, key);
      assert forall i :: 1 <= i < |ps| ==> ps[i] == ps[1..][i - 1];
    }
  }

  /** Precedence among prototypes: the first-declared prototype whose
      contents have the key gives its value, although the loop writes the
      prototypes in reverse. */
  lemma {:induction false} MergedAmongFirst(rank: Ranking, k: nat, ps: seq<Object>, alsoMethods: bool, key: string, i: nat)
    requires RankedUnder(rank, k) && AllBelow(rank, k, ps)
    requires i < |ps| && key in Merged(rank, ps[i], alsoMethods)
    requires forall j :: 0 <= j < i ==> key !in Merged(rank, ps[j], alsoMethods)
    ensures key in MergedAmong(rank, k, ps, alsoMethods)
    ensures MergedAmong(rank, k, ps, alsoMethods)[key] == Merged(rank, ps[i], alsoMethods)[key]
    decreases i
  {
    if i > 0 {
      assert ps[1..][i - 1] == ps[i];
      assert forall j :: 0 <= j < i - 1 ==> ps[1..][j] == ps[j + 1];
      MergedAmongFirst(rank, k, ps[1..], alsoMethods, key, i - 1);
    }
  }

  /** No object ranked below `k` stores the ErrNotFound sentinel as a member. */
  ghost predicate SentinelFree(rank: Ranking, k: nat)
    reads Under(rank, k)
  {
    forall x: Internal, n :: x in rank && rank[x] < k && n in x.symbolTable ==> !x.symbolTable[n].NotFound?
  }

  /** Contents(true) and Get agree: a name is enumerated exactly when Get
      resolves it, and it is enumerated with the value Get returns. This
      needs the sentinel not to be stored: Get skips a prototype whose answer
      is ErrNotFound, Contents does not. */
  lemma {:induction false} ContentsAgreesWithGet(rank: Ranking, obj: Object, name: string)
    requires Acyclic(rank, obj) && SentinelFree(rank, rank[obj.implementation] + 1)
    ensures name in Merged(rank, obj, true) <==> !Resolve(rank, obj, name).NotFound?
    ensures name in Merged(rank, obj, true) ==> Merged(rank, obj, true)[name] == Resolve(rank, obj, name)
    decreases rank[obj.implementation], 1
  {
    var impl := obj.implementation;
    if name !in impl.symbolTable {
      AmongAgree(rank, rank[impl], impl.prototypes, name);
    }
  }

  /** ContentsAgreesWithGet for the prototype list. */
  lemma {:induction false} AmongAgree(rank: Ranking, k: nat, ps: seq<Object>, name: string)
    requires RankedUnder(rank, k) && AllBelow(rank, k, ps) && SentinelFree(rank, k)
    ensures name in MergedAmong(rank, k, ps, true) <==> !ResolveAmong(rank, k, ps, name).NotFound?
    ensures name in MergedAmong(rank, k, ps, true) ==> MergedAmong(rank, k, ps, true)[name] == ResolveAmong(rank, k, ps, name)
    decreases k, 0, |ps|
  {
    if ps != [] {
      ContentsAgreesWithGet(rank, ps[0], name);
      AmongAgree(rank, k, ps[1..], name);
    }
  }

  /** Contents(false) holds no method function, at any depth. */
  lemma {:induction false} DataViewHasNoMethods(rank: Ranking, obj: Object, key: string)
    requires Acyclic(rank, obj)
    ensures key in Merged(rank, obj, false) ==> !IsMethod(Merged(rank, obj, false)[key])
    decreases rank[obj.implementation], 1
  {
    var impl := obj.implementation;
    AmongHasNoMethods(rank, rank[impl], impl.prototypes, key);
  }

  /** DataViewHasNoMethods for the prototype list. */
  lemma {:induction false} AmongHasNoMethods(rank: Ranking, k: nat, ps: seq<Object>, key: string)
    requires RankedUnder(rank, k) && AllBelow(rank, k, ps)
    ensures key in MergedAmong(rank, k, ps, false) ==> !IsMethod(MergedAmong(rank, k, ps, false)[key])
    decreases k, 0, |ps|
  {
    if ps != [] {
      DataViewHasNoMethods(rank, ps[0], key);
      AmongHasNoMethods(rank, k, ps[1..], key);
    }
  }

  /** Every name Contents(false) lists is listed by Contents(true), and a
      name whose full-view value is data has that same value in the data
      view. */
  lemma {:induction false} DataViewWithinFullView(rank: Ranking, obj: Object, key: string)
    requires Acyclic(rank, obj)
    ensures key in Merged(rank, obj, false) ==> key in Merged(rank, obj, true)
    ensures key in Merged(rank, obj, true) && !IsMethod(Merged(rank, obj, true)[key]) ==>
      key in Merged(rank, obj, false) && Merged(rank, obj, false)[key] == Merged(rank, obj, true)[key]
    decreases rank[obj.implementation], 1
  {
    var impl := obj.implementation;
    AmongWithinFullView(rank, rank[impl], impl.prototypes, key);
  }

  /** DataViewWithinFullView for the prototype list. */
  lemma {:induction false} AmongWithinFullView(rank: Ranking, k: nat, ps: seq<Object>, key: string)
    requires RankedUnder(rank, k) && AllBelow(rank, k, ps)
    ensures key in MergedAmong(rank, k, ps, false) ==> key in MergedAmong(rank, k, ps, true)
    ensures key in MergedAmong(rank, k, ps, true) && !IsMethod(MergedAmong(rank, k, ps, true)[key]) ==>
      key in MergedAmong(rank, k, ps, false) && MergedAmong(rank, k, ps, false)[key] == MergedAmong(rank, k, ps, true)[key]
    decreases k, 0, |ps|
  {
    if ps != [] {
      DataViewWithinFullView(rank, ps[0], key);
      AmongWithinFullView(rank, k, ps[1..], key);
    }
  }

  /** The data view is filtered level by level, not after merging: when a
      method of the object shadows a data member of its prototype, Get
      returns the method while Contents(false) lists the prototype's data. */
  lemma ShadowedDataReappears(rank: Ranking, child: Object, parent: Object, name: string, m: Callable, data: Value)
    requires Acyclic(rank, child)
    requires child.implementation.prototypes == [parent]
    requires child.implementation.symbolTable == map[name := FuncVal(m)]
    requires parent.implementation.symbolTable == map[name := data] && !IsMethod(data)
    ensures Resolve(rank, child, name) == FuncVal(m)
    ensures name in Merged(rank, child, false) && Merged(rank, child, false)[name] == data
  {
    PrototypeAcyclic(rank, child, 0);
    var ps := child.implementation.prototypes;
    assert ps[1..] == [];
    assert name in Merged(rank, parent, false);
  }
}
