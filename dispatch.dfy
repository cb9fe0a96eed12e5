/** Type-dependent dispatch (goop.go, functionSignature, argumentSignature,
    CombineFunctions and the dispatcher closure it returns). A signature is
    the sequence of coarse kinds; the source packs it into a string of one
    byte per kind, which is injective, so equal strings are equal sequences. */
module Dispatch {
  import opened Goop

  /** functionSignature: the kind of each declared parameter, in order. */
  method FunctionSignature(f: Callable) returns (sig: Signature)
    ensures |sig| == |f.params|
    ensures forall i :: 0 <= i < |sig| ==> sig[i] == f.params[i]
  {
    var numArgs := |f.params|;
    var argTypes := new Kind[numArgs];
    for i := 0 to numArgs
      invariant forall j :: 0 <= j < i ==> argTypes[j] == f.params[j]
    {
      argTypes[i] := f.params[i];
    }
    sig := argTypes[..];
  }

  /** The kinds of the runtime arguments, in order. */
  function ArgumentKinds(args: seq<Value>): (sig: Signature)
    ensures |sig| == |args|
    ensures forall i :: 0 <= i < |args| ==> sig[i] == KindOf(args[i])
    ensures Interface !in sig
  {
    if args == [] then [] else [KindOf(args[0])] + ArgumentKinds(args[1..])
  }

  /** argumentSignature: the kind of each runtime argument, in order. */
  method ArgumentSignature(argList: seq<Value>) returns (sig: Signature)
    ensures sig == ArgumentKinds(argList)
  {
    var numArgs := |argList|;
    var argTypes := new Kind[numArgs];
    for i := 0 to numArgs
      invariant forall j :: 0 <= j < i ==> argTypes[j] == KindOf(argList[j])
    {
      argTypes[i] := KindOf(argList[i]);
    }
    sig := argTypes[..];
  }

  /** The dispatch map after the functions are entered in order, each under
      its signature, a later one replacing an earlier one. */
  ghost function Combined(functions: seq<Callable>): DispatchTable
  {
    if functions == [] then map[]
    else
      var last := functions[|functions| - 1];
      Combined(functions[..|functions| - 1])[last.params := last]
  }

  /** CombineFunctions: fill the dispatch map in a loop and return the
      MetaFunction that dispatches through it. */
  method CombineFunctions(functions: seq<Callable>) returns (meta: Value)
    ensures meta == MetaVal(Combined(functions))
  {
    var dispatchMap: DispatchTable := map[];
    for i := 0 to |functions|
      invariant dispatchMap == Combined(functions[..i])
    {
      var sig := FunctionSignature(functions[i]);
      assert sig == functions[i].params;
      assert functions[..i + 1][..i] == functions[..i];
      dispatchMap := dispatchMap[sig := functions[i]];
    }
    assert functions[..|functions|] == functions;
    meta := MetaVal(dispatchMap);
  }

  /** The table holds exactly the signatures of the given functions. */
  lemma {:induction false} CombinedKeys(functions: seq<Callable>, sig: Signature)
    ensures sig in Combined(functions) <==> exists i :: 0 <= i < |functions| && functions[i].params == sig
    decreases |functions|
  {
    if functions != [] {
      var init := functions[..|functions| - 1];
      CombinedKeys(init, sig);
      assert forall i :: 0 <= i < |init| ==> init[i] == functions[i];
    }
  }

  /** Each entry of the table is stored under its own signature. */
  lemma {:induction false} CombinedWellFormed(functions: seq<Callable>, sig: Signature)
    requires sig in Combined(functions)
    ensures Combined(functions)[sig].params == sig
    decreases |functions|
  {
    if functions != [] {
      var last := functions[|functions| - 1];
      if sig != last.params {
        CombinedWellFormed(functions[..|functions| - 1], sig);
      }
    }
  }

  /** Last write wins: a function is what its signature selects when no
      later function has the same signature. */
  lemma {:induction false} CombinedLastWins(functions: seq<Callable>, i: nat)
    requires i < |functions|
    requires forall j :: i < j < |functions| ==> functions[j].params != functions[i].params
    ensures functions[i].params in Combined(functions)
    ensures Combined(functions)[functions[i].params] == functions[i]
    decreases |functions|
  {
    var init := functions[..|functions| - 1];
    if i < |functions| - 1 {
      assert forall j :: i < j < |init| ==> init[j] == functions[j];
      CombinedLastWins(init, i);
    }
  }

  /** The dispatcher's answer for the argument list `varArgs`: ErrNotFound
      alone when no function has the arguments' signature, otherwise the
      reflective call of the one that has it. */
  function Dispatched(table: DispatchTable, varArgs: seq<Value>, run: (Callable, seq<Value>) -> seq<Value>): Outcome
  {
    var sig := ArgumentKinds(varArgs);
    if sig !in table then Returned([NotFound]) else Apply(table[sig], varArgs, run)
  }

  /** The dispatcher closure returned by CombineFunctions. */
  method Dispatch(dispatchMap: DispatchTable, varArgs: seq<Value>, run: (Callable, seq<Value>) -> seq<Value>)
    returns (funcResult: Outcome)
    ensures funcResult == Dispatched(dispatchMap, varArgs, run)
  {
    var sig := ArgumentSignature(varArgs);
    if sig !in dispatchMap {
      return Returned([NotFound]);
    }
    var f := dispatchMap[sig];
    funcResult := Apply(f, varArgs, run);
  }

  /** A function whose parameter kinds are exactly the arguments' kinds is
      called with those arguments and does not panic, when each parameter
      accepts every value of its kind. */
  lemma ExactSignatureApplies(f: Callable, varArgs: seq<Value>, run: (Callable, seq<Value>) -> seq<Value>)
    requires f.params == ArgumentKinds(varArgs)
    ensures Apply(f, varArgs, run) == Returned(run(f, varArgs))
  {
    assert forall i :: 0 <= i < |varArgs| ==> Accepts(f.params[i], KindOf(varArgs[i]));
  }

  /** Dispatch through a combined table: the last function whose signature
      equals the arguments' kinds is called with all the arguments, in
      order, and does not panic (DispatchMisses covers the case where no
      function has that signature). */
  lemma DispatchSelects(functions: seq<Callable>, varArgs: seq<Value>, run: (Callable, seq<Value>) -> seq<Value>, i: nat)
    requires i < |functions| && functions[i].params == ArgumentKinds(varArgs)
    requires forall j :: i < j < |functions| ==> functions[j].params != functions[i].params
    ensures Dispatched(Combined(functions), varArgs, run) == Returned(run(functions[i], varArgs))
  {
    CombinedLastWins(functions, i);
  }

  /** A signature that no function declares dispatches to ErrNotFound alone,
      whatever the arity or kinds. */
  lemma DispatchMisses(functions: seq<Callable>, varArgs: seq<Value>, run: (Callable, seq<Value>) -> seq<Value>)
    requires forall j :: 0 <= j < |functions| ==> functions[j].params != ArgumentKinds(varArgs)
    ensures Dispatched(Combined(functions), varArgs, run) == Returned([NotFound])
  {
    CombinedKeys(functions, ArgumentKinds(varArgs));
  }

  /** A dispatcher built by CombineFunctions never panics, when each
      parameter accepts every value of its kind. */
  lemma DispatchNeverPanics(functions: seq<Callable>, varArgs: seq<Value>, run: (Callable, seq<Value>) -> seq<Value>)
    ensures Dispatched(Combined(functions), varArgs, run).Returned?
  {
    var sig := ArgumentKinds(varArgs);
    if sig in Combined(functions) {
      CombinedWellFormed(functions, sig);
    }
  }

  /** A function with an interface-typed parameter is never selected: the
      kind of a runtime argument is never Interface. */
  lemma InterfaceParameterNeverSelected(functions: seq<Callable>, f: Callable, varArgs: seq<Value>)
    requires Interface in f.params
    requires ArgumentKinds(varArgs) in Combined(functions)
    ensures Combined(functions)[ArgumentKinds(varArgs)] != f
  {
    CombinedWellFormed(functions, ArgumentKinds(varArgs));
  }

  /** reflect.Value.Call on any member value. A plain function is applied to
      the arguments. A MetaFunction is a variadic function of its own: it
      accepts any arguments and returns one value, the slice of its
      dispatcher's results, or passes on the dispatcher's panic. Anything
      else panics. */
  function Invoke(callee: Value, args: seq<Value>, run: (Callable, seq<Value>) -> seq<Value>): (r: Outcome)
    ensures callee.FuncVal? ==> r == Apply(callee.f, args, run)
    ensures callee.MetaVal? ==> (r.Returned? <==> Dispatched(callee.table, args, run).Returned?)
    ensures callee.MetaVal? && r.Returned? ==> r.values == [SliceVal(Dispatched(callee.table, args, run).values)]
    ensures callee.MetaVal? && !r.Returned? ==> r == Dispatched(callee.table, args, run)
    ensures !callee.FuncVal? && !callee.MetaVal? ==> r == Panicked(NotAFunction)
  {
    match callee
    case FuncVal(f) => Apply(f, args, run)
    case MetaVal(table) =>
      (match Dispatched(table, args, run)
       case Returned(results) => Returned([SliceVal(results)])
       case Panicked(fault) => Panicked(fault))
    case _ => Panicked(NotAFunction)
  }
}
