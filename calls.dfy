/** Method invocation on an object (goop.go, Object.Call). */
module Calls {
  import opened Goop
  import opened Lookup
  import opened Dispatch

  /** What Call produces for `methodName`: ErrNotFound alone when lookup
      fails; otherwise the member is called with the receiver first and the
      arguments after it. A plain function's results come back as they are,
      a MetaFunction's results without the extra slice it wraps them in, and
      a member that is not a function panics. */
  ghost function Called(rank: Ranking, obj: Object, methodName: string, arguments: seq<Value>,
                        run: (Callable, seq<Value>) -> seq<Value>): (r: Outcome)
    reads Footprint(rank, obj)
    requires Acyclic(rank, obj)
    ensures Resolve(rank, obj, methodName).NotFound? ==> r == Returned([NotFound])
    ensures Resolve(rank, obj, methodName).FuncVal? ==>
      r == Apply(Resolve(rank, obj, methodName).f, [ObjectVal(obj)] + arguments, run)
    ensures Resolve(rank, obj, methodName).MetaVal? ==>
      r == Dispatched(Resolve(rank, obj, methodName).table, [ObjectVal(obj)] + arguments, run)
    ensures !IsMethod(Resolve(rank, obj, methodName)) && !Resolve(rank, obj, methodName).NotFound? ==>
      r == Panicked(NotAFunction)
  {
    var userFunc := Resolve(rank, obj, methodName);
    if userFunc.NotFound? then Returned([NotFound])
    else
      var returnVals := Invoke(userFunc, [ObjectVal(obj)] + arguments, run);
      if userFunc.MetaVal? && returnVals.Returned? then Returned(returnVals.values[0].elems)
      else returnVals
  }

  /** Object.Call: look the member up with Get, call it reflectively with the
      receiver prepended, and unwrap a MetaFunction's result slice. */
  method Call(obj: Object, methodName: string, arguments: seq<Value>,
              run: (Callable, seq<Value>) -> seq<Value>, ghost rank: Ranking) returns (result: Outcome)
    requires Acyclic(rank, obj)
    ensures result == Called(rank, obj, methodName, arguments, run)
  {
    var member := Get(obj, methodName, rank);
    if member.NotFound? {
      return Returned([NotFound]);
    }
    var callArgs := [ObjectVal(obj)] + arguments;
    var returnVals := Invoke(member, callArgs, run);
    if member.MetaVal? && returnVals.Returned? {
      returnVals := Returned(returnVals.values[0].elems);
    }
    result := returnVals;
  }

  /** A plain method is called with one argument more than Call was given,
      the receiver first: when each parameter accepts every value of its
      kind, it returns exactly when its parameters match that list, and then
      returns what the function returns for it. */
  lemma {:induction false} CallPassesReceiver(rank: Ranking, obj: Object, methodName: string, arguments: seq<Value>,
                           run: (Callable, seq<Value>) -> seq<Value>, f: Callable)
    requires Acyclic(rank, obj) && Resolve(rank, obj, methodName) == FuncVal(f)
    ensures Called(rank, obj, methodName, arguments, run).Returned? <==>
      |f.params| == |arguments| + 1 && Accepts(f.params[0], Struct) &&
      forall i :: 0 <= i < |arguments| ==> Accepts(f.params[i + 1], KindOf(arguments[i]))
    ensures Called(rank, obj, methodName, arguments, run).Returned? ==>
      Called(rank, obj, methodName, arguments, run).values == run(f, [ObjectVal(obj)] + arguments)
  {
    assert Called(rank, obj, methodName, arguments, run) == Apply(f, [ObjectVal(obj)] + arguments, run);
    ReceiverAccepted(f, obj, arguments);
  }

  /** The argument list with the receiver prepended fits `f` exactly when the
      receiver fits its first parameter and the arguments fit the rest. */
  lemma ReceiverAccepted(f: Callable, obj: Object, arguments: seq<Value>)
    ensures var args := [ObjectVal(obj)] + arguments;
      (|f.params| == |args| && forall i :: 0 <= i < |args| ==> Accepts(f.params[i], KindOf(args[i]))) <==>
      (|f.params| == |arguments| + 1 && Accepts(f.params[0], Struct) &&
       forall i :: 0 <= i < |arguments| ==> Accepts(f.params[i + 1], KindOf(arguments[i])))
  {
    var args := [ObjectVal(obj)] + arguments;
    assert args[0] == ObjectVal(obj);
    assert forall i :: 0 <= i < |arguments| ==> args[i + 1] == arguments[i];
    if |f.params| == |args| && Accepts(f.params[0], Struct) &&
       forall i :: 0 <= i < |arguments| ==> Accepts(f.params[i + 1], KindOf(arguments[i])) {
      forall i | 0 <= i < |args|
        ensures Accepts(f.params[i], KindOf(args[i]))
      {
        if i > 0 {
          assert args[i] == arguments[i - 1];
        }
      }
    }
  }

  /** Calling a member built by CombineFunctions never panics, when each
      parameter accepts every value of its kind. The receiver
      takes part in the signature: the last function whose parameter kinds
      are Struct followed by the arguments' kinds is called, and with none
      the answer is ErrNotFound alone, not wrapped in a further slice. */
  lemma {:induction false} CallThroughCombined(rank: Ranking, obj: Object, methodName: string, arguments: seq<Value>,
                            run: (Callable, seq<Value>) -> seq<Value>, functions: seq<Callable>)
    requires Acyclic(rank, obj) && Resolve(rank, obj, methodName) == MetaVal(Combined(functions))
    ensures Called(rank, obj, methodName, arguments, run).Returned?
    ensures (forall j :: 0 <= j < |functions| ==> functions[j].params != [Struct] + ArgumentKinds(arguments)) ==>
      Called(rank, obj, methodName, arguments, run) == Returned([NotFound])
    ensures forall i ::
      (0 <= i < |functions| && functions[i].params == [Struct] + ArgumentKinds(arguments) &&
       forall j :: i < j < |functions| ==> functions[j].params != functions[i].params) ==>
      Called(rank, obj, methodName, arguments, run) == Returned(run(functions[i], [ObjectVal(obj)] + arguments))
  {
    var args := [ObjectVal(obj)] + arguments;
    assert args[1..] == arguments;
    assert ArgumentKinds(args) == [Struct] + ArgumentKinds(arguments);
    DispatchNeverPanics(functions, args, run);
    if forall j :: 0 <= j < |functions| ==> functions[j].params != [Struct] + ArgumentKinds(arguments) {
      DispatchMisses(functions, args, run);
    }
    forall i | 0 <= i < |functions| && functions[i].params == [Struct] + ArgumentKinds(arguments) &&
        (forall j :: i < j < |functions| ==> functions[j].params != functions[i].params)
      ensures Called(rank, obj, methodName, arguments, run) == Returned(run(functions[i], args))
    {
      DispatchSelects(functions, args, run, i);
    }
  }

  /** The two functions of the moveBy method of the package documentation,
      one taking two ints after the receiver and one taking a single int. */
  function MoveByFunctions(): seq<Callable>
  {
    [Callable(0, [Struct, Int, Int]), Callable(1, [Struct, Int])]
  }

  /** The dispatch table CombineFunctions builds for moveBy holds both
      functions under their own signatures. */
  lemma MoveByTable()
    ensures Combined(MoveByFunctions()) ==
      map[[Struct, Int, Int] := MoveByFunctions()[0], [Struct, Int] := MoveByFunctions()[1]]
  {
    assert MoveByFunctions()[..1][..0] == [];
  }

  /** moveBy with two ints calls the first function with the receiver and
      both ints. */
  lemma MoveByTwoInts(rank: Ranking, pointObj: Object, run: (Callable, seq<Value>) -> seq<Value>, dx: int, dy: int)
    requires Acyclic(rank, pointObj)
    requires pointObj.implementation.symbolTable == map["moveBy" := MetaVal(Combined(MoveByFunctions()))]
    ensures Called(rank, pointObj, "moveBy", [IntVal(dx), IntVal(dy)], run) ==
      Returned(run(MoveByFunctions()[0], [ObjectVal(pointObj), IntVal(dx), IntVal(dy)]))
  {
    MoveByTable();
    var args := [ObjectVal(pointObj)] + [IntVal(dx), IntVal(dy)];
    assert ArgumentKinds(args) == [Struct, Int, Int];
    ExactSignatureApplies(MoveByFunctions()[0], args, run);
    assert args == [ObjectVal(pointObj), IntVal(dx), IntVal(dy)];
  }

  /** moveBy with one int calls the second function. */
  lemma MoveByOneInt(rank: Ranking, pointObj: Object, run: (Callable, seq<Value>) -> seq<Value>, delta: int)
    requires Acyclic(rank, pointObj)
    requires pointObj.implementation.symbolTable == map["moveBy" := MetaVal(Combined(MoveByFunctions()))]
    ensures Called(rank, pointObj, "moveBy", [IntVal(delta)], run) ==
      Returned(run(MoveByFunctions()[1], [ObjectVal(pointObj), IntVal(delta)]))
  {
    MoveByTable();
    var args := [ObjectVal(pointObj)] + [IntVal(delta)];
    assert ArgumentKinds(args) == [Struct, Int];
    ExactSignatureApplies(MoveByFunctions()[1], args, run);
    assert args == [ObjectVal(pointObj), IntVal(delta)];
  }

  /** moveBy with a float matches neither function: the answer is
      ErrNotFound alone, not a panic. */
  lemma MoveByFloat(rank: Ranking, pointObj: Object, run: (Callable, seq<Value>) -> seq<Value>, delta: bv64)
    requires Acyclic(rank, pointObj)
    requires pointObj.implementation.symbolTable == map["moveBy" := MetaVal(Combined(MoveByFunctions()))]
    ensures Called(rank, pointObj, "moveBy", [FloatVal(delta)], run) == Returned([NotFound])
  {
    MoveByTable();
    assert ArgumentKinds([ObjectVal(pointObj)] + [FloatVal(delta)]) == [Struct, Float64];
  }
}
