/** The data model of the goop package: runtime kinds, values that can be
    stored as object members, the shared per-object state and the handle
    that refers to it. */
module Goop {

  /** The coarse runtime kinds that goop reads through reflection (a subset
      of Go's reflect.Kind). A dispatch signature is a sequence of them. */
  datatype Kind = Bool | Int | Float64 | String | Slice | Func | Interface | Ptr | Struct

  type Signature = seq<Kind>

  /** A Go function value as the reflection service sees it: an identity for
      its code and the kind of each declared parameter, receiver included. */
  datatype Callable = Callable(code: nat, params: Signature)

  /** The table a MetaFunction closes over: argument signature to function. */
  type DispatchTable = map<Signature, Callable>

  /** Everything storable as a member value. `NotFound` is the ErrNotFound
      sentinel; `Meta` is a MetaFunction built by CombineFunctions. */
  datatype Value =
    | BoolVal(b: bool)
    | IntVal(i: int)
    | FloatVal(bits: bv64)
    | StringVal(s: string)
    | SliceVal(elems: seq<Value>)
    | FuncVal(f: Callable)
    | MetaVal(table: DispatchTable)
    | ObjectVal(obj: Object)
    | NotFound

  /** The state that every copy of an object handle shares. */
  class Internal {
    var symbolTable: map<string, Value>
    var prototypes: seq<Object>

    constructor ()
      ensures symbolTable == map[] && prototypes == []
    {
      symbolTable := map[];
      prototypes := [];
    }
  }

  /** An object handle: copying it copies the reference, never the state. */
  datatype Object = Object(implementation: Internal)

  /** Why a reflective call panics. */
  datatype Fault = NotAFunction | WrongArgumentCount | WrongArgumentKind

  /** What a reflective call produces: its return values, or a panic. */
  datatype Outcome = Returned(values: seq<Value>) | Panicked(fault: Fault)

  /** The kind reflection reports for a runtime value. ErrNotFound is a
      pointer to an error record; an Object is a struct; a MetaFunction is a
      function. No runtime value has kind Interface. */
  function KindOf(v: Value): (k: Kind)
    ensures k != Interface
    ensures k == Func <==> v.FuncVal? || v.MetaVal?
  {
    match v
    case BoolVal(_) => Bool
    case IntVal(_) => Int
    case FloatVal(_) => Float64
    case StringVal(_) => String
    case SliceVal(_) => Slice
    case FuncVal(_) => Func
    case MetaVal(_) => Func
    case ObjectVal(_) => Struct
    case NotFound => Ptr
  }

  /** A method function is any member whose reflected kind is Func. */
  predicate IsMethod(v: Value)
  {
    KindOf(v) == Func
  }

  /** A parameter of the given kind accepts an argument of kind `arg`:
      interface parameters accept everything, others their own kind. Go also
      asks for an assignable type within the kind; that is not modelled. */
  predicate Accepts(param: Kind, arg: Kind)
  {
    param == Interface || param == arg
  }

  /** reflect.Value.Call on a plain function: it panics unless there is one
      argument per parameter and each is acceptable, and otherwise returns
      whatever the function returns (`run` stands for the function's code). */
  function Apply(f: Callable, args: seq<Value>, run: (Callable, seq<Value>) -> seq<Value>): (r: Outcome)
    ensures r.Returned? <==>
      |f.params| == |args| && forall i :: 0 <= i < |args| ==> Accepts(f.params[i], KindOf(args[i]))
    ensures r.Returned? ==> r.values == run(f, args)
    ensures |f.params| != |args| ==> r == Panicked(WrongArgumentCount)
  {
    if |f.params| != |args| then Panicked(WrongArgumentCount)
    else if exists i :: 0 <= i < |args| && !Accepts(f.params[i], KindOf(args[i])) then Panicked(WrongArgumentKind)
    else Returned(run(f, args))
  }
}
