# goop in Dafny

A model of the goop package (goop.go), which adds prototype-based objects
to Go. An object is a handle to shared state: a table of named members and
an ordered list of prototype objects. Lookup searches the object's own
members and then each prototype in declaration order, depth first.
`Contents` lists the merged members of an object and its prototypes.
`CombineFunctions` bundles several functions into one MetaFunction. A
MetaFunction picks the function whose parameter kinds are exactly the kinds
of the runtime arguments. `Call` looks a method up and calls it with the
receiver prepended to the arguments.

Modules, one per part of the package:

- `Goop` (goop.dfy): the data model.
  - `Value` is everything a member can hold. `NotFound` is the ErrNotFound
    sentinel and `MetaVal` is a MetaFunction with its dispatch table.
  - `class Internal` is the shared state, with fields `symbolTable` and
    `prototypes`. `datatype Object` is the handle that refers to it.
  - The reflection service appears in three parts. `KindOf` reads the kind
    of a value. `Callable.params` holds the declared parameter kinds.
    `Apply` is the reflective call: it panics (`Outcome.Panicked`) on a
    wrong argument count or kind, and otherwise returns what the callable's
    code returns. The code is an uninterpreted function `run`, passed as a
    parameter.
- `Lookup` (lookup.dfy): `Object.Get`.
  - The method is proved against the ghost function `Resolve`.
  - The prototype graph must be acyclic. A ghost ranking witnesses this:
    every prototype of a ranked object has a smaller rank.
  - The specification functions read only objects ranked at or below the
    object they are asked about. So the verifier knows that changing one
    object leaves the answers about the objects below it unchanged.
- `Enumeration` (contents.dfy): `Object.Contents`. It has the reverse loop
  over the prototypes, the loop over the own members, and the ghost
  function `Merged` that the loops are proved against.
- `Dispatch` (dispatch.dfy): `functionSignature`, `argumentSignature`,
  `CombineFunctions` and the dispatcher closure it returns, and the
  reflective call of any member value (`Invoke`).
- `Objects` (objects.dfy): `New`, `SetSuper`, `Super`, `IsEquiv`, `Set`,
  `Unset`. `SetSuper`, `Set` and `Unset` change object state in place, so
  they are methods with `modifies` clauses. `New` allocates a fresh
  object, `Super` copies the list into a fresh array, and `IsEquiv` is a
  function.
- `Calls` (calls.dfy): `Object.Call`, proved against the ghost function
  `Called`. It also instantiates the `moveBy` example of the package
  documentation.

External inputs are parameters:

- The callables' code is the function `run`.
- The prototype ranking is a ghost parameter of `Get`, `Contents` and
  `Call`.

Nothing else in the core does I/O.

## Model

| member | source | states |
|---|---|---|
| Goop.KindOf | goop.go:317-319 | no runtime value has kind Interface; the kind is Func exactly for plain functions and MetaFunctions |
| Goop.Apply | goop.go:345-350 | a reflective call returns exactly when there is one argument per parameter and each is accepted; it then returns what the code returns; a wrong count is the count fault |
| Lookup.Get | goop.go:246-264 | the loop searching own members and then each prototype returns exactly the depth-first, first-match resolution `Resolve` |
| Lookup.PrototypeAcyclic | goop.go:256-257 | a prototype of an acyclic object is acyclic and ranked below it, so the recursion terminates |
| Lookup.ResolveAmongFirst | goop.go:253-263 | among prototypes, the first-declared one that resolves the name decides; if it does not resolve, the search goes on with the later ones |
| Lookup.ResolveAmongMissing | goop.go:255-263 | ErrNotFound comes back from the prototypes exactly when none of them resolves the name |
| Enumeration.Contents | goop.go:275-294 | the result equals `Merged`: the prototypes' contents overlaid last to first, then the kept own members |
| Enumeration.CopyParents | goop.go:278-285 | the reverse loop over the prototypes builds the prototypes' merged contents |
| Enumeration.CopyOwn | goop.go:288-292 | the own-member loop overlays exactly the own entries that are kept (all of them, or the non-functions) |
| Enumeration.MergedAmongKeys | goop.go:280-284 | a key is in the prototypes' merged contents exactly when some prototype's contents have it |
| Enumeration.MergedAmongFirst | goop.go:280-284 | the value for a key is the first-declared prototype's value, although the loop writes them in reverse |
| Enumeration.ContentsAgreesWithGet | goop.go:275-294 | when no object stores ErrNotFound, Contents(true) lists a name exactly when Get resolves it, with the value Get returns |
| Enumeration.AmongAgree | goop.go:280-284 | the same agreement between the prototypes' merged contents and the prototype search |
| Enumeration.DataViewHasNoMethods | goop.go:288-291 | Contents(false) holds no function value, at any depth |
| Enumeration.AmongHasNoMethods | goop.go:280-284 | the prototypes' merged data view holds no function value |
| Enumeration.DataViewWithinFullView | goop.go:280-291 | every key of Contents(false) is a key of Contents(true); a data value of Contents(true) is in Contents(false) with the same value |
| Enumeration.AmongWithinFullView | goop.go:280-284 | the same inclusion for the prototypes' merged contents |
| Enumeration.ShadowedDataReappears | goop.go:280-291 | a method of the object that shadows a prototype's data member is what Get returns, yet Contents(false) lists the prototype's data under that name |
| Dispatch.FunctionSignature | goop.go:302-310 | the signature has one kind per declared parameter, in order |
| Dispatch.ArgumentKinds | goop.go:314-321 | the signature has one kind per argument, each the argument's kind, and never Interface |
| Dispatch.ArgumentSignature | goop.go:314-321 | the index loop computes exactly `ArgumentKinds` |
| Dispatch.CombineFunctions | goop.go:332-360 | the loop builds exactly the table `Combined` and returns the MetaFunction over it |
| Dispatch.CombinedKeys | goop.go:333-336 | the table's keys are exactly the signatures of the given functions |
| Dispatch.CombinedWellFormed | goop.go:334-336 | each function in the table is stored under its own signature |
| Dispatch.CombinedLastWins | goop.go:334-336 | a function is what its signature selects when no later function has the same signature |
| Dispatch.Dispatch | goop.go:337-359 | the dispatcher returns ErrNotFound alone for an unknown argument signature, and otherwise the reflective call of the selected function with all arguments |
| Dispatch.ExactSignatureApplies | goop.go:345-350 | a function whose parameter kinds equal the arguments' kinds is called with them and does not panic, when each parameter accepts every value of its kind |
| Dispatch.DispatchSelects | goop.go:337-359 | dispatch through a combined table calls the last function with the arguments' signature, with all the arguments in order |
| Dispatch.DispatchMisses | goop.go:339-342 | a signature no function declares gives exactly ErrNotFound alone |
| Dispatch.DispatchNeverPanics | goop.go:337-359 | a dispatcher built by CombineFunctions never panics, when each parameter accepts every value of its kind |
| Dispatch.InterfaceParameterNeverSelected | goop.go:302-321 | a function with an interface-typed parameter is never selected |
| Dispatch.Invoke | goop.go:373-385 | a plain function is applied to the arguments; a MetaFunction returns exactly when its dispatcher does, with one value, the slice of the dispatcher's results, and otherwise passes its panic on; calling a non-function panics |
| Objects.New | goop.go:172-196 | the object is fresh with no members and no prototypes; the call succeeds exactly when there is no constructor or calling it with the new object first and the rest after does not panic |
| Objects.ObjectPrefix | goop.go:213-215 | the objects kept from a slice are at most as many as its elements; the slice is taken whole exactly when all are kept |
| Objects.ObjectPrefixElements | goop.go:213-215 | the kept objects are the slice's leading elements in order; the slice is taken whole exactly when every element is an object |
| Objects.SetSuper | goop.go:202-221 | the prototype list is replaced by the flattened arguments; `ok` is false exactly when the source panics part way; members are unchanged |
| Objects.AppendParent | goop.go:208-219 | one argument appends itself, or each element of a slice, and nothing else changes |
| Objects.AppendElements | goop.go:213-215 | the elements of a slice are appended in order up to the first that is not an object |
| Objects.SliceFormIsSame | goop.go:198-201 | giving the parents one by one or as one slice installs the same list |
| Objects.FlattenedObjects | goop.go:202-221 | a list of objects is installed as it is, in order, without a panic |
| Objects.Super | goop.go:224-232 | a fresh array equal element by element to the prototype list |
| Objects.IsEquiv | goop.go:236-238 | two handles are equivalent exactly when they are the same handle, i.e. refer to the same state |
| Objects.Set | goop.go:241-243 | only the own entry for the name changes; Get then returns the new value whatever the prototypes hold; objects ranked below keep their answers |
| Objects.Unset | goop.go:268-270 | only the own entry for the name is removed, present or not; Get then returns what the prototypes alone resolve |
| Calls.Called | goop.go:366-394 | ErrNotFound alone when lookup fails; a plain function is applied to the receiver followed by the arguments; a MetaFunction gives its dispatcher's result with no extra wrapping; a non-function panics |
| Calls.Call | goop.go:366-394 | the method computes exactly `Called` |
| Calls.CallPassesReceiver | goop.go:373-381 | a plain method gets one argument more than Call was given, the receiver first; when each parameter accepts every value of its kind, it returns exactly when its parameters accept that list |
| Calls.CallThroughCombined | goop.go:386-392 | a CombineFunctions member never panics when each parameter accepts every value of its kind; the receiver's kind is part of the signature; a miss gives ErrNotFound alone, unwrapped |
| Calls.MoveByTable | goop.go:30-38 | the moveBy table holds both functions under their own signatures |
| Calls.MoveByTwoInts | goop.go:30-47 | `Call("moveBy", 3, 5)` calls the two-int function with the receiver and both ints |
| Calls.MoveByOneInt | goop.go:30-48 | `Call("moveBy", 12)` calls the one-int function |
| Calls.MoveByFloat | goop.go:30-38 | moveBy with a float argument matches neither function and gives ErrNotFound alone |

## Left out

- Reflection is reduced to the kinds in `Goop.Kind`. Other integer widths,
  arrays, maps, channels and nil values are not modelled. Variadic user
  functions are not modelled, except the MetaFunction itself, which accepts
  any argument list. An interface-typed parameter stands for the empty
  interface and accepts any argument.
- Goop.Apply: accepts an argument by kind. Go also requires the argument's
  type to be assignable to the parameter's type. So a call whose kinds
  match but whose types differ panics in the source, and returns in the
  model (goop.go:350, 381). Examples are a `[]string` argument for a
  `[]int` parameter, a named int type, another func type given a
  MetaFunction, or a pointer parameter given ErrNotFound. The dispatcher
  compares kinds only (goop.go:307, 318), so it can select such a function.
  `Dispatch.ExactSignatureApplies`, `Dispatch.DispatchNeverPanics`,
  `Calls.CallPassesReceiver` and `Calls.CallThroughCombined` hold only when
  each parameter accepts every value of its kind.
- The loops that convert between interface values and reflection values
  (the argument lists in New, the dispatcher and Call, and the result
  lists) are modelled as the identity on sequences.
- Signatures are modelled as sequences of kinds, not strings of kind bytes.
  The encoding is one byte per kind, so equal strings are exactly equal
  sequences.
- The callables' code is a pure function of the callable and the
  arguments. What user code does to objects during `New` or `Call` (the
  constructor setting members, a method changing `x`) is not modelled.
- Objects.New: the new object is stated to be empty even when a
  constructor is given. The constructor's own `Set` calls fall under the
  previous item.
- Only acyclic prototype graphs are modelled (the `Acyclic` precondition
  with a ranking). On a cyclic graph the source's `Contents` always
  recurses without end (goop.go:280-282). `Get` does so only when the
  search re-enters the cycle before it finds the name. An own member is
  returned before any recursion (goop.go:249-251), and the search stops at
  the first hit in a prototype (goop.go:258-260). So `Get` and `Call` also
  end on some cyclic graphs: an object that is its own prototype, for
  example, returns its own members. The `Acyclic` precondition excludes
  those inputs too.
- Go's map iteration order in `Contents` is not modelled. Each loop over a
  map is modelled as a loop over its key set in an arbitrary order, and
  the inner copy of a prototype's contents as one map overlay.
- CombineFunctions takes `Callable`s. The source would panic inside
  reflection when given a non-function; that case is not modelled.
- Float values are opaque 64-bit patterns. No float arithmetic happens in
  the core.
- The documentation's example programs are not modelled as programs
  (LCMCalculator, `distance` with `math.Sqrt`). Only the `moveBy` dispatch
  is instantiated.
- The smoke tests in goop_test.go are not modelled. They use a zero-value
  `Object` whose nil state the source dereferences.
- Concurrency is not modelled. The package has no locking, and the model is
  sequential.
- `Contents(false)` is modelled as the code does it: functions are
  filtered at each level before merging. It is not modelled as "all
  effective members that are not functions".
  `Enumeration.ShadowedDataReappears` shows where the two differ.
- Storing ErrNotFound as a member is modelled, not excluded. Own lookup
  returns it, but a prototype's answer equal to it is skipped. For that
  reason `Enumeration.ContentsAgreesWithGet` requires that no object stores it.
