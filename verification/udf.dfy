/**
  User-defined functions: registering a host closure with the engine
  (`add_udf`), removing it (`remove_udf`), and the handler the engine calls
  for every registered function (`udf_handler`).
*/
module Udf {
  import opened Errors
  import opened CText
  import TypeDescriptor
  import opened Separated
  import opened ValueBridge
  import opened Iterators
  import opened Lifecycle

  /** Rust's `u16`, the type of the arity bounds. */
  type uint16 = x: int | 0 <= x < 0x1_0000

  /** The engine's `AddUDFError` codes; `AueOther` is any value the bridge does not name. */
  datatype AddUdfCode =
    | AueNoError
    | AueMinExceedsMax
    | AueFunctionNameInUse
    | AueInvalidArgumentType
    | AueInvalidReturnType
    | AueOther(code: int)

  /** What `add_udf` hands to the engine's `AddUDF`. */
  datatype Registration = Registration(
    name: string,
    returnTypes: Option<string>,
    minArgs: uint16,
    maxArgs: uint16,
    argTypes: string)

  /**
    The registration request `add_udf` builds (src/lib.rs:167-195): the
    name, the rendered return type when one is given, the arity bounds as
    given, and one `;`-separated segment per argument type.
  */
  function Request(name: string, returnTypes: Option<TypeDescriptor.Type>, minArgs: uint16, maxArgs: uint16,
                   argTypes: seq<TypeDescriptor.Type>): (reg: Registration)
    ensures reg.name == name && reg.minArgs == minArgs && reg.maxArgs == maxArgs
    ensures reg.returnTypes.Some? <==> returnTypes.Some?
    ensures returnTypes.Some? ==> reg.returnTypes.value == "*"
    ensures |argTypes| == 0 ==> reg.argTypes == ""
    ensures |argTypes| > 0 ==> |Split(reg.argTypes, ';')| == |argTypes|
    ensures forall i | 0 <= i < |argTypes| :: Split(reg.argTypes, ';')[i] == "*"
    ensures '\0' !in reg.argTypes
  {
    var ret := match returnTypes
      case Some(t) => Some(TypeDescriptor.Format(t))
      case None => None;
    var args := TypeDescriptor.ArgTypeString(argTypes);
    assert |argTypes| > 0 ==> |Split(args, ';')| == |argTypes| && forall i | 0 <= i < |argTypes| :: Split(args, ';')[i] == "*" by {
      if |argTypes| > 0 {
        TypeDescriptor.ArgTypesAllWildcards(argTypes);
      }
    }
    Registration(name, ret, minArgs, maxArgs, args)
  }

  /** The code-to-result mapping of `add_udf` (src/lib.rs:198-213). */
  function AddUdfOutcome(code: AddUdfCode, name: string): (r: Call<Result<()>>)
    ensures r.Panics? <==> code.AueOther?
    ensures r.Panics? ==> r.fault == Unreachable
    ensures r.Returns? ==> (r.value.Ok? <==> code == AueNoError)
    ensures r.Returns? && r.value.Err? ==> Subject(r.value.kind) == Some(name)
  {
    match code
    case AueNoError => Returns(Ok(()))
    case AueMinExceedsMax => Returns(Err(AddUdfMinExceedsMaxError(name)))
    case AueFunctionNameInUse => Returns(Err(AddUdfFunctionNameInUseError(name)))
    case AueInvalidArgumentType => Returns(Err(AddUdfInvalidArgumentTypeError(name)))
    case AueInvalidReturnType => Returns(Err(AddUdfInvalidReturnTypeError(name)))
    case AueOther(_) => Panics(Unreachable)
  }

  /** The engine code an `add_udf` result reports. */
  function AddUdfCodeOf(r: Result<()>): AddUdfCode
  {
    match r
    case Ok(_) => AueNoError
    case Err(AddUdfMinExceedsMaxError(_)) => AueMinExceedsMax
    case Err(AddUdfFunctionNameInUseError(_)) => AueFunctionNameInUse
    case Err(AddUdfInvalidArgumentTypeError(_)) => AueInvalidArgumentType
    case Err(AddUdfInvalidReturnTypeError(_)) => AueInvalidReturnType
    case Err(_) => AueOther(-1)
  }

  /** `add_udf` loses nothing: the engine code can be read back from every result it returns. */
  lemma AddUdfOutcomeInvertible(code: AddUdfCode, name: string)
    requires !code.AueOther?
    ensures AddUdfOutcome(code, name).Returns?
    ensures AddUdfCodeOf(AddUdfOutcome(code, name).value) == code
  {
  }

  /**
    `Environment::add_udf` (src/lib.rs:157-214); `engine` is the engine's
    `AddUDF` as a function of the request it receives. A name holding a NUL
    panics before the engine is asked.
  */
  function AddUdf(name: string, returnTypes: Option<TypeDescriptor.Type>, minArgs: uint16, maxArgs: uint16,
                  argTypes: seq<TypeDescriptor.Type>, engine: Registration -> AddUdfCode): (r: Call<Result<()>>)
    ensures '\0' in name ==> r == Panics(InteriorNul)
    ensures '\0' !in name ==>
              r == AddUdfOutcome(engine(Request(name, returnTypes, minArgs, maxArgs, argTypes)), name)
  {
    match CStringNew(name)
    case Panics(f) => Panics(f)
    case Returns(n) =>
      // The argument-type string never holds a NUL, so its own `unwrap` cannot panic.
      var reg := Request(n, returnTypes, minArgs, maxArgs, argTypes);
      assert CStringNew(reg.argTypes).Returns?;
      AddUdfOutcome(engine(reg), name)
  }

  /**
    `Environment::remove_udf` (src/lib.rs:216-223); `engine` is the
    engine's `RemoveUDF` flag as a function of the name it receives.
  */
  function RemoveUdf(name: string, engine: string -> bool): (r: Call<Result<()>>)
    ensures r.Panics? <==> '\0' in name
    ensures r.Returns? ==> (r.value.Ok? <==> engine(name))
    ensures r.Returns? && r.value.Err? ==> r.value.kind == RemoveUdfError(name)
  {
    match CStringNew(name)
    case Panics(f) => Panics(f)
    case Returns(n) => Returns(FromFlag(engine(n), RemoveUdfError(name)))
  }

  /** A registered closure: the host function the engine calls back. */
  type Closure = (Environment, UdfContext) -> ClipsValue

  /** The effect of one handler invocation on the engine: its return slot, and the engines destroyed. */
  datatype Invocation = Invocation(slot: EngineValue, destroyed: seq<Address>)

  /**
    `udf_handler` as evidently intended (src/lib.rs:245-264): call the
    closure with a non-owning view of the engine and the call context,
    write its result into the engine's return slot, then release the view.
  */
  function Handler(raw: Address, ctx: UdfContext, closure: Closure, slot: EngineValue): (r: Call<Invocation>)
    ensures r.Returns? <==> closure(FromPtr(raw), ctx).Void?
    ensures r.Panics? ==> r.fault.Unimplemented?
    ensures r.Returns? ==> r.value.destroyed == []
    ensures r.Returns? ==> forall text :: Decode(r.value.slot, text) == Returns(closure(FromPtr(raw), ctx))
  {
    var view := FromPtr(raw);
    var result := closure(view, ctx);
    match SetFrom(result)
    case Panics(f) => Panics(f)
    case Returns(written) => Returns(Invocation(written, Drop(view)))
  }

  /**
    `udf_handler` as written: `unsafe { *return_value }` copies the engine's
    return slot into a temporary (the expression compiles only because the
    slot type is `Copy`), and `set_from` writes into that copy. The engine's
    slot keeps whatever it held before the call.
  */
  function HandlerAsWritten(raw: Address, ctx: UdfContext, closure: Closure, slot: EngineValue): (r: Call<Invocation>)
    ensures r.Returns? <==> closure(FromPtr(raw), ctx).Void?
    ensures r.Returns? ==> r.value.slot == slot && r.value.destroyed == []
  {
    var view := FromPtr(raw);
    var result := closure(view, ctx);
    match SetFrom(result)
    case Panics(f) => Panics(f)
    case Returns(_) => Returns(Invocation(slot, Drop(view)))  // what was written is discarded with the copy
  }

  /** A closure returning `Void` leaves a non-void return slot unchanged in the handler as written. */
  lemma HandlerLosesResult(raw: Address, ctx: UdfContext, closure: Closure, slot: EngineValue)
    requires closure(FromPtr(raw), ctx) == Void
    requires !slot.VoidValue?
    ensures HandlerAsWritten(raw, ctx, closure, slot).Returns?
    ensures HandlerAsWritten(raw, ctx, closure, slot).value.slot == slot
    ensures Handler(raw, ctx, closure, slot).value.slot == VoidValue
  {
  }
}
