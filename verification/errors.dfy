/**
  The failure vocabulary of the bridge.

  Recoverable failures are `ClipsErrorKind` values inside a `Result`; the
  Rust panics of the library (`unreachable!`, `unimplemented!`, `panic!`,
  a failed `unwrap`) are not values the host can observe, so a call that may
  panic yields a `Call`, which either returns or aborts with a `Fault`.
*/
module Errors {

  /** The error kinds the library reports to its caller (src/lib.rs:26-49). */
  datatype ClipsErrorKind =
    | CreateEnvironmentError
    | ClearError
    | LoadFromStringError(source: string)
    | RemoveUdfError(name: string)
    | BatchStarError(file: string)
    | LoadOpenFileError(path: string)
    | LoadParsingError(path: string)
    | AddUdfMinExceedsMaxError(name: string)
    | AddUdfFunctionNameInUseError(name: string)
    | AddUdfInvalidArgumentTypeError(name: string)
    | AddUdfInvalidReturnTypeError(name: string)

  datatype Option<+T> = None | Some(value: T)

  datatype Result<+T> = Ok(value: T) | Err(kind: ClipsErrorKind)

  /** Why a call aborts instead of returning. */
  datatype Fault =
    | Unreachable                 // `unreachable!()` on an engine code no arm maps
    | Unimplemented(what: string) // `unimplemented!(what)`
    | UnknownTag                  // the bare `panic!()` on an unrecognised value tag
    | InteriorNul                 // `CString::new(..).unwrap()` on text holding a NUL

  /** The outcome of a call that may panic. */
  datatype Call<+T> = Returns(value: T) | Panics(fault: Fault)

  /** The text an error carries: the path, name, file or source it is about. */
  function Subject(kind: ClipsErrorKind): Option<string>
  {
    match kind
    case CreateEnvironmentError => None
    case ClearError => None
    case LoadFromStringError(s) => Some(s)
    case RemoveUdfError(s) => Some(s)
    case BatchStarError(s) => Some(s)
    case LoadOpenFileError(s) => Some(s)
    case LoadParsingError(s) => Some(s)
    case AddUdfMinExceedsMaxError(s) => Some(s)
    case AddUdfFunctionNameInUseError(s) => Some(s)
    case AddUdfInvalidArgumentTypeError(s) => Some(s)
    case AddUdfInvalidReturnTypeError(s) => Some(s)
  }

  /**
    The shape shared by `clear`, `load_from_str`, `remove_udf` and
    `batch_star`: the engine answers with a success flag, and a false flag
    becomes the operation's own error.
  */
  function FromFlag(success: bool, failure: ClipsErrorKind): (r: Result<()>)
    ensures r.Ok? <==> success
    ensures r.Err? ==> r.kind == failure
  {
    if success then Ok(()) else Err(failure)
  }
}
