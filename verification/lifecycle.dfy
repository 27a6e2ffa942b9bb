/**
  The `Environment` handle: who owns the engine instance, and the
  operations whose only logic is turning an engine answer into a result.
*/
module Lifecycle {
  import opened Errors
  import opened CText
  import opened ValueBridge

  /** `Environment` (src/lib.rs:75-79): the engine pointer and whether this handle owns it. */
  datatype Environment = Environment(raw: Address, cleanup: bool)

  /**
    `create_environment` (src/lib.rs:617-624), given what the engine's
    `CreateEnvironment` returned: a null pointer (`None`) is an error,
    anything else becomes an owning handle.
  */
  function CreateEnvironment(created: Option<Address>): (r: Result<Environment>)
    ensures r.Err? <==> created.None?
    ensures r.Err? ==> r.kind == CreateEnvironmentError
    ensures r.Ok? ==> r.value.cleanup && r.value.raw == created.value
  {
    match created
    case None => Err(CreateEnvironmentError)
    case Some(raw) => Ok(Environment(raw, true))
  }

  /** `Environment::from_ptr` (src/lib.rs:82-87): a view that does not own the engine. */
  function FromPtr(raw: Address): (env: Environment)
    ensures env.raw == raw && !env.cleanup
  {
    Environment(raw, false)
  }

  /** The engines that `Drop` (src/lib.rs:626-632) destroys: the handle's own, and only if it owns it. */
  function Drop(env: Environment): (destroyed: seq<Address>)
    ensures |destroyed| <= 1
    ensures destroyed != [] <==> env.cleanup
    ensures forall a | a in destroyed :: a == env.raw
  {
    if env.cleanup then [env.raw] else []
  }

  /** The engines destroyed by dropping every handle in `envs`, in order. */
  function DropAll(envs: seq<Environment>): seq<Address>
  {
    if |envs| == 0 then [] else Drop(envs[0]) + DropAll(envs[1..])
  }

  /** Views own nothing, so dropping them destroys nothing. */
  lemma {:induction false} ViewsDestroyNothing(views: seq<Environment>)
    requires forall i | 0 <= i < |views| :: !views[i].cleanup
    ensures DropAll(views) == []
  {
    if |views| > 0 {
      ViewsDestroyNothing(views[1..]);
    }
  }

  /**
    One owning handle (the kind `create_environment` returns) and any number of `from_ptr` views
    of the same engine (those the UDF handler builds): releasing them all
    destroys that engine, and it exactly once.
  */
  lemma {:induction false} DestroyedExactlyOnce(owner: Environment, views: seq<Environment>)
    requires owner.cleanup
    requires forall i | 0 <= i < |views| :: views[i] == FromPtr(owner.raw)
    ensures DropAll([owner] + views) == [owner.raw]
  {
    ViewsDestroyNothing(views);
    DropAllCons(owner, views);
  }

  lemma DropAllCons(env: Environment, envs: seq<Environment>)
    ensures DropAll([env] + envs) == Drop(env) + DropAll(envs)
  {
    assert ([env] + envs)[1..] == envs;
  }

  /** `Environment::clear` (src/lib.rs:89-95), given the engine's `Clear` flag. */
  function Clear(cleared: bool): (r: Result<()>)
    ensures r.Ok? <==> cleared
    ensures r.Err? ==> r.kind == ClearError
  {
    FromFlag(cleared, ClearError)
  }

  /**
    `Environment::load_from_str` (src/lib.rs:97-103), given the engine's
    `LoadFromString` flag. The text is passed with its length, not as a C
    string, so a NUL inside it cannot make the call panic.
  */
  function LoadFromStr(source: string, loaded: bool): (r: Result<()>)
    ensures r.Ok? <==> loaded
    ensures r.Err? ==> r.kind == LoadFromStringError(source)
  {
    FromFlag(loaded, LoadFromStringError(source))
  }

  /** The engine's `LoadError` codes; `LeOther` is any value the bridge does not name. */
  datatype LoadCode = LeNoError | LeOpenFileError | LeParsingError | LeOther(code: int)

  /** The code-to-result mapping of `Environment::load` (src/lib.rs:109-118). */
  function LoadOutcome(code: LoadCode, path: string): (r: Call<Result<()>>)
    ensures r.Panics? <==> code.LeOther?
    ensures r.Panics? ==> r.fault == Unreachable
    ensures r.Returns? ==> (r.value.Ok? <==> code == LeNoError)
    ensures r.Returns? && r.value.Err? ==> Subject(r.value.kind) == Some(path)
  {
    match code
    case LeNoError => Returns(Ok(()))
    case LeOpenFileError => Returns(Err(LoadOpenFileError(path)))
    case LeParsingError => Returns(Err(LoadParsingError(path)))
    case LeOther(_) => Panics(Unreachable)
  }

  /** The engine code a `load` result reports. */
  function LoadCodeOf(r: Result<()>): LoadCode
  {
    match r
    case Ok(_) => LeNoError
    case Err(LoadOpenFileError(_)) => LeOpenFileError
    case Err(LoadParsingError(_)) => LeParsingError
    case Err(_) => LeOther(-1)
  }

  /** `load` loses nothing: the engine code can be read back from every result it returns. */
  lemma LoadOutcomeInvertible(code: LoadCode, path: string)
    requires !code.LeOther?
    ensures LoadOutcome(code, path).Returns?
    ensures LoadCodeOf(LoadOutcome(code, path).value) == code
  {
  }

  /**
    `Environment::load` (src/lib.rs:105-119): the path goes to the engine
    as a C string, so a NUL in it panics before the engine is asked;
    `engine` is the engine's `Load` as a function of the path it receives.
  */
  function Load(path: string, engine: string -> LoadCode): (r: Call<Result<()>>)
    ensures '\0' in path ==> r == Panics(InteriorNul)
    ensures '\0' !in path ==> r == LoadOutcome(engine(path), path)
  {
    match CStringNew(path)
    case Panics(f) => Panics(f)
    case Returns(p) => LoadOutcome(engine(p), path)
  }

  /** Only the path variant can fail to open a file; only the string variant reports its source. */
  lemma LoadVariantsDistinct(path: string, source: string, code: LoadCode, loaded: bool)
    ensures LoadFromStr(source, loaded).Err? ==>
              !LoadFromStr(source, loaded).kind.LoadOpenFileError? && !LoadFromStr(source, loaded).kind.LoadParsingError?
    ensures LoadOutcome(code, path).Returns? && LoadOutcome(code, path).value.Err? ==>
              !LoadOutcome(code, path).value.kind.LoadFromStringError?
  {
  }

  /**
    `Environment::batch_star` (src/lib.rs:234-241), given the engine's
    `BatchStar` flag as a function of the file name it receives.
  */
  function BatchStar(file: string, engine: string -> bool): (r: Call<Result<()>>)
    ensures r.Panics? <==> '\0' in file
    ensures r.Returns? ==> (r.value.Ok? <==> engine(file))
    ensures r.Returns? && r.value.Err? ==> r.value.kind == BatchStarError(file)
  {
    match CStringNew(file)
    case Panics(f) => Panics(f)
    case Returns(f) => Returns(FromFlag(engine(f), BatchStarError(file)))
  }
}
