# clips-rs bridge model

A Dafny model of `clips`, the Rust bridge to the CLIPS rule engine (`src/lib.rs`). The bridge owns or borrows a CLIPS environment and releases it on drop. It turns the engine's status codes and flags into `ClipsError` kinds, and converts values between the engine's tagged records and the host's `ClipsValue`. It also registers host closures as user-defined functions (UDFs) and runs them from the engine's callback.

The engine is outside the model. Every answer it gives is a parameter:
- the created pointer;
- the success flags of `Clear`, `LoadFromString`, `BatchStar` and `RemoveUDF`;
- the `LoadError` and `AddUDFError` codes;
- the instance list and the UDF argument list;
- the bytes behind each lexeme.

A Rust panic (`unreachable!`, `unimplemented!`, `CString::new(..).unwrap()` on an interior NUL) is a value, `Panics(fault)`, of the total result type `Errors.Call`, and each contract says exactly when its operation panics. The only preconditions are invariants the engine keeps:
- the instance list holds no pointer twice, and an iterator's cursor is null or one of its instances (`Iterators.NextInstance`, `Iterators.CollectInstances`);
- every slot name a class lists can be fetched (`Iterators.Slots`).

Modules, one per concern of the source:

- `Errors`: error kinds, `Result`, panic faults, and the flag-to-result shape.
- `CText`: bytes, lossy decoding, and `CString::new`.
- `Separated`: joining on `;` and splitting back.
- `TypeDescriptor`: the `Type` bitmask and its format string.
- `ValueBridge`: engine records ⇄ `ClipsValue`, and the UDF return slot.
- `Iterators`: the instance iterator, the argument iterator and instance slots.
- `Lifecycle`: environment creation and drop, and the loaders.
- `Udf`: `add_udf`, `remove_udf` and the callback handler.

## Model

| member | source | states |
|---|---|---|
| Errors.FromFlag | src/lib.rs:89-95 | A flag-returning engine call is `Ok` exactly when the flag is set; otherwise the error is the given kind |
| CText.CStringNew | src/lib.rs:167 | Converting a name returns the same text exactly when the text holds no NUL, and panics with `InteriorNul` otherwise |
| Separated.SplitJoin | src/lib.rs:172-179 | Splitting the `;`-joined list of segments that contain no `;` gives the segments back |
| Separated.SplitCount | src/lib.rs:172-179 | Splitting on `;` gives one more segment than there are separators |
| Separated.JoinSeparators | src/lib.rs:177 | Joining n segments that contain no `;` puts exactly n-1 separators into the result |
| TypeDescriptor.CodeRoundTrip | src/lib.rs:471-503 | Each type bit has its own letter, and the letter maps back to the bit |
| TypeDescriptor.CanonicalListingUnique | src/lib.rs:471-503 | There is only one listing of a bit set in the order the format checks the bits |
| TypeDescriptor.FormatBits | src/lib.rs:469-505 | The per-bit branch spells the set bits in the order the branch tests them (b d e f i l m n s y v), one letter per bit |
| TypeDescriptor.FormatBitsLetters | src/lib.rs:469-505 | Every letter of the per-bit branch names a set bit, every set bit has its letter there, and only the empty mask spells nothing |
| TypeDescriptor.Format | src/lib.rs:463-467 | As written, the format is `*` for every mask, because `ANY` is the empty mask and every mask contains it |
| TypeDescriptor.FormatIntended | src/lib.rs:463-506 | The corrected format is `*` exactly for the empty mask; otherwise it is the canonical spelling of the set bits |
| TypeDescriptor.FormatIntendedInjective | src/lib.rs:463-506 | The corrected format sends different masks to different strings |
| TypeDescriptor.FormatIgnoresBits | src/lib.rs:459-467 | For `INTEGER \| SYMBOL`, the format as written gives `*`, where `ly` was intended |
| TypeDescriptor.ArgTypeString | src/lib.rs:172-179 | The argument-type string is empty for no types. Otherwise splitting it on `;` gives each type's format, in order, with n-1 separators and no NUL |
| TypeDescriptor.ArgTypesAllWildcards | src/lib.rs:172-179 | As written, the argument-type string for n types is n `*` entries, 2n-1 characters long |
| ValueBridge.Decode | src/lib.rs:330-381 | Decoding an engine value returns exactly when no external, fact or instance address and no unknown tag occurs at any depth. The result has the same kind as the engine tag. An address tag panics with its own `unimplemented!` message, an unknown tag with the bare `panic!`, and a multifield with the fault of its first undecodable element |
| ValueBridge.DecodeAll | src/lib.rs:351-362 | A multifield decodes exactly when every element decodes. The result has one entry per element, in order, each the element's own decoding. On failure the fault is that of an element preceded only by decodable ones |
| ValueBridge.DecodeRepresent | src/lib.rs:330-381 | Every host value the engine can carry decodes from its engine record back to itself |
| ValueBridge.RepresentDecode | src/lib.rs:330-381 | Every decodable engine value is the record of its own decoding, given lossless text |
| ValueBridge.SetFrom | src/lib.rs:429-444 | Writing a host value into the return slot succeeds exactly for `Void`, and yields a decodable record of the same kind. Every other variant panics as unimplemented |
| ValueBridge.SetFromRoundTrip | src/lib.rs:429-444 | What `set_from` writes decodes back to the value written |
| ValueBridge.DecodeArgumentAsWritten | src/lib.rs:383-411 | The argument decoder as written agrees with `Decode` on everything except multifields of two or more elements. On such a multifield it decodes element 0 in place and reads each element i ≥ 1 as `beyond(i)`. It returns exactly when all of those decode, and then keeps the length |
| ValueBridge.ArgumentMultifieldMisread | src/lib.rs:404-408 | As written, the argument multifield `(1 2)` comes back with its second element taken from past the copied record |
| Iterators.NextInstance | src/lib.rs:514-530 | The first step yields the first instance, and each step then yields the successor. After the last instance the iterator yields nothing and is back at its start |
| Iterators.CollectInstances | src/lib.rs:129-134 | Draining the instance iterator yields every instance once, in the engine's order. The iterator is left at its start, so the next step yields the first instance again |
| Iterators.NextArgument | src/lib.rs:276-310 | The argument iterator as written yields nothing exactly when no argument remains (`has_next_argument`). Otherwise it consumes one argument and yields its `From<UDFValue>` conversion. On an argument that is not a multifield of two or more elements, it steps exactly as the intended iterator does |
| Iterators.NextArgumentIntended | src/lib.rs:276-310 | The corrected argument iterator yields nothing exactly when no argument remains. Otherwise it consumes one argument and yields that argument's in-place decoding, returning exactly when the argument decodes |
| Iterators.ArgumentIteratorMisreads | src/lib.rs:290 | For the argument `(1 2)`, the iterator as written yields `(1 <past the copy>)`, where the intended one yields `(1 2)` |
| Iterators.CollectArguments | src/lib.rs:276-298 | Draining the argument iterator as written gives every argument's `From<UDFValue>` conversion, in order, and returns exactly when every conversion does. When no argument is a multifield of two or more elements, it returns exactly when every argument decodes, and gives their decodings |
| Iterators.CollectArgumentsIntended | src/lib.rs:276-298 | Draining the corrected iterator returns exactly when every argument decodes, and then gives all the arguments' decodings in order |
| Iterators.SlotNames | src/lib.rs:584-590 | Slot names are the class's slot names, decoded one for one, in order |
| Iterators.Slots | src/lib.rs:592-608 | The slot list pairs each slot name, in order, with that slot's decoded value. It returns exactly when every slot value decodes |
| Lifecycle.CreateEnvironment | src/lib.rs:617-624 | Creation fails with `CreateEnvironmentError` exactly when the engine gives no environment. Otherwise the result owns that environment |
| Lifecycle.FromPtr | src/lib.rs:82-87 | A view of an existing environment points at it and does not own it |
| Lifecycle.Drop | src/lib.rs:626-632 | Dropping destroys at most one environment: the one it points at, and only when it owns it |
| Lifecycle.DestroyedExactlyOnce | src/lib.rs:617-632 | An owned environment and any number of views of it, all dropped, destroy that environment exactly once |
| Lifecycle.Clear | src/lib.rs:89-95 | Clearing is `Ok` exactly when the engine reports success, and is `ClearError` otherwise |
| Lifecycle.LoadFromStr | src/lib.rs:97-103 | Loading from a string is `Ok` exactly when the engine reports success. Otherwise the error carries the source text |
| Lifecycle.LoadOutcome | src/lib.rs:109-118 | The three named `LoadError` codes map to `Ok`, `LoadOpenFileError(path)` and `LoadParsingError(path)`. Any other code panics as unreachable |
| Lifecycle.LoadOutcomeInvertible | src/lib.rs:109-118 | The engine code can be recovered from every non-panicking load outcome |
| Lifecycle.Load | src/lib.rs:105-119 | Loading a path panics on an interior NUL. Otherwise it is the outcome of the code the engine returns for that path |
| Lifecycle.LoadVariantsDistinct | src/lib.rs:97-118 | Loading from a string and loading from a file never report the same error |
| Lifecycle.BatchStar | src/lib.rs:234-241 | Batch loading panics on an interior NUL. Otherwise it is `Ok` exactly when the engine reports success, and `BatchStarError(file)` otherwise |
| Udf.Request | src/lib.rs:167-195 | The registration sent to the engine carries the name, the optional return type formatted as `*`, the arity bounds, and one `*` argument entry per declared type |
| Udf.AddUdfOutcome | src/lib.rs:198-213 | Each named `AddUDFError` code maps to its own error kind carrying the UDF name. Any other code panics as unreachable |
| Udf.AddUdfOutcomeInvertible | src/lib.rs:198-213 | The engine code can be recovered from every non-panicking registration outcome |
| Udf.AddUdf | src/lib.rs:157-214 | Registering panics with `InteriorNul` exactly when the name holds a NUL. Otherwise it is the outcome of the code the engine returns for the request |
| Udf.RemoveUdf | src/lib.rs:216-223 | Removing panics on an interior NUL. Otherwise it is `Ok` exactly when the engine reports success, and `RemoveUDFError(name)` otherwise |
| Udf.Handler | src/lib.rs:245-264 | The corrected handler returns exactly when the closure returns `Void`. It leaves the return slot decoding to the closure's result and destroys no environment |
| Udf.HandlerAsWritten | src/lib.rs:245-264 | The handler as written returns under the same condition, but leaves the engine's return slot as it was |
| Udf.HandlerLosesResult | src/lib.rs:263 | When the slot held a non-void value, the handler as written leaves it in place, where the corrected handler writes `Void` |

## Left out

- `reset`, `run` and `command_loop` (src/lib.rs:121-127, 136-138): each makes one engine call with the environment pointer (and, for `run`, the limit). `run` returns the engine's count unchanged, while `reset` and `command_loop` return nothing, so nothing is left to state.
- `void_constant` (src/lib.rs:225-227) calls nothing: it reads the environment's `VoidConstant` field. The model writes the void record as `VoidValue` without naming that field.
- `route_command` and `save_instances` (src/lib.rs:140-143, 229-232): each converts its text with `CString::new(..).unwrap()`, which panics on an interior NUL exactly as `CText.CStringNew` states, and then makes one engine call. `save_instances` returns that call's count unchanged, while `route_command` discards `RouteCommand`'s flag. They are not modelled as members of their own.
- `Instance::name` and `Instance::class_name` (src/lib.rs:544-558): they return engine text through `to_str().unwrap()`. The only behaviour of the bridge there is a panic on invalid UTF-8, which the model does not represent, because text is already decoded by the `TextDecoder` parameter.
- Lossy UTF-8 decoding (`to_string_lossy`) is the `TextDecoder` parameter. Whether a name is borrowed or owned (`Cow`) is not modelled.
- `load` converts the path with `path.to_str().unwrap()`. Paths are modelled as text, so the panic on a non-UTF-8 path is not.
- Floats are carried as their 64-bit pattern and never computed with.
- The engine's constant values (`FLOAT_TYPE`, `AUE_*`, `LE_*`) are modelled as enumeration members, not numbers.
- Reading `contents[i]` for i ≥ 1 past the stack copy of the multifield record is undefined behaviour in Rust, and may crash rather than yield a value. `beyond` models only the outcome where that memory reads as some engine value. It is one arbitrary function per call of the argument iterator, shared by all arguments, and the model does not say what the stack holds there.
- The engine's own checks are outside the model, so their outcome is the engine code parameter. These are: the argument-type mask passed to `UDFNextArgument`, which asks for every type; argument evaluation; and the minimum-exceeds-maximum and name-in-use checks inside `AddUDF`.
- The double-boxed closure pointer stored in the UDF context and recovered in `udf_handler` (src/lib.rs:169, 194, 250-254) is modelled by passing the closure directly. The box is never freed in the source; that leak is not modelled.
- The return-type pointer at src/lib.rs:186 dangles. The `String` that `format()` builds is a temporary of the match arm, so it is dropped before `AddUDF` runs. It also has no NUL terminator, so even a live copy would let the engine read past `*`. `Udf.Request`'s `Some("*")` is the text the bridge means to send.
- The slot-value pointer at src/lib.rs:593 borrows a temporary that lives to the end of `slots`, by Rust's temporary lifetime extension. The model takes it as valid for the whole call.
- The `inherit` flag of `slot_names_c` (always `true`) is not a parameter.
- `Display` and `Error::source` of `ClipsError`, and the `println!` of an unknown tag, are not modelled.
- Lifetimes and the borrow of the environment by iterators are not modelled.
- As written (src/lib.rs:517-528), after yielding nothing the instance iterator's cursor is null again, so the next call starts over from the first instance: the iterator is not fused. The model follows the code.
- `Udf.Request` and `TypeDescriptor.ArgTypeString` use the format as written, not the corrected one, because that is what the bridge sends to the engine.

## Findings

| source | as written | input that shows it | evidently intended | confidence | as-written member | corrected member |
|---|---|---|---|---|---|---|
| src/lib.rs:459-467 | `ANY` is the empty mask and `contains(ANY)` holds for every mask, so `format` always returns `*` | `Type::INTEGER \| Type::SYMBOL` formats as `*` | `*` only for the empty mask; otherwise the letters of the set bits (`ly`) | not executed; high | TypeDescriptor.Format, TypeDescriptor.FormatIgnoresBits | TypeDescriptor.FormatIntended |
| src/lib.rs:404-408 | The multifield record is copied by value, and elements at index 1 and above are read past the copy's one-element `contents` | a UDF argument `(create$ 1 2)` | read every element through the engine's pointer, as src/lib.rs:351-361 does | not executed; medium | ValueBridge.DecodeArgumentAsWritten, ValueBridge.ArgumentMultifieldMisread, Iterators.NextArgument, Iterators.CollectArguments, Iterators.ArgumentIteratorMisreads | ValueBridge.Decode, Iterators.NextArgumentIntended, Iterators.CollectArgumentsIntended |
| src/lib.rs:263 | `unsafe { *return_value }.set_from(..)` writes into a temporary copy of the return slot | a UDF whose closure returns `Void`, called where the slot holds a non-void value | write through `return_value` into the engine's slot | not executed; medium | Udf.HandlerAsWritten, Udf.HandlerLosesResult | Udf.Handler |
