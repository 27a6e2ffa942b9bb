/**
  Cursor iterators over engine-owned lists: the instance list walked with
  `GetNextInstance`, the UDF argument chain walked with `UDFNextArgument`,
  and the slots of one instance.
*/
module Iterators {
  import opened Errors
  import opened CText
  import opened ValueBridge

  /** No pointer occurs twice: the engine's lists are linked lists of distinct nodes. */
  predicate Distinct(list: seq<Address>)
  {
    forall i, j | 0 <= i < j < |list| :: list[i] != list[j]
  }

  /** The position of a live node in the engine's list. */
  function IndexOf(list: seq<Address>, a: Address): (k: nat)
    requires a in list
    ensures k < |list| && list[k] == a
  {
    if list[0] == a then 0 else 1 + IndexOf(list[1..], a)
  }

  /**
    The engine's `GetNextInstance`: from the null cursor (`None`) the first
    instance, from an instance the one after it, and null after the last.
  */
  function GetNextInstance(list: seq<Address>, current: Option<Address>): Option<Address>
    requires current.Some? ==> current.value in list
  {
    match current
    case None => if |list| == 0 then None else Some(list[0])
    case Some(a) =>
      var k := IndexOf(list, a);
      if k + 1 < |list| then Some(list[k + 1]) else None
  }

  /** `InstanceIterator`: the cursor, null before the first instance and after the last. */
  datatype InstanceIterator = InstanceIterator(current: Option<Address>)

  /** `Environment::instances_iter` (src/lib.rs:129-134): a fresh iterator starts at the null cursor. */
  const InstancesIter: InstanceIterator := InstanceIterator(None)

  datatype InstanceStep = InstanceStep(iter: InstanceIterator, item: Option<Address>)

  /**
    `InstanceIterator::next` (src/lib.rs:517-528): advance the cursor, and
    yield the instance it now points at, or nothing once it is null.
  */
  function NextInstance(list: seq<Address>, it: InstanceIterator): (s: InstanceStep)
    requires Distinct(list)
    requires it.current.Some? ==> it.current.value in list
    ensures s.item == s.iter.current
    ensures s.item.Some? ==> s.item.value in list
    ensures it.current.None? ==> s.item == (if |list| == 0 then None else Some(list[0]))
    ensures forall k | 0 <= k < |list| && it.current == Some(list[k]) ::
              s.item == (if k + 1 < |list| then Some(list[k + 1]) else None)
  {
    var next := GetNextInstance(list, it.current);
    assert forall k | 0 <= k < |list| && it.current == Some(list[k]) :: IndexOf(list, list[k]) == k;
    InstanceStep(InstanceIterator(next), next)
  }

  /**
    Draining a fresh iterator yields every instance exactly once, in the
    engine's order; the cursor is then null again, so one more `next`
    starts over from the first instance.
  */
  method CollectInstances(list: seq<Address>) returns (items: seq<Address>, rest: InstanceIterator)
    requires Distinct(list)
    ensures items == list
    ensures rest == InstancesIter
    ensures NextInstance(list, rest).item == (if |list| == 0 then None else Some(list[0]))
  {
    items := [];
    var it := InstancesIter;
    var step := NextInstance(list, it);
    while step.item.Some?
      invariant |items| < |list| ==> step.item == Some(list[|items|])
      invariant |items| <= |list|
      invariant |items| == |list| ==> step.item.None?
      invariant items == list[..|items|]
      invariant step.iter.current == step.item
      decreases |list| - |items|
    {
      items := items + [step.item.value];
      step := NextInstance(list, step.iter);
    }
    rest := step.iter;
  }

  /**
    A UDF call context (`UDFContext`): the arguments the engine has not yet
    handed out, first to last. `lastArg` is null exactly when none remain.
    Arguments are taken as already evaluated.
  */
  datatype UdfContext = UdfContext(remaining: seq<EngineValue>)

  /** `UDFContext::has_next_argument` (src/lib.rs:308-310). */
  predicate HasNextArgument(ctx: UdfContext)
  {
    |ctx.remaining| > 0
  }

  datatype ArgumentStep = ArgumentStep(context: UdfContext, item: Option<ClipsValue>)

  /**
    `ArgumentIterator::next` as written (src/lib.rs:279-294): while an
    argument remains, fetch it, accepting every type, and convert it with
    `From<UDFValue>`, whose multifield elements past the first come from
    `beyond`; then nothing.
  */
  function NextArgument(ctx: UdfContext, text: TextDecoder, beyond: nat -> EngineValue): (r: Call<ArgumentStep>)
    ensures !HasNextArgument(ctx) ==> r == Returns(ArgumentStep(ctx, None))
    ensures HasNextArgument(ctx) ==> (r.Returns? <==> DecodeArgumentAsWritten(ctx.remaining[0], text, beyond).Returns?)
    ensures HasNextArgument(ctx) && r.Returns? ==>
              && r.value.context.remaining == ctx.remaining[1..]
              && r.value.item.Some?
              && DecodeArgumentAsWritten(ctx.remaining[0], text, beyond) == Returns(r.value.item.value)
    ensures (HasNextArgument(ctx) ==> CopySafe(ctx.remaining[0])) ==> r == NextArgumentIntended(ctx, text)
  {
    if HasNextArgument(ctx) then
      var next := UdfContext(ctx.remaining[1..]);
      match DecodeArgumentAsWritten(ctx.remaining[0], text, beyond)
      case Returns(c) => Returns(ArgumentStep(next, Some(c)))
      case Panics(f) => Panics(f)
    else
      Returns(ArgumentStep(ctx, None))
  }

  /**
    `ArgumentIterator::next` as evidently intended: every argument is
    decoded in place, multifield elements included.
  */
  function NextArgumentIntended(ctx: UdfContext, text: TextDecoder): (r: Call<ArgumentStep>)
    ensures !HasNextArgument(ctx) ==> r == Returns(ArgumentStep(ctx, None))
    ensures HasNextArgument(ctx) ==> (r.Returns? <==> Decodable(ctx.remaining[0]))
    ensures HasNextArgument(ctx) && r.Returns? ==>
              && r.value.context.remaining == ctx.remaining[1..]
              && r.value.item.Some?
              && Decode(ctx.remaining[0], text) == Returns(r.value.item.value)
  {
    if HasNextArgument(ctx) then
      var value := ctx.remaining[0];
      var next := UdfContext(ctx.remaining[1..]);
      match Decode(value, text)
      case Returns(c) => Returns(ArgumentStep(next, Some(c)))
      case Panics(f) => Panics(f)
    else
      Returns(ArgumentStep(ctx, None))
  }

  /** The argument iterator as written misreads the multifield argument `(1 2)`; the intended one does not. */
  lemma ArgumentIteratorMisreads(text: TextDecoder)
    ensures var ctx := UdfContext([MultifieldValue([IntegerValue(1), IntegerValue(2)])]);
            && NextArgument(ctx, text, _ => VoidValue) == Returns(ArgumentStep(UdfContext([]), Some(Multifield([Integer(1), Void]))))
            && NextArgumentIntended(ctx, text) == Returns(ArgumentStep(UdfContext([]), Some(Multifield([Integer(1), Integer(2)]))))
  {
    ArgumentMultifieldMisread(text);
  }

  /**
    Draining the argument iterator as written: one converted value per
    argument, in order, panicking exactly when some conversion panics. On
    arguments the copy holds entirely it agrees with in-place decoding.
  */
  method CollectArguments(ctx: UdfContext, text: TextDecoder, beyond: nat -> EngineValue) returns (r: Call<seq<ClipsValue>>)
    ensures r.Returns? <==> forall i | 0 <= i < |ctx.remaining| :: DecodeArgumentAsWritten(ctx.remaining[i], text, beyond).Returns?
    ensures r.Returns? ==> |r.value| == |ctx.remaining|
    ensures r.Returns? ==> forall i | 0 <= i < |ctx.remaining| ::
              DecodeArgumentAsWritten(ctx.remaining[i], text, beyond) == Returns(r.value[i])
    ensures (forall i | 0 <= i < |ctx.remaining| :: CopySafe(ctx.remaining[i])) ==>
              && (r.Returns? <==> forall i | 0 <= i < |ctx.remaining| :: Decodable(ctx.remaining[i]))
              && (r.Returns? ==> forall i | 0 <= i < |ctx.remaining| :: Decode(ctx.remaining[i], text) == Returns(r.value[i]))
  {
    var args := ctx.remaining;
    var values: seq<ClipsValue> := [];
    var cur := ctx;
    while true
      invariant |values| <= |args|
      invariant cur.remaining == args[|values|..]
      invariant forall i | 0 <= i < |values| :: DecodeArgumentAsWritten(args[i], text, beyond) == Returns(values[i])
      decreases |cur.remaining|
    {
      var step := NextArgument(cur, text, beyond);
      if step.Panics? {
        assert !DecodeArgumentAsWritten(args[|values|], text, beyond).Returns?;
        return Panics(step.fault);
      }
      if step.value.item.None? {
        break;
      }
      values := values + [step.value.item.value];
      cur := step.value.context;
    }
    return Returns(values);
  }

  /**
    Draining the argument iterator as evidently intended: one decoded value
    per argument, in order; it panics exactly when some argument cannot be
    decoded.
  */
  method CollectArgumentsIntended(ctx: UdfContext, text: TextDecoder) returns (r: Call<seq<ClipsValue>>)
    ensures r.Returns? <==> forall i | 0 <= i < |ctx.remaining| :: Decodable(ctx.remaining[i])
    ensures r.Returns? ==> |r.value| == |ctx.remaining|
    ensures r.Returns? ==> forall i | 0 <= i < |ctx.remaining| :: Decode(ctx.remaining[i], text) == Returns(r.value[i])
  {
    var args := ctx.remaining;
    var values: seq<ClipsValue> := [];
    var cur := ctx;
    while true
      invariant |values| <= |args|
      invariant cur.remaining == args[|values|..]
      invariant forall i | 0 <= i < |values| :: Decodable(args[i]) && Decode(args[i], text) == Returns(values[i])
      decreases |cur.remaining|
    {
      var step := NextArgumentIntended(cur, text);
      if step.Panics? {
        assert !Decodable(args[|values|]);
        return Panics(step.fault);
      }
      if step.value.item.None? {
        break;
      }
      values := values + [step.value.item.value];
      cur := step.value.context;
    }
    return Returns(values);
  }

  /** The engine's view of one instance: its class's slot names (inherited included) and each slot's value. */
  datatype EngineInstance = EngineInstance(slotNames: seq<Bytes>, slotValues: map<Bytes, EngineValue>)

  /** Every slot name the class lists can be fetched with `DirectGetSlot`. */
  predicate SlotsResolvable(inst: EngineInstance)
  {
    forall i | 0 <= i < |inst.slotNames| :: inst.slotNames[i] in inst.slotValues
  }

  /** `InstanceSlot` (src/lib.rs:611-615). */
  datatype InstanceSlot = InstanceSlot(name: string, value: ClipsValue)

  /** `Instance::slot_names` (src/lib.rs:584-590): every slot name, decoded, in class order. */
  function SlotNames(inst: EngineInstance, text: TextDecoder): (names: seq<string>)
    ensures |names| == |inst.slotNames|
    ensures forall i | 0 <= i < |names| :: names[i] == text(inst.slotNames[i])
  {
    seq(|inst.slotNames|, i requires 0 <= i < |inst.slotNames| => text(inst.slotNames[i]))
  }

  /** Fetching and decoding the slots named in `names`, first to last. */
  function SlotsOf(names: seq<Bytes>, values: map<Bytes, EngineValue>, text: TextDecoder): (r: Call<seq<InstanceSlot>>)
    requires forall i | 0 <= i < |names| :: names[i] in values
    ensures r.Returns? <==> forall i | 0 <= i < |names| :: Decodable(values[names[i]])
    ensures r.Returns? ==> |r.value| == |names|
    ensures r.Returns? ==> forall i | 0 <= i < |names| ::
              r.value[i].name == text(names[i]) && Decode(values[names[i]], text) == Returns(r.value[i].value)
  {
    if |names| == 0 then Returns([])
    else
      assert forall i | 1 <= i < |names| :: names[1..][i - 1] == names[i];
      match Decode(values[names[0]], text)
      case Panics(f) => Panics(f)
      case Returns(c) =>
        match SlotsOf(names[1..], values, text)
        case Panics(f) => Panics(f)
        case Returns(rest) => Returns([InstanceSlot(text(names[0]), c)] + rest)
  }

  /**
    `Instance::slots` (src/lib.rs:592-608): one slot per name of
    `slot_names`, in the same order, each holding its decoded value; a slot
    holding an undecodable value aborts the whole call.
  */
  function Slots(inst: EngineInstance, text: TextDecoder): (r: Call<seq<InstanceSlot>>)
    requires SlotsResolvable(inst)
    ensures r.Returns? <==> forall i | 0 <= i < |inst.slotNames| :: Decodable(inst.slotValues[inst.slotNames[i]])
    ensures r.Returns? ==> |r.value| == |SlotNames(inst, text)|
    ensures r.Returns? ==> forall i | 0 <= i < |r.value| ::
              && r.value[i].name == SlotNames(inst, text)[i]
              && Decode(inst.slotValues[inst.slotNames[i]], text) == Returns(r.value[i].value)
  {
    SlotsOf(inst.slotNames, inst.slotValues, text)
  }
}
