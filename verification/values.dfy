/**
  The value bridge: the engine's tagged-union values, the host's
  `ClipsValue`, decoding one into the other (`From<clipsValue>` and
  `From<UDFValue>`) and the one encoding the library supports (`SetFrom`).
*/
module ValueBridge {
  import opened Errors
  import opened CText
  import TypeDescriptor

  /** Rust's `i64`. */
  type int64 = x: int | -0x8000_0000_0000_0000 <= x < 0x8000_0000_0000_0000

  /** An `f64`, kept as its bit pattern: floats are only copied, never computed with. */
  datatype F64 = F64(bits: bv64)

  /** An engine pointer (fact, instance, external address, environment), compared by identity only. */
  datatype Address = Address(pointer: nat)

  /**
    An engine value: its type tag together with the payload the tag selects
    in the engine's union. `UnknownValue` stands for any tag the bridge does
    not name.
  */
  datatype EngineValue =
    | FloatValue(float: F64)
    | IntegerValue(integer: int64)
    | SymbolValue(lexeme: Bytes)
    | StringValue(lexeme: Bytes)
    | MultifieldValue(items: seq<EngineValue>)
    | ExternalAddressValue(address: Address)
    | FactAddressValue(address: Address)
    | InstanceAddressValue(address: Address)
    | InstanceNameValue(lexeme: Bytes)
    | VoidValue
    | UnknownValue(tag: nat)

  /** The host value (src/lib.rs:316-328). */
  datatype ClipsValue =
    | Symbol(text: string)
    | Lexeme(text: string)
    | Float(float: F64)
    | Integer(integer: int64)
    | Void
    | Multifield(values: seq<ClipsValue>)
    | Fact(fact: Address)
    | InstanceName(text: string)
    | Instance(instance: Address)
    | ExternalAddress

  /** The kind an engine tag denotes; `None` for a tag the bridge does not know. */
  function Tag(v: EngineValue): Option<TypeDescriptor.TypeBit>
  {
    match v
    case FloatValue(_) => Some(TypeDescriptor.Float)
    case IntegerValue(_) => Some(TypeDescriptor.Integer)
    case SymbolValue(_) => Some(TypeDescriptor.Symbol)
    case StringValue(_) => Some(TypeDescriptor.String)
    case MultifieldValue(_) => Some(TypeDescriptor.Multifield)
    case ExternalAddressValue(_) => Some(TypeDescriptor.ExternalAddress)
    case FactAddressValue(_) => Some(TypeDescriptor.FactAddress)
    case InstanceAddressValue(_) => Some(TypeDescriptor.InstanceAddress)
    case InstanceNameValue(_) => Some(TypeDescriptor.InstanceName)
    case VoidValue => Some(TypeDescriptor.Void)
    case UnknownValue(_) => None
  }

  /** The kind of a host value. */
  function KindOf(c: ClipsValue): TypeDescriptor.TypeBit
  {
    match c
    case Symbol(_) => TypeDescriptor.Symbol
    case Lexeme(_) => TypeDescriptor.String
    case Float(_) => TypeDescriptor.Float
    case Integer(_) => TypeDescriptor.Integer
    case Void => TypeDescriptor.Void
    case Multifield(_) => TypeDescriptor.Multifield
    case Fact(_) => TypeDescriptor.FactAddress
    case InstanceName(_) => TypeDescriptor.InstanceName
    case Instance(_) => TypeDescriptor.InstanceAddress
    case ExternalAddress => TypeDescriptor.ExternalAddress
  }

  /**
    The engine values decoding accepts: no address tag and no unknown tag,
    at any depth of multifield nesting.
  */
  predicate Decodable(v: EngineValue)
  {
    match v
    case ExternalAddressValue(_) => false
    case FactAddressValue(_) => false
    case InstanceAddressValue(_) => false
    case UnknownValue(_) => false
    case MultifieldValue(items) => forall i | 0 <= i < |items| :: Decodable(items[i])
    case _ => true
  }

  /**
    Decoding an engine value into a host value (src/lib.rs:330-381).
    Address tags are `unimplemented!`, an unknown tag is a bare `panic!`.
    The `From<UDFValue>` conversion (src/lib.rs:383-423) has the same arms
    but reads multifields differently: see `DecodeArgumentAsWritten`.
  */
  function Decode(v: EngineValue, text: TextDecoder): (r: Call<ClipsValue>)
    ensures r.Returns? <==> Decodable(v)
    ensures r.Returns? ==> Tag(v) == Some(KindOf(r.value))
    ensures v.ExternalAddressValue? ==> r == Panics(Unimplemented("external address"))
    ensures v.FactAddressValue? ==> r == Panics(Unimplemented("fact address"))
    ensures v.InstanceAddressValue? ==> r == Panics(Unimplemented("instance address"))
    ensures v.UnknownValue? ==> r == Panics(UnknownTag)
    ensures v.MultifieldValue? && r.Panics? ==> DecodeAll(v.items, text) == Panics(r.fault)
    decreases v, 1
  {
    match v
    case FloatValue(f) => Returns(Float(f))
    case IntegerValue(n) => Returns(Integer(n))
    case SymbolValue(b) => Returns(Symbol(text(b)))
    case StringValue(b) => Returns(Lexeme(text(b)))
    case MultifieldValue(items) =>
      var d := DecodeAll(items, text);
      if d.Returns? then Returns(Multifield(d.value)) else Panics(d.fault)
    case ExternalAddressValue(_) => Panics(Unimplemented("external address"))
    case FactAddressValue(_) => Panics(Unimplemented("fact address"))
    case InstanceAddressValue(_) => Panics(Unimplemented("instance address"))
    case InstanceNameValue(b) => Returns(InstanceName(text(b)))
    case VoidValue => Returns(Void)
    case UnknownValue(_) => Panics(UnknownTag)
  }

  /**
    Decoding the elements of a multifield, first to last; the first element
    that cannot be decoded aborts the whole conversion.
  */
  function DecodeAll(items: seq<EngineValue>, text: TextDecoder): (r: Call<seq<ClipsValue>>)
    ensures r.Returns? <==> forall i | 0 <= i < |items| :: Decodable(items[i])
    ensures r.Returns? ==> |r.value| == |items|
    ensures r.Returns? ==> forall i | 0 <= i < |items| :: Decode(items[i], text) == Returns(r.value[i])
    ensures r.Panics? ==> exists k | 0 <= k < |items| ::
              && (forall j | 0 <= j < k :: Decodable(items[j]))
              && Decode(items[k], text) == Panics(r.fault)
    decreases items, 0
  {
    if |items| == 0 then Returns([])
    else
      var head := Decode(items[0], text);
      if head.Panics? then Panics(head.fault)
      else
        var tail := DecodeAll(items[1..], text);
        assert forall i | 1 <= i < |items| :: items[i] == items[1..][i - 1];
        if tail.Panics? then
          var k :| 0 <= k < |items[1..]| && (forall j | 0 <= j < k :: Decodable(items[1..][j]))
                   && Decode(items[1..][k], text) == Panics(tail.fault);
          assert forall j | 0 <= j < k + 1 :: Decodable(items[j]);
          Panics(tail.fault)
        else Returns([head.value] + tail.value)
  }

  /** The host values the engine can represent: no fact, instance or external-address handle at any depth. */
  predicate Representable(c: ClipsValue)
  {
    match c
    case Fact(_) => false
    case Instance(_) => false
    case ExternalAddress => false
    case Multifield(vs) => forall i | 0 <= i < |vs| :: Representable(vs[i])
    case _ => true
  }

  /**
    The engine value that stands for a host value, text written with `enc`:
    the encoding the value bridge is meant to provide, against which decoding
    is checked.
  */
  function Represent(c: ClipsValue, enc: string -> Bytes): (v: EngineValue)
    requires Representable(c)
    ensures Tag(v) == Some(KindOf(c))
  {
    match c
    case Symbol(s) => SymbolValue(enc(s))
    case Lexeme(s) => StringValue(enc(s))
    case Float(f) => FloatValue(f)
    case Integer(n) => IntegerValue(n)
    case Void => VoidValue
    case Multifield(vs) => MultifieldValue(seq(|vs|, i requires 0 <= i < |vs| => Represent(vs[i], enc)))
    case InstanceName(s) => InstanceNameValue(enc(s))
  }

  /** Every text inside `c` is read back unchanged after being written with `enc`. */
  predicate TextsSurvive(c: ClipsValue, text: TextDecoder, enc: string -> Bytes)
  {
    match c
    case Symbol(s) => text(enc(s)) == s
    case Lexeme(s) => text(enc(s)) == s
    case InstanceName(s) => text(enc(s)) == s
    case Multifield(vs) => forall i | 0 <= i < |vs| :: TextsSurvive(vs[i], text, enc)
    case _ => true
  }

  /** Every text buffer inside `v` is written back unchanged after being decoded (valid UTF-8, say). */
  predicate BuffersSurvive(v: EngineValue, text: TextDecoder, enc: string -> Bytes)
  {
    match v
    case SymbolValue(b) => enc(text(b)) == b
    case StringValue(b) => enc(text(b)) == b
    case InstanceNameValue(b) => enc(text(b)) == b
    case MultifieldValue(items) => forall i | 0 <= i < |items| :: BuffersSurvive(items[i], text, enc)
    case _ => true
  }

  /**
    Decoding inverts the engine representation: kind and payload survive,
    and a multifield comes back with the same length and the same element at
    every position.
  */
  lemma {:induction false} DecodeRepresent(c: ClipsValue, text: TextDecoder, enc: string -> Bytes)
    requires Representable(c) && TextsSurvive(c, text, enc)
    ensures Decode(Represent(c, enc), text) == Returns(c)
  {
    match c
    case Multifield(vs) =>
      var items := seq(|vs|, i requires 0 <= i < |vs| => Represent(vs[i], enc));
      forall i | 0 <= i < |vs| ensures Decode(items[i], text) == Returns(vs[i]) {
        DecodeRepresent(vs[i], text, enc);
      }
      var d := DecodeAll(items, text);
      assert d.value == vs;
    case _ =>
  }

  /** Representing a decoded value gives back the engine value it came from. */
  lemma {:induction false} RepresentDecode(v: EngineValue, text: TextDecoder, enc: string -> Bytes)
    requires Decodable(v) && BuffersSurvive(v, text, enc)
    ensures Representable(Decode(v, text).value)
    ensures Represent(Decode(v, text).value, enc) == v
  {
    match v
    case MultifieldValue(items) =>
      var d := DecodeAll(items, text);
      forall i | 0 <= i < |items|
        ensures Representable(d.value[i]) && Represent(d.value[i], enc) == items[i]
      {
        RepresentDecode(items[i], text, enc);
      }
      var c := Decode(v, text).value;
      assert c == Multifield(d.value);
      assert Representable(c);
      assert Represent(c, enc) == MultifieldValue(items);
    case _ =>
  }

  /**
    `SetFrom` on the UDF return slot (src/lib.rs:429-444): `Void` writes the
    environment's void constant, every other variant is `unimplemented!`.
  */
  function SetFrom(c: ClipsValue): (r: Call<EngineValue>)
    ensures r.Returns? <==> c.Void?
    ensures r.Returns? ==> Decodable(r.value) && Tag(r.value) == Some(KindOf(c))
    ensures r.Panics? ==> r.fault.Unimplemented?
  {
    match c
    case Symbol(_) => Panics(Unimplemented("Symbol"))
    case Lexeme(_) => Panics(Unimplemented("Lexeme"))
    case Float(_) => Panics(Unimplemented("Float"))
    case Integer(_) => Panics(Unimplemented("Integer"))
    case Void => Returns(VoidValue)
    case Multifield(_) => Panics(Unimplemented("Multifield"))
    case Fact(_) => Panics(Unimplemented("Fact"))
    case Instance(_) => Panics(Unimplemented("Instance"))
    case InstanceName(_) => Panics(Unimplemented("Instance"))
    case ExternalAddress => Panics(Unimplemented("ExternalAddress"))
  }

  /** What `SetFrom` writes decodes back to the value written. */
  lemma SetFromRoundTrip(c: ClipsValue, text: TextDecoder)
    requires SetFrom(c).Returns?
    ensures Decode(SetFrom(c).value, text) == Returns(c)
  {
  }

  /**
    `From<UDFValue>` as written (src/lib.rs:404-411): the multifield is
    first copied out of the engine (line 405) and its elements are indexed
    in the copy, whose one-element `contents` array holds only element 0.
    Any later element is read from the memory past the copy, which the model
    leaves arbitrary as `beyond(i)`.
  */
  function DecodeArgumentAsWritten(v: EngineValue, text: TextDecoder, beyond: nat -> EngineValue): (r: Call<ClipsValue>)
    ensures CopySafe(v) ==> r == Decode(v, text)
    ensures v.MultifieldValue? && |v.items| >= 2 ==>
              && (r.Returns? <==> Decodable(v.items[0]) && forall i | 1 <= i < |v.items| :: Decodable(beyond(i)))
              && (r.Returns? ==>
                    && r.value.Multifield?
                    && |r.value.values| == |v.items|
                    && Decode(v.items[0], text) == Returns(r.value.values[0])
                    && forall i | 1 <= i < |v.items| :: Decode(beyond(i), text) == Returns(r.value.values[i]))
  {
    match v
    case MultifieldValue(items) =>
      var copied := ReadThroughCopy(items, beyond);
      assert |items| <= 1 ==> copied == items;
      assert forall i | 1 <= i < |items| :: copied[i] == beyond(i);
      var d := DecodeAll(copied, text);
      if d.Returns? then Returns(Multifield(d.value)) else Panics(d.fault)
    case _ => Decode(v, text)
  }

  /** A value the copy in `From<UDFValue>` holds entirely: anything but a multifield of two or more elements. */
  predicate CopySafe(v: EngineValue)
  {
    v.MultifieldValue? ==> |v.items| <= 1
  }

  /** The elements as read through a one-element copy of the multifield. */
  function ReadThroughCopy(items: seq<EngineValue>, beyond: nat -> EngineValue): (r: seq<EngineValue>)
    ensures |r| == |items|
    ensures |items| > 0 ==> r[0] == items[0]
    ensures forall i | 1 <= i < |items| :: r[i] == beyond(i)
  {
    seq(|items|, i requires 0 <= i < |items| => if i == 0 then items[0] else beyond(i))
  }

  /** A two-element multifield argument comes back with its second element replaced. */
  lemma ArgumentMultifieldMisread(text: TextDecoder)
    ensures var v := MultifieldValue([IntegerValue(1), IntegerValue(2)]);
            && Decode(v, text) == Returns(Multifield([Integer(1), Integer(2)]))
            && DecodeArgumentAsWritten(v, text, _ => VoidValue) == Returns(Multifield([Integer(1), Void]))
  {
    var v := MultifieldValue([IntegerValue(1), IntegerValue(2)]);
    var d := DecodeAll(v.items, text);
    assert Decode(v.items[0], text) == Returns(Integer(1));
    assert Decode(v.items[1], text) == Returns(Integer(2));
    assert d.value == [Integer(1), Integer(2)];
    var copied := ReadThroughCopy(v.items, _ => VoidValue);
    assert copied == [IntegerValue(1), VoidValue];
    var e := DecodeAll(copied, text);
    assert Decode(copied[0], text) == Returns(Integer(1));
    assert Decode(copied[1], text) == Returns(Void);
    assert e.value == [Integer(1), Void];
  }
}
