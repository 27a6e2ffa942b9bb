/**
  The type descriptor: a bitmask of admissible value kinds (`Type`) and its
  rendering into the engine's one-letter type-constraint codes.
*/
module TypeDescriptor {
  import opened Errors
  import opened Separated

  /** The named bits of `Type` (src/lib.rs:446-461). */
  datatype TypeBit =
    | Float | Integer | Symbol | String | Multifield | ExternalAddress
    | FactAddress | InstanceAddress | InstanceName | Void | Boolean

  /**
    A `Type` bitmask, as the set of bits that are set. The engine's numeric
    bit values are not modelled, only that the named bits are distinct.
  */
  datatype Type = Type(bits: set<TypeBit>)

  /** `Type::ANY`, declared as the mask `0b0`: no bit at all. */
  const Any: Type := Type({})

  /** bitflags' `is_empty`. */
  predicate IsEmpty(t: Type)
  {
    t.bits == {}
  }

  /** bitflags' `contains`: every bit of `other` is set in `t`. */
  predicate Contains(t: Type, other: Type)
  {
    other.bits <= t.bits
  }

  /** The order in which `format` tests the bits. */
  const CanonicalOrder: seq<TypeBit> :=
    [Boolean, Float, ExternalAddress, FactAddress, InstanceAddress, Integer,
     Multifield, InstanceName, String, Symbol, Void]

  /** The engine's letter for each kind. */
  function Code(b: TypeBit): char
  {
    match b
    case Boolean => 'b'
    case Float => 'd'
    case ExternalAddress => 'e'
    case FactAddress => 'f'
    case InstanceAddress => 'i'
    case Integer => 'l'
    case Multifield => 'm'
    case InstanceName => 'n'
    case String => 's'
    case Symbol => 'y'
    case Void => 'v'
  }

  /** Reads a letter back as the kind it stands for. */
  function BitOf(c: char): Option<TypeBit>
  {
    match c
    case 'b' => Some(Boolean)
    case 'd' => Some(Float)
    case 'e' => Some(ExternalAddress)
    case 'f' => Some(FactAddress)
    case 'i' => Some(InstanceAddress)
    case 'l' => Some(Integer)
    case 'm' => Some(Multifield)
    case 'n' => Some(InstanceName)
    case 's' => Some(String)
    case 'y' => Some(Symbol)
    case 'v' => Some(Void)
    case _ => None
  }

  /** The position of each kind in the engine's canonical order, stated independently of `CanonicalOrder`. */
  function Rank(b: TypeBit): nat
  {
    match b
    case Boolean => 0
    case Float => 1
    case ExternalAddress => 2
    case FactAddress => 3
    case InstanceAddress => 4
    case Integer => 5
    case Multifield => 6
    case InstanceName => 7
    case String => 8
    case Symbol => 9
    case Void => 10
  }

  lemma CodeRoundTrip(b: TypeBit)
    ensures BitOf(Code(b)) == Some(b)
  {
  }

  /** The canonical order lists every kind, by increasing rank. */
  lemma CanonicalOrderComplete(b: TypeBit)
    ensures b in CanonicalOrder
    ensures Increasing(CanonicalOrder)
  {
    assert forall i | 0 <= i < |CanonicalOrder| :: Rank(CanonicalOrder[i]) == i;
    match b
    case Boolean => assert CanonicalOrder[0] == b;
    case Float => assert CanonicalOrder[1] == b;
    case ExternalAddress => assert CanonicalOrder[2] == b;
    case FactAddress => assert CanonicalOrder[3] == b;
    case InstanceAddress => assert CanonicalOrder[4] == b;
    case Integer => assert CanonicalOrder[5] == b;
    case Multifield => assert CanonicalOrder[6] == b;
    case InstanceName => assert CanonicalOrder[7] == b;
    case String => assert CanonicalOrder[8] == b;
    case Symbol => assert CanonicalOrder[9] == b;
    case Void => assert CanonicalOrder[10] == b;
  }

  /** Kinds listed by strictly increasing rank (hence each at most once). */
  ghost predicate Increasing(bs: seq<TypeBit>)
  {
    forall i, j | 0 <= i < j < |bs| :: Rank(bs[i]) < Rank(bs[j])
  }

  /** Putting a kind of lower rank in front keeps a listing increasing. */
  lemma PrependIncreasing(b: TypeBit, rest: seq<TypeBit>)
    requires Increasing(rest)
    requires forall i | 0 <= i < |rest| :: Rank(b) < Rank(rest[i])
    ensures Increasing([b] + rest)
  {
    forall i, j | 0 <= i < j < |[b] + rest| ensures Rank(([b] + rest)[i]) < Rank(([b] + rest)[j]) {
      if i > 0 {
        assert ([b] + rest)[i] == rest[i - 1];
      }
      assert ([b] + rest)[j] == rest[j - 1];
    }
  }

  /** Kinds taken from the tail of an increasing order rank above its head. */
  lemma TailRanksAbove(order: seq<TypeBit>, rest: seq<TypeBit>)
    requires Increasing(order) && |order| > 0
    requires forall i | 0 <= i < |rest| :: rest[i] in order[1..]
    ensures forall i | 0 <= i < |rest| :: Rank(order[0]) < Rank(rest[i])
  {
    forall i | 0 <= i < |rest| ensures Rank(order[0]) < Rank(rest[i]) {
      var j :| 0 <= j < |order[1..]| && order[1..][j] == rest[i];
      assert order[j + 1] == rest[i];
    }
  }

  /** The kinds of `order` whose bit is set, in the order given. */
  function Select(order: seq<TypeBit>, bits: set<TypeBit>): (r: seq<TypeBit>)
    requires Increasing(order)
    ensures forall i | 0 <= i < |r| :: r[i] in bits && r[i] in order
    ensures forall b | b in bits && b in order :: b in r
    ensures Increasing(r)
  {
    if |order| == 0 then []
    else
      assert Increasing(order[1..]);
      var rest := Select(order[1..], bits);
      if order[0] in bits then
        TailRanksAbove(order, rest);
        PrependIncreasing(order[0], rest);
        [order[0]] + rest
      else
        rest
  }

  /** `bs` lists exactly the kinds of `bits`, in canonical order, each once. */
  ghost predicate CanonicalListing(bs: seq<TypeBit>, bits: set<TypeBit>)
  {
    && Increasing(bs)
    && (forall i | 0 <= i < |bs| :: bs[i] in bits)
    && (forall b | b in bits :: b in bs)
  }

  /** The set kinds of a mask in the order `format` tests them. */
  function Selected(t: Type): (bs: seq<TypeBit>)
    ensures CanonicalListing(bs, t.bits)
  {
    CanonicalOrderComplete(Boolean);
    assert forall b | b in t.bits :: b in CanonicalOrder by {
      forall b | b in t.bits ensures b in CanonicalOrder { CanonicalOrderComplete(b); }
    }
    Select(CanonicalOrder, t.bits)
  }

  lemma RankInjective(a: TypeBit, b: TypeBit)
    requires Rank(a) == Rank(b)
    ensures a == b
  {
  }

  /** A canonical listing starts with the set kind of least rank. */
  lemma ListingHead(bs: seq<TypeBit>, bits: set<TypeBit>, b: TypeBit)
    requires CanonicalListing(bs, bits) && |bs| > 0 && b in bits
    ensures Rank(bs[0]) <= Rank(b)
  {
    var k :| 0 <= k < |bs| && bs[k] == b;
    if k > 0 {
      assert Rank(bs[0]) < Rank(bs[k]);
    }
  }

  /** Dropping the head of a canonical listing lists the remaining kinds. */
  lemma ListingTail(bs: seq<TypeBit>, bits: set<TypeBit>)
    requires CanonicalListing(bs, bits) && |bs| > 0
    ensures CanonicalListing(bs[1..], bits - {bs[0]})
  {
    var rest := bits - {bs[0]};
    forall b | b in rest ensures b in bs[1..] {
      var k :| 0 <= k < |bs| && bs[k] == b;
      assert bs[1..][k - 1] == b;
    }
    forall k | 0 <= k < |bs[1..]| ensures bs[1..][k] in rest {
      assert Rank(bs[0]) < Rank(bs[k + 1]);
    }
  }

  lemma ListingEmpty(bs: seq<TypeBit>, bits: set<TypeBit>)
    requires CanonicalListing(bs, bits)
    ensures |bs| == 0 <==> bits == {}
  {
    if |bs| > 0 {
      assert bs[0] in bits;
    }
    if bits != {} {
      var b :| b in bits;
      assert b in bs;
    }
  }

  lemma ListingHeadsAgree(bs: seq<TypeBit>, cs: seq<TypeBit>, bits: set<TypeBit>)
    requires CanonicalListing(bs, bits) && CanonicalListing(cs, bits)
    requires |bs| > 0 && |cs| > 0
    ensures bs[0] == cs[0]
  {
    ListingHead(bs, bits, cs[0]);
    ListingHead(cs, bits, bs[0]);
    RankInjective(bs[0], cs[0]);
  }

  lemma HeadTailEqual<T>(xs: seq<T>, ys: seq<T>)
    requires |xs| > 0 && |ys| > 0
    requires xs[0] == ys[0] && xs[1..] == ys[1..]
    ensures xs == ys
  {
    calc {
      xs;
      [xs[0]] + xs[1..];
      [ys[0]] + ys[1..];
      ys;
    }
  }

  /** A canonical listing is unique: it is determined by the set alone. */
  lemma {:induction false} CanonicalListingUnique(bs: seq<TypeBit>, cs: seq<TypeBit>, bits: set<TypeBit>)
    requires CanonicalListing(bs, bits) && CanonicalListing(cs, bits)
    ensures bs == cs
  {
    ListingEmpty(bs, bits);
    ListingEmpty(cs, bits);
    if |bs| > 0 && |cs| > 0 {
      ListingHeadsAgree(bs, cs, bits);
      ListingTail(bs, bits);
      ListingTail(cs, bits);
      CanonicalListingUnique(bs[1..], cs[1..], bits - {bs[0]});
      HeadTailEqual(bs, cs);
    }
  }

  /** `r` spells the kinds `bs` with the engine's letters. */
  ghost predicate Spells(r: string, bs: seq<TypeBit>)
  {
    |r| == |bs| && forall i | 0 <= i < |r| :: BitOf(r[i]) == Some(bs[i])
  }

  /**
    The per-bit branch of `Type::format` (src/lib.rs:469-505): the letters
    of the set bits, in canonical order. `Format` never reaches it.
  */
  function FormatBits(t: Type): (r: string)
    ensures Spells(r, Selected(t))
  {
    Letters(Selected(t))
  }

  /**
    The per-bit branch spells exactly the set bits: every letter names a set
    bit, every set bit has its letter, and only the empty mask spells nothing.
  */
  lemma FormatBitsLetters(t: Type)
    ensures FormatBits(t) == "" <==> IsEmpty(t)
    ensures forall i | 0 <= i < |FormatBits(t)| :: BitOf(FormatBits(t)[i]).Some? && BitOf(FormatBits(t)[i]).value in t.bits
    ensures forall b | b in t.bits :: Code(b) in FormatBits(t)
  {
    var bs := Selected(t);
    var r := FormatBits(t);
    forall b | b in t.bits
      ensures Code(b) in r
    {
      var j :| 0 <= j < |bs| && bs[j] == b;
      LetterRoundTrip(r[j]);
    }
    ListingEmpty(bs, t.bits);
  }

  /** The engine letters of a list of kinds, in list order. */
  function Letters(bs: seq<TypeBit>): (r: string)
    ensures Spells(r, bs)
  {
    if |bs| == 0 then ""
    else
      CodeRoundTrip(bs[0]);
      [Code(bs[0])] + Letters(bs[1..])
  }

  /**
    `Type::format` as written (src/lib.rs:464-507). `Any` has no bit, so
    `Contains(t, Any)` holds of every mask and the wildcard guard always fires.
  */
  function Format(t: Type): (r: string)
    ensures r == "*"
  {
    if IsEmpty(t) || Contains(t, Any) then "*" else FormatBits(t)
  }

  /** `Type::format` as evidently intended: the wildcard only for the empty mask. */
  function FormatIntended(t: Type): (r: string)
    ensures r == "*" <==> IsEmpty(t)
    ensures !IsEmpty(t) ==> exists bs :: Spells(r, bs) && CanonicalListing(bs, t.bits)
  {
    if IsEmpty(t) then "*"
    else
      var r := FormatBits(t);
      var bs := Selected(t);
      assert Spells(r, bs) && CanonicalListing(bs, t.bits);
      assert r != "*" by {
        ListingEmpty(bs, t.bits);
        assert BitOf(r[0]).Some?;
        assert BitOf('*').None?;
      }
      r
  }

  /** One spelling spells one listing. */
  lemma SpellingDeterminesListing(r: string, bs: seq<TypeBit>, cs: seq<TypeBit>)
    requires Spells(r, bs) && Spells(r, cs)
    ensures bs == cs
  {
    assert |bs| == |r| == |cs|;
    forall i | 0 <= i < |bs| ensures bs[i] == cs[i] {
      assert BitOf(r[i]) == Some(bs[i]) && BitOf(r[i]) == Some(cs[i]);
    }
  }

  /** A listing is the listing of one set only. */
  lemma ListingDeterminesSet(bs: seq<TypeBit>, s1: set<TypeBit>, s2: set<TypeBit>)
    requires CanonicalListing(bs, s1) && CanonicalListing(bs, s2)
    ensures s1 == s2
  {
    forall b ensures b in s1 <==> b in s2 {
      if b in s1 {
        var k :| 0 <= k < |bs| && bs[k] == b;
      }
      if b in s2 {
        var k :| 0 <= k < |bs| && bs[k] == b;
      }
    }
  }

  /** Different masks render differently under the intended format. */
  lemma FormatIntendedInjective(t: Type, u: Type)
    requires FormatIntended(t) == FormatIntended(u)
    ensures t == u
  {
    if !IsEmpty(t) && !IsEmpty(u) {
      var r := FormatBits(t);
      assert FormatIntended(t) == r && FormatIntended(u) == FormatBits(u);
      SpellingDeterminesListing(r, Selected(t), Selected(u));
      ListingDeterminesSet(Selected(t), t.bits, u.bits);
    }
  }

  lemma LetterRoundTrip(c: char)
    requires BitOf(c).Some?
    ensures Code(BitOf(c).value) == c
  {
  }

  /** The wildcard guard fires for every mask: the intended rendering differs from the actual one. */
  lemma FormatIgnoresBits(t: Type)
    requires t.bits == {Integer, Symbol}
    ensures Format(t) == "*"
    ensures FormatIntended(t) == "ly"
  {
    var listing := [Integer, Symbol];
    assert CanonicalListing(listing, t.bits);
    CanonicalListingUnique(Selected(t), listing, t.bits);
    var r := FormatBits(t);
    assert Spells(r, listing);
    LetterRoundTrip(r[0]);
    LetterRoundTrip(r[1]);
    assert r == "ly";
  }

  /** Each argument's rendering, in argument order. */
  function FormatAll(types: seq<Type>): (r: seq<string>)
    ensures |r| == |types|
    ensures forall i | 0 <= i < |r| :: r[i] == Format(types[i])
  {
    seq(|types|, i requires 0 <= i < |types| => Format(types[i]))
  }

  /** The argument-type string `add_udf` hands the engine (src/lib.rs:172-179). */
  function ArgTypeString(types: seq<Type>): (r: string)
    ensures |types| == 0 ==> r == ""
    ensures |types| > 0 ==> Split(r, ';') == FormatAll(types)
    ensures |types| > 0 ==> Occurrences(r, ';') == |types| - 1
    ensures '\0' !in r
  {
    var segs := FormatAll(types);
    assert |segs| > 0 ==> Split(Join(segs, ';'), ';') == segs && Occurrences(Join(segs, ';'), ';') == |segs| - 1 by {
      if |segs| > 0 {
        SplitJoin(segs, ';');
        JoinSeparators(segs, ';');
      }
    }
    Join(segs, ';')
  }

  /** The argument-type string is `*` repeated once per argument, `;`-separated. */
  lemma ArgTypesAllWildcards(types: seq<Type>)
    requires |types| > 0
    ensures var segs := Split(ArgTypeString(types), ';');
            |segs| == |types| && forall i | 0 <= i < |segs| :: segs[i] == "*"
    ensures |ArgTypeString(types)| == 2 * |types| - 1
  {
    ArgTypeLength(types);
  }

  lemma {:induction false} ArgTypeLength(types: seq<Type>)
    requires |types| > 0
    ensures |ArgTypeString(types)| == 2 * |types| - 1
  {
    if |types| > 1 {
      ArgTypeLength(types[1..]);
      assert FormatAll(types)[1..] == FormatAll(types[1..]);
    }
  }
}
