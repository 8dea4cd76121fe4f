/**
 * `TypeFilter` and `TypeSelector`: selection of a generated output object by
 * the Rust item it becomes or the protobuf construct it represents.
 */
module TypeFilters {
  import opened Bits32
  import opened Wrappers
  import opened Selection
  import opened Rendering

  /** Seven ordinary selectors on bits 0 to 6, and the wildcard. */
  datatype TypeSelector =
    | ProtobufMessage
    | ProtobufEnum
    | ProtobufOneof
    | RustStruct
    | RustEnum
    | RustEnumCLike
    | RustEnumWithData
    | Everything

  type TypeFilter = Filter<TypeSelector>

  /** The `k` of an ordinary selector's declared value `1 << k`. */
  function Shift(en: TypeSelector): BitIndex
    requires en != Everything
  {
    match en
    case ProtobufMessage => 0
    case ProtobufEnum => 1
    case ProtobufOneof => 2
    case RustStruct => 3
    case RustEnum => 4
    case RustEnumCLike => 5
    case RustEnumWithData => 6
  }

  /** `en as u32`, the `#[repr(u32)]` discriminant: `1 << k`, or `u32::MAX` for `Everything`. */
  function Discriminant(en: TypeSelector): bv32
  {
    if en == Everything then AllOnes else Bit(Shift(en))
  }

  /** The identifier the derived `Debug` prints. */
  function Name(en: TypeSelector): string
  {
    match en
    case ProtobufMessage => "ProtobufMessage"
    case ProtobufEnum => "ProtobufEnum"
    case ProtobufOneof => "ProtobufOneof"
    case RustStruct => "RustStruct"
    case RustEnum => "RustEnum"
    case RustEnumCLike => "RustEnumCLike"
    case RustEnumWithData => "RustEnumWithData"
    case Everything => "Everything"
  }

  /** The variants listed in the macro instantiation; `Everything` is not among them. */
  const Variants: seq<TypeSelector> :=
    [ProtobufMessage, ProtobufEnum, ProtobufOneof, RustStruct, RustEnum, RustEnumCLike, RustEnumWithData]

  const Types: Domain<TypeSelector> := Domain("TypeFilter", Variants, Everything, Discriminant, Name)

  /** Every selector but `Everything` is listed. */
  lemma TypesListed()
    ensures forall s :: s != Everything ==> s in Variants
  {
  }

  lemma TypesSingleBits()
    ensures forall s | s in Variants :: IsSingleBit(Discriminant(s))
  {
    forall s | s in Variants
      ensures IsSingleBit(Discriminant(s))
    {
      BitIsSingle(Shift(s));
    }
  }

  lemma TypesDistinct()
    ensures forall s1, s2 | s1 in Variants && s2 in Variants && s1 != s2 :: Discriminant(s1) != Discriminant(s2)
  {
    forall s1, s2 | s1 in Variants && s2 in Variants && s1 != s2
      ensures Discriminant(s1) != Discriminant(s2)
    {
      BitInjective(Shift(s1), Shift(s2));
    }
  }

  /** The selector table keeps the discipline every lemma of `Selection` relies on. */
  lemma TypesWellFormed()
    ensures WellFormed(Types)
  {
    TypesListed();
    TypesSingleBits();
    TypesDistinct();
  }

  /** The listed variants stand in bit order. */
  lemma ShiftOfVariant(k: nat)
    requires k < |Variants|
    ensures Variants[k] != Everything && Shift(Variants[k]) == k
  {
  }

  /** No listed variant owns a bit from 7 up. */
  lemma NoVariantAbove(k: BitIndex)
    requires |Variants| <= k
    ensures forall s | s in Variants :: Discriminant(s) != Bit(k)
  {
    forall s | s in Variants
      ensures Discriminant(s) != Bit(k)
    {
      BitInjective(Shift(s), k);
    }
  }

  /**
   * `try_from(1 << k)` yields the variant declared as `1 << k` for `k`
   * from 0 to 6 and fails with the value for every other bit; every value
   * that is not a single bit fails by `TryFromRejectsNonSingle`.
   */
  lemma TryFromTypes(k: BitIndex)
    ensures TryFrom(Types, Bit(k)) == if k < 7 then Ok(Variants[k]) else Err(Bit(k))
  {
    TypesWellFormed();
    if k < 7 {
      ShiftOfVariant(k);
      TryFromOk(Types, Bit(k), Variants[k]);
    } else {
      NoVariantAbove(k);
      TryFromErr(Types, Bit(k));
    }
  }

  /** Neither zero nor `u32::MAX` names a selector: `Everything` cannot be recovered. */
  lemma TryFromTypesRejects()
    ensures TryFrom(Types, 0) == Err(0)
    ensures TryFrom(Types, AllOnes) == Err(AllOnes)
  {
    TypesWellFormed();
    TryFromRejectsNonSingle(Types, 0);
    TryFromRejectsNonSingle(Types, AllOnes);
  }

  /**
   * The wildcard is not a completeness test: a filter holding only
   * `ProtobufMessage` matches `Everything` but not `ProtobufEnum`.
   */
  lemma WildcardIsNotCompleteness()
    ensures IsSet(Types, FromSelector(Types, ProtobufMessage), Everything)
    ensures !IsSet(Types, FromSelector(Types, ProtobufMessage), ProtobufEnum)
  {
    TypesWellFormed();
    SingletonMatches(Types, ProtobufMessage, Everything);
    SingletonMatches(Types, ProtobufMessage, ProtobufEnum);
  }

  lemma RenderedTypesDefault()
    ensures Rendered(Types, DefaultFilter()) == "TypeFilter(  )"
  {
    RenderedDefault(Types);
  }

  lemma RenderedTypesSingleton()
    ensures Rendered(Types, FromSelector(Types, RustEnum)) == "TypeFilter( RustEnum )"
  {
    TypesWellFormed();
    RenderedSingleton(Types, RustEnum, 4);
    SingletonText();
  }

  /** The concatenation step of the singleton rendering, kept apart because it is costly inline. */
  lemma SingletonText()
    ensures "TypeFilter" + "( " + "RustEnum" + " )" == "TypeFilter( RustEnum )"
  {
  }

  /** The concatenation step of the pair rendering, kept apart because it is costly inline. */
  lemma PairText()
    ensures "TypeFilter" + "( " + "ProtobufMessage" + " | " + "RustStruct" + " )"
      == "TypeFilter( ProtobufMessage | RustStruct )"
  {
    assert "TypeFilter" + "( " + "ProtobufMessage" == "TypeFilter( ProtobufMessage";
  }

  /** `RustStruct | ProtobufMessage` lists `ProtobufMessage` first, by bit order. */
  lemma RenderedTypesPair()
    ensures Rendered(Types, SelectorOr(Types, RustStruct, FromSelector(Types, ProtobufMessage)))
      == "TypeFilter( ProtobufMessage | RustStruct )"
  {
    TypesWellFormed();
    RenderedPair(Types, ProtobufMessage, 0, RustStruct, 3);
    PairText();
  }

  /** The wildcard's own filter lists the seven names, then a marker for each of bits 7 to 31. */
  lemma RenderedEverything(i: BitIndex)
    ensures |Items(Types, AllOnes, 32)| == 32
    ensures i < 7 ==> Items(Types, AllOnes, 32)[i] == Name(Variants[i])
    ensures 7 <= i ==> Items(Types, AllOnes, 32)[i] == UnknownItem(Bit(i))
  {
    TypesWellFormed();
    ItemsOfAllOnes(Types, i);
    if i < 7 {
      ShiftOfVariant(i);
      ItemOfVariant(Types, Variants[i], i);
    } else {
      NoVariantAbove(i);
      ItemOfUnownedBit(Types, i);
    }
  }
}
