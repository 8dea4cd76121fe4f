/**
 * The wire kinds of a protobuf field declaration. The real enumeration
 * belongs to another crate; only its eighteen variant names are mirrored,
 * not its numeric tags.
 */
module FieldDescriptorProto {

  datatype Type =
    | Double
    | Float
    | Int64
    | Uint64
    | Int32
    | Fixed64
    | Fixed32
    | Bool
    | String
    | Group
    | Message
    | Bytes
    | Uint32
    | Enum
    | Sfixed32
    | Sfixed64
    | Sint32
    | Sint64

  /** The identifier of a variant. */
  function Name(t: Type): string
  {
    match t
    case Double => "Double"
    case Float => "Float"
    case Int64 => "Int64"
    case Uint64 => "Uint64"
    case Int32 => "Int32"
    case Fixed64 => "Fixed64"
    case Fixed32 => "Fixed32"
    case Bool => "Bool"
    case String => "String"
    case Group => "Group"
    case Message => "Message"
    case Bytes => "Bytes"
    case Uint32 => "Uint32"
    case Enum => "Enum"
    case Sfixed32 => "Sfixed32"
    case Sfixed64 => "Sfixed64"
    case Sint32 => "Sint32"
    case Sint64 => "Sint64"
  }
}

/**
 * `FieldFilter` and `FieldSelector`: selection of a field during code
 * generation by its wire kind or by one of three structural categories.
 */
module FieldFilters {
  import opened Bits32
  import opened Wrappers
  import opened Selection
  import opened Rendering
  import Decimal
  import T = FieldDescriptorProto

  /** Eighteen wire kinds on bits 1 to 18, three structural categories on
      bits 19 to 21, and the wildcard. Bit 0 belongs to no selector. */
  datatype FieldSelector =
    | Double
    | Float
    | Int64
    | Uint64
    | Int32
    | Fixed64
    | Fixed32
    | Bool
    | String
    | Group
    | Message
    | Bytes
    | Uint32
    | Enum
    | Sfixed32
    | Sfixed64
    | Sint32
    | Sint64
    | NoDataEnumVariant
    | OneofField
    | MapField
    | Everything

  type FieldFilter = Filter<FieldSelector>

  /** The `k` of an ordinary selector's declared value `1 << k`. */
  function Shift(en: FieldSelector): BitIndex
    requires en != Everything
  {
    match en
    case Double => 1
    case Float => 2
    case Int64 => 3
    case Uint64 => 4
    case Int32 => 5
    case Fixed64 => 6
    case Fixed32 => 7
    case Bool => 8
    case String => 9
    case Group => 10
    case Message => 11
    case Bytes => 12
    case Uint32 => 13
    case Enum => 14
    case Sfixed32 => 15
    case Sfixed64 => 16
    case Sint32 => 17
    case Sint64 => 18
    case NoDataEnumVariant => 19
    case OneofField => 20
    case MapField => 21
  }

  /** `en as u32`, the `#[repr(u32)]` discriminant: `1 << k`, or `u32::MAX` for `Everything`. */
  function Discriminant(en: FieldSelector): bv32
  {
    if en == Everything then AllOnes else Bit(Shift(en))
  }

  /** The identifier the derived `Debug` prints. */
  function Name(en: FieldSelector): string
  {
    match en
    case Double => "Double"
    case Float => "Float"
    case Int64 => "Int64"
    case Uint64 => "Uint64"
    case Int32 => "Int32"
    case Fixed64 => "Fixed64"
    case Fixed32 => "Fixed32"
    case Bool => "Bool"
    case String => "String"
    case Group => "Group"
    case Message => "Message"
    case Bytes => "Bytes"
    case Uint32 => "Uint32"
    case Enum => "Enum"
    case Sfixed32 => "Sfixed32"
    case Sfixed64 => "Sfixed64"
    case Sint32 => "Sint32"
    case Sint64 => "Sint64"
    case NoDataEnumVariant => "NoDataEnumVariant"
    case OneofField => "OneofField"
    case MapField => "MapField"
    case Everything => "Everything"
  }

  /** The variants listed in the macro instantiation; `Everything` is not among them. */
  const Variants: seq<FieldSelector> := [
    Double, Float, Int64, Uint64, Int32, Fixed64,
    Fixed32, Bool, String, Group, Message, Bytes,
    Uint32, Enum, Sfixed32, Sfixed64, Sint32, Sint64,
    NoDataEnumVariant, OneofField, MapField
  ]

  const Fields: Domain<FieldSelector> := Domain("FieldFilter", Variants, Everything, Discriminant, Name)

  /** Every selector but `Everything` is listed. */
  lemma FieldsListed()
    ensures forall s :: s != Everything ==> s in Variants
  {
  }

  lemma FieldsSingleBits()
    ensures forall s | s in Variants :: IsSingleBit(Discriminant(s))
  {
    forall s | s in Variants
      ensures IsSingleBit(Discriminant(s))
    {
      BitIsSingle(Shift(s));
    }
  }

  lemma FieldsDistinct()
    ensures forall s1, s2 | s1 in Variants && s2 in Variants && s1 != s2 :: Discriminant(s1) != Discriminant(s2)
  {
    forall s1, s2 | s1 in Variants && s2 in Variants && s1 != s2
      ensures Discriminant(s1) != Discriminant(s2)
    {
      BitInjective(Shift(s1), Shift(s2));
    }
  }

  /** The selector table keeps the discipline every lemma of `Selection` relies on. */
  lemma FieldsWellFormed()
    ensures WellFormed(Fields)
  {
    FieldsListed();
    FieldsSingleBits();
    FieldsDistinct();
  }

  /** The listed variants stand in bit order, from bit 1. */
  lemma ShiftOfVariant(k: nat)
    requires k < |Variants|
    ensures Variants[k] != Everything && Shift(Variants[k]) == k + 1
  {
  }

  /** No listed variant owns bit 0 or a bit from 22 up. */
  lemma NoVariantOwns(k: BitIndex)
    requires k == 0 || |Variants| < k
    ensures forall s | s in Variants :: Discriminant(s) != Bit(k)
  {
    forall s | s in Variants
      ensures Discriminant(s) != Bit(k)
    {
      BitInjective(Shift(s), k);
    }
  }

  /**
   * `try_from(1 << k)` yields the variant declared as `1 << k` for `k`
   * from 1 to 21 and fails with the value for bit 0 and bits 22 to 31;
   * every value that is not a single bit fails by `TryFromRejectsNonSingle`.
   */
  lemma TryFromFields(k: BitIndex)
    ensures TryFrom(Fields, Bit(k)) == if 1 <= k <= 21 then Ok(Variants[k - 1]) else Err(Bit(k))
  {
    FieldsWellFormed();
    if 1 <= k <= 21 {
      ShiftOfVariant(k - 1);
      TryFromOk(Fields, Bit(k), Variants[k - 1]);
    } else {
      NoVariantOwns(k);
      TryFromErr(Fields, Bit(k));
    }
  }

  /** Neither zero nor `u32::MAX` names a selector: `Everything` cannot be recovered. */
  lemma TryFromFieldsRejects()
    ensures TryFrom(Fields, 0) == Err(0)
    ensures TryFrom(Fields, AllOnes) == Err(AllOnes)
  {
    FieldsWellFormed();
    TryFromRejectsNonSingle(Fields, 0);
    TryFromRejectsNonSingle(Fields, AllOnes);
  }

  /**
   * The wildcard's own filter renders 32 items: a marker for the unused
   * bit 0, the 21 names in bit order, then a marker for each of bits 22 to 31.
   */
  lemma RenderedEverything(i: BitIndex)
    ensures |Items(Fields, AllOnes, 32)| == 32
    ensures 1 <= i <= 21 ==> Items(Fields, AllOnes, 32)[i] == Name(Variants[i - 1])
    ensures (i == 0 || 21 < i) ==> Items(Fields, AllOnes, 32)[i] == UnknownItem(Bit(i))
  {
    FieldsWellFormed();
    ItemsOfAllOnes(Fields, i);
    if 1 <= i <= 21 {
      ShiftOfVariant(i - 1);
      ItemOfVariant(Fields, Variants[i - 1], i);
    } else {
      NoVariantOwns(i);
      ItemOfUnownedBit(Fields, i);
    }
  }

  /** In particular the first item of the wildcard's filter is the marker `Unknonwn(1)`. */
  lemma RenderedEverythingStartsUnknown()
    ensures Items(Fields, AllOnes, 32)[0] == "Unknonwn(1)"
  {
    RenderedEverything(0);
    MarkerOfBitZero();
  }

  /** The marker text of bit 0, kept apart because it is costly inline. */
  lemma MarkerOfBitZero()
    ensures UnknownItem(Bit(0)) == "Unknonwn(1)"
  {
    assert Bit(0) as nat == 1;
    assert Decimal.Show(1) == "1";
  }

  // ---- The wire-kind classifier ----

  /**
   * `From<Type> for FieldSelector`: a total match giving each wire kind
   * the selector of the same name, never a structural category or the wildcard.
   */
  function FromType(t: T.Type): (r: FieldSelector)
    ensures Name(r) == T.Name(t)
    ensures r != NoDataEnumVariant && r != OneofField && r != MapField && r != Everything
  {
    match t
    case Double => Double
    case Float => Float
    case Int64 => Int64
    case Uint64 => Uint64
    case Int32 => Int32
    case Fixed64 => Fixed64
    case Fixed32 => Fixed32
    case Bool => Bool
    case String => String
    case Group => Group
    case Message => Message
    case Bytes => Bytes
    case Uint32 => Uint32
    case Enum => Enum
    case Sfixed32 => Sfixed32
    case Sfixed64 => Sfixed64
    case Sint32 => Sint32
    case Sint64 => Sint64
  }

  /** Different wire kinds are classified apart. */
  lemma FromTypeInjective(t1: T.Type, t2: T.Type)
    ensures FromType(t1) == FromType(t2) <==> t1 == t2
  {
  }

  /** Every selector but the three structural ones and the wildcard classifies some wire kind. */
  lemma FromTypeCovers(s: FieldSelector)
    requires s != NoDataEnumVariant && s != OneofField && s != MapField && s != Everything
    ensures exists t :: FromType(t) == s
  {
    match s
    case Double => assert FromType(T.Double) == Double;
    case Float => assert FromType(T.Float) == Float;
    case Int64 => assert FromType(T.Int64) == Int64;
    case Uint64 => assert FromType(T.Uint64) == Uint64;
    case Int32 => assert FromType(T.Int32) == Int32;
    case Fixed64 => assert FromType(T.Fixed64) == Fixed64;
    case Fixed32 => assert FromType(T.Fixed32) == Fixed32;
    case Bool => assert FromType(T.Bool) == Bool;
    case String => assert FromType(T.String) == String;
    case Group => assert FromType(T.Group) == Group;
    case Message => assert FromType(T.Message) == Message;
    case Bytes => assert FromType(T.Bytes) == Bytes;
    case Uint32 => assert FromType(T.Uint32) == Uint32;
    case Enum => assert FromType(T.Enum) == Enum;
    case Sfixed32 => assert FromType(T.Sfixed32) == Sfixed32;
    case Sfixed64 => assert FromType(T.Sfixed64) == Sfixed64;
    case Sint32 => assert FromType(T.Sint32) == Sint32;
    case Sint64 => assert FromType(T.Sint64) == Sint64;
  }

  /** A filter built from one wire kind matches the fields of that wire kind and no other. */
  lemma WireKindFilterMatches(t: T.Type, u: T.Type)
    ensures IsSet(Fields, FromSelector(Fields, FromType(t)), FromType(u)) <==> t == u
  {
    FieldsWellFormed();
    SingletonMatches(Fields, FromType(t), FromType(u));
    FromTypeInjective(t, u);
  }
}
