# prost-build selector filters, modelled in Dafny

prost-build's code generator uses small bitmask filters to decide whether a
user-configured rule applies to an element it is about to emit. A *selector*
is a closed enumeration in which every ordinary variant owns one bit of a
`u32` and the wildcard `Everything` is `u32::MAX`. A *filter* is a `u32` mask
that stands for a set of selectors. There are two instantiations of one macro:

- `TypeFilter` / `TypeSelector`: seven ordinary variants on bits 0 to 6.
- `FieldFilter` / `FieldSelector`: eighteen wire kinds and three structural
  categories on bits 1 to 21. Bit 0 is never used.

Each instantiation offers the same operations:

- `is_set`: the filter and the selector share a bit.
- Conversion of a selector into a singleton filter.
- Union of filters and selectors with `|`.
- `TryFrom<u32>`: the reverse lookup from a value to a listed variant.
- The `Debug` rendering `Name( A | B | … )`.

A separate total match classifies each protobuf wire kind as the
`FieldSelector` of the same name.

The project is organised as follows:

- `selection.dfy` (module `Selection`) holds the macro body once. It is generic over a
  `Domain<S>` that carries what one instantiation supplies:
  - the filter's type name;
  - the listed variants, in order;
  - the wildcard;
  - the discriminant `en as u32`;
  - the derived `Debug` name of a selector.

  `Filter<S>` wraps a `bv32` mask. Its type parameter keeps `TypeFilter` and
  `FieldFilter` apart, as the two Rust types are. `WellFormed` states the
  discipline the enumerations keep by construction.
- `rendering.dfy` (module `Rendering`) is `Debug::fmt`. `Fmt` is a method
  with the source's 32-step loop and its `written` flag. It is proved equal to
  the function `Rendered`, and the lemmas about `Rendered` state what the text contains.
  The loop tests each bit with `Has(f.mask, idx)`, which is defined as
  `(1 << idx) & m != 0`. That is the same test as the source's `mask & self.0 != 0`.
- `type_filter.dfy` and `field_filter.dfy` hold the two concrete tables.
  There, `WellFormed` of each table is proved, and so are concrete facts about
  lookups and rendering. `field_filter.dfy` also mirrors the external wire-kind
  enumeration (module `FieldDescriptorProto`) and the classifier `FromType`.
- `bits.dfy` (32-bit mask facts), `decimal.dfy` (the decimal text of a `u32`,
  as `{}` prints it) and `wrappers.dfy` (`Result`) are helpers.

A set bit that no variant owns is written `Unknonwn(N)`, misspelt as in the
code, with N in decimal (prost-build/src/filters.rs:43).
`Rendering.UnknownItem` produces it.

## Model

| member | source | states |
|---|---|---|
| `Selection.DefaultFilter` | prost-build/src/filters.rs:68-69 | The derived `Default`, mask 0. No contract of its own; specified by `DefaultMatchesNothing`, `UnionIdentity`, `SelectedDefault` and `RenderedDefault`. |
| `Selection.IsSet` | prost-build/src/filters.rs:7-9 | `is_set`. No contract of its own; specified by `SingletonMatches`, `UnionMatches`, `SelectorOrMatches` and `WildcardMeansNonEmpty`. |
| `Selection.FromSelector` | prost-build/src/filters.rs:12-16 | `From<Selector> for Filter`. No contract of its own; specified by `SingletonMatches`, `SelectedSingleton` and `RenderedSingleton`. |
| `Selection.SelectorOr` | prost-build/src/filters.rs:18-23 | `Selector \| x`. No contract of its own; specified by `SelectorOrMatches` and `RenderedPair`. |
| `Selection.Union` | prost-build/src/filters.rs:25-30 | `Filter \| x`. No contract of its own; specified by `UnionMatches`, the four union algebra lemmas and `SelectedUnion`. |
| `Selection.TryFrom` | prost-build/src/filters.rs:52-61 | `TryFrom<u32> for Selector`. No contract of its own; specified by the contract of `Lookup` and by `TryFromOk`, `TryFromErr`, `TryFromRoundTrip`, `TryFromRejectsNonSingle` and `TryFromNeverWildcard`. |
| `Selection.SingletonMatches` | prost-build/src/filters.rs:7-16 | `Filter::from(en).is_set(t)` holds iff `en == t` or one of them is the wildcard. So every selector, `Everything` included, matches its own singleton, and distinct ordinary selectors exclude each other. |
| `Selection.DefaultMatchesNothing` | prost-build/src/filters.rs:7-9 | The derived default filter (mask 0) matches no selector, not even `Everything`. |
| `Selection.UnionMatches` | prost-build/src/filters.rs:25-30 | `(a \| b).is_set(s)` iff `a.is_set(s)` or `b.is_set(s)`. |
| `Selection.SelectorOrMatches` | prost-build/src/filters.rs:18-23 | `selector \| x` matches what the selector's singleton or `x` matches. |
| `Selection.UnionCommutative` | prost-build/src/filters.rs:25-30 | `a \| b == b \| a`. |
| `Selection.UnionAssociative` | prost-build/src/filters.rs:25-30 | `(a \| b) \| c == a \| (b \| c)`. |
| `Selection.UnionIdentity` | prost-build/src/filters.rs:25-30 | The default filter is a two-sided identity of union. |
| `Selection.UnionIdempotent` | prost-build/src/filters.rs:25-30 | `a \| a == a`. |
| `Selection.WildcardMeansNonEmpty` | prost-build/src/filters.rs:7-9 | `f.is_set(Everything)` iff the mask is non-zero. This is not a test that every listed variant is present. |
| `Selection.SelectedDefault` | prost-build/src/filters.rs:68-69 | As a set of ordinary selectors, the default filter is empty. |
| `Selection.SelectedSingleton` | prost-build/src/filters.rs:12-16 | An ordinary selector's singleton holds exactly that selector. The wildcard's singleton holds every listed one. |
| `Selection.SelectedUnion` | prost-build/src/filters.rs:25-30 | The selectors held by `a \| b` are those of `a` together with those of `b`. |
| `Selection.Lookup` | prost-build/src/filters.rs:55-60 | The guarded `match` of `try_from`. An `Ok` result is a listed variant whose discriminant is the value. An `Err` carries the value unchanged, and no listed variant has it as discriminant. |
| `Selection.TryFromOk` | prost-build/src/filters.rs:52-61 | `try_from(v) == Ok(s)` iff `s` is listed and `s as u32 == v`. |
| `Selection.TryFromErr` | prost-build/src/filters.rs:52-61 | `try_from(v)` fails iff no listed variant has value `v`, and the error is `v` itself. |
| `Selection.TryFromRoundTrip` | prost-build/src/filters.rs:52-61 | `try_from(s as u32) == Ok(s)` for every ordinary `s`. |
| `Selection.TryFromRejectsNonSingle` | prost-build/src/filters.rs:52-61 | Zero, `u32::MAX` and every multi-bit value fail with themselves. |
| `Selection.TryFromNeverWildcard` | prost-build/src/filters.rs:84-97 | `Everything` is not listed, so no value yields it. Its own value `u32::MAX` yields `Err(u32::MAX)`. |
| `Rendering.UnknownItem` | prost-build/src/filters.rs:43 | The marker written for an unowned bit. No contract of its own; specified by `ItemOfUnownedBit`, `Decimal.Show` and `Decimal.ValueOfShow`. |
| `Rendering.Item` | prost-build/src/filters.rs:41-44 | What one set bit contributes. No contract of its own; specified by `ItemOfVariant` and `ItemOfUnownedBit`. |
| `Rendering.Items` | prost-build/src/filters.rs:36-46 | The items the scan writes for the bits below `n`. No contract of its own; specified by `ItemsCount`, `ItemCountIsPopCount`, `ItemPosition` and `ItemsEmptyIff`. |
| `Rendering.Rendered` | prost-build/src/filters.rs:34-47 | The whole `Debug` text. No contract of its own; specified by `Fmt` and by `RenderedDefault`, `RenderedSingleton` and `RenderedPair`. |
| `Rendering.Fmt` | prost-build/src/filters.rs:32-49 | The 32-step scan with the `written` flag produces exactly `Rendered`: the name, `"( "`, the items of the set bits joined by `" \| "`, then `" )"`. |
| `Rendering.ItemsCount` | prost-build/src/filters.rs:36-45 | The scan up to bit `n` writes one item per set bit below `n`. |
| `Rendering.ItemCountIsPopCount` | prost-build/src/filters.rs:36-45 | The number of rendered items is the popcount of the mask. |
| `Rendering.ItemPosition` | prost-build/src/filters.rs:36-45 | The item of set bit `i` is rendered at the position equal to the number of set bits below `i`. So every set bit appears, in ascending bit order, and a marker does not stop the scan. |
| `Rendering.ItemsEmptyIff` | prost-build/src/filters.rs:36-45 | A filter renders no item iff its mask is zero. |
| `Rendering.RenderedDefault` | prost-build/src/filters.rs:34-47 | The empty filter renders as `Name(  )`. |
| `Rendering.ItemOfVariant` | prost-build/src/filters.rs:41-42 | A bit owned by a listed variant renders as that variant's identifier. |
| `Rendering.ItemOfUnownedBit` | prost-build/src/filters.rs:41-43 | A set bit that no listed variant owns renders as `Unknonwn(<1 << k in decimal>)`. |
| `Rendering.RenderedSingleton` | prost-build/src/filters.rs:32-49 | An ordinary singleton renders as `Name( X )`. |
| `Rendering.RenderedPair` | prost-build/src/filters.rs:32-49 | Two ordinary selectors render as `Name( X \| Y )`, the lower bit first, whichever is named first in the union. |
| `TypeFilters.Discriminant` | prost-build/src/filters.rs:76-85 | `en as u32` for `TypeSelector`, mirroring the `#[repr(u32)]` table: `1 << k`, or `u32::MAX` for `Everything`. No contract of its own; specified by `TypesWellFormed` and `TryFromTypes`. |
| `TypeFilters.Name` | prost-build/src/filters.rs:74-85 | The derived `Debug` identifier of each `TypeSelector` variant. No contract of its own; specified by `RenderedTypesSingleton`, `RenderedTypesPair` and `RenderedEverything`. |
| `TypeFilters.TypesWellFormed` | prost-build/src/filters.rs:76-97 | The `TypeSelector` table is well formed: `Everything` is `u32::MAX` and unlisted, every other variant is listed, and the listed variants own distinct single bits. |
| `TypeFilters.TryFromTypes` | prost-build/src/filters.rs:87-98 | `TypeSelector::try_from(1 << k)` yields the variant declared `1 << k` for `k` from 0 to 6. It fails with the value for bits 7 to 31. |
| `TypeFilters.TryFromTypesRejects` | prost-build/src/filters.rs:84-97 | `TypeSelector::try_from` fails on 0 and on `u32::MAX`. |
| `TypeFilters.WildcardIsNotCompleteness` | prost-build/src/filters.rs:77-84 | A filter built only from `ProtobufMessage` matches `Everything` but not `ProtobufEnum`. |
| `TypeFilters.RenderedTypesDefault` | prost-build/src/filters.rs:34-47 | The empty type filter renders as `"TypeFilter(  )"`. |
| `TypeFilters.RenderedTypesSingleton` | prost-build/src/filters.rs:34-47 | `TypeFilter::from(RustEnum)` renders as `"TypeFilter( RustEnum )"`. |
| `TypeFilters.RenderedTypesPair` | prost-build/src/filters.rs:34-47 | `RustStruct \| ProtobufMessage` renders as `"TypeFilter( ProtobufMessage \| RustStruct )"`. |
| `TypeFilters.RenderedEverything` | prost-build/src/filters.rs:32-49 | `TypeFilter::from(Everything)` renders 32 items: the seven names, then an `Unknonwn` marker for each of bits 7 to 31. |
| `FieldFilters.Discriminant` | prost-build/src/filters.rs:118-148 | `en as u32` for `FieldSelector`, mirroring the `#[repr(u32)]` table: `1 << k` for bits 1 to 21, or `u32::MAX` for `Everything`. No contract of its own; specified by `FieldsWellFormed` and `TryFromFields`. |
| `FieldFilters.Name` | prost-build/src/filters.rs:116-148 | The derived `Debug` identifier of each `FieldSelector` variant. No contract of its own; specified by `FromType` (same name as the wire kind) and `RenderedEverything`. |
| `FieldFilters.FieldsWellFormed` | prost-build/src/filters.rs:118-159 | The `FieldSelector` table is well formed, as for `TypeSelector`. |
| `FieldFilters.TryFromFields` | prost-build/src/filters.rs:150-159 | `FieldSelector::try_from(1 << k)` yields the variant declared `1 << k` for `k` from 1 to 21. It fails with the value for bit 0 and bits 22 to 31. |
| `FieldFilters.TryFromFieldsRejects` | prost-build/src/filters.rs:147-158 | `FieldSelector::try_from` fails on 0 and on `u32::MAX`. |
| `FieldFilters.RenderedEverything` | prost-build/src/filters.rs:32-49 | `FieldFilter::from(Everything)` renders 32 items: a marker for the unused bit 0, the 21 names in bit order, then a marker for each of bits 22 to 31. |
| `FieldFilters.RenderedEverythingStartsUnknown` | prost-build/src/filters.rs:43 | The first item of that rendering is `Unknonwn(1)`. |
| `FieldFilters.FromType` | prost-build/src/filters.rs:100-111 | Every wire kind is classified, and its selector has the same name. A wire kind is never classified as `NoDataEnumVariant`, `OneofField`, `MapField` or `Everything`. |
| `FieldFilters.FromTypeInjective` | prost-build/src/filters.rs:161-167 | Two wire kinds are classified alike iff they are the same. |
| `FieldFilters.FromTypeCovers` | prost-build/src/filters.rs:161-167 | Every selector except the three structural categories and the wildcard is the classification of some wire kind. |
| `FieldFilters.WireKindFilterMatches` | prost-build/src/filters.rs:161-167 | A filter built from the classification of wire kind `t` matches the classification of `u` iff `t == u`. |
| `Decimal.Show` | prost-build/src/filters.rs:43 | The `{}` text of the number inside `Unknonwn(…)`: non-empty, digits only, no leading zero except for 0. |
| `Decimal.ValueOfShow` | prost-build/src/filters.rs:43 | Reading the rendered digits back gives the number. |

## Left out

- Formatter errors: the `?` on each `write!` is not modelled. `Fmt` builds a string, and writing to the formatter cannot fail in the model.
- Rust's conversion plumbing (`T: Into<Filter>`, `From`/`Into` dispatch) and the two macros are not modelled as such. The right-hand side of `|` is always a filter in the model. `Selector | Selector` is `SelectorOr(d, s, FromSelector(d, t))`.
- `prost_types::field_descriptor_proto::Type` belongs to another crate and is not part of this model. Only its eighteen variant names are mirrored, not its numeric tags or any descriptor parsing.
- The derived `Debug` of a selector is the function `Name`, which returns the variant's identifier. Formatting machinery is not modelled.
- `Clone`/`Copy` derives carry no behaviour and are not modelled.
