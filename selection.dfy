/**
 * The body of the `implement_conversions!` macro, written once for both of
 * its instantiations: a filter is a 32-bit mask standing for a set of
 * selectors, where each ordinary selector owns one bit and the wildcard
 * selector is the all-ones word.
 */
module Selection {
  import opened Bits32
  import opened Wrappers

  /**
   * What one instantiation supplies: the filter's type name, the ordinary
   * variants in the order the instantiation lists them, the wildcard
   * (`Everything`), each selector's discriminant (`en as u32`) and the
   * identifier a derived `Debug` prints for it.
   */
  datatype Domain<!S> = Domain(
    filterName: string,
    variants: seq<S>,
    wildcard: S,
    value: S -> bv32,
    name: S -> string)

  /**
   * The discipline the enumerations keep by construction: the wildcard is
   * all ones and is not listed, every other selector is listed, and listed
   * selectors own distinct single bits.
   */
  ghost predicate WellFormed<S(!new)>(d: Domain<S>)
  {
    && d.value(d.wildcard) == AllOnes
    && d.wildcard !in d.variants
    && (forall s :: s != d.wildcard ==> s in d.variants)
    && (forall s | s in d.variants :: IsSingleBit(d.value(s)))
    && (forall s1, s2 | s1 in d.variants && s2 in d.variants && s1 != s2 :: d.value(s1) != d.value(s2))
  }

  /** A set of selectors of one domain, as its mask; `S` keeps the two filter types apart. */
  datatype Filter<S> = Filter(mask: bv32)

  /** The derived `Default`: the empty mask. */
  function DefaultFilter<S>(): Filter<S>
  {
    Filter(0)
  }

  /** `is_set`: the filter and the selector share a bit. */
  predicate IsSet<S>(d: Domain<S>, f: Filter<S>, en: S)
  {
    Meets(f.mask, d.value(en))
  }

  /** `From<Selector> for Filter`: the singleton filter. */
  function FromSelector<S>(d: Domain<S>, en: S): Filter<S>
  {
    Filter(d.value(en))
  }

  /** `Filter | x`, with `x` already converted into a filter. */
  function Union<S>(a: Filter<S>, b: Filter<S>): Filter<S>
  {
    Filter(a.mask | b.mask)
  }

  /** `Selector | x`, with `x` already converted into a filter. */
  function SelectorOr<S>(d: Domain<S>, en: S, rhs: Filter<S>): Filter<S>
  {
    Union(FromSelector(d, en), rhs)
  }

  /** The `match` of `try_from`: the first variant of `vs` whose discriminant is `v`. */
  function Lookup<S>(d: Domain<S>, vs: seq<S>, v: bv32): (r: Result<S, bv32>)
    ensures r.Ok? ==> r.value in vs && d.value(r.value) == v
    ensures r.Err? ==> r.error == v && forall s | s in vs :: d.value(s) != v
  {
    if vs == [] then Err(v)
    else if d.value(vs[0]) == v then Ok(vs[0])
    else Lookup(d, vs[1..], v)
  }

  /** `TryFrom<u32> for Selector`: only the listed variants can be recovered. */
  function TryFrom<S>(d: Domain<S>, v: bv32): Result<S, bv32>
  {
    Lookup(d, d.variants, v)
  }

  /** The ordinary selectors a filter matches. */
  function Selected<S>(d: Domain<S>, f: Filter<S>): set<S>
  {
    set s | s in d.variants && IsSet(d, f, s)
  }

  // ---- Singletons and the default filter ----

  /**
   * A singleton filter matches `t` exactly when `t` is its own selector or
   * one of the two is the wildcard: ordinary selectors exclude each other.
   */
  lemma SingletonMatches<S(!new)>(d: Domain<S>, en: S, t: S)
    requires WellFormed(d)
    ensures IsSet(d, FromSelector(d, en), t) <==> en == t || en == d.wildcard || t == d.wildcard
  {
    if en != d.wildcard {
      assert en in d.variants;
    }
    if t != d.wildcard {
      assert t in d.variants;
    }
    if en != t && en != d.wildcard && t != d.wildcard {
      DistinctSingleBitsDisjoint(d.value(en), d.value(t));
    }
  }

  /** The default filter matches nothing, not even the wildcard. */
  lemma DefaultMatchesNothing<S>(d: Domain<S>, en: S)
    ensures !IsSet(d, DefaultFilter(), en)
  {
  }

  // ---- Union ----

  /** A union matches a selector iff one of its operands does. */
  lemma UnionMatches<S>(d: Domain<S>, a: Filter<S>, b: Filter<S>, en: S)
    ensures IsSet(d, Union(a, b), en) <==> IsSet(d, a, en) || IsSet(d, b, en)
  {
    var v := d.value(en);
    OrMeets(a.mask, b.mask, v);
    assert IsSet(d, Union(a, b), en) == Meets(a.mask | b.mask, v);
  }

  /** `Selector | x` matches what the selector's singleton or `x` matches. */
  lemma SelectorOrMatches<S>(d: Domain<S>, en: S, rhs: Filter<S>, t: S)
    ensures IsSet(d, SelectorOr(d, en, rhs), t) <==> IsSet(d, FromSelector(d, en), t) || IsSet(d, rhs, t)
  {
    UnionMatches(d, FromSelector(d, en), rhs, t);
  }

  lemma UnionCommutative<S>(a: Filter<S>, b: Filter<S>)
    ensures Union(a, b) == Union(b, a)
  {
  }

  lemma UnionAssociative<S>(a: Filter<S>, b: Filter<S>, c: Filter<S>)
    ensures Union(Union(a, b), c) == Union(a, Union(b, c))
  {
  }

  lemma UnionIdentity<S>(a: Filter<S>)
    ensures Union(DefaultFilter(), a) == a && Union(a, DefaultFilter()) == a
  {
  }

  lemma UnionIdempotent<S>(a: Filter<S>)
    ensures Union(a, a) == a
  {
  }

  // ---- The wildcard ----

  /** Asking for the wildcard asks only whether the filter is non-empty. */
  lemma WildcardMeansNonEmpty<S(!new)>(d: Domain<S>, f: Filter<S>)
    requires WellFormed(d)
    ensures IsSet(d, f, d.wildcard) <==> f.mask != 0
  {
  }

  // ---- The filter as a set of selectors ----

  lemma SelectedDefault<S>(d: Domain<S>)
    ensures Selected(d, DefaultFilter()) == {}
  {
  }

  /** An ordinary singleton holds its selector only; the wildcard's holds every listed one. */
  lemma SelectedSingleton<S(!new)>(d: Domain<S>, en: S)
    requires WellFormed(d)
    ensures en != d.wildcard ==> Selected(d, FromSelector(d, en)) == {en}
    ensures en == d.wildcard ==> Selected(d, FromSelector(d, en)) == set s | s in d.variants
  {
    forall t | t in d.variants
      ensures t in Selected(d, FromSelector(d, en)) <==> en == t || en == d.wildcard
    {
      SingletonMatches(d, en, t);
    }
    if en != d.wildcard {
      assert en in d.variants;
    }
  }

  lemma SelectedUnion<S>(d: Domain<S>, a: Filter<S>, b: Filter<S>)
    ensures Selected(d, Union(a, b)) == Selected(d, a) + Selected(d, b)
  {
    forall t | t in d.variants
      ensures IsSet(d, Union(a, b), t) <==> IsSet(d, a, t) || IsSet(d, b, t)
    {
      UnionMatches(d, a, b, t);
    }
  }

  // ---- Reverse lookup ----

  /** `try_from(v)` yields `s` exactly when `s` is a listed variant whose discriminant is `v`. */
  lemma TryFromOk<S(!new)>(d: Domain<S>, v: bv32, s: S)
    requires WellFormed(d)
    ensures TryFrom(d, v) == Ok(s) <==> s in d.variants && d.value(s) == v
  {
    var r := TryFrom(d, v);
    if s in d.variants && d.value(s) == v {
      assert r.Ok?;
    }
  }

  /** Otherwise it fails and hands the value back unchanged. */
  lemma TryFromErr<S>(d: Domain<S>, v: bv32)
    ensures TryFrom(d, v).Err? <==> forall s | s in d.variants :: d.value(s) != v
    ensures TryFrom(d, v).Err? ==> TryFrom(d, v) == Err(v)
  {
  }

  lemma TryFromRoundTrip<S(!new)>(d: Domain<S>, s: S)
    requires WellFormed(d) && s != d.wildcard
    ensures TryFrom(d, d.value(s)) == Ok(s)
  {
    assert s in d.variants;
    TryFromOk(d, d.value(s), s);
  }

  /** Zero, the all-ones word and every multi-bit value are rejected. */
  lemma TryFromRejectsNonSingle<S(!new)>(d: Domain<S>, v: bv32)
    requires WellFormed(d) && !IsSingleBit(v)
    ensures TryFrom(d, v) == Err(v)
  {
  }

  /** In particular the wildcard is never recovered, not even from its own value. */
  lemma TryFromNeverWildcard<S(!new)>(d: Domain<S>, v: bv32)
    requires WellFormed(d)
    ensures TryFrom(d, v) != Ok(d.wildcard)
    ensures TryFrom(d, d.value(d.wildcard)) == Err(AllOnes)
  {
    TryFromRejectsNonSingle(d, AllOnes);
  }
}
