/**
 * The `Debug` rendering of a filter, from the body of the
 * `implement_conversions!` macro: the filter's type name, then one item per
 * set bit in ascending bit order separated by `" | "`, inside `"( "` and
 * `" )"`. A set bit that no listed variant owns is rendered as an
 * `Unknonwn(<value>)` marker (the identifier's spelling is the program's).
 */
module Rendering {
  import opened Bits32
  import opened Wrappers
  import opened Selection
  import Decimal

  /** The marker for a set bit with no variant: `Unknonwn({})` of the `u32` value. */
  function UnknownItem(e: bv32): string
  {
    "Unknonwn(" + Decimal.Show(e as nat) + ")"
  }

  /** What is written for set bit `idx`: the variant's name, or the marker. */
  function Item<S>(d: Domain<S>, idx: BitIndex): string
  {
    match TryFrom(d, Bit(idx))
    case Ok(x) => d.name(x)
    case Err(e) => UnknownItem(e)
  }

  /** The items of the set bits of `m` below position `n`, in ascending bit order. */
  function Items<S>(d: Domain<S>, m: bv32, n: nat): seq<string>
    requires n <= 32
  {
    if n == 0 then []
    else Items(d, m, n - 1) + (if Has(m, n - 1) then [Item(d, n - 1)] else [])
  }

  /** The items separated by `" | "`. */
  function Join(items: seq<string>): string
  {
    if |items| == 0 then ""
    else if |items| == 1 then items[0]
    else Join(items[..|items| - 1]) + " | " + items[|items| - 1]
  }

  /** The complete rendering of a filter. */
  function Rendered<S>(d: Domain<S>, f: Filter<S>): string
  {
    d.filterName + "( " + Join(Items(d, f.mask, 32)) + " )"
  }

  lemma JoinSnoc(items: seq<string>, x: string)
    ensures Join(items + [x]) == if items == [] then x else Join(items) + " | " + x
  {
    assert (items + [x])[..|items|] == items;
  }

  lemma JoinPair(x: string, y: string)
    ensures Join([x, y]) == x + " | " + y
  {
    assert [x, y][..1] == [x];
  }

  /** Writing the separator (unless nothing was written yet) and then an item extends the join. */
  lemma AppendItem(head: string, done: seq<string>, x: string)
    ensures head + (if done == [] then "" else Join(done) + " | ") + x == head + Join(done + [x])
  {
    JoinSnoc(done, x);
  }

  /**
   * `Debug::fmt`: a scan over the 32 bit positions that writes a separator
   * before every item but the first (the `written` flag).
   */
  method Fmt<S>(d: Domain<S>, f: Filter<S>) returns (out: string)
    ensures out == Rendered(d, f)
  {
    var head := d.filterName + "( ";
    out := head;
    var written := false;
    for idx := 0 to 32
      invariant written <==> Items(d, f.mask, idx) != []
      invariant out == head + Join(Items(d, f.mask, idx))
    {
      ghost var done := Items(d, f.mask, idx);
      var mask: bv32 := Bit(idx);
      if Has(f.mask, idx) {  // `mask & self.0 != 0`
        assert Items(d, f.mask, idx + 1) == done + [Item(d, idx)];
        AppendItem(head, done, Item(d, idx));
        if written {
          out := out + " | ";
        }
        assert out == head + (if done == [] then "" else Join(done) + " | ");
        written := true;
        match TryFrom(d, mask) {
          case Ok(x) => out := out + d.name(x);
          case Err(e) => out := out + UnknownItem(e);
        }
      } else {
        assert Items(d, f.mask, idx + 1) == done;
      }
    }
    out := out + " )";
  }

  // ---- What the rendering contains ----

  /** There is one item per set bit. */
  lemma {:induction false} ItemsCount<S>(d: Domain<S>, m: bv32, n: nat)
    requires n <= 32
    ensures |Items(d, m, n)| == CountBelow(m, n)
  {
    if n > 0 {
      ItemsCount(d, m, n - 1);
    }
  }

  lemma ItemCountIsPopCount<S>(d: Domain<S>, f: Filter<S>)
    ensures |Items(d, f.mask, 32)| == PopCount(f.mask)
  {
    ItemsCount(d, f.mask, 32);
  }

  /**
   * The item of set bit `i` stands at the position given by the number of
   * set bits below `i`: every set bit is rendered, in ascending order, and
   * a bit no variant owns does not stop the scan.
   */
  lemma {:induction false} ItemPosition<S>(d: Domain<S>, m: bv32, n: nat, i: BitIndex)
    requires n <= 32 && i < n && Has(m, i)
    ensures CountBelow(m, i) < |Items(d, m, n)|
    ensures Items(d, m, n)[CountBelow(m, i)] == Item(d, i)
  {
    ItemsCount(d, m, i);
    if i < n - 1 {
      ItemPosition(d, m, n - 1, i);
    } else {
      assert Items(d, m, n) == Items(d, m, i) + [Item(d, i)];
    }
  }

  /** A filter renders with no item iff it is empty. */
  lemma ItemsEmptyIff<S>(d: Domain<S>, f: Filter<S>)
    ensures Items(d, f.mask, 32) == [] <==> f.mask == 0
  {
    ItemCountIsPopCount(d, f);
    PopCountZero(f.mask);
  }

  /** The default filter renders as `Name(  )`. */
  lemma RenderedDefault<S>(d: Domain<S>)
    ensures Rendered(d, DefaultFilter()) == d.filterName + "(  )"
  {
    ItemsEmptyIff(d, DefaultFilter());
  }

  /** A bit owned by a listed variant renders as that variant's name. */
  lemma ItemOfVariant<S(!new)>(d: Domain<S>, s: S, k: BitIndex)
    requires WellFormed(d) && s in d.variants && d.value(s) == Bit(k)
    ensures Item(d, k) == d.name(s)
  {
    TryFromOk(d, Bit(k), s);
  }

  /** A bit no listed variant owns renders as the marker holding `1 << k`. */
  lemma ItemOfUnownedBit<S>(d: Domain<S>, k: BitIndex)
    requires forall s | s in d.variants :: d.value(s) != Bit(k)
    ensures Item(d, k) == UnknownItem(Bit(k))
  {
    TryFromErr(d, Bit(k));
  }

  lemma {:induction false} ItemsOfBit<S>(d: Domain<S>, k: BitIndex, n: nat)
    requires n <= 32
    ensures Items(d, Bit(k), n) == if n <= k then [] else [Item(d, k)]
  {
    if n > 0 {
      ItemsOfBit(d, k, n - 1);
      HasBit(k, n - 1);
    }
  }

  lemma {:induction false} ItemsOfTwoBits<S>(d: Domain<S>, k1: BitIndex, k2: BitIndex, n: nat)
    requires k1 < k2 && n <= 32
    ensures Items(d, Bit(k1) | Bit(k2), n) ==
      if n <= k1 then [] else if n <= k2 then [Item(d, k1)] else [Item(d, k1), Item(d, k2)]
  {
    if n > 0 {
      ItemsOfTwoBits(d, k1, k2, n - 1);
      HasTwoBits(k1, k2, n - 1);
    }
  }

  /** With every bit set, the item at position `i` is the item of bit `i`. */
  lemma {:induction false} ItemsOfAllOnesBelow<S>(d: Domain<S>, n: nat, i: BitIndex)
    requires n <= 32
    ensures |Items(d, AllOnes, n)| == n
    ensures i < n ==> Items(d, AllOnes, n)[i] == Item(d, i)
  {
    if n > 0 {
      ItemsOfAllOnesBelow(d, n - 1, i);
      AllOnesHasEvery(n - 1);
    }
  }

  lemma ItemsOfAllOnes<S>(d: Domain<S>, i: BitIndex)
    ensures |Items(d, AllOnes, 32)| == 32 && Items(d, AllOnes, 32)[i] == Item(d, i)
  {
    ItemsOfAllOnesBelow(d, 32, i);
  }

  /** A singleton of an ordinary selector renders as `Name( X )`. */
  lemma RenderedSingleton<S(!new)>(d: Domain<S>, s: S, k: BitIndex)
    requires WellFormed(d) && s in d.variants && d.value(s) == Bit(k)
    ensures Rendered(d, FromSelector(d, s)) == d.filterName + "( " + d.name(s) + " )"
  {
    ItemsOfBit(d, k, 32);
    ItemOfVariant(d, s, k);
  }

  lemma RenderedTwoBits<S>(d: Domain<S>, k1: BitIndex, k2: BitIndex)
    requires k1 < k2
    ensures Rendered(d, Filter(Bit(k1) | Bit(k2))) ==
      d.filterName + "( " + Item(d, k1) + " | " + Item(d, k2) + " )"
  {
    ItemsOfTwoBits(d, k1, k2, 32);
    JoinPair(Item(d, k1), Item(d, k2));
  }

  /** Two ordinary selectors render as `Name( X | Y )`, lower bit first, whichever is named first. */
  lemma RenderedPair<S(!new)>(d: Domain<S>, s1: S, k1: BitIndex, s2: S, k2: BitIndex)
    requires WellFormed(d) && s1 in d.variants && s2 in d.variants
    requires d.value(s1) == Bit(k1) && d.value(s2) == Bit(k2) && k1 < k2
    ensures Rendered(d, SelectorOr(d, s1, FromSelector(d, s2))) ==
      d.filterName + "( " + d.name(s1) + " | " + d.name(s2) + " )"
    ensures Rendered(d, SelectorOr(d, s2, FromSelector(d, s1))) ==
      d.filterName + "( " + d.name(s1) + " | " + d.name(s2) + " )"
  {
    RenderedTwoBits(d, k1, k2);
    ItemOfVariant(d, s1, k1);
    ItemOfVariant(d, s2, k2);
    UnionCommutative(FromSelector(d, s1), FromSelector(d, s2));
  }
}
