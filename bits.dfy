/** Facts about 32-bit masks, the backing integer of every filter. */
module Bits32 {

  /** `u32::MAX`: every bit set. */
  const AllOnes: bv32 := 0xFFFF_FFFF

  /** A bit position of a 32-bit word. */
  type BitIndex = i: int | 0 <= i < 32

  /** `1 << idx` on `u32`. */
  function Bit(idx: BitIndex): bv32
  {
    1 << (idx as bv5)
  }

  /** The two masks share a bit: `a & b != 0`. */
  predicate Meets(a: bv32, b: bv32)
  {
    a & b != 0
  }

  /** Bit `idx` is set in `m`: `(1 << idx) & m != 0`. */
  predicate Has(m: bv32, idx: BitIndex)
  {
    Meets(Bit(idx), m)
  }

  /** Exactly one bit of `v` is set. */
  predicate IsSingleBit(v: bv32)
  {
    v != 0 && v & (v - 1) == 0
  }

  /** The number of set bits of `m` among positions `0 .. n-1`. */
  function CountBelow(m: bv32, n: nat): nat
    requires n <= 32
  {
    if n == 0 then 0 else CountBelow(m, n - 1) + (if Has(m, n - 1) then 1 else 0)
  }

  /** The number of set bits of `m`. */
  function PopCount(m: bv32): nat
  {
    CountBelow(m, 32)
  }

  lemma BitIsSingle(idx: BitIndex)
    ensures IsSingleBit(Bit(idx))
  {
  }

  /** `u32::MAX` has every position set. */
  lemma AllOnesHasEvery(idx: BitIndex)
    ensures Has(AllOnes, idx)
  {
  }

  /** A single-bit word owns exactly one position. */
  lemma HasBit(k: BitIndex, idx: BitIndex)
    ensures Has(Bit(k), idx) <==> idx == k
  {
  }

  /** Different positions give different words. */
  lemma BitInjective(i: BitIndex, j: BitIndex)
    ensures Bit(i) == Bit(j) <==> i == j
  {
    HasBit(i, j);
    HasBit(j, j);
  }

  /** Two different single-bit words share no bit. */
  lemma DistinctSingleBitsDisjoint(a: bv32, b: bv32)
    requires IsSingleBit(a) && IsSingleBit(b) && a != b
    ensures a & b == 0
  {
  }

  lemma AndDistributes(a: bv32, b: bv32, v: bv32)
    ensures (a | b) & v == (a & v) | (b & v)
  {
  }

  lemma OrZero(x: bv32, y: bv32)
    ensures x | y == 0 <==> x == 0 && y == 0
  {
  }

  /** A union of masks meets `v` iff one of the masks does. */
  lemma OrMeets(a: bv32, b: bv32, v: bv32)
    ensures Meets(a | b, v) <==> Meets(a, v) || Meets(b, v)
  {
    AndDistributes(a, b, v);
    OrZero(a & v, b & v);
  }

  lemma HasUnion(a: bv32, b: bv32, idx: BitIndex)
    ensures Has(a | b, idx) <==> Has(a, idx) || Has(b, idx)
  {
    MeetsUnion(Bit(idx), a, b);
  }

  /** `v` meets a union of masks iff it meets one of them. */
  lemma MeetsUnion(v: bv32, a: bv32, b: bv32)
    ensures Meets(v, a | b) <==> Meets(v, a) || Meets(v, b)
  {
    AndDistributesLeft(v, a, b);
    OrZero(v & a, v & b);
  }

  lemma AndDistributesLeft(v: bv32, a: bv32, b: bv32)
    ensures v & (a | b) == (v & a) | (v & b)
  {
  }

  /** The union of two bits owns exactly those two positions. */
  lemma HasTwoBits(k1: BitIndex, k2: BitIndex, idx: BitIndex)
    ensures Has(Bit(k1) | Bit(k2), idx) <==> idx == k1 || idx == k2
  {
    HasUnion(Bit(k1), Bit(k2), idx);
    HasBit(k1, idx);
    HasBit(k2, idx);
  }

  /** No set bit is counted below `n` iff none of the positions below `n` is set. */
  lemma {:induction false} CountBelowZero(m: bv32, n: nat)
    requires n <= 32
    ensures CountBelow(m, n) == 0 <==> forall i: BitIndex | i < n :: !Has(m, i)
  {
    if n > 0 {
      CountBelowZero(m, n - 1);
    }
  }

  /** Byte by byte: a word none of whose positions is set has every byte clear. */
  lemma ByteClear0(m: bv32)
    requires forall i: BitIndex :: !Has(m, i)
    ensures m & 0xFF == 0
  {
    assert !Has(m, 0) && !Has(m, 1) && !Has(m, 2) && !Has(m, 3) && !Has(m, 4) && !Has(m, 5) && !Has(m, 6) && !Has(m, 7);
  }

  lemma ByteClear1(m: bv32)
    requires forall i: BitIndex :: !Has(m, i)
    ensures m & 0xFF00 == 0
  {
    assert !Has(m, 8) && !Has(m, 9) && !Has(m, 10) && !Has(m, 11) && !Has(m, 12) && !Has(m, 13) && !Has(m, 14) && !Has(m, 15);
  }

  lemma ByteClear2(m: bv32)
    requires forall i: BitIndex :: !Has(m, i)
    ensures m & 0xFF0000 == 0
  {
    assert !Has(m, 16) && !Has(m, 17) && !Has(m, 18) && !Has(m, 19) && !Has(m, 20) && !Has(m, 21) && !Has(m, 22) && !Has(m, 23);
  }

  lemma ByteClear3(m: bv32)
    requires forall i: BitIndex :: !Has(m, i)
    ensures m & 0xFF000000 == 0
  {
    assert !Has(m, 24) && !Has(m, 25) && !Has(m, 26) && !Has(m, 27) && !Has(m, 28) && !Has(m, 29) && !Has(m, 30) && !Has(m, 31);
  }

  lemma BytesClear(m: bv32)
    requires m & 0xFF == 0 && m & 0xFF00 == 0 && m & 0xFF_0000 == 0 && m & 0xFF00_0000 == 0
    ensures m == 0
  {
  }

  /** A word none of whose 32 positions is set is zero. */
  lemma NoBitSetIsZero(m: bv32)
    requires forall i: BitIndex :: !Has(m, i)
    ensures m == 0
  {
    ByteClear0(m);
    ByteClear1(m);
    ByteClear2(m);
    ByteClear3(m);
    BytesClear(m);
  }

  /** A mask has no set bit iff it is zero. */
  lemma PopCountZero(m: bv32)
    ensures PopCount(m) == 0 <==> m == 0
  {
    CountBelowZero(m, 32);
    if PopCount(m) == 0 {
      NoBitSetIsZero(m);
    }
  }
}
