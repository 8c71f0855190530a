// Descriptor bit fields on natural-number words: BIT(), GENMASK(),
// FIELD_PREP() and FIELD_GET() as the hardware page-table formats use them,
// and the facts that let a word built from disjoint fields be read back.

module Bitfield {
  import opened Bits
  import opened PtLog2

  /** BIT(n) */
  function Bit(n: nat): nat
  {
    Pow2(n)
  }

  /** GENMASK(hi, lo): bits lo..hi set. */
  function GenMask(hi: nat, lo: nat): nat
    requires lo <= hi
  {
    Shl(Pow2(hi - lo + 1) - 1, lo)
  }

  /** FIELD_PREP(GENMASK(hi, lo), v): v shifted into the field, excess bits dropped. */
  function FieldPrep(hi: nat, lo: nat, v: nat): nat
    requires lo <= hi
  {
    Shl(Low(v, hi - lo + 1), lo)
  }

  /** FIELD_GET(GENMASK(hi, lo), e) */
  function FieldGet(hi: nat, lo: nat, e: nat): nat
    requires lo <= hi
  {
    Low(Shr(e, lo), hi - lo + 1)
  }

  /** BIT(n) as a 64-bit word. */
  function Bit64(n: nat): u64
    requires n < 64
  {
    Pow2Words();
    Pow2StrictMonotone(n, 64);
    Bit(n)
  }

  /** FIELD_PREP into a field of a 64-bit word. */
  function Prep64(hi: nat, lo: nat, v: nat): u64
    requires lo <= hi < 64
  {
    FieldPrepBound(hi, lo, v);
    Pow2Monotone(hi + 1, 64);
    Pow2Words();
    FieldPrep(hi, lo, v)
  }

  /** GENMASK as a 64-bit word. */
  function Mask64(hi: nat, lo: nat): u64
    requires lo <= hi < 64
  {
    Pow2Monotone(hi + 1, 64);
    Pow2Words();
    GenMaskBound(hi, lo);
    GenMask(hi, lo)
  }

  lemma GenMaskBound(hi: nat, lo: nat)
    requires lo <= hi
    ensures GenMask(hi, lo) < Pow2(hi + 1)
  {
    ShlIsMul(Pow2(hi - lo + 1) - 1, lo);
    Pow2Add(hi - lo + 1, lo);
    MulStrict(Pow2(hi - lo + 1) - 1, Pow2(hi - lo + 1), Pow2(lo));
  }

  /** u64 addition, wrapping at 2^64. */
  function Add64(a: u64, b: u64): u64
  {
    Add64Fits(a, b);
    Low(a + b, 64)
  }

  lemma Add64Fits(a: u64, b: u64)
    ensures Low(a + b, 64) < U64_LIMIT
  {
    LowBound(a + b, 64);
    Pow2Words();
  }

  /** `if (c) a |= b;` on a 64-bit word. */
  function OrIf(c: bool, a: u64, b: u64): u64
  {
    if c then Or64(a, b) else a
  }

  /** Word-sized OR. */
  function Or64(a: u64, b: u64): u64
  {
    Or64Fits(a, b);
    Or(a, b)
  }

  lemma Or64Fits(a: u64, b: u64)
    ensures Or(a, b) < U64_LIMIT
  {
    Pow2Words();
    OrBound(a, b, 64);
  }

  function Or32(a: u32, b: u32): u32
  {
    Pow2Words();
    OrBound(a, b, 32);
    Or(a, b)
  }

  /** BIT(n) as a 32-bit word. */
  function Bit32(n: nat): u32
    requires n < 32
  {
    Pow2Words();
    Pow2StrictMonotone(n, 32);
    Bit(n)
  }

  /** FIELD_PREP into a field of a 32-bit word. */
  function Prep32(hi: nat, lo: nat, v: nat): u32
    requires lo <= hi < 32
  {
    FieldPrepBound(hi, lo, v);
    Pow2Monotone(hi + 1, 32);
    Pow2Words();
    FieldPrep(hi, lo, v)
  }

  /** `if (c) a |= b;` on a 32-bit word. */
  function OrIf32(c: bool, a: u32, b: u32): u32
  {
    if c then Or32(a, b) else a
  }

  /** Word-sized AND. */
  function And64(a: u64, b: nat): u64
  {
    AndBound(a, b);
    And(a, b)
  }

  /** a contains no bit of mask: (a & mask) == 0. */
  predicate Disjoint(a: nat, b: nat, w: nat)
  {
    forall k :: 0 <= k < w ==> !(TestBit(a, k) && TestBit(b, k))
  }

  // ---- bit characterisations ---------------------------------------------

  lemma DoubleBit(a: nat, k: nat)
    ensures TestBit(2 * a, k) == (k > 0 && TestBit(a, k - 1))
  {
    if k > 0 {
      assert (2 * a) / 2 == a;
    }
  }

  lemma {:induction false} ShlBit(a: nat, n: nat, k: nat)
    ensures TestBit(Shl(a, n), k) == (k >= n && TestBit(a, k - n))
    decreases n
  {
    if n > 0 {
      DoubleBit(Shl(a, n - 1), k);
      if k > 0 {
        ShlBit(a, n - 1, k - 1);
      }
    }
  }

  lemma BitBit(n: nat, k: nat)
    ensures TestBit(Bit(n), k) == (k == n)
  {
    Pow2Bit(n, k);
  }

  lemma GenMaskBit(hi: nat, lo: nat, k: nat)
    requires lo <= hi
    ensures TestBit(GenMask(hi, lo), k) == (lo <= k <= hi)
  {
    ShlBit(Pow2(hi - lo + 1) - 1, lo, k);
    if k >= lo {
      MaxBit(hi - lo + 1, k - lo);
    }
  }

  lemma FieldPrepBit(hi: nat, lo: nat, v: nat, k: nat)
    requires lo <= hi
    ensures TestBit(FieldPrep(hi, lo, v), k) == (lo <= k <= hi && TestBit(v, k - lo))
  {
    ShlBit(Low(v, hi - lo + 1), lo, k);
    if k >= lo {
      LowBit(v, hi - lo + 1, k - lo);
    }
  }

  lemma FieldGetBit(hi: nat, lo: nat, e: nat, k: nat)
    ensures lo <= hi ==> TestBit(FieldGet(hi, lo, e), k) == (k <= hi - lo && TestBit(e, k + lo))
  {
    if lo <= hi {
      LowBit(Shr(e, lo), hi - lo + 1, k);
      ShrBit(e, lo, k);
    }
  }

  lemma FieldPrepBound(hi: nat, lo: nat, v: nat)
    requires lo <= hi
    ensures FieldPrep(hi, lo, v) < Pow2(hi + 1)
  {
    LowBound(v, hi - lo + 1);
    ShlIsMul(Low(v, hi - lo + 1), lo);
    Pow2Add(hi - lo + 1, lo);
    MulStrict(Low(v, hi - lo + 1), Pow2(hi - lo + 1), Pow2(lo));
  }

  lemma FieldGetBound(hi: nat, lo: nat, e: nat)
    requires lo <= hi
    ensures FieldGet(hi, lo, e) < Pow2(hi - lo + 1)
  {
    LowBound(Shr(e, lo), hi - lo + 1);
  }

  /** A value that already fits the field is stored unchanged, shifted into place. */
  lemma FieldPrepOfSmall(hi: nat, lo: nat, v: nat)
    requires lo <= hi && v < Pow2(hi - lo + 1)
    ensures FieldPrep(hi, lo, v) == v * Pow2(lo)
  {
    LowOfSmall(v, hi - lo + 1);
    ShlIsMul(v, lo);
  }

  /** FIELD_GET inverts FIELD_PREP on values that fit the field. */
  lemma FieldGetPrep(hi: nat, lo: nat, v: nat, rest: nat)
    requires lo <= hi && v < Pow2(hi - lo + 1)
    requires forall k :: lo <= k <= hi ==> !TestBit(rest, k)
    ensures FieldGet(hi, lo, Or(FieldPrep(hi, lo, v), rest)) == v
  {
    var w := hi - lo + 1;
    var e := Or(FieldPrep(hi, lo, v), rest);
    forall k | 0 <= k < w ensures TestBit(FieldGet(hi, lo, e), k) == TestBit(v, k) {
      FieldGetBit(hi, lo, e, k);
      OrBit(FieldPrep(hi, lo, v), rest, k + lo);
      FieldPrepBit(hi, lo, v, k + lo);
    }
    FieldGetBound(hi, lo, e);
    BitsEqual(FieldGet(hi, lo, e), v, w);
  }

  /** OR of words with no common bit is their sum. */
  lemma {:induction false} DisjointOrIsAdd(a: nat, b: nat, w: nat)
    requires a < Pow2(w) && b < Pow2(w)
    requires Disjoint(a, b, w)
    ensures Or(a, b) == a + b
    decreases w
  {
    if a != 0 && b != 0 {
      assert w > 0 by {
        if w == 0 {
          assert false;
        }
      }
      assert !(TestBit(a, 0) && TestBit(b, 0));
      forall k | 0 <= k < w - 1 ensures !(TestBit(a / 2, k) && TestBit(b / 2, k)) {
        assert !(TestBit(a, k + 1) && TestBit(b, k + 1));
      }
      DisjointOrIsAdd(a / 2, b / 2, w - 1);
    }
  }

  /** Two words with the same 64 bits are equal. */
  lemma BitsEqual64(a: u64, b: u64)
    requires forall k :: 0 <= k < 64 ==> TestBit(a, k) == TestBit(b, k)
    ensures a == b
  {
    Pow2Words();
    BitsEqual(a, b, 64);
  }

  lemma BitsEqual32(a: u32, b: u32)
    requires forall k :: 0 <= k < 32 ==> TestBit(a, k) == TestBit(b, k)
    ensures a == b
  {
    Pow2Words();
    BitsEqual(a, b, 32);
  }

  /** A 32-bit word has no bit at 32 or above. */
  lemma HighBit32(a: u32, k: nat)
    requires k >= 32
    ensures !TestBit(a, k)
  {
    Pow2Words();
    HighBitClear(a, 32, k);
  }

  /** A word whose bits are those of a or of b, never both, is their sum. */
  lemma DisjointSum(a: u64, b: u64, e: u64)
    requires forall k :: 0 <= k < 64 ==> TestBit(e, k) == (TestBit(a, k) || TestBit(b, k))
    requires forall k :: 0 <= k < 64 ==> !(TestBit(a, k) && TestBit(b, k))
    ensures e == a + b
  {
    Pow2Words();
    OrBound(a, b, 64);
    forall k | 0 <= k < 64 ensures TestBit(e, k) == TestBit(Or(a, b), k) {
      OrBit(a, b, k);
    }
    BitsEqual(e, Or(a, b), 64);
    DisjointOrIsAdd(a, b, 64);
  }

  /** u64 addition that does not reach 2^64 does not wrap. */
  lemma Add64NoWrap(a: u64, b: u64)
    requires a + b < U64_LIMIT
    ensures Add64(a, b) == a + b
  {
    Pow2Words();
    LowOfSmall(a + b, 64);
  }

  /** The bits of a log2_mul result: a shifted up by b, cut to 64 bits. */
  lemma MulBit(a: u64, b: nat, k: nat)
    requires b < 64
    ensures TestBit(Mul(a, b), k) == (k < 64 && k >= b && TestBit(a, k - b))
  {
    LowBit(a * Pow2(b), 64, k);
    ShlIsMul(a, b);
    ShlBit(a, b, k);
  }

  /** A word whose value is a multiple of 2^n has its low n bits clear. */
  lemma AlignedLowBit(a: nat, n: nat, k: nat)
    requires a % Pow2(n) == 0 && k < n
    ensures !TestBit(a, k)
  {
    ShrLowDivMod(a, n);
    LowBit(a, n, k);
    ZeroBit(k);
  }

  /** A word is below 2^w exactly when it has no bit at w or above (inside a wider word). */
  lemma BelowFromBits(a: nat, w: nat, m: nat)
    requires a < Pow2(m)
    requires forall k :: w <= k < m ==> !TestBit(a, k)
    ensures a < Pow2(w)
  {
    BoundFromBits(a, w, m);
  }

  /** The bits of a field value below 16, one by one. */
  lemma NibbleBit(v: nat, j: nat)
    requires v < 16
    ensures TestBit(v, j) == ((j == 0 && v % 2 == 1) || (j == 1 && (v / 2) % 2 == 1) ||
                              (j == 2 && (v / 4) % 2 == 1) || (j == 3 && v / 8 == 1))
  {
    if j >= 4 {
      assert Pow2(4) == 16;
      HighBitClear(v, 4, j);
    } else if j == 3 {
      assert TestBit(v, 3) == TestBit(v / 2, 2) == TestBit(v / 2 / 2, 1) == TestBit(v / 2 / 2 / 2, 0);
    } else if j == 2 {
      assert TestBit(v, 2) == TestBit(v / 2, 1) == TestBit(v / 2 / 2, 0);
    }
  }

  lemma OrIfBit(c: bool, a: u64, b: u64, k: nat)
    ensures TestBit(OrIf(c, a, b), k) == (TestBit(a, k) || (c && TestBit(b, k)))
  {
    OrBit(a, b, k);
  }

  lemma OrIf32Bit(c: bool, a: u32, b: u32, k: nat)
    ensures TestBit(OrIf32(c, a, b), k) == (TestBit(a, k) || (c && TestBit(b, k)))
  {
    OrBit(a, b, k);
  }

  /** The bits of a small value stored in a field. */
  lemma PrepNibbleBit(hi: nat, lo: nat, v: nat, k: nat)
    requires lo <= hi < 64 && v < 16
    ensures TestBit(Prep64(hi, lo, v), k) ==
            (lo <= k <= hi && ((k == lo && v % 2 == 1) || (k == lo + 1 && (v / 2) % 2 == 1) ||
                               (k == lo + 2 && (v / 4) % 2 == 1) || (k == lo + 3 && v / 8 == 1)))
  {
    FieldPrepBit(hi, lo, v, k);
    if lo <= k {
      NibbleBit(v, k - lo);
    }
  }

  /** x has no bit set outside lo..hi - 1 (of its 64). */
  ghost predicate BitsWithin(x: u64, lo: nat, hi: nat)
  {
    forall k: nat :: k < 64 && !(lo <= k < hi) ==> !TestBit(x, k)
  }

  /** An x aligned to 2^lo and below 2^hi has its bits within lo..hi - 1. */
  lemma BitsWithinOfAligned(x: u64, lo: nat, hi: nat)
    requires x % Pow2(lo) == 0 && x < Pow2(hi)
    ensures BitsWithin(x, lo, hi)
  {
    LowBitsClear(x, lo);
    HighBitsClear(x, hi);
  }

  /** The converse: bits within lo..hi - 1 make x aligned to 2^lo and below 2^hi. */
  lemma AlignedOfBitsWithin(x: u64, lo: nat, hi: nat)
    requires BitsWithin(x, lo, hi) && lo <= hi <= 64
    ensures x % Pow2(lo) == 0 && x < Pow2(hi)
  {
    forall k | 0 <= k < lo ensures TestBit(Low(x, lo), k) == TestBit(0, k) {
      LowBit(x, lo, k);
      ZeroBit(k);
    }
    LowBound(x, lo);
    BitsEqual(Low(x, lo), 0, lo);
    LowIsMod(x, lo);
    Pow2Words();
    BelowFromBits(x, hi, 64);
  }

  lemma LowBitsClear(x: nat, n: nat)
    requires x % Pow2(n) == 0
    ensures forall k: nat :: k < n ==> !TestBit(x, k)
  {
    forall k: nat | k < n ensures !TestBit(x, k) {
      AlignedLowBit(x, n, k);
    }
  }

  lemma HighBitsClear(x: nat, n: nat)
    requires x < Pow2(n)
    ensures forall k :: n <= k ==> !TestBit(x, k)
  {
    forall k | n <= k ensures !TestBit(x, k) {
      HighBitClear(x, n, k);
    }
  }
}
