// The log2 helper algebra of the generic page table on 64-bit words.
//
// Every helper takes the base-2 logarithm of a power of two rather than the
// power itself.  An exponent equal to the word width (64) is admitted where
// the full-width "fvalog2" variants need it: ToMaxInt(64) is the all-ones
// word and Shr by 64 is 0.

module PtLog2 {
  import opened Bits

  const U64_LIMIT: nat := 0x1_0000_0000_0000_0000
  const U32_LIMIT: nat := 0x1_0000_0000

  type u64 = x: nat | x < 0x1_0000_0000_0000_0000
  type u32 = x: nat | x < 0x1_0000_0000

  const U64_MAX: u64 := 0xFFFF_FFFF_FFFF_FFFF
  const U32_MAX: u32 := 0xFFFF_FFFF

  lemma Pow2Words()
    ensures Pow2(64) == U64_LIMIT && Pow2(32) == U32_LIMIT
  {
    Pow2Is4G();
    Pow2Is16E();
  }

  lemma Pow2Fits(n: nat)
    requires n <= 64
    ensures Pow2(n) <= U64_LIMIT
    ensures n < 64 ==> Pow2(n) < U64_LIMIT
  {
    Pow2Words();
    Pow2Monotone(n, 64);
    if n < 64 {
      Pow2StrictMonotone(n, 64);
    }
  }

  /** A C unsigned int computation: the value modulo 2^32. */
  function U32(x: int): nat
  {
    x % U32_LIMIT
  }

  lemma U32Small(x: int)
    requires 0 <= x < U32_LIMIT
    ensures U32(x) == x
  {
  }

  /** log2_to_int: 2^a_lg2 */
  function ToInt(a_lg2: nat): u64
    requires a_lg2 < 64
  {
    Pow2Fits(a_lg2);
    Pow2(a_lg2)
  }

  /** log2_to_max_int: 2^a_lg2 - 1, all bits below a_lg2 set. */
  function ToMaxInt(a_lg2: nat): u64
    requires a_lg2 <= 64
  {
    Pow2Fits(a_lg2);
    Pow2(a_lg2) - 1
  }

  /** log2_div: a / 2^b_lg2, as a right shift. */
  function Div(a: u64, b_lg2: nat): u64
  {
    ShrLowDivMod(a, b_lg2);
    Shr(a, b_lg2)
  }

  /** log2_div_eq: the bits of a and b from c_lg2 upwards agree. */
  predicate DivEq(a: u64, b: u64, c_lg2: nat)
  {
    Shr(Xor(a, b), c_lg2) == 0
  }

  /** log2_mod: a & (2^b_lg2 - 1) */
  function Mod(a: u64, b_lg2: nat): u64
    requires b_lg2 <= 64
  {
    AndBound(a, ToMaxInt(b_lg2));
    And(a, ToMaxInt(b_lg2))
  }

  /** log2_mod_eq_max: the low b_lg2 bits of a are all ones. */
  predicate ModEqMax(a: u64, b_lg2: nat)
    requires b_lg2 <= 64
  {
    Mod(a, b_lg2) == ToMaxInt(b_lg2)
  }

  /** log2_set_mod: (a & ~(2^b_lg2 - 1)) | val; the caller keeps val < 2^b_lg2. */
  function SetMod(a: u64, val: u64, b_lg2: nat): u64
    requires b_lg2 <= 64
  {
    Pow2Words();
    var high := And(a, Not(ToMaxInt(b_lg2), 64));
    AndBound(a, Not(ToMaxInt(b_lg2), 64));
    OrBound(high, val, 64);
    Or(high, val)
  }

  /** log2_set_mod_max: a | (2^b_lg2 - 1) */
  function SetModMax(a: u64, b_lg2: nat): u64
    requires b_lg2 <= 64
  {
    Pow2Words();
    OrBound(a, ToMaxInt(b_lg2), 64);
    Or(a, ToMaxInt(b_lg2))
  }

  /** log2_mul: a << b_lg2, truncated to the word. */
  function Mul(a: u64, b_lg2: nat): u64
    requires b_lg2 < 64
  {
    LowBound(a * Pow2(b_lg2), 64);
    Pow2Words();
    Low(a * Pow2(b_lg2), 64)
  }

  /** log2_fls: 1 + the index of the most significant set bit, 0 for 0. */
  function Fls(a: nat): nat
  {
    if a == 0 then 0 else 1 + Fls(a / 2)
  }

  /** log2_ffs: the index of the least significant set bit. */
  function Ffs(a: nat): nat
    requires a != 0
  {
    if a % 2 == 1 then 0 else 1 + Ffs(a / 2)
  }

  /** log2_ffz: the index of the least significant clear bit. */
  function Ffz(a: nat): nat
  {
    if a % 2 == 0 then 0 else 1 + Ffz(a / 2)
  }

  /**
   * log2_ffz64 on a machine whose long is 32 bits wide: the low half first,
   * the high half when the low half is all ones.
   */
  function Ffz64Split(a: u64): nat
  {
    var lo := Low(a, 32);
    if lo == U32_MAX then Ffz(Shr(a, 32)) + 32 else Ffz(lo)
  }

  // ---- the algebra -----------------------------------------------------

  /** log2_mod is the remainder and log2_div the quotient of division by 2^b. */
  lemma ModDivAreRemainderQuotient(a: u64, b_lg2: nat)
    requires b_lg2 <= 64
    ensures Mod(a, b_lg2) == a % Pow2(b_lg2)
    ensures Div(a, b_lg2) == a / Pow2(b_lg2)
    ensures a == Div(a, b_lg2) * Pow2(b_lg2) + Mod(a, b_lg2)
  {
    AndMaxIsLow(a, b_lg2);
    ShrLowDivMod(a, b_lg2);
  }

  lemma ModIsRemainder(a: u64, b_lg2: nat)
    requires b_lg2 <= 64
    ensures Mod(a, b_lg2) == a % Pow2(b_lg2)
  {
    AndMaxIsLow(a, b_lg2);
    LowIsMod(a, b_lg2);
  }

  /** log2_mul multiplies by 2^b modulo the word size. */
  /** Bit k of a mod 2^m is bit k of a when k is below m, and clear otherwise. */
  lemma ModBit(a: u64, m: nat, k: nat)
    requires m <= 64
    ensures TestBit(Mod(a, m), k) <==> k < m && TestBit(a, k)
  {
    AndBit(a, ToMaxInt(m), k);
    MaxBit(m, k);
  }

  lemma MulIsProduct(a: u64, b_lg2: nat)
    requires b_lg2 < 64
    ensures Mul(a, b_lg2) == (a * Pow2(b_lg2)) % U64_LIMIT
  {
    ShrLowDivMod(a * Pow2(b_lg2), 64);
    Pow2Words();
  }

  /** log2_div_eq holds exactly when a / 2^c == b / 2^c. */
  lemma DivEqIff(a: u64, b: u64, c_lg2: nat)
    ensures DivEq(a, b, c_lg2) <==> Div(a, c_lg2) == Div(b, c_lg2)
  {
    Pow2Words();
    XorBound(a, b, 64);
    var x := Div(Xor(a, b), c_lg2);
    forall k | 0 <= k < 64 ensures TestBit(x, k) == (TestBit(Div(a, c_lg2), k) != TestBit(Div(b, c_lg2), k)) {
      ShrBit(Xor(a, b), c_lg2, k);
      XorBit(a, b, k + c_lg2);
      ShrBit(a, c_lg2, k);
      ShrBit(b, c_lg2, k);
    }
    if x == 0 {
      forall k | 0 <= k < 64 ensures TestBit(Div(a, c_lg2), k) == TestBit(Div(b, c_lg2), k) {
        ZeroBit(k);
      }
      BitsEqual(Div(a, c_lg2), Div(b, c_lg2), 64);
    }
    if Div(a, c_lg2) == Div(b, c_lg2) {
      forall k | 0 <= k < 64 ensures TestBit(x, k) == TestBit(0, k) {
        ZeroBit(k);
      }
      BitsEqual(x, 0, 64);
    }
  }

  /** Bit by bit, log2_set_mod takes the low bits from val and the rest from a. */
  lemma SetModBits(a: u64, val: u64, b_lg2: nat, k: nat)
    requires b_lg2 <= 64
    requires val <= ToMaxInt(b_lg2)
    ensures TestBit(SetMod(a, val, b_lg2), k) == if k < b_lg2 then TestBit(val, k) else TestBit(a, k)
  {
    Pow2Words();
    var m := ToMaxInt(b_lg2);
    var high := And(a, Not(m, 64));
    OrBit(high, val, k);
    AndBit(a, Not(m, 64), k);
    NotBit(m, 64, k);
    MaxBit(b_lg2, k);
    if k >= b_lg2 {
      HighBitClear(val, b_lg2, k);
    }
    if k >= 64 {
      HighBitClear(a, 64, k);
    }
  }

  /** Two words whose bits agree from position b upwards have the same quotient. */
  lemma SameHighBits(x: u64, y: u64, b: nat)
    requires forall k :: b <= k < 64 ==> TestBit(x, k) == TestBit(y, k)
    ensures Div(x, b) == Div(y, b)
  {
    Pow2Words();
    forall k | 0 <= k < 64 ensures TestBit(Div(x, b), k) == TestBit(Div(y, b), k) {
      ShrBit(x, b, k);
      ShrBit(y, b, k);
      if k + b >= 64 {
        HighBitClear(x, 64, k + b);
        HighBitClear(y, 64, k + b);
      }
    }
    BitsEqual(Div(x, b), Div(y, b), 64);
  }

  /** Two words whose bits agree below position b have the same remainder. */
  lemma SameLowBits(x: u64, y: u64, b: nat)
    requires b <= 64
    requires forall k :: 0 <= k < b ==> TestBit(x, k) == TestBit(y, k)
    ensures Mod(x, b) == Mod(y, b)
  {
    Pow2Words();
    var m := ToMaxInt(b);
    AndBound(x, m);
    AndBound(y, m);
    forall k | 0 <= k < 64 ensures TestBit(And(x, m), k) == TestBit(And(y, m), k) {
      AndBit(x, m, k);
      AndBit(y, m, k);
      MaxBit(b, k);
    }
    BitsEqual(And(x, m), And(y, m), 64);
  }

  /** log2_mod of a value already below 2^b is the value itself. */
  lemma ModOfSmall(x: u64, b: nat)
    requires b <= 64
    requires x <= ToMaxInt(b)
    ensures Mod(x, b) == x
  {
    AndMaxIsLow(x, b);
    LowOfSmall(x, b);
  }

  /** log2_set_mod keeps a's quotient and makes the remainder val. */
  lemma SetModSpec(a: u64, val: u64, b_lg2: nat)
    requires b_lg2 <= 64
    requires val <= ToMaxInt(b_lg2)
    ensures Div(SetMod(a, val, b_lg2), b_lg2) == Div(a, b_lg2)
    ensures DivEq(SetMod(a, val, b_lg2), a, b_lg2)
    ensures Mod(SetMod(a, val, b_lg2), b_lg2) == val
  {
    var r := SetMod(a, val, b_lg2);
    forall k | b_lg2 <= k < 64 ensures TestBit(r, k) == TestBit(a, k) {
      SetModBits(a, val, b_lg2, k);
    }
    SameHighBits(r, a, b_lg2);
    DivEqIff(r, a, b_lg2);
    forall k | 0 <= k < b_lg2 ensures TestBit(r, k) == TestBit(val, k) {
      SetModBits(a, val, b_lg2, k);
    }
    SameLowBits(r, val, b_lg2);
    ModOfSmall(val, b_lg2);
  }

  /** log2_set_mod_max keeps a's quotient and sets every low bit. */
  lemma SetModMaxSpec(a: u64, b_lg2: nat)
    requires b_lg2 <= 64
    ensures Div(SetModMax(a, b_lg2), b_lg2) == Div(a, b_lg2)
    ensures ModEqMax(SetModMax(a, b_lg2), b_lg2)
  {
    var m := ToMaxInt(b_lg2);
    var r := SetModMax(a, b_lg2);
    forall k | b_lg2 <= k < 64 ensures TestBit(r, k) == TestBit(a, k) {
      OrBit(a, m, k);
      MaxBit(b_lg2, k);
    }
    SameHighBits(r, a, b_lg2);
    forall k | 0 <= k < b_lg2 ensures TestBit(r, k) == TestBit(m, k) {
      OrBit(a, m, k);
      MaxBit(b_lg2, k);
    }
    SameLowBits(r, m, b_lg2);
    ModOfSmall(m, b_lg2);
  }

  /** The compile-time instances of log2_to_int, log2_div, log2_div_eq, log2_mod and log2_mod_eq_max. */
  lemma DivModInstances()
    ensures ToInt(0) == 1
    ensures Div(4, 2) == 1
    ensures DivEq(1, 1, 2)
    ensures Mod(1, 2) == 1
    ensures ModEqMax(3, 2)
  {
    ModDivAreRemainderQuotient(4, 2);
    DivEqIff(1, 1, 2);
    ModOfSmall(1, 2);
    ModOfSmall(3, 2);
  }

  /** The compile-time instances of log2_set_mod and log2_set_mod_max. */
  lemma SetModInstances()
    ensures SetMod(3, 1, 2) == 1
    ensures SetModMax(2, 2) == 3
  {
    SetModSpec(3, 1, 2);
    ModDivAreRemainderQuotient(3, 2);
    ModDivAreRemainderQuotient(SetMod(3, 1, 2), 2);
    SetModMaxSpec(2, 2);
    ModDivAreRemainderQuotient(2, 2);
    ModDivAreRemainderQuotient(SetModMax(2, 2), 2);
  }

  /** The compile-time instance of log2_mul. */
  lemma MulInstance()
    ensures Mul(2, 2) == 8
  {
    assert Pow2(2) == 4;
    Pow2Words();
    LowOfSmall(8, 64);
  }

  // ---- bit scans -------------------------------------------------------

  /**
   * fls(0) == 0, fls(1) == 1, and a nonzero a has its top bit at fls(a) - 1:
   * 2^(fls(a)-1) <= a < 2^fls(a).
   */
  lemma {:induction false} FlsSpec(a: nat)
    ensures (Fls(a) == 0) == (a == 0)
    ensures a < Pow2(Fls(a))
    ensures a != 0 ==> Pow2(Fls(a) - 1) <= a && TestBit(a, Fls(a) - 1)
  {
    if a != 0 {
      FlsSpec(a / 2);
      var f := Fls(a / 2);
      assert Fls(a) == f + 1;
      assert a == 2 * (a / 2) + a % 2;
      if a / 2 != 0 {
        assert Pow2(f) == 2 * Pow2(f - 1);
        assert TestBit(a, f) == TestBit(a / 2, f - 1);
      }
    }
  }

  /** fls(a) <= 64 on a word; fls is the unique r with 2^(r-1) <= a < 2^r. */
  lemma FlsUnique(a: nat, r: nat)
    requires 1 <= r && Pow2(r - 1) <= a < Pow2(r)
    ensures Fls(a) == r
  {
    FlsSpec(a);
    if Fls(a) < r {
      Pow2Monotone(Fls(a), r - 1);
    } else if Fls(a) > r {
      Pow2Monotone(r, Fls(a) - 1);
    }
  }

  lemma FlsWord(a: u64)
    ensures Fls(a) <= 64
  {
    FlsSpec(a);
    Pow2Words();
    if Fls(a) > 64 {
      Pow2Monotone(64, Fls(a) - 1);
    }
  }

  /** ffs: bit ffs(a) of a is set and every bit below it is clear. */
  lemma {:induction false} FfsSpec(a: nat)
    requires a != 0
    ensures TestBit(a, Ffs(a))
    ensures Low(a, Ffs(a)) == 0
    ensures Shr(a, Ffs(a)) % 2 == 1
  {
    if a % 2 == 0 {
      FfsSpec(a / 2);
    }
  }

  /** ffz: bit ffz(a) of a is clear and every bit below it is set. */
  lemma {:induction false} FfzSpec(a: nat)
    ensures !TestBit(a, Ffz(a))
    ensures Low(a, Ffz(a)) == Pow2(Ffz(a)) - 1
    ensures Shr(a, Ffz(a)) % 2 == 0
  {
    if a % 2 == 1 {
      FfzSpec(a / 2);
    }
  }

  /** The documented instances ffz(0) == 0, ffz(1) == 1, ffs(1) == 0, fls(1) == 1. */
  lemma ScanInstances()
    ensures Fls(0) == 0 && Fls(1) == 1
    ensures Ffs(1) == 0
    ensures Ffz(0) == 0 && Ffz(1) == 1
  {
  }

  /** ffz of a word below the all-ones word lies inside the word. */
  lemma FfzWord(a: u64)
    requires a != U64_MAX
    ensures Ffz(a) < 64
  {
    FfzSpec(a);
    Pow2Words();
    if Ffz(a) >= 64 {
      var f := Ffz(a);
      Pow2Monotone(64, f);
      LowOfSmall(a, f);
    }
  }

  /** ffz(a) is n when bits 0..n-1 of a are set and bit n is clear. */
  lemma {:induction false} FfzAt(a: nat, n: nat)
    requires forall j :: 0 <= j < n ==> TestBit(a, j)
    requires !TestBit(a, n)
    ensures Ffz(a) == n
    decreases n
  {
    if n > 0 {
      assert TestBit(a, 0);
      forall j | 0 <= j < n - 1 ensures TestBit(a / 2, j) {
        assert TestBit(a, j + 1);
      }
      FfzAt(a / 2, n - 1);
    }
  }

  /** A clear bit n bounds ffz(a) by n. */
  lemma {:induction false} FfzAtMost(a: nat, n: nat)
    requires !TestBit(a, n)
    ensures Ffz(a) <= n
    decreases n
  {
    if n > 0 && a % 2 == 1 {
      FfzAtMost(a / 2, n - 1);
    }
  }

  /** ffs finds n when the bits below n are clear and bit n is set. */
  lemma {:induction false} FfsAt(a: nat, n: nat)
    requires forall j :: 0 <= j < n ==> !TestBit(a, j)
    requires TestBit(a, n)
    ensures a != 0 && Ffs(a) == n
    decreases n
  {
    if a == 0 {
      ZeroBit(n);
    }
    if n > 0 {
      assert !TestBit(a, 0);
      forall j | 0 <= j < n - 1 ensures !TestBit(a / 2, j) {
        assert !TestBit(a, j + 1);
      }
      FfsAt(a / 2, n - 1);
    }
  }

  /** ffs is at most the position of any set bit. */
  lemma {:induction false} FfsAtMost(a: nat, n: nat)
    requires TestBit(a, n)
    ensures a != 0 && Ffs(a) <= n
    decreases n
  {
    if a == 0 {
      ZeroBit(n);
    }
    if n > 0 && a % 2 == 0 {
      FfsAtMost(a / 2, n - 1);
    }
  }

  /** ffs of a nonzero word lies inside the word. */
  lemma FfsWord(a: u64)
    requires a != 0
    ensures Ffs(a) < 64
  {
    FfsSpec(a);
    Pow2Words();
    if Ffs(a) >= 64 {
      HighBitClear(a, 64, Ffs(a));
    }
  }

  lemma {:induction false} FfzOfLow(a: nat, n: nat)
    requires Low(a, n) != Pow2(n) - 1
    ensures Ffz(a) == Ffz(Low(a, n))
    decreases n
  {
    if a % 2 == 1 {
      assert n > 0;
      assert Low(a, n) / 2 == Low(a / 2, n - 1);
      FfzOfLow(a / 2, n - 1);
    }
  }

  lemma {:induction false} FfzPastOnes(a: nat, n: nat)
    requires Low(a, n) == Pow2(n) - 1
    ensures Ffz(a) == n + Ffz(Shr(a, n))
    decreases n
  {
    if n > 0 {
      assert a % 2 == 1;
      FfzPastOnes(a / 2, n - 1);
    }
  }

  /** The split 32-bit path of log2_ffz64 agrees with the direct one. */
  lemma Ffz64SplitAgrees(a: u64)
    ensures Ffz64Split(a) == Ffz(a)
  {
    Pow2Words();
    if Low(a, 32) == U32_MAX {
      FfzPastOnes(a, 32);
    } else {
      FfzOfLow(a, 32);
    }
  }

  /** The address of item k of a run from a: each item 2^m above the previous. */
  function ItemAddr(a: nat, m: nat, k: nat): nat
  {
    if k == 0 then a else ItemAddr(a, m, k - 1) + Pow2(m)
  }

  lemma {:induction false} ItemAddrIsProduct(a: nat, m: nat, k: nat)
    ensures ItemAddr(a, m, k) == a + k * Pow2(m)
  {
    if k > 0 {
      ItemAddrIsProduct(a, m, k - 1);
      MulDistrib(k - 1, 1, Pow2(m));
    }
  }

  /**
   * In a run of 2^c items of 2^m starting at a multiple of 2^(m+c) below 2^n
   * every item is aligned to 2^g (g <= m) and ends at or below 2^n.
   */
  lemma ItemAddrInRun(a: u64, m: nat, c: nat, n: nat, g: nat, k: nat)
    requires g <= m && m + c <= n <= 64 && a < Pow2(n) && Mod(a, m + c) == 0 && k < Pow2(c)
    ensures ItemAddr(a, m, k) % Pow2(g) == 0
    ensures ItemAddr(a, m, k) + Pow2(m) <= Pow2(n)
  {
    ModIsRemainder(a, m + c);
    ItemAddrInAlignedRun(a, m, c, n, g, k);
  }

  lemma ItemAddrInAlignedRun(a: nat, m: nat, c: nat, n: nat, g: nat, k: nat)
    requires g <= m && m + c <= n && a < Pow2(n) && a % Pow2(m + c) == 0 && k < Pow2(c)
    ensures ItemAddr(a, m, k) % Pow2(g) == 0
    ensures ItemAddr(a, m, k) + Pow2(m) <= Pow2(n)
  {
    ItemAddrIsProduct(a, m, k);
    AlignedRunItem(a, m, c, n, g, k);
  }
}
