// Unsigned machine-word bit operations on natural numbers.
//
// The kernel's page-table helpers shift, mask and combine words by amounts
// that are only known at run time (the log2 of a page or table size).
// Natural numbers with recursively defined bit operations keep those
// symbolic amounts cheap to reason about; every operation below gives the
// same value as the C operator on an unsigned word that holds the operands.

module Bits {
  /** 2^n */
  function Pow2(n: nat): (r: nat)
    ensures r >= 1
  {
    if n == 0 then 1 else 2 * Pow2(n - 1)
  }

  /** Bit k of a is set. */
  predicate TestBit(a: nat, k: nat)
  {
    if k == 0 then a % 2 == 1 else TestBit(a / 2, k - 1)
  }

  /** a >> n */
  function Shr(a: nat, n: nat): nat
  {
    if n == 0 then a else Shr(a / 2, n - 1)
  }

  /** a << n, with no bit dropped. */
  function Shl(a: nat, n: nat): nat
  {
    if n == 0 then a else 2 * Shl(a, n - 1)
  }

  /** a & (2^n - 1), the low n bits of a. */
  function Low(a: nat, n: nat): nat
  {
    if n == 0 then 0 else 2 * Low(a / 2, n - 1) + a % 2
  }

  /** a | b */
  function Or(a: nat, b: nat): nat
    decreases a + b
  {
    if a == 0 then b
    else if b == 0 then a
    else 2 * Or(a / 2, b / 2) + (if a % 2 == 1 || b % 2 == 1 then 1 else 0)
  }

  /** a & b */
  function And(a: nat, b: nat): nat
    decreases a + b
  {
    if a == 0 || b == 0 then 0
    else 2 * And(a / 2, b / 2) + (if a % 2 == 1 && b % 2 == 1 then 1 else 0)
  }

  /** a ^ b */
  function Xor(a: nat, b: nat): nat
    decreases a + b
  {
    if a == 0 then b
    else if b == 0 then a
    else 2 * Xor(a / 2, b / 2) + (if a % 2 != b % 2 then 1 else 0)
  }

  /** ~a on a w-bit word. */
  function Not(a: nat, w: nat): nat
    requires a < Pow2(w)
  {
    Pow2(w) - 1 - a
  }

  // ---- powers of two ---------------------------------------------------

  lemma {:induction false} Pow2Add(m: nat, n: nat)
    ensures Pow2(m + n) == Pow2(m) * Pow2(n)
    decreases m
  {
    if m > 0 {
      Pow2Add(m - 1, n);
      assert Pow2(m + n) == 2 * Pow2(m - 1 + n);
    }
  }

  lemma {:induction false} Pow2Monotone(m: nat, n: nat)
    requires m <= n
    ensures Pow2(m) <= Pow2(n)
    decreases n
  {
    if m < n {
      Pow2Monotone(m, n - 1);
    }
  }

  lemma {:induction false} Pow2StrictMonotone(m: nat, n: nat)
    requires m < n
    ensures Pow2(m) < Pow2(n)
  {
    Pow2Monotone(m, n - 1);
  }

  lemma Pow2Is256()
    ensures Pow2(8) == 0x100
  {
    assert Pow2(4) == 16;
    Pow2Add(4, 4);
  }

  lemma Pow2Is64K()
    ensures Pow2(16) == 0x1_0000
  {
    Pow2Is256();
    Pow2Add(8, 8);
  }

  lemma Pow2Is4G()
    ensures Pow2(32) == 0x1_0000_0000
  {
    Pow2Is64K();
    Pow2Add(16, 16);
  }

  lemma Pow2Is16E()
    ensures Pow2(64) == 0x1_0000_0000_0000_0000
  {
    Pow2Is4G();
    Pow2Add(32, 32);
  }

  // ---- single bits -----------------------------------------------------

  lemma {:induction false} ZeroBit(k: nat)
    ensures !TestBit(0, k)
  {
    if k > 0 {
      ZeroBit(k - 1);
    }
  }

  lemma {:induction false} Pow2Bit(n: nat, k: nat)
    ensures TestBit(Pow2(n), k) == (k == n)
    decreases k
  {
    if k == 0 {
    } else if n == 0 {
      ZeroBit(k - 1);
    } else {
      Pow2Bit(n - 1, k - 1);
    }
  }

  lemma {:induction false} MaxBit(n: nat, k: nat)
    ensures TestBit(Pow2(n) - 1, k) == (k < n)
    decreases k
  {
    if k == 0 {
    } else if n == 0 {
      ZeroBit(k - 1);
    } else {
      assert (Pow2(n) - 1) / 2 == Pow2(n - 1) - 1;
      MaxBit(n - 1, k - 1);
    }
  }

  lemma {:induction false} HighBitClear(a: nat, w: nat, k: nat)
    requires a < Pow2(w)
    requires w <= k
    ensures !TestBit(a, k)
    decreases k
  {
    if k == 0 {
    } else if w == 0 {
      ZeroBit(k - 1);
    } else {
      HighBitClear(a / 2, w - 1, k - 1);
    }
  }

  /** Two words of width w with the same bits are equal. */
  lemma {:induction false} BitsEqual(a: nat, b: nat, w: nat)
    requires a < Pow2(w) && b < Pow2(w)
    requires forall k :: 0 <= k < w ==> TestBit(a, k) == TestBit(b, k)
    ensures a == b
    decreases w
  {
    if w > 0 {
      forall k | 0 <= k < w - 1
        ensures TestBit(a / 2, k) == TestBit(b / 2, k)
      {
        assert TestBit(a, k + 1) == TestBit(b, k + 1);
      }
      BitsEqual(a / 2, b / 2, w - 1);
      assert TestBit(a, 0) == TestBit(b, 0);
    }
  }

  /** A word of width m whose bits from w upwards are clear fits in w bits. */
  lemma {:induction false} BoundFromBits(a: nat, w: nat, m: nat)
    requires a < Pow2(m)
    requires forall k :: w <= k < m ==> !TestBit(a, k)
    ensures a < Pow2(w)
    decreases m
  {
    if m <= w {
      Pow2Monotone(m, w);
    } else if w == 0 {
      forall k | 0 <= k < m ensures TestBit(a, k) == TestBit(0, k) {
        ZeroBit(k);
      }
      BitsEqual(a, 0, m);
    } else {
      forall k | w - 1 <= k < m - 1 ensures !TestBit(a / 2, k) {
        assert !TestBit(a, k + 1);
      }
      BoundFromBits(a / 2, w - 1, m - 1);
    }
  }

  // ---- shifts and low bits ---------------------------------------------

  lemma {:induction false} ShrBit(a: nat, n: nat, k: nat)
    ensures TestBit(Shr(a, n), k) == TestBit(a, k + n)
    decreases n
  {
    if n > 0 {
      ShrBit(a / 2, n - 1, k);
    }
  }

  lemma {:induction false} LowBit(a: nat, n: nat, k: nat)
    ensures TestBit(Low(a, n), k) == (k < n && TestBit(a, k))
    decreases n
  {
    if n == 0 {
      ZeroBit(k);
    } else if k > 0 {
      LowBit(a / 2, n - 1, k - 1);
    }
  }

  /** Shr and Low are the quotient and remainder of division by 2^n. */
  lemma {:induction false} ShrLowDivMod(a: nat, n: nat)
    ensures a == Shr(a, n) * Pow2(n) + Low(a, n)
    ensures Low(a, n) < Pow2(n)
    ensures Shr(a, n) == a / Pow2(n) && Low(a, n) == a % Pow2(n)
    decreases n
  {
    if n > 0 {
      ShrLowDivMod(a / 2, n - 1);
      HalfStep(a, Shr(a / 2, n - 1), Low(a / 2, n - 1), Pow2(n - 1));
    }
  }

  /** Shifting left by n multiplies by 2^n. */
  lemma {:induction false} ShlIsMul(a: nat, n: nat)
    ensures Shl(a, n) == a * Pow2(n)
    decreases n
  {
    if n > 0 {
      ShlIsMul(a, n - 1);
      assert a * Pow2(n) == 2 * (a * Pow2(n - 1));
    }
  }

  lemma MulStrict(m: nat, p: nat, q: nat)
    requires m < p && q >= 1
    ensures m * q < p * q
  {
  }

  lemma MulMonotone(m: nat, p: nat, q: nat)
    requires m <= p
    ensures m * q <= p * q
  {
  }

  /** A multiple of 2^n leaves no remainder. */
  lemma ModOfMultiple(q: nat, n: nat)
    ensures (q * Pow2(n)) % Pow2(n) == 0
  {
    DivModUnique(q * Pow2(n), Pow2(n), q, 0);
  }

  lemma DivMul(a: nat, d: nat)
    requires d > 0
    ensures a == (a / d) * d + a % d
  {
  }

  lemma MulAssoc(x: nat, y: nat, z: nat)
    ensures x * (y * z) == (x * y) * z
  {
  }

  // Alignment facts on plain numbers, with the powers of two as parameters.

  lemma MultipleOfMultiple(q: nat, p: nat)
    requires p > 0
    ensures (q * p) % p == 0
  {
    DivModUnique(q * p, p, q, 0);
  }

  lemma MultipleDown(a: nat, p: nat, r: nat)
    requires p > 0 && r > 0 && a % (r * p) == 0
    ensures a % p == 0
  {
    var q := a / (r * p);
    DivMul(a, r * p);
    MulAssoc(q, r, p);
    MultipleOfMultiple(q * r, p);
  }

  lemma MultipleRoom(a: nat, p: nat, r: nat)
    requires p > 0 && a % p == 0 && a < r * p
    ensures a + p <= r * p
  {
    var q := a / p;
    DivMul(a, p);
    MulCancelLt(q, r, p);
    MulMonotone(q + 1, r, p);
    MulDistrib(q, 1, p);
  }

  lemma MultipleSum(a: nat, p: nat, x: nat)
    requires p > 0 && a % p == 0
    ensures (a + x * p) % p == 0
  {
    var q := a / p;
    DivMul(a, p);
    MulDistrib(q, x, p);
    MultipleOfMultiple(q + x, p);
  }

  /** A multiple of 2^m is a multiple of every smaller power of two. */
  lemma AlignedDown(a: nat, m: nat, n: nat)
    requires n <= m && a % Pow2(m) == 0
    ensures a % Pow2(n) == 0
  {
    Pow2Add(m - n, n);
    MultipleDown(a, Pow2(n), Pow2(m - n));
  }

  /** A multiple of 2^m below 2^n leaves room for one more 2^m below 2^n. */
  lemma AlignedRoom(a: nat, m: nat, n: nat)
    requires m <= n && a < Pow2(n) && a % Pow2(m) == 0
    ensures a + Pow2(m) <= Pow2(n)
  {
    Pow2Add(n - m, m);
    MultipleRoom(a, Pow2(m), Pow2(n - m));
  }

  /** The first k+1 steps of 2^m from a multiple of 2^(m+c) below 2^n stay below 2^n. */
  lemma AlignedRun(a: nat, m: nat, c: nat, n: nat, k: nat)
    requires m + c <= n && a < Pow2(n) && a % Pow2(m + c) == 0 && k < Pow2(c)
    ensures a + (k + 1) * Pow2(m) <= Pow2(n)
  {
    AlignedRoom(a, m + c, n);
    Pow2Add(c, m);
    MulMonotone(k + 1, Pow2(c), Pow2(m));
  }

  /**
   * Item k of a run of 2^c items of size 2^m starting at a multiple of
   * 2^(m+c) below 2^n is aligned to every 2^g with g <= m and ends at or
   * below 2^n.
   */
  lemma AlignedRunItem(a: nat, m: nat, c: nat, n: nat, g: nat, k: nat)
    requires g <= m && m + c <= n && a < Pow2(n) && a % Pow2(m + c) == 0 && k < Pow2(c)
    ensures (a + k * Pow2(m)) % Pow2(g) == 0
    ensures a + k * Pow2(m) + Pow2(m) <= Pow2(n)
  {
    AlignedRun(a, m, c, n, k);
    MulDistrib(k, 1, Pow2(m));
    AlignedDown(a, m + c, g);
    AlignedSum(a, m, g, k);
  }

  /** Adding multiples of 2^m keeps alignment to 2^g for g <= m. */
  lemma AlignedSum(a: nat, m: nat, g: nat, k: nat)
    requires g <= m && a % Pow2(g) == 0
    ensures (a + k * Pow2(m)) % Pow2(g) == 0
  {
    Pow2Add(m - g, g);
    MulAssoc(k, Pow2(m - g), Pow2(g));
    MultipleSum(a, Pow2(g), k * Pow2(m - g));
  }

  lemma MulDistrib(x: nat, y: nat, z: nat)
    ensures (x + y) * z == x * z + y * z
  {
  }

  lemma MulCancelLt(x: int, y: int, d: int)
    requires d > 0 && x * d < y * d
    ensures x < y
  {
  }

  /** Quotient and remainder are unique. */
  /** One bit more: a / 2 == q * p + r gives a == q * (2p) + (2r + a % 2). */
  lemma HalfStep(a: nat, q: nat, r: nat, p: nat)
    requires a / 2 == q * p + r && r < p
    ensures a == q * (2 * p) + (2 * r + a % 2) && 2 * r + a % 2 < 2 * p
    ensures q == a / (2 * p) && 2 * r + a % 2 == a % (2 * p)
  {
    assert q * (2 * p) == 2 * (q * p);
    DivModUnique(a, 2 * p, q, 2 * r + a % 2);
  }

  lemma DivModUnique(a: nat, d: nat, q: nat, r: nat)
    requires d > 0 && r < d && a == q * d + r
    ensures q == a / d && r == a % d
  {
    var q0 := a / d;
    assert (q + 1) * d == q * d + d;
    assert (q0 + 1) * d == q0 * d + d;
    MulCancelLt(q, q0 + 1, d);
    MulCancelLt(q0, q + 1, d);
  }

  lemma {:induction false} LowOfSmall(a: nat, n: nat)
    requires a < Pow2(n)
    ensures Low(a, n) == a && Shr(a, n) == 0
  {
    ShrLowDivMod(a, n);
    DivModUnique(a, Pow2(n), 0, a);
  }

  lemma {:induction false} ShrZero(a: nat, n: nat)
    requires Shr(a, n) == 0
    ensures a < Pow2(n)
  {
    ShrLowDivMod(a, n);
  }

  lemma {:induction false} LowBound(a: nat, n: nat)
    ensures Low(a, n) < Pow2(n)
    ensures Low(a, n) <= a
  {
    ShrLowDivMod(a, n);
  }

  // ---- bitwise operators -----------------------------------------------

  lemma {:induction false} OrBit(a: nat, b: nat, k: nat)
    ensures TestBit(Or(a, b), k) == (TestBit(a, k) || TestBit(b, k))
    decreases a + b
  {
    if a == 0 {
      ZeroBit(k);
    } else if b == 0 {
      ZeroBit(k);
    } else if k > 0 {
      OrBit(a / 2, b / 2, k - 1);
    }
  }

  lemma {:induction false} AndBit(a: nat, b: nat, k: nat)
    ensures TestBit(And(a, b), k) == (TestBit(a, k) && TestBit(b, k))
    decreases a + b
  {
    if a == 0 || b == 0 {
      ZeroBit(k);
    } else if k > 0 {
      AndBit(a / 2, b / 2, k - 1);
    }
  }

  lemma {:induction false} XorBit(a: nat, b: nat, k: nat)
    ensures TestBit(Xor(a, b), k) == (TestBit(a, k) != TestBit(b, k))
    decreases a + b
  {
    if a == 0 {
      ZeroBit(k);
    } else if b == 0 {
      ZeroBit(k);
    } else if k > 0 {
      XorBit(a / 2, b / 2, k - 1);
    }
  }

  lemma {:induction false} NotBit(a: nat, w: nat, k: nat)
    requires a < Pow2(w)
    ensures TestBit(Not(a, w), k) == (k < w && !TestBit(a, k))
    decreases w
  {
    if w == 0 {
      ZeroBit(k);
    } else if k == 0 {
    } else {
      assert Not(a, w) / 2 == Not(a / 2, w - 1);
      NotBit(a / 2, w - 1, k - 1);
    }
  }

  lemma {:induction false} OrBound(a: nat, b: nat, w: nat)
    requires a < Pow2(w) && b < Pow2(w)
    ensures Or(a, b) < Pow2(w)
    decreases w
  {
    if w > 0 && a != 0 && b != 0 {
      OrBound(a / 2, b / 2, w - 1);
    }
  }

  lemma {:induction false} XorBound(a: nat, b: nat, w: nat)
    requires a < Pow2(w) && b < Pow2(w)
    ensures Xor(a, b) < Pow2(w)
    decreases w
  {
    if w > 0 && a != 0 && b != 0 {
      XorBound(a / 2, b / 2, w - 1);
    }
  }

  lemma {:induction false} AndBound(a: nat, b: nat)
    ensures And(a, b) <= a && And(a, b) <= b
    decreases a + b
  {
    if a != 0 && b != 0 {
      AndBound(a / 2, b / 2);
    }
  }

  /** Masking with 2^n - 1 keeps the low n bits. */
  lemma LowIsMod(a: nat, n: nat)
    ensures Low(a, n) == a % Pow2(n)
  {
    ShrLowDivMod(a, n);
  }

  lemma AndMaxIsLow(a: nat, n: nat)
    ensures And(a, Pow2(n) - 1) == Low(a, n)
  {
    var w := a + Pow2(n);
    FitsIn(w);
    AndBound(a, Pow2(n) - 1);
    LowBound(a, n);
    forall k | 0 <= k < w ensures TestBit(And(a, Pow2(n) - 1), k) == TestBit(Low(a, n), k) {
      AndBit(a, Pow2(n) - 1, k);
      MaxBit(n, k);
      LowBit(a, n, k);
    }
    BitsEqual(And(a, Pow2(n) - 1), Low(a, n), w);
  }

  /** Every number fits in a width of itself. */
  lemma {:induction false} FitsIn(a: nat)
    ensures a < Pow2(a)
  {
    if a > 0 {
      FitsIn(a - 1);
    }
  }
}
