// The reference page-size splitter and the map/unmap driving loops that the
// comparison benchmark uses to drive an io-pgtable the way the IOMMU core
// does: pick the largest page size the bitmap offers that fits the length
// and the alignment of both addresses, map a run of such pages, advance.

module KunitIommuCmp {
  import opened Bits
  import opened PtLog2
  import opened Errno
  import opened Bitfield
  import PtIter

  // ---- iommu_pgsize_eq -------------------------------------------------

  /** Word-sized XOR. */
  function Xor64(a: u64, b: u64): u64
  {
    Xor64Fits(a, b);
    Xor(a, b)
  }

  lemma Xor64Fits(a: u64, b: u64)
    ensures Xor(a, b) < U64_LIMIT
  {
    Pow2Words();
    XorBound(a, b, 64);
  }

  /** addr_merge: pa | va. */
  function Merge(va: u64, pa: u64): u64
  {
    Or64(pa, va)
  }

  /**
   * The page sizes of the bitmap up to the top bit of size, further cut
   * to the lowest set bit of va | pa when that is nonzero.
   */
  function Candidates(bitmap: u64, va: u64, pa: u64, size: u64): u64
  {
    FlsWord(size);
    var small := Mod(bitmap, Fls(size));
    var merge := Merge(va, pa);
    if merge != 0 then
      FfsWord(merge);
      Mod(small, Ffs(merge) + 1)
    else
      small
  }

  /** pgsize_idx: the top remaining candidate (the source BUG()s when there is none). */
  function PgsizeIdx(bitmap: u64, va: u64, pa: u64, size: u64): (idx: nat)
    requires Candidates(bitmap, va, pa, size) != 0
    ensures idx < 64
  {
    var c := Candidates(bitmap, va, pa, size);
    FlsSpec(c);
    FlsWord(c);
    Fls(c) - 1
  }

  /** The page size iommu_pgsize_eq returns. */
  function PgsizeEq(bitmap: u64, va: u64, pa: u64, size: u64): u64
    requires Candidates(bitmap, va, pa, size) != 0
  {
    ToInt(PgsizeIdx(bitmap, va, pa, size))
  }

  /**
   * The next larger size of the bitmap, 2^nextLg2, and the distance from
   * va | pa up to its next boundary, when there is a larger size and va
   * and pa sit at the same offset within it.
   */
  datatype Boundary = NoBoundary | Boundary(nextLg2: nat, offset: u64)

  function NextBoundary(bitmap: u64, va: u64, pa: u64, size: u64): (r: Boundary)
    requires Candidates(bitmap, va, pa, size) != 0
    ensures r.Boundary? ==> r.nextLg2 < 64
  {
    Pow2Words();
    var idx := PgsizeIdx(bitmap, va, pa, size);
    var larger := And64(bitmap, Not(ToMaxInt(idx + 1), 64));
    if larger == 0 then NoBoundary
    else
      FfsWord(larger);
      var nextLg2 := Ffs(larger);
      if Mod(Xor64(va, pa), nextLg2) != 0 then NoBoundary
      else
        AndBound(Merge(va, pa), ToMaxInt(nextLg2));
        Boundary(nextLg2, ToInt(nextLg2) - Mod(Merge(va, pa), nextLg2))
  }

  /**
   * *count as written: the larger page is taken to fit when
   * offset + pgsize_next, computed in size_t, is at most size.
   */
  function CountAsWritten(bitmap: u64, va: u64, pa: u64, size: u64): u64
    requires Candidates(bitmap, va, pa, size) != 0
  {
    var idx := PgsizeIdx(bitmap, va, pa, size);
    match NextBoundary(bitmap, va, pa, size)
    case NoBoundary => Div(size, idx)
    case Boundary(nextLg2, offset) =>
      if (offset + ToInt(nextLg2)) % U64_LIMIT <= size then Div(offset, idx) else Div(size, idx)
  }

  /** *count with the fit test done without wrap-around: the count the rest of this model uses. */
  function PgsizeCount(bitmap: u64, va: u64, pa: u64, size: u64): u64
    requires Candidates(bitmap, va, pa, size) != 0
  {
    var idx := PgsizeIdx(bitmap, va, pa, size);
    match NextBoundary(bitmap, va, pa, size)
    case NoBoundary => Div(size, idx)
    case Boundary(nextLg2, offset) =>
      if offset + ToInt(nextLg2) <= size then Div(offset, idx) else Div(size, idx)
  }

  // ---- alignment helpers -------------------------------------------------

  /** A set bit below 2^k leaves a remainder modulo 2^k. */
  lemma NotAlignedOfBit(x: nat, k: nat, j: nat)
    requires j < k && TestBit(x, j)
    ensures x % Pow2(k) != 0
  {
    LowIsMod(x, k);
    LowBit(x, k, j);
    ZeroBit(j);
  }

  /** 2^k is at most a exactly when k is below fls(a). */
  lemma FlsBelow(a: nat, k: nat)
    ensures (k < Fls(a)) == (Pow2(k) <= a)
  {
    FlsSpec(a);
    if k < Fls(a) {
      Pow2Monotone(k, Fls(a) - 1);
    } else {
      Pow2Monotone(Fls(a), k);
    }
  }

  /** With va | pa nonzero, k is at most its lowest set bit exactly when 2^k divides va and pa. */
  lemma MergeAligned(va: u64, pa: u64, k: nat)
    requires Merge(va, pa) != 0
    ensures (k <= Ffs(Merge(va, pa))) == (va % Pow2(k) == 0 && pa % Pow2(k) == 0)
  {
    var m := Merge(va, pa);
    FfsSpec(m);
    if k <= Ffs(m) {
      forall j | 0 <= j < k ensures !TestBit(va, j) && !TestBit(pa, j) {
        LowBit(m, Ffs(m), j);
        ZeroBit(j);
        OrBit(pa, va, j);
      }
      PtIter.AlignedOfLowClear(va, k);
      PtIter.AlignedOfLowClear(pa, k);
    } else {
      OrBit(pa, va, Ffs(m));
      if TestBit(va, Ffs(m)) {
        NotAlignedOfBit(va, k, Ffs(m));
      } else {
        NotAlignedOfBit(pa, k, Ffs(m));
      }
    }
  }

  /** With va | pa zero, every power of two divides va and pa. */
  lemma ZeroMergeAligned(va: u64, pa: u64, k: nat)
    requires Merge(va, pa) == 0
    ensures va % Pow2(k) == 0 && pa % Pow2(k) == 0
  {
    forall j | 0 <= j < k ensures !TestBit(va, j) && !TestBit(pa, j) {
      OrBit(pa, va, j);
      ZeroBit(j);
    }
    PtIter.AlignedOfLowClear(va, k);
    PtIter.AlignedOfLowClear(pa, k);
  }

  /** x | y is a multiple of 2^f exactly when both are. */
  lemma OrAligned(x: u64, y: u64, f: nat)
    ensures (Or64(x, y) % Pow2(f) == 0) == (x % Pow2(f) == 0 && y % Pow2(f) == 0)
  {
    if Or64(x, y) % Pow2(f) == 0 {
      forall j | 0 <= j < f ensures !TestBit(x, j) && !TestBit(y, j) {
        PtIter.LowClearOfAligned(Or64(x, y), f, j);
        OrBit(x, y, j);
      }
      PtIter.AlignedOfLowClear(x, f);
      PtIter.AlignedOfLowClear(y, f);
    }
    if x % Pow2(f) == 0 && y % Pow2(f) == 0 {
      forall j | 0 <= j < f ensures !TestBit(Or64(x, y), j) {
        PtIter.LowClearOfAligned(x, f, j);
        PtIter.LowClearOfAligned(y, f, j);
        OrBit(x, y, j);
      }
      PtIter.AlignedOfLowClear(Or64(x, y), f);
    }
  }

  lemma PositiveMultiple(a: nat, p: nat)
    requires p > 0 && a > 0 && a % p == 0
    ensures p <= a
  {
    DivMul(a, p);
    assert a / p >= 1;
    MulMonotone(1, a / p, p);
  }

  lemma MultipleMinus(a: nat, b: nat, p: nat)
    requires p > 0 && a % p == 0 && b % p == 0 && b <= a
    ensures (a - b) % p == 0
  {
    DivMul(a, p);
    DivMul(b, p);
    var qa, qb := a / p, b / p;
    MulDistrib(qa, 1, p);
    MulCancelLt(qb, qa + 1, p);
    assert a - b == (qa - qb) * p;
    MultipleOfMultiple(qa - qb, p);
  }

  lemma MultiplePlus(a: nat, b: nat, p: nat)
    requires p > 0 && a % p == 0 && b % p == 0
    ensures (a + b) % p == 0
  {
    DivMul(a, p);
    DivMul(b, p);
    MulDistrib(a / p, b / p, p);
    MultipleOfMultiple(a / p + b / p, p);
  }

  /** Rounding a up past the next multiple of d lands on a multiple of d. */
  lemma NextMultiple(a: nat, d: nat)
    requires d > 0
    ensures (a + (d - a % d)) % d == 0
  {
    DivMul(a, d);
    MulDistrib(a / d, 1, d);
    MultipleOfMultiple(a / d + 1, d);
  }

  /** Wrapping to 64 bits keeps alignment to 2^f for f <= 64. */
  lemma WrapAligned(x: nat, f: nat)
    requires f <= 64 && x % Pow2(f) == 0
    ensures Low(x, 64) % Pow2(f) == 0
  {
    forall j | 0 <= j < f ensures !TestBit(Low(x, 64), j) {
      LowBit(x, 64, j);
      PtIter.LowClearOfAligned(x, f, j);
    }
    PtIter.AlignedOfLowClear(Low(x, 64), f);
  }

  lemma Pow2LeIff(a: nat, b: nat)
    ensures (Pow2(a) <= Pow2(b)) == (a <= b)
  {
    if a <= b {
      Pow2Monotone(a, b);
    } else {
      Pow2StrictMonotone(b, a);
    }
  }

  // ---- properties of the splitter ----------------------------------------

  /**
   * Bit k survives into the candidates exactly when 2^k is a size of the
   * bitmap, at most size, and divides both va and pa.
   */
  lemma CandidateBit(bitmap: u64, va: u64, pa: u64, size: u64, k: nat)
    ensures TestBit(Candidates(bitmap, va, pa, size), k) ==
      (TestBit(bitmap, k) && Pow2(k) <= size && va % Pow2(k) == 0 && pa % Pow2(k) == 0)
  {
    SmallBit(bitmap, size, k);
    var merge := Merge(va, pa);
    if merge != 0 {
      FfsWord(merge);
      FlsWord(size);
      ModBit(Mod(bitmap, Fls(size)), Ffs(merge) + 1, k);
      MergeAligned(va, pa, k);
    } else {
      ZeroMergeAligned(va, pa, k);
    }
  }

  /** Bit k of bitmap & GENMASK(__fls(size), 0) is bit k of bitmap when 2^k is at most size. */
  lemma SmallBit(bitmap: u64, size: u64, k: nat)
    ensures Fls(size) <= 64
    ensures TestBit(Mod(bitmap, Fls(size)), k) == (TestBit(bitmap, k) && Pow2(k) <= size)
  {
    FlsWord(size);
    ModBit(bitmap, Fls(size), k);
    FlsBelow(size, k);
  }

  /**
   * The BUG_ON condition: there is a candidate exactly when some size of
   * the bitmap is at most size and divides both va and pa.
   */
  lemma CandidatesIff(bitmap: u64, va: u64, pa: u64, size: u64)
    ensures Candidates(bitmap, va, pa, size) != 0 <==>
      exists k :: TestBit(bitmap, k) && Pow2(k) <= size && va % Pow2(k) == 0 && pa % Pow2(k) == 0
  {
    var c := Candidates(bitmap, va, pa, size);
    if c != 0 {
      FlsSpec(c);
      CandidateBit(bitmap, va, pa, size, Fls(c) - 1);
    } else {
      forall k ensures !(TestBit(bitmap, k) && Pow2(k) <= size && va % Pow2(k) == 0 && pa % Pow2(k) == 0) {
        CandidateBit(bitmap, va, pa, size, k);
        ZeroBit(k);
      }
    }
  }

  /**
   * The page size is a size of the bitmap, at most size, dividing both
   * addresses, and no larger size of the bitmap has all three properties.
   */
  lemma PgsizeEqSpec(bitmap: u64, va: u64, pa: u64, size: u64)
    requires Candidates(bitmap, va, pa, size) != 0
    ensures PgsizeEq(bitmap, va, pa, size) == Pow2(PgsizeIdx(bitmap, va, pa, size))
    ensures TestBit(bitmap, PgsizeIdx(bitmap, va, pa, size))
    ensures PgsizeEq(bitmap, va, pa, size) <= size
    ensures va % PgsizeEq(bitmap, va, pa, size) == 0 && pa % PgsizeEq(bitmap, va, pa, size) == 0
    ensures forall k :: PgsizeIdx(bitmap, va, pa, size) < k && TestBit(bitmap, k) ==>
      size < Pow2(k) || va % Pow2(k) != 0 || pa % Pow2(k) != 0
  {
    var c := Candidates(bitmap, va, pa, size);
    var idx := PgsizeIdx(bitmap, va, pa, size);
    FlsSpec(c);
    CandidateBit(bitmap, va, pa, size, idx);
    forall k | idx < k && TestBit(bitmap, k)
      ensures size < Pow2(k) || va % Pow2(k) != 0 || pa % Pow2(k) != 0
    {
      Pow2Monotone(idx + 1, k);
      HighBitClear(c, idx + 1, k);
      CandidateBit(bitmap, va, pa, size, k);
    }
  }

  /** The next larger size: a size of the bitmap above the page size with none in between. */
  lemma NextBoundarySpec(bitmap: u64, va: u64, pa: u64, size: u64)
    requires Candidates(bitmap, va, pa, size) != 0
    ensures NextBoundary(bitmap, va, pa, size).Boundary? ==>
      var n := NextBoundary(bitmap, va, pa, size).nextLg2;
      PgsizeIdx(bitmap, va, pa, size) < n && TestBit(bitmap, n) &&
      (forall k :: PgsizeIdx(bitmap, va, pa, size) < k < n ==> !TestBit(bitmap, k)) &&
      va % Pow2(n) == pa % Pow2(n)
  {
    var idx := PgsizeIdx(bitmap, va, pa, size);
    if NextBoundary(bitmap, va, pa, size).Boundary? {
      var n := NextBoundary(bitmap, va, pa, size).nextLg2;
      Pow2Words();
      var larger := And64(bitmap, Not(ToMaxInt(idx + 1), 64));
      FfsSpec(larger);
      AboveBit(bitmap, idx, n);
      forall k | idx < k < n ensures !TestBit(bitmap, k) {
        LowBit(larger, n, k);
        ZeroBit(k);
        AboveBit(bitmap, idx, k);
      }
      CoAligned(va, pa, n);
    }
  }

  /** Bit k of bitmap & ~GENMASK(idx, 0) is bit k of bitmap above idx. */
  lemma AboveBit(bitmap: u64, idx: nat, k: nat)
    requires idx < 64
    ensures ToMaxInt(idx + 1) < Pow2(64)
    ensures TestBit(And64(bitmap, Not(ToMaxInt(idx + 1), 64)), k) == (idx < k < 64 && TestBit(bitmap, k))
  {
    Pow2Words();
    var mask := ToMaxInt(idx + 1);
    AndBit(bitmap, Not(mask, 64), k);
    NotBit(mask, 64, k);
    MaxBit(idx + 1, k);
  }

  /** (va ^ pa) & (2^n - 1) == 0 means va and pa agree modulo 2^n. */
  lemma CoAligned(va: u64, pa: u64, n: nat)
    requires n < 64 && Mod(Xor64(va, pa), n) == 0
    ensures va % Pow2(n) == pa % Pow2(n)
    ensures Mod(Merge(va, pa), n) == va % Pow2(n)
  {
    forall k | 0 <= k < n ensures TestBit(va, k) == TestBit(pa, k) {
      AndBit(Xor64(va, pa), ToMaxInt(n), k);
      MaxBit(n, k);
      ZeroBit(k);
      XorBit(va, pa, k);
    }
    SameLowBits(va, pa, n);
    forall k | 0 <= k < n ensures TestBit(Merge(va, pa), k) == TestBit(va, k) {
      OrBit(pa, va, k);
    }
    SameLowBits(Merge(va, pa), va, n);
    ModIsRemainder(va, n);
    ModIsRemainder(pa, n);
  }

  /** The quotient by 2^idx: x / 2^idx pages fit in x and one more does not. */
  lemma CountFits(x: u64, idx: nat)
    requires idx < 64
    ensures Div(x, idx) * Pow2(idx) <= x < (Div(x, idx) + 1) * Pow2(idx)
    ensures x % Pow2(idx) == 0 ==> Div(x, idx) * Pow2(idx) == x
  {
    ModDivAreRemainderQuotient(x, idx);
    MulDistrib(Div(x, idx), 1, Pow2(idx));
  }

  /**
   * The corrected count: at least one page, and never more pages than
   * fit in size.  When the larger page fits, the run of small pages ends
   * exactly on the next boundary of the larger size for both addresses;
   * otherwise it is as many pages as fit in size.
   */
  lemma PgsizeCountSpec(bitmap: u64, va: u64, pa: u64, size: u64)
    requires Candidates(bitmap, va, pa, size) != 0
    ensures 1 <= PgsizeCount(bitmap, va, pa, size)
    ensures PgsizeCount(bitmap, va, pa, size) * PgsizeEq(bitmap, va, pa, size) <= size
    ensures match NextBoundary(bitmap, va, pa, size)
      case Boundary(n, offset) =>
        offset + Pow2(n) <= size ==>
          PgsizeCount(bitmap, va, pa, size) * PgsizeEq(bitmap, va, pa, size) == offset &&
          (va + offset) % Pow2(n) == 0 && (pa + offset) % Pow2(n) == 0
      case NoBoundary => true
    ensures (match NextBoundary(bitmap, va, pa, size)
      case Boundary(n, offset) => size < offset + Pow2(n)
      case NoBoundary => true) ==>
        size < (PgsizeCount(bitmap, va, pa, size) + 1) * PgsizeEq(bitmap, va, pa, size)
  {
    var idx := PgsizeIdx(bitmap, va, pa, size);
    var p := Pow2(idx);
    PgsizeEqSpec(bitmap, va, pa, size);
    CountFits(size, idx);
    match NextBoundary(bitmap, va, pa, size)
    case NoBoundary =>
      CountAtLeastOne(size, idx);
    case Boundary(n, offset) =>
      NextBoundarySpec(bitmap, va, pa, size);
      OffsetMultiple(bitmap, va, pa, size);
      if offset + Pow2(n) <= size {
        BoundaryFits(bitmap, va, pa, size);
      } else {
        CountAtLeastOne(size, idx);
      }
  }

  /** The case where the larger page fits: the run ends on its boundary. */
  lemma BoundaryFits(bitmap: u64, va: u64, pa: u64, size: u64)
    requires Candidates(bitmap, va, pa, size) != 0
    requires NextBoundary(bitmap, va, pa, size).Boundary?
    requires NextBoundary(bitmap, va, pa, size).offset + Pow2(NextBoundary(bitmap, va, pa, size).nextLg2) <= size
    ensures var b := NextBoundary(bitmap, va, pa, size);
      PgsizeCount(bitmap, va, pa, size) == Div(b.offset, PgsizeIdx(bitmap, va, pa, size)) >= 1 &&
      PgsizeCount(bitmap, va, pa, size) * PgsizeEq(bitmap, va, pa, size) == b.offset &&
      (va + b.offset) % Pow2(b.nextLg2) == 0 && (pa + b.offset) % Pow2(b.nextLg2) == 0
  {
    var idx := PgsizeIdx(bitmap, va, pa, size);
    var b := NextBoundary(bitmap, va, pa, size);
    PgsizeEqSpec(bitmap, va, pa, size);
    NextBoundarySpec(bitmap, va, pa, size);
    OffsetMultiple(bitmap, va, pa, size);
    CountFits(b.offset, idx);
    PositiveMultiple(b.offset, Pow2(idx));
    CountAtLeastOne(b.offset, idx);
    CoAligned(va, pa, b.nextLg2);
    NextMultiple(va, Pow2(b.nextLg2));
    NextMultiple(pa, Pow2(b.nextLg2));
  }

  /** When 2^idx fits in x, x / 2^idx is at least one. */
  lemma CountAtLeastOne(x: u64, idx: nat)
    requires idx < 64 && Pow2(idx) <= x
    ensures Div(x, idx) >= 1
  {
    CountFits(x, idx);
    assert (0 + 1) * Pow2(idx) == Pow2(idx);
  }

  /** The offset to the next boundary is a positive multiple of the page size. */
  lemma OffsetMultiple(bitmap: u64, va: u64, pa: u64, size: u64)
    requires Candidates(bitmap, va, pa, size) != 0
    ensures NextBoundary(bitmap, va, pa, size).Boundary? ==>
      NextBoundary(bitmap, va, pa, size).offset > 0 &&
      NextBoundary(bitmap, va, pa, size).offset % PgsizeEq(bitmap, va, pa, size) == 0
  {
    var idx := PgsizeIdx(bitmap, va, pa, size);
    if NextBoundary(bitmap, va, pa, size).Boundary? {
      var n := NextBoundary(bitmap, va, pa, size).nextLg2;
      var m := Merge(va, pa);
      PgsizeEqSpec(bitmap, va, pa, size);
      NextBoundarySpec(bitmap, va, pa, size);
      OrAligned(pa, va, idx);
      ModIsRemainder(m, n);
      forall j | 0 <= j < idx ensures !TestBit(Mod(m, n), j) {
        PtIter.LowClearOfAligned(m, idx, j);
        AndBit(m, ToMaxInt(n), j);
      }
      PtIter.AlignedOfLowClear(Mod(m, n), idx);
      Pow2Add(n - idx, idx);
      MultipleOfMultiple(Pow2(n - idx), Pow2(idx));
      MultipleMinus(Pow2(n), Mod(m, n), Pow2(idx));
    }
  }

  /**
   * The count as written overshoots: with the sizes 2^n and 2^63 and both
   * addresses 0, mapping 2^n bytes makes offset + pgsize_next wrap to 0,
   * so the count covers 2^63 bytes.  The corrected count stays within size.
   */
  lemma AsWrittenCountOverrun(bitmap: u64, size: u64, n: nat)
    requires n < 63 && bitmap == Or64(ToInt(n), ToInt(63)) && size == ToInt(n)
    ensures Candidates(bitmap, 0, 0, size) != 0
    ensures CountAsWritten(bitmap, 0, 0, size) * PgsizeEq(bitmap, 0, 0, size) == Pow2(63)
    ensures Pow2(63) > size
    ensures PgsizeCount(bitmap, 0, 0, size) * PgsizeEq(bitmap, 0, 0, size) <= size
  {
    OverrunIdx(bitmap, size, n);
    OverrunBoundary(bitmap, size, n);
    OverrunWrap();
    Pow2StrictMonotone(n, 63);
    assert ToInt(63) % Pow2(n) == 0 by {
      Pow2Add(63 - n, n);
      MultipleOfMultiple(Pow2(63 - n), Pow2(n));
    }
    AsWrittenFit(bitmap, 0, 0, size);
    CountFits(ToInt(63), n);
    PgsizeCountSpec(bitmap, 0, 0, size);
  }

  /** When the wrapped fit test passes, the count as written runs up to the boundary. */
  lemma AsWrittenFit(bitmap: u64, va: u64, pa: u64, size: u64)
    requires Candidates(bitmap, va, pa, size) != 0 && NextBoundary(bitmap, va, pa, size).Boundary?
    requires var b := NextBoundary(bitmap, va, pa, size); (b.offset + ToInt(b.nextLg2)) % U64_LIMIT <= size
    ensures CountAsWritten(bitmap, va, pa, size) ==
      Div(NextBoundary(bitmap, va, pa, size).offset, PgsizeIdx(bitmap, va, pa, size))
  {
  }

  /** With the sizes 2^n and 2^63, both addresses 0 and size 2^n, the page size is 2^n. */
  lemma OverrunIdx(bitmap: u64, size: u64, n: nat)
    requires n < 63 && bitmap == Or64(ToInt(n), ToInt(63)) && size == ToInt(n)
    ensures Candidates(bitmap, 0, 0, size) != 0 && PgsizeIdx(bitmap, 0, 0, size) == n
  {
    Pow2Fits(n);
    Pow2Fits(63);
    OrBit(Pow2(n), Pow2(63), n);
    Pow2Bit(n, n);
    CandidateBit(bitmap, 0, 0, size, n);
    ZeroBit(n);
    PgsizeEqSpec(bitmap, 0, 0, size);
    Pow2LeIff(PgsizeIdx(bitmap, 0, 0, size), n);
  }

  /** ... and the next larger size is 2^63, a whole 2^63 away. */
  lemma OverrunBoundary(bitmap: u64, size: u64, n: nat)
    requires n < 63 && bitmap == Or64(ToInt(n), ToInt(63)) && size == ToInt(n)
    requires Candidates(bitmap, 0, 0, size) != 0 && PgsizeIdx(bitmap, 0, 0, size) == n
    ensures NextBoundary(bitmap, 0, 0, size) == Boundary(63, ToInt(63))
  {
    Pow2Words();
    var larger := And64(bitmap, Not(ToMaxInt(n + 1), 64));
    forall j | 0 <= j <= 63 ensures TestBit(larger, j) == (j == 63) {
      LargerBits(n, 63, 64, j);
    }
    FfsAt(larger, 63);
  }

  /** Of the bits of 2^n | 2^t above bit n, only bit t is set. */
  lemma LargerBits(n: nat, t: nat, w: nat, j: nat)
    requires n < t < w
    ensures Pow2(n + 1) - 1 < Pow2(w)
    ensures TestBit(And(Or(Pow2(n), Pow2(t)), Not(Pow2(n + 1) - 1, w)), j) == (j == t)
  {
    Pow2StrictMonotone(n + 1, w);
    AndBit(Or(Pow2(n), Pow2(t)), Not(Pow2(n + 1) - 1, w), j);
    NotBit(Pow2(n + 1) - 1, w, j);
    MaxBit(n + 1, j);
    OrBit(Pow2(n), Pow2(t), j);
    Pow2Bit(n, j);
    Pow2Bit(t, j);
  }

  /** 2^63 + 2^63 wraps to 0 in size_t. */
  lemma OverrunWrap()
    ensures (ToInt(63) + ToInt(63)) % U64_LIMIT == 0
  {
    Pow2Words();
    assert Pow2(64) == 2 * Pow2(63);
  }

  // ---- __iommu_map_eq and __iommu_unmap_eq -------------------------------

  /** x is a multiple of the smallest page size, 2^ffs(bitmap): its bits below ffs(bitmap) are clear. */
  predicate MinAligned(bitmap: u64, x: u64)
    requires bitmap != 0
  {
    Low(x, Ffs(bitmap)) == 0
  }

  lemma MinAlignedMod(bitmap: u64, x: nat)
    requires bitmap != 0
    ensures (Low(x, Ffs(bitmap)) == 0) == (x % Pow2(Ffs(bitmap)) == 0)
  {
    LowIsMod(x, Ffs(bitmap));
  }

  /** min_pagesz: 1 << __ffs(bitmap), an unsigned int. */
  function MinPagesz(bitmap: u64): (r: u32)
    requires bitmap != 0 && Ffs(bitmap) < 32
    ensures r == Pow2(Ffs(bitmap))
  {
    Pow2Words();
    Pow2StrictMonotone(Ffs(bitmap), 32);
    Pow2(Ffs(bitmap))
  }

  /** IS_ALIGNED(x, a) for a power of two a: x & (a - 1) == 0. */
  predicate IsAligned(x: u64, a: u32)
    requires a > 0
  {
    And64(x, a - 1) == 0
  }

  /** IS_ALIGNED(x | y, min_pagesz) holds exactly when both x and y are on the smallest page size. */
  lemma IsAlignedOr(bitmap: u64, x: u64, y: u64)
    requires bitmap != 0 && Ffs(bitmap) < 32
    ensures IsAligned(x, MinPagesz(bitmap)) == MinAligned(bitmap, x)
    ensures IsAligned(Or64(x, y), MinPagesz(bitmap)) == (MinAligned(bitmap, x) && MinAligned(bitmap, y))
  {
    var f := Ffs(bitmap);
    assert MinPagesz(bitmap) - 1 == ToMaxInt(f);
    ModIsRemainder(x, f);
    ModIsRemainder(Or64(x, y), f);
    OrAligned(x, y, f);
    MinAlignedMod(bitmap, x);
    MinAlignedMod(bitmap, y);
  }

  /**
   * With both addresses and a nonzero size on the smallest page size there
   * is always a candidate, and the page size picked is at least the
   * smallest one.
   */
  lemma MinAlignedCandidates(bitmap: u64, va: u64, pa: u64, size: u64)
    requires bitmap != 0 && size > 0
    requires MinAligned(bitmap, va) && MinAligned(bitmap, pa) && MinAligned(bitmap, size)
    ensures Candidates(bitmap, va, pa, size) != 0
    ensures Ffs(bitmap) <= PgsizeIdx(bitmap, va, pa, size)
  {
    var f := Ffs(bitmap);
    MinAlignedMod(bitmap, va);
    MinAlignedMod(bitmap, pa);
    MinAlignedMod(bitmap, size);
    FfsSpec(bitmap);
    PositiveMultiple(size, Pow2(f));
    CandidateBit(bitmap, va, pa, size, f);
    ZeroBit(f);
    PgsizeEqSpec(bitmap, va, pa, size);
  }

  /** One map_pages request. */
  datatype MapCall = MapCall(iova: u64, paddr: u64, pgsize: u64, count: u64)

  /**
   * The request the loops make at (va, pa) with size bytes left: the page
   * size and count iommu_pgsize_eq picks there.  The loops only ask on the
   * smallest page size with size nonzero; anywhere else the request is
   * written here as an empty one.
   */
  function Request(bitmap: u64, va: u64, pa: u64, size: u64): MapCall
  {
    if bitmap != 0 && size > 0 && MinAligned(bitmap, va) && MinAligned(bitmap, pa) && MinAligned(bitmap, size) then
      MinAlignedCandidates(bitmap, va, pa, size);
      MapCall(va, pa, PgsizeEq(bitmap, va, pa, size), PgsizeCount(bitmap, va, pa, size))
    else
      MapCall(va, pa, 0, 0)
  }

  /** A request for count pages of a size of the bitmap, both addresses on that size. */
  ghost predicate GoodCall(bitmap: u64, c: MapCall)
  {
    c.pgsize > 0 && c.count >= 1 && c.iova % c.pgsize == 0 && c.paddr % c.pgsize == 0 &&
    exists k :: TestBit(bitmap, k) && c.pgsize == Pow2(k)
  }

  /**
   * What the loops rely on from the request at (va, pa, size): it starts
   * there, it is a good one, it asks for no more than size, and its page
   * size is a multiple of the smallest one.
   */
  ghost predicate RequestOk(bitmap: u64, c: MapCall, va: u64, pa: u64, size: u64)
    requires bitmap != 0
  {
    c.iova == va && c.paddr == pa && GoodCall(bitmap, c) && c.count * c.pgsize <= size &&
    c.pgsize % Pow2(Ffs(bitmap)) == 0
  }

  /** The request on the smallest page size is a good one, and it asks for no more than size. */
  lemma RequestSpec(bitmap: u64, va: u64, pa: u64, size: u64)
    requires bitmap != 0 && size > 0
    requires MinAligned(bitmap, va) && MinAligned(bitmap, pa) && MinAligned(bitmap, size)
    ensures RequestOk(bitmap, Request(bitmap, va, pa, size), va, pa, size)
  {
    MinAlignedCandidates(bitmap, va, pa, size);
    PgsizeEqSpec(bitmap, va, pa, size);
    PgsizeCountSpec(bitmap, va, pa, size);
    var idx := PgsizeIdx(bitmap, va, pa, size);
    PtLog2.Pow2Fits(idx);
    AlignedDown(Pow2(idx), idx, Ffs(bitmap)) by { ModOfMultiple(1, idx); }
  }

  /** A splitter every one of whose requests on the smallest page size is good. */
  ghost predicate SplitOk(bitmap: u64, split: (u64, u64, u64) -> MapCall)
    requires bitmap != 0
  {
    forall va: u64, pa: u64, size: u64 ::
      size > 0 && MinAligned(bitmap, va) && MinAligned(bitmap, pa) && MinAligned(bitmap, size) ==>
        RequestOk(bitmap, split(va, pa, size), va, pa, size)
  }

  /** The splitter the loops use: Request as a function value. */
  function Split(bitmap: u64): (split: (u64, u64, u64) -> MapCall)
    ensures bitmap != 0 ==> SplitOk(bitmap, split)
  {
    var split := (va: u64, pa: u64, size: u64) => Request(bitmap, va, pa, size);
    if bitmap == 0 then split
    else
      RequestsOk(bitmap, split);
      split
  }

  lemma RequestsOk(bitmap: u64, split: (u64, u64, u64) -> MapCall)
    requires bitmap != 0
    requires forall va: u64, pa: u64, size: u64 :: split(va, pa, size) == Request(bitmap, va, pa, size)
    ensures SplitOk(bitmap, split)
  {
    forall va: u64, pa: u64, size: u64 |
      size > 0 && MinAligned(bitmap, va) && MinAligned(bitmap, pa) && MinAligned(bitmap, size)
      ensures RequestOk(bitmap, split(va, pa, size), va, pa, size)
    {
      RequestSpec(bitmap, va, pa, size);
    }
  }

  /**
   * A step that consumes a whole number of pages, no more than the
   * request asks for, stays within size and keeps addresses and size on
   * the smallest page size.
   */
  lemma MapStep(bitmap: u64, c: MapCall, va: u64, pa: u64, size: u64, mapped: u64)
    requires bitmap != 0 && RequestOk(bitmap, c, va, pa, size)
    requires MinAligned(bitmap, va) && MinAligned(bitmap, pa) && MinAligned(bitmap, size)
    requires mapped <= c.pgsize * c.count && (c.pgsize > 0 ==> mapped % c.pgsize == 0)
    ensures mapped <= size
    ensures MinAligned(bitmap, Add64(va, mapped)) && MinAligned(bitmap, Add64(pa, mapped))
    ensures MinAligned(bitmap, size - mapped)
  {
    var f := Ffs(bitmap);
    FfsWord(bitmap);
    MinAlignedMod(bitmap, va);
    MinAlignedMod(bitmap, pa);
    MinAlignedMod(bitmap, size);
    StepAligned(va, pa, size, mapped, c.pgsize, Pow2(f), c.count);
    WrapAligned(va + mapped, f);
    WrapAligned(pa + mapped, f);
    MinAlignedMod(bitmap, Add64(va, mapped));
    MinAlignedMod(bitmap, Add64(pa, mapped));
    MinAlignedMod(bitmap, size - mapped);
  }

  /** The arithmetic of one step, on plain numbers. */
  lemma StepAligned(va: nat, pa: nat, size: nat, mapped: nat, p: nat, m: nat, count: nat)
    requires m > 0 && p > 0 && p % m == 0
    requires va % m == 0 && pa % m == 0 && size % m == 0
    requires mapped <= p * count && count * p <= size && mapped % p == 0
    ensures mapped <= size
    ensures (va + mapped) % m == 0 && (pa + mapped) % m == 0 && (size - mapped) % m == 0
  {
    DivMul(mapped, p);
    DivMul(p, m);
    MulAssoc(mapped / p, p / m, m);
    MultipleOfMultiple((mapped / p) * (p / m), m);
    MultiplePlus(va, mapped, m);
    MultiplePlus(pa, mapped, m);
    MultipleMinus(size, mapped, m);
  }

  /** The callback's return code and its *mapped. */
  datatype MapReply = MapReply(status: Status, mapped: u64)

  /**
   * What the driving loop relies on from map_pages: it reports at most
   * the pages it was asked for, in whole pages, and maps something when
   * it succeeds.
   */
  ghost predicate MapPagesOk(mapPages: MapCall -> MapReply)
  {
    forall c :: mapPages(c).mapped <= c.pgsize * c.count &&
      (c.pgsize > 0 ==> mapPages(c).mapped % c.pgsize == 0) &&
      (mapPages(c).status == Success ==> mapPages(c).mapped > 0)
  }

  /** The outcome of the map loop and the requests it made, in order. */
  datatype MapRun = MapRun(status: Status, calls: seq<MapCall>)

  /** The map loop from (iova, paddr) with size left to map. */
  function MapFrom(bitmap: u64, split: (u64, u64, u64) -> MapCall, iova: u64, paddr: u64, size: u64, mapPages: MapCall -> MapReply): MapRun
    requires bitmap != 0 && SplitOk(bitmap, split) && MapPagesOk(mapPages)
    requires MinAligned(bitmap, iova) && MinAligned(bitmap, paddr) && MinAligned(bitmap, size)
    decreases size
  {
    if size == 0 then MapRun(Success, [])
    else
      var call := split(iova, paddr, size);
      var reply := mapPages(call);
      if reply.status != Success then MapRun(reply.status, [call])
      else
        MapStep(bitmap, call, iova, paddr, size, reply.mapped);
        var rest := MapFrom(bitmap, split, Add64(iova, reply.mapped), Add64(paddr, reply.mapped), size - reply.mapped, mapPages);
        MapRun(rest.status, [call] + rest.calls)
  }

  /** The bytes the requests report mapped. */
  function Mapped(calls: seq<MapCall>, mapPages: MapCall -> MapReply): nat
  {
    if |calls| == 0 then 0 else mapPages(calls[0]).mapped + Mapped(calls[1..], mapPages)
  }

  /** Each request starts where the previous one's mapped bytes ended. */
  ghost predicate Chained(calls: seq<MapCall>, mapPages: MapCall -> MapReply)
  {
    forall i :: 0 <= i < |calls| - 1 ==>
      calls[i + 1].iova == Add64(calls[i].iova, mapPages(calls[i]).mapped) &&
      calls[i + 1].paddr == Add64(calls[i].paddr, mapPages(calls[i]).mapped)
  }

  ghost predicate AllGood(bitmap: u64, calls: seq<MapCall>)
  {
    forall i :: 0 <= i < |calls| ==> GoodCall(bitmap, calls[i])
  }

  /** Putting a good request in front of a chained run that starts where it ends. */
  lemma ChainCons(bitmap: u64, call: MapCall, rest: seq<MapCall>, mapPages: MapCall -> MapReply)
    requires GoodCall(bitmap, call) && AllGood(bitmap, rest) && Chained(rest, mapPages)
    requires |rest| > 0 ==>
      rest[0].iova == Add64(call.iova, mapPages(call).mapped) &&
      rest[0].paddr == Add64(call.paddr, mapPages(call).mapped)
    ensures AllGood(bitmap, [call] + rest) && Chained([call] + rest, mapPages)
    ensures Mapped([call] + rest, mapPages) == mapPages(call).mapped + Mapped(rest, mapPages)
  {
    var calls := [call] + rest;
    assert calls[1..] == rest;
    assert forall i :: 1 <= i < |calls| ==> calls[i] == rest[i - 1];
  }

  /**
   * The map loop tiles the range: the requests start at (iova, paddr),
   * each is a run of whole pages of a bitmap size aligned on both sides,
   * each starts where the previous one's mapped bytes ended, the reported
   * bytes never exceed size, they add up to size on success, and a
   * failure is the status of the last request.
   */
  lemma {:induction false} MapFromSpec(bitmap: u64, split: (u64, u64, u64) -> MapCall, iova: u64, paddr: u64, size: u64, mapPages: MapCall -> MapReply)
    requires bitmap != 0 && SplitOk(bitmap, split) && MapPagesOk(mapPages)
    requires MinAligned(bitmap, iova) && MinAligned(bitmap, paddr) && MinAligned(bitmap, size)
    ensures Mapped(MapFrom(bitmap, split, iova, paddr, size, mapPages).calls, mapPages) <= size
    ensures MapFrom(bitmap, split, iova, paddr, size, mapPages).status == Success ==>
      Mapped(MapFrom(bitmap, split, iova, paddr, size, mapPages).calls, mapPages) == size
    ensures var r := MapFrom(bitmap, split, iova, paddr, size, mapPages);
      r.status != Success ==> |r.calls| > 0 && mapPages(r.calls[|r.calls| - 1]).status == r.status
    ensures var calls := MapFrom(bitmap, split, iova, paddr, size, mapPages).calls;
      |calls| > 0 ==> calls[0].iova == iova && calls[0].paddr == paddr
    ensures AllGood(bitmap, MapFrom(bitmap, split, iova, paddr, size, mapPages).calls)
    ensures Chained(MapFrom(bitmap, split, iova, paddr, size, mapPages).calls, mapPages)
    decreases size
  {
    if size > 0 {
      var call := split(iova, paddr, size);
      var reply := mapPages(call);
      MapStep(bitmap, call, iova, paddr, size, reply.mapped);
      if reply.status == Success {
        var iova', paddr', size' := Add64(iova, reply.mapped), Add64(paddr, reply.mapped), size - reply.mapped;
        MapFromSpec(bitmap, split, iova', paddr', size', mapPages);
        ChainCons(bitmap, call, MapFrom(bitmap, split, iova', paddr', size', mapPages).calls, mapPages);
      } else {
        ChainCons(bitmap, call, [], mapPages);
      }
    }
  }

  /** A run with the requests already made in front. */
  function After(calls: seq<MapCall>, r: MapRun): MapRun
  {
    MapRun(r.status, calls + r.calls)
  }

  lemma AfterNil(r: MapRun)
    ensures After([], r) == r
  {
    assert [] + r.calls == r.calls;
  }

  lemma AfterSnoc(calls: seq<MapCall>, call: MapCall, r: MapRun)
    ensures After(calls, After([call], r)) == After(calls + [call], r)
  {
    assert calls + ([call] + r.calls) == (calls + [call]) + r.calls;
  }

  /**
   * __iommu_map_eq: -EINVAL unless iova | paddr | size is a multiple of
   * the smallest page size; otherwise the map loop, which stops at the
   * first failing request.
   */
  method MapEq(bitmap: u64, iova: u64, paddr: u64, size: u64, mapPages: MapCall -> MapReply)
    returns (ret: Status, calls: seq<MapCall>)
    requires bitmap != 0 && Ffs(bitmap) < 32 && MapPagesOk(mapPages)
    ensures !(MinAligned(bitmap, iova) && MinAligned(bitmap, paddr) && MinAligned(bitmap, size)) ==>
      ret == Failure(EINVAL) && calls == []
    ensures MinAligned(bitmap, iova) && MinAligned(bitmap, paddr) && MinAligned(bitmap, size) ==>
      MapRun(ret, calls) == MapFrom(bitmap, Split(bitmap), iova, paddr, size, mapPages)
  {
    IsAlignedOr(bitmap, Or64(iova, paddr), size);
    IsAlignedOr(bitmap, iova, paddr);
    if !IsAligned(Or64(Or64(iova, paddr), size), MinPagesz(bitmap)) {
      return Failure(EINVAL), [];
    }
    ret := Success;
    calls := [];
    var split := Split(bitmap);
    var va: u64, pa: u64, left: u64 := iova, paddr, size;
    ghost var run := MapFrom(bitmap, split, iova, paddr, size, mapPages);
    AfterNil(run);
    while left != 0
      invariant ret == Success
      invariant MinAligned(bitmap, va) && MinAligned(bitmap, pa) && MinAligned(bitmap, left)
      invariant run == After(calls, MapFrom(bitmap, split, va, pa, left, mapPages))
      decreases left
    {
      var call, status, va', pa', left' := MapOnce(bitmap, split, va, pa, left, mapPages);
      if status != Success {
        AfterSnoc(calls, call, MapRun(status, []));
        calls := calls + [call];
        ret := status;
        return;
      }
      AfterSnoc(calls, call, MapFrom(bitmap, split, va', pa', left', mapPages));
      calls := calls + [call];
      va, pa, left := va', pa', left';
    }
  }

  /**
   * One turn of the map loop: issue the request for (va, pa, left) and
   * step past what it mapped.  On failure the loop's run is that request
   * alone; on success it is that request followed by the run from the
   * new addresses.
   */
  method MapOnce(bitmap: u64, split: (u64, u64, u64) -> MapCall, va: u64, pa: u64, left: u64, mapPages: MapCall -> MapReply)
    returns (call: MapCall, status: Status, va': u64, pa': u64, left': u64)
    requires bitmap != 0 && SplitOk(bitmap, split) && MapPagesOk(mapPages) && left > 0
    requires MinAligned(bitmap, va) && MinAligned(bitmap, pa) && MinAligned(bitmap, left)
    ensures status != Success ==> MapFrom(bitmap, split, va, pa, left, mapPages) == MapRun(status, [call])
    ensures status == Success ==>
      left' < left && MinAligned(bitmap, va') && MinAligned(bitmap, pa') && MinAligned(bitmap, left') &&
      MapFrom(bitmap, split, va, pa, left, mapPages) == After([call], MapFrom(bitmap, split, va', pa', left', mapPages))
  {
    call := split(va, pa, left);
    var reply := mapPages(call);
    MapStep(bitmap, call, va, pa, left, reply.mapped);
    status := reply.status;
    left' := left - reply.mapped;
    va', pa' := Add64(va, reply.mapped), Add64(pa, reply.mapped);
  }

  /** The bytes the unmap loop reports and the requests it made, in order. */
  datatype UnmapRun = UnmapRun(unmapped: nat, calls: seq<MapCall>)

  /**
   * What the driving loop relies on from unmap_pages, whose requests are
   * written here as map requests with paddr equal to iova: it reports at
   * most the pages asked for, in whole pages.
   */
  ghost predicate UnmapPagesOk(unmapPages: MapCall -> u64)
  {
    forall c :: unmapPages(c) <= c.pgsize * c.count && (c.pgsize > 0 ==> unmapPages(c) % c.pgsize == 0)
  }

  /** The unmap loop from iova with left bytes still to unmap. */
  function UnmapFrom(bitmap: u64, split: (u64, u64, u64) -> MapCall, iova: u64, left: u64, unmapPages: MapCall -> u64): UnmapRun
    requires bitmap != 0 && SplitOk(bitmap, split) && UnmapPagesOk(unmapPages)
    requires MinAligned(bitmap, iova) && MinAligned(bitmap, left)
    decreases left
  {
    if left == 0 then UnmapRun(0, [])
    else
      var call := split(iova, iova, left);
      var n := unmapPages(call);
      if n == 0 then UnmapRun(0, [call])
      else
        MapStep(bitmap, call, iova, iova, left, n);
        var rest := UnmapFrom(bitmap, split, Add64(iova, n), left - n, unmapPages);
        UnmapRun(n + rest.unmapped, [call] + rest.calls)
  }

  /** The bytes the requests report unmapped. */
  function Unmapped(calls: seq<MapCall>, unmapPages: MapCall -> u64): nat
  {
    if |calls| == 0 then 0 else unmapPages(calls[0]) + Unmapped(calls[1..], unmapPages)
  }

  /** Each unmap request starts where the previous one's bytes ended. */
  ghost predicate UnmapChained(calls: seq<MapCall>, unmapPages: MapCall -> u64)
  {
    forall i :: 0 <= i < |calls| - 1 ==>
      calls[i + 1].iova == Add64(calls[i].iova, unmapPages(calls[i])) && calls[i].paddr == calls[i].iova
  }

  lemma UnmapChainCons(bitmap: u64, call: MapCall, rest: seq<MapCall>, unmapPages: MapCall -> u64)
    requires GoodCall(bitmap, call) && AllGood(bitmap, rest) && UnmapChained(rest, unmapPages)
    requires call.paddr == call.iova
    requires |rest| > 0 ==> rest[0].iova == Add64(call.iova, unmapPages(call))
    ensures AllGood(bitmap, [call] + rest) && UnmapChained([call] + rest, unmapPages)
    ensures Unmapped([call] + rest, unmapPages) == unmapPages(call) + Unmapped(rest, unmapPages)
  {
    var calls := [call] + rest;
    assert calls[1..] == rest;
    assert forall i :: 1 <= i < |calls| ==> calls[i] == rest[i - 1];
  }

  /**
   * What the unmap loop promises of a run from iova with left bytes to go:
   * it reports the sum of what the requests unmapped, never more than
   * left; it stops short only at a request that unmapped nothing; the
   * requests start at iova, are aligned runs of bitmap sizes, and each
   * starts where the previous one's bytes ended.
   */
  ghost predicate UnmapRunOk(bitmap: u64, iova: u64, left: u64, r: UnmapRun, unmapPages: MapCall -> u64)
  {
    r.unmapped == Unmapped(r.calls, unmapPages) && r.unmapped <= left &&
    (r.unmapped < left ==> |r.calls| > 0 && unmapPages(r.calls[|r.calls| - 1]) == 0) &&
    (|r.calls| > 0 ==> r.calls[0].iova == iova) &&
    AllGood(bitmap, r.calls) && UnmapChained(r.calls, unmapPages)
  }

  /** A request that unmapped n > 0 bytes, followed by a run that keeps the promise from there, keeps it from iova. */
  lemma UnmapRunCons(bitmap: u64, call: MapCall, iova: u64, left: u64, n: nat, rest: UnmapRun, unmapPages: MapCall -> u64)
    requires GoodCall(bitmap, call) && call.paddr == call.iova && call.iova == iova
    requires unmapPages(call) == n && 0 < n <= left
    requires UnmapRunOk(bitmap, Add64(iova, n), left - n, rest, unmapPages)
    ensures UnmapRunOk(bitmap, iova, left, UnmapRun(n + rest.unmapped, [call] + rest.calls), unmapPages)
  {
    UnmapChainCons(bitmap, call, rest.calls, unmapPages);
    if rest.unmapped < left - n {
      assert ([call] + rest.calls)[|rest.calls|] == rest.calls[|rest.calls| - 1];
    }
  }

  /** The unmap loop keeps its promise, by induction on the bytes left. */
  lemma {:induction false} UnmapFromOk(bitmap: u64, split: (u64, u64, u64) -> MapCall, iova: u64, left: u64, unmapPages: MapCall -> u64)
    requires bitmap != 0 && SplitOk(bitmap, split) && UnmapPagesOk(unmapPages)
    requires MinAligned(bitmap, iova) && MinAligned(bitmap, left)
    ensures UnmapRunOk(bitmap, iova, left, UnmapFrom(bitmap, split, iova, left, unmapPages), unmapPages)
    decreases left
  {
    if left > 0 {
      var call := split(iova, iova, left);
      var n := unmapPages(call);
      MapStep(bitmap, call, iova, iova, left, n);
      if n != 0 {
        UnmapFromMore(bitmap, split, iova, left, unmapPages);
        UnmapFromOk(bitmap, split, Add64(iova, n), left - n, unmapPages);
        UnmapRunCons(bitmap, call, iova, left, n, UnmapFrom(bitmap, split, Add64(iova, n), left - n, unmapPages), unmapPages);
      } else {
        UnmapChainCons(bitmap, call, [], unmapPages);
      }
    }
  }

  /** The loop's step case: a request that unmapped n > 0 bytes, then the loop from past them. */
  lemma UnmapFromMore(bitmap: u64, split: (u64, u64, u64) -> MapCall, iova: u64, left: u64, unmapPages: MapCall -> u64)
    requires bitmap != 0 && SplitOk(bitmap, split) && UnmapPagesOk(unmapPages)
    requires MinAligned(bitmap, iova) && MinAligned(bitmap, left) && left > 0
    requires unmapPages(split(iova, iova, left)) != 0
    ensures var call := split(iova, iova, left); var n := unmapPages(call);
      n <= left && MinAligned(bitmap, Add64(iova, n)) && MinAligned(bitmap, left - n) &&
      UnmapFrom(bitmap, split, iova, left, unmapPages) ==
        UnmapAfter(n, [call], UnmapFrom(bitmap, split, Add64(iova, n), left - n, unmapPages))
  {
    MapStep(bitmap, split(iova, iova, left), iova, iova, left, unmapPages(split(iova, iova, left)));
  }

  /**
   * The unmap loop reports the sum of what the requests unmapped, never
   * more than asked for; it stops short only at a request that unmapped
   * nothing; the requests start at iova, are aligned runs of bitmap
   * sizes, and each starts where the previous one's bytes ended.
   */
  lemma UnmapFromSpec(bitmap: u64, split: (u64, u64, u64) -> MapCall, iova: u64, left: u64, unmapPages: MapCall -> u64)
    requires bitmap != 0 && SplitOk(bitmap, split) && UnmapPagesOk(unmapPages)
    requires MinAligned(bitmap, iova) && MinAligned(bitmap, left)
    ensures var r := UnmapFrom(bitmap, split, iova, left, unmapPages);
      r.unmapped == Unmapped(r.calls, unmapPages) && r.unmapped <= left
    ensures var r := UnmapFrom(bitmap, split, iova, left, unmapPages);
      r.unmapped < left ==> |r.calls| > 0 && unmapPages(r.calls[|r.calls| - 1]) == 0
    ensures var calls := UnmapFrom(bitmap, split, iova, left, unmapPages).calls;
      |calls| > 0 ==> calls[0].iova == iova
    ensures AllGood(bitmap, UnmapFrom(bitmap, split, iova, left, unmapPages).calls)
    ensures UnmapChained(UnmapFrom(bitmap, split, iova, left, unmapPages).calls, unmapPages)
  {
    UnmapFromOk(bitmap, split, iova, left, unmapPages);
  }

  /** An unmap run with the bytes and requests already done in front. */
  function UnmapAfter(unmapped: nat, calls: seq<MapCall>, r: UnmapRun): UnmapRun
  {
    UnmapRun(unmapped + r.unmapped, calls + r.calls)
  }

  lemma UnmapAfterNil(r: UnmapRun)
    ensures UnmapAfter(0, [], r) == r
  {
    assert [] + r.calls == r.calls;
  }

  lemma UnmapAfterSnoc(unmapped: nat, calls: seq<MapCall>, n: nat, call: MapCall, r: UnmapRun)
    ensures UnmapAfter(unmapped, calls, UnmapAfter(n, [call], r)) == UnmapAfter(unmapped + n, calls + [call], r)
  {
    assert calls + ([call] + r.calls) == (calls + [call]) + r.calls;
  }

  /**
   * __iommu_unmap_eq: 0 unless iova | size is a multiple of the smallest
   * page size; otherwise the bytes the unmap loop accumulates.
   */
  method UnmapEq(bitmap: u64, iova: u64, size: u64, unmapPages: MapCall -> u64)
    returns (unmapped: u64, calls: seq<MapCall>)
    requires bitmap != 0 && Ffs(bitmap) < 32 && UnmapPagesOk(unmapPages)
    ensures !(MinAligned(bitmap, iova) && MinAligned(bitmap, size)) ==> unmapped == 0 && calls == []
    ensures MinAligned(bitmap, iova) && MinAligned(bitmap, size) ==>
      UnmapRun(unmapped, calls) == UnmapFrom(bitmap, Split(bitmap), iova, size, unmapPages)
  {
    IsAlignedOr(bitmap, iova, size);
    if !IsAligned(Or64(iova, size), MinPagesz(bitmap)) {
      return 0, [];
    }
    unmapped := 0;
    calls := [];
    var split := Split(bitmap);
    var va: u64, left: u64 := iova, size;
    ghost var run := UnmapFrom(bitmap, split, iova, size, unmapPages);
    UnmapAfterNil(run);
    while unmapped < size
      invariant unmapped <= size && left == size - unmapped
      invariant MinAligned(bitmap, va) && MinAligned(bitmap, left)
      invariant run == UnmapAfter(unmapped, calls, UnmapFrom(bitmap, split, va, left, unmapPages))
      decreases left
    {
      var call, n, va', left' := UnmapOnce(bitmap, split, va, left, unmapPages);
      if n == 0 {
        UnmapAfterSnoc(unmapped, calls, 0, call, UnmapRun(0, []));
        calls := calls + [call];
        return;
      }
      UnmapAfterSnoc(unmapped, calls, n, call, UnmapFrom(bitmap, split, va', left', unmapPages));
      calls := calls + [call];
      va, left := va', left';
      unmapped := unmapped + n;
    }
  }

  /**
   * One turn of the unmap loop: issue the request for (va, left).  When
   * it unmaps nothing the loop's run is that request alone; otherwise it
   * is that request followed by the run from past what it unmapped.
   */
  method UnmapOnce(bitmap: u64, split: (u64, u64, u64) -> MapCall, va: u64, left: u64, unmapPages: MapCall -> u64)
    returns (call: MapCall, n: u64, va': u64, left': u64)
    requires bitmap != 0 && SplitOk(bitmap, split) && UnmapPagesOk(unmapPages) && left > 0
    requires MinAligned(bitmap, va) && MinAligned(bitmap, left)
    ensures n == 0 ==> UnmapFrom(bitmap, split, va, left, unmapPages) == UnmapRun(0, [call])
    ensures n != 0 ==>
      left' == left - n && MinAligned(bitmap, va') && MinAligned(bitmap, left') &&
      UnmapFrom(bitmap, split, va, left, unmapPages) == UnmapAfter(n, [call], UnmapFrom(bitmap, split, va', left', unmapPages))
  {
    call := split(va, va, left);
    n := unmapPages(call);
    MapStep(bitmap, call, va, va, left, n);
    left' := left - n;
    va' := Add64(va, n);
  }
}
