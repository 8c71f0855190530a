// Block lists over a DMA range list: the search for the HW block size
// (rlist_dma_find_best_blocksz), the first block's offset and the number
// of blocks, and the split of each entry into the blocks the block
// iterator walks (set_first_block and the in-entry step).

module RlistDmaBlocks {
  import opened Errno
  import opened Bits
  import opened RlistFormat
  import opened RlistCpuFormat
  import opened RlistDmaFormat
  import PtLog2

  // ---- ALIGN and ALIGN_DOWN on 64-bit words --------------------------------

  /** ALIGN(x, a): (x + a - 1) & ~(a - 1), on a 64-bit word. */
  function Align(x: u64, a: u64): u64
  {
    AndBound(U64Of(x + a - 1), Complement(U64Of(a - 1)));
    And(U64Of(x + a - 1), Complement(U64Of(a - 1)))
  }

  /** ALIGN_DOWN(x, a): ALIGN(x - (a - 1), a). */
  function AlignDown(x: u64, a: u64): u64
  {
    Align(U64Of(x - (a - 1)), a)
  }

  /** x & (a - 1): how far x lies into its block of a bytes. */
  function Gap(x: u64, a: u64): u64
  {
    AndBound(x, U64Of(a - 1));
    And(x, U64Of(a - 1))
  }

  lemma ModAdd(t: int, s: int)
    ensures U64Of(U64Of(t) + s) == U64Of(t + s)
  {
    ModShift(t + s, t / U64_LIMIT);
  }

  /** A power of two below the word size, and its mask, fit a 64-bit word. */
  lemma SmallPow2(j: nat)
    requires j < 64
    ensures Pow2(j) < U64_LIMIT && U64Of(Pow2(j) - 1) == Pow2(j) - 1
    ensures Complement(U64Of(Pow2(j) - 1)) == Pow2(64) - Pow2(j)
  {
    PtLog2.Pow2Words();
    Pow2StrictMonotone(j, 64);
  }

  /** A power of two that fits a word has an exponent below 64. */
  lemma PowWord(a: u64, j: nat)
    requires a == Pow2(j)
    ensures j < 64
  {
    PtLog2.Pow2Words();
    if j >= 64 {
      Pow2Monotone(64, j);
    }
  }

  lemma Pow2Is60()
    ensures Pow2(60) == U60_LIMIT
  {
    PtLog2.Pow2Words();
    Pow2Add(4, 60);
    assert Pow2(4) == 16;
  }

  /** For a power of two that leaves room above x, ALIGN rounds x up to the next multiple. */
  lemma AlignIsCeil(x: u64, a: u64, j: nat)
    requires a == Pow2(j) && x + a <= U64_LIMIT
    ensures Align(x, a) == Ceil(x, a) * a
    ensures x <= Align(x, a) < x + a
  {
    PowWord(a, j);
    var y := x + a - 1;
    SmallPow2(j);
    Small64(y);
    assert Align(x, a) == And(y, Complement(U64Of(a - 1)));
    WordMask(y, a, j);
    ShrQuot(y, a, j);
  }

  /** Quot by a power of two and the low bits split y like Shr does. */
  lemma ShrQuot(y: nat, a: nat, j: nat)
    requires a == Pow2(j)
    ensures y == Quot(y, a) * a + Low(y, j) && Low(y, j) < a
  {
    ShrLowDivMod(y, j);
    QuotIsDiv(y, a);
  }

  /** ALIGN_DOWN by a power of two clears the low bits: the largest multiple at or below x. */
  lemma AlignDownIsFloor(x: u64, a: u64, j: nat)
    requires a == Pow2(j)
    ensures AlignDown(x, a) == x - x % a
    ensures AlignDown(x, a) % a == 0
  {
    PowWord(a, j);
    DownUp(x, a);
    WordMask(x, a, j);
    LowIsMod(x, j);
    FloorMultiple(x, a);
  }

  /** Masking with ~(a - 1) for a power of two a clears the bits below a. */
  lemma WordMask(x: u64, a: u64, j: nat)
    requires a == Pow2(j)
    ensures And(x, Complement(U64Of(a - 1))) == x - Low(x, j)
  {
    PowWord(a, j);
    SmallPow2(j);
    PtLog2.Pow2Words();
    AndHighMask(x, 64, j);
  }

  /** Stepping down by a - 1 and back up again, modulo 2^64, returns to x. */
  lemma DownUp(x: u64, a: u64)
    requires a >= 1
    ensures U64Of(U64Of(x - (a - 1)) + a - 1) == x
  {
    var t := x - (a - 1);
    ModAdd(t, a - 1);
    assert t + (a - 1) == x;
    Small64(x);
  }

  lemma GapIsMod(x: u64, a: u64, j: nat)
    requires a == Pow2(j)
    ensures Gap(x, a) == x % a == Low(x, j)
  {
    PowWord(a, j);
    SmallPow2(j);
    AndMaxIsLow(x, j);
    LowIsMod(x, j);
  }

  // ---- low bits ------------------------------------------------------------

  lemma LowZeroIff(x: nat, j: nat)
    ensures Low(x, j) == 0 <==> forall i :: 0 <= i < j ==> !TestBit(x, i)
  {
    LowBound(x, j);
    forall i | 0 <= i < j ensures TestBit(Low(x, j), i) == TestBit(x, i) {
      LowBit(x, j, i);
    }
    if Low(x, j) == 0 {
      forall i | 0 <= i < j ensures !TestBit(x, i) {
        ZeroBit(i);
      }
    } else {
      var k := PtLog2.Fls(Low(x, j)) - 1;
      PtLog2.FlsSpec(Low(x, j));
      LowBit(x, j, k);
    }
  }

  /** The low j bits of a | b are clear exactly when they are clear in both. */
  lemma LowOrZero(a: nat, b: nat, j: nat)
    ensures Low(Or(a, b), j) == 0 <==> Low(a, j) == 0 && Low(b, j) == 0
  {
    LowZeroIff(Or(a, b), j);
    LowZeroIff(a, j);
    LowZeroIff(b, j);
    if Low(Or(a, b), j) == 0 {
      forall i | 0 <= i < j ensures !TestBit(a, i) && !TestBit(b, i) {
        OrBit(a, b, i);
      }
    } else if Low(a, j) == 0 && Low(b, j) == 0 {
      forall i | 0 <= i < j ensures !TestBit(Or(a, b), i) {
        OrBit(a, b, i);
      }
    }
  }

  /** The low j bits of a ^ b are clear exactly when a and b agree in them. */
  lemma LowXorZero(a: nat, b: nat, j: nat)
    ensures Low(Xor(a, b), j) == 0 <==> Low(a, j) == Low(b, j)
  {
    LowZeroIff(Xor(a, b), j);
    LowBound(a, j);
    LowBound(b, j);
    forall i | 0 <= i < j ensures TestBit(Low(a, j), i) == TestBit(a, i) && TestBit(Low(b, j), i) == TestBit(b, i) {
      LowBit(a, j, i);
      LowBit(b, j, i);
    }
    if Low(Xor(a, b), j) == 0 {
      forall i | 0 <= i < j ensures TestBit(Low(a, j), i) == TestBit(Low(b, j), i) {
        XorBit(a, b, i);
      }
      BitsEqual(Low(a, j), Low(b, j), j);
    } else if Low(a, j) == Low(b, j) {
      forall i | 0 <= i < j ensures !TestBit(Xor(a, b), i) {
        XorBit(a, b, i);
      }
    }
  }

  lemma LowZeroBelow(x: nat, j: nat, m: nat)
    requires j <= m && Low(x, m) == 0
    ensures Low(x, j) == 0
  {
    LowZeroIff(x, m);
    LowZeroIff(x, j);
  }

  // ---- rlist_dma_find_best_blocksz -------------------------------------------

  /** bits_per(n): the number of bits n needs, 1 for 0 and 1. */
  function BitsPer(n: nat): nat
  {
    if n < 2 then 1 else PtLog2.Fls(n)
  }

  /**
   * GENMASK(63, h): the bits from h upwards.  bits_per of a 64-bit value
   * can be 64, and GENMASK(63, 64) is an out-of-range shift in C; the
   * model reads it as the empty mask.
   */
  function HighMask(h: nat): u64
  {
    if h >= 64 then 0 else SmallPow2(h); U64_LIMIT - Pow2(h)
  }

  lemma HighMaskBit(h: nat, m: nat)
    ensures TestBit(HighMask(h), m) == (h <= m < 64)
  {
    if h >= 64 {
      ZeroBit(m);
    } else {
      SmallPow2(h);
      PtLog2.Pow2Words();
      assert HighMask(h) == Not(Pow2(h) - 1, 64);
      NotBit(Pow2(h) - 1, 64, m);
      MaxBit(h, m);
    }
  }

  /** The va the search starts from: the segment's hwva, or the first entry's address. */
  function StartVa(seg: Segmentation, es: seq<DmaEntry>): u64
    requires seg.hasBlockListHwva || es != []
  {
    if seg.hasBlockListHwva then seg.blockListHwva else es[0].dma
  }

  /** The running hwva before entry k: h0 plus the lengths before it, on a 64-bit word. */
  function Running(h0: u64, es: seq<DmaEntry>, k: nat): u64
    requires k <= |es|
  {
    if k == 0 then h0 else U64Of(Running(h0, es, k - 1) + es[k - 1].length)
  }

  /**
   * Entry k fits blocks of 2^j: its address agrees with the running va in
   * the low j bits, and every entry after the first starts a block.
   */
  predicate EntryAligned(h0: u64, es: seq<DmaEntry>, j: nat, k: nat)
    requires k < |es|
  {
    Low(es[k].dma, j) == Low(Running(h0, es, k), j) && (k > 0 ==> Low(Running(h0, es, k), j) == 0)
  }

  predicate AlignedUpTo(h0: u64, es: seq<DmaEntry>, j: nat, n: nat)
    requires n <= |es|
  {
    forall k | 0 <= k < n :: EntryAligned(h0, es, j, k)
  }

  /**
   * The mask the search starts from: the supported sizes from the first one
   * whose block holds the whole va span [h0, h0 + length) upwards.
   */
  function SpanCap(seg: Segmentation, h0: u64, length: u64): u62
  {
    var h := BitsPer(Xor(U64Of(length - 1 + h0), h0));
    AndBound(seg.blockListSupported, HighMask(h));
    And(seg.blockListSupported, HighMask(h))
  }

  lemma CapBit(b: u62, h: nat, m: nat)
    ensures TestBit(And(b, HighMask(h)), m) == (h <= m && TestBit(b, m))
  {
    AndBit(b, HighMask(h), m);
    HighMaskBit(h, m);
    if 64 <= m {
      assert b < Pow2(62) by {
        Pow2Add(2, 60);
        Pow2Is60();
      }
      HighBitClear(b, 62, m);
    }
  }

  /** The span cap allows 2^j exactly when no supported size lies from bits_per(span) up to below j. */
  lemma SpanCapMeaning(seg: Segmentation, h0: u64, length: u64, j: nat)
    ensures Low(SpanCap(seg, h0, length), j) == 0 <==>
      forall m :: BitsPer(Xor(U64Of(length - 1 + h0), h0)) <= m < j ==> !TestBit(seg.blockListSupported, m)
  {
    var h := BitsPer(Xor(U64Of(length - 1 + h0), h0));
    var cap := SpanCap(seg, h0, length);
    if Low(cap, j) == 0 {
      forall m | h <= m < j ensures !TestBit(seg.blockListSupported, m) {
        LowBit(cap, j, m);
        ZeroBit(m);
        CapBit(seg.blockListSupported, h, m);
      }
    } else {
      var k := PtLog2.Fls(Low(cap, j)) - 1;
      PtLog2.FlsSpec(Low(cap, j));
      LowBit(cap, j, k);
      CapBit(seg.blockListSupported, h, k);
    }
  }

  /**
   * Block size 2^j works for the list: the segment supports it, the span cap
   * allows it, and every entry fits blocks of that size.
   */
  predicate Candidate(seg: Segmentation, h0: u64, length: u64, es: seq<DmaEntry>, j: nat)
  {
    TestBit(seg.blockListSupported, j) && Low(SpanCap(seg, h0, length), j) == 0 && AlignedUpTo(h0, es, j, |es|)
  }

  /** One turn of the search loop keeps the mask's meaning. */
  lemma MaskStep(h0: u64, es: seq<DmaEntry>, i: nat, cap: nat, m: nat, m': nat)
    requires i < |es|
    requires forall j :: Low(m, j) == 0 <==> Low(cap, j) == 0 && AlignedUpTo(h0, es, j, i)
    requires m' == Or(if i > 0 then Or(m, Running(h0, es, i)) else m, Xor(es[i].dma, Running(h0, es, i)))
    ensures forall j :: Low(m', j) == 0 <==> Low(cap, j) == 0 && AlignedUpTo(h0, es, j, i + 1)
  {
    var h := Running(h0, es, i);
    var d := es[i].dma;
    var mid := if i > 0 then Or(m, h) else m;
    forall j ensures Low(m', j) == 0 <==> Low(cap, j) == 0 && AlignedUpTo(h0, es, j, i + 1) {
      LowOrZero(mid, Xor(d, h), j);
      LowXorZero(d, h, j);
      if i > 0 {
        LowOrZero(m, h, j);
      }
      assert AlignedUpTo(h0, es, j, i + 1) <==> AlignedUpTo(h0, es, j, i) && EntryAligned(h0, es, j, i);
    }
  }

  /** After the whole list, the mask's clear low bits are exactly the candidates among the supported sizes. */
  lemma CandidateIsMask(seg: Segmentation, h0: u64, length: u64, es: seq<DmaEntry>, mask: nat)
    requires forall j :: Low(mask, j) == 0 <==> Low(SpanCap(seg, h0, length), j) == 0 && AlignedUpTo(h0, es, j, |es|)
    ensures forall j: nat :: Candidate(seg, h0, length, es, j) <==> TestBit(seg.blockListSupported, j) && Low(mask, j) == 0
  {
  }

  /** What the search returns from a final mask: the top supported size at or below the mask's lowest set bit. */
  lemma PickIsBest(bitmap: nat, mask: nat, b: nat, r: nat)
    requires bitmap != 0
    requires b == if mask != 0 then And(bitmap, Pow2(PtLog2.Ffs(mask) + 1) - 1) else bitmap
    requires r == if b == 0 then 0 else Pow2(PtLog2.Fls(b) - 1)
    ensures r <= bitmap
    ensures r != 0 ==> r == Pow2(PtLog2.Fls(r) - 1) && TestBit(bitmap, PtLog2.Fls(r) - 1) && Low(mask, PtLog2.Fls(r) - 1) == 0
    ensures forall j: nat :: TestBit(bitmap, j) && Low(mask, j) == 0 ==> r != 0 && Pow2(j) <= r
  {
    if b != 0 {
      PickTop(bitmap, mask, b);
    }
    forall j: nat | TestBit(bitmap, j) && Low(mask, j) == 0 ensures r != 0 && Pow2(j) <= r {
      PickCovers(bitmap, mask, b, r, j);
    }
  }

  /** The top bit k of the cut bitmap b is a supported size, clear in the mask's low bits. */
  lemma PickTop(bitmap: nat, mask: nat, b: nat)
    requires b != 0
    requires b == if mask != 0 then And(bitmap, Pow2(PtLog2.Ffs(mask) + 1) - 1) else bitmap
    ensures var k := PtLog2.Fls(b) - 1;
      Pow2(k) <= bitmap && PtLog2.Fls(Pow2(k)) == k + 1 && TestBit(bitmap, k) && Low(mask, k) == 0
  {
    var k := PtLog2.Fls(b) - 1;
    PtLog2.FlsSpec(b);
    PtLog2.FlsUnique(Pow2(k), k + 1);
    if mask != 0 {
      CutBit(bitmap, mask, b, k);
    } else {
      LowOfSmall(0, k);
    }
  }

  /** A set bit k of the bitmap cut above the mask's lowest set bit is set in the bitmap and clear in the mask below. */
  lemma CutBit(bitmap: nat, mask: nat, b: nat, k: nat)
    requires mask != 0 && b == And(bitmap, Pow2(PtLog2.Ffs(mask) + 1) - 1) && TestBit(b, k)
    ensures b <= bitmap && TestBit(bitmap, k) && Low(mask, k) == 0
  {
    var f := PtLog2.Ffs(mask);
    AndMaxIsLow(bitmap, f + 1);
    AndBound(bitmap, Pow2(f + 1) - 1);
    LowBitSet(bitmap, f + 1, b, k);
    PtLog2.FfsSpec(mask);
    LowZeroBelow(mask, k, f);
  }

  /** A set bit of the low n bits of a is below n and set in a. */
  lemma LowBitSet(a: nat, n: nat, b: nat, k: nat)
    requires b == Low(a, n) && TestBit(b, k)
    ensures k < n && TestBit(a, k)
  {
    LowBit(a, n, k);
  }

  /** A supported size j whose low mask bits are clear is at most the picked size. */
  lemma PickCovers(bitmap: nat, mask: nat, b: nat, r: nat, j: nat)
    requires b == if mask != 0 then And(bitmap, Pow2(PtLog2.Ffs(mask) + 1) - 1) else bitmap
    requires r == if b == 0 then 0 else Pow2(PtLog2.Fls(b) - 1)
    requires TestBit(bitmap, j) && Low(mask, j) == 0
    ensures r != 0 && Pow2(j) <= r
  {
    if mask != 0 {
      MaskKeepsBit(bitmap, mask, j);
    }
    FlsCovers(b, j);
  }

  /** Cutting the bitmap above the mask's lowest set bit keeps every bit j with Low(mask, j) == 0. */
  lemma MaskKeepsBit(bitmap: nat, mask: nat, j: nat)
    requires mask != 0 && TestBit(bitmap, j) && Low(mask, j) == 0
    ensures TestBit(And(bitmap, Pow2(PtLog2.Ffs(mask) + 1) - 1), j)
  {
    var f := PtLog2.Ffs(mask);
    AndMaxIsLow(bitmap, f + 1);
    PtLog2.FfsSpec(mask);
    LowBit(mask, j, f);
    ZeroBit(f);
    LowBit(bitmap, f + 1, j);
  }

  /** A set bit j of b is at most the top one, 2^(fls(b) - 1). */
  lemma FlsCovers(b: nat, j: nat)
    requires TestBit(b, j)
    ensures b != 0 && Pow2(j) <= Pow2(PtLog2.Fls(b) - 1)
  {
    ZeroBit(j);
    PtLog2.FlsSpec(b);
    if j >= PtLog2.Fls(b) {
      HighBitClear(b, PtLog2.Fls(b), j);
    }
    Pow2Monotone(j, PtLog2.Fls(b) - 1);
  }

  /**
   * rlist_dma_find_best_blocksz over the entries es of the list and its
   * length: the largest block size whose blocks the list can be cut into,
   * or 0 when there is none (or nothing to start from).
   */
  method FindBestBlocksz(seg: Segmentation, es: seq<DmaEntry>, length: u64) returns (r: u64)
    ensures seg.blockListSupported == 0 ==> r == 0
    ensures !seg.hasBlockListHwva && es == [] ==> r == 0
    ensures seg.hasBlockListHwva || es != [] ==>
      (r != 0 ==> r == Pow2(PtLog2.Fls(r) - 1) && Candidate(seg, StartVa(seg, es), length, es, PtLog2.Fls(r) - 1)) &&
      (forall j: nat :: Candidate(seg, StartVa(seg, es), length, es, j) ==> r != 0 && Pow2(j) <= r)
  {
    var bitmap: nat := seg.blockListSupported;
    if bitmap == 0 {
      forall j ensures !TestBit(0, j) {
        ZeroBit(j);
      }
      return 0;
    }
    var hwva: u64 := seg.blockListHwva;
    if !seg.hasBlockListHwva {
      if es == [] {
        return 0;
      }
      hwva := es[0].dma;
    }
    var mask := AccumulateMask(seg, hwva, length, es);
    CandidateIsMask(seg, hwva, length, es, mask);
    if mask != 0 {
      bitmap := And(bitmap, Pow2(PtLog2.Ffs(mask) + 1) - 1);
    }
    ghost var r': nat := if bitmap == 0 then 0 else Pow2(PtLog2.Fls(bitmap) - 1);
    PickIsBest(seg.blockListSupported, mask, bitmap, r');
    if bitmap == 0 {
      r := 0;
    } else {
      r := Pow2(PtLog2.Fls(bitmap) - 1);
    }
  }

  /**
   * The loop of rlist_dma_find_best_blocksz: from the span cap, OR in every
   * bit where an entry's address and the running va differ, and the running
   * va itself before every entry after the first.
   */
  method AccumulateMask(seg: Segmentation, h0: u64, length: u64, es: seq<DmaEntry>) returns (mask: nat)
    ensures forall j :: Low(mask, j) == 0 <==> Low(SpanCap(seg, h0, length), j) == 0 && AlignedUpTo(h0, es, j, |es|)
  {
    ghost var cap := SpanCap(seg, h0, length);
    mask := SpanCap(seg, h0, length);
    var hwva := h0;
    var first := true;
    var i := 0;
    while i < |es|
      invariant 0 <= i <= |es| && first == (i == 0)
      invariant hwva == Running(h0, es, i)
      invariant forall j :: Low(mask, j) == 0 <==> Low(cap, j) == 0 && AlignedUpTo(h0, es, j, i)
    {
      ghost var m := mask;
      if !first {
        mask := Or(mask, hwva);
      } else {
        first := false;
      }
      mask := Or(mask, Xor(es[i].dma, hwva));
      MaskStep(h0, es, i, cap, m, mask);
      hwva := U64Of(hwva + es[i].length);
      i := i + 1;
    }
  }

  // ---- rlist_dma_block_offset and rlist_dma_num_blocks -----------------------

  /** rlist_dma_block_offset: how far into its block the first entry starts; 0 for an empty list. */
  function BlockOffset(first: Option<DmaEntry>, blocksz: u64): u64
  {
    match first
    case None => 0
    case Some(e) => Gap(e.dma, blocksz)
  }

  /** rlist_dma_num_blocks: ALIGN(length + leading gap, blocksz) / blocksz; 0 for an empty list. */
  function NumBlocks(first: Option<DmaEntry>, length: u64, blocksz: u64): nat
    requires first.Some? ==> blocksz > 0
  {
    match first
    case None => 0
    case Some(e) => Quot(Align(U64Of(length + Gap(e.dma, blocksz)), blocksz), blocksz)
  }

  /** For a power-of-two block size: the offset is the address mod the size, the count the ceiling of (length + gap) / size. */
  lemma NumBlocksCeil(first: Option<DmaEntry>, length: u64, b: u64, j: nat)
    requires b == Pow2(j)
    requires first.Some? ==> length + first.value.dma % b + b <= U64_LIMIT
    ensures first.None? ==> BlockOffset(first, b) == 0 && NumBlocks(first, length, b) == 0
    ensures first.Some? ==> BlockOffset(first, b) == first.value.dma % b
    ensures first.Some? ==> NumBlocks(first, length, b) == Ceil(length + first.value.dma % b, b)
  {
    if first.Some? {
      var e := first.value;
      GapIsMod(e.dma, b, j);
      Small64(length + e.dma % b);
      AlignIsCeil(length + e.dma % b, b, j);
      QuotIsDiv(Ceil(length + e.dma % b, b) * b, b);
      DivModUnique(Ceil(length + e.dma % b, b) * b, b, Ceil(length + e.dma % b, b), 0);
    }
  }

  // ---- set_first_block and the in-entry step --------------------------------

  /**
   * set_first_block: start the entry at its block and make its length the
   * offset of its last block, so that the iterator can step it down.
   */
  function SetFirstBlock(e: DmaEntry, blocksz: u64): DmaEntry
  {
    var gap := Gap(e.dma, blocksz);
    DmaEntry(U60Of(U64Of(Align(U64Of(e.length + gap), blocksz) - blocksz)), U64Of(e.dma - gap), e.priv)
  }

  /** The step of rlsdma_block_iter_next inside an entry: the next block. */
  function NextBlock(e: DmaEntry, blocksz: u64): DmaEntry
  {
    DmaEntry(U60Of(e.length - blocksz), U64Of(e.dma + blocksz), e.priv)
  }

  lemma MultipleStep(n: nat, b: nat)
    requires b > 0 && n % b == 0 && n > 0
    ensures n >= b && (n - b) % b == 0 && (n - b) / b + 1 == n / b
  {
    DivMul(n, b);
    var q := n / b;
    assert q >= 1;
    MulDistrib(q - 1, 1, b);
    DivModUnique(n - b, b, q - 1, 0);
  }

  /** The block addresses the iterator yields from an entry whose length is a multiple of the block size. */
  function BlockRun(e: DmaEntry, b: u64): seq<u64>
    requires b > 0 && e.length % b == 0
    decreases e.length
  {
    if e.length == 0 then [e.dma]
    else
      MultipleStep(e.length, b);
      [e.dma] + BlockRun(NextBlock(e, b), b)
  }

  /** The iterator's blocks from an entry are consecutive steps of b from its address. */
  lemma {:induction false} BlockRunIs(e: DmaEntry, b: u64)
    requires b > 0 && e.length % b == 0
    ensures BlockRun(e, b) == seq(e.length / b + 1, k => U64Of(e.dma + k * b))
    decreases e.length
  {
    if e.length != 0 {
      MultipleStep(e.length, b);
      var n := NextBlock(e, b);
      BlockRunIs(n, b);
      forall k | 0 <= k < e.length / b
        ensures U64Of(n.dma + k * b) == U64Of(e.dma + (k + 1) * b)
      {
        ModAdd(e.dma + b, k * b);
        MulDistrib(k, 1, b);
      }
    }
  }

  lemma ModLow(x: nat, n: nat, j: nat)
    requires j <= n
    ensures (x % Pow2(n)) % Pow2(j) == x % Pow2(j)
  {
    LowIsMod(x, n);
    LowIsMod(Low(x, n), j);
    LowIsMod(x, j);
    LowBound(x, n);
    LowBound(Low(x, n), j);
    LowBound(x, j);
    forall i | 0 <= i < j ensures TestBit(Low(Low(x, n), j), i) == TestBit(Low(x, j), i) {
      LowBit(Low(x, n), j, i);
      LowBit(x, n, i);
      LowBit(x, j, i);
    }
    BitsEqual(Low(Low(x, n), j), Low(x, j), j);
  }

  /** ALIGN by a power of two yields a multiple of it, whatever wrapped on the way. */
  lemma AlignMultiple(x: u64, a: u64, j: nat)
    requires a == Pow2(j)
    ensures Align(x, a) % a == 0
  {
    var y := U64Of(x + a - 1);
    WordMask(y, a, j);
    ShrLowDivMod(y, j);
    MultipleOfMultiple(Shr(y, j), a);
  }

  /** One block back from a multiple of a, then cut to the 60-bit field, is still a multiple of a. */
  lemma BackOneBlock(al: u64, a: u64, j: nat)
    requires a == Pow2(j) && j <= 60 && al % a == 0
    ensures U60Of(U64Of(al - a)) % a == 0
  {
    var d := U64Of(al - a);
    if al >= a {
      BackWithin(al, a);
    } else {
      DivModUnique(al, a, 0, al);
      BackWraps(a, j);
    }
    Pow2Is60();
    ModLow(d, 60, j);
  }

  lemma BackWithin(al: nat, a: nat)
    requires 0 < a <= al < U64_LIMIT && al % a == 0
    ensures U64Of(al - a) % a == 0
  {
    DivMul(al, a);
    var q := al / a;
    MulDistrib(q - 1, 1, a);
    Small64(al - a);
    MultipleOfMultiple(q - 1, a);
  }

  /** 0 - a wraps to 2^64 - a, a multiple of a. */
  lemma BackWraps(a: nat, j: nat)
    requires a == Pow2(j) && j <= 60
    ensures U64Of(0 - a) % a == 0
  {
    Pow2Add(64 - j, j);
    Pow2Monotone(0, 64 - j);
    Pow2Monotone(0, j);
    PtLog2.Pow2Words();
    BackWrapsArith(a, Pow2(64 - j));
  }

  /** BackWraps on plain numbers: 2^64 is m blocks of a, so 2^64 - a is m - 1 of them. */
  lemma BackWrapsArith(a: nat, m: nat)
    requires a >= 1 && m >= 1 && m * a == U64_LIMIT
    ensures U64Of(0 - a) % a == 0
  {
    ModShift(U64_LIMIT - a, 1);
    MulDistrib(m - 1, 1, a);
    MultipleOfMultiple(m - 1, a);
  }

  /** set_first_block leaves a length that is a multiple of any power-of-two block size up to 2^60. */
  lemma FirstBlockMultiple(e: DmaEntry, a: u64, j: nat)
    requires a == Pow2(j) && j <= 60
    ensures SetFirstBlock(e, a).length % a == 0
  {
    FirstBlockLength(U64Of(e.length + Gap(e.dma, a)), a, j);
  }

  /** x aligned up to a, one block back, cut to 60 bits: a multiple of a. */
  lemma FirstBlockLength(x: u64, a: u64, j: nat)
    requires a == Pow2(j) && j <= 60
    ensures U60Of(U64Of(Align(x, a) - a)) % a == 0
  {
    AlignMultiple(x, a, j);
    BackOneBlock(Align(x, a), a, j);
  }

  /** The blocks of a list at block size b == 2^j: each entry widened by set_first_block, then stepped. */
  function Blocks(ds: seq<DmaEntry>, b: u64, j: nat): seq<u64>
    requires b == Pow2(j) && j <= 60
  {
    if ds == [] then []
    else
      FirstBlockMultiple(ds[0], b, j);
      BlockRun(SetFirstBlock(ds[0], b), b) + Blocks(ds[1..], b, j)
  }

  /**
   * For one entry the iterator yields exactly ceil((length + gap) / b)
   * consecutive b-aligned blocks from the block holding the entry's start,
   * enough to cover its end; their number is rlist_dma_num_blocks.
   */
  lemma SingleEntryBlocks(e: DmaEntry, b: u64, j: nat)
    requires b == Pow2(j) && j <= 60 && e.length > 0
    requires e.length + b <= U60_LIMIT && e.dma + e.length <= U64_LIMIT
    ensures Blocks([e], b, j) == seq(Ceil(e.length + e.dma % b, b), k => e.dma - e.dma % b + k * b)
    ensures |Blocks([e], b, j)| == NumBlocks(Some(e), e.length, b)
    ensures Ceil(e.length + e.dma % b, b) * b >= e.length + e.dma % b
    ensures forall k | 0 <= k < |Blocks([e], b, j)| :: Blocks([e], b, j)[k] % b == 0
  {
    var gap := e.dma % b;
    var c := Ceil(e.length + gap, b);
    var s0 := e.dma - gap;
    SingleEntryRun(e, b, j, gap, c);
    var s := SetFirstBlock(e, b);
    FirstBlockMultiple(e, b, j);
    FloorMultiple(e.dma, b);
    RunSeq(s, b, c, s0, e.length + gap);
    assert Blocks([e], b, j) == BlockRun(s, b);
    NumBlocksCeil(Some(e), e.length, b, j);
  }

  /** The run from an aligned start with c - 1 blocks after it is c aligned addresses without wrap. */
  lemma RunSeq(s: DmaEntry, b: u64, c: nat, s0: nat, n: nat)
    requires b > 0 && s.length % b == 0 && s.dma == s0 && s.length / b + 1 == c
    requires s0 % b == 0 && (c - 1) * b < n && s0 + n <= U64_LIMIT
    ensures BlockRun(s, b) == seq(c, k => s0 + k * b)
    ensures forall k | 0 <= k < |BlockRun(s, b)| :: BlockRun(s, b)[k] % b == 0
  {
    BlockRunIs(s, b);
    forall k | 0 <= k < c ensures U64Of(s0 + k * b) == s0 + k * b && (s0 + k * b) % b == 0 {
      BlockAddr(s0, b, k, c, n);
    }
  }

  lemma FloorMultiple(x: nat, b: nat)
    requires b > 0
    ensures x % b <= x && (x - x % b) % b == 0
  {
    DivMul(x, b);
    MultipleOfMultiple(x / b, b);
  }

  /** Block k of c from an aligned start stays aligned and below the end. */
  lemma BlockAddr(s0: nat, b: nat, k: nat, c: nat, n: nat)
    requires b > 0 && s0 % b == 0 && k < c && (c - 1) * b < n && s0 + n <= U64_LIMIT
    ensures U64Of(s0 + k * b) == s0 + k * b && (s0 + k * b) % b == 0
  {
    MulMonotone(k, c - 1, b);
    Small64(s0 + k * b);
    MultipleSum(s0, b, k);
  }

  /** What set_first_block makes of one entry: its block start, and c - 1 whole blocks after it. */
  lemma SingleEntryRun(e: DmaEntry, b: u64, j: nat, gap: nat, c: nat)
    requires b == Pow2(j) && j <= 60 && e.length > 0
    requires e.length + b <= U60_LIMIT && e.dma + e.length <= U64_LIMIT
    requires gap == e.dma % b && c == Ceil(e.length + gap, b)
    ensures c >= 1 && c * b >= e.length + gap && (c - 1) * b < e.length + gap
    ensures SetFirstBlock(e, b).length == (c - 1) * b && SetFirstBlock(e, b).dma == e.dma - gap
    ensures ((c - 1) * b) / b + 1 == c
  {
    FloorMultiple(e.dma, b);
    Small64(e.dma - gap);
    GapIsMod(e.dma, b, j);
    var n := e.length + gap;
    Small64(n);
    Pow2Monotone(j, 60);
    Pow2Is60();
    AlignIsCeil(n, b, j);
    RunArith(n, b, c, Align(n, b));
  }

  lemma RunArith(n: nat, b: nat, c: nat, al: nat)
    requires al == c * b && n <= al < n + b && n > 0 && b > 0 && n < U60_LIMIT
    ensures c >= 1 && al - b == (c - 1) * b && al - b < n
    ensures U60Of(U64Of(al - b)) == al - b && ((c - 1) * b) / b == c - 1
  {
    MulDistrib(c - 1, 1, b);
    Small64(al - b);
    DivModUnique((c - 1) * b, b, c - 1, 0);
  }
}
