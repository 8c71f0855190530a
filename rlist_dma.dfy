// The DMA range list's value layer: rlist_dma_entry and its relative base,
// the segmentation rules a device states (struct rlist_dma_segmentation)
// and the segment count of a range, the HW block size search and block
// arithmetic, and the IOVA layout arithmetic of the IOMMU map helpers.
//
// Machine words are naturals below 2^64 and every C operation that can
// wrap is written with U64Of; the C bit operators are Bits' Or/And.

module RlistDmaFormat {
  import opened Errno
  import opened Bits
  import opened RlistFormat
  import opened RlistCpuFormat
  import PtLog2

  /** enum rlist_dma_types */
  const DMA_RELATIVE: u2 := 0
  const DMA_ABSOLUTE: u2 := 1
  /** RSIOVA_PRIV_P2P: dma_map_ops_priv of an entry the IOMMU did not map. */
  const PRIV_P2P: u32 := 1

  const U64_MAX: u64 := 0xFFFF_FFFF_FFFF_FFFF

  type u62 = x: nat | x < 0x4000_0000_0000_0000

  /** What an unsigned 64-bit computation leaves: the value modulo 2^64. */
  function U64Of(x: int): u64
  {
    x % U64_LIMIT
  }

  /** What assignment to the 60-bit length field leaves. */
  function U60Of(x: int): u60
  {
    x % U60_LIMIT
  }

  function Min(a: nat, b: nat): nat
  {
    if a <= b then a else b
  }

  function Max(a: nat, b: nat): nat
  {
    if a >= b then a else b
  }

  // ---- struct rlist_dma_entry ---------------------------------------------

  /** The driver's view of an entry: length, dma_address, dma_map_ops_priv. */
  datatype DmaEntry = DmaEntry(length: u60, dma: u64, priv: u32)

  /** The entry rlsdma_append stores: base = dma_address - rdma->base, RELATIVE. */
  function RelativeEntry(base: u64, dma: u64, length: u64, priv: u32): (e: Entry)
    ensures e.kind == DMA_RELATIVE && e.length == length % U60_LIMIT && e.extra == priv
    ensures (e.base + base) % U64_LIMIT == dma
  {
    Entry(DMA_RELATIVE, U60Of(length), U64Of(dma - base), 0, priv)
  }

  /** The entry rlsdma_append_no_base stores: the address itself, ABSOLUTE. */
  function AbsoluteEntry(dma: u64, length: u64, priv: u32): (e: Entry)
    ensures e.kind == DMA_ABSOLUTE && e.base == dma && e.length == length % U60_LIMIT && e.extra == priv
  {
    Entry(DMA_ABSOLUTE, U60Of(length), dma, 0, priv)
  }

  /** rlsdma_decode: a RELATIVE entry's address is base + rdma->base (mod 2^64). */
  function DecodeDma(base: u64, e: Entry): DmaEntry
  {
    DmaEntry(e.length, if e.kind == DMA_RELATIVE then U64Of(e.base + base) else e.base, e.extra)
  }

  function DecodeAllDma(base: u64, es: seq<Entry>): (ds: seq<DmaEntry>)
    ensures |ds| == |es|
    ensures forall i | 0 <= i < |es| :: ds[i] == DecodeDma(base, es[i])
  {
    if es == [] then [] else [DecodeDma(base, es[0])] + DecodeAllDma(base, es[1..])
  }

  /** Whatever rdma->base is, an appended entry reads back as appended. */
  lemma AppendedReadBack(base: u64, dma: u64, length: u64, priv: u32)
    ensures DecodeDma(base, RelativeEntry(base, dma, length, priv)) == DmaEntry(length % U60_LIMIT, dma, priv)
    ensures DecodeDma(base, AbsoluteEntry(dma, length, priv)) == DmaEntry(length % U60_LIMIT, dma, priv)
  {
  }

  /**
   * Changing rdma->base from b1 to b2 moves every RELATIVE entry by b2 - b1
   * (mod 2^64) and leaves every ABSOLUTE one where it was.
   */
  lemma RebaseMoves(b1: u64, b2: u64, e: Entry)
    ensures e.kind == DMA_RELATIVE ==> DecodeDma(b2, e).dma == U64Of(DecodeDma(b1, e).dma + b2 - b1)
    ensures e.kind != DMA_RELATIVE ==> DecodeDma(b2, e) == DecodeDma(b1, e)
    ensures DecodeDma(b2, e).length == e.length && DecodeDma(b2, e).priv == e.extra
  {
    if e.kind == DMA_RELATIVE {
      var x := e.base + b1;
      assert U64Of(x) + b2 - b1 == x + b2 - b1 - (x / U64_LIMIT) * U64_LIMIT;
      ModShift(x + b2 - b1, x / U64_LIMIT);
    }
  }

  lemma ModShift(y: int, q: int)
    ensures (y - q * U64_LIMIT) % U64_LIMIT == y % U64_LIMIT
  {
  }

  // ---- struct rlist_dma_segmentation ----------------------------------------

  datatype Segmentation = Segmentation(
    minAlignMask: u64,
    boundaryMask: u64,
    maxSegmentSize: u64,
    blockListSupported: u62,
    hasBlockListHwva: bool,
    blockListHwva: u64)

  /** rlist_no_segmentation: no boundary, no size limit. */
  const NoSegmentation: Segmentation := Segmentation(0, U64_MAX, U64_MAX, 0, false, 0)

  /** A boundary mask of the form 2^k - 1: windows of 2^k bytes (k == 64: no boundary). */
  predicate WindowMask(mask: u64, k: nat)
  {
    k <= 64 && mask + 1 == Pow2(k)
  }

  /** Unsigned division n / d, by repeated subtraction. */
  function Quot(n: nat, d: nat): nat
    requires d > 0
    decreases n
  {
    if n < d then 0 else 1 + Quot(n - d, d)
  }

  lemma {:induction false} QuotIsDiv(n: nat, d: nat)
    requires d > 0
    ensures Quot(n, d) == n / d
    decreases n
  {
    if n >= d {
      QuotIsDiv(n - d, d);
      DivMul(n - d, d);
      MulDistrib((n - d) / d, 1, d);
      DivModUnique(n, d, (n - d) / d + 1, (n - d) % d);
    } else {
      DivModUnique(n, d, 0, n);
    }
  }

  /** DIV_ROUND_UP on an unsigned long: (n + d - 1) / d, the sum wrapping. */
  function DivRoundUp(n: u64, d: u64): nat
    requires d > 0
  {
    Quot(U64Of(n + d - 1), d)
  }

  /** The exact ceiling of n / d. */
  function Ceil(n: nat, d: nat): nat
    requires d > 0
  {
    Quot(n + d - 1, d)
  }

  /** ~mask on a 64-bit word. */
  function Complement(mask: u64): u64
  {
    U64_MAX - mask
  }

  /**
   * The number of pieces [start, start + length) makes when it is cut at
   * every multiple of the window w and each piece into max-sized segments.
   */
  function SegCount(start: nat, length: nat, w: nat, max: nat): nat
    requires w > 0 && max > 0
    decreases length
  {
    if length == 0 then 0
    else
      var piece := Min(length, w - start % w);
      Ceil(piece, max) + SegCount(start + piece, length - piece, w, max)
  }

  /**
   * rlist_dma_num_segments as written: ceil(length / max) when
   * start & mask == end & mask, else first + boundary * boundaries + last.
   * None where it divides by zero (a zero max_segment_size, or mask + 1
   * wrapping to 0).
   */
  function NumSegmentsAsWritten(seg: Segmentation, start: u64, length: u64): Option<nat>
  {
    var mask := seg.boundaryMask;
    var max := seg.maxSegmentSize;
    var end := U64Of(start + length);
    if max == 0 then None
    else if And(start, mask) == And(end, mask) then Some(DivRoundUp(length, max))
    else if U64Of(mask + 1) == 0 then None
    else Some(Pieces(mask, max, start, end))
  }

  /** The crossing branch of rlist_dma_num_segments, summed in a size_t. */
  function Pieces(mask: u64, max: u64, start: u64, end: u64): nat
    requires max > 0 && U64Of(mask + 1) != 0
  {
    U64Of(FirstSegs(mask, max, start) + BoundarySegs(mask, max) * Boundaries(mask, start, end) + LastSegs(mask, max, end))
  }

  /** The start of the window after start's: (start | mask) + 1. */
  function NextWindow(mask: u64, start: u64): u64
  {
    U64Of(Or(start, mask) + 1)
  }

  /** first_segs: the bytes up to the next window start. */
  function FirstSegs(mask: u64, max: u64, start: u64): nat
    requires max > 0
  {
    DivRoundUp(U64Of(NextWindow(mask, start) - start), max)
  }

  /** boundary_segs: one whole window. */
  function BoundarySegs(mask: u64, max: u64): nat
    requires max > 0
  {
    DivRoundUp(U64Of(mask + 1), max)
  }

  /** last_segs: the bytes from end's window start to end. */
  function LastSegs(mask: u64, max: u64, end: u64): nat
    requires max > 0
  {
    DivRoundUp(U64Of(end - And(end, Complement(mask))), max)
  }

  /** num_boundaries: the whole windows between. */
  function Boundaries(mask: u64, start: u64, end: u64): nat
    requires U64Of(mask + 1) != 0
  {
    Quot(U64Of(And(end, Complement(mask)) - NextWindow(mask, start)), U64Of(mask + 1))
  }

  /**
   * rlist_dma_num_segments with the same-window test comparing the window
   * bits (start & ~mask == end & ~mask) as the arithmetic after it
   * requires. A zero max_segment_size stays the caller's to exclude.
   */
  function NumSegments(seg: Segmentation, start: u64, length: u64): nat
    requires seg.maxSegmentSize > 0
  {
    var mask := seg.boundaryMask;
    var max := seg.maxSegmentSize;
    var end := U64Of(start + length);
    if And(start, Complement(mask)) == And(end, Complement(mask)) then DivRoundUp(length, max)
    else Pieces(mask, max, start, end)
  }

  // ---- bit facts for window masks -------------------------------------------

  /** x | (2^k - 1) sets the low k bits: the last byte of x's window. */
  lemma OrLowOnes(x: nat, k: nat)
    ensures Or(x, Pow2(k) - 1) == x - Low(x, k) + Pow2(k) - 1
  {
    OrOnes(x, k, Pow2(k) - 1);
  }

  /** OrLowOnes with the mask m = 2^k - 1 named. */
  lemma {:induction false} OrOnes(x: nat, k: nat, m: nat)
    requires m + 1 == Pow2(k)
    ensures Or(x, m) == x - Low(x, k) + m
    decreases k
  {
    LowBound(x, k);
    if x != 0 && k != 0 {
      var m' := Pow2(k - 1) - 1;
      assert m == 2 * m' + 1;
      assert m / 2 == m' && m % 2 == 1;
      OrOnes(x / 2, k - 1, m');
      assert Low(x, k) == 2 * Low(x / 2, k - 1) + x % 2;
      assert x == 2 * (x / 2) + x % 2;
    }
  }

  /** x & (2^w - 2^k) clears the low k bits of a w-bit x: the start of its window. */
  lemma {:induction false} AndHighMask(x: nat, w: nat, k: nat)
    requires x < Pow2(w) && k <= w
    ensures Pow2(k) <= Pow2(w) && And(x, Pow2(w) - Pow2(k)) == x - Low(x, k)
    decreases k
  {
    Pow2Monotone(k, w);
    LowBound(x, k);
    if k == 0 {
      AndMaxIsLow(x, w);
      LowOfSmall(x, w);
    } else if k == w {
      LowOfSmall(x, w);
    } else if x != 0 {
      Pow2StrictMonotone(k, w);
      assert (Pow2(w) - Pow2(k)) / 2 == Pow2(w - 1) - Pow2(k - 1);
      AndHighMask(x / 2, w - 1, k - 1);
    }
  }

  /**
   * With a window mask of 2^k, x is window Shr(x, k) at offset Low(x, k);
   * the mask gives the offset, its complement the window's start, and x | mask
   * the window's last byte.
   */
  lemma WindowSplit(x: u64, mask: u64, k: nat)
    requires WindowMask(mask, k)
    ensures x == Shr(x, k) * Pow2(k) + Low(x, k) && Low(x, k) < Pow2(k)
    ensures And(x, mask) == Low(x, k)
    ensures And(x, Complement(mask)) == Shr(x, k) * Pow2(k)
    ensures Or(x, mask) == Shr(x, k) * Pow2(k) + Pow2(k) - 1
  {
    PtLog2.Pow2Words();
    ShrLowDivMod(x, k);
    AndMaxIsLow(x, k);
    AndHighMask(x, 64, k);
    assert Complement(mask) == Pow2(64) - Pow2(k);
    assert And(x, Complement(mask)) == x - Low(x, k);
    OrLowOnes(x, k);
  }

  // ---- ceilings --------------------------------------------------------------

  lemma CeilSplit(a: nat, b: nat, d: nat)
    requires d > 0
    ensures Ceil(a + b, d) <= Ceil(a, d) + Ceil(b, d)
  {
    QuotIsDiv(a + d - 1, d);
    QuotIsDiv(b + d - 1, d);
    QuotIsDiv(a + b + d - 1, d);
    DivMul(a + d - 1, d);
    DivMul(b + d - 1, d);
    DivMul(a + b + d - 1, d);
    var qa, qb, q := Ceil(a, d), Ceil(b, d), Ceil(a + b, d);
    assert qa * d >= a && qb * d >= b;
    assert q * d <= a + b + d - 1;
    if q > qa + qb {
      MulMonotone(qa + qb + 1, q, d);
      MulDistrib(qa + qb, 1, d);
      MulDistrib(qa, qb, d);
    }
  }

  /** Cutting at window boundaries never makes fewer segments than length alone. */
  lemma {:induction false} SegCountAtLeast(start: nat, length: nat, w: nat, max: nat)
    requires w > 0 && max > 0
    ensures SegCount(start, length, w, max) >= Ceil(length, max)
    ensures SegCount(start, length, w, max) <= length
    decreases length
  {
    if length > 0 {
      var piece := Min(length, w - start % w);
      SegCountAtLeast(start + piece, length - piece, w, max);
      CeilSplit(piece, length - piece, max);
      CeilAtMost(piece, max);
    }
  }

  lemma CeilAtMost(n: nat, d: nat)
    requires d > 0 && n > 0
    ensures Ceil(n, d) <= n
  {
    QuotIsDiv(n + d - 1, d);
    var q := Ceil(n, d);
    DivMul(n + d - 1, d);
    if q > n {
      MulMonotone(n + 1, q, d);
      MulDistrib(n, 1, d);
      MulMonotone(1, d, n);
      assert false;
    }
  }

  /** The offset of a * w + r in its window of w bytes is r. */
  lemma OffsetOf(a: nat, r: nat, w: nat)
    requires r < w
    ensures (a * w + r) % w == r
  {
    DivModUnique(a * w + r, w, a, r);
  }

  /** From a window start, n whole windows then a tail of t bytes. */
  lemma {:induction false} SegCountWhole(q: nat, n: nat, t: nat, w: nat, max: nat)
    requires t < w && max > 0
    ensures SegCount(q * w, n * w + t, w, max) == n * Ceil(w, max) + Ceil(t, max)
    decreases n
  {
    OffsetOf(q, 0, w);
    if n == 0 {
      if t > 0 {
        assert SegCount(q * w, t, w, max) == Ceil(t, max) + SegCount(q * w + t, 0, w, max);
      }
    } else {
      MulDistrib(n - 1, 1, w);
      assert n * w + t >= w;
      assert SegCount(q * w, n * w + t, w, max) == Ceil(w, max) + SegCount(q * w + w, (n - 1) * w + t, w, max);
      MulDistrib(q, 1, w);
      SegCountWhole(q + 1, n - 1, t, w, max);
      MulDistrib(n - 1, 1, Ceil(w, max));
    }
  }

  /** A range inside one window is one piece. */
  lemma SameWindowCount(a: nat, r: nat, e: nat, w: nat, max: nat)
    requires max > 0 && r <= e < w
    ensures SegCount(a * w + r, e - r, w, max) == Ceil(e - r, max)
  {
    OffsetOf(a, r, w);
    if e > r {
      assert SegCount(a * w + r, e - r, w, max) == Ceil(e - r, max) + SegCount(a * w + e, 0, w, max);
    }
  }

  /** Window a's start lies a whole window or more below window b's start. */
  lemma WindowGap(a: nat, b: nat, w: nat)
    requires a < b
    ensures a * w + w <= b * w && b * w - (a * w + w) == (b - a - 1) * w
  {
    MulMonotone(a + 1, b, w);
    MulDistrib(a, 1, w);
    MulDistrib(b - a - 1, a + 1, w);
  }

  /**
   * A range from offset r of window a to offset e of a later window b: the
   * piece up to the next window start, b - a - 1 whole windows, the tail.
   */
  lemma CrossCount(start: nat, length: nat, a: nat, r: nat, b: nat, e: nat, w: nat, max: nat)
    requires max > 0 && r < w && e < w && a < b
    requires start == a * w + r && start + length == b * w + e
    ensures SegCount(start, length, w, max) == Ceil(w - r, max) + (b - a - 1) * Ceil(w, max) + Ceil(e, max)
  {
    WindowGap(a, b, w);
    OffsetOf(a, r, w);
    assert SegCount(start, length, w, max) == Ceil(w - r, max) + SegCount(a * w + w, length - (w - r), w, max);
    MulDistrib(a, 1, w);
    SegCountWhole(a + 1, b - a - 1, e, w, max);
  }

  /** DIV_ROUND_UP is the ceiling while n + d - 1 fits in the word. */
  lemma DivRoundUpIsCeil(n: u64, d: u64)
    requires d > 0 && n + d <= U64_LIMIT
    ensures DivRoundUp(n, d) == Ceil(n, d)
  {
  }

  /**
   * With a window mask of 2^k and a positive max_segment_size, the corrected
   * count is the number of pieces the range makes, when the range does not
   * wrap and DIV_ROUND_UP does not overflow.
   */
  lemma NumSegmentsCounts(seg: Segmentation, k: nat, start: u64, length: u64)
    requires WindowMask(seg.boundaryMask, k) && seg.maxSegmentSize > 0
    requires start + length < U64_LIMIT && length + seg.maxSegmentSize <= U64_LIMIT
    ensures NumSegments(seg, start, length) == SegCount(start, length, Pow2(k), seg.maxSegmentSize)
  {
    var mask, max, w := seg.boundaryMask, seg.maxSegmentSize, Pow2(k);
    var end := start + length;
    Small64(start + length);
    SegCountAtLeast(start, length, w, max);
    WindowSplit(start, mask, k);
    WindowSplit(end, mask, k);
    var a, r, b, e := Shr(start, k), Low(start, k), Shr(end, k), Low(end, k);
    if a == b {
      NumSegmentsSame(seg, start, length, a, r, e, w);
    } else {
      if w == U64_LIMIT {
        LowOfSmall(start, k);
        LowOfSmall(end, k);
        assert false;
      }
      if b < a {
        WindowGap(b, a, w);
        assert false;
      }
      NumSegmentsCross(seg, start, length, a, r, b, e, w);
    }
  }

  /** NumSegmentsCounts within one window, from the window decomposition of both ends. */
  lemma NumSegmentsSame(seg: Segmentation, start: u64, length: u64, a: nat, r: nat, e: nat, w: nat)
    requires seg.maxSegmentSize > 0 && length + seg.maxSegmentSize <= U64_LIMIT
    requires start + length < U64_LIMIT && r < w && e < w
    requires start == a * w + r && start + length == a * w + e
    requires And(start, Complement(seg.boundaryMask)) == And(start + length, Complement(seg.boundaryMask))
    ensures NumSegments(seg, start, length) == SegCount(start, length, w, seg.maxSegmentSize)
  {
    Small64(start + length);
    SameWindowCount(a, r, e, w, seg.maxSegmentSize);
    DivRoundUpIsCeil(length, seg.maxSegmentSize);
  }

  /** NumSegmentsCounts across a boundary, from the window decomposition of both ends. */
  lemma NumSegmentsCross(seg: Segmentation, start: u64, length: u64, a: nat, r: nat, b: nat, e: nat, w: nat)
    requires seg.boundaryMask + 1 == w && w < U64_LIMIT && seg.maxSegmentSize > 0
    requires start + length < U64_LIMIT && length + seg.maxSegmentSize <= U64_LIMIT
    requires r < w && e < w && a < b && start == a * w + r && start + length == b * w + e
    requires Or(start, seg.boundaryMask) == a * w + w - 1
    requires And(start, Complement(seg.boundaryMask)) == a * w
    requires And(start + length, Complement(seg.boundaryMask)) == b * w
    requires SegCount(start, length, w, seg.maxSegmentSize) <= length
    ensures NumSegments(seg, start, length) == SegCount(start, length, w, seg.maxSegmentSize)
  {
    var mask, max := seg.boundaryMask, seg.maxSegmentSize;
    var end := start + length;
    Small64(end);
    WindowGap(a, b, w);
    CrossCount(start, length, a, r, b, e, w, max);
    WholeWindows(b - a - 1, w);
    CrossPieces(mask, max, start, end, r, e, w, a * w, b * w, (b - a - 1) * w, b - a - 1);
    Small64(SegCount(start, length, w, max));
  }

  lemma Small64(x: int)
    requires 0 <= x < U64_LIMIT
    ensures U64Of(x) == x
  {
  }

  lemma Small60(x: int)
    requires 0 <= x < U60_LIMIT
    ensures U60Of(x) == x
  {
  }

  /**
   * The terms of Pieces for a range from offset r of the window at aw to
   * offset e of the window at bw, with nw bytes of n whole windows between.
   */
  lemma CrossPieces(mask: u64, max: u64, start: u64, end: u64, r: nat, e: nat, w: nat, aw: nat, bw: nat, nw: nat, n: nat)
    requires max > 0 && mask + 1 == w && w < U64_LIMIT && r < w && e < w
    requires start == aw + r && end == bw + e && aw + w + nw == bw
    requires Quot(nw, w) == n && (n != 0 ==> w <= nw)
    requires end - start + max <= U64_LIMIT
    requires Or(start, mask) == aw + w - 1 && And(end, Complement(mask)) == bw
    ensures Pieces(mask, max, start, end) == U64Of(Ceil(w - r, max) + n * Ceil(w, max) + Ceil(e, max))
  {
    FirstTerm(mask, max, start, r, w, aw);
    LastTerm(mask, max, end, e, bw);
    BoundaryTerm(mask, max, start, end, w, aw, bw, nw, n);
    SumOfTerms(FirstSegs(mask, max, start), BoundarySegs(mask, max), Boundaries(mask, start, end), LastSegs(mask, max, end),
               Ceil(w - r, max), Ceil(w, max), n, Ceil(e, max));
  }

  lemma FirstTerm(mask: u64, max: u64, start: u64, r: nat, w: nat, aw: nat)
    requires max > 0 && mask + 1 == w && r < w && start == aw + r && aw + w < U64_LIMIT && w - r + max <= U64_LIMIT
    requires Or(start, mask) == aw + w - 1
    ensures NextWindow(mask, start) == aw + w && FirstSegs(mask, max, start) == Ceil(w - r, max)
  {
    Small64(Or(start, mask) + 1);
    Small64(aw + w - start);
    DivRoundUpIsCeil(w - r, max);
  }

  lemma LastTerm(mask: u64, max: u64, end: u64, e: nat, bw: nat)
    requires max > 0 && end == bw + e && e + max <= U64_LIMIT && And(end, Complement(mask)) == bw
    ensures LastSegs(mask, max, end) == Ceil(e, max)
  {
    Small64(end - bw);
    DivRoundUpIsCeil(e, max);
  }

  lemma BoundaryTerm(mask: u64, max: u64, start: u64, end: u64, w: nat, aw: nat, bw: nat, nw: nat, n: nat)
    requires max > 0 && mask + 1 == w && w < U64_LIMIT && aw + w + nw == bw && bw < U64_LIMIT
    requires NextWindow(mask, start) == aw + w && And(end, Complement(mask)) == bw
    requires Quot(nw, w) == n && (n != 0 ==> w + max <= U64_LIMIT)
    ensures Boundaries(mask, start, end) == n
    ensures n != 0 ==> BoundarySegs(mask, max) == Ceil(w, max)
  {
    Small64(mask + 1);
    Small64(bw - (aw + w));
    if n != 0 {
      DivRoundUpIsCeil(w, max);
    }
  }

  lemma SumOfTerms(f: nat, b: nat, n: nat, l: nat, f': nat, b': nat, n': nat, l': nat)
    requires f == f' && n == n' && l == l' && (n != 0 ==> b == b')
    ensures f + b * n + l == f' + n' * b' + l'
  {
  }

  /** n whole windows of w bytes: nw / w == n. */
  lemma WholeWindows(n: nat, w: nat)
    requires w > 0
    ensures Quot(n * w, w) == n && (n != 0 ==> w <= n * w)
  {
    DivModUnique(n * w, w, n, 0);
    QuotIsDiv(n * w, w);
    if n != 0 {
      MulMonotone(1, n, w);
    }
  }

  // ---- the same-window test as written ---------------------------------------

  /** A 64 KiB boundary and 64 KiB segments. */
  const SEG_64K: Segmentation := Segmentation(0, 0xFFFF, 0x1_0000, 0, false, 0)

  /**
   * Under rlist_no_segmentation (mask ULONG_MAX) an entry of any nonzero
   * length fails the same-window test as written and reaches the division
   * by mask + 1, which is 0; the corrected test keeps every entry in the
   * one window.
   */
  lemma NoSegmentationDividesByZero(start: u64, length: u64)
    requires length > 0
    ensures NumSegmentsAsWritten(NoSegmentation, start, length) == None
    ensures And(start, Complement(U64_MAX)) == And(U64Of(start + length), Complement(U64_MAX))
  {
    var end := U64Of(start + length);
    WholeWord(start);
    WholeWord(end);
    assert end != start;
  }

  /** x & ULONG_MAX == x, and x & ~ULONG_MAX == 0. */
  lemma WholeWord(x: u64)
    ensures And(x, U64_MAX) == x && And(x, Complement(U64_MAX)) == 0
  {
    PtLog2.Pow2Words();
    AndMaxIsLow(x, 64);
    LowOfSmall(x, 64);
  }

  /** As written, ends at the same offset of their windows count as one window. */
  lemma SameOffsetAsWritten(seg: Segmentation, k: nat, start: u64, length: u64)
    requires WindowMask(seg.boundaryMask, k) && seg.maxSegmentSize > 0 && start + length < U64_LIMIT
    requires start % Pow2(k) == (start + length) % Pow2(k)
    ensures NumSegmentsAsWritten(seg, start, length) == Some(DivRoundUp(length, seg.maxSegmentSize))
  {
    Small64(start + length);
    SameOffsetAnd(seg.boundaryMask, k, start, start + length);
  }

  /** Addresses at the same offset of their windows agree under the window mask. */
  lemma SameOffsetAnd(mask: u64, k: nat, a: u64, b: u64)
    requires WindowMask(mask, k) && a % Pow2(k) == b % Pow2(k)
    ensures And(a, mask) == And(b, mask)
  {
    LowIsMod(a, k);
    LowIsMod(b, k);
    WindowSplit(a, mask, k);
    WindowSplit(b, mask, k);
  }

  /**
   * As written, a range crossing two 64 KiB boundaries whose ends have the
   * same offset in their windows (0x100 bytes in, 0x2_0000 bytes long)
   * counts as 2 segments; it makes 3.
   */
  lemma CrossingMissed(seg: Segmentation, start: u64, length: u64)
    requires seg == SEG_64K && start == 0x100 && length == 0x2_0000
    ensures NumSegmentsAsWritten(seg, start, length) == Some(2)
    ensures NumSegments(seg, start, length) == SegCount(start, length, 0x1_0000, 0x1_0000) == 3
  {
    var w := 0x1_0000;
    Pow2Is64K();
    SameOffsetAsWritten(seg, 16, start, length);
    Small64(length + w - 1);
    CeilIs(length, w, 2, w - 1);
    CrossCount(start, length, 0, 0x100, 2, 0x100, w, w);
    CeilIs(w - 0x100, w, 1, w - 0x101);
    CeilIs(w, w, 1, w - 1);
    CeilIs(0x100, w, 1, 0xFF);
    NumSegmentsCounts(seg, 16, start, length);
  }

  /** The ceiling of n / d is q when n + d - 1 == q * d + rem with rem < d. */
  lemma CeilIs(n: nat, d: nat, q: nat, rem: nat)
    requires d > 0 && n + d - 1 == q * d + rem && rem < d
    ensures Ceil(n, d) == q
  {
    QuotIsDiv(n + d - 1, d);
    DivModUnique(n + d - 1, d, q, rem);
  }

  /**
   * As written, a range inside one window whose ends differ in offset takes
   * the crossing branch, where the window count (end's window start less
   * the next window's start, over the window) wraps to 2^64 / w - 1.
   */
  lemma InWindowPieces(mask: u64, max: u64, start: u64, end: u64, r: nat, e: nat, w: nat, aw: nat)
    requires max > 0 && mask + 1 == w && w < U64_LIMIT && r < w && e < w
    requires start == aw + r && end == aw + e && aw + w < U64_LIMIT
    requires Or(start, mask) == aw + w - 1 && And(end, Complement(mask)) == aw
    requires w - r + max <= U64_LIMIT && e + max <= U64_LIMIT && w + max <= U64_LIMIT
    ensures Pieces(mask, max, start, end) == U64Of(Ceil(w - r, max) + Ceil(w, max) * Quot(U64_LIMIT - w, w) + Ceil(e, max))
  {
    Small64(mask + 1);
    FirstTerm(mask, max, start, r, w, aw);
    LastTerm(mask, max, end, e, aw);
    WrappedBoundaries(mask, start, end, w, aw);
    DivRoundUpIsCeil(w, max);
    PiecesOf(mask, max, start, end, Ceil(w - r, max), Ceil(w, max), Quot(U64_LIMIT - w, w), Ceil(e, max));
  }

  /** Pieces from the values of its four terms. */
  lemma PiecesOf(mask: u64, max: u64, start: u64, end: u64, f: nat, b: nat, n: nat, l: nat)
    requires max > 0 && U64Of(mask + 1) != 0
    requires FirstSegs(mask, max, start) == f && BoundarySegs(mask, max) == b
    requires Boundaries(mask, start, end) == n && LastSegs(mask, max, end) == l
    ensures Pieces(mask, max, start, end) == U64Of(f + b * n + l)
  {
  }

  /** Boundaries when end's window start is the window before start's next. */
  lemma WrappedBoundaries(mask: u64, start: u64, end: u64, w: nat, aw: nat)
    requires mask + 1 == w && w < U64_LIMIT && aw + w < U64_LIMIT
    requires NextWindow(mask, start) == aw + w && And(end, Complement(mask)) == aw
    ensures Boundaries(mask, start, end) == Quot(U64_LIMIT - w, w)
  {
    Small64(mask + 1);
    assert aw - (aw + w) == (U64_LIMIT - w) - 1 * U64_LIMIT;
    ModShift(U64_LIMIT - w, 1);
  }

  /**
   * So 0x100 bytes at 0x100, inside one 64 KiB window, count as
   * 2^48 + 1 segments as written; they make one.
   */
  lemma InWindowOvercounted(seg: Segmentation, start: u64, length: u64)
    requires seg == SEG_64K && start == 0x100 && length == 0x100
    ensures NumSegmentsAsWritten(seg, start, length) == Some(0x1_0000_0000_0001)
    ensures NumSegments(seg, start, length) == SegCount(start, length, 0x1_0000, 0x1_0000) == 1
  {
    Pow2Is64K();
    InWindowAsWritten(seg, start, start + length);
    NumSegmentsCounts(seg, 16, start, length);
    SameWindowCount(0, 0x100, 0x200, 0x1_0000, 0x1_0000);
    CeilIs(0x100, 0x1_0000, 1, 0xFF);
  }

  lemma InWindowAsWritten(seg: Segmentation, start: u64, end: u64)
    requires seg == SEG_64K && start == 0x100 && end == 0x200
    ensures NumSegmentsAsWritten(seg, start, end - start) == Some(0x1_0000_0000_0001)
  {
    InWindowEnds(seg.boundaryMask, start, end);
    InWindowCount(seg.boundaryMask, 0x1_0000, 0xFFFF_FFFF_FFFF, start, end);
  }

  /**
   * The crossing branch's sum for [r, e) inside the first window w, where
   * 2^64 is n + 1 windows: first, boundary and last take one segment of w
   * each and the wrapped window count is n, so the sum is n + 2.
   */
  lemma InWindowCount(mask: u64, w: nat, n: nat, start: u64, end: u64)
    requires mask + 1 == w && 1 <= n && (n + 1) * w == U64_LIMIT && n + 2 < U64_LIMIT
    requires 0 < start < w && 0 < end < w
    requires Or(start, mask) == w - 1 && And(end, Complement(mask)) == 0
    ensures Pieces(mask, w, start, end) == n + 2
  {
    MulDistrib(n, 1, w);
    MulMonotone(2, n + 1, w);
    assert w + w <= U64_LIMIT;
    InWindowPieces(mask, w, start, end, start, end, w, 0);
    CeilIs(w - start, w, 1, w - start - 1);
    CeilIs(w, w, 1, w - 1);
    CeilIs(end, w, 1, end - 1);
    QuotIsDiv(U64_LIMIT - w, w);
    DivModUnique(U64_LIMIT - w, w, n, 0);
    Small64(n + 2);
  }

  /** The bit facts of 0x100 and 0x200 under a 64 KiB window mask. */
  lemma InWindowEnds(mask: u64, start: u64, end: u64)
    requires mask == 0xFFFF && start == 0x100 && end == 0x200
    ensures And(start, mask) == 0x100 && And(end, mask) == 0x200
    ensures Or(start, mask) == 0xFFFF && And(end, Complement(mask)) == 0
  {
    Pow2Is64K();
    WindowSplit(start, mask, 16);
    WindowSplit(end, mask, 16);
    LowOfSmall(start, 16);
    LowOfSmall(end, 16);
  }

  // ---- rlist_cpu_num_segments and rlist_dma_segmentation_ok ------------------

  /** rlist_cpu_num_segments: the count of the entry's physical range. */
  function CpuNumSegments(seg: Segmentation, mm: MemMap, e: Entry): nat
    requires seg.maxSegmentSize > 0
  {
    NumSegments(seg, Wrap64(Physical(mm, e)), e.length)
  }

  /**
   * rlist_dma_segmentation_ok as written, on the entry's physical address
   * phys: false when the addresses differ under min_align_mask, true when
   * dma and dma + length agree under the boundary mask, else whether the
   * CPU range makes at least as many segments as the DMA range. None where
   * a count divides by zero.
   */
  function SegmentationOkAsWritten(seg: Segmentation, phys: u64, dma: u64, length: u60): Option<bool>
  {
    if And(phys, seg.minAlignMask) != And(dma, seg.minAlignMask) then Some(false)
    else if And(dma, seg.boundaryMask) == And(U64Of(dma + length), seg.boundaryMask) then Some(true)
    else match (NumSegmentsAsWritten(seg, phys, length), NumSegmentsAsWritten(seg, dma, length))
      case (Some(c), Some(d)) => Some(c >= d)
      case _ => None
  }

  /** rlist_dma_segmentation_ok with the corrected same-window test and count. */
  function SegmentationOk(seg: Segmentation, phys: u64, dma: u64, length: u60): bool
    requires seg.maxSegmentSize > 0
  {
    if And(phys, seg.minAlignMask) != And(dma, seg.minAlignMask) then false
    else if And(dma, Complement(seg.boundaryMask)) == And(U64Of(dma + length), Complement(seg.boundaryMask)) then true
    else NumSegments(seg, phys, length) >= NumSegments(seg, dma, length)
  }

  /** rlist_dma_segmentation_ok of a CPU entry: its physical address is phys. */
  function EntrySegmentationOk(seg: Segmentation, mm: MemMap, e: Entry, dma: u64): bool
    requires seg.maxSegmentSize > 0
  {
    SegmentationOk(seg, Wrap64(Physical(mm, e)), dma, e.length)
  }

  /**
   * Every DMA mapping of a nonempty entry under rlist_no_segmentation
   * divides by zero as written; corrected, every mapping is accepted.
   */
  lemma NoSegmentationCheckTraps(phys: u64, dma: u64, length: u60)
    requires length > 0
    ensures SegmentationOkAsWritten(NoSegmentation, phys, dma, length) == None
    ensures SegmentationOk(NoSegmentation, phys, dma, length)
  {
    NoSegmentationDividesByZero(dma, length);
    NoSegmentationDividesByZero(phys, length);
    WholeWord(dma);
    WholeWord(U64Of(dma + length));
  }

  /**
   * For windows of 2^k bytes and ranges that do not wrap, the corrected
   * check accepts dma exactly when it keeps the address bits under
   * min_align_mask and does not make more segments than the CPU range.
   */
  lemma SegmentationOkIff(seg: Segmentation, k: nat, phys: u64, dma: u64, length: u60)
    requires WindowMask(seg.boundaryMask, k) && seg.maxSegmentSize > 0
    requires phys + length < U64_LIMIT && dma + length < U64_LIMIT
    requires length + seg.maxSegmentSize <= U64_LIMIT
    ensures SegmentationOk(seg, phys, dma, length) <==>
              And(phys, seg.minAlignMask) == And(dma, seg.minAlignMask) &&
              SegCount(dma, length, Pow2(k), seg.maxSegmentSize) <= SegCount(phys, length, Pow2(k), seg.maxSegmentSize)
  {
    var w, max := Pow2(k), seg.maxSegmentSize;
    NumSegmentsCounts(seg, k, phys, length);
    NumSegmentsCounts(seg, k, dma, length);
    if And(dma, Complement(seg.boundaryMask)) == And(U64Of(dma + length), Complement(seg.boundaryMask)) {
      SameWindowFewest(seg, k, phys, dma, length);
    }
  }

  /** Within one window the DMA range makes the fewest segments possible. */
  lemma SameWindowFewest(seg: Segmentation, k: nat, phys: u64, dma: u64, length: u60)
    requires WindowMask(seg.boundaryMask, k) && seg.maxSegmentSize > 0
    requires dma + length < U64_LIMIT && length + seg.maxSegmentSize <= U64_LIMIT
    requires And(dma, Complement(seg.boundaryMask)) == And(U64Of(dma + length), Complement(seg.boundaryMask))
    requires NumSegments(seg, dma, length) == SegCount(dma, length, Pow2(k), seg.maxSegmentSize)
    ensures SegCount(dma, length, Pow2(k), seg.maxSegmentSize) <= SegCount(phys, length, Pow2(k), seg.maxSegmentSize)
  {
    SegCountAtLeast(phys, length, Pow2(k), seg.maxSegmentSize);
    DivRoundUpIsCeil(length, seg.maxSegmentSize);
  }
}
