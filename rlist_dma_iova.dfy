// The IOVA layout a DMA range list is built on (rlist_dma_state_iova): the
// padding that keeps segment counts (pad_iova), the page-sized mapping of
// each CPU entry (fill_iova_map), the alignment the IOVA allocation must
// honour (rsiova_alignment, rsiova_set_iova), the min_align_mask check of
// rsiova_init, and the range the unmap iterators report for a DMA entry.

module RlistDmaIova {
  import opened Errno
  import opened Bits
  import opened RlistFormat
  import opened RlistCpuFormat
  import opened RlistDmaFormat
  import opened RlistDmaBlocks
  import PtLog2

  // ---- roundup_pow_of_two and rsiova_alignment ------------------------------

  /** roundup_pow_of_two(n): 1 << fls_long(n - 1), the subtraction wrapping. */
  function RoundupPow2(n: u64): nat
  {
    Pow2(PtLog2.Fls(U64Of(n - 1)))
  }

  /** For 0 < n the result is the least power of two at or above n; up to 2^63 for n up to 2^63. */
  lemma RoundupPow2Spec(n: u64)
    requires 0 < n
    ensures n <= RoundupPow2(n) < 2 * n
    ensures n <= Pow2(63) ==> RoundupPow2(n) <= Pow2(63)
  {
    Small64(n - 1);
    var f := PtLog2.Fls(n - 1);
    PtLog2.FlsSpec(n - 1);
    if n >= 2 {
      assert Pow2(f) == 2 * Pow2(f - 1);
    }
    if n <= Pow2(63) {
      if f > 63 {
        Pow2Monotone(63, f - 1);
      } else {
        Pow2Monotone(f, 63);
      }
    }
  }

  /**
   * rsiova_alignment: the page size when there is no boundary, else the
   * larger of the page size and the length rounded up to a power of two,
   * capped at the boundary window.
   */
  function Alignment(seg: Segmentation, pgsize: u64, length: u64): (r: u64)
    ensures pgsize > 0 ==> r > 0
  {
    if seg.boundaryMask == U64_MAX then pgsize
    else Min(Max(pgsize, RoundupPow2(length)), seg.boundaryMask + 1)
  }

  /** The WARN_ON of rsiova_set_iova as written: it fires on an aligned IOVA. */
  predicate SetIovaWarnsAsWritten(alignment: u64, iova: u64)
    requires alignment > 0
  {
    iova % alignment == 0
  }

  /** The WARN_ON of rsiova_set_iova as the comment above rsiova_alignment asks: on a misaligned IOVA. */
  predicate SetIovaWarns(alignment: u64, iova: u64)
    requires alignment > 0
  {
    iova % alignment != 0
  }

  /** As written, the WARN_ON warns on IOVA 0, which every alignment accepts. */
  lemma SetIovaWarnsOnZero(alignment: u64)
    requires alignment > 0
    ensures SetIovaWarnsAsWritten(alignment, 0) && !SetIovaWarns(alignment, 0)
  {
  }

  /**
   * The layout is computed from IOVA 0. Placed at an IOVA aligned to
   * rsiova_alignment, every range [s, s + l) inside the layout's length
   * makes as many segments as it made at 0.
   */
  lemma AlignedIovaKeepsSegments(seg: Segmentation, k: nat, pgsize: u64, p: nat, length: u64, iova: u64, s: nat, l: nat)
    requires WindowMask(seg.boundaryMask, k) && k < 64 && seg.maxSegmentSize > 0
    requires pgsize == Pow2(p) && 0 < length <= Pow2(63)
    requires iova % Alignment(seg, pgsize, length) == 0
    requires s + l <= length
    ensures SegCount(iova + s, l, Pow2(k), seg.maxSegmentSize) == SegCount(s, l, Pow2(k), seg.maxSegmentSize)
  {
    var w, max := Pow2(k), seg.maxSegmentSize;
    SmallPow2(k);
    RoundupPow2Spec(length);
    var big := RoundupPow2(length);
    var e := if pgsize >= big then p else PtLog2.Fls(U64Of(length - 1));
    var m := Max(pgsize, big);
    assert m == Pow2(e);
    if m >= w {
      assert Alignment(seg, pgsize, length) == w;
      WindowAligned(iova, w, s, l, max);
    } else {
      assert Alignment(seg, pgsize, length) == m;
      if e >= k {
        Pow2Monotone(k, e);
      }
      Pow2Add(k - e, e);
      BlockAligned(iova, m, Pow2(k - e), w, s, l, max);
    }
  }

  /** At a multiple of the window, a range makes the pieces it makes at 0. */
  lemma WindowAligned(iova: nat, w: nat, s: nat, l: nat, max: nat)
    requires w > 0 && max > 0 && iova % w == 0
    ensures SegCount(iova + s, l, w, max) == SegCount(s, l, w, max)
  {
    DivMul(iova, w);
    SegCountShift(s, l, w, max, iova / w);
  }

  /**
   * At a multiple of a block m that divides the window, a range inside the
   * first block stays inside one window.
   */
  lemma BlockAligned(iova: nat, m: nat, c: nat, w: nat, s: nat, l: nat, max: nat)
    requires m > 0 && c > 0 && w == c * m && max > 0 && iova % m == 0 && s + l <= m && m < w
    ensures SegCount(iova + s, l, w, max) == SegCount(s, l, w, max)
  {
    if l > 0 {
      DivMul(iova, m);
      SubWindowMod(iova / m, m, c, s);
      InWindowCount(iova + s, l, w, max);
      DivModUnique(s, w, 0, s);
      InWindowCount(s, l, w, max);
    }
  }

  /** Shifting a range by whole windows changes none of its pieces. */
  lemma {:induction false} SegCountShift(start: nat, l: nat, w: nat, max: nat, q: nat)
    requires w > 0 && max > 0
    ensures SegCount(start + q * w, l, w, max) == SegCount(start, l, w, max)
    decreases l
  {
    DivMul(start, w);
    MulDistrib(start / w, q, w);
    DivModUnique(start + q * w, w, start / w + q, start % w);
    if l > 0 {
      var piece := Min(l, w - start % w);
      SegCountShift(start + piece, l - piece, w, max, q);
      assert start + q * w + piece == start + piece + q * w;
    }
  }

  /** A range that ends at or before the end of its window is one piece. */
  lemma InWindowCount(start: nat, l: nat, w: nat, max: nat)
    requires w > 0 && max > 0 && start % w + l <= w
    ensures SegCount(start, l, w, max) == Ceil(l, max)
  {
    if l > 0 {
      assert SegCount(start, l, w, max) == Ceil(l, max) + SegCount(start + l, 0, w, max);
    }
  }

  /** Offset s into block q of size m, inside a window of c blocks: the offset in the window, and room to its end. */
  lemma SubWindowMod(q: nat, m: nat, c: nat, s: nat)
    requires m > 0 && c > 0 && s < m
    ensures (q * m + s) % (c * m) == (q % c) * m + s
    ensures (q % c) * m + m <= c * m
  {
    DivMul(q, c);
    MulDistrib((q / c) * c, q % c, m);
    MulAssoc(q / c, c, m);
    MulMonotone(q % c + 1, c, m);
    MulDistrib(q % c, 1, m);
    DivModUnique(q * m + s, c * m, q / c, (q % c) * m + s);
  }

  /** The corrected warning stays silent exactly on the IOVAs whose placement keeps every count. */
  lemma SilentSetIovaKeepsSegments(seg: Segmentation, k: nat, pgsize: u64, p: nat, length: u64, iova: u64, s: nat, l: nat)
    requires WindowMask(seg.boundaryMask, k) && k < 64 && seg.maxSegmentSize > 0
    requires pgsize == Pow2(p) && 0 < length <= Pow2(63)
    requires !SetIovaWarns(Alignment(seg, pgsize, length), iova)
    requires s + l <= length
    ensures SegCount(iova + s, l, Pow2(k), seg.maxSegmentSize) == SegCount(s, l, Pow2(k), seg.maxSegmentSize)
  {
    AlignedIovaKeepsSegments(seg, k, pgsize, p, length, iova, s, l);
  }

  // ---- the min_align_mask check of rsiova_init ------------------------------

  /** rsiova_init refuses a page size that shares bits with min_align_mask. */
  function InitCheck(pgsize: u64, seg: Segmentation): Status
  {
    if And(pgsize, seg.minAlignMask) != 0 then Failure(EINVAL) else Success
  }

  /**
   * For a page size 2^p and a min_align_mask 2^m - 1, the min_align_mask check of rsiova_init passes
   * exactly when m <= p, and then addresses congruent modulo the page size
   * agree under min_align_mask.
   */
  lemma InitCheckMeaning(seg: Segmentation, pgsize: u64, p: nat, m: nat, x: u64, y: u64)
    requires pgsize == Pow2(p) && seg.minAlignMask + 1 == Pow2(m)
    ensures InitCheck(pgsize, seg) == Success <==> m <= p
    ensures InitCheck(pgsize, seg) == Success && x % pgsize == y % pgsize ==>
              And(x, seg.minAlignMask) == And(y, seg.minAlignMask)
  {
    AndMaxIsLow(pgsize, m);
    LowIsMod(pgsize, m);
    if m <= p {
      Pow2Add(p - m, m);
      ModOfMultiple(Pow2(p - m), m);
      AndMaxIsLow(x, m);
      AndMaxIsLow(y, m);
      LowIsMod(x, m);
      LowIsMod(y, m);
      ModLow(x, p, m);
      ModLow(y, p, m);
    } else {
      Pow2StrictMonotone(p, m);
      DivModUnique(pgsize, Pow2(m), 0, pgsize);
    }
  }

  // ---- pad_iova ---------------------------------------------------------------

  /**
   * pad_iova as written: cur_iova moves up by phys's offset in its page;
   * if the entry's ends differ under the boundary mask and the DMA range
   * would make more segments than the CPU range, it is aligned up to the
   * boundary window and moved by the offset again. None where a count
   * divides by zero.
   */
  function PadIovaAsWritten(seg: Segmentation, pgsize: u64, cur: u64, phys: u64, length: u60): Option<u64>
    requires pgsize > 0
  {
    var mask := seg.boundaryMask;
    var c := U64Of(cur + Gap(phys, pgsize));
    if And(c, mask) == And(U64Of(c + length), mask) then Some(c)
    else match (NumSegmentsAsWritten(seg, phys, length), NumSegmentsAsWritten(seg, c, length))
      case (Some(cpu), Some(dma)) => Some(if cpu < dma then U64Of(Align(c, U64Of(mask + 1)) + Gap(phys, pgsize)) else c)
      case _ => None
  }

  /** pad_iova with the corrected same-window test and count. */
  function PadIova(seg: Segmentation, pgsize: u64, cur: u64, phys: u64, length: u60): u64
    requires pgsize > 0 && seg.maxSegmentSize > 0
  {
    var c := U64Of(cur + Gap(phys, pgsize));
    Padded(c, seg.boundaryMask, Gap(phys, pgsize), NeedsPad(seg, c, phys, length))
  }

  /** c, or when pad is set, c aligned up to the window mask + 1 and moved by gap. */
  function Padded(c: u64, mask: u64, gap: u64, pad: bool): u64
  {
    if pad then U64Of(Align(c, U64Of(mask + 1)) + gap) else c
  }

  /**
   * The corrected pad_iova moves the IOVA c to the next window when the
   * entry's ends at c lie in different windows and the DMA range would
   * make more segments than the CPU range.
   */
  predicate NeedsPad(seg: Segmentation, c: u64, phys: u64, length: u60)
    requires seg.maxSegmentSize > 0
  {
    var mask := seg.boundaryMask;
    And(c, Complement(mask)) != And(U64Of(c + length), Complement(mask))
    && NumSegments(seg, phys, length) < NumSegments(seg, c, length)
  }

  /**
   * From a page-aligned cur_iova the padded IOVA has phys's offset in the
   * page, whether or not it was moved to the next boundary window (at
   * least a page wide), and whatever wrapped.
   */
  lemma PadIovaCongruent(seg: Segmentation, k: nat, pgsize: u64, p: nat, cur: u64, phys: u64, length: u60)
    requires seg.maxSegmentSize > 0 && pgsize == Pow2(p)
    requires WindowMask(seg.boundaryMask, k) && p <= k
    requires cur % pgsize == 0
    ensures PadIova(seg, pgsize, cur, phys, length) % pgsize == phys % pgsize
  {
    if k == 64 {
      NoBoundaryCongruent(seg, pgsize, p, cur, phys, length);
    } else {
      var gap := Gap(phys, pgsize);
      var c := U64Of(cur + gap);
      OffsetIntoPage(pgsize, p, cur, phys);
      PaddedEitherWay(c, seg.boundaryMask, k, pgsize, p, gap, NeedsPad(seg, c, phys, length));
    }
  }

  /** PadIovaCongruent without a boundary: only the page offset is added. */
  lemma NoBoundaryCongruent(seg: Segmentation, pgsize: u64, p: nat, cur: u64, phys: u64, length: u60)
    requires seg.maxSegmentSize > 0 && pgsize == Pow2(p) && WindowMask(seg.boundaryMask, 64)
    requires cur % pgsize == 0
    ensures PadIova(seg, pgsize, cur, phys, length) % pgsize == phys % pgsize
  {
    OffsetIntoPage(pgsize, p, cur, phys);
    PtLog2.Pow2Words();
    NoBoundaryNoPad(seg, pgsize, cur, phys, length);
  }

  /** Below a 2^64 window, padded or not, an IOVA gap into its page stays gap into its page. */
  lemma PaddedEitherWay(c: u64, mask: u64, k: nat, pgsize: u64, p: nat, gap: u64, pad: bool)
    requires WindowMask(mask, k) && k < 64 && pgsize == Pow2(p) && p <= k
    requires gap < pgsize && c % pgsize == gap
    ensures Padded(c, mask, gap, pad) % pgsize == gap
  {
    if pad {
      SmallPow2(k);
      Small64(mask + 1);
      var w := U64Of(mask + 1);
      assert Padded(c, mask, gap, pad) == U64Of(Align(c, w) + gap);
      PaddedCongruent(c, w, k, pgsize, p, gap);
    }
  }

  /** Without a boundary the corrected pad_iova only moves cur_iova by the page offset. */
  lemma NoBoundaryNoPad(seg: Segmentation, pgsize: u64, cur: u64, phys: u64, length: u60)
    requires pgsize > 0 && seg.maxSegmentSize > 0 && seg.boundaryMask == U64_MAX
    ensures PadIova(seg, pgsize, cur, phys, length) == U64Of(cur + Gap(phys, pgsize))
  {
    var c := U64Of(cur + Gap(phys, pgsize));
    assert Complement(seg.boundaryMask) == 0;
    assert And(c, 0) == 0 == And(U64Of(c + length), 0);
  }

  /** Moving a page-aligned cur_iova by phys's page offset gives it that offset. */
  lemma OffsetIntoPage(pgsize: u64, p: nat, cur: u64, phys: u64)
    requires pgsize == Pow2(p) && cur % pgsize == 0
    ensures Gap(phys, pgsize) == phys % pgsize < pgsize
    ensures U64Of(cur + Gap(phys, pgsize)) % pgsize == phys % pgsize
  {
    PowWord(pgsize, p);
    var gap := Gap(phys, pgsize);
    GapIsMod(phys, pgsize, p);
    ModWord(cur + gap, pgsize, p);
    AddGap(cur, gap, pgsize);
  }

  /** Aligned up to a window of 2^k >= the page size, then moved by gap, the IOVA is gap into its page. */
  lemma PaddedCongruent(c: u64, w: u64, k: nat, pgsize: u64, p: nat, gap: nat)
    requires w == Pow2(k) && pgsize == Pow2(p) && p <= k && gap < pgsize
    ensures U64Of(Align(c, w) + gap) % pgsize == gap
  {
    PowWord(pgsize, p);
    var al := Align(c, w);
    AlignMultiple(c, w, k);
    AlignedDown(al, k, p);
    ModWord(al + gap, pgsize, p);
    AddGap(al, gap, pgsize);
  }

  /** Wrapping to 64 bits keeps the remainder modulo a power of two up to 2^64. */
  lemma ModWord(x: nat, d: nat, p: nat)
    requires d == Pow2(p) && p <= 64
    ensures U64Of(x) % d == x % d
  {
    PtLog2.Pow2Words();
    ModLow(x, 64, p);
  }

  /** A multiple of d plus a remainder below d leaves that remainder. */
  lemma AddGap(base: nat, gap: nat, d: nat)
    requires d > 0 && base % d == 0 && gap < d
    ensures (base + gap) % d == gap
  {
    DivMul(base, d);
    DivModUnique(base + gap, d, base / d, gap);
  }

  /**
   * A 64 KiB boundary, 0x100-byte pages: the CPU range of 0x2_0000 bytes at
   * 0x2_0000 makes 2 segments. Placed at 0x100 it makes 3, and its ends
   * have the same offset in their windows, so pad_iova as written leaves it
   * there and the corrected segmentation check then refuses it; the
   * corrected padding moves it to 0x1_0000, which the segmentation check accepts.
   */
  lemma PadMissesCrossing(seg: Segmentation, pgsize: u64, cur: u64, phys: u64, length: u60)
    requires seg == SEG_64K && pgsize == 0x100 && cur == 0x100 && phys == 0x2_0000 && length == 0x2_0000
    ensures PadIovaAsWritten(seg, pgsize, cur, phys, length) == Some(0x100)
    ensures !SegmentationOk(seg, phys, 0x100, length)
    ensures PadIova(seg, pgsize, cur, phys, length) == 0x1_0000
    ensures SegmentationOk(seg, phys, 0x1_0000, length)
  {
    Pow2Is256();
    GapIsMod(phys, pgsize, 8);
    PadAsWrittenStays(seg, pgsize, cur, phys, length);
    PadMoves(seg, pgsize, cur, phys, length);
    CheckAt(seg, phys, length);
  }

  lemma PadAsWrittenStays(seg: Segmentation, pgsize: u64, cur: u64, phys: u64, length: u60)
    requires seg.boundaryMask == 0xFFFF && pgsize == 0x100 && cur == 0x100 && Gap(phys, pgsize) == 0 && length == 0x2_0000
    ensures PadIovaAsWritten(seg, pgsize, cur, phys, length) == Some(0x100)
  {
    var c := U64Of(cur + Gap(phys, pgsize));
    Small64(cur);
    assert c == 0x100;
    Small64(c + length);
    var end := U64Of(c + length);
    assert end == 0x2_0100;
    assert c % 0x1_0000 == 0x100 == end % 0x1_0000;
    Window64K(c);
    Window64K(end);
    assert And(c, 0xFFFF) == And(end, 0xFFFF);
    SameOffsetStays(seg, pgsize, cur, phys, length);
  }

  /** pad_iova as written leaves cur_iova at phys's page offset when the ends agree under the mask. */
  lemma SameOffsetStays(seg: Segmentation, pgsize: u64, cur: u64, phys: u64, length: u60)
    requires pgsize > 0
    requires var c := U64Of(cur + Gap(phys, pgsize));
      And(c, seg.boundaryMask) == And(U64Of(c + length), seg.boundaryMask)
    ensures PadIovaAsWritten(seg, pgsize, cur, phys, length) == Some(U64Of(cur + Gap(phys, pgsize)))
  {
  }

  lemma PadMoves(seg: Segmentation, pgsize: u64, cur: u64, phys: u64, length: u60)
    requires seg == SEG_64K && pgsize == 0x100 && cur == 0x100 && phys == 0x2_0000 && Gap(phys, pgsize) == 0
    requires length == 0x2_0000
    ensures PadIova(seg, pgsize, cur, phys, length) == 0x1_0000
  {
    var w := 0x1_0000;
    Small64(cur + Gap(phys, pgsize));
    var c := U64Of(cur + Gap(phys, pgsize));
    assert c == 0x100;
    Small64(c + length);
    var end := U64Of(c + length);
    assert end == 0x2_0100;
    Small64(seg.boundaryMask + 1);
    assert U64Of(seg.boundaryMask + 1) == w;
    Pow2Is64K();
    AlignIsCeil(c, w, 16);
    CeilIs(c, w, 1, 0xFF);
    assert Align(c, w) == w;
    Window64K(c);
    Window64K(end);
    CrossingMissed(seg, c, length);
    AlignedCount(seg, 2, phys, length);
    CrossMoves(seg, pgsize, cur, phys, length);
  }

  /** pad_iova (corrected) moves to the next window when the entry crosses one and the move saves a segment. */
  lemma CrossMoves(seg: Segmentation, pgsize: u64, cur: u64, phys: u64, length: u60)
    requires pgsize > 0 && seg.maxSegmentSize > 0
    requires NeedsPad(seg, U64Of(cur + Gap(phys, pgsize)), phys, length)
    ensures PadIova(seg, pgsize, cur, phys, length) ==
            U64Of(Align(U64Of(cur + Gap(phys, pgsize)), U64Of(seg.boundaryMask + 1)) + Gap(phys, pgsize))
  {
    PaddedIf(U64Of(cur + Gap(phys, pgsize)), seg.boundaryMask, Gap(phys, pgsize), NeedsPad(seg, U64Of(cur + Gap(phys, pgsize)), phys, length));
  }

  /** Padded with pad set is the aligned and moved IOVA. */
  lemma PaddedIf(c: u64, mask: u64, gap: u64, pad: bool)
    requires pad
    ensures Padded(c, mask, gap, pad) == U64Of(Align(c, U64Of(mask + 1)) + gap)
  {
  }

  /** The corrected check refuses the range at 0x100 and accepts it at 0x1_0000. */
  lemma CheckAt(seg: Segmentation, phys: u64, length: u60)
    requires seg == SEG_64K && phys == 0x2_0000 && length == 0x2_0000
    ensures !SegmentationOk(seg, phys, 0x100, length)
    ensures SegmentationOk(seg, phys, 0x1_0000, length)
  {
    Window64K(0x100);
    Window64K(0x2_0100);
    Window64K(0x1_0000);
    Window64K(0x3_0000);
    CrossingMissed(seg, 0x100, length);
    AlignedCount(seg, 2, phys, length);
    AlignedCount(seg, 1, 0x1_0000, length);
  }

  /** Under the 64 KiB mask: the offset in the window, and the window's start. */
  lemma Window64K(x: u64)
    ensures And(x, 0xFFFF) == x % 0x1_0000
    ensures And(x, Complement(0xFFFF)) == x - x % 0x1_0000
  {
    Pow2Is64K();
    WindowSplit(x, 0xFFFF, 16);
    WordMask(x, 0x1_0000, 16);
    LowIsMod(x, 16);
  }

  /** Two whole 64 KiB windows from window q's start make two 64 KiB segments. */
  lemma AlignedCount(seg: Segmentation, q: nat, start: u64, length: u64)
    requires seg == SEG_64K && q <= 2 && start == q * 0x1_0000 && length == 0x2_0000
    ensures NumSegments(seg, start, length) == 2
  {
    Pow2Is64K();
    NumSegmentsCounts(seg, 16, start, length);
    TwoWindows(q, 0x1_0000);
  }

  /** Two whole windows from a window's start are two segments of the window's size. */
  lemma TwoWindows(q: nat, w: nat)
    requires w > 0
    ensures SegCount(q * w, 2 * w, w, w) == 2
  {
    SegCountWhole(q, 2, 0, w, w);
    CeilIs(w, w, 1, w - 1);
    CeilIs(0, w, 0, w - 1);
  }

  // ---- fill_iova_map ----------------------------------------------------------

  /** A contiguous IOMMU mapping: rlist_dma_iova_map. */
  datatype IovaMap = IovaMap(iova: u64, phys: u64, length: u64)

  /**
   * fill_iova_map: the mapping of [phys, phys + length) at cur_iova, whole
   * pages from phys's page to the page holding its last byte, and the
   * cur_iova after it.
   */
  function FillIovaMap(pgsize: u64, cur: u64, phys: u64, length: u64): (r: (IovaMap, u64))
    ensures r.0.phys <= phys
  {
    var offset := Gap(phys, pgsize);
    AndBound(phys, U64Of(pgsize - 1));
    var len := Align(U64Of(length + offset), pgsize);
    (IovaMap(U64Of(cur - offset), phys - offset, len), U64Of(cur + len))
  }

  /**
   * When cur_iova has phys's offset in the page (what pad_iova leaves),
   * the mapping is page aligned on both sides, covers the entry with less
   * than a page to spare, puts phys at cur_iova, and cur_iova advances by
   * exactly its length.
   */
  lemma FillIovaMapCovers(pgsize: u64, p: nat, cur: u64, phys: u64, length: u64)
    requires pgsize == Pow2(p) && length + 2 * pgsize <= U64_LIMIT
    requires cur % pgsize == phys % pgsize
    ensures var m := FillIovaMap(pgsize, cur, phys, length).0;
      m.phys == phys - phys % pgsize && m.phys % pgsize == 0 &&
      m.iova == cur - cur % pgsize && m.iova % pgsize == 0 &&
      m.length == Ceil(length + phys % pgsize, pgsize) * pgsize && m.length % pgsize == 0 &&
      phys + length <= m.phys + m.length < phys + length + pgsize &&
      m.iova + (phys - m.phys) == cur
    ensures FillIovaMap(pgsize, cur, phys, length).1 == U64Of(cur + FillIovaMap(pgsize, cur, phys, length).0.length)
  {
    PowWord(pgsize, p);
    GapIsMod(phys, pgsize, p);
    var offset := phys % pgsize;
    MapLength(length, offset, pgsize, p);
    PageDown(phys, pgsize);
    PageDown(cur, pgsize);
    Small64(cur - offset);
  }

  /** x rounded down to a multiple of d is one. */
  lemma PageDown(x: nat, d: nat)
    requires d > 0
    ensures x % d <= x && (x - x % d) % d == 0
  {
    DivMul(x, d);
    MultipleOfMultiple(x / d, d);
  }

  /** ALIGN(length + offset, pgsize) with room above: whole pages covering length + offset, less than a page over. */
  lemma MapLength(length: u64, offset: nat, pgsize: u64, p: nat)
    requires pgsize == Pow2(p) && offset < pgsize && length + 2 * pgsize <= U64_LIMIT
    ensures var len := Align(U64Of(length + offset), pgsize);
      len == Ceil(length + offset, pgsize) * pgsize && len % pgsize == 0 &&
      length + offset <= len < length + offset + pgsize
  {
    Small64(length + offset);
    AlignIsCeil(length + offset, pgsize, p);
    MultipleOfMultiple(Ceil(length + offset, pgsize), pgsize);
  }

  /**
   * As written, cur_iova advances by map.length from the unaligned cur_iova:
   * with 4 KiB pages, an entry 0x100 into its page and 0xF00 long leaves
   * cur_iova at 0x1100, so the next pad_iova starts off a page boundary
   * (its WARN_ON fires) and the next mapping is not page aligned; the
   * mapping itself ends at 0x1000.
   */
  lemma FillLeavesOffset(pgsize: u64, cur: u64, phys: u64, length: u64)
    requires pgsize == 0x1000 && cur == 0x100 && phys == 0x1100 && length == 0xF00
    ensures FillIovaMap(pgsize, cur, phys, length).0.iova == 0
    ensures FillIovaMap(pgsize, cur, phys, length).0.length == 0x1000
    ensures FillIovaMap(pgsize, cur, phys, length).1 == 0x1100
    ensures FillIovaMapAligned(pgsize, cur, phys, length).1 == 0x1000
  {
    Pow2Is4K();
    FillOnePage(pgsize, 12, cur, phys, length);
  }

  /** An entry that ends on the first page boundary above cur_iova < pgsize maps exactly that page. */
  lemma FillOnePage(pgsize: u64, p: nat, cur: u64, phys: u64, length: u64)
    requires pgsize == Pow2(p) && cur < pgsize && phys % pgsize == cur && cur + length == pgsize
    requires 3 * pgsize <= U64_LIMIT
    ensures FillIovaMap(pgsize, cur, phys, length).0.iova == 0
    ensures FillIovaMap(pgsize, cur, phys, length).0.length == pgsize
    ensures FillIovaMap(pgsize, cur, phys, length).1 == cur + pgsize
    ensures FillIovaMapAligned(pgsize, cur, phys, length).1 == pgsize
  {
    DivModUnique(cur, pgsize, 0, cur);
    FillOnePageMap(pgsize, p, cur, phys, length);
    FillIovaMapAlignedNext(pgsize, p, cur, phys, length);
    OnePageEnd(pgsize, cur, length);
  }

  /** The mapping half of FillOnePage. */
  lemma FillOnePageMap(pgsize: u64, p: nat, cur: u64, phys: u64, length: u64)
    requires pgsize == Pow2(p) && cur < pgsize && phys % pgsize == cur && cur % pgsize == cur && cur + length == pgsize
    requires 3 * pgsize <= U64_LIMIT
    ensures FillIovaMap(pgsize, cur, phys, length).0.iova == 0
    ensures FillIovaMap(pgsize, cur, phys, length).0.length == pgsize
    ensures FillIovaMap(pgsize, cur, phys, length).1 == cur + pgsize
  {
    var r := FillIovaMap(pgsize, cur, phys, length);
    FillIovaMapCovers(pgsize, p, cur, phys, length);
    OnePageArith(pgsize, cur, length, phys % pgsize, r.0.iova, r.0.length);
  }

  /** The arithmetic of FillOnePage, on plain numbers. */
  lemma OnePageArith(pgsize: nat, cur: nat, length: nat, off: nat, iova: nat, mlen: nat)
    requires 0 < pgsize && cur < pgsize && cur + length == pgsize && 2 * pgsize <= U64_LIMIT && off == cur
    requires iova == cur - cur % pgsize && mlen == Ceil(length + off, pgsize) * pgsize
    ensures iova == 0 && mlen == pgsize && U64Of(cur + mlen) == cur + pgsize
  {
    DivModUnique(cur, pgsize, 0, cur);
    CeilIs(pgsize, pgsize, 1, pgsize - 1);
  }

  /** The aligned end of FillOnePage: one whole page. */
  lemma OnePageEnd(pgsize: nat, cur: nat, length: nat)
    requires 0 < pgsize && cur + length == pgsize && 2 * pgsize <= U64_LIMIT
    ensures U64Of(Ceil(cur + length, pgsize) * pgsize) == pgsize
  {
    CeilIs(pgsize, pgsize, 1, pgsize - 1);
  }

  /** fill_iova_map leaving cur_iova at the end of the mapping, a page boundary. */
  function FillIovaMapAligned(pgsize: u64, cur: u64, phys: u64, length: u64): (r: (IovaMap, u64))
    ensures r.0 == FillIovaMap(pgsize, cur, phys, length).0
  {
    var m := FillIovaMap(pgsize, cur, phys, length).0;
    (m, U64Of(m.iova + m.length))
  }

  /**
   * From a cur_iova with phys's offset in the page, the corrected cur_iova
   * is ALIGN(cur_iova + length, pgsize): page aligned, as the next
   * pad_iova requires.
   */
  lemma FillIovaMapAlignedNext(pgsize: u64, p: nat, cur: u64, phys: u64, length: u64)
    requires pgsize == Pow2(p) && length + 2 * pgsize <= U64_LIMIT
    requires cur % pgsize == phys % pgsize
    ensures FillIovaMapAligned(pgsize, cur, phys, length).1 == U64Of(Ceil(cur + length, pgsize) * pgsize)
    ensures FillIovaMapAligned(pgsize, cur, phys, length).1 % pgsize == 0
  {
    var m := FillIovaMap(pgsize, cur, phys, length).0;
    FillIovaMapCovers(pgsize, p, cur, phys, length);
    var off := cur % pgsize;
    PageDown(cur, pgsize);
    CeilOverBlock(cur - off, length + off, pgsize);
    assert m.iova + m.length == Ceil(cur + length, pgsize) * pgsize;
    MultipleOfMultiple(Ceil(cur + length, pgsize), pgsize);
    PowWord(pgsize, p);
    ModWord(m.iova + m.length, pgsize, p);
  }

  // ---- the IOVA layout of a CPU list -----------------------------------------

  /** What the IOVA path needs of a CPU entry: its physical address and length. */
  datatype CpuRange = CpuRange(phys: u64, length: u60)

  /** One entry of the layout: the DMA entry appended, the mapping programmed, the cur_iova after. */
  datatype Placed = Placed(entry: DmaEntry, mapping: IovaMap, next: u64)

  /** pad_iova then fill_iova_map (corrected) for one CPU entry at cur_iova. */
  function Place(seg: Segmentation, pgsize: u64, cur: u64, r: CpuRange): (p: Placed)
    requires pgsize > 0 && seg.maxSegmentSize > 0
    ensures p.next == U64Of(p.mapping.iova + p.mapping.length)
  {
    var c := PadIova(seg, pgsize, cur, r.phys, r.length);
    var f := FillIovaMapAligned(pgsize, c, r.phys, r.length);
    Placed(DmaEntry(r.length, c, 0), f.0, f.1)
  }

  /** The layout of CPU entries from cur_iova: each placed where the one before left cur_iova. */
  function IovaLayout(seg: Segmentation, pgsize: u64, cur: u64, rs: seq<CpuRange>): (ps: seq<Placed>)
    requires pgsize > 0 && seg.maxSegmentSize > 0
    ensures |ps| == |rs|
    decreases |rs|
  {
    if rs == [] then []
    else
      var p := Place(seg, pgsize, cur, rs[0]);
      [p] + IovaLayout(seg, pgsize, p.next, rs[1..])
  }

  /** Where cur_iova is left after the layout. */
  function LayoutEnd(seg: Segmentation, pgsize: u64, cur: u64, rs: seq<CpuRange>): u64
    requires pgsize > 0 && seg.maxSegmentSize > 0
  {
    var ps := IovaLayout(seg, pgsize, cur, rs);
    if ps == [] then cur else ps[|ps| - 1].next
  }

  /** The DMA entries of a layout. */
  function Entries(ps: seq<Placed>): (ds: seq<DmaEntry>)
    ensures |ds| == |ps| && forall i | 0 <= i < |ps| :: ds[i] == ps[i].entry
  {
    if ps == [] then [] else [ps[0].entry] + Entries(ps[1..])
  }

  /**
   * What the IOMMU requires of one placed entry: the DMA address is
   * congruent to phys modulo the page size, the mapping is page aligned at
   * both ends, covers the entry with less than a page to spare, and maps
   * phys at the DMA address.
   */
  ghost predicate PlacedOk(pgsize: u64, r: CpuRange, p: Placed)
    requires pgsize > 0
  {
    p.entry.length == r.length && p.entry.priv == 0 &&
    p.entry.dma % pgsize == r.phys % pgsize &&
    p.mapping.iova % pgsize == 0 && p.mapping.phys % pgsize == 0 && p.mapping.length % pgsize == 0 &&
    p.mapping.phys <= r.phys && r.phys + r.length <= p.mapping.phys + p.mapping.length < r.phys + r.length + pgsize &&
    p.mapping.iova + (r.phys - p.mapping.phys) == p.entry.dma &&
    p.next % pgsize == 0
  }

  /** From a page-aligned cur_iova, one entry is placed as the IOMMU requires. */
  lemma PlaceOk(seg: Segmentation, k: nat, pgsize: u64, p: nat, cur: u64, r: CpuRange)
    requires seg.maxSegmentSize > 0 && pgsize == Pow2(p) && 3 * pgsize <= U64_LIMIT
    requires WindowMask(seg.boundaryMask, k) && p <= k
    requires cur % pgsize == 0
    ensures PlacedOk(pgsize, r, Place(seg, pgsize, cur, r))
  {
    var c := PadIova(seg, pgsize, cur, r.phys, r.length);
    PadIovaCongruent(seg, k, pgsize, p, cur, r.phys, r.length);
    FillIovaMapCovers(pgsize, p, c, r.phys, r.length);
    FillIovaMapAlignedNext(pgsize, p, c, r.phys, r.length);
  }

  /**
   * Every entry of a layout from a page-aligned cur_iova is placed as the
   * IOMMU requires, and the layout ends on a page boundary.
   */
  lemma {:induction false} LayoutOk(seg: Segmentation, k: nat, pgsize: u64, p: nat, cur: u64, rs: seq<CpuRange>)
    requires seg.maxSegmentSize > 0 && pgsize == Pow2(p) && 3 * pgsize <= U64_LIMIT
    requires WindowMask(seg.boundaryMask, k) && p <= k
    requires cur % pgsize == 0
    ensures forall i | 0 <= i < |rs| :: PlacedOk(pgsize, rs[i], IovaLayout(seg, pgsize, cur, rs)[i])
    ensures LayoutEnd(seg, pgsize, cur, rs) % pgsize == 0
    decreases |rs|
  {
    if rs != [] {
      var q := Place(seg, pgsize, cur, rs[0]);
      PlaceOk(seg, k, pgsize, p, cur, rs[0]);
      LayoutOk(seg, k, pgsize, p, q.next, rs[1..]);
      var ps := IovaLayout(seg, pgsize, cur, rs);
      assert ps == [q] + IovaLayout(seg, pgsize, q.next, rs[1..]);
      forall i | 0 <= i < |rs|
        ensures PlacedOk(pgsize, rs[i], ps[i])
      {
        if i > 0 {
          assert rs[i] == rs[1..][i - 1];
        }
      }
      if |rs| > 1 {
        assert LayoutEnd(seg, pgsize, cur, rs) == LayoutEnd(seg, pgsize, q.next, rs[1..]);
      }
    }
  }

  // ---- the unmap iterators ----------------------------------------------------

  /** The IOVA range an unmap iterator reports. */
  datatype IovaRange = IovaRange(iova: u64, length: u64)

  /**
   * rlsdma_first_unmap / rlsdma_next_unmap as written: from the entry's
   * page start, ALIGN(length + dma, pgsize) less the unaligned dma.
   */
  function UnmapAsWritten(e: DmaEntry, pgsize: u64): IovaRange
  {
    IovaRange(AlignDown(e.dma, pgsize), U64Of(Align(U64Of(e.length + e.dma), pgsize) - e.dma))
  }

  /** The unmap range with the length measured from the page start it is reported from. */
  function Unmap(e: DmaEntry, pgsize: u64): IovaRange
  {
    IovaRange(AlignDown(e.dma, pgsize), U64Of(Align(U64Of(e.length + e.dma), pgsize) - AlignDown(e.dma, pgsize)))
  }

  /**
   * The corrected range is the entry's pages, page aligned and covering the
   * entry; as written it falls short of their end by the entry's offset in
   * its first page.
   */
  lemma UnmapCovers(e: DmaEntry, pgsize: u64, p: nat)
    requires pgsize == Pow2(p) && e.dma + e.length + pgsize <= U64_LIMIT
    ensures var u := Unmap(e, pgsize);
      u.iova == e.dma - e.dma % pgsize && u.iova % pgsize == 0 && u.length % pgsize == 0 &&
      e.dma + e.length <= u.iova + u.length < e.dma + e.length + pgsize
    ensures Unmap(e, pgsize).length == Ceil(e.dma + e.length, pgsize) * pgsize - (e.dma - e.dma % pgsize)
    ensures UnmapAsWritten(e, pgsize).iova == Unmap(e, pgsize).iova
    ensures UnmapAsWritten(e, pgsize).length + e.dma % pgsize == Unmap(e, pgsize).length
  {
    var u := Unmap(e, pgsize);
    var w := UnmapAsWritten(e, pgsize);
    UnmapWords(e.dma, e.length, pgsize, p, u.iova, u.length, w.length);
  }

  /** UnmapCovers on the words: ui and ul the corrected range, wl the length as written. */
  lemma UnmapWords(d: u64, l: u64, pg: u64, p: nat, ui: u64, ul: u64, wl: u64)
    requires pg == Pow2(p) && d + l + pg <= U64_LIMIT
    requires ui == AlignDown(d, pg)
    requires ul == U64Of(Align(U64Of(l + d), pg) - AlignDown(d, pg)) && wl == U64Of(Align(U64Of(l + d), pg) - d)
    ensures ui == d - d % pg && ui % pg == 0 && ul % pg == 0 && d + l <= ui + ul < d + l + pg
    ensures ul == Ceil(d + l, pg) * pg - (d - d % pg) && wl + d % pg == ul
  {
    AlignDownIsFloor(d, pg, p);
    Small64(l + d);
    AlignIsCeil(l + d, pg, p);
    UnmapArith(d, l, pg, ui, Align(l + d, pg), Ceil(d + l, pg), ui, ul, wl);
  }

  /** UnmapCovers on plain numbers: ui and ul the corrected range, wl the length as written. */
  lemma UnmapArith(d: nat, l: nat, pg: nat, ad: nat, al: nat, c: nat, ui: nat, ul: nat, wl: nat)
    requires pg > 0 && ad == d - d % pg && ad % pg == 0 && al == c * pg && d + l <= al < d + l + pg && al < U64_LIMIT
    requires ui == ad && ul == U64Of(al - ad) && wl == U64Of(al - d)
    ensures ui == d - d % pg && ui % pg == 0 && ul % pg == 0 && d + l <= ui + ul < d + l + pg
    ensures ul == c * pg - (d - d % pg) && wl + d % pg == ul
  {
    CoverArith(d, l, pg, al, ad, c);
  }

  /** The arithmetic of UnmapCovers: from the page below d to the page end above d + l. */
  lemma CoverArith(d: nat, l: nat, pg: nat, al: nat, ad: nat, c: nat)
    requires pg > 0 && ad == d - d % pg && ad % pg == 0 && al == c * pg && d + l <= al < d + l + pg
    requires al < U64_LIMIT
    ensures al % pg == 0 && (al - ad) % pg == 0 && ad <= d <= al
    ensures U64Of(al - ad) == al - ad && U64Of(al - d) == al - d
  {
    MultipleOfMultiple(c, pg);
    MultipleDiff(al, ad, pg);
    Small64(al - ad);
    Small64(al - d);
  }

  /** The difference of two multiples of d is one. */
  lemma MultipleDiff(x: nat, y: nat, d: nat)
    requires d > 0 && x % d == 0 && y % d == 0 && y <= x
    ensures (x - y) % d == 0
  {
    DivMul(x, d);
    DivMul(y, d);
    if x / d < y / d {
      MulMonotone(x / d + 1, y / d, d);
      MulDistrib(x / d, 1, d);
    }
    MulDistrib(x / d - y / d, y / d, d);
    MultipleOfMultiple(x / d - y / d, d);
  }

  lemma Pow2Is4K()
    ensures Pow2(12) == 0x1000
  {
    Pow2Is256();
    Pow2Add(4, 8);
    assert Pow2(4) == 16;
  }

  /** 0x1000 bytes at 0x1800 with 4 KiB pages: as written 0x1800 bytes from 0x1000, of the 0x2000 mapped. */
  lemma UnmapShort(e: DmaEntry, pgsize: u64)
    requires e == DmaEntry(0x1000, 0x1800, 0) && pgsize == 0x1000
    ensures UnmapAsWritten(e, pgsize).iova == 0x1000 && UnmapAsWritten(e, pgsize).length == 0x1800
    ensures Unmap(e, pgsize).iova == 0x1000 && Unmap(e, pgsize).length == 0x2000
  {
    Pow2Is4K();
    UnmapCovers(e, pgsize, 12);
    UnmapAt(e, pgsize);
  }

  /** The numbers of the example: 0x1800 is 0x800 into its page, and 0x2800 rounds up to 3 pages. */
  lemma UnmapAt(e: DmaEntry, pgsize: u64)
    requires e.length == 0x1000 && e.dma == 0x1800 && pgsize == 0x1000
    ensures e.dma % pgsize == 0x800 && Ceil(e.dma + e.length, pgsize) == 3
  {
    CeilIs(e.dma + e.length, pgsize, 3, 0x7FF);
  }

  /**
   * Unmapping the DMA entry the IOVA path appends for a CPU entry (dma_address
   * cur_iova, relative to a page-aligned base) releases exactly the pages
   * fill_iova_map mapped for it, moved to that base.
   */
  lemma UnmapUndoesMap(e: DmaEntry, base: u64, pgsize: u64, p: nat, cur: u64, phys: u64, length: u64)
    requires pgsize == Pow2(p) && base % pgsize == 0 && cur % pgsize == phys % pgsize
    requires e.dma == base + cur && e.length == length
    requires base + cur + length + 2 * pgsize <= U64_LIMIT
    ensures var m := FillIovaMap(pgsize, cur, phys, length).0;
      Unmap(e, pgsize).iova == base + m.iova && Unmap(e, pgsize).length == m.length
  {
    var m := FillIovaMap(pgsize, cur, phys, length).0;
    FillIovaMapCovers(pgsize, p, cur, phys, length);
    UnmapCovers(e, pgsize, p);
    var off := phys % pgsize;
    assert m.iova == cur - off && m.iova % pgsize == 0;
    assert m.length == Ceil(length + off, pgsize) * pgsize;
    ShiftedMod(base, cur, pgsize);
    assert e.dma % pgsize == off;
    var ad := base + m.iova;
    assert Unmap(e, pgsize).iova == ad;
    ShiftedMod(base, m.iova, pgsize);
    assert ad % pgsize == 0;
    assert e.dma + e.length == ad + (length + off);
    CeilOverBlock(ad, length + off, pgsize);
  }

  /** Rounding up past a multiple of d rounds up only what lies beyond it. */
  lemma CeilOverBlock(a: nat, y: nat, d: nat)
    requires d > 0 && a % d == 0
    ensures Ceil(a + y, d) * d == a + Ceil(y, d) * d
  {
    DivMul(a, d);
    CeilShift(a / d, d, y);
    MulDistrib(a / d, Ceil(y, d), d);
  }

  /** Adding a multiple of d keeps the remainder. */
  lemma ShiftedMod(base: nat, x: nat, d: nat)
    requires d > 0 && base % d == 0
    ensures (base + x) % d == x % d
  {
    DivMul(base, d);
    DivMul(x, d);
    MulDistrib(base / d, x / d, d);
    DivModUnique(base + x, d, base / d + x / d, x % d);
  }

  /** Whole blocks ahead of y add to its ceiling. */
  lemma CeilShift(q: nat, d: nat, y: nat)
    requires d > 0
    ensures Ceil(q * d + y, d) == q + Ceil(y, d)
  {
    QuotIsDiv(q * d + y + d - 1, d);
    QuotIsDiv(y + d - 1, d);
    DivMul(y + d - 1, d);
    MulDistrib(q, (y + d - 1) / d, d);
    DivModUnique(q * d + y + d - 1, d, q + (y + d - 1) / d, (y + d - 1) % d);
  }

  // ---- the walks over a layout and over the DMA entries -----------------------

  /** The layout's end is where the rest of it, after the first entry, ends. */
  lemma LayoutEndTail(seg: Segmentation, pgsize: u64, cur: u64, rs: seq<CpuRange>)
    requires pgsize > 0 && seg.maxSegmentSize > 0 && rs != []
    ensures LayoutEnd(seg, pgsize, cur, rs) == LayoutEnd(seg, pgsize, Place(seg, pgsize, cur, rs[0]).next, rs[1..])
  {
  }

  /** One more CPU entry at the end is placed where the layout so far left cur_iova. */
  lemma {:induction false} LayoutSnoc(seg: Segmentation, pgsize: u64, cur: u64, rs: seq<CpuRange>, r: CpuRange)
    requires pgsize > 0 && seg.maxSegmentSize > 0
    ensures IovaLayout(seg, pgsize, cur, rs + [r]) ==
            IovaLayout(seg, pgsize, cur, rs) + [Place(seg, pgsize, LayoutEnd(seg, pgsize, cur, rs), r)]
    ensures LayoutEnd(seg, pgsize, cur, rs + [r]) == Place(seg, pgsize, LayoutEnd(seg, pgsize, cur, rs), r).next
    decreases |rs|
  {
    if rs == [] {
      assert rs + [r] == [r];
    } else {
      var p := Place(seg, pgsize, cur, rs[0]);
      assert (rs + [r])[0] == rs[0];
      assert (rs + [r])[1..] == rs[1..] + [r];
      LayoutSnoc(seg, pgsize, p.next, rs[1..], r);
      LayoutEndTail(seg, pgsize, cur, rs);
      LayoutEndTail(seg, pgsize, cur, rs + [r]);
    }
  }

  /** Taking one more element of a sequence appends that element. */
  lemma TakeSnoc<T>(s: seq<T>, i: nat)
    requires i < |s|
    ensures s[..i + 1] == s[..i] + [s[i]]
  {
  }

  /** A non-empty layout ends just past its last mapping. */
  lemma LayoutLastNext(seg: Segmentation, pgsize: u64, cur: u64, rs: seq<CpuRange>, last: IovaMap)
    requires pgsize > 0 && seg.maxSegmentSize > 0 && rs != []
    requires last == IovaLayout(seg, pgsize, cur, rs)[|rs| - 1].mapping
    ensures LayoutEnd(seg, pgsize, cur, rs) == U64Of(last.iova + last.length)
  {
    var i := |rs| - 1;
    LayoutAt(seg, pgsize, cur, rs, i);
  }

  /** The DMA entries of one more placed entry: one more DMA entry. */
  lemma EntriesSnoc(ps: seq<Placed>, p: Placed)
    ensures Entries(ps + [p]) == Entries(ps) + [p.entry]
  {
    var l, r := Entries(ps + [p]), Entries(ps) + [p.entry];
    assert |l| == |r|;
    forall i | 0 <= i < |l|
      ensures l[i] == r[i]
    {
      assert (ps + [p])[i] == if i < |ps| then ps[i] else p;
    }
  }

  /** Each entry of a layout is placed where the one before it left cur_iova, the first at cur. */
  lemma {:induction false} LayoutAt(seg: Segmentation, pgsize: u64, cur: u64, rs: seq<CpuRange>, i: nat)
    requires pgsize > 0 && seg.maxSegmentSize > 0 && i < |rs|
    ensures IovaLayout(seg, pgsize, cur, rs)[i] ==
            Place(seg, pgsize, if i == 0 then cur else IovaLayout(seg, pgsize, cur, rs)[i - 1].next, rs[i])
    decreases i
  {
    if i > 0 {
      var p := Place(seg, pgsize, cur, rs[0]);
      LayoutAt(seg, pgsize, p.next, rs[1..], i - 1);
    }
  }

  /**
   * The mappings rsiova_for_each_map visits: each placed entry's, in order,
   * up to the first of length 0, which ends the loop.
   */
  function Maps(ps: seq<Placed>): seq<IovaMap>
  {
    if ps == [] || ps[0].mapping.length == 0 then []
    else [ps[0].mapping] + Maps(ps[1..])
  }

  /**
   * The walk yields a prefix of the mappings, each of nonzero length, and
   * all of them when none has length 0.
   */
  lemma {:induction false} MapsPrefix(ps: seq<Placed>)
    ensures |Maps(ps)| <= |ps|
    ensures forall k | 0 <= k < |Maps(ps)| :: Maps(ps)[k] == ps[k].mapping && ps[k].mapping.length != 0
    ensures (forall i | 0 <= i < |ps| :: ps[i].mapping.length != 0) ==> |Maps(ps)| == |ps|
    decreases |ps|
  {
    if ps != [] && ps[0].mapping.length != 0 {
      MapsPrefix(ps[1..]);
      forall k | 0 <= k < |Maps(ps)|
        ensures Maps(ps)[k] == ps[k].mapping
      {
        if k > 0 {
          assert Maps(ps)[k] == Maps(ps[1..])[k - 1];
        }
      }
      if forall i | 0 <= i < |ps| :: ps[i].mapping.length != 0 {
        assert forall i | 0 <= i < |ps| - 1 :: ps[1..][i].mapping.length != 0 by {
          forall i | 0 <= i < |ps| - 1
            ensures ps[1..][i].mapping.length != 0
          {
            assert ps[1..][i] == ps[i + 1];
          }
        }
      }
    }
  }

  /**
   * Laid out from a page-aligned cur_iova, CPU entries of nonzero length
   * all get a mapping of nonzero length, so the walk visits every one, each
   * placed as the IOMMU requires.
   */
  lemma LayoutMapsAll(seg: Segmentation, k: nat, pgsize: u64, p: nat, cur: u64, rs: seq<CpuRange>)
    requires seg.maxSegmentSize > 0 && pgsize == Pow2(p) && 3 * pgsize <= U64_LIMIT
    requires WindowMask(seg.boundaryMask, k) && p <= k
    requires cur % pgsize == 0
    requires forall i | 0 <= i < |rs| :: rs[i].length > 0
    ensures Maps(IovaLayout(seg, pgsize, cur, rs)) == seq(|rs|, i requires 0 <= i < |rs| => IovaLayout(seg, pgsize, cur, rs)[i].mapping)
    ensures forall i | 0 <= i < |rs| :: PlacedOk(pgsize, rs[i], IovaLayout(seg, pgsize, cur, rs)[i])
  {
    var ps := IovaLayout(seg, pgsize, cur, rs);
    LayoutOk(seg, k, pgsize, p, cur, rs);
    MapsPrefix(ps);
  }

  /** The entries the IOMMU mapped: those not marked RSIOVA_PRIV_P2P. */
  function NotP2p(ds: seq<DmaEntry>): (fs: seq<DmaEntry>)
    ensures |fs| <= |ds| && forall d | d in fs :: d in ds && d.priv != PRIV_P2P
  {
    if ds == [] then []
    else if ds[0].priv == PRIV_P2P then NotP2p(ds[1..])
    else [ds[0]] + NotP2p(ds[1..])
  }

  /**
   * The ranges rlsdma_for_each_unmap visits (with the corrected length):
   * the unmap range of each entry the IOMMU mapped, in order, up to the
   * first of length 0, which ends the loop.
   */
  function Unmaps(ds: seq<DmaEntry>, pgsize: u64): seq<IovaRange>
  {
    if ds == [] then []
    else if ds[0].priv == PRIV_P2P then Unmaps(ds[1..], pgsize)
    else if Unmap(ds[0], pgsize).length == 0 then []
    else [Unmap(ds[0], pgsize)] + Unmaps(ds[1..], pgsize)
  }

  /** The unmap range of each entry of fs, in order. */
  function UnmapEach(fs: seq<DmaEntry>, pgsize: u64): (us: seq<IovaRange>)
    ensures |us| == |fs| && forall i | 0 <= i < |fs| :: us[i] == Unmap(fs[i], pgsize)
  {
    if fs == [] then [] else [Unmap(fs[0], pgsize)] + UnmapEach(fs[1..], pgsize)
  }

  /**
   * When no mapped entry has an empty unmap range, the walk visits exactly
   * the unmap range of every entry not marked RSIOVA_PRIV_P2P, in order.
   */
  lemma {:induction false} UnmapsAll(ds: seq<DmaEntry>, pgsize: u64)
    requires forall d | d in ds && d.priv != PRIV_P2P :: Unmap(d, pgsize).length != 0
    ensures Unmaps(ds, pgsize) == UnmapEach(NotP2p(ds), pgsize)
    decreases |ds|
  {
    if ds != [] {
      assert forall d | d in ds[1..] :: d in ds;
      UnmapsAll(ds[1..], pgsize);
      if ds[0].priv != PRIV_P2P {
        var t := NotP2p(ds[1..]);
        assert NotP2p(ds) == [ds[0]] + t;
        assert ([ds[0]] + t)[1..] == t;
      }
    }
  }

  /** Every range the walk visits is the page-aligned cover of a mapped entry. */
  lemma {:induction false} UnmapsCover(ds: seq<DmaEntry>, pgsize: u64, p: nat)
    requires pgsize == Pow2(p)
    requires forall d | d in ds :: d.dma + d.length + pgsize <= U64_LIMIT
    ensures |Unmaps(ds, pgsize)| <= |NotP2p(ds)|
    ensures forall u | u in Unmaps(ds, pgsize) :: exists d | d in NotP2p(ds) ::
              u == Unmap(d, pgsize) && u.iova % pgsize == 0 && u.length % pgsize == 0 &&
              u.iova <= d.dma && d.dma + d.length <= u.iova + u.length < d.dma + d.length + pgsize
    decreases |ds|
  {
    if ds != [] {
      assert forall d | d in ds[1..] :: d in ds;
      UnmapsCover(ds[1..], pgsize, p);
      if ds[0].priv != PRIV_P2P {
        UnmapCovers(ds[0], pgsize, p);
        assert NotP2p(ds) == [ds[0]] + NotP2p(ds[1..]);
      }
    }
  }
}
