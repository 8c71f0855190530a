// The CPU view of a range list (rlist_cpu): entries naming either a span of
// folio-backed memory (a folio pointer and a byte offset into it) or a span
// of pageless physical memory.
//
// This module holds what does not depend on the storage choice: the memory
// map the entries point into, the entry codec rlist_cpu layers over struct
// rlist_entry, the cutting of an entry into folio- and page-sized pieces,
// the merge test of the append path and the summary flags it keeps;
// rlist_cpu_state.dfy holds struct rlist_cpu and its cursors.

module RlistCpuFormat {
  import opened RlistFormat

  /** PAGE_SIZE of a 4 KiB-page kernel. */
  const PAGE_SIZE: nat := 4096
  /** 2^60: struct rlist_cpu_entry's length is a 60-bit field. */
  const U60_LIMIT: nat := 0x1000_0000_0000_0000
  /** 2^61: struct rlist_cpu's max_position is a 61-bit field. */
  const U61_LIMIT: nat := 0x2000_0000_0000_0000

  /** enum rlist_cpu_types, and the internal type RLIST_CPU_MEM_FOLIO_PFN. */
  const MEM_FOLIO: u2 := 0
  const MEM_PHYSICAL: u2 := 1
  const MEM_FOLIO_PFN: u2 := 3

  type Pos = x: nat | x >= 1 witness 1

  /**
   * The memory map, as far as rlist_cpu looks at it. Pages are named by
   * their frame numbers; a struct folio pointer is a u64 (0 is NULL).
   *   pfnOf    folio_pfn: the frame of a folio's head page
   *   pageAt   pfn_folio / pfn_to_page: the struct page of a frame
   *   head     the head frame of the folio a frame belongs to (page_folio)
   *   nrPages  folio_nr_pages of the folio headed at a frame
   *   pgmap    the dev_pagemap of a ZONE_DEVICE frame, 0 for other memory
   *   p2p      is_pci_p2pdma_page
   */
  datatype MemMap = MemMap(pfnOf: u64 -> nat, pageAt: nat -> u64, head: nat -> nat,
                           nrPages: nat -> Pos, pgmap: nat -> nat, p2p: nat -> bool)

  /** folio_size */
  function FolioSize(mm: MemMap, folio: u64): nat
  {
    mm.nrPages(mm.pfnOf(folio)) * PAGE_SIZE
  }

  /** folio_next: the folio whose head page follows this folio's last page. */
  function FolioNext(mm: MemMap, folio: u64): u64
  {
    mm.pageAt(mm.pfnOf(folio) + mm.nrPages(mm.pfnOf(folio)))
  }

  /** page_folio, for a page named by its frame. */
  function PageFolio(mm: MemMap, page: nat): u64
  {
    mm.pageAt(mm.head(page))
  }

  /**
   * folio_page_idx(folio, page) * PAGE_SIZE as stored in the 32-bit
   * folio_offset: the difference is taken modulo 2^32 as unsigned C
   * arithmetic and the assignment do.
   */
  function OffsetInFolio(mm: MemMap, folio: u64, page: nat): u32
  {
    ((page - mm.pfnOf(folio)) * PAGE_SIZE) % U32_LIMIT
  }

  /**
   * A frame of a folio smaller than 4 GiB whose head is at or before it,
   * and whose head's struct page gives the head's frame back.
   */
  predicate Mapped(mm: MemMap, page: nat)
  {
    var h := mm.head(page);
    h <= page && h < U64_LIMIT && mm.pfnOf(mm.pageAt(h)) == h && (page - h) * PAGE_SIZE < U32_LIMIT
  }

  /** rlist_cpu_entry_physical (0, with a WARN, for a corrupt type). */
  function Physical(mm: MemMap, e: Entry): nat
  {
    if e.kind == MEM_FOLIO then mm.pfnOf(e.base) * PAGE_SIZE + e.offset
    else if e.kind == MEM_PHYSICAL then e.base
    else 0
  }

  // ---- rlscpu_encode_entry / rlscpu_decode_entry -------------------------

  /** A FOLIO entry that the encoder stores as a frame number and a page count. */
  predicate PageShaped(e: Entry)
  {
    e.kind == MEM_FOLIO && e.offset == 0 && e.length % PAGE_SIZE == 0
  }

  /**
   * rlscpu_encode_entry: a page-shaped FOLIO entry becomes type
   * RLIST_CPU_MEM_FOLIO_PFN with base = folio_pfn and the length in
   * pages; every other entry is stored as it is (the folio pointer or the
   * physical address is already in base).
   */
  function EncodeCpu(mm: MemMap, e: Entry): Entry
  {
    if PageShaped(e) then Entry(MEM_FOLIO_PFN, e.length / PAGE_SIZE, Wrap64(mm.pfnOf(e.base)), e.offset, e.extra)
    else e
  }

  /**
   * rlscpu_decode_entry: a FOLIO_PFN entry becomes a FOLIO entry with
   * folio = pfn_folio(base) and the length in bytes (kept to 60 bits);
   * every other entry is returned as stored.
   */
  function DecodeCpu(mm: MemMap, e: Entry): Entry
  {
    if e.kind == MEM_FOLIO_PFN then Entry(MEM_FOLIO, (e.length * PAGE_SIZE) % U60_LIMIT, mm.pageAt(e.base), e.offset, e.extra)
    else e
  }

  /** pfn_folio(folio_pfn(folio)) == folio, and the frame number fits a u64. */
  predicate FolioPtrOk(mm: MemMap, folio: u64)
  {
    mm.pfnOf(folio) < U64_LIMIT && mm.pageAt(mm.pfnOf(folio)) == folio
  }

  /** An entry the append path may store: a FOLIO entry on a valid folio pointer, or a PHYSICAL one. */
  predicate Storable(mm: MemMap, e: Entry)
  {
    (e.kind == MEM_FOLIO && FolioPtrOk(mm, e.base)) || e.kind == MEM_PHYSICAL
  }

  lemma PageCount(length: nat)
    requires length % PAGE_SIZE == 0 && length < U60_LIMIT
    ensures (length / PAGE_SIZE) * PAGE_SIZE == length && length / PAGE_SIZE < U60_LIMIT
  {
  }

  /**
   * Decoding inverts encoding: the stored type is FOLIO_PFN exactly for
   * the page-shaped FOLIO entries, its length counts pages, and decoding
   * gives back the entry.
   */
  lemma DecodeEncodeCpu(mm: MemMap, e: Entry)
    requires Storable(mm, e)
    ensures EncodeCpu(mm, e).kind == (if PageShaped(e) then MEM_FOLIO_PFN else e.kind)
    ensures PageShaped(e) ==> EncodeCpu(mm, e).length * PAGE_SIZE == e.length
    ensures DecodeCpu(mm, EncodeCpu(mm, e)) == e
  {
    if PageShaped(e) {
      PageCount(e.length);
    }
  }

  /** The whole store path: rlist encoding under rlist_cpu encoding, decoded back. */
  lemma StoreRoundTrip(mm: MemMap, e: Entry)
    requires Storable(mm, e)
    ensures DecodeCpu(mm, Decode(Encode(EncodeCpu(mm, e)), 0).entry) == e
    ensures Physical(mm, DecodeCpu(mm, Decode(Encode(EncodeCpu(mm, e)), 0).entry)) == Physical(mm, e)
  {
    DecodeEncode(EncodeCpu(mm, e));
    DecodeEncodeCpu(mm, e);
  }

  function EncodeAll(mm: MemMap, es: seq<Entry>): (r: seq<Entry>)
    ensures |r| == |es|
  {
    if es == [] then [] else EncodeAll(mm, es[..|es| - 1]) + [EncodeCpu(mm, es[|es| - 1])]
  }

  function DecodeAll(mm: MemMap, es: seq<Entry>): (r: seq<Entry>)
    ensures |r| == |es|
  {
    if es == [] then [] else DecodeAll(mm, es[..|es| - 1]) + [DecodeCpu(mm, es[|es| - 1])]
  }

  lemma EncodeAllSnoc(mm: MemMap, es: seq<Entry>, e: Entry)
    ensures EncodeAll(mm, es + [e]) == EncodeAll(mm, es) + [EncodeCpu(mm, e)]
  {
    assert (es + [e])[..|es|] == es;
  }

  /** A list of storable entries reads back, entry by entry, as it was appended. */
  lemma {:induction false} DecodeEncodeAll(mm: MemMap, es: seq<Entry>)
    requires forall k | 0 <= k < |es| :: Storable(mm, es[k])
    ensures DecodeAll(mm, EncodeAll(mm, es)) == es
  {
    if es != [] {
      var init := es[..|es| - 1];
      DecodeEncodeAll(mm, init);
      DecodeEncodeCpu(mm, es[|es| - 1]);
      assert EncodeAll(mm, es)[..|es| - 1] == EncodeAll(mm, init);
    }
  }

  // ---- RLIST_CPU_PAGES storage -------------------------------------------

  /**
   * The pages i..j form a maximal run of consecutive frames: each is
   * nth_page(previous, 1), and the page after j (if any) is not.
   */
  predicate RunAt(ps: seq<nat>, i: nat, j: nat)
  {
    i <= j < |ps| && (forall k | i <= k < j :: ps[k + 1] == ps[k] + 1) &&
    (j + 1 < |ps| ==> ps[j + 1] != ps[j] + 1)
  }

  /** The entry rlscpu_decode_pages makes of a run of n pages starting at a frame. */
  function RunEntry(mm: MemMap, page: nat, n: nat): Entry
  {
    var folio := PageFolio(mm, page);
    Entry(MEM_FOLIO, (PAGE_SIZE * n) % U60_LIMIT, folio, OffsetInFolio(mm, folio, page), 0)
  }

  /** A run's entry points at the run's first frame, and is n pages long. */
  lemma RunPhysical(mm: MemMap, page: nat, n: nat)
    requires Mapped(mm, page) && PAGE_SIZE * n < U60_LIMIT
    ensures Physical(mm, RunEntry(mm, page, n)) == page * PAGE_SIZE
    ensures RunEntry(mm, page, n).length == PAGE_SIZE * n
  {
    var h := mm.head(page);
    assert mm.pfnOf(PageFolio(mm, page)) == h;
    assert OffsetInFolio(mm, PageFolio(mm, page), page) == (page - h) * PAGE_SIZE;
    assert h * PAGE_SIZE + (page - h) * PAGE_SIZE == page * PAGE_SIZE;
  }

  /** The last page of the maximal run of consecutive frames that starts at page i. */
  function RunEnd(ps: seq<nat>, i: nat): (j: nat)
    requires i < |ps|
    ensures RunAt(ps, i, j)
    decreases |ps| - i
  {
    if i + 1 < |ps| && ps[i + 1] == ps[i] + 1 then RunEnd(ps, i + 1) else i
  }

  /** A run that starts at page i ends at one page only. */
  lemma RunAtUnique(ps: seq<nat>, i: nat, j: nat, j': nat)
    requires RunAt(ps, i, j) && RunAt(ps, i, j')
    ensures j == j'
  {
  }

  /**
   * The entries a walk over pages storage yields from page i: one FOLIO
   * entry per maximal run of consecutive frames.
   */
  function PageRuns(mm: MemMap, ps: seq<nat>, i: nat): seq<Entry>
    decreases |ps| - i
  {
    if i >= |ps| then []
    else
      var j := RunEnd(ps, i);
      [RunEntry(mm, ps[i], j - i + 1)] + PageRuns(mm, ps, j + 1)
  }

  /** A run from i to j is the first entry of the walk from i, and the walk goes on after j. */
  lemma RunsAt(mm: MemMap, ps: seq<nat>, i: nat, j: nat)
    requires RunAt(ps, i, j)
    ensures PageRuns(mm, ps, i) == [RunEntry(mm, ps[i], j - i + 1)] + PageRuns(mm, ps, j + 1)
  {
    RunAtUnique(ps, i, j, RunEnd(ps, i));
  }

  /** DecodeAll reads each entry on its own. */
  lemma {:induction false} DecodeAllAt(mm: MemMap, es: seq<Entry>, i: nat)
    requires i < |es|
    ensures DecodeAll(mm, es)[i] == DecodeCpu(mm, es[i])
  {
    if i < |es| - 1 {
      DecodeAllAt(mm, es[..|es| - 1], i);
    }
  }

  // ---- cutting an entry into pieces --------------------------------------

  /** One entry as rlist_cpu_for_each_folio / _page return it: where, at which offset, how long. */
  datatype Piece = Piece(at: nat, offset: nat, length: nat)

  function SumPieces(ps: seq<Piece>): nat
  {
    if ps == [] then 0 else ps[0].length + SumPieces(ps[1..])
  }

  /**
   * The first piece read_folio cuts: min(length, folio_size - offset). The
   * difference is u64 arithmetic: an offset past the folio end wraps it
   * above any 60-bit length, so the whole length is taken.
   */
  function FolioChunk(mm: MemMap, folio: u64, offset: nat, length: nat): nat
  {
    var size := FolioSize(mm, folio);
    if offset <= size && size - offset < length then size - offset else length
  }

  /**
   * The pieces rlscpu_read_folio and rlscpu_next_folio cut an entry into:
   * the first bounded by the rest of its folio, each later one a prefix of
   * the next folio (offset 0) bounded by that folio's size.
   */
  function FolioPieces(mm: MemMap, folio: u64, offset: nat, length: nat): seq<Piece>
    decreases length, if offset == 0 then 0 else 1
  {
    var first := FolioChunk(mm, folio, offset, length);
    [Piece(folio, offset, first)] +
    (if first == length then [] else FolioPieces(mm, FolioNext(mm, folio), 0, length - first))
  }

  /** The pieces still to come after piece `current`, with `remaining` bytes left. */
  function FolioTodo(mm: MemMap, current: u64, remaining: nat): seq<Piece>
  {
    if remaining == 0 then [] else FolioPieces(mm, FolioNext(mm, current), 0, remaining)
  }

  /**
   * The folio pieces tile the entry: their lengths sum to its length, every
   * piece but the first starts at offset 0, and no piece runs past the end
   * of its folio (the first only when its offset is inside the folio).
   */
  lemma {:induction false} FolioPiecesTile(mm: MemMap, folio: u64, offset: nat, length: nat)
    ensures SumPieces(FolioPieces(mm, folio, offset, length)) == length
    ensures forall k | 1 <= k < |FolioPieces(mm, folio, offset, length)| :: FolioPieces(mm, folio, offset, length)[k].offset == 0
    ensures forall k | 0 <= k < |FolioPieces(mm, folio, offset, length)| ::
              var p := FolioPieces(mm, folio, offset, length)[k];
              p.at < U64_LIMIT && (p.offset <= FolioSize(mm, p.at) ==> p.offset + p.length <= FolioSize(mm, p.at))
    decreases length, if offset == 0 then 0 else 1
  {
    var ps := FolioPieces(mm, folio, offset, length);
    var first := FolioChunk(mm, folio, offset, length);
    if first != length {
      var next := FolioNext(mm, folio);
      FolioPiecesTile(mm, next, 0, length - first);
      assert ps[1..] == FolioPieces(mm, next, 0, length - first);
    }
  }

  /**
   * The first piece read_page cuts, given the offset into the page:
   * min(length, PAGE_SIZE - page_offset).
   */
  function PageChunk(pageOffset: nat, length: nat): nat
  {
    if pageOffset <= PAGE_SIZE && PAGE_SIZE - pageOffset < length then PAGE_SIZE - pageOffset else length
  }

  /**
   * The pieces rlscpu_read_page and rlscpu_next_page cut an entry into: the
   * first from page_offset to the end of its page, each later one a prefix
   * of the next frame (nth_page(page, 1)) of at most PAGE_SIZE bytes.
   */
  function PagePieces(page: nat, pageOffset: nat, length: nat): seq<Piece>
    requires pageOffset < PAGE_SIZE
    decreases length
  {
    var first := PageChunk(pageOffset, length);
    [Piece(page, pageOffset, first)] +
    (if first == length then [] else PagePieces(page + 1, 0, length - first))
  }

  function PageTodo(current: nat, remaining: nat): seq<Piece>
  {
    if remaining == 0 then [] else PagePieces(current + 1, 0, remaining)
  }

  /**
   * The page pieces tile the entry: lengths sum to its length; piece k
   * lies in frame page + k, starts at offset 0 for k > 0 and ends within
   * its page.
   */
  lemma {:induction false} PagePiecesTile(page: nat, pageOffset: nat, length: nat)
    requires pageOffset < PAGE_SIZE
    ensures SumPieces(PagePieces(page, pageOffset, length)) == length
    ensures forall k | 0 <= k < |PagePieces(page, pageOffset, length)| ::
              var p := PagePieces(page, pageOffset, length)[k];
              p.at == page + k && p.offset == (if k == 0 then pageOffset else 0) &&
              p.offset + p.length <= PAGE_SIZE
    decreases length
  {
    var ps := PagePieces(page, pageOffset, length);
    var first := PageChunk(pageOffset, length);
    if first != length {
      PagePiecesTile(page + 1, 0, length - first);
      assert ps[1..] == PagePieces(page + 1, 0, length - first);
      forall k | 1 <= k < |ps|
        ensures ps[k] == PagePieces(page + 1, 0, length - first)[k - 1]
      {
      }
    }
  }

  // ---- the merge test of the append path ---------------------------------

  /** zone_device_pages_have_same_pgmap */
  predicate SamePgmap(mm: MemMap, a: u64, b: u64)
  {
    mm.pgmap(mm.pfnOf(a)) == mm.pgmap(mm.pfnOf(b))
  }

  /**
   * is_contiguous_folio: whether a range at (folio, offset) carries on
   * where the pending range, ending at curEnd bytes into curFolio, stops.
   */
  function IsContiguousFolio(mm: MemMap, curFolio: u64, curEnd: u32, folio: u64, offset: u32): bool
  {
    if curFolio == 0 then false
    else if curFolio == folio && curEnd == offset then true
    else if curEnd % PAGE_SIZE != 0 || offset % PAGE_SIZE != 0 then false
    else if !SamePgmap(mm, curFolio, folio) then false
    else mm.pfnOf(curFolio) + curEnd / PAGE_SIZE == mm.pfnOf(folio) + offset / PAGE_SIZE
  }

  lemma PageBoundary(pfn: nat, off: nat)
    requires off % PAGE_SIZE == 0
    ensures pfn * PAGE_SIZE + off == (pfn + off / PAGE_SIZE) * PAGE_SIZE
  {
  }

  /**
   * What a merge means: the new range starts, physically, exactly where the
   * pending one ends. Conversely two page-aligned, physically adjacent
   * ranges in the same pgmap are merged.
   */
  lemma ContiguousMeansAdjacent(mm: MemMap, curFolio: u64, curEnd: u32, folio: u64, offset: u32)
    ensures IsContiguousFolio(mm, curFolio, curEnd, folio, offset) ==>
              mm.pfnOf(curFolio) * PAGE_SIZE + curEnd == mm.pfnOf(folio) * PAGE_SIZE + offset
    ensures curFolio != 0 && curEnd % PAGE_SIZE == 0 && offset % PAGE_SIZE == 0 && SamePgmap(mm, curFolio, folio) &&
            mm.pfnOf(curFolio) * PAGE_SIZE + curEnd == mm.pfnOf(folio) * PAGE_SIZE + offset ==>
              IsContiguousFolio(mm, curFolio, curEnd, folio, offset)
  {
    if curEnd % PAGE_SIZE == 0 && offset % PAGE_SIZE == 0 {
      PageBoundary(mm.pfnOf(curFolio), curEnd);
      PageBoundary(mm.pfnOf(folio), offset);
    }
  }

  // ---- summary flags -----------------------------------------------------

  /** The two bits of summary_flags: RLIST_SUM_HAS_P2PDMA_PAGE and RLIST_SUM_NOT_PAGELIST. */
  datatype Summary = Summary(p2p: bool, notPagelist: bool)

  const NO_SUMMARY: Summary := Summary(false, false)

  /**
   * push_cur_rlist's `start`: the folio offset, or the physical address
   * kept to the 32 bits of an unsigned int.
   */
  function StartOf(e: Entry): nat
  {
    if e.kind == MEM_FOLIO then e.offset else e.base % U32_LIMIT
  }

  predicate StartsOffPage(e: Entry)
  {
    StartOf(e) % PAGE_SIZE != 0
  }

  predicate EndsOffPage(e: Entry)
  {
    (StartOf(e) + e.length) % PAGE_SIZE != 0
  }

  /** last_summary_flags after pushing es: whether the last entry ends off a page boundary. */
  predicate Pending(es: seq<Entry>)
  {
    es != [] && EndsOffPage(es[|es| - 1])
  }

  /**
   * NOT_PAGELIST after pushing es with the push evidently intended: each
   * push ORs in the previous entry's pending end and flags its own start
   * when something was pushed before it (position != 0).
   */
  predicate NotPagelist(es: seq<Entry>)
  {
    if es == [] then false
    else
      var init := es[..|es| - 1];
      NotPagelist(init) || Pending(init) || (Wrap64(SumLen(init)) != 0 && StartsOffPage(es[|es| - 1]))
  }

  /** One push, as the lists see it. */
  lemma PushStep(es: seq<Entry>, e: Entry)
    ensures (es + [e])[..|es|] == es && (es + [e])[|es|] == e
    ensures NotPagelist(es + [e]) == (NotPagelist(es) || Pending(es) || (Wrap64(SumLen(es)) != 0 && StartsOffPage(e)))
    ensures Pending(es + [e]) == EndsOffPage(e)
  {
    assert (es + [e])[..|es|] == es;
  }

  /** The property rlist_cpu_is_pagelist promises: all but the first start, and all but the last end, on a page boundary. */
  predicate IsPagelist(es: seq<Entry>)
  {
    (forall k | 0 < k < |es| :: !StartsOffPage(es[k])) &&
    (forall k | 0 <= k < |es| - 1 :: !EndsOffPage(es[k]))
  }

  predicate Positive(es: seq<Entry>)
  {
    forall k | 0 <= k < |es| :: es[k].length > 0
  }

  lemma {:induction false} SumLenPositive(es: seq<Entry>)
    requires Positive(es) && es != []
    ensures SumLen(es) > 0
  {
    if |es| > 1 {
      SumLenPositive(es[..|es| - 1]);
    }
  }

  lemma {:induction false} SumLenPrefix(es: seq<Entry>, n: nat)
    requires n <= |es|
    ensures SumLen(es[..n]) <= SumLen(es)
    decreases |es|
  {
    if n == |es| {
      assert es[..n] == es;
    } else {
      assert SumLen(es) == SumLen(es[..|es| - 1]) + es[|es| - 1].length;
      assert es[..|es| - 1][..n] == es[..n];
      SumLenPrefix(es[..|es| - 1], n);
    }
  }

  /**
   * The intended flag computation is exact: for entries of nonzero length
   * whose total fits position's 64 bits, NOT_PAGELIST is set after the
   * pushes iff the list is not a page list.
   */
  lemma {:induction false} NotPagelistExact(es: seq<Entry>)
    requires Positive(es) && SumLen(es) < U64_LIMIT
    ensures NotPagelist(es) <==> !IsPagelist(es)
  {
    if es != [] {
      var init := es[..|es| - 1];
      var last := es[|es| - 1];
      SumLenPrefix(es, |es| - 1);
      assert Positive(init);
      NotPagelistExact(init);
      if init == [] {
        assert IsPagelist(es);
      } else {
        SumLenPositive(init);
        assert Wrap64(SumLen(init)) != 0;
        assert IsPagelist(es) <==> IsPagelist(init) && !EndsOffPage(init[|init| - 1]) && !StartsOffPage(last) by {
          assert forall k | 0 <= k < |init| :: es[k] == init[k];
        }
      }
    }
  }

  // ---- as written ----------------------------------------------------------

  /**
   * NOT_PAGELIST after the pushes as rlscpu_append_push_cur_rlist writes
   * them: `first = position != 0`, so the start test fires only when
   * nothing was pushed before.
   */
  predicate NotPagelistAsWritten(es: seq<Entry>)
  {
    if es == [] then false
    else
      var init := es[..|es| - 1];
      NotPagelistAsWritten(init) || Pending(init) || (Wrap64(SumLen(init)) == 0 && StartsOffPage(es[|es| - 1]))
  }

  /**
   * The flag after rlscpu_append_end as written: it clears the pending flag
   * of the entries before the final push, losing the end test of the
   * next-to-last entry.
   */
  predicate NotPagelistAtEndAsWritten(es: seq<Entry>)
  {
    if es == [] then false
    else
      var init := es[..|es| - 1];
      NotPagelistAsWritten(init) || (Wrap64(SumLen(init)) == 0 && StartsOffPage(es[|es| - 1]))
  }

  /** One folio entry of one page starting 256 bytes in: a page list, yet flagged. */
  lemma FirstStartFlagged()
    ensures IsPagelist([Entry(MEM_FOLIO, 0xf00, 1, 0x100, 0)])
    ensures NotPagelistAsWritten([Entry(MEM_FOLIO, 0xf00, 1, 0x100, 0)])
    ensures !NotPagelist([Entry(MEM_FOLIO, 0xf00, 1, 0x100, 0)])
  {
    var es := [Entry(MEM_FOLIO, 0xf00, 1, 0x100, 0)];
    assert es[..0] == [];
  }

  /** A second entry starting 256 bytes into its page: not a page list, yet not flagged. */
  lemma LaterStartMissed()
    ensures !IsPagelist([Entry(MEM_FOLIO, 0x1000, 1, 0, 0), Entry(MEM_FOLIO, 0xf00, 2, 0x100, 0)])
    ensures !NotPagelistAsWritten([Entry(MEM_FOLIO, 0x1000, 1, 0, 0), Entry(MEM_FOLIO, 0xf00, 2, 0x100, 0)])
    ensures NotPagelist([Entry(MEM_FOLIO, 0x1000, 1, 0, 0), Entry(MEM_FOLIO, 0xf00, 2, 0x100, 0)])
  {
    var a := Entry(MEM_FOLIO, 0x1000, 1, 0, 0);
    var b := Entry(MEM_FOLIO, 0xf00, 2, 0x100, 0);
    var es := [a, b];
    assert es[..1] == [a];
    assert [a][..0] == [];
    assert SumLen([a]) == 0x1000;
    assert !NotPagelistAsWritten([a]) && !Pending([a]) && !NotPagelist([a]);
    assert StartsOffPage(es[1]);
  }

  /** A first entry ending mid-page, then the final one: not a page list, yet not flagged at the end. */
  lemma NextToLastEndLost()
    ensures !IsPagelist([Entry(MEM_FOLIO, 0x800, 1, 0, 0), Entry(MEM_FOLIO, 0x1000, 2, 0, 0)])
    ensures !NotPagelistAtEndAsWritten([Entry(MEM_FOLIO, 0x800, 1, 0, 0), Entry(MEM_FOLIO, 0x1000, 2, 0, 0)])
    ensures NotPagelist([Entry(MEM_FOLIO, 0x800, 1, 0, 0), Entry(MEM_FOLIO, 0x1000, 2, 0, 0)])
  {
    var a := Entry(MEM_FOLIO, 0x800, 1, 0, 0);
    var b := Entry(MEM_FOLIO, 0x1000, 2, 0, 0);
    var es := [a, b];
    assert es[..1] == [a];
    assert [a][..0] == [];
    assert SumLen([a]) == 0x800;
    assert !NotPagelistAsWritten([a]) && Pending([a]);
    assert EndsOffPage(es[0]) && !StartsOffPage(es[1]);
  }

  /**
   * max_position as rlscpu_append_end writes it: rls_append adds the
   * length of the entry as encoded, which is a page count for FOLIO_PFN
   * entries.
   */
  function MaxPositionAsWritten(mm: MemMap, es: seq<Entry>): nat
  {
    Wrap64(SumLen(EncodeAll(mm, es))) % U61_LIMIT
  }

  /** One two-page, page-aligned folio: rlist_cpu_length reports 2 rather than 8192. */
  lemma LengthCountsPages(mm: MemMap, folio: u64)
    ensures SumLen([Entry(MEM_FOLIO, 0x2000, folio, 0, 0)]) == 0x2000
    ensures MaxPositionAsWritten(mm, [Entry(MEM_FOLIO, 0x2000, folio, 0, 0)]) == 2
  {
    var es := [Entry(MEM_FOLIO, 0x2000, folio, 0, 0)];
    assert es[..0] == [];
    assert EncodeAll(mm, es) == [EncodeCpu(mm, es[0])];
    assert [EncodeCpu(mm, es[0])][..0] == [];
  }

  /** Wrapping the 64-bit position and then cutting it to 61 bits is cutting it to 61 bits. */
  lemma Wrap61(x: nat)
    ensures Wrap64(x) % U61_LIMIT == x % U61_LIMIT
  {
    assert U64_LIMIT == 8 * U61_LIMIT;
  }

  /**
   * The append accumulator as the physical path writes it: pushed entries
   * and the pending `cur`.
   */
  datatype Acc = Acc(pushed: seq<Entry>, cur: Entry)

  const ZERO_ENTRY: Entry := Entry(MEM_FOLIO, 0, 0, 0, 0)

  /**
   * rlscpu_append_phys_rlist as written: push the pending range if any,
   * then put the physical range in cur and push it, leaving it in cur.
   */
  function PhysAsWritten(a: Acc, e: Entry): Acc
  {
    var a1 := if a.cur.length != 0 then Acc(a.pushed + [a.cur], a.cur.(length := 0)) else a;
    Acc(a1.pushed + [e], e)
  }

  /** rlscpu_append_end's push of a pending range. */
  function EndAcc(a: Acc): Acc
  {
    if a.cur.length != 0 then Acc(a.pushed + [a.cur], ZERO_ENTRY) else a
  }

  /** Appending one physical range and ending the append stores it twice. */
  lemma PhysicalPushedTwice(e: Entry)
    requires e.length != 0
    ensures EndAcc(PhysAsWritten(Acc([], ZERO_ENTRY), e)).pushed == [e, e]
  {
  }

  /** rlscpu_append_begin's return value as written: `true` (1) for PAGES storage. */
  function AppendBeginAsWritten(pagesStorage: bool): int
  {
    if pagesStorage then 1 else 0
  }

  /** The int return convention reads any nonzero value as an error. */
  lemma PagesBeginLooksFailed()
    ensures AppendBeginAsWritten(true) != 0
  {
  }

  // ---- the append path, as evidently intended ---------------------------

  /** Push the pending range, if it holds any bytes. */
  function PushPending(a: Acc): seq<Entry>
  {
    if a.cur.length != 0 then a.pushed + [a.cur] else a.pushed
  }

  /**
   * rlscpu_append_folio_rlist's merge test: the pending range is a FOLIO
   * range that the new one carries on (the end offset kept to 32 bits).
   */
  predicate FolioMerges(mm: MemMap, cur: Entry, folio: u64, offset: u32)
  {
    cur.kind == MEM_FOLIO && IsContiguousFolio(mm, cur.base, (cur.offset + cur.length) % U32_LIMIT, folio, offset)
  }

  /**
   * rlscpu_append_folio_rlist when every push succeeds: grow the pending
   * range (its length kept to 60 bits), or push it and start a new one.
   */
  function FolioStep(mm: MemMap, a: Acc, folio: u64, offset: u32, length: u64): Acc
  {
    if FolioMerges(mm, a.cur, folio, offset) then Acc(a.pushed, a.cur.(length := (a.cur.length + length) % U60_LIMIT))
    else Acc(PushPending(a), Entry(MEM_FOLIO, length % U60_LIMIT, folio, offset, 0))
  }

  /** FolioStep's two outcomes, spelled out. */
  lemma FolioStepCases(mm: MemMap, a: Acc, folio: u64, offset: u32, length: u64)
    ensures FolioMerges(mm, a.cur, folio, offset) ==>
              FolioStep(mm, a, folio, offset, length) == Acc(a.pushed, a.cur.(length := (a.cur.length + length) % U60_LIMIT))
    ensures !FolioMerges(mm, a.cur, folio, offset) ==>
              FolioStep(mm, a, folio, offset, length) == Acc(PushPending(a), Entry(MEM_FOLIO, length % U60_LIMIT, folio, offset, 0))
  {
  }

  /**
   * A merge extends the pending range in place: it starts where it did and
   * grows by the new bytes, which begin where it ended.
   */
  lemma MergeExtends(mm: MemMap, a: Acc, folio: u64, offset: u32, length: u64)
    requires FolioMerges(mm, a.cur, folio, offset)
    requires a.cur.offset + a.cur.length < U32_LIMIT && a.cur.length + length < U60_LIMIT
    ensures FolioStep(mm, a, folio, offset, length).pushed == a.pushed
    ensures Physical(mm, FolioStep(mm, a, folio, offset, length).cur) == Physical(mm, a.cur)
    ensures FolioStep(mm, a, folio, offset, length).cur.length == a.cur.length + length
    ensures Physical(mm, a.cur) + a.cur.length == mm.pfnOf(folio) * PAGE_SIZE + offset
  {
    ContiguousMeansAdjacent(mm, a.cur.base, (a.cur.offset + a.cur.length) % U32_LIMIT, folio, offset);
  }

  /** Without a merge the pending range is pushed whole and the new range becomes pending. */
  lemma NoMergePushes(mm: MemMap, a: Acc, folio: u64, offset: u32, length: u64)
    requires !FolioMerges(mm, a.cur, folio, offset) && a.cur.length != 0 && length < U60_LIMIT
    ensures FolioStep(mm, a, folio, offset, length).pushed == a.pushed + [a.cur]
    ensures Physical(mm, FolioStep(mm, a, folio, offset, length).cur) == mm.pfnOf(folio) * PAGE_SIZE + offset
    ensures FolioStep(mm, a, folio, offset, length).cur.length == length
  {
  }

  /**
   * rlscpu_append_phys_rlist as evidently intended: push the pending range
   * if any, then push the physical range and leave nothing pending.
   */
  function PhysStep(a: Acc, e: Entry): Acc
  {
    Acc(PushPending(a) + [e], e.(length := 0))
  }

  /** Appending one physical range and ending the append stores it once. */
  lemma PhysicalPushedOnce(e: Entry)
    requires e.length != 0
    ensures EndAcc(PhysStep(Acc([], ZERO_ENTRY), e)).pushed == [e]
  {
  }

  /** Each physical append stores exactly the ranges pending and given, once. */
  lemma PhysStepStores(a: Acc, e: Entry)
    ensures EndAcc(PhysStep(a, e)).pushed == PushPending(a) + [e]
    ensures |EndAcc(PhysAsWritten(a, e)).pushed| == |PushPending(a)| + (if e.length != 0 then 2 else 1)
  {
  }

  /**
   * The used part of the pages array after rlscpu_append_folio_pages, as
   * evidently intended, stores n frames from `page` at slot `at`.
   */
  function WritePages(ps: seq<nat>, at: nat, page: nat, n: nat): (r: seq<nat>)
    ensures |r| == |ps|
  {
    seq(|ps|, k requires 0 <= k < |ps| => if at <= k < at + n then page + (k - at) else ps[k])
  }

  /** rlscpu_append_folio_pages as written: every frame goes to slot `at`, which never moves. */
  function WritePagesAsWritten(ps: seq<nat>, at: nat, page: nat, n: nat): (r: seq<nat>)
    requires at < |ps| || n == 0
    ensures |r| == |ps|
  {
    if n == 0 then ps else ps[at := page + n - 1]
  }

  /**
   * The frames written form one run of consecutive pages, and the slots
   * outside it keep what they held.
   */
  lemma WrittenRun(ps: seq<nat>, at: nat, page: nat, n: nat)
    requires at + n <= |ps|
    ensures forall k | at <= k < at + n :: WritePages(ps, at, page, n)[k] == page + (k - at)
    ensures forall k | at <= k && k + 1 < at + n :: WritePages(ps, at, page, n)[k + 1] == WritePages(ps, at, page, n)[k] + 1
    ensures WritePages(ps, at, page, n)[..at] == ps[..at]
    ensures WritePages(ps, at, page, n)[at + n..] == ps[at + n..]
  {
  }

  /** Writing a two-page folio into two empty slots: the first frame is lost. */
  lemma SecondPageLost()
    ensures WritePages([0, 0], 0, 5, 2) == [5, 6]
    ensures WritePagesAsWritten([0, 0], 0, 5, 2) == [6, 0]
  {
    assert WritePages([0, 0], 0, 5, 2)[1] == 6;
  }

  // ---- what the pushes leave behind --------------------------------------

  /**
   * After pushing es (decoded): the rlist holds them encoded, the byte
   * position is their total mod 2^64, NOT_PAGELIST and the pending end
   * flag are what rlscpu_append_push_cur_rlist makes them.
   */
  predicate PushedState(mm: MemMap, es: seq<Entry>, stored: seq<Entry>, position: nat, notPagelist: bool, pending: bool)
  {
    stored == EncodeAll(mm, es) && (forall k | 0 <= k < |es| :: Storable(mm, es[k])) &&
    position == Wrap64(SumLen(es)) && notPagelist == NotPagelist(es) && pending == Pending(es)
  }

  /**
   * One push of a storable range e keeps PushedState: the new values are
   * the old ones with e pushed.
   */
  lemma PushedStateSnoc(mm: MemMap, es: seq<Entry>, stored: seq<Entry>, position: nat, notPagelist: bool, pending: bool,
                        e: Entry, es': seq<Entry>, stored': seq<Entry>, position': nat, notPagelist': bool, pending': bool)
    requires PushedState(mm, es, stored, position, notPagelist, pending) && Storable(mm, e)
    requires es' == es + [e] && stored' == stored + [EncodeCpu(mm, e)] && position' == Wrap64(position + e.length)
    requires notPagelist' == (notPagelist || pending || (position != 0 && StartsOffPage(e))) && pending' == EndsOffPage(e)
    ensures PushedState(mm, es', stored', position', notPagelist', pending')
  {
    EncodeAllSnoc(mm, es, e);
    PositionStep(es, e, position);
    PushStep(es, e);
    assert forall k | 0 <= k < |es| :: es'[k] == es[k];
  }
}
