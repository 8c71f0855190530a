// struct rlist_cpu, its read cursor rlist_cpu_state and its write cursor
// rlist_cpu_state_append, over RLIST_CPU storage (an rlist) and
// RLIST_CPU_PAGES storage (an external array of pages, named here by
// frame); RLIST_CPU_BIO storage is set up and queried for emptiness but not
// walked.
//
// The memory map and the outcome of each slab allocation are inputs.

module RlistCpuState {
  import opened Errno
  import opened RlistFormat
  import opened RlistState
  import opened RlistCpuFormat

  /** enum rlist_cpu_type: the backing storage. */
  datatype Storage = RlistStorage | PagesStorage | BioStorage

  /** struct rlist_cpu; the storage union's members are separate fields. */
  class RlistCpu {
    var kind: Storage
    /** RLIST_CPU storage. */
    const rlist: Rlist
    /** RLIST_CPU_PAGES storage: the pages, how many are used, how many may be. */
    var pages: array<nat>
    var size: nat
    var available: nat
    /** RLIST_CPU_BIO storage: bi_iter.bi_size of the bio. */
    var bioSize: nat
    var summary: Summary
    /** The 61-bit max_position: the sum of the lengths of every entry. */
    var maxPosition: nat

    ghost predicate Valid()
      reads this`size, this`available, this`pages, this`maxPosition, rlist
    {
      rlist.Valid() && Sized()
    }

    /** The bounds of the fields other than the rlist. */
    ghost predicate Sized()
      reads this`size, this`available, this`pages, this`maxPosition
    {
      size <= available <= pages.Length && maxPosition < U61_LIMIT
    }

    /** rlist_cpu_init: an empty rlist, no summary bits, length 0. */
    constructor ()
      ensures Valid() && kind == RlistStorage && rlist.chunks == []
      ensures summary == NO_SUMMARY && maxPosition == 0
    {
      kind := RlistStorage;
      rlist := new Rlist();
      pages := new nat[0];
      size, available, bioSize := 0, 0, 0;
      summary := NO_SUMMARY;
      maxPosition := 0;
    }

    /**
     * rlist_cpu_init_pages: iterate over an external array of pages; the
     * length is npages_used pages, and with CONFIG_PCI_P2PDMA a non-empty
     * array is taken to hold a P2PDMA page.
     */
    method InitPages(pages: array<nat>, used: nat, avail: nat, p2pdmaConfig: bool)
      requires rlist.Valid() && used <= avail <= pages.Length
      modifies this
      ensures Valid() && kind == PagesStorage && this.pages == pages && size == used && available == avail
      ensures maxPosition == (used * PAGE_SIZE) % U61_LIMIT
      ensures summary == Summary(used != 0 && p2pdmaConfig, false)
    {
      kind := PagesStorage;
      this.pages := pages;
      size, available := used, avail;
      maxPosition := (used * PAGE_SIZE) % U61_LIMIT;
      summary := Summary(used != 0 && p2pdmaConfig, false);
    }

    /**
     * rlist_cpu_init_bio: refer to a bio of the given length; it is never
     * taken to be a page list, and with CONFIG_PCI_P2PDMA a non-empty bio
     * is taken to hold a P2PDMA page.
     */
    method InitBio(bioSize: nat, length: u32, p2pdmaConfig: bool)
      requires Valid()
      modifies this
      ensures Valid() && kind == BioStorage && this.bioSize == bioSize && maxPosition == length
      ensures summary == Summary(length != 0 && p2pdmaConfig, true)
    {
      kind := BioStorage;
      this.bioSize := bioSize;
      maxPosition := length;
      summary := Summary(length != 0 && p2pdmaConfig, true);
    }

    /** rlist_cpu_length */
    function Length(): nat
      reads this
    {
      maxPosition
    }

    /** rlist_cpu_has_p2pdma */
    function HasP2pdma(): bool
      reads this
    {
      summary.p2p
    }

    /** rlist_cpu_is_pagelist */
    function IsPagelistFlag(): bool
      reads this
    {
      !summary.notPagelist
    }

    /** rlist_cpu_empty: no entry to iterate over, for each storage. */
    method Empty() returns (r: bool)
      requires Valid()
      ensures kind == RlistStorage ==> (r <==> Iterate(rlist.chunks, EncodingField) == [])
      ensures kind == PagesStorage ==> (r <==> size == 0)
      ensures kind == BioStorage ==> (r <==> bioSize == 0)
    {
      match kind
      case RlistStorage => r := RlistEmpty(rlist);
      case PagesStorage => r := size == 0;
      case BioStorage => r := bioSize == 0;
    }
  }

  /**
   * rlist_cpu_init_single_page: a list of one FOLIO entry for `length`
   * bytes at `offset` into a page (an offset of a page or more first moves
   * to a later page). The entry points at the bytes asked for.
   */
  method InitSinglePage(rcpu: RlistCpu, mm: MemMap, page: nat, offset: u32, length: u64,
                        allocOk: bool, stale: seq<u32>) returns (r: Status)
    requires rcpu.Valid() && rcpu.rlist.chunks == [] && |stale| == CHUNK_SLOTS
    requires Mapped(mm, page + offset / PAGE_SIZE)
    modifies rcpu.rlist
    ensures rcpu.rlist.Valid()
    ensures r.Success? <==> allocOk
    ensures r.Failure? ==> r.err == ENOMEM && rcpu.rlist.chunks == []
    ensures r.Success? ==> |Iterate(rcpu.rlist.chunks, EncodingField)| == 1
    ensures r.Success? ==> var e := DecodeCpu(mm, Iterate(rcpu.rlist.chunks, EncodingField)[0]);
      e.kind == MEM_FOLIO && e.length == length % U60_LIMIT && Physical(mm, e) == page * PAGE_SIZE + offset
  {
    var pg, off := page, offset;
    if off >= PAGE_SIZE {
      pg := pg + off / PAGE_SIZE;
      off := off % PAGE_SIZE;
    }
    var folio := PageFolio(mm, pg);
    var e := Entry(MEM_FOLIO, length % U60_LIMIT, folio, ((pg - mm.pfnOf(folio)) * PAGE_SIZE + off) % U32_LIMIT, 0);
    SinglePageEntry(mm, page, offset, length % U60_LIMIT);
    var enc := EncodeCpu(mm, e);
    r := InitSingle(rcpu.rlist, enc, allocOk, stale);
    DecodeEncodeCpu(mm, e);
  }

  /** The entry InitSinglePage stores points at page * PAGE_SIZE + offset. */
  lemma SinglePageEntry(mm: MemMap, page: nat, offset: u32, length: u60)
    requires Mapped(mm, page + offset / PAGE_SIZE)
    ensures var pg := page + offset / PAGE_SIZE;
            var folio := PageFolio(mm, pg);
            var e := Entry(MEM_FOLIO, length, folio, ((pg - mm.pfnOf(folio)) * PAGE_SIZE + offset % PAGE_SIZE) % U32_LIMIT, 0);
            Storable(mm, e) && Physical(mm, e) == page * PAGE_SIZE + offset
  {
    var pg := page + offset / PAGE_SIZE;
    var h := mm.head(pg);
    InFolioOffset(pg - h, offset % PAGE_SIZE);
    assert pg * PAGE_SIZE + offset % PAGE_SIZE == page * PAGE_SIZE + offset;
  }

  lemma InFolioOffset(idx: nat, off: nat)
    requires idx * PAGE_SIZE < U32_LIMIT && off < PAGE_SIZE
    ensures idx * PAGE_SIZE + off < U32_LIMIT
  {
    assert idx < 0x10_0000;
  }

  // ---- struct rlist_cpu_state -------------------------------------------

  /**
   * struct rlist_cpu_state: the rlist cursor (whose position the union
   * shares) for RLIST_CPU storage, the current page for RLIST_CPU_PAGES
   * storage, and the bytes left of the entry being cut into pieces.
   */
  class CpuState {
    const rcpu: RlistCpu
    const rls: State
    var curPage: nat
    var pagesPosition: u64
    var remainingLength: u60

    /** RLIST_CPU_STATE(name, rlist_cpu) */
    constructor (rcpu: RlistCpu)
      ensures this.rcpu == rcpu && rls.rlist == rcpu.rlist && fresh(rls)
      ensures curPage == 0 && pagesPosition == 0 && remainingLength == 0
    {
      this.rcpu := rcpu;
      rls := new State(rcpu.rlist);
      curPage, pagesPosition, remainingLength := 0, 0, 0;
    }

    ghost predicate Valid()
      reads this, rcpu, rcpu.rlist
    {
      rcpu.Valid() && rls.rlist == rcpu.rlist && rcpu.kind != BioStorage
    }

    /** rlscpu_position: the position of the entry last returned. */
    function Position(): u64
      reads this, rcpu, rls
    {
      if rcpu.kind == RlistStorage then rls.position else pagesPosition
    }

    /** The used part of the pages array. */
    ghost function Pages(): seq<nat>
      reads rcpu, rcpu.pages
      requires rcpu.size <= rcpu.pages.Length
    {
      rcpu.pages[..rcpu.size]
    }

    /**
     * rlscpu_decode_pages: the maximal run of consecutive pages from
     * cur_page as one FOLIO entry; cur_page is left on the run's last page
     * and position is cur_page's byte offset. False past the end.
     */
    method DecodePages(mm: MemMap) returns (ok: bool, entry: Entry)
      requires rcpu.Valid()
      modifies this`curPage, this`pagesPosition
      ensures pagesPosition == Wrap64(old(curPage) * PAGE_SIZE)
      ensures ok <==> old(curPage) < rcpu.size
      ensures !ok ==> curPage == old(curPage)
      ensures ok ==> RunAt(rcpu.pages[..rcpu.size], old(curPage), curPage) &&
                     entry == RunEntry(mm, rcpu.pages[old(curPage)], curPage - old(curPage) + 1)
    {
      var first := curPage;
      pagesPosition := Wrap64(first * PAGE_SIZE);
      if first >= rcpu.size {
        return false, ZERO_ENTRY;
      }
      var npages := 1;
      var cur := first;
      while cur != rcpu.size - 1
        invariant first <= cur < rcpu.size && npages == cur - first + 1
        invariant forall k | first <= k < cur :: rcpu.pages[k + 1] == rcpu.pages[k] + 1
        decreases rcpu.size - cur
      {
        if rcpu.pages[cur] + 1 == rcpu.pages[cur + 1] {
          npages := npages + 1;
          cur := cur + 1;
        } else {
          break;
        }
      }
      curPage := cur;
      ok, entry := true, RunEntry(mm, rcpu.pages[first], npages);
    }

    /** rlscpu_reset: the first entry, at position 0. */
    method Reset(mm: MemMap) returns (ok: bool, entry: Entry)
      requires Valid()
      modifies this, rls
      ensures Position() == 0
      ensures rcpu.kind == RlistStorage ==>
                (ok <==> Iterate(rcpu.rlist.chunks, EncodingField) != []) &&
                (ok ==> rls.OnEntry() && rls.Rest() == Iterate(rcpu.rlist.chunks, EncodingField) &&
                        entry == DecodeCpu(mm, rls.Rest()[0]))
      ensures rcpu.kind == PagesStorage ==>
                (ok <==> 0 < rcpu.size) &&
                (ok ==> RunAt(rcpu.pages[..rcpu.size], 0, curPage) && entry == RunEntry(mm, rcpu.pages[0], curPage + 1))
    {
      if rcpu.kind == RlistStorage {
        var e;
        ok, e := rls.Reset();
        entry := if ok then DecodeCpu(mm, e) else e;
      } else {
        curPage := 0;
        pagesPosition := 0;
        ok, entry := DecodePages(mm);
      }
    }

    /**
     * rlscpu_next: the entry after `entry`. For an rlist, position grows
     * by entry's length (as the caller has left it); for pages, the run
     * after the one cur_page ends.
     */
    method Next(mm: MemMap, entry: Entry) returns (ok: bool, next: Entry)
      requires Valid() && (rcpu.kind == RlistStorage ==> rls.OnEntry())
      modifies this, rls
      ensures rcpu.kind == RlistStorage ==>
                rls.position == Wrap64(old(rls.position) + entry.length) && old(rls.Rest()) != [] &&
                (ok <==> old(rls.Rest())[1..] != []) &&
                (ok ==> rls.OnEntry() && rls.Rest() == old(rls.Rest())[1..] && next == DecodeCpu(mm, rls.Rest()[0]))
      ensures rcpu.kind == PagesStorage ==>
                pagesPosition == Wrap64((old(curPage) + 1) * PAGE_SIZE) &&
                (ok <==> old(curPage) + 1 < rcpu.size) &&
                (ok ==> RunAt(rcpu.pages[..rcpu.size], old(curPage) + 1, curPage) &&
                        next == RunEntry(mm, rcpu.pages[old(curPage) + 1], curPage - old(curPage)))
    {
      if rcpu.kind == RlistStorage {
        var e;
        ok, e := rls.Next(entry);
        next := if ok then DecodeCpu(mm, e) else e;
      } else {
        ok, next := NextRun(mm);
      }
    }

    /** rlscpu_next over pages storage: the run after the one cur_page ends. */
    method NextRun(mm: MemMap) returns (ok: bool, next: Entry)
      requires rcpu.Valid()
      modifies this`curPage, this`pagesPosition
      ensures pagesPosition == Wrap64((old(curPage) + 1) * PAGE_SIZE)
      ensures ok <==> old(curPage) + 1 < rcpu.size
      ensures ok ==> RunAt(rcpu.pages[..rcpu.size], old(curPage) + 1, curPage) &&
                     next == RunEntry(mm, rcpu.pages[old(curPage) + 1], curPage - old(curPage))
    {
      curPage := curPage + 1;
      ok, next := DecodePages(mm);
    }

    /**
     * rlscpu_seek over pages storage: the run starting at the page holding
     * `position`; false when that page is past the end.
     */
    method SeekPages(mm: MemMap, position: u64) returns (ok: bool, entry: Entry)
      requires Valid() && rcpu.kind == PagesStorage
      modifies this`curPage, this`pagesPosition
      ensures ok <==> position / PAGE_SIZE < rcpu.size
      ensures ok ==> pagesPosition == Wrap64((position / PAGE_SIZE) * PAGE_SIZE) &&
                     RunAt(rcpu.pages[..rcpu.size], position / PAGE_SIZE, curPage) &&
                     entry == RunEntry(mm, rcpu.pages[position / PAGE_SIZE], curPage - position / PAGE_SIZE + 1)
    {
      if position / PAGE_SIZE >= rcpu.size {
        return false, ZERO_ENTRY;
      }
      curPage := position / PAGE_SIZE;
      ok, entry := DecodePages(mm);
    }

    /**
     * rlscpu_read_folio: cut the first piece, up to the end of the entry's
     * folio, off a FOLIO entry; the rest is left in remaining_length. Any
     * other entry type stops the walk.
     */
    method ReadFolio(mm: MemMap, entry: Entry) returns (ok: bool, chunk: Entry)
      modifies this`remainingLength
      ensures ok <==> entry.kind == MEM_FOLIO
      ensures ok ==> chunk == entry.(length := chunk.length) && chunk.length + remainingLength == entry.length
      ensures ok ==> [Piece(chunk.base, chunk.offset, chunk.length)] + FolioTodo(mm, chunk.base, remainingLength) ==
                     FolioPieces(mm, entry.base, entry.offset, entry.length)
    {
      if entry.kind != MEM_FOLIO {
        return false, entry;
      }
      var length := entry.length;
      chunk := entry.(length := FolioChunk(mm, entry.base, entry.offset, length));
      remainingLength := length - chunk.length;
      ok := true;
    }

    /**
     * rlscpu_next_folio: the next piece of the entry being cut — a prefix of
     * the next folio — or else the first piece of the next entry. Position
     * grows by the length of the piece just returned.
     */
    method NextFolio(mm: MemMap, chunk: Entry) returns (ok: bool, next: Entry, whole: Entry)
      requires Valid() && (rcpu.kind == RlistStorage ==> rls.OnEntry())
      modifies this, rls
      ensures old(remainingLength) != 0 ==>
                ok && Position() == Wrap64(old(Position()) + chunk.length) &&
                next == chunk.(base := next.base, offset := 0, length := next.length) &&
                [Piece(next.base, 0, next.length)] + FolioTodo(mm, next.base, remainingLength) ==
                  FolioTodo(mm, chunk.base, old(remainingLength))
      ensures old(remainingLength) == 0 && rcpu.kind == RlistStorage ==>
                rls.position == Wrap64(old(rls.position) + chunk.length) && old(rls.Rest()) != [] &&
                (ok <==> old(rls.Rest())[1..] != [] && whole.kind == MEM_FOLIO) &&
                (old(rls.Rest())[1..] != [] ==>
                   rls.OnEntry() && rls.Rest() == old(rls.Rest())[1..] && whole == DecodeCpu(mm, rls.Rest()[0]))
      ensures old(remainingLength) == 0 && rcpu.kind == PagesStorage ==>
                (ok <==> old(curPage) + 1 < rcpu.size) &&
                (ok ==> RunAt(rcpu.pages[..rcpu.size], old(curPage) + 1, curPage) &&
                        whole == RunEntry(mm, rcpu.pages[old(curPage) + 1], curPage - old(curPage)))
      ensures old(remainingLength) == 0 && ok ==>
                [Piece(next.base, next.offset, next.length)] + FolioTodo(mm, next.base, remainingLength) ==
                  FolioPieces(mm, whole.base, whole.offset, whole.length)
    {
      if remainingLength != 0 {
        if rcpu.kind == RlistStorage {
          rls.position := Wrap64(rls.position + chunk.length);
        } else {
          pagesPosition := Wrap64(pagesPosition + chunk.length);
        }
        var folio := FolioNext(mm, chunk.base);
        var length := FolioChunk(mm, folio, 0, remainingLength);
        next := chunk.(base := folio, offset := 0, length := length);
        remainingLength := remainingLength - length;
        return true, next, next;
      }
      ok, whole := Next(mm, chunk);
      if !ok {
        return false, whole, whole;
      }
      ok, next := ReadFolio(mm, whole);
    }

    /**
     * rlscpu_read_page: cut the first piece, up to the end of its page, off
     * a FOLIO entry: the page is the folio's page holding the entry's first
     * byte, the offset is into that page.
     */
    method ReadPage(mm: MemMap, entry: Entry) returns (ok: bool, page: nat, chunk: Entry)
      modifies this`remainingLength
      ensures ok <==> entry.kind == MEM_FOLIO
      ensures ok ==> chunk == entry.(offset := chunk.offset, length := chunk.length) &&
                     chunk.length + remainingLength == entry.length &&
                     page * PAGE_SIZE + chunk.offset == Physical(mm, entry)
      ensures ok ==> chunk.offset < PAGE_SIZE &&
                     [Piece(page, chunk.offset, chunk.length)] + PageTodo(page, remainingLength) ==
                       PagePieces(page, chunk.offset, entry.length)
    {
      if entry.kind != MEM_FOLIO {
        return false, 0, entry;
      }
      var length := entry.length;
      page := mm.pfnOf(entry.base) + entry.offset / PAGE_SIZE;
      var pageOffset := entry.offset % PAGE_SIZE;
      chunk := entry.(offset := pageOffset, length := PageChunk(pageOffset, length));
      remainingLength := length - chunk.length;
      ok := true;
    }

    /**
     * rlscpu_next_page: the next piece of the entry being cut — a prefix of
     * the next frame — or else the first piece of the next entry.
     */
    method NextPage(mm: MemMap, page: nat, chunk: Entry) returns (ok: bool, nextPage: nat, next: Entry, whole: Entry)
      requires Valid() && (rcpu.kind == RlistStorage ==> rls.OnEntry())
      modifies this, rls
      ensures old(remainingLength) != 0 ==>
                ok && Position() == Wrap64(old(Position()) + chunk.length) && nextPage == page + 1 &&
                next == chunk.(offset := 0, length := next.length) &&
                [Piece(nextPage, 0, next.length)] + PageTodo(nextPage, remainingLength) ==
                  PageTodo(page, old(remainingLength))
      ensures old(remainingLength) == 0 && rcpu.kind == RlistStorage ==>
                rls.position == Wrap64(old(rls.position) + chunk.length) && old(rls.Rest()) != [] &&
                (ok <==> old(rls.Rest())[1..] != [] && whole.kind == MEM_FOLIO) &&
                (old(rls.Rest())[1..] != [] ==>
                   rls.OnEntry() && rls.Rest() == old(rls.Rest())[1..] && whole == DecodeCpu(mm, rls.Rest()[0]))
      ensures old(remainingLength) == 0 && rcpu.kind == PagesStorage ==>
                (ok <==> old(curPage) + 1 < rcpu.size) &&
                (ok ==> RunAt(rcpu.pages[..rcpu.size], old(curPage) + 1, curPage) &&
                        whole == RunEntry(mm, rcpu.pages[old(curPage) + 1], curPage - old(curPage)))
      ensures old(remainingLength) == 0 && ok ==>
                next.offset < PAGE_SIZE && nextPage * PAGE_SIZE + next.offset == Physical(mm, whole) &&
                [Piece(nextPage, next.offset, next.length)] + PageTodo(nextPage, remainingLength) ==
                  PagePieces(nextPage, next.offset, whole.length)
    {
      if remainingLength != 0 {
        if rcpu.kind == RlistStorage {
          rls.position := Wrap64(rls.position + chunk.length);
        } else {
          pagesPosition := Wrap64(pagesPosition + chunk.length);
        }
        var length := PageChunk(0, remainingLength);
        next := chunk.(offset := 0, length := length);
        remainingLength := remainingLength - length;
        return true, page + 1, next, next;
      }
      ok, whole := Next(mm, chunk);
      if !ok {
        return false, page, whole, whole;
      }
      ok, nextPage, next := ReadPage(mm, whole);
    }
  }

  /**
   * The entries a walk over rcpu yields, decoded: the rlist's entries, or
   * one FOLIO entry per run of consecutive pages. Bio storage is not
   * walked here.
   */
  ghost function CpuEntries(mm: MemMap, rcpu: RlistCpu): seq<Entry>
    reads rcpu, rcpu.rlist, rcpu.pages
    requires rcpu.Valid()
  {
    match rcpu.kind
    case RlistStorage => DecodeAll(mm, Iterate(rcpu.rlist.chunks, EncodingField))
    case PagesStorage => PageRuns(mm, rcpu.pages[..rcpu.size], 0)
    case BioStorage => []
  }

  /** rlist_cpu_first: rlscpu_reset on a fresh cursor, the first entry of the walk. */
  method First(rcpu: RlistCpu, mm: MemMap) returns (ok: bool, entry: Entry)
    requires rcpu.Valid() && rcpu.kind != BioStorage
    ensures ok <==> CpuEntries(mm, rcpu) != []
    ensures ok ==> entry == CpuEntries(mm, rcpu)[0]
  {
    var rls := new CpuState(rcpu);
    ok, entry := rls.Reset(mm);
    if ok {
      if rcpu.kind == RlistStorage {
        DecodeAllAt(mm, Iterate(rcpu.rlist.chunks, EncodingField), 0);
      } else {
        RunsAt(mm, rcpu.pages[..rcpu.size], 0, rls.curPage);
      }
    }
  }

  /**
   * rlist_cpu_state_append over RLIST_CPU storage: the rlist append cursor
   * holds the pushed ranges encoded, position counts their bytes, and
   * NOT_PAGELIST and the pending flag are what the pushes so far make them.
   */
  ghost predicate AppendingTo(mm: MemMap, rcpu: RlistCpu, rlsa: AppendState, pushed: seq<Entry>, position: nat, lastPending: bool)
    reads rcpu, rcpu.rlist, rlsa`chunk, rlsa`curEntryIdx, rlsa`layout, rlsa`position
  {
    rcpu.Sized() && rcpu.kind == RlistStorage && rlsa.rlist == rcpu.rlist && rlsa.Valid() && rlsa.Counted() &&
    PushedState(mm, pushed, rlsa.Entries(), position, rcpu.summary.notPagelist, lastPending)
  }
}
