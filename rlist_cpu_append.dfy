// struct rlist_cpu_state_append: building a struct rlist_cpu, over RLIST_CPU
// storage (ranges merged, encoded and pushed into an rlist) and
// RLIST_CPU_PAGES storage (frames written into the pages array).
//
// The memory map and the outcome of each slab allocation are inputs.

module RlistCpuAppend {
  import opened Errno
  import opened RlistFormat
  import opened RlistState
  import opened RlistCpuFormat
  import opened RlistCpuState

  /**
   * struct rlist_cpu_state_append: the rlist append cursor (RLIST_CPU) or
   * the next free page slot (RLIST_CPU_PAGES), the pending range `cur`
   * (kept decoded here) and last_summary_flags, whose one bit says the
   * last range pushed ends off a page boundary.
   *
   * The rlist cursor's position counts lengths as stored, so a FOLIO_PFN
   * entry adds its page count; `position` is the byte count of what was
   * pushed, which max_position is evidently meant to be.
   */
  class CpuAppendState {
    const rcpu: RlistCpu
    const rlsa: AppendState
    var cur: Entry
    var lastPending: bool
    var curPage: nat
    var position: u64
    /** The ranges pushed so far, decoded. */
    ghost var pushed: seq<Entry>

    /** RLIST_CPU_STATE_APPEND(name, rlist_cpu) */
    constructor (rcpu: RlistCpu)
      ensures this.rcpu == rcpu && rlsa.rlist == rcpu.rlist && fresh(rlsa)
      ensures cur == ZERO_ENTRY && !lastPending && curPage == 0 && position == 0 && pushed == []
    {
      this.rcpu := rcpu;
      rlsa := new AppendState(rcpu.rlist);
      cur := ZERO_ENTRY;
      lastPending := false;
      curPage, position := 0, 0;
      pushed := [];
    }

    /**
     * Appending to RLIST_CPU storage: the rlist holds the pushed ranges,
     * encoded; position counts their bytes; NOT_PAGELIST and the pending
     * flag are what the pushes so far make them.
     */
    ghost predicate Appending(mm: MemMap)
      reads this`pushed, this`position, this`lastPending, rcpu, rcpu.rlist
      reads rlsa`chunk, rlsa`curEntryIdx, rlsa`layout, rlsa`position
    {
      AppendingTo(mm, rcpu, rlsa, pushed, position, lastPending)
    }

    /** The pending range is the cleared one or may be stored. */
    ghost predicate CurStorable(mm: MemMap)
      reads this`cur
    {
      cur == ZERO_ENTRY || Storable(mm, cur)
    }

    /** Appending to RLIST_CPU_PAGES storage: cur_page is within the array's capacity. */
    ghost predicate PagesAppending()
      reads this`curPage, rcpu, rcpu.rlist
    {
      rcpu.Valid() && rcpu.kind == PagesStorage && curPage <= rcpu.available
    }

    ghost function Model(): Acc
      reads this`pushed, this`cur
    {
      Acc(pushed, cur)
    }

    /**
     * rlscpu_append_begin: no summary bits, length 0, an empty pending
     * range; for pages, the first slot. The pages case is evidently meant
     * to return 0, as the rlist case does on success.
     */
    method Begin(mm: MemMap) returns (r: Status)
      requires rcpu.Valid() && rcpu.kind != BioStorage && rlsa.rlist == rcpu.rlist
      requires rcpu.kind == RlistStorage ==> rcpu.rlist.chunks == []
      modifies this, rlsa, rcpu`summary, rcpu`maxPosition
      ensures r == Success && rcpu.summary == NO_SUMMARY && rcpu.maxPosition == 0
      ensures rcpu.kind == RlistStorage ==> Appending(mm) && CurStorable(mm) && pushed == [] && cur == ZERO_ENTRY
      ensures rcpu.kind == PagesStorage ==> PagesAppending() && curPage == 0
    {
      rcpu.summary := NO_SUMMARY;
      rcpu.maxPosition := 0;
      if rcpu.kind == RlistStorage {
        cur := ZERO_ENTRY;
        lastPending := false;
        position := 0;
        pushed := [];
        r := rlsa.Begin();
      } else {
        curPage := 0;
        r := Success;
      }
    }

    /**
     * rlscpu_append_push_cur_rlist, with `first` meaning nothing was pushed
     * before: store the pending range encoded, fold the previous range's
     * end test into NOT_PAGELIST, test this range's start unless it is the
     * first, and remember whether it ends off a page. On success `cur`
     * holds the encoded entry; on failure it is decoded back.
     */
    method PushCur(mm: MemMap, allocOk: bool, stale: seq<u32>) returns (r: Status)
      requires Appending(mm) && Storable(mm, cur) && |stale| == CHUNK_SLOTS
      modifies this`cur, this`lastPending, this`position, this`pushed, rlsa, rcpu.rlist, rcpu`summary
      ensures Appending(mm) && rcpu.summary.p2p == old(rcpu.summary.p2p)
      ensures r.Success? <==> (old(|rcpu.rlist.chunks|) > 0 && old(rlsa.curEntryIdx) + Size(EncodeCpu(mm, old(cur))) <= CHUNK_SLOTS) ||
                              (!rlsa.noAlloc && allocOk)
      ensures r.Success? ==> pushed == old(pushed) + [old(cur)] && cur == EncodeCpu(mm, old(cur))
      ensures r.Failure? ==> pushed == old(pushed) && cur == old(cur) && r.err == (if rlsa.noAlloc then ENOSPC else ENOMEM)
    {
      var e := cur;
      ghost var stored := rlsa.Entries();
      var enc := EncodeCpu(mm, e);
      r := rlsa.Append(enc, allocOk, stale);
      if r.Success? {
        Record(mm, e, enc, stored);
      }
    }

    /** The bookkeeping of push_cur_rlist once e is stored, as enc, after what was stored before. */
    method Record(mm: MemMap, e: Entry, enc: Entry, ghost stored: seq<Entry>)
      requires enc == EncodeCpu(mm, e) && Storable(mm, e)
      requires rcpu.Sized() && rcpu.kind == RlistStorage && rlsa.rlist == rcpu.rlist && rlsa.Valid() && rlsa.Counted()
      requires rlsa.Entries() == stored + [enc]
      requires PushedState(mm, pushed, stored, position, rcpu.summary.notPagelist, lastPending)
      modifies this`cur, this`lastPending, this`position, this`pushed, rcpu`summary
      ensures Appending(mm)
      ensures pushed == old(pushed) + [e] && cur == enc && rcpu.summary.p2p == old(rcpu.summary.p2p)
    {
      Flags(mm, e, enc, stored);
    }

    /** The summary flag, pending flag and position updates of push_cur_rlist. */
    method Flags(mm: MemMap, e: Entry, enc: Entry, ghost stored: seq<Entry>)
      requires enc == EncodeCpu(mm, e) && Storable(mm, e)
      requires PushedState(mm, pushed, stored, position, rcpu.summary.notPagelist, lastPending)
      modifies this`cur, this`lastPending, this`position, this`pushed, rcpu`summary
      ensures PushedState(mm, pushed, stored + [enc], position, rcpu.summary.notPagelist, lastPending)
      ensures pushed == old(pushed) + [e] && cur == enc && rcpu.summary.p2p == old(rcpu.summary.p2p)
    {
      ghost var es, np, pend, pos := pushed, rcpu.summary.notPagelist, lastPending, position;
      var first := position == 0;
      var start := StartOf(e);
      cur := enc;
      pushed := pushed + [e];
      position := Wrap64(position + e.length);
      var flag := rcpu.summary.notPagelist || lastPending || (!first && start % PAGE_SIZE != 0);
      rcpu.summary := rcpu.summary.(notPagelist := flag);
      lastPending := (start + e.length) % PAGE_SIZE != 0;
      PushedStateSnoc(mm, es, stored, pos, np, pend, e, pushed, stored + [enc], position, rcpu.summary.notPagelist, lastPending);
    }

    /**
     * rlscpu_append_folio_rlist: grow the pending range when the new one
     * carries on from it, else push it (when it holds bytes) and make the
     * new range pending. Only the push can fail, and then nothing changes.
     */
    method AppendFolioRlist(mm: MemMap, folio: u64, offset: u32, length: u64, allocOk: bool, stale: seq<u32>)
      returns (r: Status)
      requires Appending(mm) && CurStorable(mm) && FolioPtrOk(mm, folio) && |stale| == CHUNK_SLOTS
      modifies this`cur, this`lastPending, this`position, this`pushed, rlsa, rcpu.rlist, rcpu`summary
      ensures Appending(mm) && CurStorable(mm) && rcpu.summary.p2p == old(rcpu.summary.p2p)
      ensures r.Success? ==> Model() == FolioStep(mm, old(Model()), folio, offset, length)
      ensures FolioMerges(mm, old(cur), folio, offset) || old(cur).length == 0 ==> r.Success?
      ensures r.Failure? ==> Model() == old(Model()) && r.err == (if rlsa.noAlloc then ENOSPC else ENOMEM)
    {
      ghost var a := Model();
      FolioStepCases(mm, a, folio, offset, length);
      if FolioMerges(mm, cur, folio, offset) {
        Merge(mm, length);
        return Success;
      }
      r := StartRange(mm, folio, offset, length, allocOk, stale);
    }

    /** Grow the pending range by length bytes, its length kept to 60 bits. */
    method Merge(mm: MemMap, length: u64)
      requires CurStorable(mm) && cur.kind == MEM_FOLIO && cur.base != 0
      modifies this`cur
      ensures CurStorable(mm) && Model() == Acc(pushed, old(cur).(length := (old(cur).length + length) % U60_LIMIT))
    {
      cur := cur.(length := (cur.length + length) % U60_LIMIT);
    }

    /** The rest of rlscpu_append_folio_rlist: push the pending range if it holds bytes, then make the new range pending. */
    method StartRange(mm: MemMap, folio: u64, offset: u32, length: u64, allocOk: bool, stale: seq<u32>) returns (r: Status)
      requires Appending(mm) && CurStorable(mm) && FolioPtrOk(mm, folio) && |stale| == CHUNK_SLOTS
      modifies this`cur, this`lastPending, this`position, this`pushed, rlsa, rcpu.rlist, rcpu`summary
      ensures Appending(mm) && CurStorable(mm) && rcpu.summary.p2p == old(rcpu.summary.p2p)
      ensures r.Success? ==> Model() == Acc(PushPending(old(Model())), Entry(MEM_FOLIO, length % U60_LIMIT, folio, offset, 0))
      ensures old(cur).length == 0 ==> r.Success?
      ensures r.Failure? ==> Model() == old(Model()) && r.err == (if rlsa.noAlloc then ENOSPC else ENOMEM)
    {
      if cur.length != 0 {
        r := PushCur(mm, allocOk, stale);
        if r.Failure? {
          return;
        }
      }
      cur := Entry(MEM_FOLIO, length % U60_LIMIT, folio, offset, 0);
      r := Success;
    }

    /**
     * rlscpu_append_folio_pages, storing each page at the next free slot as
     * evidently intended: EINVAL unless offset and length are whole pages,
     * ENOSPC when the free slots are fewer than the pages.
     */
    method AppendFolioPages(mm: MemMap, folio: u64, offset: u32, length: u64) returns (r: Status)
      requires PagesAppending()
      modifies rcpu.pages, this`curPage
      ensures PagesAppending()
      ensures r.Success? <==> offset % PAGE_SIZE == 0 && length % PAGE_SIZE == 0 && length / PAGE_SIZE <= rcpu.available - old(curPage)
      ensures r.Failure? ==> r.err == (if offset % PAGE_SIZE != 0 || length % PAGE_SIZE != 0 then EINVAL else ENOSPC)
      ensures r.Failure? ==> rcpu.pages[..] == old(rcpu.pages[..]) && curPage == old(curPage)
      ensures r.Success? ==> curPage == old(curPage) + length / PAGE_SIZE &&
                             rcpu.pages[..] == WritePages(old(rcpu.pages[..]), old(curPage), mm.pfnOf(folio) + offset / PAGE_SIZE, length / PAGE_SIZE)
    {
      if offset % PAGE_SIZE != 0 || length % PAGE_SIZE != 0 {
        return Failure(EINVAL);
      }
      if rcpu.available - curPage < length / PAGE_SIZE {
        return Failure(ENOSPC);
      }
      ghost var ps := rcpu.pages[..];
      ghost var at := curPage;
      var first := mm.pfnOf(folio) + offset / PAGE_SIZE;
      var page := first;
      var left: nat := length / PAGE_SIZE;
      while left != 0
        invariant curPage + left == at + length / PAGE_SIZE && page == first + (curPage - at)
        invariant rcpu.pages[..] == WritePages(ps, at, first, curPage - at)
      {
        rcpu.pages[curPage] := page;
        curPage := curPage + 1;
        page := page + 1;
        left := left - 1;
      }
      r := Success;
    }

    /**
     * rlscpu_append_folio_pages as written: the loop stores every page
     * through cur_page without moving it, so the slot is overwritten and
     * the array does not grow.
     */
    method AppendFolioPagesAsWritten(mm: MemMap, folio: u64, offset: u32, length: u64) returns (r: Status)
      requires PagesAppending()
      modifies rcpu.pages
      ensures r.Success? <==> offset % PAGE_SIZE == 0 && length % PAGE_SIZE == 0 && length / PAGE_SIZE <= rcpu.available - curPage
      ensures r.Success? ==>
                rcpu.pages[..] == WritePagesAsWritten(old(rcpu.pages[..]), curPage, mm.pfnOf(folio) + offset / PAGE_SIZE, length / PAGE_SIZE)
      ensures r.Failure? ==> rcpu.pages[..] == old(rcpu.pages[..])
    {
      if offset % PAGE_SIZE != 0 || length % PAGE_SIZE != 0 {
        return Failure(EINVAL);
      }
      if rcpu.available - curPage < length / PAGE_SIZE {
        return Failure(ENOSPC);
      }
      ghost var ps := rcpu.pages[..];
      var first := mm.pfnOf(folio) + offset / PAGE_SIZE;
      var page := first;
      var left: nat := length / PAGE_SIZE;
      while left != 0
        invariant left <= length / PAGE_SIZE && page == first + (length / PAGE_SIZE - left)
        invariant rcpu.pages[..] == WritePagesAsWritten(ps, curPage, first, length / PAGE_SIZE - left)
      {
        rcpu.pages[curPage] := page;
        page := page + 1;
        left := left - 1;
      }
      r := Success;
    }

    /**
     * rlscpu_append_folio: append to the storage in use, then note a
     * P2PDMA folio in the summary.
     */
    method AppendFolio(mm: MemMap, folio: u64, offset: u32, length: u64, allocOk: bool, stale: seq<u32>) returns (r: Status)
      requires rcpu.kind == RlistStorage ==> Appending(mm) && CurStorable(mm) && FolioPtrOk(mm, folio) && |stale| == CHUNK_SLOTS
      requires rcpu.kind == PagesStorage ==> PagesAppending()
      requires rcpu.kind != BioStorage
      modifies this`cur, this`lastPending, this`position, this`pushed, this`curPage, rlsa, rcpu.rlist, rcpu`summary, rcpu.pages
      ensures rcpu.summary.p2p == (old(rcpu.summary.p2p) || (r.Success? && mm.p2p(mm.pfnOf(folio))))
      ensures rcpu.kind == RlistStorage ==>
                Appending(mm) && CurStorable(mm) &&
                (r.Success? ==> Model() == FolioStep(mm, old(Model()), folio, offset, length)) &&
                (FolioMerges(mm, old(cur), folio, offset) || old(cur).length == 0 ==> r.Success?) &&
                (r.Failure? ==> Model() == old(Model()) && r.err == (if rlsa.noAlloc then ENOSPC else ENOMEM))
      ensures rcpu.kind == PagesStorage ==>
                PagesAppending() &&
                (r.Success? <==> offset % PAGE_SIZE == 0 && length % PAGE_SIZE == 0 && length / PAGE_SIZE <= rcpu.available - old(curPage)) &&
                (r.Failure? ==> r.err == (if offset % PAGE_SIZE != 0 || length % PAGE_SIZE != 0 then EINVAL else ENOSPC) &&
                                rcpu.pages[..] == old(rcpu.pages[..]) && curPage == old(curPage)) &&
                (r.Success? ==> curPage == old(curPage) + length / PAGE_SIZE &&
                                rcpu.pages[..] == WritePages(old(rcpu.pages[..]), old(curPage), mm.pfnOf(folio) + offset / PAGE_SIZE, length / PAGE_SIZE))
    {
      if rcpu.kind == RlistStorage {
        r := AppendFolioRlist(mm, folio, offset, length, allocOk, stale);
      } else {
        r := AppendFolioPages(mm, folio, offset, length);
      }
      if r.Success? && mm.p2p(mm.pfnOf(folio)) {
        MarkP2P(mm);
      }
    }

    /** Set the P2PDMA summary bit; NOT_PAGELIST and the append state are untouched. */
    method MarkP2P(mm: MemMap)
      requires rcpu.kind == RlistStorage ==> Appending(mm)
      requires rcpu.kind == PagesStorage ==> PagesAppending()
      modifies rcpu`summary
      ensures rcpu.summary == old(rcpu.summary).(p2p := true)
      ensures rcpu.kind == RlistStorage ==> Appending(mm)
      ensures rcpu.kind == PagesStorage ==> PagesAppending()
    {
      rcpu.summary := rcpu.summary.(p2p := true);
    }

    /**
     * rlscpu_append_phys_rlist, with the physical range consumed once it
     * is pushed as evidently intended: push the pending range if it holds
     * bytes, then push the physical range.
     */
    method AppendPhysRlist(mm: MemMap, base: u64, length: u64, provider: u32, allocOk: bool, stale: seq<u32>) returns (r: Status)
      requires Appending(mm) && CurStorable(mm) && |stale| == CHUNK_SLOTS
      modifies this`cur, this`lastPending, this`position, this`pushed, rlsa, rcpu.rlist, rcpu`summary
      ensures Appending(mm) && CurStorable(mm) && rcpu.summary.p2p == old(rcpu.summary.p2p)
      ensures r.Success? ==> Model() == PhysStep(old(Model()), Entry(MEM_PHYSICAL, length % U60_LIMIT, base, 0, provider))
      ensures r.Failure? ==> r.err == (if rlsa.noAlloc then ENOSPC else ENOMEM) &&
                             (Model() == old(Model()) ||
                              Model() == Acc(PushPending(old(Model())), Entry(MEM_PHYSICAL, length % U60_LIMIT, base, 0, provider)))
    {
      var e := Entry(MEM_PHYSICAL, length % U60_LIMIT, base, 0, provider);
      r := FlushCur(mm, allocOk, stale);
      if r.Success? {
        r := PushRange(mm, e, allocOk, stale);
      }
    }

    /** Push the pending range if it holds bytes, leaving nothing pending. */
    method FlushCur(mm: MemMap, allocOk: bool, stale: seq<u32>) returns (r: Status)
      requires Appending(mm) && CurStorable(mm) && |stale| == CHUNK_SLOTS
      modifies this`cur, this`lastPending, this`position, this`pushed, rlsa, rcpu.rlist, rcpu`summary
      ensures Appending(mm) && rcpu.summary.p2p == old(rcpu.summary.p2p)
      ensures r.Success? ==> pushed == PushPending(old(Model())) && cur.length == 0
      ensures r.Failure? ==> Model() == old(Model()) && CurStorable(mm) && r.err == (if rlsa.noAlloc then ENOSPC else ENOMEM)
    {
      r := Success;
      if cur.length != 0 {
        r := PushCur(mm, allocOk, stale);
        if r.Failure? {
          return;
        }
        cur := cur.(length := 0);
      }
    }

    /** Push e as the pending range and, once stored, consume it. */
    method PushRange(mm: MemMap, e: Entry, allocOk: bool, stale: seq<u32>) returns (r: Status)
      requires Appending(mm) && Storable(mm, e) && |stale| == CHUNK_SLOTS
      modifies this`cur, this`lastPending, this`position, this`pushed, rlsa, rcpu.rlist, rcpu`summary
      ensures Appending(mm) && CurStorable(mm) && rcpu.summary.p2p == old(rcpu.summary.p2p)
      ensures r.Success? ==> Model() == Acc(old(pushed) + [e], e.(length := 0))
      ensures r.Failure? ==> Model() == Acc(old(pushed), e) && r.err == (if rlsa.noAlloc then ENOSPC else ENOMEM)
    {
      cur := e;
      r := PushCur(mm, allocOk, stale);
      if r.Success? {
        cur := e.(length := 0);
      }
    }

    /**
     * rlscpu_append_physical: a range of pageless physical memory, always
     * P2PDMA; pages storage cannot hold one.
     */
    method AppendPhysical(mm: MemMap, base: u64, length: u64, provider: u32, allocOk: bool, stale: seq<u32>) returns (r: Status)
      requires rcpu.kind == RlistStorage ==> Appending(mm) && CurStorable(mm) && |stale| == CHUNK_SLOTS
      requires rcpu.kind != BioStorage
      modifies this`cur, this`lastPending, this`position, this`pushed, rlsa, rcpu.rlist, rcpu`summary
      ensures rcpu.kind == PagesStorage ==> r == Failure(EOPNOTSUPP) && rcpu.summary == old(rcpu.summary)
      ensures rcpu.summary.p2p == (old(rcpu.summary.p2p) || r.Success?)
      ensures rcpu.kind == RlistStorage ==>
                Appending(mm) && CurStorable(mm) &&
                (r.Success? ==> Model() == PhysStep(old(Model()), Entry(MEM_PHYSICAL, length % U60_LIMIT, base, 0, provider))) &&
                (r.Failure? ==> r.err == (if rlsa.noAlloc then ENOSPC else ENOMEM) &&
                                (Model() == old(Model()) ||
                                 Model() == Acc(PushPending(old(Model())), Entry(MEM_PHYSICAL, length % U60_LIMIT, base, 0, provider))))
    {
      if rcpu.kind == PagesStorage {
        return Failure(EOPNOTSUPP);
      }
      r := AppendPhysRlist(mm, base, length, provider, allocOk, stale);
      if r.Success? {
        MarkP2P(mm);
      }
    }

    /**
     * rlscpu_append_end: for RLIST_CPU storage push the pending range, if
     * any, without dropping the pending flag as evidently intended, clear
     * it, record the length when nothing failed and close the rlist; for
     * RLIST_CPU_PAGES storage the used slots become the array's size.
     */
    method End(mm: MemMap, allocOk: bool, stale: seq<u32>) returns (r: Status)
      requires rcpu.kind == RlistStorage ==> Appending(mm) && CurStorable(mm) && |stale| == CHUNK_SLOTS
      requires rcpu.kind == PagesStorage ==> PagesAppending()
      requires rcpu.kind != BioStorage
      modifies this`cur, this`lastPending, this`position, this`pushed, rlsa, rcpu.rlist, rcpu`summary, rcpu`maxPosition, rcpu`size
      ensures rcpu.kind == PagesStorage ==>
                r == Success && rcpu.Valid() && rcpu.size == curPage && rcpu.maxPosition == (curPage * PAGE_SIZE) % U61_LIMIT
      ensures rcpu.kind == RlistStorage ==>
                (r.Success? <==> old(cur).length == 0 ||
                                 (old(|rcpu.rlist.chunks|) > 0 && old(rlsa.curEntryIdx) + Size(EncodeCpu(mm, old(cur))) <= CHUNK_SLOTS) ||
                                 (!rlsa.noAlloc && allocOk)) &&
                (r.Success? ==> Model() == EndAcc(old(Model())) && rcpu.maxPosition == SumLen(pushed) % U61_LIMIT) &&
                (r.Failure? ==> Model() == Acc(old(pushed), ZERO_ENTRY) && rcpu.maxPosition == old(rcpu.maxPosition) &&
                                r.err == (if rlsa.noAlloc then ENOSPC else ENOMEM)) &&
                rlsa.Valid() && Closed(rcpu.rlist.chunks, rlsa.curEntryIdx, EncodingField) &&
                DecodeAll(mm, Iterate(rcpu.rlist.chunks, EncodingField)) == pushed &&
                rcpu.summary.notPagelist == NotPagelist(pushed)
      ensures rcpu.summary.p2p == old(rcpu.summary.p2p)
    {
      if rcpu.kind == PagesStorage {
        EndPages();
        return Success;
      }
      r := EndPush(mm, allocOk, stale);
      Close(mm, r.Success?);
    }

    /** rlscpu_append_end for RLIST_CPU_PAGES storage. */
    method EndPages()
      requires PagesAppending()
      modifies rcpu`size, rcpu`maxPosition
      ensures rcpu.Valid() && rcpu.size == curPage && rcpu.maxPosition == (curPage * PAGE_SIZE) % U61_LIMIT
    {
      rcpu.size := curPage;
      rcpu.maxPosition := (curPage * PAGE_SIZE) % U61_LIMIT;
    }

    /** Push the pending range, if it holds bytes, and clear it whatever the outcome. */
    method EndPush(mm: MemMap, allocOk: bool, stale: seq<u32>) returns (r: Status)
      requires Appending(mm) && CurStorable(mm) && |stale| == CHUNK_SLOTS
      modifies this`cur, this`lastPending, this`position, this`pushed, rlsa, rcpu.rlist, rcpu`summary
      ensures Appending(mm) && rcpu.summary.p2p == old(rcpu.summary.p2p)
      ensures r.Success? <==> old(cur).length == 0 ||
                              (old(|rcpu.rlist.chunks|) > 0 && old(rlsa.curEntryIdx) + Size(EncodeCpu(mm, old(cur))) <= CHUNK_SLOTS) ||
                              (!rlsa.noAlloc && allocOk)
      ensures r.Success? ==> Model() == EndAcc(old(Model()))
      ensures r.Failure? ==> Model() == Acc(old(pushed), ZERO_ENTRY) && r.err == (if rlsa.noAlloc then ENOSPC else ENOMEM)
    {
      r := Success;
      if cur.length != 0 {
        r := PushCur(mm, allocOk, stale);
        cur := ZERO_ENTRY;
      }
    }

    /**
     * The rest of rlscpu_append_end for RLIST_CPU storage: max_position is
     * the byte count of what was pushed, unless the last push failed; the
     * closed rlist decodes to the pushed ranges.
     */
    method Close(mm: MemMap, ok: bool)
      requires Appending(mm)
      modifies rcpu`maxPosition, rcpu.rlist
      ensures ok ==> rcpu.maxPosition == SumLen(pushed) % U61_LIMIT
      ensures !ok ==> rcpu.maxPosition == old(rcpu.maxPosition)
      ensures rlsa.Valid() && Closed(rcpu.rlist.chunks, rlsa.curEntryIdx, EncodingField)
      ensures DecodeAll(mm, Iterate(rcpu.rlist.chunks, EncodingField)) == pushed
      ensures rcpu.summary.notPagelist == NotPagelist(pushed)
    {
      if ok {
        Wrap61(SumLen(pushed));
        rcpu.maxPosition := position % U61_LIMIT;
      }
      DecodeEncodeAll(mm, pushed);
      rlsa.End();
    }

    /**
     * rlscpu_append_destroy_rlist: drop the pending range, end the append
     * (which then cannot fail) and keep what was pushed.
     */
    method DestroyRlist(mm: MemMap)
      requires Appending(mm) && CurStorable(mm)
      modifies this`cur, this`lastPending, this`position, this`pushed, rlsa, rcpu.rlist, rcpu`summary, rcpu`maxPosition
      ensures cur == ZERO_ENTRY && pushed == old(pushed) && rcpu.maxPosition == SumLen(pushed) % U61_LIMIT
      ensures rlsa.Valid() && DecodeAll(mm, Iterate(rcpu.rlist.chunks, EncodingField)) == pushed
    {
      cur := ZERO_ENTRY;
      var r := EndPush(mm, false, seq(CHUNK_SLOTS, _ => 0));
      Close(mm, r.Success?);
    }
  }
}
