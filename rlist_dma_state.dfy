// struct rlist_dma and its cursors: the read cursor rlist_dma_state (over
// the rlist of DMA entries, or over a CPU list in identity mode) with the
// entry, block and unmap iterators built on it, the write cursor
// rlist_dma_state_append, and the IOVA layout cursor rlist_dma_state_iova.
//
// The memory map, the outcome of each slab allocation and the physical
// ranges of the CPU entries rsiova_init walks are inputs.

module RlistDmaState {
  import opened Errno
  import opened Bits
  import opened RlistFormat
  import opened RlistCpuFormat
  import opened RlistDmaFormat
  import opened RlistDmaBlocks
  import opened RlistDmaIova
  import opened RlistState
  import opened RlistCpuState

  /** rlsdma_cpu_decode: in identity mode the CPU entry's physical address is the DMA address. */
  function CpuDma(mm: MemMap, e: Entry): DmaEntry
  {
    DmaEntry(e.length, Wrap64(Physical(mm, e)), e.extra)
  }

  /** The rlist_entry seen through a DMA entry: rls_next only reads its length. */
  function Raw(d: DmaEntry): Entry
  {
    Entry(DMA_RELATIVE, d.length, d.dma, 0, d.priv)
  }

  /** Reading back after one more stored entry: one more DMA entry. */
  lemma DecodeAllSnoc(base: u64, es: seq<Entry>, e: Entry)
    ensures DecodeAllDma(base, es + [e]) == DecodeAllDma(base, es) + [DecodeDma(base, e)]
  {
    var l, r := DecodeAllDma(base, es + [e]), DecodeAllDma(base, es) + [DecodeDma(base, e)];
    assert |l| == |r|;
    forall i | 0 <= i < |l|
      ensures l[i] == r[i]
    {
      assert (es + [e])[i] == if i < |es| then es[i] else e;
    }
  }

  /** Reading back the rest of a walk: the DMA entry at hand, then the rest. */
  lemma DecodeAllTail(base: u64, es: seq<Entry>)
    requires es != []
    ensures DecodeAllDma(base, es) == [DecodeDma(base, es[0])] + DecodeAllDma(base, es[1..])
  {
  }

  /** No entry to walk in a CPU list, for each storage. */
  ghost predicate NoCpuEntries(rcpu: RlistCpu)
    reads rcpu, rcpu.rlist
  {
    match rcpu.kind
    case RlistStorage => Iterate(rcpu.rlist.chunks, EncodingField) == []
    case PagesStorage => rcpu.size == 0
    case BioStorage => rcpu.bioSize == 0
  }

  /** In identity mode each CPU entry of a walk is read as the DMA entry rlsdma_cpu_decode makes of it. */
  function IdentityDma(mm: MemMap, es: seq<Entry>): seq<DmaEntry>
  {
    seq(|es|, i requires 0 <= i < |es| => CpuDma(mm, es[i]))
  }

  /** What is left of a walk once its entry at hand is dropped. */
  function AfterFirst<T>(s: seq<T>): seq<T>
  {
    if s == [] then [] else s[1..]
  }

  /** Over an rlist in identity mode, a walk yields the entry at hand, then the rest. */
  lemma IdentityTail(mm: MemMap, es: seq<Entry>)
    requires es != []
    ensures IdentityDma(mm, DecodeAll(mm, es)) ==
            [CpuDma(mm, DecodeCpu(mm, es[0]))] + IdentityDma(mm, DecodeAll(mm, es[1..]))
  {
    var l := IdentityDma(mm, DecodeAll(mm, es));
    var r := [CpuDma(mm, DecodeCpu(mm, es[0]))] + IdentityDma(mm, DecodeAll(mm, es[1..]));
    forall i | 0 <= i < |l|
      ensures l[i] == r[i]
    {
      DecodeAllAt(mm, es, i);
      if i > 0 {
        DecodeAllAt(mm, es[1..], i - 1);
      }
    }
  }

  /** Over pages in identity mode, a walk yields the run at hand, then the runs after it. */
  lemma IdentityRuns(mm: MemMap, ps: seq<nat>, i: nat, j: nat)
    requires RunAt(ps, i, j)
    ensures IdentityDma(mm, PageRuns(mm, ps, i)) ==
            [CpuDma(mm, RunEntry(mm, ps[i], j - i + 1))] + IdentityDma(mm, PageRuns(mm, ps, j + 1))
  {
    RunsAt(mm, ps, i, j);
    var l := IdentityDma(mm, PageRuns(mm, ps, i));
    var r := [CpuDma(mm, RunEntry(mm, ps[i], j - i + 1))] + IdentityDma(mm, PageRuns(mm, ps, j + 1));
    assert forall k | 0 <= k < |l| :: l[k] == r[k];
  }

  /** One step of a walk over pages in identity mode, as rlscpu_next reports it. */
  lemma PagesStep(mm: MemMap, ps: seq<nat>, cur: nat, cur': nat, ok: bool, e: Entry)
    requires ok <==> cur + 1 < |ps|
    requires ok ==> RunAt(ps, cur + 1, cur') && e == RunEntry(mm, ps[cur + 1], cur' - cur)
    ensures ok <==> IdentityDma(mm, PageRuns(mm, ps, cur + 1)) != []
    ensures ok ==> [CpuDma(mm, e)] + IdentityDma(mm, PageRuns(mm, ps, cur' + 1)) ==
                   IdentityDma(mm, PageRuns(mm, ps, cur + 1))
  {
    if ok {
      IdentityRuns(mm, ps, cur + 1, cur');
    }
  }

  // ---- struct rlist_dma --------------------------------------------------------

  class RlistDma {
    /** The DMA entries; left empty in identity mode. */
    const rlist: Rlist
    /** The CPU list whose physical addresses are the DMA addresses (identity mode), else null. */
    var cpu: RlistCpu?
    /** What RELATIVE entries are relative to: the IOVA rsiova_set_iova stored. */
    var base: u64

    /** rlist_dma_init: no DMA entries, not identity mapped, base 0. */
    constructor ()
      ensures rlist.Valid() && rlist.chunks == [] && cpu == null && base == 0 && fresh(rlist)
    {
      rlist := new Rlist();
      cpu := null;
      base := 0;
    }

    /** rlist_dma_init_identity_cpu: read rcpu's physical addresses, with no DMA entries of its own. */
    method InitIdentityCpu(rcpu: RlistCpu)
      modifies this, rlist
      ensures cpu == rcpu && base == 0 && rlist.Valid() && rlist.chunks == []
    {
      cpu := rcpu;
      base := 0;
      rlist.chunks := [];
    }

    /**
     * rlist_dma_init_single: one RELATIVE entry holding dma_address itself
     * with base 0, so it reads back as given; or ENOMEM and no entry.
     */
    method InitSingle(dma: u64, length: u64, priv: u32, allocOk: bool, stale: seq<u32>) returns (r: Status)
      requires rlist.Valid() && rlist.chunks == [] && |stale| == CHUNK_SLOTS
      modifies this`base, rlist
      ensures base == 0 && rlist.Valid()
      ensures r.Success? <==> allocOk
      ensures r.Success? ==> DecodeAllDma(base, Iterate(rlist.chunks, EncodingField)) == [DmaEntry(length % U60_LIMIT, dma, priv)]
      ensures r.Failure? ==> r.err == ENOMEM && rlist.chunks == []
    {
      base := 0;
      var e := RelativeEntry(0, dma, length, priv);
      r := RlistState.InitSingle(rlist, e, allocOk, stale);
      AppendedReadBack(0, dma, length, priv);
    }

    /** rlist_dma_destroy: frees the DMA entries; an identity-mapped list owns none. */
    method Destroy()
      modifies rlist
      ensures cpu == null ==> rlist.Valid() && rlist.chunks == []
      ensures cpu != null ==> rlist.chunks == old(rlist.chunks)
    {
      if cpu != null {
        return;
      }
      rlist.Destroy();
    }

    /** rlist_dma_empty: the CPU list's emptiness in identity mode, else the rlist's. */
    method Empty() returns (r: bool)
      requires rlist.Valid() && (cpu != null ==> cpu.Valid())
      ensures cpu == null ==> (r <==> Iterate(rlist.chunks, EncodingField) == [])
      ensures cpu != null ==> (r <==> NoCpuEntries(cpu))
    {
      if cpu != null {
        r := cpu.Empty();
      } else {
        r := RlistEmpty(rlist);
      }
    }

    /** rlist_dma_length: the CPU list's length; it dereferences cpu. */
    function Length(): nat
      requires cpu != null
      reads this, cpu
    {
      cpu.Length()
    }
  }

  /** rlsdma_is_cpu as written: the rlist has no head chunk. */
  predicate IsCpuAsWritten(rdma: RlistDma)
    reads rdma, rdma.rlist
  {
    rdma.rlist.chunks == []
  }

  /** The cursor rlsdma_init set up is the CPU one exactly in identity mode. */
  predicate IsCpu(rdma: RlistDma)
    reads rdma
  {
    rdma.cpu != null
  }

  /**
   * The two choices differ exactly on an rlist_dma with no CPU list and no
   * DMA entries, which is what rlist_dma_init leaves: as written, walking
   * it drives the CPU cursor over a state rlsdma_init set up for the rlist.
   */
  lemma IsCpuDiffers(rdma: RlistDma)
    requires rdma.cpu != null ==> rdma.rlist.chunks == []
    ensures IsCpuAsWritten(rdma) != IsCpu(rdma) <==> rdma.cpu == null && rdma.rlist.chunks == []
  {
  }

  /**
   * The DMA entries a walk over rdma yields: the rlist's entries decoded
   * against base, or in identity mode the CPU list's entries read through
   * their physical addresses.
   */
  ghost function DmaEntries(mm: MemMap, rdma: RlistDma): seq<DmaEntry>
    reads rdma, rdma.rlist
    reads if rdma.cpu != null then {rdma.cpu, rdma.cpu.rlist, rdma.cpu.pages} else {}
    requires rdma.cpu != null ==> rdma.cpu.Valid()
  {
    if rdma.cpu == null then DecodeAllDma(rdma.base, Iterate(rdma.rlist.chunks, EncodingField))
    else IdentityDma(mm, CpuEntries(mm, rdma.cpu))
  }

  // ---- struct rlist_dma_state_append -------------------------------------------

  class DmaAppendState {
    const rdma: RlistDma
    /** The union's rlist_state_append member, over rdma's rlist. */
    const rlsa: AppendState

    /** RLIST_DMA_STATE_APPEND(name, rdma) */
    constructor (rdma: RlistDma)
      ensures this.rdma == rdma && rlsa.rlist == rdma.rlist && fresh(rlsa)
    {
      this.rdma := rdma;
      rlsa := new AppendState(rdma.rlist);
    }

    ghost predicate Valid()
      reads this, rlsa, rlsa.rlist
    {
      rlsa.rlist == rdma.rlist && rlsa.Valid()
    }

    /** What has been appended, as a walk reads it back at the current base. */
    ghost function Appended(): seq<DmaEntry>
      reads this, rdma, rlsa
    {
      DecodeAllDma(rdma.base, rlsa.Entries())
    }

    /** rlsdma_append_begin */
    method Begin() returns (r: Status)
      requires rlsa.rlist == rdma.rlist && rdma.rlist.Valid() && rdma.rlist.chunks == []
      modifies rlsa
      ensures r == Success && Valid() && Appended() == [] && !rlsa.noAlloc
    {
      r := rlsa.Begin();
    }

    /**
     * rlsdma_append: store dma_address - base as a RELATIVE entry, so that
     * it reads back as dma_address (mod 2^64) for as long as base is
     * unchanged; the length is cut to the 60-bit field.
     */
    method Append(dma: u64, length: u64, priv: u32, allocOk: bool, stale: seq<u32>) returns (r: Status)
      requires Valid() && |stale| == CHUNK_SLOTS
      modifies rlsa, rdma.rlist
      ensures Valid() && rlsa.noAlloc == old(rlsa.noAlloc)
      ensures r.Success? ==> Appended() == old(Appended()) + [DmaEntry(length % U60_LIMIT, dma, priv)]
      ensures r.Failure? ==> Appended() == old(Appended()) && r.err == (if rlsa.noAlloc then ENOSPC else ENOMEM)
      ensures allocOk && !rlsa.noAlloc ==> r.Success?
    {
      ghost var before := rlsa.Entries();
      var e := RelativeEntry(rdma.base, dma, length, priv);
      r := rlsa.Append(e, allocOk, stale);
      AppendedReadBack(rdma.base, dma, length, priv);
      DecodeAllSnoc(rdma.base, before, e);
    }

    /** rlsdma_append_no_base: store dma_address itself as an ABSOLUTE entry, which no base moves. */
    method AppendNoBase(dma: u64, length: u64, priv: u32, allocOk: bool, stale: seq<u32>) returns (r: Status)
      requires Valid() && |stale| == CHUNK_SLOTS
      modifies rlsa, rdma.rlist
      ensures Valid() && rlsa.noAlloc == old(rlsa.noAlloc)
      ensures r.Success? ==> Appended() == old(Appended()) + [DmaEntry(length % U60_LIMIT, dma, priv)]
      ensures r.Failure? ==> Appended() == old(Appended()) && r.err == (if rlsa.noAlloc then ENOSPC else ENOMEM)
      ensures allocOk && !rlsa.noAlloc ==> r.Success?
    {
      ghost var before := rlsa.Entries();
      var e := AbsoluteEntry(dma, length, priv);
      r := rlsa.Append(e, allocOk, stale);
      AppendedReadBack(rdma.base, dma, length, priv);
      DecodeAllSnoc(rdma.base, before, e);
    }

    /** rlsdma_append_end: a walk then reads back exactly what was appended. */
    method End()
      requires Valid()
      modifies rdma.rlist
      ensures Valid() && DecodeAllDma(rdma.base, Iterate(rdma.rlist.chunks, EncodingField)) == Appended()
    {
      rlsa.End();
    }

    /** rlsdma_append_destroy_rlist: end the append and free every entry. */
    method DestroyRlist()
      requires Valid()
      modifies rdma.rlist
      ensures rdma.rlist.Valid() && rdma.rlist.chunks == []
    {
      rlsa.DestroyRlist();
    }
  }

  // ---- struct rlist_dma_state ----------------------------------------------------

  class DmaState {
    const rdma: RlistDma
    /** The union's rlist_state member, over rdma's rlist. */
    const rls: State
    /** The union's rlist_cpu_state member in identity mode, else null. */
    const rlscpu: CpuState?

    /** RLIST_DMA_STATE(name, rdma): rlsdma_init picks the cursor by rdma->cpu. */
    constructor (rdma: RlistDma)
      ensures this.rdma == rdma && rls.rlist == rdma.rlist && fresh(rls)
      ensures rdma.cpu == null ==> rlscpu == null
      ensures rdma.cpu != null ==> rlscpu != null && rlscpu.rcpu == rdma.cpu && rlscpu.rls.rlist == rdma.cpu.rlist &&
                                   fresh(rlscpu) && fresh(rlscpu.rls)
    {
      this.rdma := rdma;
      rls := new State(rdma.rlist);
      if rdma.cpu != null {
        rlscpu := new CpuState(rdma.cpu);
      } else {
        rlscpu := null;
      }
    }

    ghost predicate Valid()
      reads this, rdma, rdma.rlist
      reads if rlscpu != null then {rlscpu, rlscpu.rcpu, rlscpu.rcpu.rlist} else {}
    {
      rls.rlist == rdma.rlist && rdma.rlist.Valid() &&
      (rlscpu == null <==> rdma.cpu == null) &&
      (rlscpu != null ==> rlscpu.rcpu == rdma.cpu && rlscpu.Valid())
    }

    /** The DMA entries of the rlist, as a walk reads them at the current base. */
    ghost function All(): seq<DmaEntry>
      reads rdma, rdma.rlist
    {
      DecodeAllDma(rdma.base, Iterate(rdma.rlist.chunks, EncodingField))
    }

    /** What is left of a walk over the rlist, the entry at hand first. */
    ghost function Rest(): seq<DmaEntry>
      reads this, rdma, rls, rls.rlist
      requires rls.rlist.Valid()
    {
      DecodeAllDma(rdma.base, rls.Rest())
    }

    /** The cursor stands on an entry of the walk. */
    ghost predicate OnEntry()
      reads this, rls, rls.rlist
      reads if rlscpu != null then {rlscpu, rlscpu.rls, rlscpu.rls.rlist, rlscpu.rcpu} else {}
    {
      if rlscpu == null then rls.OnEntry()
      else if rlscpu.rcpu.kind == RlistStorage then rlscpu.rls.OnEntry()
      else rlscpu.curPage < rlscpu.rcpu.size
    }

    /** The DMA entries the walk has still to yield after the one at hand. */
    ghost function After(mm: MemMap): seq<DmaEntry>
      reads this, rdma, rdma.rlist, rls, rls.rlist
      reads if rlscpu != null then {rlscpu, rlscpu.rls, rlscpu.rls.rlist, rlscpu.rcpu, rlscpu.rcpu.rlist, rlscpu.rcpu.pages} else {}
      requires Valid()
    {
      if rlscpu == null then AfterFirst(Rest())
      else if rlscpu.rcpu.kind == RlistStorage then IdentityDma(mm, DecodeAll(mm, AfterFirst(rlscpu.rls.Rest())))
      else IdentityDma(mm, PageRuns(mm, rlscpu.rcpu.pages[..rlscpu.rcpu.size], rlscpu.curPage + 1))
    }

    /**
     * rlsdma_reset: the first entry of the walk. Over the rlist, a RELATIVE
     * entry's address is moved by base; in identity mode, the CPU entry's
     * physical address is the DMA address.
     */
    method Reset(mm: MemMap) returns (ok: bool, entry: DmaEntry)
      requires Valid()
      modifies rls, if rlscpu != null then {rlscpu, rlscpu.rls} else {}
      ensures Valid()
      ensures ok <==> old(DmaEntries(mm, rdma)) != []
      ensures ok ==> OnEntry() && [entry] + After(mm) == old(DmaEntries(mm, rdma))
      ensures rlscpu == null && ok ==> Rest() == All() && entry == All()[0]
    {
      if rlscpu == null {
        ok, entry := ResetInList();
      } else if rlscpu.rcpu.kind == RlistStorage {
        ok, entry := ResetCpuList(mm);
      } else {
        ok, entry := ResetCpuPages(mm);
      }
    }

    /** rlsdma_reset over a list that is not identity mapped: the first DMA entry of the rlist. */
    method ResetInList() returns (ok: bool, entry: DmaEntry)
      requires Valid() && rlscpu == null
      modifies rls
      ensures Valid()
      ensures ok <==> All() != []
      ensures ok ==> rls.OnEntry() && Rest() == All() && entry == All()[0]
    {
      var e;
      ok, e := rls.Reset();
      entry := DecodeDma(rdma.base, e);
    }

    /** rlsdma_reset in identity mode over an rlist: rlscpu_reset, read through the physical address. */
    method ResetCpuList(mm: MemMap) returns (ok: bool, entry: DmaEntry)
      requires Valid() && rlscpu != null && rlscpu.rcpu.kind == RlistStorage
      modifies rlscpu, rlscpu.rls
      ensures Valid()
      ensures ok <==> old(DmaEntries(mm, rdma)) != []
      ensures ok ==> OnEntry() && [entry] + After(mm) == old(DmaEntries(mm, rdma))
    {
      ghost var all := DmaEntries(mm, rdma);
      ghost var es := Iterate(rlscpu.rcpu.rlist.chunks, EncodingField);
      assert all == IdentityDma(mm, DecodeAll(mm, es));
      var e;
      ok, e := rlscpu.Reset(mm);
      entry := CpuDma(mm, e);
      if ok {
        IdentityTail(mm, es);
        assert After(mm) == IdentityDma(mm, DecodeAll(mm, es[1..]));
      }
    }

    /** rlsdma_reset in identity mode over pages: the first run, read through its physical address. */
    method ResetCpuPages(mm: MemMap) returns (ok: bool, entry: DmaEntry)
      requires Valid() && rlscpu != null && rlscpu.rcpu.kind == PagesStorage
      modifies rlscpu, rlscpu.rls
      ensures Valid()
      ensures ok <==> old(DmaEntries(mm, rdma)) != []
      ensures ok ==> OnEntry() && [entry] + After(mm) == old(DmaEntries(mm, rdma))
    {
      ghost var all := DmaEntries(mm, rdma);
      ghost var ps := rlscpu.rcpu.pages[..rlscpu.rcpu.size];
      assert all == IdentityDma(mm, PageRuns(mm, ps, 0));
      var e;
      ok, e := rlscpu.Reset(mm);
      entry := CpuDma(mm, e);
      assert ps == rlscpu.rcpu.pages[..rlscpu.rcpu.size];
      if ok {
        IdentityRuns(mm, ps, 0, rlscpu.curPage);
        assert After(mm) == IdentityDma(mm, PageRuns(mm, ps, rlscpu.curPage + 1));
      }
    }

    /**
     * rlsdma_next: the entry after `entry`, decoded as rlsdma_reset does;
     * false exactly when the walk has nothing after the entry at hand.
     */
    method Next(mm: MemMap, entry: DmaEntry) returns (ok: bool, next: DmaEntry)
      requires Valid()
      requires rlscpu == null ==> rls.OnEntry()
      requires rlscpu != null && rlscpu.rcpu.kind == RlistStorage ==> rlscpu.rls.OnEntry()
      modifies rls, if rlscpu != null then {rlscpu, rlscpu.rls} else {}
      ensures Valid()
      ensures ok <==> old(After(mm)) != []
      ensures ok ==> OnEntry() && [next] + After(mm) == old(After(mm))
    {
      if rlscpu != null {
        ok, next := NextCpu(mm, entry);
      } else {
        ok, next := NextInList(entry);
      }
    }

    /** rlsdma_next in identity mode: rlscpu_next, its entry read through its physical address. */
    method NextCpu(mm: MemMap, entry: DmaEntry) returns (ok: bool, next: DmaEntry)
      requires Valid() && rlscpu != null
      requires rlscpu.rcpu.kind == RlistStorage ==> rlscpu.rls.OnEntry()
      modifies rlscpu, rlscpu.rls
      ensures Valid()
      ensures ok <==> old(After(mm)) != []
      ensures ok ==> OnEntry() && [next] + After(mm) == old(After(mm))
    {
      if rlscpu.rcpu.kind == RlistStorage {
        ok, next := NextCpuList(mm, entry);
      } else {
        ok, next := NextCpuPages(mm);
      }
    }

    /** rlsdma_next in identity mode over an rlist. */
    method NextCpuList(mm: MemMap, entry: DmaEntry) returns (ok: bool, next: DmaEntry)
      requires Valid() && rlscpu != null && rlscpu.rcpu.kind == RlistStorage && rlscpu.rls.OnEntry()
      modifies rlscpu, rlscpu.rls
      ensures Valid()
      ensures ok <==> old(After(mm)) != []
      ensures ok ==> OnEntry() && [next] + After(mm) == old(After(mm))
    {
      ghost var rest := rlscpu.rls.Rest();
      assert After(mm) == IdentityDma(mm, DecodeAll(mm, AfterFirst(rest)));
      var e;
      ok, e := rlscpu.Next(mm, Raw(entry));
      next := CpuDma(mm, e);
      if ok {
        IdentityTail(mm, rest[1..]);
      }
    }

    /** rlsdma_next in identity mode over pages: the next run. */
    method NextCpuPages(mm: MemMap) returns (ok: bool, next: DmaEntry)
      requires Valid() && rlscpu != null && rlscpu.rcpu.kind == PagesStorage
      modifies rlscpu`curPage, rlscpu`pagesPosition
      ensures Valid()
      ensures ok <==> old(After(mm)) != []
      ensures ok ==> OnEntry() && [next] + After(mm) == old(After(mm))
    {
      ghost var ps := rlscpu.rcpu.pages[..rlscpu.rcpu.size];
      ghost var cur := rlscpu.curPage;
      ghost var before := After(mm);
      assert before == IdentityDma(mm, PageRuns(mm, ps, cur + 1));
      var e;
      ok, e := rlscpu.NextRun(mm);
      next := CpuDma(mm, e);
      PagesStep(mm, ps, cur, rlscpu.curPage, ok, e);
      assert ps == rlscpu.rcpu.pages[..rlscpu.rcpu.size];
      ghost var after := After(mm);
      assert after == IdentityDma(mm, PageRuns(mm, ps, rlscpu.curPage + 1));
      assert ok ==> [next] + after == before;
    }

    /** rlsdma_next over a list that is not identity mapped: the next DMA entry of the rlist. */
    method NextInList(entry: DmaEntry) returns (ok: bool, next: DmaEntry)
      requires Valid() && rlscpu == null && rls.OnEntry()
      modifies rls
      ensures Valid()
      ensures old(Rest()) != [] && (ok <==> old(Rest())[1..] != [])
      ensures ok ==> rls.OnEntry() && Rest() == old(Rest())[1..] && next == Rest()[0] && |rls.Rest()| == old(|rls.Rest()|) - 1
    {
      ghost var rest := rls.Rest();
      var e;
      ok, e := rls.Next(Raw(entry));
      next := DecodeDma(rdma.base, e);
      DecodeAllTail(rdma.base, rest);
    }
  }

  /** rlist_dma_for_each_entry: every entry of the walk, in order, in either mode. */
  method ForEachEntry(rls: DmaState, mm: MemMap) returns (es: seq<DmaEntry>)
    requires rls.Valid()
    modifies rls.rls, if rls.rlscpu != null then {rls.rlscpu, rls.rlscpu.rls} else {}
    ensures es == old(DmaEntries(mm, rls.rdma))
  {
    ghost var all := DmaEntries(mm, rls.rdma);
    var ok, e := rls.Reset(mm);
    if !ok {
      return [];
    }
    es := EntriesFrom(rls, mm, e, all);
  }

  /** The loop of rlist_dma_for_each_entry from entry e on: the entries before the walk's end. */
  method EntriesFrom(rls: DmaState, mm: MemMap, e: DmaEntry, ghost all: seq<DmaEntry>) returns (es: seq<DmaEntry>)
    requires rls.Valid() && rls.OnEntry() && [e] + rls.After(mm) == all
    modifies rls.rls, if rls.rlscpu != null then {rls.rlscpu, rls.rlscpu.rls} else {}
    ensures es == all
  {
    var ok, cur := true, e;
    es := [];
    assert es + [cur] + rls.After(mm) == all;
    while ok
      invariant rls.Valid()
      invariant ok ==> rls.OnEntry() && es + [cur] + rls.After(mm) == all
      invariant !ok ==> es == all
      decreases if ok then |rls.After(mm)| + 1 else 0
    {
      es, ok, cur := EntryStep(rls, mm, es, cur, all);
    }
  }

  /** Moving one entry from what is ahead of a walk to what it has visited keeps their concatenation. */
  lemma ConsAfter<T>(done: seq<T>, e: T, after: seq<T>, after': seq<T>)
    requires after == [e] + after'
    ensures done + after == done + [e] + after'
  {
  }

  /** One turn of rlist_dma_for_each_entry: record the entry at hand and move to the next. */
  method EntryStep(rls: DmaState, mm: MemMap, es: seq<DmaEntry>, e: DmaEntry, ghost all: seq<DmaEntry>)
    returns (es': seq<DmaEntry>, ok: bool, e': DmaEntry)
    requires rls.Valid() && rls.OnEntry() && es + [e] + rls.After(mm) == all
    modifies rls.rls, if rls.rlscpu != null then {rls.rlscpu, rls.rlscpu.rls} else {}
    ensures rls.Valid()
    ensures ok ==> rls.OnEntry() && es' + [e'] + rls.After(mm) == all && |rls.After(mm)| < old(|rls.After(mm)|)
    ensures !ok ==> es' == all
  {
    ghost var after := rls.After(mm);
    es' := es + [e];
    ok, e' := rls.Next(mm, e);
    if ok {
      ConsAfter(es', e', after, rls.After(mm));
    }
  }

  // ---- rlsdma_for_each_unmap ------------------------------------------------------

  /**
   * rlsdma_first_unmap over a list that is not identity mapped, with the
   * corrected length: the unmap range of the first entry not marked
   * RSIOVA_PRIV_P2P, the walk left on it; else prev with length 0.
   */
  method FirstUnmap(rls: DmaState, mm: MemMap, prev: IovaRange, pgsize: u64) returns (m: IovaRange)
    requires rls.Valid() && rls.rlscpu == null
    modifies rls.rls
    ensures rls.Valid()
    ensures m.length != 0 ==> rls.rls.OnEntry() && [m] + Unmaps(rls.Rest()[1..], pgsize) == Unmaps(rls.All(), pgsize)
    ensures m.length == 0 ==> Unmaps(rls.All(), pgsize) == [] && m.iova == prev.iova
  {
    var ok, e := rls.Reset(mm);
    if !ok {
      return prev.(length := 0);
    }
    ok, e := SkipP2p(rls, mm, pgsize, e);
    if !ok {
      return prev.(length := 0);
    }
    UnmapsHead(rls.Rest(), pgsize);
    m := Unmap(e, pgsize);
    // An empty range ends rlsdma_for_each_unmap, which never reads its iova;
    // the C leaves ALIGN_DOWN(dma_address) there, the model keeps prev's.
    if m.length == 0 {
      m := m.(iova := prev.iova);
    }
  }

  /** The unmap walk from a mapped entry: its range, then the rest; or nothing when its range is empty. */
  lemma UnmapsHead(rest: seq<DmaEntry>, pgsize: u64)
    requires rest != [] && rest[0].priv != PRIV_P2P
    ensures Unmap(rest[0], pgsize).length != 0 ==> Unmaps(rest, pgsize) == [Unmap(rest[0], pgsize)] + Unmaps(rest[1..], pgsize)
    ensures Unmap(rest[0], pgsize).length == 0 ==> Unmaps(rest, pgsize) == []
  {
  }

  /**
   * rlsdma_next_unmap over a list that is not identity mapped, with the
   * corrected length: the unmap range of the next entry not marked
   * RSIOVA_PRIV_P2P; else prev with length 0. The entry the first
   * rlsdma_next is handed is uninitialised stack memory, given as stale.
   */
  method NextUnmap(rls: DmaState, mm: MemMap, prev: IovaRange, pgsize: u64, stale: DmaEntry) returns (m: IovaRange)
    requires rls.Valid() && rls.rlscpu == null && rls.rls.OnEntry()
    modifies rls.rls
    ensures rls.Valid()
    ensures m.length != 0 ==> rls.rls.OnEntry() && [m] + Unmaps(rls.Rest()[1..], pgsize) == Unmaps(old(rls.Rest())[1..], pgsize) &&
                              |rls.rls.Rest()| < old(|rls.rls.Rest()|)
    ensures m.length == 0 ==> Unmaps(old(rls.Rest())[1..], pgsize) == [] && m.iova == prev.iova
  {
    ghost var rest := rls.Rest();
    ghost var raw := rls.rls.Rest();
    var ok, e := rls.NextInList(stale);
    if !ok {
      return prev.(length := 0);
    }
    assert rls.Rest() == rest[1..] && |rls.rls.Rest()| == |raw| - 1;
    ok, e := SkipP2p(rls, mm, pgsize, e);
    if !ok {
      return prev.(length := 0);
    }
    UnmapsHead(rls.Rest(), pgsize);
    m := Unmap(e, pgsize);
    // An empty range ends rlsdma_for_each_unmap, which never reads its iova;
    // the C leaves ALIGN_DOWN(dma_address) there, the model keeps prev's.
    if m.length == 0 {
      m := m.(iova := prev.iova);
    }
  }

  /**
   * The loops of the unmap iterators that pass over entries marked
   * RSIOVA_PRIV_P2P: the walk stops on the next entry the IOMMU mapped,
   * which leaves the unmap ranges ahead unchanged, or at the end, when
   * there are none.
   */
  method SkipP2p(rls: DmaState, mm: MemMap, pgsize: u64, e: DmaEntry) returns (ok: bool, e': DmaEntry)
    requires rls.Valid() && rls.rlscpu == null && rls.rls.OnEntry() && e == rls.Rest()[0]
    modifies rls.rls
    ensures rls.Valid()
    ensures ok ==> rls.rls.OnEntry() && e' == rls.Rest()[0] && e'.priv != PRIV_P2P &&
                   Unmaps(rls.Rest(), pgsize) == Unmaps(old(rls.Rest()), pgsize) &&
                   |rls.rls.Rest()| <= old(|rls.rls.Rest()|)
    ensures !ok ==> Unmaps(old(rls.Rest()), pgsize) == []
  {
    ok, e' := true, e;
    while e'.priv == PRIV_P2P
      invariant rls.Valid() && rls.rls.OnEntry() && e' == rls.Rest()[0]
      invariant Unmaps(rls.Rest(), pgsize) == Unmaps(old(rls.Rest()), pgsize)
      invariant |rls.rls.Rest()| <= old(|rls.rls.Rest()|)
      decreases |rls.rls.Rest()|
    {
      ghost var rest := rls.Rest();
      ghost var raw := rls.rls.Rest();
      ok, e' := rls.NextInList(e');
      if !ok {
        return;
      }
      assert rls.Rest() == rest[1..] && |rls.rls.Rest()| == |raw| - 1;
    }
  }

  /**
   * rlsdma_for_each_unmap over a list that is not identity mapped, with the
   * corrected length: the unmap ranges of the list, in order.
   */
  method ForEachUnmap(rls: DmaState, mm: MemMap, pgsize: u64, stale: DmaEntry) returns (us: seq<IovaRange>)
    requires rls.Valid() && rls.rlscpu == null
    modifies rls.rls
    ensures us == Unmaps(rls.All(), pgsize)
  {
    ghost var all := Unmaps(rls.All(), pgsize);
    var m := FirstUnmap(rls, mm, IovaRange(0, 0), pgsize);
    us := [];
    while m.length != 0
      invariant rls.Valid() && UnmapWalk(rls, us, m, pgsize, all)
      decreases if m.length != 0 then |rls.rls.Rest()| else 0
    {
      us, m := UnmapStep(rls, mm, us, m, pgsize, stale, all);
    }
  }

  /**
   * Where rlsdma_for_each_unmap stands: the ranges recorded so far, the
   * range at hand and the ranges of the entries after it make up all,
   * until the range at hand is empty and the recorded ranges are all.
   */
  ghost predicate UnmapWalk(rls: DmaState, us: seq<IovaRange>, m: IovaRange, pgsize: u64, all: seq<IovaRange>)
    reads rls, rls.rdma, rls.rls, rls.rls.rlist
  {
    (m.length != 0 ==> rls.rls.OnEntry() && us + [m] + Unmaps(rls.Rest()[1..], pgsize) == all) &&
    (m.length == 0 ==> us == all)
  }

  /** One turn of rlsdma_for_each_unmap: record the range at hand and move to the next. */
  method UnmapStep(rls: DmaState, mm: MemMap, us: seq<IovaRange>, m: IovaRange, pgsize: u64, stale: DmaEntry,
                   ghost all: seq<IovaRange>)
    returns (us': seq<IovaRange>, m': IovaRange)
    requires rls.Valid() && rls.rlscpu == null && m.length != 0 && UnmapWalk(rls, us, m, pgsize, all)
    modifies rls.rls
    ensures rls.Valid() && UnmapWalk(rls, us', m', pgsize, all)
    ensures m'.length != 0 ==> |rls.rls.Rest()| < old(|rls.rls.Rest()|)
  {
    ghost var tail := Unmaps(rls.Rest()[1..], pgsize);
    us' := us + [m];
    m' := NextUnmap(rls, mm, m, pgsize, stale);
    if m'.length != 0 {
      ghost var tail' := Unmaps(rls.Rest()[1..], pgsize);
      assert us' + [m'] + tail' == us + [m] + ([m'] + tail');
    } else {
      assert us' == us + [m] + tail;
    }
  }

  // ---- rlist_dma_for_each_block -----------------------------------------------------

  /**
   * A block walk is on block entry e, a whole number of blocks of size
   * 2^j wide, and ahead are the blocks still to come, e's first.
   */
  ghost predicate BlockAhead(rls: DmaState, mm: MemMap, e: DmaEntry, blocksz: u64, j: nat, ahead: seq<u64>)
    reads rls, rls.rdma, rls.rdma.rlist, rls.rls, rls.rls.rlist
    reads if rls.rlscpu != null then {rls.rlscpu, rls.rlscpu.rls, rls.rlscpu.rls.rlist, rls.rlscpu.rcpu,
                                      rls.rlscpu.rcpu.rlist, rls.rlscpu.rcpu.pages} else {}
    requires blocksz == Pow2(j) && j <= 60
  {
    rls.Valid() && rls.OnEntry() && e.length % blocksz == 0 &&
    ahead == BlockRun(e, blocksz) + Blocks(rls.After(mm), blocksz, j)
  }

  /** The block at hand is the first of the blocks ahead. */
  lemma AheadHead(rls: DmaState, mm: MemMap, e: DmaEntry, blocksz: u64, j: nat, ahead: seq<u64>)
    requires blocksz == Pow2(j) && j <= 60 && BlockAhead(rls, mm, e, blocksz, j, ahead)
    ensures ahead != [] && ahead[0] == e.dma
  {
  }

  /**
   * rlsdma_block_iter_reset: the first entry widened to whole blocks by
   * set_first_block. The blocks still to come, this one first, are all of
   * the walk's blocks.
   */
  method BlockIterReset(rls: DmaState, mm: MemMap, blocksz: u64, ghost j: nat)
    returns (ok: bool, e: DmaEntry, ghost ahead: seq<u64>)
    requires rls.Valid() && blocksz == Pow2(j) && j <= 60
    modifies rls.rls, if rls.rlscpu != null then {rls.rlscpu, rls.rlscpu.rls} else {}
    ensures rls.Valid()
    ensures ahead == Blocks(old(DmaEntries(mm, rls.rdma)), blocksz, j)
    ensures ok ==> BlockAhead(rls, mm, e, blocksz, j, ahead)
    ensures !ok ==> ahead == []
  {
    var first;
    ok, first := rls.Reset(mm);
    ahead := Blocks(old(DmaEntries(mm, rls.rdma)), blocksz, j);
    e := first;
    if !ok {
      return;
    }
    e := SetFirstBlock(first, blocksz);
    FirstBlockMultiple(first, blocksz, j);
    assert ([first] + rls.After(mm))[1..] == rls.After(mm);
  }

  /**
   * rlsdma_block_iter_next: the next block of the entry at hand, or the
   * next entry widened by set_first_block. The blocks ahead lose the
   * block at hand.
   */
  method BlockIterNext(rls: DmaState, mm: MemMap, e: DmaEntry, blocksz: u64, ghost j: nat, ghost ahead: seq<u64>)
    returns (ok: bool, e': DmaEntry, ghost ahead': seq<u64>)
    requires blocksz == Pow2(j) && j <= 60 && BlockAhead(rls, mm, e, blocksz, j, ahead)
    modifies rls.rls, if rls.rlscpu != null then {rls.rlscpu, rls.rlscpu.rls} else {}
    ensures rls.Valid()
    ensures ahead' == ahead[1..]
    ensures ok ==> BlockAhead(rls, mm, e', blocksz, j, ahead')
    ensures !ok ==> ahead' == []
  {
    ahead' := ahead[1..];
    if e.length != 0 {
      e' := NextBlock(e, blocksz);
      RunTail(e, blocksz, Blocks(rls.After(mm), blocksz, j), ahead);
      ok := true;
      return;
    }
    ghost var after := rls.After(mm);
    ok, e' := rls.Next(mm, e);
    if !ok {
      return;
    }
    EntryTail(after, e, blocksz, j, ahead);
    assert after[1..] == rls.After(mm);
    e' := SetFirstBlock(e', blocksz);
  }

  /** Inside an entry the blocks ahead lose the block at hand and go on from the next block. */
  lemma RunTail(e: DmaEntry, b: u64, tail: seq<u64>, ahead: seq<u64>)
    requires b > 0 && e.length % b == 0 && e.length != 0 && ahead == BlockRun(e, b) + tail
    ensures NextBlock(e, b).length % b == 0 && ahead[1..] == BlockRun(NextBlock(e, b), b) + tail
  {
    MultipleStep(e.length, b);
    Small60(e.length - b);
  }

  /** At an entry's last block the blocks ahead go on from the next entry, widened by set_first_block. */
  lemma EntryTail(r: seq<DmaEntry>, e: DmaEntry, b: u64, j: nat, ahead: seq<u64>)
    requires b == Pow2(j) && j <= 60 && e.length == 0 && r != [] && ahead == BlockRun(e, b) + Blocks(r, b, j)
    ensures SetFirstBlock(r[0], b).length % b == 0
    ensures ahead[1..] == BlockRun(SetFirstBlock(r[0], b), b) + Blocks(r[1..], b, j)
  {
    FirstBlockMultiple(r[0], b, j);
  }

  /**
   * rlist_dma_for_each_block at a block size 2^j: the dma_address of every
   * block of every entry of the walk, in order, in either mode.
   */
  method ForEachBlock(rls: DmaState, mm: MemMap, blocksz: u64, ghost j: nat) returns (bs: seq<u64>)
    requires rls.Valid() && blocksz == Pow2(j) && j <= 60
    modifies rls.rls, if rls.rlscpu != null then {rls.rlscpu, rls.rlscpu.rls} else {}
    ensures bs == Blocks(old(DmaEntries(mm, rls.rdma)), blocksz, j)
  {
    var ok, e, ahead := BlockIterReset(rls, mm, blocksz, j);
    ghost var total := ahead;
    bs := [];
    while ok
      invariant rls.Valid() && bs + ahead == total
      invariant ok ==> BlockAhead(rls, mm, e, blocksz, j, ahead)
      invariant !ok ==> ahead == []
      decreases |ahead|
    {
      AheadHead(rls, mm, e, blocksz, j, ahead);
      SnocRest(bs, ahead, total);
      bs := bs + [e.dma];
      ok, e, ahead := BlockIterNext(rls, mm, e, blocksz, j, ahead);
    }
  }

  /** rlist_dma_first: the first entry of a walk through a fresh cursor, in either mode. */
  method First(rdma: RlistDma, mm: MemMap) returns (ok: bool, entry: DmaEntry)
    requires rdma.rlist.Valid() && (rdma.cpu != null ==> rdma.cpu.Valid() && rdma.cpu.kind != BioStorage)
    ensures ok <==> DmaEntries(mm, rdma) != []
    ensures ok ==> entry == DmaEntries(mm, rdma)[0]
  {
    var rls := new DmaState(rdma);
    ok, entry := rls.Reset(mm);
  }

  // ---- rlist_dma_length and rlist_dma_num_blocks ---------------------------------

  /**
   * rlist_dma_length as written reads rdma->cpu, which only an identity
   * mapped list has. rlist_dma_num_blocks reaches it whenever
   * rlist_dma_first finds an entry, and a list built by
   * rlist_dma_init_single has an entry and no CPU list: there
   * RlistDma.Length's precondition (the dereference) fails.
   */
  method NullCpuLength(mm: MemMap, stale: seq<u32>) returns (rdma: RlistDma, found: bool)
    requires |stale| == CHUNK_SLOTS
    ensures found && rdma.cpu == null
  {
    rdma := new RlistDma();
    var r := rdma.InitSingle(0x1000, 0x1000, 0, true, stale);
    var e;
    found, e := First(rdma, mm);
  }

  /** The bytes a walk's DMA entries cover together. */
  function SumLengths(ds: seq<DmaEntry>): nat
  {
    if ds == [] then 0 else ds[0].length + SumLengths(ds[1..])
  }

  /**
   * rlist_dma_num_blocks with the length summed over the walk's DMA
   * entries (the "sum of length from every entry" the header promises),
   * so that a list that is not identity mapped has one: 0 for an empty
   * walk, else the blocks from the first entry's block to the end of the
   * list's bytes.
   */
  function WalkNumBlocks(ds: seq<DmaEntry>, b: u64): (n: nat)
    requires b > 0
    ensures ds == [] ==> n == 0
  {
    if ds == [] then 0 else NumBlocks(Some(ds[0]), U64Of(SumLengths(ds)), b)
  }

  /** An entry that neither wraps the address space nor comes near the 60-bit length limit with a block added. */
  predicate OneEntryFits(d: DmaEntry, b: u64)
  {
    d.length > 0 && d.length + b <= U60_LIMIT && d.dma + d.length <= U64_LIMIT
  }

  /** For one entry the summed length counts exactly the blocks rlist_dma_for_each_block yields. */
  lemma OneEntryBlocks(d: DmaEntry, b: u64, j: nat)
    requires b == Pow2(j) && j <= 60 && OneEntryFits(d, b)
    ensures WalkNumBlocks([d], b) == |Blocks([d], b, j)|
  {
    assert SumLengths([d]) == d.length by {
      assert [d][1..] == [];
    }
    assert U64Of(d.length) == d.length;
    assert |Blocks([d], b, j)| == NumBlocks(Some(d), d.length, b) by {
      SingleEntryBlocks(d, b, j);
    }
  }

  // ---- struct rlist_dma_state_iova -----------------------------------------------

  /**
   * rsiova_init_slow as written returns without rlsdma_append_end, so the
   * last chunk is never marked. The slab chunk is not zeroed: when the
   * slot after the last entry happens to hold an ENCODING_8 header, a walk
   * reads it as one more entry, after the entry that was appended.
   */
  lemma UnclosedReadsStale(ws: seq<seq<u32>>, e: Entry)
    requires Layout(ws, [[e]], Size(e), EncodingField)
    requires HdrEncoding(ws[0][Size(e)]) == ENCODING_8
    ensures |Iterate(ws, EncodingField)| >= 2 && Iterate(ws, EncodingField)[0] == e
    ensures Iterate(ws, EncodingField)[1] == Decode(ws[0], Size(e)).entry
  {
    assert Stored(ws[0], 0, [e]);
    DecodeEncoded(ws[0], 0, e);
    assert !IsEnd(ws[0], Size(e), EncodingField);
    var d := Decode(ws[0], Size(e));
    assert d.size == 2;
    var more := RestFrom(ws, 0, Size(e) + 2, EncodingField);
    var next := if IsEnd(ws[0], Size(e) + 2, EncodingField) then RestFrom(ws, 1, 0, EncodingField) else more;
    assert RestFrom(ws, 0, Size(e), EncodingField) == [d.entry] + next;
    assert Iterate(ws, EncodingField) == [e] + ([d.entry] + next);
  }

  /**
   * rsiova_init takes the fast path: a page list without P2PDMA pages
   * whose first entry rlist_cpu_first finds.
   */
  ghost predicate FastPath(mm: MemMap, rcpu: RlistCpu)
    reads rcpu, rcpu.rlist, rcpu.pages
    requires rcpu.Valid()
  {
    rcpu.IsPagelistFlag() && !rcpu.HasP2pdma() && rcpu.kind != BioStorage && CpuEntries(mm, rcpu) != []
  }

  /**
   * What the slow path of rsiova_init reads of each CPU entry: the
   * physical address fill_p2p takes for a FOLIO entry, and its length.
   */
  function RangesOf(mm: MemMap, es: seq<Entry>): (rs: seq<CpuRange>)
    ensures |rs| == |es|
    ensures forall i | 0 <= i < |es| :: rs[i].phys == Wrap64(Physical(mm, es[i])) && rs[i].length == es[i].length
  {
    seq(|es|, i requires 0 <= i < |es| => CpuRange(Wrap64(Physical(mm, es[i])), es[i].length))
  }

  class IovaState {
    /** The device's segmentation limits. */
    var seg: Segmentation
    /** min_iova_pgsize */
    var pgsize: u64
    var curIova: u64
    /** The CPU list rlscpu walks, as each entry's physical address and length. */
    var ranges: seq<CpuRange>
    /** The entry of ranges the walk of rsiova_for_each_map is on. */
    var pos: nat
    /** The first_iova that walk started from. */
    ghost var start: u64

    /** An rlist_dma_state_iova before rsiova_init, here zeroed. */
    constructor ()
      ensures seg == NoSegmentation && pgsize == 0 && curIova == 0 && ranges == [] && pos == 0
    {
      seg, pgsize, curIova, ranges, pos := NoSegmentation, 0, 0, [], 0;
    }

    /** What pad_iova and the segment counts need: a page size, and a maximum segment size to divide by. */
    predicate Ready()
      reads this
    {
      pgsize > 0 && seg.maxSegmentSize > 0
    }

    /** pad_iova (corrected): cur_iova takes phys's offset in its page, and moves to the next boundary window if that keeps the segment count. */
    method Pad(r: CpuRange)
      requires Ready()
      modifies this`curIova
      ensures curIova == PadIova(seg, pgsize, old(curIova), r.phys, r.length)
    {
      curIova := PadIova(seg, pgsize, curIova, r.phys, r.length);
    }

    /** fill_iova_map (corrected): the page-aligned mapping of the entry at cur_iova, which moves to its end. */
    method FillMap(r: CpuRange) returns (m: IovaMap)
      requires Ready()
      modifies this`curIova
      ensures (m, curIova) == FillIovaMapAligned(pgsize, old(curIova), r.phys, r.length)
    {
      var f := FillIovaMapAligned(pgsize, curIova, r.phys, r.length);
      m, curIova := f.0, f.1;
    }

    /** pad_iova then fill_iova_map: the entry placed at cur_iova, which moves past it. */
    method PlaceMap(r: CpuRange) returns (m: IovaMap)
      requires Ready()
      modifies this`curIova
      ensures m == Place(seg, pgsize, old(curIova), r).mapping && curIova == Place(seg, pgsize, old(curIova), r).next
    {
      Pad(r);
      m := FillMap(r);
    }

    /**
     * One turn of the loop of rsiova_init_slow: pad, append the DMA entry
     * at the padded cur_iova, map. Success appends exactly the placed
     * entry; a failed append is ENOMEM, and cannot happen when the slab
     * allocation succeeds.
     */
    method PlaceStep(rlsa: DmaAppendState, r: CpuRange, allocOk: bool, stale: seq<u32>) returns (res: Status, m: IovaMap)
      requires Ready() && rlsa.Valid() && !rlsa.rlsa.noAlloc && |stale| == CHUNK_SLOTS
      modifies this`curIova, rlsa.rlsa, rlsa.rdma.rlist
      ensures rlsa.Valid() && !rlsa.rlsa.noAlloc
      ensures res.Success? ==> rlsa.Appended() == old(rlsa.Appended()) + [Place(seg, pgsize, old(curIova), r).entry] &&
                               m == Place(seg, pgsize, old(curIova), r).mapping && curIova == Place(seg, pgsize, old(curIova), r).next
      ensures res.Failure? ==> res == Failure(ENOMEM)
      ensures allocOk ==> res.Success?
    {
      ghost var p := Place(seg, pgsize, curIova, r);
      Pad(r);
      assert p.entry == DmaEntry(r.length, curIova, 0);
      Small60(r.length);
      res := rlsa.Append(curIova, r.length, 0, allocOk, stale);
      m := IovaMap(0, 0, 0);
      if res.Failure? {
        return;
      }
      m := FillMap(r);
    }

    /**
     * rsiova_init_slow, with the append closed by rlsdma_append_end: the
     * DMA entries are those of the layout of the CPU entries from IOVA 0,
     * and cur_iova is left holding the IOVA length, ALIGN of the end of
     * the last mapping (of the uninitialised map, given as unset, when
     * there is none). A failed append is ENOMEM and empties the list.
     */
    method InitSlow(rdma: RlistDma, allocs: seq<bool>, stale: seq<u32>, unset: IovaMap) returns (r: Status)
      requires Ready() && rdma.rlist.Valid() && rdma.rlist.chunks == [] && rdma.base == 0
      requires |allocs| == |ranges| && |stale| == CHUNK_SLOTS
      modifies this`curIova, rdma.rlist
      ensures rdma.rlist.Valid()
      ensures r.Success? ==> DecodeAllDma(0, Iterate(rdma.rlist.chunks, EncodingField)) == Entries(IovaLayout(seg, pgsize, 0, ranges))
      ensures r.Success? ==> curIova == if ranges == [] then Align(U64Of(unset.iova + unset.length), pgsize)
                                        else Align(LayoutEnd(seg, pgsize, 0, ranges), pgsize)
      ensures r.Failure? ==> r == Failure(ENOMEM) && rdma.rlist.chunks == []
      ensures (forall i | 0 <= i < |allocs| :: allocs[i]) ==> r.Success?
    {
      var rlsa := new DmaAppendState(rdma);
      curIova := 0;
      r := rlsa.Begin();
      if r.Failure? {
        return;
      }
      var last;
      r, last := InitLoop(rlsa, allocs, stale, unset);
      if r.Failure? {
        rlsa.DestroyRlist();
        return;
      }
      rlsa.End();
      var end := U64Of(last.iova + last.length);
      if ranges != [] {
        LayoutLastNext(seg, pgsize, 0, ranges, last);
      }
      curIova := Align(end, pgsize);
    }

    /** The loop of rsiova_init_slow: every CPU entry placed and appended in turn, until an append fails. */
    method InitLoop(rlsa: DmaAppendState, allocs: seq<bool>, stale: seq<u32>, unset: IovaMap) returns (r: Status, last: IovaMap)
      requires Ready() && rlsa.Valid() && !rlsa.rlsa.noAlloc && rlsa.rdma.base == 0 && rlsa.Appended() == [] && curIova == 0
      requires |allocs| == |ranges| && |stale| == CHUNK_SLOTS
      modifies this`curIova, rlsa.rlsa, rlsa.rdma.rlist
      ensures rlsa.Valid()
      ensures r.Success? ==> rlsa.Appended() == Entries(IovaLayout(seg, pgsize, 0, ranges)) &&
                             last == if ranges == [] then unset else IovaLayout(seg, pgsize, 0, ranges)[|ranges| - 1].mapping
      ensures r.Failure? ==> r == Failure(ENOMEM)
      ensures (forall i | 0 <= i < |allocs| :: allocs[i]) ==> r.Success?
    {
      r := Success;
      last := unset;
      var i := 0;
      while i < |ranges|
        invariant Built(rlsa, i, last, unset) && r == Success
        decreases |ranges| - i
      {
        r, last := InitStep(rlsa, i, allocs[i], stale, last, unset);
        if r.Failure? {
          assert !allocs[i];
          return;
        }
        i := i + 1;
      }
      BuiltAll(rlsa, last, unset);
    }

    /** After the last CPU entry the layout built so far is the layout of every entry. */
    lemma BuiltAll(rlsa: DmaAppendState, last: IovaMap, unset: IovaMap)
      requires Built(rlsa, |ranges|, last, unset)
      ensures rlsa.Appended() == Entries(IovaLayout(seg, pgsize, 0, ranges))
      ensures last == if ranges == [] then unset else IovaLayout(seg, pgsize, 0, ranges)[|ranges| - 1].mapping
    {
      assert ranges[..|ranges|] == ranges;
    }

    /**
     * Where the loop of rsiova_init_slow stands after i CPU entries: the
     * appended DMA entries are the layout of those entries from IOVA 0,
     * cur_iova is where it ends, and last is its last mapping (unset
     * before the first).
     */
    ghost predicate Built(rlsa: DmaAppendState, i: nat, last: IovaMap, unset: IovaMap)
      reads this, rlsa, rlsa.rdma, rlsa.rlsa, rlsa.rlsa.rlist
    {
      Ready() && i <= |ranges| && rlsa.Valid() && !rlsa.rlsa.noAlloc && rlsa.rdma.base == 0 &&
      rlsa.Appended() == Entries(IovaLayout(seg, pgsize, 0, ranges[..i])) &&
      curIova == LayoutEnd(seg, pgsize, 0, ranges[..i]) &&
      last == if i == 0 then unset else IovaLayout(seg, pgsize, 0, ranges[..i])[i - 1].mapping
    }

    /** One turn of the loop of rsiova_init_slow, on CPU entry i: the layout grows by that entry. */
    method InitStep(rlsa: DmaAppendState, i: nat, allocOk: bool, stale: seq<u32>, ghost prev: IovaMap, ghost unset: IovaMap)
      returns (r: Status, last: IovaMap)
      requires i < |ranges| && |stale| == CHUNK_SLOTS && Built(rlsa, i, prev, unset)
      modifies this`curIova, rlsa.rlsa, rlsa.rdma.rlist
      ensures rlsa.Valid()
      ensures r.Success? ==> Built(rlsa, i + 1, last, unset)
      ensures r.Failure? ==> r == Failure(ENOMEM)
      ensures allocOk ==> r.Success?
    {
      ghost var before := ranges[..i];
      TakeSnoc(ranges, i);
      ghost var p := Place(seg, pgsize, curIova, ranges[i]);
      r, last := PlaceStep(rlsa, ranges[i], allocOk, stale);
      if r.Failure? {
        return;
      }
      LayoutSnoc(seg, pgsize, 0, before, ranges[i]);
      EntriesSnoc(IovaLayout(seg, pgsize, 0, before), p);
    }

    /**
     * rsiova_init: EINVAL when min_iova_pgsize shares bits with
     * min_align_mask. Else base 0 and: on the fast path one entry at IOVA
     * 0 for the whole length of the CPU list (ENOMEM if its allocation
     * fails), otherwise what rsiova_init_slow builds.
     */
    method Init(rcpu: RlistCpu, mm: MemMap, cpuRanges: seq<CpuRange>, rdma: RlistDma, segment: Segmentation, minPgsize: u64,
                singleAlloc: bool, allocs: seq<bool>, stale: seq<u32>, unset: IovaMap) returns (r: Status)
      requires rcpu.Valid() && (rcpu.kind == BioStorage ==> !rcpu.IsPagelistFlag())
      requires !rcpu.HasP2pdma() && rcpu.kind != BioStorage ==> cpuRanges == RangesOf(mm, CpuEntries(mm, rcpu))
      requires rdma.rlist.Valid() && rdma.rlist.chunks == [] && rdma.rlist != rcpu.rlist
      requires minPgsize > 0 && segment.maxSegmentSize > 0
      requires |allocs| == |cpuRanges| && |stale| == CHUNK_SLOTS
      modifies this, rdma, rdma.rlist
      ensures rdma.rlist.Valid()
      ensures InitCheck(minPgsize, segment).Failure? ==>
                r == Failure(EINVAL) && rdma.base == old(rdma.base) && rdma.rlist.chunks == [] && ranges == old(ranges)
      ensures InitCheck(minPgsize, segment).Success? ==>
                seg == segment && pgsize == minPgsize && ranges == cpuRanges && rdma.base == 0
      ensures InitCheck(minPgsize, segment).Success? && FastPath(mm, rcpu) ==>
                (r.Success? <==> singleAlloc) && (r.Failure? ==> r == Failure(ENOMEM) && rdma.rlist.chunks == []) &&
                (r.Success? ==> DecodeAllDma(0, Iterate(rdma.rlist.chunks, EncodingField)) == [DmaEntry(rcpu.Length() % U60_LIMIT, 0, 0)]) &&
                var first := CpuEntries(mm, rcpu)[0];
                curIova == Align(U64Of(rcpu.Length() + Wrap64(Physical(mm, first)) % PAGE_SIZE), first.length)
      ensures InitCheck(minPgsize, segment).Success? && !FastPath(mm, rcpu) ==>
                (r.Failure? ==> r == Failure(ENOMEM) && rdma.rlist.chunks == []) &&
                ((forall i | 0 <= i < |allocs| :: allocs[i]) ==> r.Success?) &&
                (r.Success? ==> DecodeAllDma(0, Iterate(rdma.rlist.chunks, EncodingField)) == Entries(IovaLayout(segment, minPgsize, 0, cpuRanges)))
    {
      r := InitCheck(minPgsize, segment);
      if r.Failure? {
        return;
      }
      ranges, pos := cpuRanges, 0;
      pgsize, seg := minPgsize, segment;
      rdma.base := 0;
      r := InitPath(rcpu, mm, rdma, singleAlloc, allocs, stale, unset);
    }

    /**
     * The choice rsiova_init makes once min_iova_pgsize is accepted: one
     * entry for the whole CPU list on the fast path, else rsiova_init_slow.
     */
    method InitPath(rcpu: RlistCpu, mm: MemMap, rdma: RlistDma, singleAlloc: bool, allocs: seq<bool>, stale: seq<u32>, unset: IovaMap)
      returns (r: Status)
      requires Ready() && rcpu.Valid() && (rcpu.kind == BioStorage ==> !rcpu.IsPagelistFlag())
      requires rdma.rlist.Valid() && rdma.rlist.chunks == [] && rdma.rlist != rcpu.rlist && rdma.base == 0
      requires |allocs| == |ranges| && |stale| == CHUNK_SLOTS
      modifies this`curIova, rdma`base, rdma.rlist
      ensures rdma.rlist.Valid() && rdma.base == 0
      ensures FastPath(mm, rcpu) ==>
                (r.Success? <==> singleAlloc) && (r.Failure? ==> r == Failure(ENOMEM) && rdma.rlist.chunks == []) &&
                (r.Success? ==> DecodeAllDma(0, Iterate(rdma.rlist.chunks, EncodingField)) == [DmaEntry(rcpu.Length() % U60_LIMIT, 0, 0)]) &&
                var first := CpuEntries(mm, rcpu)[0];
                curIova == Align(U64Of(rcpu.Length() + Wrap64(Physical(mm, first)) % PAGE_SIZE), first.length)
      ensures !FastPath(mm, rcpu) ==>
                (r.Failure? ==> r == Failure(ENOMEM) && rdma.rlist.chunks == []) &&
                ((forall i | 0 <= i < |allocs| :: allocs[i]) ==> r.Success?) &&
                (r.Success? ==> DecodeAllDma(0, Iterate(rdma.rlist.chunks, EncodingField)) == Entries(IovaLayout(seg, pgsize, 0, ranges)))
    {
      ghost var onFast := FastPath(mm, rcpu);
      var fast := rcpu.IsPagelistFlag() && !rcpu.HasP2pdma();
      var entry := ZERO_ENTRY;
      if fast {
        fast, entry := RlistCpuState.First(rcpu, mm);
      }
      assert fast == onFast;
      if !fast {
        r := InitSlow(rdma, allocs, stale, unset);
        assert FastPath(mm, rcpu) == onFast;
        return;
      }
      curIova := Align(U64Of(rcpu.Length() + Wrap64(Physical(mm, entry)) % PAGE_SIZE), entry.length);
      r := rdma.InitSingle(0, rcpu.Length(), 0, singleAlloc, stale);
      assert FastPath(mm, rcpu) && entry == CpuEntries(mm, rcpu)[0];
    }

    /**
     * rsiova_set_iova: the allocated IOVA becomes the base the DMA entries
     * are relative to; it warns (in the corrected form) when the IOVA is
     * not aligned to rsiova_alignment.
     */
    method SetIova(rdma: RlistDma, iova: u64) returns (warned: bool)
      requires Ready()
      modifies rdma`base
      ensures rdma.base == iova
      ensures warned <==> SetIovaWarns(Alignment(seg, pgsize, curIova), iova)
    {
      rdma.base := iova;
      warned := SetIovaWarns(Alignment(seg, pgsize, curIova), iova);
    }

    /** The walk of rsiova_for_each_map is on an entry, cur_iova just past its mapping. */
    ghost predicate Walking()
      reads this
    {
      Ready() && pos < |ranges| && curIova == IovaLayout(seg, pgsize, start, ranges)[pos].next
    }

    /**
     * rsiova_first_map: with cur_iova at first_iova, the mapping of the
     * first CPU entry as the layout from first_iova places it; for an
     * empty list, map with length 0.
     */
    method FirstMap(firstIova: u64, prev: IovaMap) returns (m: IovaMap)
      requires Ready()
      modifies this`curIova, this`pos, this`start
      ensures ranges == [] ==> m == prev.(length := 0) && curIova == old(curIova)
      ensures ranges != [] ==> start == firstIova && pos == 0 && Walking() &&
                               m == IovaLayout(seg, pgsize, start, ranges)[0].mapping
    {
      if ranges == [] {
        return prev.(length := 0);
      }
      curIova, pos, start := firstIova, 0, firstIova;
      m := PlaceMap(ranges[0]);
      LayoutAt(seg, pgsize, start, ranges, 0);
    }

    /**
     * rsiova_next_map: the mapping of the next CPU entry as the layout
     * places it; past the last, map with length 0.
     */
    method NextMap(prev: IovaMap) returns (m: IovaMap)
      requires Walking()
      modifies this`curIova, this`pos
      ensures pos == old(pos) + 1
      ensures pos < |ranges| ==> Walking() && m == IovaLayout(seg, pgsize, start, ranges)[pos].mapping
      ensures pos == |ranges| ==> m == prev.(length := 0) && curIova == old(curIova)
    {
      pos := pos + 1;
      if pos == |ranges| {
        return prev.(length := 0);
      }
      m := PlaceMap(ranges[pos]);
      LayoutAt(seg, pgsize, start, ranges, pos);
    }

    /**
     * Where the walk of rsiova_for_each_map stands: ms holds the mappings
     * yielded so far, and m, the current one, is the layout's mapping of
     * entry pos; once m has length 0, ms is all the walk yields.
     */
    ghost predicate MapWalk(ps: seq<Placed>, ms: seq<IovaMap>, m: IovaMap)
      reads this
    {
      Ready() && pos <= |ranges| && ps == IovaLayout(seg, pgsize, start, ranges) &&
      (m.length != 0 ==> pos < |ranges| && curIova == ps[pos].next && m == ps[pos].mapping && ms + Maps(ps[pos..]) == Maps(ps)) &&
      (m.length == 0 ==> ms == Maps(ps))
    }

    /** One turn of rsiova_for_each_map: yield m, then rsiova_next_map. */
    method MapStep(ghost ps: seq<Placed>, ms: seq<IovaMap>, m: IovaMap) returns (ms': seq<IovaMap>, m': IovaMap)
      requires MapWalk(ps, ms, m) && m.length != 0
      modifies this`curIova, this`pos
      ensures MapWalk(ps, ms', m') && pos == old(pos) + 1
    {
      ghost var k := pos;
      ghost var rest := Maps(ps[k + 1..]);
      assert ps[k..][1..] == ps[k + 1..];
      assert Maps(ps[k..]) == [m] + rest;
      ms' := ms + [m];
      assert ms' + rest == ms + ([m] + rest);
      m' := NextMap(m);
      if pos == |ranges| {
        assert ps[pos..] == [];
      }
      if m'.length == 0 {
        assert rest == [];
        assert ms' + rest == ms';
      }
    }

    /** rsiova_for_each_map from first_iova: the mappings of the layout from there, in order. */
    method ForEachMap(firstIova: u64) returns (ms: seq<IovaMap>)
      requires Ready()
      modifies this`curIova, this`pos, this`start
      ensures ms == Maps(IovaLayout(seg, pgsize, firstIova, ranges))
    {
      ghost var ps := IovaLayout(seg, pgsize, firstIova, ranges);
      var m := FirstMap(firstIova, IovaMap(0, 0, 0));
      ms := [];
      if ranges == [] {
        return;
      }
      assert ps[0..] == ps;
      while m.length != 0
        invariant MapWalk(ps, ms, m) && start == firstIova
        decreases |ranges| - pos
      {
        ms, m := MapStep(ps, ms, m);
      }
    }
  }

  // ---- the KUnit test ------------------------------------------------------------

  /**
   * The KUnit simple_test of rlist_dma: a fresh list is empty with no
   * entries; after appending dma_address 10, length 11 it has one, and
   * rlsdma_reset yields it. The slab allocation is taken to succeed.
   */
  method DmaSimpleTest(mm: MemMap, stale: seq<u32>)
    returns (emptyBefore: bool, countBefore: nat, countAfter: nat, resetOk: bool, first: DmaEntry)
    requires |stale| == CHUNK_SLOTS
    ensures emptyBefore && countBefore == 0
    ensures countAfter == 1 && resetOk && first == DmaEntry(11, 10, 0)
  {
    var rdma := new RlistDma();
    emptyBefore, countBefore := DmaTestEmpty(rdma, mm);
    DmaAppendOne(rdma, stale);
    countAfter, resetOk, first := DmaTestOne(rdma, mm);
    rdma.Destroy();
  }

  /** The DMA simple test on the fresh list: rlist_dma_empty holds and no entry is walked. */
  method DmaTestEmpty(rdma: RlistDma, mm: MemMap) returns (empty: bool, count: nat)
    requires rdma.rlist.Valid() && rdma.rlist.chunks == [] && rdma.cpu == null
    ensures empty && count == 0
  {
    empty := rdma.Empty();
    var walk := new DmaState(rdma);
    var es := ForEachEntry(walk, mm);
    count := |es|;
  }

  /** The DMA simple test's append: begin, one allocating append of (10, 11) that succeeds, end. */
  method DmaAppendOne(rdma: RlistDma, stale: seq<u32>)
    requires rdma.rlist.Valid() && rdma.rlist.chunks == [] && |stale| == CHUNK_SLOTS
    modifies rdma.rlist
    ensures rdma.rlist.Valid() && DecodeAllDma(rdma.base, Iterate(rdma.rlist.chunks, EncodingField)) == [DmaEntry(11, 10, 0)]
  {
    var rlsa := new DmaAppendState(rdma);
    var r := rlsa.Begin();
    ghost var none := rlsa.Appended();
    assert none == [] && 11 % U60_LIMIT == 11;
    r := rlsa.Append(10, 11, 0, true, stale);
    assert rlsa.Appended() == none + [DmaEntry(11, 10, 0)] == [DmaEntry(11, 10, 0)];
    rlsa.End();
  }

  /** The DMA simple test on the list holding one entry: it is walked, and rlsdma_reset yields it. */
  method DmaTestOne(rdma: RlistDma, mm: MemMap) returns (count: nat, resetOk: bool, first: DmaEntry)
    requires rdma.rlist.Valid() && rdma.cpu == null
    requires DecodeAllDma(rdma.base, Iterate(rdma.rlist.chunks, EncodingField)) == [DmaEntry(11, 10, 0)]
    ensures count == 1 && resetOk && first == DmaEntry(11, 10, 0)
  {
    var walk := new DmaState(rdma);
    var es := ForEachEntry(walk, mm);
    count := |es|;
    walk := new DmaState(rdma);
    resetOk, first := walk.Reset(mm);
  }
}
