// The mlx5 VFIO live-migration driver: the arcs of the VFIO migration state
// machine it executes, the freeze bit, and the migration region through
// which user space reads the device state out (STOP_COPY) or writes it
// back (RESUMING), a 64 MiB data window at a time.
//
// The VHCA firmware commands, the migration-page store and the user copies
// are inputs: each command's outcome is a parameter, and the page store is
// reduced to its page count.

module VfioMlx5 {
  import opened Errno

  const U32_LIMIT: nat := 0x1_0000_0000
  const U64_LIMIT: nat := 0x1_0000_0000_0000_0000

  type u32 = x: nat | x < U32_LIMIT
  type u64 = x: nat | x < U64_LIMIT

  /** PAGE_SIZE of a 4 KiB-page kernel. */
  const PAGE_SIZE: nat := 4096

  /** MLX5VF_MIG_REGION_DATA_SIZE: SZ_64M, the size of the data window. */
  const DATA_SIZE: nat := 0x400_0000

  /**
   * struct vfio_device_migration_info (the VFIO uapi header is not part of
   * this model): device_state (u32) at 0, a reserved u32, then the u64
   * fields pending_bytes, data_offset and data_size; the data section
   * (MLX5VF_MIG_REGION_DATA_OFFSET) starts after the 32-byte header.
   */
  const DEVICE_STATE_OFFSET: nat := 0
  const PENDING_BYTES_OFFSET: nat := 8
  const DATA_OFFSET_OFFSET: nat := 16
  const DATA_SIZE_OFFSET: nat := 24
  const MIG_REGION_DATA_OFFSET: nat := 32

  /** VFIO_PCI_OFFSET_MASK: the region offset is the low 40 bits of *ppos. */
  const OFFSET_LIMIT: nat := 0x100_0000_0000

  /** MLX5VF_PCI_FREEZED, bit 0 of dev_state. */
  const PCI_FREEZED: nat := 1

  /** MLX5VF_REGION_PENDING_BYTES and MLX5VF_REGION_DATA_SIZE, bits of region_state. */
  const REGION_PENDING_BYTES: nat := 1
  const REGION_DATA_SIZE: nat := 2

  function Min(a: nat, b: nat): nat
  {
    if a <= b then a else b
  }

  /** a − b on a u64, wrapping below zero. */
  function Sub64(a: u64, b: u64): u64
  {
    (a - b) % U64_LIMIT
  }

  /** a + b on a u64, wrapping. */
  function Add64(a: u64, b: u64): u64
  {
    (a + b) % U64_LIMIT
  }

  /** enum vfio_device_mig_state. */
  datatype MigState = Error | Stop | Running | StopCopy | Resuming | RunningP2P | PreCopy | PreCopyP2P

  /**
   * The outcomes of the VHCA commands one call may issue: suspend and
   * resume as "slave" (freeze, unfreeze) and as "master" (quiesce,
   * unquiesce), the migration-state size query, the save (with the
   * state_size it leaves in the state data), the load, and the page
   * allocation of a new write window.
   */
  datatype Cmds = Cmds(suspendSlave: Status, resumeSlave: Status,
                       suspendMaster: Status, resumeMaster: Status,
                       query: Result<u32>, save: Result<u64>, load: Status, addPages: Status)

  /**
   * The migration bookkeeping of mlx5vf_pci_migration_info and its
   * mlx5_vhca_state_data: the VFIO state, dev_state, region_state,
   * state_size, win_start_offset and the number of migration pages.
   */
  datatype Vmig = Vmig(fsm: MigState, devState: u32, regionState: u32,
                       stateSize: u64, winStartOffset: u64, numPages: nat)

  /** The (cur, new) arcs mlx5vf_pci_setup_device_state executes. */
  predicate HandledArc(cur: MigState, next: MigState)
  {
    (cur == RunningP2P && next == Stop) || (cur == Stop && next == RunningP2P) ||
    (cur == Running && next == RunningP2P) || (cur == PreCopy && next == PreCopyP2P) ||
    (cur == RunningP2P && next == Running) || (cur == PreCopyP2P && next == PreCopy) ||
    (cur == Stop && next == StopCopy) || (cur == PreCopyP2P && next == StopCopy) ||
    ResetArc(cur, next) ||
    (cur == Stop && next == Resuming) || (cur == Resuming && next == Stop)
  }

  /** The arcs that only drop the migration state. */
  predicate ResetArc(cur: MigState, next: MigState)
  {
    (cur == Running && next == PreCopy) || (cur == RunningP2P && next == PreCopyP2P) ||
    (cur == PreCopy && next == Running) || (cur == PreCopyP2P && next == RunningP2P) ||
    (cur == StopCopy && next == Stop)
  }

  /** dev_state |= MLX5VF_PCI_FREEZED */
  function SetFreezed(d: u32): (r: u32)
    ensures r % 2 == 1 && r / 2 == d / 2
  {
    if d % 2 == 1 then d else d + 1
  }

  /** dev_state &= ~MLX5VF_PCI_FREEZED */
  function ClearFreezed(d: u32): (r: u32)
    ensures r % 2 == 0 && r / 2 == d / 2
  {
    d - d % 2
  }

  /** region_state |= MLX5VF_REGION_DATA_SIZE */
  function SetDataSizeFlag(s: u32): (r: u32)
    ensures (r / 2) % 2 == 1 && r % 2 == s % 2 && r / 4 == s / 4
  {
    if (s / 2) % 2 == 1 then s else s + 2
  }

  // ---- mlx5vf_pci_new_write_window ---------------------------------------

  /**
   * allocated_ready: the bytes of the allocated pages past the window
   * start, num_pages·PAGE_SIZE − win_start_offset on a u64 (the WARN_ON
   * cases wrap).
   */
  function AllocatedReady(numPages: nat, winStartOffset: u64): u64
  {
    Sub64((numPages * PAGE_SIZE) % U64_LIMIT, winStartOffset)
  }

  /** bytes_needed: 64 MiB − allocated_ready, truncated to the u32 it is stored in. */
  function BytesNeeded(numPages: nat, winStartOffset: u64): u32
  {
    (DATA_SIZE - AllocatedReady(numPages, winStartOffset)) % U32_LIMIT
  }

  /** num_pages_needed: DIV_ROUND_UP_ULL(bytes_needed, PAGE_SIZE), 0 when nothing is needed. */
  function PagesNeeded(numPages: nat, winStartOffset: u64): nat
  {
    (BytesNeeded(numPages, winStartOffset) + PAGE_SIZE - 1) / PAGE_SIZE
  }

  /**
   * A new write window covers the whole data window and no more than a
   * page of slack: when the allocated pages already reach the window start
   * and hold at most 64 MiB past it, adding the requested pages makes at
   * least 64 MiB and less than 64 MiB + PAGE_SIZE available past the
   * window start; no page is requested exactly when 64 MiB are already
   * there.
   */
  lemma {:induction false} WriteWindowCovers(numPages: nat, winStartOffset: u64)
    requires winStartOffset <= numPages * PAGE_SIZE <= winStartOffset + DATA_SIZE
    requires numPages * PAGE_SIZE < U64_LIMIT
    ensures winStartOffset + DATA_SIZE <= (numPages + PagesNeeded(numPages, winStartOffset)) * PAGE_SIZE
    ensures (numPages + PagesNeeded(numPages, winStartOffset)) * PAGE_SIZE < winStartOffset + DATA_SIZE + PAGE_SIZE
    ensures PagesNeeded(numPages, winStartOffset) == 0 <==> numPages * PAGE_SIZE == winStartOffset + DATA_SIZE
  {
    var ready := numPages * PAGE_SIZE - winStartOffset;
    assert AllocatedReady(numPages, winStartOffset) == ready;
    var b := DATA_SIZE - ready;
    assert BytesNeeded(numPages, winStartOffset) == b;
    var n := (b + PAGE_SIZE - 1) / PAGE_SIZE;
    assert n * PAGE_SIZE <= b + PAGE_SIZE - 1 < n * PAGE_SIZE + PAGE_SIZE by {
      DivBounds(b + PAGE_SIZE - 1, PAGE_SIZE);
    }
    assert (numPages + n) * PAGE_SIZE == numPages * PAGE_SIZE + n * PAGE_SIZE;
  }

  lemma DivBounds(x: nat, d: nat)
    requires d > 0
    ensures (x / d) * d <= x < (x / d) * d + d
  {
  }

  // ---- the per-page copy loops -------------------------------------------

  /** One step of a copy loop: copy_count bytes at window offset off (a u32). */
  datatype Chunk = Chunk(off: u32, len: nat)

  /**
   * The steps of the do-while loops of copy_user_data_to_device_state and
   * copy_device_state_to_user from curr_offset cur over count bytes: each
   * copies up to the end of cur's page, curr_offset advancing on its u32;
   * at least one step is taken, even for count 0.
   */
  function PageChunks(cur: u32, count: nat): seq<Chunk>
    decreases count
  {
    var step := Min(PAGE_SIZE - cur % PAGE_SIZE, count);
    if count - step > 0 then [Chunk(cur, step)] + PageChunks((cur + step) % U32_LIMIT, count - step)
    else [Chunk(cur, step)]
  }

  function SumLen(cs: seq<Chunk>): nat
  {
    if cs == [] then 0 else cs[0].len + SumLen(cs[1..])
  }

  /** The steps copy exactly count bytes in all, and the first starts at cur. */
  lemma {:induction false} PageChunksSum(cur: u32, count: nat)
    ensures SumLen(PageChunks(cur, count)) == count
    ensures PageChunks(cur, count)[0].off == cur
    decreases count
  {
    var step := Min(PAGE_SIZE - cur % PAGE_SIZE, count);
    PageChunksCons(cur, count);
    var cs := PageChunks(cur, count);
    if count - step > 0 {
      PageChunksSum((cur + step) % U32_LIMIT, count - step);
    } else {
      assert SumLen(cs) == step + SumLen(cs[1..]);
    }
  }

  /**
   * Each step stays inside one page, and is nonempty unless count is 0.
   */
  lemma {:induction false} PageChunksInPage(cur: u32, count: nat, i: nat)
    requires i < |PageChunks(cur, count)|
    ensures PageChunks(cur, count)[i].off % PAGE_SIZE + PageChunks(cur, count)[i].len <= PAGE_SIZE
    ensures count > 0 ==> PageChunks(cur, count)[i].len > 0
    decreases count
  {
    var step := Min(PAGE_SIZE - cur % PAGE_SIZE, count);
    PageChunksCons(cur, count);
    if i > 0 {
      var cs := PageChunks(cur, count);
      assert cs[i] == cs[1..][i - 1];
      PageChunksInPage((cur + step) % U32_LIMIT, count - step, i - 1);
    }
  }

  /** Each step starts where the previous one ended, on the u32 curr_offset. */
  lemma {:induction false} PageChunksContiguous(cur: u32, count: nat, i: nat)
    requires i + 1 < |PageChunks(cur, count)|
    ensures PageChunks(cur, count)[i + 1].off == (PageChunks(cur, count)[i].off + PageChunks(cur, count)[i].len) % U32_LIMIT
    decreases count
  {
    var step := Min(PAGE_SIZE - cur % PAGE_SIZE, count);
    var next := (cur + step) % U32_LIMIT;
    PageChunksCons(cur, count);
    var cs := PageChunks(cur, count);
    assert cs[i + 1] == cs[1..][i];
    if i > 0 {
      assert cs[i] == cs[1..][i - 1];
      PageChunksContiguous(next, count - step, i - 1);
    } else {
      PageChunksSum(next, count - step);
    }
  }

  /** A step that the copy loop completes: its page is allocated and its user copy does not fault. */
  predicate ChunkOk(c: Chunk, i: nat, numPages: nat, faultAt: Option<nat>)
  {
    c.off / PAGE_SIZE < numPages && faultAt != Some(i)
  }

  lemma PageChunksCons(cur: u32, count: nat)
    ensures PageChunks(cur, count)[0] == Chunk(cur, Min(PAGE_SIZE - cur % PAGE_SIZE, count))
    ensures var step := Min(PAGE_SIZE - cur % PAGE_SIZE, count);
      if count - step > 0 then PageChunks(cur, count)[1..] == PageChunks((cur + step) % U32_LIMIT, count - step)
      else |PageChunks(cur, count)| == 1
  {
  }


  /**
   * While curr_offset does not wrap, every step lies inside the bytes the
   * transfer names: from cur, and below cur + count when count > 0.
   */
  lemma {:induction false} PageChunksWithin(cur: u32, count: nat, i: nat)
    requires cur + count <= U32_LIMIT && i < |PageChunks(cur, count)|
    ensures cur <= PageChunks(cur, count)[i].off
    ensures count > 0 ==> PageChunks(cur, count)[i].off < cur + count
    decreases count
  {
    var step := Min(PAGE_SIZE - cur % PAGE_SIZE, count);
    PageChunksCons(cur, count);
    if i > 0 {
      var cs := PageChunks(cur, count);
      assert cs[i] == cs[1..][i - 1];
      PageChunksWithin((cur + step) % U32_LIMIT, count - step, i - 1);
    }
  }

  // ---- the steps of the migration state machine ------------------------------

  /** The status one step returns and the bookkeeping it leaves. */
  datatype Outcome = Outcome(status: Status, after: Vmig)

  /**
   * The migration pages a saved state of the given size is stored in
   * (mlx5vf_cmd_save_vhca_state lives in cmd.c, which is not part of this
   * model; it is taken to add ⌈size / PAGE_SIZE⌉ pages to the store,
   * holding the state from window offset 0).
   */
  function SavedPages(size: nat): nat
  {
    (size + PAGE_SIZE - 1) / PAGE_SIZE
  }

  /**
   * mlx5vf_pci_save_device_data on the bookkeeping v: -EFAULT unless
   * frozen; nothing to do once a state has been read (state_size ≠ 0);
   * else the query's error, the save's error, or the saved state with its
   * pages. It touches nothing but state_size and the page store, and a
   * failure touches nothing.
   */
  function Save(v: Vmig, c: Cmds): (o: Outcome)
    ensures o.after == v.(stateSize := o.after.stateSize, numPages := o.after.numPages)
    ensures o.status.Failure? ==> o.after == v
  {
    if v.devState % 2 != PCI_FREEZED then Outcome(Failure(EFAULT), v)
    else if v.stateSize != 0 then Outcome(Success, v)
    else if c.query.Err? then Outcome(Failure(c.query.err), v)
    else if c.save.Err? then Outcome(Failure(c.save.err), v)
    else Outcome(Success, v.(stateSize := c.save.value, numPages := v.numPages + SavedPages(c.save.value)))
  }

  /**
   * A state is saved once: on a frozen device holding a saved state, a
   * further save returns 0 and changes nothing, whatever its commands
   * would have answered.
   */
  lemma SaveOnce(v: Vmig, c: Cmds, c': Cmds)
    requires Save(v, c).status.Success? && Save(v, c).after.stateSize != 0
    ensures Save(Save(v, c).after, c') == Outcome(Success, Save(v, c).after)
  {
  }

  /**
   * A save into an empty store leaves pages that hold the whole state and
   * less than a page more.
   */
  lemma SaveFillsPages(v: Vmig, c: Cmds)
    requires v.stateSize == 0 && v.numPages == 0 && Save(v, c).status.Success?
    ensures var w := Save(v, c).after;
      w.stateSize <= w.numPages * PAGE_SIZE < w.stateSize + PAGE_SIZE
  {
    var s := Save(v, c).after.stateSize;
    DivBounds(s + PAGE_SIZE - 1, PAGE_SIZE);
  }

  /** mlx5vf_reset_mig_state on the bookkeeping: the migration state is dropped. */
  function ResetMig(v: Vmig): Vmig
  {
    v.(regionState := 0, stateSize := 0, winStartOffset := 0, numPages := 0)
  }

  /**
   * mlx5vf_pci_setup_device_state for the arc from v.fsm to next, each
   * VHCA command answering as c says.
   */
  function Arc(v: Vmig, next: MigState, c: Cmds): Outcome
  {
    var cur := v.fsm;
    if cur == RunningP2P && next == Stop then
      Outcome(c.suspendSlave, if c.suspendSlave.Success? then v.(devState := SetFreezed(v.devState)) else v)
    else if cur == Stop && next == RunningP2P then
      Outcome(c.resumeSlave, if c.resumeSlave.Success? then v.(devState := ClearFreezed(v.devState)) else v)
    else if (cur == Running && next == RunningP2P) || (cur == PreCopy && next == PreCopyP2P) then
      Outcome(c.suspendMaster, v)
    else if (cur == RunningP2P && next == Running) || (cur == PreCopyP2P && next == PreCopy) then
      Outcome(c.resumeMaster, v)
    else if cur == Stop && next == StopCopy then
      Save(ResetMig(v), c)
    else if cur == PreCopyP2P && next == StopCopy then
      if c.suspendSlave.Failure? then Outcome(c.suspendSlave, v)
      else
        var s := Save(v.(devState := SetFreezed(v.devState)), c);
        if s.status.Success? then s
        else if c.resumeSlave.Failure? then Outcome(s.status, s.after.(fsm := Error))
        else Outcome(s.status, s.after.(devState := ClearFreezed(s.after.devState)))
    else if ResetArc(cur, next) then
      Outcome(Success, ResetMig(v))
    else if cur == Stop && next == Resuming then
      var n := PagesNeeded(v.numPages, v.winStartOffset);
      if n == 0 then Outcome(Success, v)
      else Outcome(c.addPages, if c.addPages.Success? then v.(numPages := v.numPages + n) else v)
    else if cur == Resuming && next == Stop then
      if v.stateSize != 0 && c.load.Failure? then Outcome(c.load, v) else Outcome(Success, ResetMig(v))
    else
      Outcome(Failure(EINVAL), v)
  }

  /** An arc mlx5vf_pci_setup_device_state does not handle is -EINVAL and changes nothing. */
  lemma ArcUnhandled(v: Vmig, next: MigState, c: Cmds)
    requires !HandledArc(v.fsm, next)
    ensures Arc(v, next, c) == Outcome(Failure(EINVAL), v)
  {
  }

  /**
   * No arc moves vfio_dev_fsm, except to ERROR: when PRE_COPY_P2P →
   * STOP_COPY froze the device, failed to save, and then failed to
   * unfreeze it.
   */
  lemma ArcFsm(v: Vmig, next: MigState, c: Cmds)
    ensures var w := Arc(v, next, c).after;
      w.fsm == v.fsm ||
      (w.fsm == Error && v.fsm == PreCopyP2P && next == StopCopy && c.suspendSlave.Success? &&
       c.resumeSlave.Failure? && Arc(v, next, c).status.Failure?)
  {
  }

  /**
   * The freeze arcs: RUNNING_P2P → STOP freezes the device and STOP →
   * RUNNING_P2P unfreezes it when the command succeeds; the quiesce arcs
   * change no bookkeeping at all.
   */
  lemma ArcFreeze(v: Vmig, next: MigState, c: Cmds)
    ensures v.fsm == RunningP2P && next == Stop ==>
      var w := Arc(v, next, c).after;
      Arc(v, next, c).status == c.suspendSlave &&
      (c.suspendSlave.Success? ==> w.devState % 2 == PCI_FREEZED && w.devState / 2 == v.devState / 2 &&
                                   w == v.(devState := w.devState)) &&
      (c.suspendSlave.Failure? ==> w == v)
    ensures v.fsm == Stop && next == RunningP2P ==>
      var w := Arc(v, next, c).after;
      Arc(v, next, c).status == c.resumeSlave &&
      (c.resumeSlave.Success? ==> w.devState % 2 != PCI_FREEZED && w.devState / 2 == v.devState / 2 &&
                                  w == v.(devState := w.devState)) &&
      (c.resumeSlave.Failure? ==> w == v)
    ensures (v.fsm == Running && next == RunningP2P) || (v.fsm == PreCopy && next == PreCopyP2P) ||
            (v.fsm == RunningP2P && next == Running) || (v.fsm == PreCopyP2P && next == PreCopy) ==>
      Arc(v, next, c).after == v
  {
  }

  /**
   * The arcs that leave STOP_COPY or a PRE_COPY state, or the RUNNING
   * states into PRE_COPY, drop the migration state and succeed; RESUMING
   * → STOP does the same once the load succeeds (or there is nothing to
   * load), and otherwise returns the load's error with nothing changed.
   */
  lemma ArcDrops(v: Vmig, next: MigState, c: Cmds)
    ensures ResetArc(v.fsm, next) ==> Arc(v, next, c) == Outcome(Success, ResetMig(v))
    ensures v.fsm == Resuming && next == Stop ==>
      (Arc(v, next, c).status.Success? <==> v.stateSize == 0 || c.load.Success?) &&
      Arc(v, next, c).after == (if Arc(v, next, c).status.Success? then ResetMig(v) else v)
  {
  }

  /**
   * STOP → RESUMING opens a write window: when the pages reach the window
   * start and hold at most 64 MiB past it, a success leaves pages covering
   * the whole 64 MiB window past its start.
   */
  lemma ArcResuming(v: Vmig, c: Cmds)
    requires v.fsm == Stop
    requires v.winStartOffset <= v.numPages * PAGE_SIZE <= v.winStartOffset + DATA_SIZE
    requires v.numPages * PAGE_SIZE < U64_LIMIT
    ensures var o := Arc(v, Resuming, c);
      o.status.Success? ==> v.winStartOffset + DATA_SIZE <= o.after.numPages * PAGE_SIZE
  {
    WriteWindowCovers(v.numPages, v.winStartOffset);
  }

  /**
   * Both arcs into STOP_COPY end, when they succeed, with the device
   * frozen and a state saved; from STOP the saved state is a fresh one,
   * with the window at its start and pages holding all of it.
   */
  lemma ArcStopCopy(v: Vmig, next: MigState, c: Cmds)
    requires (v.fsm == Stop || v.fsm == PreCopyP2P) && next == StopCopy
    requires Arc(v, next, c).status.Success?
    ensures var w := Arc(v, next, c).after;
      w.devState % 2 == PCI_FREEZED && w.fsm == v.fsm &&
      (v.fsm == Stop ==> w.winStartOffset == 0 && w.regionState == 0 &&
                         w.stateSize <= w.numPages * PAGE_SIZE < w.stateSize + PAGE_SIZE)
  {
    if v.fsm == Stop {
      SaveFillsPages(ResetMig(v), c);
    }
  }

  /**
   * After STOP → STOP_COPY succeeds, any read of count > 0 bytes inside
   * the window's data passes the window checks, and every page step of it
   * finds its page in the store: with no user copy faulting, the read
   * returns count.
   */
  lemma StopCopyReadable(v: Vmig, c: Cmds, offset: u64, count: nat)
    requires v.fsm == Stop && Arc(v, StopCopy, c).status.Success?
    requires 0 < count && offset + count <= Min(DATA_SIZE, Arc(v, StopCopy, c).after.stateSize)
    ensures var w := Arc(v, StopCopy, c).after;
      var cs := PageChunks((w.winStartOffset + offset) % U32_LIMIT, count);
      InWindow(w, count, offset, false) && forall i | 0 <= i < |cs| :: ChunkOk(cs[i], i, w.numPages, None)
  {
    var w := Arc(v, StopCopy, c).after;
    ArcStopCopy(v, StopCopy, c);
    assert (w.winStartOffset + offset) % U32_LIMIT == offset;
    var cs := PageChunks(offset, count);
    forall i | 0 <= i < |cs|
      ensures ChunkOk(cs[i], i, w.numPages, None)
    {
      PageChunksWithin(offset, count, i);
      PageBelow(cs[i].off, w.stateSize, w.numPages);
    }
  }

  /** A byte below size lies in one of the pages that hold size bytes. */
  lemma PageBelow(x: nat, size: nat, n: nat)
    requires x < size <= n * PAGE_SIZE
    ensures x / PAGE_SIZE < n
  {
    DivBounds(x, PAGE_SIZE);
  }

  /**
   * vfio_mig_set_device_state (in the VFIO core, not part of this model)
   * steps through the arcs of path, the states its FSM table leads
   * through to the state written: each arc is
   * mlx5vf_pci_setup_device_state with that arc's command outcomes, and
   * vfio_dev_fsm takes the arc's new state once it succeeds; the first
   * failing arc ends the walk with its error.
   */
  function Walk(v: Vmig, path: seq<MigState>, cs: seq<Cmds>): Outcome
    requires |cs| == |path|
    decreases |path|
  {
    if path == [] then Outcome(Success, v)
    else
      var o := Arc(v, path[0], cs[0]);
      if o.status.Failure? then o else Walk(o.after.(fsm := path[0]), path[1..], cs[1..])
  }

  /** A walk that succeeds leaves the device in the last state of its path. */
  lemma {:induction false} WalkReachesTarget(v: Vmig, path: seq<MigState>, cs: seq<Cmds>)
    requires |cs| == |path| && path != [] && Walk(v, path, cs).status.Success?
    ensures Walk(v, path, cs).after.fsm == path[|path| - 1]
    decreases |path|
  {
    var o := Arc(v, path[0], cs[0]);
    if |path| > 1 {
      WalkReachesTarget(o.after.(fsm := path[0]), path[1..], cs[1..]);
    }
  }

  /**
   * A walk that fails returns the error of an arc of its path: the arc
   * reached with every arc before it done.
   */
  lemma {:induction false} WalkFailsAtArc(v: Vmig, path: seq<MigState>, cs: seq<Cmds>)
    requires |cs| == |path| && Walk(v, path, cs).status.Failure?
    ensures exists k | 0 <= k < |path| :: Walk(v, path, cs).status == Arc(Walk(v, path[..k], cs[..k]).after, path[k], cs[k]).status
    decreases |path|
  {
    var o := Arc(v, path[0], cs[0]);
    assert path[..0] == [] && cs[..0] == [];
    if o.status.Success? {
      var v' := o.after.(fsm := path[0]);
      WalkFailsAtArc(v', path[1..], cs[1..]);
      var k :| 0 <= k < |path| - 1 &&
        Walk(v', path[1..], cs[1..]).status == Arc(Walk(v', path[1..][..k], cs[1..][..k]).after, path[1..][k], cs[1..][k]).status;
      WalkPrefix(v, path, cs, k + 1);
    }
  }

  /** Walking the first k + 1 arcs, the first one succeeding, walks the first and then k more. */
  lemma WalkPrefix(v: Vmig, path: seq<MigState>, cs: seq<Cmds>, k: nat)
    requires |cs| == |path| && 0 < k <= |path| && Arc(v, path[0], cs[0]).status.Success?
    ensures Walk(v, path[..k], cs[..k]) ==
      Walk(Arc(v, path[0], cs[0]).after.(fsm := path[0]), path[1..][..k - 1], cs[1..][..k - 1])
  {
    assert path[..k][1..] == path[1..][..k - 1];
    assert cs[..k][1..] == cs[1..][..k - 1];
  }

  /**
   * A transfer the data path accepts before copying: it fits in the
   * 64 MiB data window (offset + count on a u64), and a read also stays
   * inside the data the window holds, min(64 MiB, state_size −
   * win_start_offset).
   */
  predicate InWindow(v: Vmig, count: nat, offset: u64, iswrite: bool)
  {
    (offset + count) % U64_LIMIT <= DATA_SIZE &&
    (iswrite || (count + offset) % U64_LIMIT <= Min(DATA_SIZE, Sub64(v.stateSize, v.winStartOffset)))
  }

  /**
   * struct mlx5vf_pci_core_device's migration part: the VFIO migration
   * state, dev_state, region_state, and the vhca state data
   * (state_size, win_start_offset, num_pages).
   */
  class Mlx5VfDevice {
    var fsm: MigState
    var devState: u32
    var regionState: u32
    var stateSize: u64
    var winStartOffset: u64
    var numPages: nat

    /** The whole migration bookkeeping as one value. */
    function Snapshot(): Vmig
      reads this
    {
      Vmig(fsm, devState, regionState, stateSize, winStartOffset, numPages)
    }

    predicate Frozen()
      reads this
    {
      devState % 2 == PCI_FREEZED
    }

    /** A zero-initialised device, as kzalloc leaves it, in state s. */
    constructor (s: MigState)
      ensures Snapshot() == Vmig(s, 0, 0, 0, 0, 0)
    {
      fsm := s;
      devState := 0;
      regionState := 0;
      stateSize := 0;
      winStartOffset := 0;
      numPages := 0;
    }

    /** mlx5vf_pci_freeze_device: the suspend's status; only a success sets FREEZED. */
    method Freeze(c: Cmds) returns (r: Status)
      modifies this`devState
      ensures r == c.suspendSlave
      ensures devState == if r.Success? then SetFreezed(old(devState)) else old(devState)
    {
      r := c.suspendSlave;
      if r.Failure? {
        return;
      }
      devState := SetFreezed(devState);
    }

    /** mlx5vf_pci_unfreeze_device: the resume's status; only a success clears FREEZED. */
    method Unfreeze(c: Cmds) returns (r: Status)
      modifies this`devState
      ensures r == c.resumeSlave
      ensures devState == if r.Success? then ClearFreezed(old(devState)) else old(devState)
    {
      r := c.resumeSlave;
      if r.Failure? {
        return;
      }
      devState := ClearFreezed(devState);
    }

    /**
     * mlx5vf_pci_save_device_data: -EFAULT unless frozen; no command at
     * all once a state has been read; else query the size and save.
     */
    method SaveDeviceData(c: Cmds) returns (r: Status)
      modifies this`stateSize, this`numPages
      ensures Outcome(r, Snapshot()) == Save(old(Snapshot()), c)
    {
      if !Frozen() {
        return Failure(EFAULT);
      }
      if stateSize != 0 {
        return Success;
      }
      if c.query.Err? {
        return Failure(c.query.err);
      }
      if c.save.Err? {
        return Failure(c.save.err);
      }
      stateSize := c.save.value;
      numPages := numPages + SavedPages(c.save.value);
      r := Success;
    }

    /**
     * mlx5vf_reset_mig_state: region_state 0 and the state data reset
     * (mlx5vf_reset_vhca_state lives in cmd.c, which is not part of this
     * model; it is taken to drop the size, the window and the pages).
     */
    method ResetMigState()
      modifies this`regionState, this`stateSize, this`winStartOffset, this`numPages
      ensures regionState == 0 && stateSize == 0 && winStartOffset == 0 && numPages == 0
    {
      regionState := 0;
      stateSize := 0;
      winStartOffset := 0;
      numPages := 0;
    }

    /**
     * mlx5vf_pci_new_write_window: nothing to do when 64 MiB are ready past
     * the window start; otherwise add the missing pages (the allocation's
     * status; a success adds them to num_pages).
     */
    method NewWriteWindow(c: Cmds) returns (r: Status)
      modifies this`numPages
      ensures PagesNeeded(old(numPages), winStartOffset) == 0 ==> r == Success && numPages == old(numPages)
      ensures PagesNeeded(old(numPages), winStartOffset) != 0 ==>
        r == c.addPages &&
        numPages == old(numPages) + (if r.Success? then PagesNeeded(old(numPages), winStartOffset) else 0)
    {
      var needed := PagesNeeded(numPages, winStartOffset);
      if BytesNeeded(numPages, winStartOffset) == 0 {
        return Success;
      }
      r := c.addPages;
      if r.Success? {
        numPages := numPages + needed;
      }
    }

    /** mlx5vf_load_state: nothing to load without a state, else the load's status. */
    method LoadState(c: Cmds) returns (r: Status)
      ensures r == if stateSize == 0 then Success else c.load
    {
      if stateSize == 0 {
        return Success;
      }
      r := c.load;
    }

    /**
     * mlx5vf_pci_setup_device_state: one arc of the VFIO migration FSM
     * from the current state to new, as Arc states it; the lemmas on Arc
     * give each arc's meaning.
     */
    method SetupDeviceState(next: MigState, c: Cmds) returns (r: Status)
      modifies this
      ensures Outcome(r, Snapshot()) == Arc(old(Snapshot()), next, c)
    {
      var cur := fsm;
      if cur == RunningP2P && next == Stop {
        r := Freeze(c);
        return;
      }
      if cur == Stop && next == RunningP2P {
        r := Unfreeze(c);
        return;
      }
      if (cur == Running && next == RunningP2P) || (cur == PreCopy && next == PreCopyP2P) {
        return c.suspendMaster;
      }
      if (cur == RunningP2P && next == Running) || (cur == PreCopyP2P && next == PreCopy) {
        return c.resumeMaster;
      }
      if cur == Stop && next == StopCopy {
        ResetMigState();
        r := SaveDeviceData(c);
        return;
      }
      if cur == PreCopyP2P && next == StopCopy {
        r := Freeze(c);
        if r.Failure? {
          return;
        }
        r := SaveDeviceData(c);
        if r.Failure? {
          var u := Unfreeze(c);
          if u.Failure? {
            fsm := Error;
          }
          return;
        }
        return Success;
      }
      if ResetArc(cur, next) {
        ResetMigState();
        return Success;
      }
      if cur == Stop && next == Resuming {
        r := NewWriteWindow(c);
        return;
      }
      if cur == Resuming && next == Stop {
        r := LoadState(c);
        if r.Failure? {
          return;
        }
        ResetMigState();
        return Success;
      }
      r := Failure(EINVAL);
    }

    /**
     * mlx5vf_pci_handle_migration_data_size.  A write (value is the u64
     * copied from the user) is allowed only while RESUMING: it grows
     * state_size and moves the window start by the value and opens a new
     * write window.  A read is allowed only in STOP_COPY and reports the
     * window's data, min(64 MiB, state_size − win_start_offset).  Either
     * then flags DATA_SIZE and returns the 8 bytes transferred.
     */
    method DataSize(iswrite: bool, copyOk: bool, value: u64, c: Cmds) returns (r: Result<nat>, reported: u64)
      modifies this`stateSize, this`winStartOffset, this`numPages, this`regionState
      ensures iswrite && old(fsm) != Resuming ==> r == Err(EINVAL) && Snapshot() == old(Snapshot())
      ensures iswrite && old(fsm) == Resuming && !copyOk ==> r == Err(EFAULT) && Snapshot() == old(Snapshot())
      ensures iswrite && old(fsm) == Resuming && copyOk ==>
        stateSize == Add64(old(stateSize), value) && winStartOffset == Add64(old(winStartOffset), value) &&
        (PagesNeeded(old(numPages), winStartOffset) != 0 && c.addPages.Failure? ==>
          r == Err(c.addPages.err) && numPages == old(numPages) && regionState == old(regionState)) &&
        (PagesNeeded(old(numPages), winStartOffset) == 0 || c.addPages.Success? ==>
          r == Ok(8) && numPages == old(numPages) + PagesNeeded(old(numPages), winStartOffset) &&
          regionState == SetDataSizeFlag(old(regionState)))
      ensures !iswrite && old(fsm) != StopCopy ==> r == Err(EINVAL) && Snapshot() == old(Snapshot())
      ensures !iswrite && old(fsm) == StopCopy ==>
        reported == Min(DATA_SIZE, Sub64(old(stateSize), old(winStartOffset))) &&
        (!copyOk ==> r == Err(EFAULT) && Snapshot() == old(Snapshot())) &&
        (copyOk ==> r == Ok(8) && Snapshot() == old(Snapshot()).(regionState := SetDataSizeFlag(old(regionState))))
    {
      reported := 0;
      if iswrite {
        if fsm != Resuming {
          return Err(EINVAL), reported;
        }
        if !copyOk {
          return Err(EFAULT), reported;
        }
        stateSize := Add64(stateSize, value);
        winStartOffset := Add64(winStartOffset, value);
        var ret := NewWriteWindow(c);
        if ret.Failure? {
          return Err(ret.err), reported;
        }
      } else {
        if fsm != StopCopy {
          return Err(EINVAL), reported;
        }
        reported := Min(DATA_SIZE, Sub64(stateSize, winStartOffset));
        if !copyOk {
          return Err(EFAULT), reported;
        }
      }
      regionState := SetDataSizeFlag(regionState);
      r := Ok(8);
    }

    /** mlx5vf_pci_handle_migration_data_offset: read-only; reports the data section offset. */
    method DataOffset(iswrite: bool, copyOk: bool) returns (r: Result<nat>, reported: u64)
      ensures iswrite ==> r == Err(EFAULT)
      ensures !iswrite ==> reported == MIG_REGION_DATA_OFFSET && r == (if copyOk then Ok(8) else Err(EFAULT))
    {
      reported := MIG_REGION_DATA_OFFSET;
      if iswrite || !copyOk {
        return Err(EFAULT), reported;
      }
      r := Ok(8);
    }

    /**
     * mlx5vf_pci_handle_migration_pending_bytes: read-only.  No data is
     * pending in either PRE_COPY state; otherwise a device without a state
     * returns 0 at once, and one with a state reports state_size −
     * win_start_offset.  Once reported, the window moves on by what the
     * previous iteration's data_size read announced (only if it was read)
     * and a new iteration starts with region_state exactly PENDING_BYTES.
     * The window never passes the end of the state.
     */
    method PendingBytes(iswrite: bool, copyOk: bool) returns (r: Result<nat>, reported: u64)
      modifies this`winStartOffset, this`regionState
      ensures iswrite ==> r == Err(EFAULT) && Snapshot() == old(Snapshot())
      ensures !iswrite && fsm != PreCopy && fsm != PreCopyP2P && old(stateSize) == 0 ==>
        r == Ok(0) && Snapshot() == old(Snapshot())
      ensures !iswrite && (fsm == PreCopy || fsm == PreCopyP2P || old(stateSize) != 0) ==>
        reported == (if fsm == PreCopy || fsm == PreCopyP2P then 0 else Sub64(stateSize, old(winStartOffset))) &&
        (!copyOk ==> r == Err(EFAULT) && Snapshot() == old(Snapshot())) &&
        (copyOk ==>
          r == Ok(8) && regionState == REGION_PENDING_BYTES &&
          winStartOffset == (if (old(regionState) / 2) % 2 == 1 then Add64(old(winStartOffset), Min(DATA_SIZE, reported))
                             else old(winStartOffset)))
      ensures old(winStartOffset) <= stateSize ==> winStartOffset <= stateSize
    {
      reported := 0;
      if iswrite {
        return Err(EFAULT), reported;
      }
      if fsm == PreCopy || fsm == PreCopyP2P {
        reported := 0;
      } else {
        if stateSize == 0 {
          return Ok(0), reported;
        }
        reported := Sub64(stateSize, winStartOffset);
      }
      if !copyOk {
        return Err(EFAULT), reported;
      }
      if (regionState / 2) % 2 == 1 {
        winStartOffset := Add64(winStartOffset, Min(DATA_SIZE, reported));
      }
      regionState := REGION_PENDING_BYTES;
      r := Ok(8);
    }

    /**
     * mlx5vf_pci_handle_migration_device_state.  count must be the 4 bytes
     * of the field.  A write hands the state the user wrote to
     * vfio_mig_set_device_state, which walks path (see Walk), each arc
     * answering as cs says; a read reports the current state.
     */
    method DeviceState(count: nat, iswrite: bool, copyOk: bool, path: seq<MigState>, cs: seq<Cmds>)
      returns (r: Result<nat>, reported: MigState)
      requires |cs| == |path|
      modifies this
      ensures count != 4 ==> r == Err(EINVAL) && Snapshot() == old(Snapshot())
      ensures count == 4 && iswrite && !copyOk ==> r == Err(EFAULT) && Snapshot() == old(Snapshot())
      ensures count == 4 && iswrite && copyOk ==>
        var w := Walk(old(Snapshot()), path, cs);
        Snapshot() == w.after && r == (if w.status.Failure? then Err(w.status.err) else Ok(4))
      ensures count == 4 && !iswrite ==>
        reported == old(fsm) && Snapshot() == old(Snapshot()) && r == (if copyOk then Ok(4) else Err(EFAULT))
    {
      reported := fsm;
      if count != 4 {
        return Err(EINVAL), reported;
      }
      if !copyOk {
        return Err(EFAULT), reported;
      }
      if iswrite {
        var i := 0;
        while i < |path|
          invariant 0 <= i <= |path|
          invariant Walk(old(Snapshot()), path, cs) == Walk(Snapshot(), path[i..], cs[i..])
        {
          assert path[i..][1..] == path[i + 1..] && cs[i..][1..] == cs[i + 1..];
          var rc := SetupDeviceState(path[i], cs[i]);
          if rc.Failure? {
            return Err(rc.err), reported;
          }
          fsm := path[i];
          i := i + 1;
        }
      }
      r := Ok(count);
    }

    /**
     * The do-while loop shared by copy_user_data_to_device_state and
     * copy_device_state_to_user: walk the window from cur, one page-bounded
     * step at a time, and stop with -EINVAL at a step whose page is not
     * allocated (mlx5vf_get_migration_page, in cmd.c, which is not part of
     * this model, is taken to find exactly the pages below num_pages) or
     * with -EFAULT at the step whose user copy faults (faultAt).  done
     * counts the steps completed, which are the first steps of PageChunks.
     */
    method CopyLoop(cur: u32, count: nat, faultAt: Option<nat>) returns (r: Status, done: nat)
      ensures done <= |PageChunks(cur, count)|
      ensures forall i :: 0 <= i < done ==> ChunkOk(PageChunks(cur, count)[i], i, numPages, faultAt)
      ensures r.Success? <==> done == |PageChunks(cur, count)|
      ensures r.Failure? ==>
        var c := PageChunks(cur, count)[done];
        (c.off / PAGE_SIZE >= numPages ==> r.err == EINVAL) &&
        (c.off / PAGE_SIZE < numPages ==> r.err == EFAULT && faultAt == Some(done))
    {
      ghost var all := PageChunks(cur, count);
      var off: u32 := cur;
      var left := count;
      done := 0;
      while true
        invariant done < |all| && all[done..] == PageChunks(off, left)
        invariant forall i :: 0 <= i < done ==> ChunkOk(all[i], i, numPages, faultAt)
        decreases left
      {
        PageChunksCons(off, left);
        if off / PAGE_SIZE >= numPages {
          return Failure(EINVAL), done;
        }
        var winPageOffset := off % PAGE_SIZE;
        var copyCount := Min(PAGE_SIZE - winPageOffset, left);
        if faultAt == Some(done) {
          return Failure(EFAULT), done;
        }
        assert all[done] == Chunk(off, copyCount);
        off := (off + copyCount) % U32_LIMIT;
        left := left - copyCount;
        done := done + 1;
        if left == 0 {
          return Success, done;
        }
        assert all[done..] == all[done - 1..][1..];
      }
    }

    /**
     * mlx5vf_pci_migration_data_rw: refuse a transfer that does not fit in
     * the 64 MiB data window (offset + count on a u64); a read must also
     * stay inside the data the window holds, min(64 MiB, state_size −
     * win_start_offset).  The copy starts at win_start_offset + offset (on
     * the u32 curr_offset) and a success returns count.
     */
    method DataRw(count: nat, offset: u64, iswrite: bool, faultAt: Option<nat>) returns (r: Result<nat>, done: nat)
      requires count < U32_LIMIT
      ensures !InWindow(Snapshot(), count, offset, iswrite) ==> r == Err(EINVAL) && done == 0
      ensures InWindow(Snapshot(), count, offset, iswrite) ==>
        var cs := PageChunks((winStartOffset + offset) % U32_LIMIT, count);
        done <= |cs| && (forall i | 0 <= i < done :: ChunkOk(cs[i], i, numPages, faultAt)) &&
        (r == Ok(count) <==> forall i | 0 <= i < |cs| :: ChunkOk(cs[i], i, numPages, faultAt)) &&
        (r.Ok? ==> r.value == count && done == |cs|) &&
        (r.Err? ==> done < |cs| && !ChunkOk(cs[done], done, numPages, faultAt) &&
                    r.err == (if cs[done].off / PAGE_SIZE >= numPages then EINVAL else EFAULT))
    {
      done := 0;
      if (offset + count) % U64_LIMIT > DATA_SIZE {
        return Err(EINVAL), done;
      }
      if !iswrite {
        var available := Min(DATA_SIZE, Sub64(stateSize, winStartOffset));
        if (count + offset) % U64_LIMIT > available {
          return Err(EINVAL), done;
        }
      }
      var rc;
      rc, done := CopyLoop((winStartOffset + offset) % U32_LIMIT, count, faultAt);
      if rc.Failure? {
        return Err(rc.err), done;
      }
      r := Ok(count);
    }

    /**
     * mlx5vf_pci_mig_rw for the parts of the region with a fixed meaning:
     * an offset in the data section goes to the data path, whose window
     * bound is checked first; an offset that names no header field is
     * -EFAULT, and so is a write to a read-only field, with nothing
     * changed.
     */
    method MigRw(pos: u64, count: nat, iswrite: bool, copyOk: bool, value: u64,
                 faultAt: Option<nat>, path: seq<MigState>, cs: seq<Cmds>, c: Cmds)
      returns (r: Result<nat>)
      requires count < U32_LIMIT && |cs| == |path|
      modifies this
      ensures var p := pos % OFFSET_LIMIT;
        p >= MIG_REGION_DATA_OFFSET && p - MIG_REGION_DATA_OFFSET + count > DATA_SIZE ==>
          r == Err(EINVAL) && Snapshot() == old(Snapshot())
      ensures var p := pos % OFFSET_LIMIT;
        p < MIG_REGION_DATA_OFFSET &&
        p !in {DEVICE_STATE_OFFSET, PENDING_BYTES_OFFSET, DATA_OFFSET_OFFSET, DATA_SIZE_OFFSET} ==>
          r == Err(EFAULT) && Snapshot() == old(Snapshot())
      ensures var p := pos % OFFSET_LIMIT;
        iswrite && (p == PENDING_BYTES_OFFSET || p == DATA_OFFSET_OFFSET) ==>
          r == Err(EFAULT) && Snapshot() == old(Snapshot())
    {
      var p := pos % OFFSET_LIMIT;
      var reported;
      if p >= MIG_REGION_DATA_OFFSET {
        var done;
        r, done := DataRw(count, p - MIG_REGION_DATA_OFFSET, iswrite, faultAt);
        return;
      }
      if p == DEVICE_STATE_OFFSET {
        var st;
        r, st := DeviceState(count, iswrite, copyOk, path, cs);
      } else if p == PENDING_BYTES_OFFSET {
        r, reported := PendingBytes(iswrite, copyOk);
      } else if p == DATA_OFFSET_OFFSET {
        r, reported := DataOffset(iswrite, copyOk);
      } else if p == DATA_SIZE_OFFSET {
        r, reported := DataSize(iswrite, copyOk, value, c);
      } else {
        r := Err(EFAULT);
      }
    }

    /** mlx5vf_pci_close_device: the migration state is dropped. */
    method CloseDevice()
      modifies this
      ensures Snapshot() == old(Snapshot()).(regionState := 0, stateSize := 0, winStartOffset := 0, numPages := 0)
    {
      ResetMigState();
    }
  }
}
