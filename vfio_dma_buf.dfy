// VFIO PCI dma-buf export: the range a user may export from a BAR, the
// scatter list a mapping builds over it, and the revoke walks over the
// device's list of exported buffers.  DMA mapping, allocation, the dma-buf
// core and the user copy are inputs.

module VfioDmaBuf {
  import opened Errno

  /** VFIO_PCI_ROM_REGION_INDEX: regions 0..5 are the BARs. */
  const ROM_REGION_INDEX: nat := 6

  /** PAGE_SIZE of a 4 KiB-page kernel. */
  const PAGE_SIZE: nat := 4096

  function Min(a: nat, b: nat): nat
  {
    if a <= b then a else b
  }

  // ---- vfio_pci_core_feature_dma_buf: the range check -------------------

  /**
   * The size of the buffer exported for (region, offset, length), given the
   * BAR lengths pci_resource_len reports: the whole BAR when offset and
   * length are both zero, else the page-aligned window [offset,
   * offset + length) that must fit in the BAR.
   */
  function ExportSize(bars: seq<nat>, region: nat, offset: nat, length: nat): (r: Result<nat>)
    requires |bars| == ROM_REGION_INDEX
    ensures r.Ok? ==> region < ROM_REGION_INDEX && bars[region] > 0
    ensures r.Ok? ==> offset + r.value <= bars[region]
    ensures r.Err? ==> r.err == EINVAL
  {
    if region >= ROM_REGION_INDEX then Err(EINVAL)
    else
      var size := bars[region];
      if size == 0 then Err(EINVAL)
      else if offset != 0 || length != 0 then
        if length > size || offset >= size || length > size - offset ||
           offset % PAGE_SIZE != 0 || length % PAGE_SIZE != 0
        then Err(EINVAL)
        else Ok(length)
      else Ok(size)
  }

  /**
   * What the range check accepts: a BAR that exists and is not empty, and
   * either the whole of it or a page-aligned window that starts inside it
   * and ends at or before its end, exported with exactly the window's
   * length.
   */
  lemma ExportSizeIff(bars: seq<nat>, region: nat, offset: nat, length: nat)
    requires |bars| == ROM_REGION_INDEX
    ensures ExportSize(bars, region, offset, length).Ok? <==>
      region < ROM_REGION_INDEX && bars[region] > 0 &&
      ((offset == 0 && length == 0) ||
       (offset < bars[region] && offset + length <= bars[region] &&
        offset % PAGE_SIZE == 0 && length % PAGE_SIZE == 0))
    ensures ExportSize(bars, region, offset, length).Ok? ==>
      ExportSize(bars, region, offset, length).value ==
        (if offset == 0 && length == 0 then bars[region] else length)
  {
  }

  /**
   * A nonzero page-aligned offset with a zero length passes the window check and
   * exports a buffer of size 0.
   */
  lemma ZeroLengthWindow()
    ensures ExportSize([2 * PAGE_SIZE, 0, 0, 0, 0, 0], 0, PAGE_SIZE, 0) == Ok(0)
  {
  }

  // ---- buffers, devices and scatter lists ---------------------------------

  /** One DMA segment of a scatter list: its DMA address and length. */
  datatype Sg = Sg(addr: nat, len: nat)

  /** struct sg_table: its entries, nents, and orig_nents. */
  class SgTable {
    const sgl: array<Sg>
    const nents: nat
    var origNents: nat

    /** sg_alloc_table: orig_nents and nents both count the entries allocated. */
    constructor (n: nat)
      ensures sgl.Length == n && nents == n && origNents == n && fresh(sgl)
    {
      sgl := new Sg[n](_ => Sg(0, 0));
      nents := n;
      origNents := n;
    }
  }

  /**
   * struct vfio_pci_dma_buf.  notifies counts the dma_buf_move_notify calls
   * on the buffer.
   */
  class DmaBuf {
    const size: nat
    const index: nat
    const offset: nat
    var vdev: Device?
    var origNents: nat
    var revoked: bool
    var notifies: nat

    constructor (size: nat, index: nat, offset: nat)
      ensures this.size == size && this.index == index && this.offset == offset
      ensures vdev == null && origNents == 0 && !revoked && notifies == 0
    {
      this.size := size;
      this.index := index;
      this.offset := offset;
      vdev := null;
      origNents := 0;
      revoked := false;
      notifies := 0;
    }

    /** One buffer's part of vfio_pci_dma_buf_cleanup: unlinked from its device, revoked, notified once more. */
    method Revoke()
      modifies this
      ensures vdev == null && revoked && notifies == old(notifies) + 1 && origNents == old(origNents)
    {
      vdev := null;
      revoked := true;
      notifies := notifies + 1;
    }
  }

  /** struct dma_buf_attachment: whether peer-to-peer DMA is possible. */
  class Attachment {
    var peer2peer: bool

    constructor ()
      ensures peer2peer
    {
      peer2peer := true;
    }
  }

  /** No buffer is on the list twice. */
  predicate Distinct(s: seq<DmaBuf>)
  {
    s == [] || (s[0] !in s[1..] && Distinct(s[1..]))
  }

  /** On a list without repeats, the buffer at i is at no other index. */
  lemma {:induction false} DistinctAt(s: seq<DmaBuf>, i: nat)
    requires Distinct(s) && i < |s|
    ensures forall j :: 0 <= j < |s| && j != i ==> s[j] != s[i]
  {
    if i == 0 {
      forall j | 0 < j < |s| ensures s[j] != s[0] {
        assert s[j] == s[1..][j - 1];
      }
    } else {
      DistinctAt(s[1..], i - 1);
      assert s[i] == s[1..][i - 1];
      forall j | 0 < j < |s| && j != i ensures s[j] != s[i] {
        assert s[j] == s[1..][j - 1];
      }
    }
  }

  /**
   * The buffers of s that are not in live (those whose dma-buf reference
   * count has dropped to zero, so dma_buf_try_get fails), in order.
   */
  function Dead(s: seq<DmaBuf>, live: set<DmaBuf>): seq<DmaBuf>
  {
    if s == [] then []
    else if s[0] in live then Dead(s[1..], live)
    else [s[0]] + Dead(s[1..], live)
  }

  lemma SliceCons<T>(s: seq<T>, i: nat)
    requires i < |s|
    ensures s[i..] == [s[i]] + s[i + 1..]
  {
  }

  lemma ConcatAssoc<T>(a: seq<T>, b: seq<T>, c: seq<T>)
    ensures (a + b) + c == a + (b + c)
  {
  }

  lemma DeadSnoc(s: seq<DmaBuf>, b: DmaBuf, live: set<DmaBuf>)
    ensures Dead(s + [b], live) == Dead(s, live) + (if b in live then [] else [b])
  {
    if s != [] {
      assert (s + [b])[1..] == s[1..] + [b];
      DeadSnoc(s[1..], b, live);
    }
  }

  /** A buffer whose fields are still (vdev0, revoked0, notifies0). */
  predicate Untouched(b: DmaBuf, vdev0: Device?, revoked0: bool, notifies0: nat)
    reads b
  {
    b.vdev == vdev0 && b.revoked == revoked0 && b.notifies == notifies0
  }

  /**
   * A buffer after the cleanup walk passed it, given its fields before:
   * revoked, unlinked and notified if it was live, untouched otherwise.
   */
  predicate CleanedUp(b: DmaBuf, live: set<DmaBuf>, vdev0: Device?, revoked0: bool, notifies0: nat)
    reads b
  {
    if b in live then b.vdev == null && b.revoked && b.notifies == notifies0 + 1
    else Untouched(b, vdev0, revoked0, notifies0)
  }

  /**
   * struct vfio_pci_core_device: the BAR lengths, whether memory decode is
   * enabled, and the list of exported buffers (dmabufs).
   */
  class Device {
    const bars: seq<nat>
    var memoryEnabled: bool
    var dmabufs: seq<DmaBuf>

    constructor (bars: seq<nat>, memoryEnabled: bool)
      ensures this.bars == bars && this.memoryEnabled == memoryEnabled && dmabufs == []
    {
      this.bars := bars;
      this.memoryEnabled := memoryEnabled;
      dmabufs := [];
    }

    /**
     * vfio_pci_core_feature_dma_buf.  check is vfio_check_feature's verdict
     * (an error, false for a probe-only call that returns 0, or true to go
     * on), copyOk the user copy, allocOk the allocation, exportErr
     * dma_buf_export's failure and fd dma_buf_fd's result.  Every refusal
     * leaves the list as it was; a success adds one new buffer at the
     * tail, revoked exactly when memory decode is off.
     */
    method FeatureDmaBuf(check: Result<bool>, copyOk: bool, region: nat, offset: nat, length: nat,
                         allocOk: bool, exportErr: Option<Errno>, fd: Result<nat>)
      returns (r: Result<nat>, ghost priv: DmaBuf?)
      requires |bars| == ROM_REGION_INDEX
      modifies this
      ensures memoryEnabled == old(memoryEnabled)
      ensures check.Err? ==> r == Err(check.err) && dmabufs == old(dmabufs)
      ensures check == Ok(false) ==> r == Ok(0) && dmabufs == old(dmabufs)
      ensures check == Ok(true) && !copyOk ==> r == Err(EFAULT) && dmabufs == old(dmabufs)
      ensures check == Ok(true) && copyOk && ExportSize(bars, region, offset, length).Err? ==>
        r == Err(EINVAL) && dmabufs == old(dmabufs)
      ensures check == Ok(true) && copyOk && ExportSize(bars, region, offset, length).Ok? ==>
        if !allocOk then r == Err(ENOMEM) && dmabufs == old(dmabufs)
        else if exportErr.Some? then r == Err(exportErr.value) && dmabufs == old(dmabufs)
        else
          r == fd && priv != null && fresh(priv) && dmabufs == old(dmabufs) + [priv] &&
          priv.size == ExportSize(bars, region, offset, length).value &&
          priv.index == region && priv.offset == offset &&
          priv.vdev == this && priv.revoked == !memoryEnabled
    {
      priv := null;
      if check.Err? {
        return Err(check.err), priv;
      }
      if !check.value {
        return Ok(0), priv;
      }
      if !copyOk {
        return Err(EFAULT), priv;
      }
      var size := ExportSize(bars, region, offset, length);
      if size.Err? {
        return Err(size.err), priv;
      }
      if !allocOk {
        return Err(ENOMEM), priv;
      }
      if exportErr.Some? {
        return Err(exportErr.value), priv;
      }
      var b := new DmaBuf(size.value, region, offset);
      b.revoked := !memoryEnabled;
      b.vdev := this;
      dmabufs := dmabufs + [b];
      priv := b;
      r := fd;
    }

    /**
     * vfio_pci_dma_buf_move.  live is the set of buffers whose dma-buf
     * reference dma_buf_try_get can still take.  Every live buffer whose
     * revoked state differs from the requested one takes it and is
     * notified once; other buffers are untouched, and the list itself does
     * not change.
     */
    method Move(revoked: bool, live: set<DmaBuf>)
      requires Distinct(dmabufs)
      modifies dmabufs
      ensures forall i :: 0 <= i < |dmabufs| ==>
        dmabufs[i].revoked == (if dmabufs[i] in live then revoked else old(dmabufs[i].revoked))
      ensures forall i :: 0 <= i < |dmabufs| ==>
        dmabufs[i].notifies ==
          old(dmabufs[i].notifies) + (if dmabufs[i] in live && old(dmabufs[i].revoked) != revoked then 1 else 0)
      ensures forall i :: 0 <= i < |dmabufs| ==>
        dmabufs[i].vdev == old(dmabufs[i].vdev) && dmabufs[i].origNents == old(dmabufs[i].origNents)
    {
      var i := 0;
      while i < |dmabufs|
        invariant 0 <= i <= |dmabufs|
        invariant forall j :: 0 <= j < i ==>
          dmabufs[j].revoked == (if dmabufs[j] in live then revoked else old(dmabufs[j].revoked))
        invariant forall j :: 0 <= j < i ==>
          dmabufs[j].notifies ==
            old(dmabufs[j].notifies) + (if dmabufs[j] in live && old(dmabufs[j].revoked) != revoked then 1 else 0)
        invariant forall j :: i <= j < |dmabufs| ==>
          dmabufs[j].revoked == old(dmabufs[j].revoked) && dmabufs[j].notifies == old(dmabufs[j].notifies)
        invariant forall j :: 0 <= j < |dmabufs| ==>
          dmabufs[j].vdev == old(dmabufs[j].vdev) && dmabufs[j].origNents == old(dmabufs[j].origNents)
      {
        DistinctAt(dmabufs, i);
        var priv := dmabufs[i];
        if priv in live && priv.revoked != revoked {
          priv.revoked := revoked;
          priv.notifies := priv.notifies + 1;
        }
        i := i + 1;
      }
    }

    /**
     * vfio_pci_dma_buf_cleanup, with live as for Move: every live buffer is
     * unlinked from the list, loses its device, is revoked and notified
     * once; the others stay on the list, in order, untouched (their
     * release unlinks them).
     */
    method Cleanup(live: set<DmaBuf>)
      requires Distinct(dmabufs)
      modifies this`dmabufs, dmabufs
      ensures dmabufs == Dead(old(dmabufs), live)
      ensures forall i :: 0 <= i < |old(dmabufs)| ==>
        CleanedUp(old(dmabufs)[i], live, old(dmabufs[i].vdev), old(dmabufs[i].revoked), old(dmabufs[i].notifies))
    {
      var list := dmabufs;
      var kept: seq<DmaBuf> := [];
      var i := 0;
      while i < |list|
        invariant 0 <= i <= |list|
        invariant kept == Dead(list[..i], live) && dmabufs == kept + list[i..]
        invariant forall j :: 0 <= j < i ==>
          CleanedUp(list[j], live, old(list[j].vdev), old(list[j].revoked), old(list[j].notifies))
        invariant forall j :: i <= j < |list| ==>
          Untouched(list[j], old(list[j].vdev), old(list[j].revoked), old(list[j].notifies))
      {
        DistinctAt(list, i);
        kept := CleanupOne(list, i, kept, live);
        i := i + 1;
      }
      assert list[..i] == list;
    }

    /**
     * One step of the cleanup walk over list: a live buffer is unlinked
     * from the device's list and revoked; another is kept.
     */
    method CleanupOne(list: seq<DmaBuf>, i: nat, kept: seq<DmaBuf>, live: set<DmaBuf>) returns (kept': seq<DmaBuf>)
      requires i < |list| && kept == Dead(list[..i], live) && dmabufs == kept + list[i..]
      modifies this`dmabufs, list[i]
      ensures kept' == Dead(list[..i + 1], live) && dmabufs == kept' + list[i + 1..]
      ensures CleanedUp(list[i], live, old(list[i].vdev), old(list[i].revoked), old(list[i].notifies))
    {
      var priv := list[i];
      assert list[..i + 1] == list[..i] + [priv];
      DeadSnoc(list[..i], priv, live);
      SliceCons(list, i);
      if priv in live {
        dmabufs := kept + list[i + 1..];
        priv.Revoke();
        kept' := kept;
      } else {
        ConcatAssoc(kept, [priv], list[i + 1..]);
        kept' := kept + [priv];
      }
    }
  }

  /**
   * What cleanup leaves on the list is exactly the buffers that were not
   * live, so a move or a second cleanup with the same live set finds
   * nothing to revoke or unlink.
   */
  lemma {:induction false} CleanupLeavesDead(s: seq<DmaBuf>, live: set<DmaBuf>)
    ensures forall b :: b in Dead(s, live) ==> b in s && b !in live
    ensures forall b :: b in s && b !in live ==> b in Dead(s, live)
    ensures Dead(Dead(s, live), live) == Dead(s, live)
  {
    if s != [] {
      CleanupLeavesDead(s[1..], live);
      assert forall b :: b in s[1..] ==> b in s;
      assert forall b :: b in s ==> b == s[0] || b in s[1..];
      if s[0] !in live {
        assert Dead(s, live)[1..] == Dead(s[1..], live);
      }
    }
  }

  // ---- attach, pin -------------------------------------------------------

  /** vfio_pci_dma_buf_attach: a negative P2P distance turns peer2peer off; never fails. */
  method Attach(att: Attachment, distance: int) returns (rc: Status)
    modifies att
    ensures rc == Success
    ensures att.peer2peer == (old(att.peer2peer) && distance >= 0)
  {
    if distance < 0 {
      att.peer2peer := false;
    }
    rc := Success;
  }

  /** vfio_pci_dma_buf_pin: pinning is always refused, so that a revoke can always move the buffer. */
  method Pin(att: Attachment) returns (rc: Status)
    ensures rc == Failure(EINVAL)
  {
    rc := Failure(EINVAL);
  }

  // ---- vfio_pci_dma_buf_map: the scatter list ------------------------------

  /** DIV_ROUND_UP(size, seg): the entries the table is allocated with. */
  function NumChunks(size: nat, seg: nat): nat
    requires seg > 0
  {
    (size + seg - 1) / seg
  }

  /** The j-th segment the map loop writes: at dma + j·seg, the rest of the buffer or seg, whichever is less. */
  function ChunkAt(size: nat, seg: nat, dma: nat, j: nat): Sg
  {
    Sg(dma + j * seg, if j * seg < size then Min(size - j * seg, seg) else 0)
  }

  /** The whole scatter list of a mapping. */
  function Chunks(size: nat, seg: nat, dma: nat): seq<Sg>
    requires seg > 0
  {
    seq(NumChunks(size, seg), (j: int) requires 0 <= j => ChunkAt(size, seg, dma, j))
  }

  lemma MulLess(a: nat, b: nat, c: nat)
    requires a * c < b * c
    ensures a < b
  {
  }

  lemma MulMono(a: nat, b: nat, c: nat)
    requires a <= b
    ensures a * c <= b * c
  {
  }

  lemma MulSucc(a: nat, c: nat)
    ensures (a + 1) * c == a * c + c
  {
  }

  /** DIV_ROUND_UP's quotient, bracketed. */
  lemma RoundUpBounds(size: nat, seg: nat)
    requires seg > 0
    ensures NumChunks(size, seg) * seg <= size + seg - 1 < (NumChunks(size, seg) + 1) * seg
  {
    var x := size + seg - 1;
    assert x == (x / seg) * seg + x % seg;
  }

  /** A chunk starting at k·seg inside the buffer has a table entry; the one that reaches the end is the last. */
  lemma ChunkIndex(size: nat, seg: nat, k: nat)
    requires seg > 0 && k * seg < size
    ensures k < NumChunks(size, seg)
    ensures size <= (k + 1) * seg ==> k + 1 == NumChunks(size, seg)
  {
    var n := NumChunks(size, seg);
    RoundUpBounds(size, seg);
    assert size <= n * seg;
    MulLess(k, n, seg);
    if size <= (k + 1) * seg {
      assert n * seg < (k + 2) * seg;
      MulLess(n, k + 2, seg);
    }
  }

  /**
   * The table is the smallest one whose segments of at most seg bytes
   * cover the buffer: n·seg reaches size, and (n−1)·seg does not.
   */
  lemma NumChunksTight(size: nat, seg: nat)
    requires seg > 0
    ensures size <= NumChunks(size, seg) * seg
    ensures NumChunks(size, seg) > 0 ==> (NumChunks(size, seg) - 1) * seg < size
    ensures NumChunks(size, seg) == 0 <==> size == 0
  {
    var n := NumChunks(size, seg);
    RoundUpBounds(size, seg);
    if n > 0 {
      assert (n - 1) * seg == n * seg - seg;
    }
  }

  /** Where the j-th chunk starts and how long it is, for an entry of the table. */
  lemma ChunkShape(size: nat, seg: nat, dma: nat, j: nat)
    requires seg > 0 && j < NumChunks(size, seg)
    ensures j * seg < size
    ensures 0 < ChunkAt(size, seg, dma, j).len <= seg
    ensures j + 1 < NumChunks(size, seg) ==>
      ChunkAt(size, seg, dma, j).len == seg &&
      ChunkAt(size, seg, dma, j + 1).addr == ChunkAt(size, seg, dma, j).addr + seg
    ensures j + 1 == NumChunks(size, seg) ==>
      ChunkAt(size, seg, dma, j).addr + ChunkAt(size, seg, dma, j).len == dma + size
  {
    var n := NumChunks(size, seg);
    NumChunksTight(size, seg);
    MulMono(j, n - 1, seg);
    MulSucc(j, seg);
    var start := j * seg;
    var next := (j + 1) * seg;
    assert start < size;
    if j + 1 < n {
      MulMono(j + 1, n - 1, seg);
      assert next < size && next == start + seg;
    } else {
      assert size <= next == start + seg;
    }
  }

  /**
   * The segments tile the buffer: each is nonempty and at most seg long,
   * all but the last are exactly seg long, each begins where the previous
   * ends, the first at dma and the last ending at dma + size.
   */
  lemma ChunksTile(size: nat, seg: nat, dma: nat)
    requires seg > 0
    ensures forall j :: 0 <= j < |Chunks(size, seg, dma)| ==> 0 < Chunks(size, seg, dma)[j].len <= seg
    ensures forall j :: 0 <= j < |Chunks(size, seg, dma)| - 1 ==>
      Chunks(size, seg, dma)[j].len == seg && Chunks(size, seg, dma)[j + 1].addr == Chunks(size, seg, dma)[j].addr + seg
    ensures |Chunks(size, seg, dma)| > 0 ==>
      Chunks(size, seg, dma)[0].addr == dma &&
      Chunks(size, seg, dma)[|Chunks(size, seg, dma)| - 1].addr + Chunks(size, seg, dma)[|Chunks(size, seg, dma)| - 1].len == dma + size
  {
    var c := Chunks(size, seg, dma);
    forall j | 0 <= j < |c|
      ensures 0 < c[j].len <= seg
    {
      ChunkShape(size, seg, dma, j);
    }
    forall j | 0 <= j < |c| - 1
      ensures c[j].len == seg && c[j + 1].addr == c[j].addr + seg
    {
      ChunkShape(size, seg, dma, j);
    }
    if |c| > 0 {
      ChunkShape(size, seg, dma, |c| - 1);
    }
  }

  /** One turn of the map loop: the segment written at offset k·seg is the k-th, and the offset moves to the next. */
  lemma FillStep(size: nat, seg: nat, dma: nat, k: nat, offset: nat, chunk: nat)
    requires seg > 0 && offset < size && offset == k * seg && chunk == Min(size - offset, seg)
    ensures k < NumChunks(size, seg) && Sg(dma + offset, chunk) == ChunkAt(size, seg, dma, k)
    ensures offset + chunk < size ==> offset + chunk == (k + 1) * seg
    ensures offset + chunk == size ==> k + 1 == NumChunks(size, seg)
  {
    ChunkIndex(size, seg, k);
    MulSucc(k, seg);
  }

  /**
   * The map loop: one segment per entry, min(remaining, seg) bytes at
   * dma + offset, until offset reaches the size; it fills exactly the
   * table sg_alloc_table made.
   */
  method FillSgl(sgl: array<Sg>, size: nat, seg: nat, dma: nat)
    requires seg > 0 && sgl.Length == NumChunks(size, seg)
    modifies sgl
    ensures sgl[..] == Chunks(size, seg, dma)
  {
    var offset := 0;
    var k := 0;
    while offset != size
      invariant 0 <= k <= sgl.Length && offset <= size
      invariant offset < size ==> offset == k * seg
      invariant offset == size ==> k == sgl.Length
      invariant forall j :: 0 <= j < k ==> sgl[j] == ChunkAt(size, seg, dma, j)
      decreases size - offset
    {
      var chunk := Min(size - offset, seg);
      FillStep(size, seg, dma, k, offset, chunk);
      sgl[k] := Sg(dma + offset, chunk);
      offset := offset + chunk;
      k := k + 1;
    }
    if size == 0 {
      NumChunksTight(size, seg);
    }
  }

  /**
   * vfio_pci_dma_buf_map.  seg is dma_get_max_seg_size, allocOk the
   * table's allocation, sgRc sg_alloc_table's status, and mapRc and dma
   * dma_map_resource's status and address.  No peer-to-peer path is
   * -EPERM, a revoked buffer -ENODEV; a success returns a new table of
   * exactly the segments that tile the buffer, with orig_nents moved into
   * the buffer and cleared in the table.
   */
  method Map(priv: DmaBuf, att: Attachment, seg: nat, allocOk: bool, sgRc: Status, mapRc: Status, dma: nat)
    returns (r: Result<SgTable>)
    requires seg > 0
    modifies priv
    ensures !att.peer2peer ==> r == Err(EPERM)
    ensures att.peer2peer && priv.revoked ==> r == Err(ENODEV)
    ensures att.peer2peer && !priv.revoked ==>
      if !allocOk then r == Err(ENOMEM)
      else if sgRc.Failure? then r == Err(sgRc.err)
      else if mapRc.Failure? then r == Err(mapRc.err)
      else
        r.Ok? && fresh(r.value) && fresh(r.value.sgl) &&
        r.value.sgl[..] == Chunks(priv.size, seg, dma) &&
        r.value.nents == NumChunks(priv.size, seg) && r.value.origNents == 0 &&
        priv.origNents == NumChunks(priv.size, seg)
    ensures r.Err? ==> priv.origNents == old(priv.origNents)
    ensures priv.revoked == old(priv.revoked) && priv.vdev == old(priv.vdev) && priv.notifies == old(priv.notifies)
  {
    if !att.peer2peer {
      return Err(EPERM);
    }
    if priv.revoked {
      return Err(ENODEV);
    }
    if !allocOk {
      return Err(ENOMEM);
    }
    if sgRc.Failure? {
      return Err(sgRc.err);
    }
    var sgt := new SgTable(NumChunks(priv.size, seg));
    if mapRc.Failure? {
      return Err(mapRc.err);
    }
    FillSgl(sgt.sgl, priv.size, seg, dma);
    priv.origNents := sgt.origNents;
    sgt.origNents := 0;
    r := Ok(sgt);
  }

  /**
   * vfio_pci_dma_buf_unmap: the table gets its orig_nents back from the
   * buffer, and the whole buffer is unmapped from the first segment's DMA
   * address (the returned pair is that dma_unmap_resource call).
   */
  method Unmap(priv: DmaBuf, sgt: SgTable) returns (unmapAddr: nat, unmapLen: nat)
    requires sgt.sgl.Length > 0
    modifies sgt
    ensures sgt.origNents == priv.origNents
    ensures unmapAddr == sgt.sgl[0].addr && unmapLen == priv.size
  {
    sgt.origNents := priv.origNents;
    unmapAddr := sgt.sgl[0].addr;
    unmapLen := priv.size;
  }
}
