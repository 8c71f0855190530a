// struct rlist and its two cursors: rlist_state, which walks the entries
// back out, and rlist_state_append, which packs them in.
//
// A chunk's next pointer is the order of `Rlist.chunks`, and each chunk's
// 126 slots are a sequence the methods replace; the slab allocator is an
// input (whether an allocation succeeds, and the stale contents of the
// chunk it returns).

module RlistState {
  import opened Errno
  import opened RlistFormat

  class Rlist {
    /** The slots of each chunk of the chain, head first; [] is a NULL head. */
    var chunks: seq<seq<u32>>

    ghost predicate Valid()
      reads this
    {
      forall k | 0 <= k < |chunks| :: |chunks[k]| == CHUNK_SLOTS
    }

    /** rlist_init: a NULL head. */
    constructor ()
      ensures Valid() && chunks == []
    {
      chunks := [];
    }

    /** rlist_destroy: the chunks go back to the slab, head is NULL again. */
    method Destroy()
      modifies this
      ensures Valid() && chunks == []
    {
      chunks := [];
    }
  }

  /** rlist_empty, with __rlist_empty's answer negated as evidently intended. */
  method RlistEmpty(rlist: Rlist) returns (r: bool)
    requires rlist.Valid()
    ensures r <==> Iterate(rlist.chunks, EncodingField) == []
  {
    if |rlist.chunks| == 0 {
      return true;
    }
    var rls := new State(rlist);
    var ok, _ := rls.Reset();
    r := !ok;
  }

  // ---- struct rlist_state -----------------------------------------------

  /** struct rlist_state: a read cursor over one rlist. */
  class State {
    const rlist: Rlist
    /** Index of the current chunk in the chain; None for NULL. */
    var chunk: Option<nat>
    /** Sum of the lengths of the entries before the current one, mod 2^64. */
    var position: u64
    var curEntrySize: nat
    var curEntryIdx: nat

    /** RLIST_STATE(name, rlist) */
    constructor (rlist: Rlist)
      ensures this.rlist == rlist && chunk == None && position == 0
      ensures curEntrySize == 0 && curEntryIdx == 0
    {
      this.rlist := rlist;
      chunk := None;
      position := 0;
      curEntrySize := 0;
      curEntryIdx := 0;
    }

    /** The cursor stands on an entry that rlist_decode accepted. */
    ghost predicate OnEntry()
      reads this, rlist
    {
      rlist.Valid() && chunk.Some? && chunk.value < |rlist.chunks| &&
      curEntrySize != 0 && curEntrySize == Decode(rlist.chunks[chunk.value], curEntryIdx).size
    }

    /** The entries still to come, the current one first. */
    ghost function Rest(): seq<Entry>
      reads this, rlist
    {
      if chunk.None? || chunk.value >= |rlist.chunks| then []
      else RestFrom(rlist.chunks, chunk.value, curEntryIdx, EncodingField)
    }

    /** rls_reset: position 0, slot 0 of the head chunk. */
    method Reset() returns (ok: bool, entry: Entry)
      requires rlist.Valid()
      modifies this
      ensures position == 0
      ensures ok <==> Iterate(rlist.chunks, EncodingField) != []
      ensures ok ==> OnEntry() && Rest() == Iterate(rlist.chunks, EncodingField) && entry == Rest()[0]
    {
      position := 0;
      curEntryIdx := 0;
      if |rlist.chunks| == 0 {
        chunk := None;
        return false, Entry(0, 0, 0, 0, 0);
      }
      chunk := Some(0);
      var d := Decode(rlist.chunks[0], 0);
      curEntrySize := d.size;
      ok, entry := d.size != 0, d.entry;
    }

    /**
     * rls_next: add the previous entry's length to position (mod 2^64),
     * step over it, to the next chunk at rls_is_end, and decode.
     */
    method Next(entry: Entry) returns (ok: bool, next: Entry)
      requires OnEntry()
      modifies this
      ensures position == Wrap64(old(position) + entry.length)
      ensures old(Rest()) != [] && (ok <==> old(Rest())[1..] != [])
      ensures ok ==> OnEntry() && Rest() == old(Rest())[1..] && next == Rest()[0]
    {
      ghost var ws := rlist.chunks;
      var c := chunk.value;
      NextCursor(ws, c, curEntryIdx, curEntrySize);
      ghost var rest := RestFrom(ws, c, curEntryIdx, EncodingField);
      assert Rest() == rest;
      position := Wrap64(position + entry.length);
      curEntryIdx := curEntryIdx + curEntrySize;
      if IsEnd(rlist.chunks[c], curEntryIdx, EncodingField) {
        curEntryIdx := 0;
        if c + 1 == |rlist.chunks| {
          chunk := None;
          return false, entry;
        }
        c := c + 1;
        chunk := Some(c);
      }
      var d := Decode(rlist.chunks[c], curEntryIdx);
      HeadOfRest(ws, c, curEntryIdx);
      curEntrySize := d.size;
      ok, next := d.size != 0, d.entry;
    }
  }

  /** rlist_for_each_entry, collecting: every entry from rls_reset on, in order. */
  method ForEachEntry(rls: State) returns (es: seq<Entry>)
    requires rls.rlist.Valid()
    modifies rls
    ensures es == Iterate(rls.rlist.chunks, EncodingField)
  {
    ghost var all := Iterate(rls.rlist.chunks, EncodingField);
    var ok, e := rls.Reset();
    ghost var rest := if ok then rls.Rest() else [];
    es := [];
    while ok
      invariant all == es + rest
      invariant ok <==> rest != []
      invariant ok ==> rls.OnEntry() && rls.Rest() == rest && e == rest[0]
      decreases |rest|
    {
      SnocRest(es, rest, all);
      es := es + [e];
      ok, e := rls.Next(e);
      rest := rest[1..];
    }
  }

  // ---- struct rlist_state_append ----------------------------------------

  /** struct rlist_state_append: a write cursor at the end of one rlist. */
  class AppendState {
    const rlist: Rlist
    var chunk: Option<nat>
    var position: u64
    var curEntrySize: nat
    var curEntryIdx: nat
    var noAlloc: bool
    /** The entries each chunk holds. */
    ghost var layout: seq<seq<Entry>>

    /** RLIST_STATE_APPEND(name, rlist) */
    constructor (rlist: Rlist)
      ensures this.rlist == rlist && chunk == None && position == 0 && !noAlloc
      ensures curEntrySize == 0 && curEntryIdx == 0 && layout == []
    {
      this.rlist := rlist;
      chunk := None;
      position := 0;
      curEntrySize := 0;
      curEntryIdx := 0;
      noAlloc := false;
      layout := [];
    }

    ghost predicate Valid()
      reads this`chunk, this`curEntryIdx, this`layout, rlist
    {
      rlist.Valid() && Layout(rlist.chunks, layout, curEntryIdx, EncodingField) &&
      chunk == (if |rlist.chunks| == 0 then None else Some(|rlist.chunks| - 1))
    }

    /** position is the sum of the appended lengths, mod 2^64. */
    ghost predicate Counted()
      reads this`position, this`layout
    {
      position == Wrap64(SumLen(Flatten(layout)))
    }

    /** What has been appended so far. */
    ghost function Entries(): seq<Entry>
      reads this`layout
    {
      Flatten(layout)
    }

    /** rls_append_begin on a list with a NULL head. */
    method Begin() returns (r: Status)
      requires rlist.Valid() && rlist.chunks == []
      modifies this
      ensures r == Success && Valid() && Counted() && Entries() == [] && !noAlloc
    {
      chunk := None;
      position := 0;
      noAlloc := false;
      curEntryIdx := 0;
      layout := [];
      return Success;
    }

    /**
     * rls_alloc_chunk with no preloaded chunks: ENOSPC when allocation is
     * forbidden, else what the slab returns (allocOk): a chunk whose slots
     * still hold whatever they held before (stale).
     */
    method AllocChunk(allocOk: bool, stale: seq<u32>) returns (r: Result<seq<u32>>)
      requires |stale| == CHUNK_SLOTS
      ensures r.Ok? <==> !noAlloc && allocOk
      ensures r.Err? ==> r.err == (if noAlloc then ENOSPC else ENOMEM)
      ensures r.Ok? ==> r.value == stale
    {
      if noAlloc {
        return Err(ENOSPC);
      }
      if !allocOk {
        return Err(ENOMEM);
      }
      return Ok(stale);
    }

    /**
     * rls_append: pack e into the current chunk if it fits, else close
     * that chunk and link a new one; position grows by e's length.
     */
    method Append(e: Entry, allocOk: bool, stale: seq<u32>) returns (r: Status)
      requires Valid() && |stale| == CHUNK_SLOTS
      modifies this, rlist
      ensures Valid() && noAlloc == old(noAlloc)
      ensures r.Success? <==> (old(|rlist.chunks|) > 0 && old(curEntryIdx) + Size(e) <= CHUNK_SLOTS) ||
                              (!noAlloc && allocOk)
      ensures r.Success? ==> Entries() == old(Entries()) + [e] && position == Wrap64(old(position) + e.length)
      ensures r.Failure? ==> Entries() == old(Entries()) && position == old(position)
      ensures r.Failure? ==> r.err == (if noAlloc then ENOSPC else ENOMEM)
      ensures old(Counted()) ==> Counted()
      ensures old(|rlist.chunks|) <= |rlist.chunks| <= old(|rlist.chunks|) + 1
      ensures forall k | 0 <= k < old(|rlist.chunks|) - 1 :: rlist.chunks[k] == old(rlist.chunks[k])
    {
      ghost var entries := Entries();
      ghost var counted := Counted();
      var p := position;
      r := AllocEntry(e, allocOk, stale);
      if r.Success? {
        position := Wrap64(p + e.length);
        if counted {
          PositionStep(entries, e, p);
          assert Flatten(layout) == entries + [e];
        }
      }
    }

    /** rls_alloc_entry followed by the encoding of e into the slots it returns. */
    method AllocEntry(e: Entry, allocOk: bool, stale: seq<u32>) returns (r: Status)
      requires Valid() && |stale| == CHUNK_SLOTS
      modifies this`chunk, this`curEntryIdx, this`curEntrySize, this`layout, rlist
      ensures Valid()
      ensures r.Success? <==> (old(|rlist.chunks|) > 0 && old(curEntryIdx) + Size(e) <= CHUNK_SLOTS) ||
                              (!noAlloc && allocOk)
      ensures r.Success? ==> Entries() == old(Entries()) + [e]
      ensures r.Failure? ==> Entries() == old(Entries()) && r.err == (if noAlloc then ENOSPC else ENOMEM)
      ensures old(|rlist.chunks|) <= |rlist.chunks| <= old(|rlist.chunks|) + 1
      ensures forall k | 0 <= k < old(|rlist.chunks|) - 1 :: rlist.chunks[k] == old(rlist.chunks[k])
    {
      if |rlist.chunks| > 0 && curEntryIdx + Size(e) <= CHUNK_SLOTS {
        AppendHere(e);
        return Success;
      }
      r := AppendNewChunk(e, allocOk, stale);
    }

    /** rls_alloc_entry's first case: e fits in the current chunk, at slot curEntryIdx. */
    method AppendHere(e: Entry)
      requires Valid() && |rlist.chunks| > 0 && curEntryIdx + Size(e) <= CHUNK_SLOTS
      modifies this`curEntryIdx, this`curEntrySize, this`layout, rlist
      ensures Valid() && Entries() == old(Entries()) + [e]
      ensures |rlist.chunks| == old(|rlist.chunks|)
      ensures forall k | 0 <= k < |rlist.chunks| - 1 :: rlist.chunks[k] == old(rlist.chunks[k])
    {
      var n := |rlist.chunks|;
      var p := curEntryIdx;
      LayoutInPlace(rlist.chunks, layout, p, e, EncodingField);
      rlist.chunks := rlist.chunks[n - 1 := Splice(rlist.chunks[n - 1], p, Encode(e))];
      layout := layout[n - 1 := layout[n - 1] + [e]];
      curEntryIdx, curEntrySize := p + Size(e), Size(e);
    }

    /**
     * rls_alloc_entry's second case: mark the end of the current chunk,
     * then link a new chunk and put e at its slot 0.
     */
    method AppendNewChunk(e: Entry, allocOk: bool, stale: seq<u32>) returns (r: Status)
      requires Valid() && |stale| == CHUNK_SLOTS
      modifies this`chunk, this`curEntryIdx, this`curEntrySize, this`layout, rlist
      ensures Valid()
      ensures r.Success? <==> !noAlloc && allocOk
      ensures r.Success? ==> Entries() == old(Entries()) + [e] && |rlist.chunks| == old(|rlist.chunks|) + 1
      ensures r.Failure? ==> Entries() == old(Entries()) && r.err == (if noAlloc then ENOSPC else ENOMEM)
      ensures r.Failure? ==> |rlist.chunks| == old(|rlist.chunks|)
      ensures forall k | 0 <= k < old(|rlist.chunks|) - 1 :: rlist.chunks[k] == old(rlist.chunks[k])
    {
      MarkFrame(rlist.chunks, curEntryIdx, EncodingField);
      MarkLast();
      var c := AllocChunk(allocOk, stale);
      if c.Err? {
        return Failure(c.err);
      }
      LinkChunk(Splice(c.value, 0, Encode(e)), e, stale);
      return Success;
    }

    /** Link a chunk holding e at slot 0 (and stale slots after it) at the tail of a closed chain. */
    method LinkChunk(w: seq<u32>, e: Entry, ghost stale: seq<u32>)
      requires Valid() && Closed(rlist.chunks, curEntryIdx, EncodingField) && |stale| == CHUNK_SLOTS
      requires w == Splice(stale, 0, Encode(e))
      modifies this`chunk, this`curEntryIdx, this`curEntrySize, this`layout, rlist
      ensures Valid() && Entries() == old(Entries()) + [e] && rlist.chunks == old(rlist.chunks) + [w]
    {
      LayoutNewChunk(rlist.chunks, layout, curEntryIdx, e, stale, EncodingField);
      var n := |rlist.chunks|;
      rlist.chunks := rlist.chunks + [w];
      chunk := Some(n);
      curEntryIdx, curEntrySize := Size(e), Size(e);
      layout := layout + [[e]];
    }

    /** rls_mark_end: END_PAD into the first free slot of the last chunk, unless it is full. */
    method MarkLast()
      requires Valid()
      modifies rlist
      ensures Valid() && rlist.chunks == Mark(old(rlist.chunks), curEntryIdx, EncodingField)
      ensures Closed(rlist.chunks, curEntryIdx, EncodingField)
    {
      LayoutMark(rlist.chunks, layout, curEntryIdx, EncodingField);
      var n := |rlist.chunks|;
      if n > 0 {
        StoredFits(rlist.chunks[n - 1], 0, layout[n - 1]);
        if curEntryIdx != CHUNK_SLOTS {
          var last := rlist.chunks[n - 1];
          var marked: seq<u32> := last[curEntryIdx := MarkEnd(last[curEntryIdx], EncodingField)];
          rlist.chunks := rlist.chunks[n - 1 := marked];
        }
      }
    }

    /** rls_append_end: close the last chunk; the iterator then returns exactly what was appended. */
    method End()
      requires Valid()
      modifies rlist
      ensures Valid() && Closed(rlist.chunks, curEntryIdx, EncodingField)
      ensures Iterate(rlist.chunks, EncodingField) == Entries()
    {
      MarkLast();
      IterateLayout(rlist.chunks, layout, curEntryIdx, EncodingField);
    }

    /** rls_append_destroy_rlist: end the append, then empty the list. */
    method DestroyRlist()
      requires Valid()
      modifies rlist
      ensures rlist.Valid() && rlist.chunks == []
    {
      End();
      rlist.Destroy();
    }
  }

  /** rlist_init_single: a list holding just e, or an empty list and the error. */
  method InitSingle(rlist: Rlist, e: Entry, allocOk: bool, stale: seq<u32>) returns (r: Status)
    requires rlist.Valid() && rlist.chunks == [] && |stale| == CHUNK_SLOTS
    modifies rlist
    ensures rlist.Valid()
    ensures r.Success? <==> allocOk
    ensures r.Success? ==> Iterate(rlist.chunks, EncodingField) == [e]
    ensures r.Failure? ==> r.err == ENOMEM && rlist.chunks == []
  {
    var rlsa := new AppendState(rlist);
    r := rlsa.Begin();
    r := rlsa.Append(e, allocOk, stale);
    if r.Failure? {
      rlsa.DestroyRlist();
      return r;
    }
    rlsa.End();
    assert rlsa.Entries() == [e];
  }

  /**
   * The KUnit simple_test: a fresh list is empty and has no entries; after
   * appending {base 10, length 10} it has one, and rls_reset yields it.
   * The slab allocation is taken to succeed.
   */
  method SimpleTest(stale: seq<u32>) returns (emptyBefore: bool, countBefore: nat, countAfter: nat,
                                              resetOk: bool, first: Entry)
    requires |stale| == CHUNK_SLOTS
    ensures emptyBefore && countBefore == 0
    ensures countAfter == 1 && resetOk && first == Entry(0, 10, 10, 0, 0)
  {
    var rlist := new Rlist();
    emptyBefore, countBefore := TestEmpty(rlist);
    AppendOne(rlist, Entry(0, 10, 10, 0, 0), stale);
    countAfter, resetOk, first := TestOne(rlist, Entry(0, 10, 10, 0, 0));
    rlist.Destroy();
  }

  /** simple_test on the fresh list: rlist_empty holds and no entry is walked. */
  method TestEmpty(rlist: Rlist) returns (empty: bool, count: nat)
    requires rlist.Valid() && rlist.chunks == []
    ensures empty && count == 0
  {
    empty := RlistEmpty(rlist);
    var walk := new State(rlist);
    var es := ForEachEntry(walk);
    count := |es|;
  }

  /** simple_test's append: begin, one allocating append that succeeds, end. */
  method AppendOne(rlist: Rlist, e: Entry, stale: seq<u32>)
    requires rlist.Valid() && rlist.chunks == [] && |stale| == CHUNK_SLOTS
    modifies rlist
    ensures rlist.Valid() && Iterate(rlist.chunks, EncodingField) == [e]
  {
    var rlsa := new AppendState(rlist);
    var r := rlsa.Begin();
    r := rlsa.Append(e, true, stale);
    rlsa.End();
  }

  /** simple_test on the list holding e: one entry is walked and rls_reset yields e. */
  method TestOne(rlist: Rlist, e: Entry) returns (count: nat, resetOk: bool, first: Entry)
    requires rlist.Valid() && Iterate(rlist.chunks, EncodingField) == [e]
    ensures count == 1 && resetOk && first == e
  {
    var walk := new State(rlist);
    var es := ForEachEntry(walk);
    count := |es|;
    var rls := new State(rlist);
    resetOk, first := rls.Reset();
  }
}
