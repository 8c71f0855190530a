// The intrusive free list of page-table memory.
//
// Every table level has a meta record; a list of tables to free threads
// those records through their free_next pointers, with a head, a tail and
// a count in the list head.  A table is named here by its meta record
// (virt_to_meta of the table's address).

module PtAlloc {

  /** The part of pt_radix_meta this list uses: the free_next link and the still_flushing byte. */
  class Meta {
    var freeNext: Meta?
    var stillFlushing: nat

    constructor ()
      ensures freeNext == null && stillFlushing == 0
    {
      freeNext := null;
      stillFlushing := 0;
    }
  }

  /**
   * pt_radix_list_head.  The ghost sequence items is the list in order:
   * following free_next from head visits exactly num_items distinct
   * records, the last of them is tail and its free_next is NULL, and an
   * empty list has NULL head and tail.
   */
  class RadixList {
    var numItems: nat
    var head: Meta?
    var tail: Meta?
    ghost var items: seq<Meta>

    ghost predicate Valid()
      reads this, items
    {
      numItems == |items| &&
      (|items| == 0 ==> head == null && tail == null) &&
      (|items| > 0 ==> head == items[0] && tail == items[|items| - 1] && items[|items| - 1].freeNext == null) &&
      (forall i :: 0 <= i < |items| - 1 ==> items[i].freeNext == items[i + 1]) &&
      (forall i, j :: 0 <= i < j < |items| ==> items[i] != items[j])
    }

    /** PT_RADIX_LIST_INIT: the empty list. */
    constructor ()
      ensures Valid() && items == []
      ensures numItems == 0 && head == null && tail == null
    {
      numItems := 0;
      head := null;
      tail := null;
      items := [];
    }

    /**
     * pt_radix_add_list: count the record, end it with a NULL free_next,
     * link the old tail to it (or make it the head of an empty list) and
     * make it the tail.  No other record changes.
     */
    method AddList(meta: Meta)
      requires Valid() && meta !in items
      modifies this, meta, tail
      ensures Valid() && items == old(items) + [meta]
      ensures numItems == old(numItems) + 1 && tail == meta && meta.freeNext == null
      ensures old(tail) == null ==> head == meta
      ensures old(tail) != null ==> head == old(head) && old(tail).freeNext == meta
      ensures meta.stillFlushing == old(meta.stillFlushing)
      ensures old(tail) != null ==> old(tail).stillFlushing == old(tail.stillFlushing)
    {
      numItems := numItems + 1;
      meta.freeNext := null;
      if tail != null {
        tail.freeNext := meta;
      } else {
        head := meta;
      }
      tail := meta;
      items := items + [meta];
    }

    /**
     * pt_radix_list_splice: nothing changes when from is empty; otherwise
     * the list becomes itself followed by from, with the counts added.
     * from itself is left as it was, still describing its records.
     */
    method Splice(from: RadixList)
      requires Valid() && from.Valid() && from != this
      requires forall m :: m in items ==> m !in from.items
      modifies this, tail
      ensures Valid() && from.Valid()
      ensures items == old(items) + from.items && numItems == old(numItems) + from.numItems
      ensures from.items == [] ==> head == old(head) && tail == old(tail)
      ensures from.items != [] ==> tail == from.tail && (old(head) == null ==> head == from.head)
      ensures from.items != [] && old(head) != null ==> head == old(head) && old(tail).freeNext == from.head
      ensures from.head == old(from.head) && from.tail == old(from.tail) && from.items == old(from.items)
    {
      if from.head == null {
        return;
      }
      assert head != null ==> tail in items && tail !in from.items;
      numItems := numItems + from.numItems;
      if head != null {
        tail.freeNext := from.head;
        tail := from.tail;
      } else {
        head := from.head;
        tail := from.tail;
      }
      ghost var before := items;
      items := items + from.items;
      forall i, j | 0 <= i < j < |items|
        ensures items[i] != items[j]
      {
        if j >= |before| && i < |before| {
          assert items[i] in before && items[j] == from.items[j - |before|];
        } else if i >= |before| {
          assert items[i] == from.items[i - |before|] && items[j] == from.items[j - |before|];
        }
      }
    }
  }

  /** pt_radix_done_incoherent_flush, sequentially: the record is no longer flushing. */
  method DoneIncoherentFlush(meta: Meta)
    modifies meta
    ensures meta.stillFlushing == 0 && meta.freeNext == old(meta.freeNext)
  {
    meta.stillFlushing := 0;
  }

  /** pt_radix_incoherent_still_flushing, sequentially: whether the flag byte is nonzero. */
  method IncoherentStillFlushing(meta: Meta) returns (flushing: bool)
    ensures flushing <==> meta.stillFlushing != 0
  {
    flushing := meta.stillFlushing != 0;
  }
}
