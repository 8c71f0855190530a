// The fallbacks the generic page table uses for format functions a format
// does not supply, and the OA helpers derived from whichever one it does.

module PtFmtDefaults {
  import opened Bits
  import opened PtLog2

  /** Without contiguous-entry support every entry spans a single item. */
  function DefaultEntryNumContigLg2(): (r: nat)
    ensures Pow2(r) == 1
  {
    0
  }

  function DefaultContigCountLg2(): (r: nat)
    ensures Pow2(r) == 1
  {
    0
  }

  /** Without dirty tracking no entry ever reads as write-dirty. */
  predicate DefaultEntryWriteIsDirty<W>(entry: W)
  {
    false
  }

  /** Without dirty tracking, set_write_clean leaves the table alone. */
  function DefaultEntrySetWriteClean<W>(table: seq<W>): (r: seq<W>)
    ensures !DefaultEntryWriteIsDirty(table)
    ensures r == table
  {
    table
  }

  /** Without dirty tracking, make_write_dirty never succeeds. */
  function DefaultEntryMakeWriteDirty<W>(table: seq<W>): (r: (bool, seq<W>))
    ensures !r.0 && r.1 == table
  {
    (false, table)
  }

  /**
   * pt_item_oa built from pt_entry_oa, as written: the whole table index,
   * scaled by the item size, is ORed onto the entry OA.
   */
  function ItemOaFromEntryOaAsWritten(entry_oa: u64, index: u64, isz_lg2: nat): u64
    requires isz_lg2 < 64
  {
    Pow2Words();
    OrBound(entry_oa, Mul(index, isz_lg2), 64);
    Or(entry_oa, Mul(index, isz_lg2))
  }

  /**
   * pt_item_oa built from pt_entry_oa, as intended: only the item's position
   * inside its contiguous entry (index mod 2^num_contig_lg2) is added.
   */
  function ItemOaFromEntryOa(entry_oa: u64, index: u64, num_contig_lg2: nat, isz_lg2: nat): u64
    requires num_contig_lg2 + isz_lg2 < 64
  {
    ItemOaFromEntryOaAsWritten(entry_oa, Mod(index, num_contig_lg2), isz_lg2)
  }

  /** pt_entry_oa built from pt_item_oa: the offset inside the contiguous entry is cleared. */
  function EntryOaFromItemOa(item_oa: u64, num_contig_lg2: nat, isz_lg2: nat): u64
    requires num_contig_lg2 + isz_lg2 <= 64
  {
    SetMod(item_oa, 0, num_contig_lg2 + isz_lg2)
  }

  /** PT_MAX_OUTPUT_ADDRESS_LG2 unless the format computes its own maximum. */
  function DefaultMaxOutputAddressLg2(fmt_max_output_address_lg2: nat): (r: nat)
    ensures r == fmt_max_output_address_lg2
  {
    fmt_max_output_address_lg2
  }

  /** Without an override, the VA space starts at 0. */
  function DefaultFullVaPrefix(): (r: u64)
    ensures forall k :: 0 <= k < 64 ==> !TestBit(r, k)
  {
    ZeroBitsAll();
    0
  }

  lemma ZeroBitsAll()
    ensures forall k :: 0 <= k < 64 ==> !TestBit(0, k)
  {
    forall k | 0 <= k < 64 ensures !TestBit(0, k) {
      ZeroBit(k);
    }
  }

  /**
   * The default page-size bitmap of a level: nothing when the level holds no
   * leaves, else the single-item size and the one contiguous size.
   */
  function DefaultPossibleSizes(can_have_leaf: bool, isz_lg2: nat, contig_count_lg2: nat): u64
    requires isz_lg2 + contig_count_lg2 < 64
  {
    if !can_have_leaf then 0
    else
      Pow2Words();
      OrBound(ToInt(isz_lg2), ToInt(contig_count_lg2 + isz_lg2), 64);
      Or(ToInt(isz_lg2), ToInt(contig_count_lg2 + isz_lg2))
  }

  /** The bits of the default bitmap are exactly the two supported sizes. */
  lemma DefaultPossibleSizesBits(can_have_leaf: bool, isz_lg2: nat, contig_count_lg2: nat, k: nat)
    requires isz_lg2 + contig_count_lg2 < 64
    ensures TestBit(DefaultPossibleSizes(can_have_leaf, isz_lg2, contig_count_lg2), k)
            == (can_have_leaf && (k == isz_lg2 || k == isz_lg2 + contig_count_lg2))
  {
    if can_have_leaf {
      OrBit(ToInt(isz_lg2), ToInt(contig_count_lg2 + isz_lg2), k);
      Pow2Bit(isz_lg2, k);
      Pow2Bit(contig_count_lg2 + isz_lg2, k);
    } else {
      ZeroBit(k);
    }
  }

  /** The item offset added by the intended pt_item_oa stays inside the entry. */
  lemma ItemOffsetBound(index: u64, num_contig_lg2: nat, isz_lg2: nat)
    requires num_contig_lg2 + isz_lg2 < 64
    ensures Mul(Mod(index, num_contig_lg2), isz_lg2) == Mod(index, num_contig_lg2) * Pow2(isz_lg2)
    ensures Mul(Mod(index, num_contig_lg2), isz_lg2) < Pow2(num_contig_lg2 + isz_lg2)
  {
    var m := Mod(index, num_contig_lg2);
    var p := Pow2(num_contig_lg2);
    var q := Pow2(isz_lg2);
    AndBound(index, ToMaxInt(num_contig_lg2));
    assert m < p;
    MulStrict(m, p, q);
    Pow2Add(num_contig_lg2, isz_lg2);
    Pow2Monotone(num_contig_lg2 + isz_lg2, 64);
    Pow2Words();
    LowOfSmall(m * q, 64);
  }

  /**
   * The two derived OA functions agree: an entry OA aligned to the entry
   * size, offset by any item inside the entry, maps back to the entry OA.
   */
  lemma EntryItemOaRoundTrip(entry_oa: u64, index: u64, num_contig_lg2: nat, isz_lg2: nat)
    requires num_contig_lg2 + isz_lg2 < 64
    requires Mod(entry_oa, num_contig_lg2 + isz_lg2) == 0
    ensures EntryOaFromItemOa(ItemOaFromEntryOa(entry_oa, index, num_contig_lg2, isz_lg2), num_contig_lg2, isz_lg2) == entry_oa
  {
    var n := num_contig_lg2 + isz_lg2;
    var off := Mul(Mod(index, num_contig_lg2), isz_lg2);
    var item := ItemOaFromEntryOa(entry_oa, index, num_contig_lg2, isz_lg2);
    var r := EntryOaFromItemOa(item, num_contig_lg2, isz_lg2);
    Pow2Words();
    ItemOffsetBound(index, num_contig_lg2, isz_lg2);
    forall k | 0 <= k < 64 ensures TestBit(r, k) == TestBit(entry_oa, k) {
      SetModBits(item, 0, n, k);
      ZeroBit(k);
      OrBit(entry_oa, off, k);
      if k < n {
        ModBitClear(entry_oa, n, k);
      } else {
        HighBitClear(off, n, k);
      }
    }
    BitsEqual(r, entry_oa, 64);
  }

  /**
   * The derivation as written leaves the entry: for a single-item entry at
   * index 1 of a 4 KiB-item table whose OA is 0, it reports OA 0x1000 for the
   * item, outside the entry [0, 0x1000), where the intended form reports 0.
   */
  lemma ItemOaAsWrittenLeavesEntry()
    ensures ItemOaFromEntryOaAsWritten(0, 1, 12) == 0x1000
    ensures ItemOaFromEntryOa(0, 1, 0, 12) == 0
  {
    Pow2Words();
    assert Pow2(12) == 0x1000 by {
      assert Pow2(4) == 16;
      Pow2Add(4, 4);
      Pow2Add(8, 4);
    }
    LowOfSmall(0x1000, 64);
    assert Mul(1, 12) == 0x1000;
    OrZero(0x1000);
    assert ToMaxInt(0) == 0;
    AndBound(1, 0);
    assert Mod(1, 0) == 0;
    LowOfSmall(0, 64);
    assert Mul(0, 12) == 0;
    OrZero(0);
  }

  lemma OrZero(a: nat)
    ensures Or(0, a) == a
  {
    forall k: nat | k < a + 1 ensures TestBit(Or(0, a), k) == TestBit(a, k) {
      OrBit(0, a, k);
      ZeroBit(k);
    }
    FitsIn(a);
    OrBound(0, a, a);
    BitsEqual(Or(0, a), a, a);
  }

  /** Where the index already lies inside the first entry the two forms agree. */
  lemma ItemOaAsWrittenAgreesInsideEntry(entry_oa: u64, index: u64, num_contig_lg2: nat, isz_lg2: nat)
    requires num_contig_lg2 + isz_lg2 < 64
    requires index < Pow2(num_contig_lg2)
    ensures ItemOaFromEntryOaAsWritten(entry_oa, index, isz_lg2) == ItemOaFromEntryOa(entry_oa, index, num_contig_lg2, isz_lg2)
  {
    ModOfSmall(index, num_contig_lg2);
  }

  /** A word whose remainder by 2^n is zero has its low n bits clear. */
  lemma ModBitClear(a: u64, n: nat, k: nat)
    requires n <= 64 && k < n
    requires Mod(a, n) == 0
    ensures !TestBit(a, k)
  {
    AndBit(a, ToMaxInt(n), k);
    MaxBit(n, k);
    ZeroBit(k);
  }

  /** The table after zeroing count words from start. */
  function Cleared<W>(table: seq<W>, zero: W, start: nat, count: nat): (r: seq<W>)
    requires start + count <= |table|
    ensures |r| == |table|
  {
    table[..start] + seq(count, _ => zero) + table[start + count..]
  }

  lemma ClearedAt<W>(table: seq<W>, zero: W, start: nat, count: nat, i: nat)
    requires start + count <= |table| && i < |table|
    ensures Cleared(table, zero, start, count)[i] == if start <= i < start + count then zero else table[i]
  {
  }

  method ClearRun<W>(table: array<W>, zero: W, index: nat, num_contig_lg2: nat)
    requires index + Pow2(num_contig_lg2) <= table.Length
    modifies table
    ensures table[..] == Cleared(old(table[..]), zero, index, Pow2(num_contig_lg2))
  {
    var p := index;
    var end := index + Pow2(num_contig_lg2);
    while p != end
      invariant index <= p <= end
      invariant forall i :: 0 <= i < table.Length ==> table[i] == if index <= i < p then zero else old(table[i])
    {
      table[p] := zero;
      p := p + 1;
    }
    assert forall i :: 0 <= i < table.Length ==>
      table[..][i] == Cleared(old(table[..]), zero, index, Pow2(num_contig_lg2))[i];
  }

  /**
   * pt_clear_entry64: zero the 2^num_contig_lg2 words of a contiguous entry
   * starting at index, which must be aligned to the entry.
   */
  method ClearEntry64(table: array<u64>, index: u64, num_contig_lg2: nat)
    requires num_contig_lg2 <= 64 && Mod(index, num_contig_lg2) == 0
    requires index + Pow2(num_contig_lg2) <= table.Length
    modifies table
    ensures table[..] == Cleared(old(table[..]), 0, index, Pow2(num_contig_lg2))
  {
    ClearRun(table, 0, index, num_contig_lg2);
  }

  /** pt_clear_entry32: the same on a table of 32-bit words. */
  method ClearEntry32(table: array<u32>, index: u64, num_contig_lg2: nat)
    requires num_contig_lg2 <= 64 && Mod(index, num_contig_lg2) == 0
    requires index + Pow2(num_contig_lg2) <= table.Length
    modifies table
    ensures table[..] == Cleared(old(table[..]), 0, index, Pow2(num_contig_lg2))
  {
    ClearRun(table, 0, index, num_contig_lg2);
  }
}
