// Types shared by the generic page table and its formats.

module PtDefs {
  import opened Bits
  import opened PtLog2
  /** What a table slot holds once loaded. */
  datatype EntryType = Empty | Table | Oa

  /** PT_TOP_LEVEL_BITS: the top level is packed into the low bits of top_of_table. */
  const TOP_LEVEL_BITS: nat := 3

  // Generic feature bit numbers.
  const FEAT_DMA_INCOHERENT: nat := 0
  const FEAT_OA_SIZE_CHANGE: nat := 1
  const FEAT_OA_TABLE_XCHG: nat := 2
  const FEAT_FULL_VA: nat := 3
  const FEAT_DYNAMIC_TOP: nat := 4
  const FEAT_FMT_START: nat := 5

  // ARMv8 feature bit numbers.
  const FEAT_ARMV8_TTBR1: nat := FEAT_FMT_START
  const FEAT_ARMV8_LPA: nat := FEAT_FMT_START + 1
  const FEAT_ARMV8_S2: nat := FEAT_FMT_START + 2
  const FEAT_ARMV8_DBM: nat := FEAT_FMT_START + 3
  const FEAT_ARMV8_S2FWB: nat := FEAT_FMT_START + 4
  const FEAT_ARMV8_NS: nat := FEAT_FMT_START + 5

  // Format-local feature bit numbers whose values are not part of this model's
  // sources; they only need to be distinct from the generic ones.
  const FEAT_ARMV7S_TTBR1: nat := FEAT_FMT_START
  const FEAT_ARMV7S_NS: nat := FEAT_FMT_START + 1
  const FEAT_DART_V2: nat := FEAT_FMT_START

  /** The enabled feature bits of a table (pt_common.features). */
  type Features = set<nat>

  /**
   * The IOMMU_READ/WRITE/CACHE/NOEXEC/MMIO/PRIV request bits passed to
   * the set_prot translators.
   */
  datatype Prot = Prot(read: bool, write: bool, cache: bool, noexec: bool, mmio: bool, priv: bool)

  /**
   * pt_common: the table top with the top level packed into its low
   * TOP_LEVEL_BITS bits, the VA and OA size limits and the feature bits.
   */
  class Common {
    var topOfTable: u64
    var maxOaszLg2: nat
    var maxVaszLg2: nat
    var features: Features

    constructor (features: Features, maxVaszLg2: nat, maxOaszLg2: nat)
      ensures this.features == features && this.maxVaszLg2 == maxVaszLg2 && this.maxOaszLg2 == maxOaszLg2
      ensures topOfTable == 0
    {
      this.features := features;
      this.maxVaszLg2 := maxVaszLg2;
      this.maxOaszLg2 := maxOaszLg2;
      topOfTable := 0;
    }

    /** The level of the top table. */
    function TopLevel(): nat
      reads this
    {
      Mod(topOfTable, TOP_LEVEL_BITS)
    }

    /** The address of the top table, with the level bits cleared. */
    function TopTable(): u64
      reads this
    {
      SetMod(topOfTable, 0, TOP_LEVEL_BITS)
    }

    /**
     * pt_top_set_level: store a new top level and keep the top table
     * address.
     */
    method TopSetLevel(level: nat)
      requires level <= ToMaxInt(TOP_LEVEL_BITS)
      modifies this
      ensures topOfTable == SetMod(old(topOfTable), level, TOP_LEVEL_BITS)
      ensures TopLevel() == level && TopTable() == old(TopTable())
      ensures maxOaszLg2 == old(maxOaszLg2) && maxVaszLg2 == old(maxVaszLg2) && features == old(features)
    {
      var a := topOfTable;
      SetModSpec(a, level, TOP_LEVEL_BITS);
      topOfTable := SetMod(a, level, TOP_LEVEL_BITS);
      SameTableAfterSetLevel(a, level);
    }
  }

  lemma SameTableAfterSetLevel(a: u64, level: nat)
    requires level <= ToMaxInt(TOP_LEVEL_BITS)
    ensures SetMod(SetMod(a, level, TOP_LEVEL_BITS), 0, TOP_LEVEL_BITS) == SetMod(a, 0, TOP_LEVEL_BITS)
  {
    var b := SetMod(a, level, TOP_LEVEL_BITS);
    var x := SetMod(b, 0, TOP_LEVEL_BITS);
    var y := SetMod(a, 0, TOP_LEVEL_BITS);
    forall k | 0 <= k < 64 ensures TestBit(x, k) == TestBit(y, k) {
      SetModBits(b, 0, TOP_LEVEL_BITS, k);
      SetModBits(a, 0, TOP_LEVEL_BITS, k);
      SetModBits(a, level, TOP_LEVEL_BITS, k);
    }
    Pow2Words();
    BitsEqual(x, y, 64);
  }

  /**
   * pt_table_install64/32, sequentially: store new_entry only if the slot
   * still holds old_entry, and report whether it did.
   */
  method TableInstall<W(==)>(table: array<W>, index: nat, new_entry: W, old_entry: W) returns (installed: bool)
    requires index < table.Length
    modifies table
    ensures installed == (old(table[index]) == old_entry)
    ensures table[..] == if installed then old(table[..])[index := new_entry] else old(table[..])
  {
    if table[index] == old_entry {
      table[index] := new_entry;
      installed := true;
    } else {
      installed := false;
    }
  }

  /** The table words before, with the words of run stored from index on. */
  function Spliced<W>(before: seq<W>, index: nat, run: seq<W>): (r: seq<W>)
    requires index + |run| <= |before|
    ensures |r| == |before|
  {
    before[..index] + run + before[index + |run|..]
  }

  /** A sequence that agrees with before outside the run and with run inside it is the splice. */
  lemma SplicedFromElements<W>(t: seq<W>, before: seq<W>, index: nat, run: seq<W>)
    requires index + |run| <= |before| == |t|
    requires forall j :: 0 <= j < |t| ==> t[j] == if index <= j < index + |run| then run[j - index] else before[j]
    ensures t == Spliced(before, index, run)
  {
    var r := Spliced(before, index, run);
    forall j | 0 <= j < |t| ensures t[j] == r[j] {
      if j < index {
      } else if j < index + |run| {
      } else {
      }
    }
  }
}
