// The ARMv8 VMSAv8-64 long-descriptor page table format with the 4K
// granule. Levels are numbered as in the generic page table: level 0 holds
// 4K pages and level 3 is the largest possible top.

module PtArmv8 {
  import opened Bits
  import opened PtLog2
  import opened Bitfield
  import opened PtDefs
  import opened Errno

  // Geometry of the 4K granule.
  const MAX_TOP_LEVEL: nat := 3
  const GRANULE_LG2SZ: nat := 12
  const MAX_OUTPUT_ADDRESS_LG2: nat := 48
  const MAX_VA_ADDRESS_LG2: nat := 48
  const TABLEMEM_LG2SZ: nat := 12
  /** log2 of the size of a table word (u64) */
  const ENTRY_WORD_LG2SZ: nat := 3
  const ITEMS_PER_TABLE: nat := 512

  // Single-bit descriptor fields, as bit numbers.
  const VALID: nat := 0
  const PAGE: nat := 1
  const TABLE: nat := 1
  const NS: nat := 5
  const AF: nat := 10
  const NG: nat := 11
  const DBM: nat := 51
  const CONTIG: nat := 52
  const UXN: nat := 53
  const PXN: nat := 54
  const NSTABLE: nat := 63

  // Multi-bit fields, as GENMASK(HI, LO).
  const OA48_HI: nat := 47
  const OA48_LO: nat := 12
  const OA52_HI: nat := 15
  const OA52_LO: nat := 12
  const SH_HI: nat := 9
  const SH_LO: nat := 8
  const ATTRINDX_HI: nat := 4
  const ATTRINDX_LO: nat := 2
  const AP_HI: nat := 7
  const AP_LO: nat := 6
  const S2MEMATTR_HI: nat := 5
  const S2MEMATTR_LO: nat := 2
  const S2AP_HI: nat := 7
  const S2AP_LO: nat := 6

  // Field values.
  const MAIR_ATTR_IDX_CACHE: nat := 1
  const MAIR_ATTR_IDX_DEV: nat := 2
  const SH_IS: nat := 3
  const SH_OS: nat := 2
  const AP_UNPRIV: nat := 1
  const AP_RDONLY: nat := 2
  const MEMATTR_FWB_WB: nat := 6
  const MEMATTR_OIWB: nat := 0xf
  const MEMATTR_NC: nat := 5
  const MEMATTR_DEV: nat := 1
  const S2AP_READ: nat := 1
  const S2AP_WRITE: nat := 2

  /** pt_write_attrs: the attribute bits a leaf is built with. */
  datatype WriteAttrs = WriteAttrs(descriptorBits: u64)

  // ---- geometry --------------------------------------------------------

  /** pt_table_item_lg2sz: log2 of the span of one item at a level. */
  function TableItemLg2sz(level: nat): nat
  {
    GRANULE_LG2SZ + (TABLEMEM_LG2SZ - ENTRY_WORD_LG2SZ) * level
  }

  /** pt_num_items_lg2: log2 of the number of items in a table. */
  function NumItemsLg2(): nat
  {
    GRANULE_LG2SZ - ENTRY_WORD_LG2SZ
  }

  /** pt_can_have_leaf: with the 4K granule only levels 0..2 map pages or blocks. */
  predicate CanHaveLeaf(level: nat)
  {
    !(level > 2)
  }

  /** pt_contig_count_lg2: with the 4K granule a contiguous run joins 16 entries at every level. */
  const CONTIG_COUNT_LG2: nat := 4

  /** pt_entry_num_contig_lg2 */
  function EntryNumContigLg2(entry: u64): nat
  {
    if TestBit(entry, CONTIG) then CONTIG_COUNT_LG2 else 0
  }

  lemma ContigCountIs16()
    ensures Pow2(CONTIG_COUNT_LG2) == 16
  {
    assert Pow2(4) == 16;
  }

  /** pt_full_va_prefix: a TTBR1 table translates the top of the VA space. */
  function FullVaPrefix(features: Features): u64
  {
    if FEAT_ARMV8_TTBR1 in features then U64_MAX else 0
  }

  /**
   * One table is one granule of 512 words, an item of a level spans a whole
   * table of the level below, and the leaf sizes are 4K, 2M and 1G with
   * contiguous runs of 64K, 32M and 16G.
   */
  lemma Geometry(level: nat)
    ensures ToInt(NumItemsLg2()) == ITEMS_PER_TABLE
    ensures ITEMS_PER_TABLE * Pow2(ENTRY_WORD_LG2SZ) == Pow2(TABLEMEM_LG2SZ)
    ensures TableItemLg2sz(level + 1) == TableItemLg2sz(level) + NumItemsLg2()
    ensures TableItemLg2sz(0) == 12 && TableItemLg2sz(1) == 21 && TableItemLg2sz(2) == 30
    ensures Pow2(CONTIG_COUNT_LG2) == 16
    ensures CanHaveLeaf(level) <==> level <= 2
  {
    assert Pow2(9) == 512;
    assert Pow2(12) == 4096;
  }

  // ---- output addresses ------------------------------------------------

  /** oa fits the OA[47:12] field: below 2^48 and 4K aligned. */
  predicate IsOa48(oa: nat)
  {
    oa < Pow2(MAX_OUTPUT_ADDRESS_LG2) && oa % Pow2(GRANULE_LG2SZ) == 0
  }

  /** armv8pt_oa: the address held in OA[47:12] (the 4K granule has no OA52 part). */
  function Oa(entry: u64): u64
  {
    FieldGetBound(OA48_HI, OA48_LO, entry);
    Pow2Monotone(OA48_HI - OA48_LO + 1, 64);
    Pow2Words();
    Mul(FieldGet(OA48_HI, OA48_LO, entry), GRANULE_LG2SZ)
  }

  /** pt_table_pa: a table entry points at the next table through the same field. */
  function TablePa(entry: u64): u64
  {
    Oa(entry)
  }

  /** pt_item_oa: every item of a contiguous run stores its own address. */
  function ItemOa(entry: u64): u64
  {
    Oa(entry)
  }

  lemma OaBit(entry: u64, k: nat)
    ensures TestBit(Oa(entry), k) == (OA48_LO <= k <= OA48_HI && TestBit(entry, k))
  {
    FieldGetBound(OA48_HI, OA48_LO, entry);
    Pow2Monotone(OA48_HI - OA48_LO + 1, 64);
    Pow2Words();
    MulBit(FieldGet(OA48_HI, OA48_LO, entry), GRANULE_LG2SZ, k);
    if k >= GRANULE_LG2SZ {
      FieldGetBit(OA48_HI, OA48_LO, entry, k - GRANULE_LG2SZ);
    }
  }

  /** The bits of an address the OA field can hold lie in 12..47. */
  lemma Oa48Bit(oa: nat, k: nat)
    requires IsOa48(oa) && TestBit(oa, k)
    ensures OA48_LO <= k <= OA48_HI
  {
    if k < GRANULE_LG2SZ {
      AlignedLowBit(oa, GRANULE_LG2SZ, k);
    } else if k > OA48_HI {
      HighBitClear(oa, MAX_OUTPUT_ADDRESS_LG2, k);
    }
  }

  /** Every decoded address is one the OA field can hold. */
  lemma OaIsOa48(entry: u64)
    ensures IsOa48(Oa(entry))
  {
    var oa := Oa(entry);
    Pow2Words();
    forall k | MAX_OUTPUT_ADDRESS_LG2 <= k < 64 ensures !TestBit(oa, k) {
      OaBit(entry, k);
    }
    BoundFromBits(oa, MAX_OUTPUT_ADDRESS_LG2, 64);
    LowBound(oa, GRANULE_LG2SZ);
    forall k | 0 <= k < GRANULE_LG2SZ ensures TestBit(Low(oa, GRANULE_LG2SZ), k) == TestBit(0, k) {
      LowBit(oa, GRANULE_LG2SZ, k);
      OaBit(entry, k);
      ZeroBit(k);
    }
    BitsEqual(Low(oa, GRANULE_LG2SZ), 0, GRANULE_LG2SZ);
    ShrLowDivMod(oa, GRANULE_LG2SZ);
  }

  /** FIELD_PREP(OA48, oa >> 12) carries the bits 12..47 of oa. */
  lemma Oa48PrepBit(oa: u64, k: nat)
    ensures TestBit(Prep64(OA48_HI, OA48_LO, Div(oa, GRANULE_LG2SZ)), k) == (OA48_LO <= k <= OA48_HI && TestBit(oa, k))
  {
    FieldPrepBit(OA48_HI, OA48_LO, Div(oa, GRANULE_LG2SZ), k);
    if k >= OA48_LO {
      ShrBit(oa, GRANULE_LG2SZ, k - GRANULE_LG2SZ);
    }
  }

  /** FIELD_PREP(OA52, oa >> 48) is empty for a 48-bit address. */
  lemma Oa52PrepZero(oa: u64)
    requires oa < Pow2(MAX_OUTPUT_ADDRESS_LG2)
    ensures Prep64(OA52_HI, OA52_LO, Shr(oa, 48)) == 0
  {
    LowOfSmall(oa, 48);
    LowOfSmall(0, OA52_HI - OA52_LO + 1);
  }

  /**
   * The two OA fields of a descriptor for oa, FIELD_PREP(OA48, oa >> 12) and
   * FIELD_PREP(OA52, oa >> 48), carry exactly the bits of a 48-bit address.
   */
  lemma OaFieldsBit(oa: u64, k: nat)
    requires IsOa48(oa)
    ensures TestBit(Or(Prep64(OA48_HI, OA48_LO, Div(oa, GRANULE_LG2SZ)), Prep64(OA52_HI, OA52_LO, Shr(oa, 48))), k)
            == TestBit(oa, k)
  {
    Oa52PrepZero(oa);
    Oa48PrepBit(oa, k);
    OrBit(Prep64(OA48_HI, OA48_LO, Div(oa, GRANULE_LG2SZ)), 0, k);
    ZeroBit(k);
    if TestBit(oa, k) {
      Oa48Bit(oa, k);
    }
  }

  // ---- decoding a slot -------------------------------------------------

  /** pt_load_entry_raw: what the word read from a slot at a level holds. */
  function LoadEntryRaw(entry: u64, level: nat): EntryType
  {
    if !TestBit(entry, VALID) then Empty
    else if level != 0 && TestBit(entry, TABLE) then Table
    else if !CanHaveLeaf(level) then Empty
    else EntryType.Oa
  }

  /** The classification, case by case. */
  lemma LoadEntryRawCases(entry: u64, level: nat)
    ensures LoadEntryRaw(entry, level) == Empty <==>
              !TestBit(entry, VALID) || (level > 2 && !TestBit(entry, TABLE))
    ensures LoadEntryRaw(entry, level) == Table <==>
              TestBit(entry, VALID) && level != 0 && TestBit(entry, TABLE)
    ensures LoadEntryRaw(entry, level) == EntryType.Oa <==>
              TestBit(entry, VALID) && level <= 2 && (level == 0 || !TestBit(entry, TABLE))
  {
  }

  // ---- leaves ----------------------------------------------------------

  /**
   * The bits set_prot may put in descriptor_bits: the attribute bits 2..11
   * (which include NS) and DBM, UXN and PXN. None of them is VALID,
   * PAGE/TABLE, CONTIG or part of the OA field.
   */
  predicate IsAttrBit(k: nat)
  {
    2 <= k <= 11 || k == DBM || k == UXN || k == PXN
  }

  ghost predicate DescriptorBitsOk(attrs: WriteAttrs)
  {
    forall k :: TestBit(attrs.descriptorBits, k) ==> IsAttrBit(k)
  }

  /** The word install_leaf_entry builds for one item. */
  function LeafEntry(oa: u64, level: nat, attrs: WriteAttrs): u64
  {
    var entry := Or64(Or64(Or64(Bit64(VALID), Prep64(OA48_HI, OA48_LO, Div(oa, GRANULE_LG2SZ))),
                           Prep64(OA52_HI, OA52_LO, Shr(oa, 48))),
                      attrs.descriptorBits);
    if level == 0 then Or64(entry, Bit64(PAGE)) else entry
  }

  /** The first word of a contiguous run: the leaf with CONTIG set. */
  function ContigLeaf(oa: u64, level: nat, attrs: WriteAttrs): u64
  {
    Or64(LeafEntry(oa, level, attrs), Bit64(CONTIG))
  }

  /** A leaf is VALID, the address bits, the attribute bits and PAGE on level 0. */
  lemma LeafBit(oa: u64, level: nat, attrs: WriteAttrs, k: nat)
    requires IsOa48(oa)
    ensures TestBit(LeafEntry(oa, level, attrs), k) ==
            (k == VALID || (level == 0 && k == PAGE) || TestBit(oa, k) || TestBit(attrs.descriptorBits, k))
  {
    var a := Prep64(OA48_HI, OA48_LO, Div(oa, GRANULE_LG2SZ));
    var b := Prep64(OA52_HI, OA52_LO, Shr(oa, 48));
    OaFieldsBit(oa, k);
    OrBit(a, b, k);
    OrBit(Bit64(VALID), a, k);
    OrBit(Or(Bit64(VALID), a), b, k);
    OrBit(Or(Or(Bit64(VALID), a), b), attrs.descriptorBits, k);
    BitBit(VALID, k);
    BitBit(PAGE, k);
    OrBit(Or(Or(Or(Bit64(VALID), a), b), attrs.descriptorBits), Bit64(PAGE), k);
  }

  lemma ContigLeafBit(oa: u64, level: nat, attrs: WriteAttrs, k: nat)
    requires IsOa48(oa)
    ensures TestBit(ContigLeaf(oa, level, attrs), k) ==
            (k == VALID || (level == 0 && k == PAGE) || k == CONTIG || TestBit(oa, k) || TestBit(attrs.descriptorBits, k))
  {
    LeafBit(oa, level, attrs, k);
    OrBit(LeafEntry(oa, level, attrs), Bit64(CONTIG), k);
    BitBit(CONTIG, k);
  }

  /** A single leaf built at a level that may hold one loads back as an OA entry. */
  lemma LeafLoadsAsOa(oa: u64, level: nat, attrs: WriteAttrs)
    requires IsOa48(oa) && DescriptorBitsOk(attrs) && CanHaveLeaf(level)
    ensures LoadEntryRaw(LeafEntry(oa, level, attrs), level) == EntryType.Oa
    ensures EntryNumContigLg2(LeafEntry(oa, level, attrs)) == 0
  {
    LeafBit(oa, level, attrs, VALID);
    LeafBit(oa, level, attrs, TABLE);
    LeafBit(oa, level, attrs, CONTIG);
    if TestBit(oa, TABLE) { Oa48Bit(oa, TABLE); }
    if TestBit(oa, CONTIG) { Oa48Bit(oa, CONTIG); }
  }

  /** A contiguous leaf loads back as an OA entry of 16 items. */
  lemma ContigLeafLoadsAsOa(oa: u64, level: nat, attrs: WriteAttrs)
    requires IsOa48(oa) && DescriptorBitsOk(attrs) && CanHaveLeaf(level)
    ensures LoadEntryRaw(ContigLeaf(oa, level, attrs), level) == EntryType.Oa
    ensures EntryNumContigLg2(ContigLeaf(oa, level, attrs)) == CONTIG_COUNT_LG2
  {
    ContigLeafBit(oa, level, attrs, VALID);
    ContigLeafBit(oa, level, attrs, TABLE);
    ContigLeafBit(oa, level, attrs, CONTIG);
    if TestBit(oa, TABLE) { Oa48Bit(oa, TABLE); }
  }

  lemma LeafOaBit(oa: u64, level: nat, attrs: WriteAttrs, k: nat)
    requires IsOa48(oa) && DescriptorBitsOk(attrs)
    ensures TestBit(Oa(LeafEntry(oa, level, attrs)), k) == TestBit(oa, k)
  {
    OaBit(LeafEntry(oa, level, attrs), k);
    LeafBit(oa, level, attrs, k);
    if TestBit(oa, k) {
      Oa48Bit(oa, k);
    }
  }

  lemma ContigLeafOaBit(oa: u64, level: nat, attrs: WriteAttrs, k: nat)
    requires IsOa48(oa) && DescriptorBitsOk(attrs)
    ensures TestBit(Oa(ContigLeaf(oa, level, attrs)), k) == TestBit(oa, k)
  {
    OaBit(ContigLeaf(oa, level, attrs), k);
    ContigLeafBit(oa, level, attrs, k);
    if TestBit(oa, k) {
      Oa48Bit(oa, k);
    }
  }

  /** armv8pt_oa of a stored leaf returns the address it was built from. */
  lemma LeafOaRoundTrip(oa: u64, level: nat, attrs: WriteAttrs)
    requires IsOa48(oa) && DescriptorBitsOk(attrs)
    ensures Oa(LeafEntry(oa, level, attrs)) == oa
  {
    forall k | 0 <= k < 64 ensures TestBit(Oa(LeafEntry(oa, level, attrs)), k) == TestBit(oa, k) {
      LeafOaBit(oa, level, attrs, k);
    }
    BitsEqual64(Oa(LeafEntry(oa, level, attrs)), oa);
  }

  /** The same for the CONTIG form of the leaf. */
  lemma ContigLeafOaRoundTrip(oa: u64, level: nat, attrs: WriteAttrs)
    requires IsOa48(oa) && DescriptorBitsOk(attrs)
    ensures Oa(ContigLeaf(oa, level, attrs)) == oa
  {
    forall k | 0 <= k < 64 ensures TestBit(Oa(ContigLeaf(oa, level, attrs)), k) == TestBit(oa, k) {
      ContigLeafOaBit(oa, level, attrs, k);
    }
    BitsEqual64(Oa(ContigLeaf(oa, level, attrs)), oa);
  }

  // ---- contiguous runs -------------------------------------------------

  /** The OA increment between consecutive items: 2^isz in the OA field. */
  function ContigStep(level: nat): u64
    requires level <= MAX_TOP_LEVEL
  {
    Prep64(OA48_HI, OA48_LO, ToInt(TableItemLg2sz(level) - GRANULE_LG2SZ))
  }

  /** The word after k steps of `entry += step` (wrapping, as u64 addition does). */
  function Advance(entry: u64, step: u64, k: nat): u64
  {
    if k == 0 then entry else Add64(Advance(entry, step, k - 1), step)
  }

  /** The n words a contiguous install stores, starting from first. */
  function ContigRun(first: u64, step: u64, n: nat): (r: seq<u64>)
    ensures |r| == n
  {
    if n == 0 then [] else ContigRun(first, step, n - 1) + [Advance(first, step, n - 1)]
  }

  lemma {:induction false} ContigRunAt(first: u64, step: u64, n: nat, j: nat)
    requires j < n
    ensures ContigRun(first, step, n)[j] == Advance(first, step, j)
  {
    if j < n - 1 {
      ContigRunAt(first, step, n - 1, j);
    }
  }

  /**
   * pt_install_leaf_entry. A leaf of the item size fills one slot; a leaf of
   * 16 items (oasz = isz + 4, index aligned to 16) fills 16 consecutive
   * slots with CONTIG set, each word's OA one item above the previous. The
   * returned word is the new pts->entry; in the contiguous case it is the
   * incremented word one past the run.
   */
  method InstallLeafEntry(table: array<u64>, index: nat, level: nat, oa: u64, oaszLg2: nat, attrs: WriteAttrs)
    returns (entry: u64)
    requires table.Length == ITEMS_PER_TABLE && index < ITEMS_PER_TABLE && level <= MAX_TOP_LEVEL
    requires oaszLg2 <= 64 && Mod(oa, oaszLg2) == 0
    requires oaszLg2 != TableItemLg2sz(level) ==>
               oaszLg2 == TableItemLg2sz(level) + CONTIG_COUNT_LG2 && Mod(index, CONTIG_COUNT_LG2) == 0
    modifies table
    ensures oaszLg2 == TableItemLg2sz(level) ==>
              entry == LeafEntry(oa, level, attrs) &&
              table[..] == old(table[..])[index := LeafEntry(oa, level, attrs)]
    ensures oaszLg2 != TableItemLg2sz(level) ==>
              index + 16 <= ITEMS_PER_TABLE &&
              entry == Advance(ContigLeaf(oa, level, attrs), ContigStep(level), 16) &&
              table[..] == Spliced(old(table[..]), index, ContigRun(ContigLeaf(oa, level, attrs), ContigStep(level), 16))
  {
    var isz := TableItemLg2sz(level);
    entry := LeafEntry(oa, level, attrs);
    if oaszLg2 != isz {
      ContigIndexRoom(index);
      entry := Or64(entry, Bit64(CONTIG));
      entry := WriteContigRun(table, index, ContigStep(level), entry);
    } else {
      table[index] := entry;
    }
  }

  lemma ContigIndexRoom(index: nat)
    requires index < ITEMS_PER_TABLE && index < U64_LIMIT && Mod(index, CONTIG_COUNT_LG2) == 0
    ensures index + 16 <= ITEMS_PER_TABLE
  {
    ModDivAreRemainderQuotient(index, CONTIG_COUNT_LG2);
    ContigCountIs16();
  }

  /** The loop of a contiguous install: 16 words from first, each one step above the last. */
  method WriteContigRun(table: array<u64>, index: nat, step: u64, first: u64) returns (entry: u64)
    requires index + 16 <= table.Length
    modifies table
    ensures entry == Advance(first, step, 16)
    ensures table[..] == Spliced(old(table[..]), index, ContigRun(first, step, 16))
  {
    entry := first;
    var i := 0;
    ContigCountIs16();
    while i < ToInt(CONTIG_COUNT_LG2)
      invariant 0 <= i <= 16
      invariant entry == Advance(first, step, i)
      invariant forall j :: 0 <= j < table.Length ==>
                  table[j] == if index <= j < index + i then Advance(first, step, j - index) else old(table[j])
    {
      table[index + i] := entry;
      entry := Add64(entry, step);
      i := i + 1;
    }
    forall j | 0 <= j < 16 ensures ContigRun(first, step, 16)[j] == Advance(first, step, j) {
      ContigRunAt(first, step, 16, j);
    }
    SplicedFromElements(table[..], old(table[..]), index, ContigRun(first, step, 16));
  }

  /** A contiguous leaf's bits are those of its address and of the leaf for address 0, never both. */
  lemma ContigLeafSplitBit(x: u64, level: nat, attrs: WriteAttrs, k: nat)
    requires IsOa48(x) && DescriptorBitsOk(attrs)
    ensures TestBit(ContigLeaf(x, level, attrs), k) == TestBit(Or(x, ContigLeaf(0, level, attrs)), k)
    ensures !(TestBit(x, k) && TestBit(ContigLeaf(0, level, attrs), k))
    ensures k > PXN ==> !TestBit(ContigLeaf(0, level, attrs), k)
  {
    assert IsOa48(0) by { ZeroBit(0); }
    ContigLeafBit(x, level, attrs, k);
    ContigLeafBit(0, level, attrs, k);
    ZeroBit(k);
    OrBit(x, ContigLeaf(0, level, attrs), k);
    if TestBit(x, k) {
      Oa48Bit(x, k);
    }
  }

  /** A contiguous leaf is its address plus the leaf for address 0. */
  lemma ContigLeafIsSum(x: u64, level: nat, attrs: WriteAttrs)
    requires IsOa48(x) && DescriptorBitsOk(attrs)
    ensures ContigLeaf(x, level, attrs) == x + ContigLeaf(0, level, attrs)
  {
    var c0 := ContigLeaf(0, level, attrs);
    var e := ContigLeaf(x, level, attrs);
    forall k | 0 <= k < 64
      ensures TestBit(e, k) == (TestBit(x, k) || TestBit(c0, k))
      ensures !(TestBit(x, k) && TestBit(c0, k))
    {
      ContigLeafSplitBit(x, level, attrs, k);
      OrBit(x, c0, k);
    }
    DisjointSum(x, c0, e);
  }

  /** The leaf for address 0 has no bit above PXN. */
  lemma ContigLeafZeroBound(level: nat, attrs: WriteAttrs)
    requires DescriptorBitsOk(attrs)
    ensures ContigLeaf(0, level, attrs) < Pow2(PXN + 1)
  {
    var c0 := ContigLeaf(0, level, attrs);
    assert IsOa48(0) by { ZeroBit(0); }
    forall k | PXN + 1 <= k < 64 ensures !TestBit(c0, k) {
      ContigLeafSplitBit(0, level, attrs, k);
    }
    Pow2Words();
    BoundFromBits(c0, PXN + 1, 64);
  }

  /** The sizes the run arithmetic adds up stay far below 2^64. */
  lemma SumRoom()
    ensures Pow2(MAX_OUTPUT_ADDRESS_LG2) + Pow2(PXN + 1) < U64_LIMIT
  {
    Pow2Words();
    Pow2StrictMonotone(PXN + 1, 63);
    Pow2StrictMonotone(MAX_OUTPUT_ADDRESS_LG2, 63);
    Pow2Add(63, 1);
  }

  /** The items of a run at an aligned address are all addresses the OA field can hold. */
  lemma RunAddress(oa: u64, level: nat, k: nat)
    requires CanHaveLeaf(level) && k < 16
    requires oa < Pow2(MAX_OUTPUT_ADDRESS_LG2) && Mod(oa, TableItemLg2sz(level) + CONTIG_COUNT_LG2) == 0
    ensures IsOa48(ItemAddr(oa, TableItemLg2sz(level), k))
    ensures ItemAddr(oa, TableItemLg2sz(level), k) + Pow2(TableItemLg2sz(level)) <= Pow2(MAX_OUTPUT_ADDRESS_LG2)
  {
    ContigCountIs16();
    ItemAddrInRun(oa, TableItemLg2sz(level), CONTIG_COUNT_LG2, MAX_OUTPUT_ADDRESS_LG2, GRANULE_LG2SZ, k);
  }

  /** The run increment is one item's span, 2^isz. */
  lemma ContigStepIsItemSize(level: nat)
    requires CanHaveLeaf(level)
    ensures ContigStep(level) == Pow2(TableItemLg2sz(level))
  {
    var n := TableItemLg2sz(level) - GRANULE_LG2SZ;
    Pow2StrictMonotone(n, OA48_HI - OA48_LO + 1);
    FieldPrepOfSmall(OA48_HI, OA48_LO, ToInt(n));
    Pow2Add(n, GRANULE_LG2SZ);
  }

  /** Without wrap-around, k increments add k steps. */
  lemma {:induction false} AdvanceIsSum(entry: u64, step: u64, k: nat)
    requires entry + k * step < U64_LIMIT
    ensures Advance(entry, step, k) == entry + k * step
  {
    if k > 0 {
      MulMonotone(k - 1, k, step);
      AdvanceIsSum(entry, step, k - 1);
      MulDistrib(k - 1, 1, step);
      Add64NoWrap(Advance(entry, step, k - 1), step);
    }
  }

  /**
   * Word k of a contiguous run is the contiguous leaf for the k-th item's
   * address, oa + k * 2^isz.
   */
  lemma ContigRunWord(oa: u64, level: nat, attrs: WriteAttrs, k: nat)
    requires CanHaveLeaf(level) && DescriptorBitsOk(attrs) && k < 16
    requires oa < Pow2(MAX_OUTPUT_ADDRESS_LG2) && Mod(oa, TableItemLg2sz(level) + CONTIG_COUNT_LG2) == 0
    ensures ItemAddr(oa, TableItemLg2sz(level), k) < U64_LIMIT
    ensures Advance(ContigLeaf(oa, level, attrs), ContigStep(level), k) == ContigLeaf(ItemAddr(oa, TableItemLg2sz(level), k), level, attrs)
  {
    var p := Pow2(TableItemLg2sz(level));
    var x := ItemAddr(oa, TableItemLg2sz(level), k);
    RunAddress(oa, level, k);
    RunAddress(oa, level, 0);
    ItemAddrIsProduct(oa, TableItemLg2sz(level), k);
    SumRoom();
    ContigStepIsItemSize(level);
    ContigLeafIsSum(oa, level, attrs);
    ContigLeafIsSum(x, level, attrs);
    ContigLeafZeroBound(level, attrs);
    AdvanceIsSum(ContigLeaf(oa, level, attrs), ContigStep(level), k);
  }

  /**
   * Every word of a contiguous run is a contiguous OA entry whose address is
   * its own item's.
   */
  lemma ContigRunLoads(oa: u64, level: nat, attrs: WriteAttrs, k: nat)
    requires CanHaveLeaf(level) && DescriptorBitsOk(attrs) && k < 16
    requires oa < Pow2(MAX_OUTPUT_ADDRESS_LG2) && Mod(oa, TableItemLg2sz(level) + CONTIG_COUNT_LG2) == 0
    ensures |ContigRun(ContigLeaf(oa, level, attrs), ContigStep(level), 16)| == 16
    ensures var w := ContigRun(ContigLeaf(oa, level, attrs), ContigStep(level), 16)[k];
            LoadEntryRaw(w, level) == EntryType.Oa && EntryNumContigLg2(w) == CONTIG_COUNT_LG2 &&
            ItemOa(w) == ItemAddr(oa, TableItemLg2sz(level), k)
  {
    var x := ItemAddr(oa, TableItemLg2sz(level), k);
    ContigRunWord(oa, level, attrs, k);
    RunAddress(oa, level, k);
    ContigRunAt(ContigLeaf(oa, level, attrs), ContigStep(level), 16, k);
    ContigLeafLoadsAsOa(x, level, attrs);
    ContigLeafOaRoundTrip(x, level, attrs);
  }

  // ---- tables ----------------------------------------------------------

  /** The word install_table builds: VALID, TABLE, the table's address and, under the NS quirk, NSTABLE. */
  function TableEntry(tablePa: u64, features: Features): u64
  {
    var entry := Or64(Or64(Or64(Bit64(VALID), Bit64(TABLE)), Prep64(OA48_HI, OA48_LO, Div(tablePa, GRANULE_LG2SZ))),
                      Prep64(OA52_HI, OA52_LO, Shr(tablePa, 48)));
    if FEAT_ARMV8_NS in features then Or64(entry, Bit64(NSTABLE)) else entry
  }

  lemma TableEntryBit(pa: u64, features: Features, k: nat)
    requires IsOa48(pa)
    ensures TestBit(TableEntry(pa, features), k) ==
            (k == VALID || k == TABLE || TestBit(pa, k) || (k == NSTABLE && FEAT_ARMV8_NS in features))
  {
    var vt := Or(Bit64(VALID), Bit64(TABLE));
    var a := Prep64(OA48_HI, OA48_LO, Div(pa, GRANULE_LG2SZ));
    var b := Prep64(OA52_HI, OA52_LO, Shr(pa, 48));
    OaFieldsBit(pa, k);
    OrBit(a, b, k);
    OrBit(Bit64(VALID), Bit64(TABLE), k);
    OrBit(vt, a, k);
    OrBit(Or(vt, a), b, k);
    BitBit(VALID, k);
    BitBit(TABLE, k);
    BitBit(NSTABLE, k);
    OrBit(Or(Or(vt, a), b), Bit64(NSTABLE), k);
  }

  /** A table entry loads back as TABLE on every level above 0, with NSTABLE exactly under the NS feature. */
  lemma TableEntryLoads(pa: u64, features: Features, level: nat)
    requires IsOa48(pa) && level != 0
    ensures LoadEntryRaw(TableEntry(pa, features), level) == Table
    ensures TestBit(TableEntry(pa, features), NSTABLE) <==> FEAT_ARMV8_NS in features
  {
    TableEntryBit(pa, features, VALID);
    TableEntryBit(pa, features, TABLE);
    TableEntryBit(pa, features, NSTABLE);
    if TestBit(pa, NSTABLE) { Oa48Bit(pa, NSTABLE); }
  }

  /** pt_table_pa of a table entry is the address it was built from. */
  lemma TableEntryPa(pa: u64, features: Features)
    requires IsOa48(pa)
    ensures TablePa(TableEntry(pa, features)) == pa
  {
    var e := TableEntry(pa, features);
    forall k | 0 <= k < 64 ensures TestBit(TablePa(e), k) == TestBit(pa, k) {
      OaBit(e, k);
      TableEntryBit(pa, features, k);
      if TestBit(pa, k) { Oa48Bit(pa, k); }
    }
    BitsEqual64(TablePa(e), pa);
  }

  /**
   * pt_install_table: store the table entry only if the slot still holds
   * current, the word last loaded from it (pts->entry).
   */
  method InstallTable(table: array<u64>, index: nat, tablePa: u64, features: Features, current: u64)
    returns (installed: bool)
    requires table.Length == ITEMS_PER_TABLE && index < ITEMS_PER_TABLE
    modifies table
    ensures installed == (old(table[index]) == current)
    ensures table[..] == if installed then old(table[..])[index := TableEntry(tablePa, features)] else old(table[..])
  {
    installed := TableInstall(table, index, TableEntry(tablePa, features), current);
  }

  // ---- attributes ------------------------------------------------------

  /** The bits attr_from_entry keeps: SH, AF, UXN, PXN, AttrIndx, AP, nG, S2MemAttr and S2AP. */
  function AttrMask(): u64
  {
    Or64(Or64(Or64(Or64(Or64(Or64(Or64(Or64(Mask64(SH_HI, SH_LO), Bit64(AF)), Bit64(UXN)), Bit64(PXN)),
                             Mask64(ATTRINDX_HI, ATTRINDX_LO)), Mask64(AP_HI, AP_LO)), Bit64(NG)),
              Mask64(S2MEMATTR_HI, S2MEMATTR_LO)), Mask64(S2AP_HI, S2AP_LO))
  }

  /** The kept bits are 2..11, UXN and PXN. */
  lemma AttrMaskBit(k: nat)
    ensures TestBit(AttrMask(), k) == (2 <= k <= 11 || k == UXN || k == PXN)
  {
    GenMaskBit(SH_HI, SH_LO, k);
    GenMaskBit(ATTRINDX_HI, ATTRINDX_LO, k);
    GenMaskBit(AP_HI, AP_LO, k);
    GenMaskBit(S2MEMATTR_HI, S2MEMATTR_LO, k);
    GenMaskBit(S2AP_HI, S2AP_LO, k);
    BitBit(AF, k);
    BitBit(UXN, k);
    BitBit(PXN, k);
    BitBit(NG, k);
    var m1 := Or(Mask64(SH_HI, SH_LO), Bit64(AF));
    var m2 := Or(m1, Bit64(UXN));
    var m3 := Or(m2, Bit64(PXN));
    var m4 := Or(m3, Mask64(ATTRINDX_HI, ATTRINDX_LO));
    var m5 := Or(m4, Mask64(AP_HI, AP_LO));
    var m6 := Or(m5, Bit64(NG));
    var m7 := Or(m6, Mask64(S2MEMATTR_HI, S2MEMATTR_LO));
    OrBit(Mask64(SH_HI, SH_LO), Bit64(AF), k);
    OrBit(m1, Bit64(UXN), k);
    OrBit(m2, Bit64(PXN), k);
    OrBit(m3, Mask64(ATTRINDX_HI, ATTRINDX_LO), k);
    OrBit(m4, Mask64(AP_HI, AP_LO), k);
    OrBit(m5, Bit64(NG), k);
    OrBit(m6, Mask64(S2MEMATTR_HI, S2MEMATTR_LO), k);
    OrBit(m7, Mask64(S2AP_HI, S2AP_LO), k);
  }

  /** pt_attr_from_entry: the attribute bits of a loaded leaf. */
  function AttrFromEntry(entry: u64): WriteAttrs
  {
    WriteAttrs(And64(entry, AttrMask()))
  }

  lemma AttrFromLeafBit(oa: u64, level: nat, attrs: WriteAttrs, contig: bool, k: nat)
    requires IsOa48(oa) && DescriptorBitsOk(attrs)
    ensures TestBit(AttrFromEntry(if contig then ContigLeaf(oa, level, attrs) else LeafEntry(oa, level, attrs)).descriptorBits, k)
            == (TestBit(attrs.descriptorBits, k) && k != DBM)
  {
    var e := if contig then ContigLeaf(oa, level, attrs) else LeafEntry(oa, level, attrs);
    AndBit(e, AttrMask(), k);
    AttrMaskBit(k);
    LeafBit(oa, level, attrs, k);
    ContigLeafBit(oa, level, attrs, k);
    if TestBit(oa, k) { Oa48Bit(oa, k); }
  }

  /**
   * The attributes read back from an installed leaf (single or contiguous)
   * are those it was built with, except DBM, which attr_from_entry does not
   * copy.
   */
  lemma AttrFromLeaf(oa: u64, level: nat, attrs: WriteAttrs, contig: bool)
    requires IsOa48(oa) && DescriptorBitsOk(attrs) && !TestBit(attrs.descriptorBits, DBM)
    ensures AttrFromEntry(if contig then ContigLeaf(oa, level, attrs) else LeafEntry(oa, level, attrs)) == attrs
  {
    var r := AttrFromEntry(if contig then ContigLeaf(oa, level, attrs) else LeafEntry(oa, level, attrs));
    forall k | 0 <= k < 64 ensures TestBit(r.descriptorBits, k) == TestBit(attrs.descriptorBits, k) {
      AttrFromLeafBit(oa, level, attrs, contig, k);
    }
    BitsEqual64(r.descriptorBits, attrs.descriptorBits);
  }

  // ---- set_prot --------------------------------------------------------

  /** The stage 1 part of iommu_set_prot: AP, nG and the MAIR index. */
  function ProtS1(prot: Prot): u64
  {
    var ap := Or(if !prot.write && prot.read then AP_RDONLY else 0, if !prot.priv then AP_UNPRIV else 0);
    var pte := Or64(Bit64(NG), Prep64(AP_HI, AP_LO, ap));
    if prot.mmio then Or64(pte, Prep64(ATTRINDX_HI, ATTRINDX_LO, MAIR_ATTR_IDX_DEV))
    else if prot.cache then Or64(pte, Prep64(ATTRINDX_HI, ATTRINDX_LO, MAIR_ATTR_IDX_CACHE))
    else pte
  }

  /** The S2MemAttr value stage 2 requests: device, FWB write-back, cached or non-cacheable. */
  function S2MemAttr(features: Features, prot: Prot): nat
  {
    if prot.mmio then MEMATTR_DEV
    else if prot.cache && FEAT_ARMV8_S2FWB in features then MEMATTR_FWB_WB
    else if prot.cache then MEMATTR_OIWB
    else MEMATTR_NC
  }

  /** The stage 2 part of iommu_set_prot: S2AP and the memory attributes. */
  function ProtS2(features: Features, prot: Prot): u64
  {
    var s2ap := Or(if prot.read then S2AP_READ else 0, if prot.write then S2AP_WRITE else 0);
    Or64(Prep64(S2AP_HI, S2AP_LO, s2ap), Prep64(S2MEMATTR_HI, S2MEMATTR_LO, S2MemAttr(features, prot)))
  }

  /**
   * armv8pt_iommu_set_prot: the descriptor bits for an IOMMU protection
   * request. The C function always returns 0; its result is the attrs it
   * fills in.
   */
  function SetProt(features: Features, prot: Prot): WriteAttrs
  {
    WriteAttrs(ProtCommon(features, prot, if FEAT_ARMV8_S2 !in features then ProtS1(prot) else ProtS2(features, prot)))
  }

  /** The bits iommu_set_prot adds for either stage: DBM, SH, UXN/PXN, NS and AF. */
  function ProtCommon(features: Features, prot: Prot, pte0: u64): u64
  {
    var pte1 := OrIf(FEAT_ARMV8_DBM in features && prot.write, pte0, Bit64(DBM));
    var pte2 := Or64(pte1, Prep64(SH_HI, SH_LO, if prot.cache then SH_IS else SH_OS));
    var pte3 := OrIf(prot.noexec, pte2, Or64(Bit64(UXN), Bit64(PXN)));
    var pte4 := OrIf(FEAT_ARMV8_NS in features, pte3, Bit64(NS));
    Or64(pte4, Bit64(AF))
  }

  /**
   * The stage 1 descriptor bits by meaning: AP[2] (bit 7, read-only) for
   * read without write, AP[1] (bit 6, EL0 access) without PRIV, nG (bit 11)
   * always, AttrIndx (bits 4..2) 2 for device memory under MMIO, else 1 for
   * cached memory under CACHE.
   */
  predicate S1ProtBit(prot: Prot, k: nat)
  {
    (k == 7 && prot.read && !prot.write) || (k == 6 && !prot.priv) || k == 11 ||
    (k == 3 && prot.mmio) || (k == 2 && !prot.mmio && prot.cache)
  }

  /**
   * The stage 2 descriptor bits by meaning: S2AP[0] (bit 6) read, S2AP[1]
   * (bit 7) write, and MemAttr (bits 5..2) 0b0001 device under MMIO, else
   * 0b0110 write-back under CACHE with FWB, 0b1111 inner and outer
   * write-back under CACHE, 0b0101 non-cacheable otherwise.
   */
  predicate S2ProtBit(features: Features, prot: Prot, k: nat)
  {
    var fwb := FEAT_ARMV8_S2FWB in features;
    (k == 6 && prot.read) || (k == 7 && prot.write) ||
    (k == 2 && (prot.mmio || !prot.cache || !fwb)) ||
    (k == 3 && !prot.mmio && prot.cache) ||
    (k == 4 && !prot.mmio) ||
    (k == 5 && !prot.mmio && prot.cache && !fwb)
  }

  /**
   * Every bit iommu_set_prot sets: the stage's own bits, DBM for a writable
   * mapping under the DBM feature, SH (bits 9..8) 3 (inner shareable) for
   * CACHE and 2 (outer) otherwise, UXN and PXN for NOEXEC, NS under the NS
   * quirk, and AF always.
   */
  predicate ProtBit(features: Features, prot: Prot, k: nat)
  {
    (if FEAT_ARMV8_S2 !in features then S1ProtBit(prot, k) else S2ProtBit(features, prot, k)) ||
    CommonProtBit(features, prot, k)
  }

  // The field values set_prot uses, as the single bits they set.

  lemma ApBit(rdonly: bool, unpriv: bool, k: nat)
    ensures TestBit(Prep64(AP_HI, AP_LO, Or(if rdonly then AP_RDONLY else 0, if unpriv then AP_UNPRIV else 0)), k) ==
            ((rdonly && k == 7) || (unpriv && k == 6))
  {
    var x, y := if rdonly then AP_RDONLY else 0, if unpriv then AP_UNPRIV else 0;
    FieldPrepBit(AP_HI, AP_LO, Or(x, y), k);
    if AP_LO <= k {
      OrBit(x, y, k - AP_LO);
      NibbleBit(x, k - AP_LO);
      NibbleBit(y, k - AP_LO);
    }
  }

  lemma S2apBit(read: bool, write: bool, k: nat)
    ensures TestBit(Prep64(S2AP_HI, S2AP_LO, Or(if read then S2AP_READ else 0, if write then S2AP_WRITE else 0)), k) ==
            ((write && k == 7) || (read && k == 6))
  {
    var x, y := if read then S2AP_READ else 0, if write then S2AP_WRITE else 0;
    FieldPrepBit(S2AP_HI, S2AP_LO, Or(x, y), k);
    if S2AP_LO <= k {
      OrBit(x, y, k - S2AP_LO);
      NibbleBit(x, k - S2AP_LO);
      NibbleBit(y, k - S2AP_LO);
    }
  }

  /** SH is 3 (inner shareable) for cached mappings and 2 (outer shareable) otherwise. */
  lemma ShBit(cache: bool, k: nat)
    ensures TestBit(Prep64(SH_HI, SH_LO, if cache then SH_IS else SH_OS), k) == (k == 9 || (cache && k == 8))
  {
    PrepNibbleBit(SH_HI, SH_LO, if cache then SH_IS else SH_OS, k);
  }

  lemma TwoBits(a: nat, b: nat, k: nat)
    ensures TestBit(Or(Bit(a), Bit(b)), k) == (k == a || k == b)
  {
    OrBit(Bit(a), Bit(b), k);
    BitBit(a, k);
    BitBit(b, k);
  }

  lemma MemAttrBit(features: Features, prot: Prot, k: nat)
    ensures TestBit(Prep64(S2MEMATTR_HI, S2MEMATTR_LO, S2MemAttr(features, prot)), k) ==
            var fwb := FEAT_ARMV8_S2FWB in features;
            (k == 2 && (prot.mmio || !prot.cache || !fwb)) || (k == 3 && !prot.mmio && prot.cache) ||
            (k == 4 && !prot.mmio) || (k == 5 && !prot.mmio && prot.cache && !fwb)
  {
    if prot.mmio {
      PrepNibbleBit(S2MEMATTR_HI, S2MEMATTR_LO, MEMATTR_DEV, k);
    } else if prot.cache && FEAT_ARMV8_S2FWB in features {
      PrepNibbleBit(S2MEMATTR_HI, S2MEMATTR_LO, MEMATTR_FWB_WB, k);
    } else if prot.cache {
      PrepNibbleBit(S2MEMATTR_HI, S2MEMATTR_LO, MEMATTR_OIWB, k);
    } else {
      PrepNibbleBit(S2MEMATTR_HI, S2MEMATTR_LO, MEMATTR_NC, k);
    }
  }

  lemma ProtS1Bit(prot: Prot, k: nat)
    ensures TestBit(ProtS1(prot), k) == S1ProtBit(prot, k)
  {
    var ap := Or(if !prot.write && prot.read then AP_RDONLY else 0, if !prot.priv then AP_UNPRIV else 0);
    var pte := Or64(Bit64(NG), Prep64(AP_HI, AP_LO, ap));
    ApBit(!prot.write && prot.read, !prot.priv, k);
    BitBit(NG, k);
    OrBit(Bit64(NG), Prep64(AP_HI, AP_LO, ap), k);
    PrepNibbleBit(ATTRINDX_HI, ATTRINDX_LO, MAIR_ATTR_IDX_DEV, k);
    PrepNibbleBit(ATTRINDX_HI, ATTRINDX_LO, MAIR_ATTR_IDX_CACHE, k);
    OrBit(pte, Prep64(ATTRINDX_HI, ATTRINDX_LO, MAIR_ATTR_IDX_DEV), k);
    OrBit(pte, Prep64(ATTRINDX_HI, ATTRINDX_LO, MAIR_ATTR_IDX_CACHE), k);
  }

  lemma ProtS2Bit(features: Features, prot: Prot, k: nat)
    ensures TestBit(ProtS2(features, prot), k) == S2ProtBit(features, prot, k)
  {
    var s2ap := Or(if prot.read then S2AP_READ else 0, if prot.write then S2AP_WRITE else 0);
    S2apBit(prot.read, prot.write, k);
    MemAttrBit(features, prot, k);
    OrBit(Prep64(S2AP_HI, S2AP_LO, s2ap), Prep64(S2MEMATTR_HI, S2MEMATTR_LO, S2MemAttr(features, prot)), k);
  }

  /** The bits common to both stages, by meaning. */
  predicate CommonProtBit(features: Features, prot: Prot, k: nat)
  {
    (k == DBM && FEAT_ARMV8_DBM in features && prot.write) ||
    k == 9 || (k == 8 && prot.cache) ||
    ((k == UXN || k == PXN) && prot.noexec) ||
    (k == NS && FEAT_ARMV8_NS in features) ||
    k == AF
  }

  /** The first two steps shared by both stages: DBM and SH. */
  lemma ProtCommonHeadBit(features: Features, prot: Prot, pte0: u64, k: nat)
    ensures TestBit(Or64(OrIf(FEAT_ARMV8_DBM in features && prot.write, pte0, Bit64(DBM)),
                         Prep64(SH_HI, SH_LO, if prot.cache then SH_IS else SH_OS)), k) ==
            (TestBit(pte0, k) || (k == DBM && FEAT_ARMV8_DBM in features && prot.write) || k == 9 || (k == 8 && prot.cache))
  {
    var pte1 := OrIf(FEAT_ARMV8_DBM in features && prot.write, pte0, Bit64(DBM));
    OrIfBit(FEAT_ARMV8_DBM in features && prot.write, pte0, Bit64(DBM), k);
    BitBit(DBM, k);
    ShBit(prot.cache, k);
    OrBit(pte1, Prep64(SH_HI, SH_LO, if prot.cache then SH_IS else SH_OS), k);
  }

  /** The last three steps: UXN and PXN, NS, AF. */
  lemma ProtCommonTailBit(features: Features, prot: Prot, pte2: u64, k: nat)
    ensures TestBit(Or64(OrIf(FEAT_ARMV8_NS in features, OrIf(prot.noexec, pte2, Or64(Bit64(UXN), Bit64(PXN))), Bit64(NS)),
                         Bit64(AF)), k) ==
            (TestBit(pte2, k) || ((k == UXN || k == PXN) && prot.noexec) || (k == NS && FEAT_ARMV8_NS in features) || k == AF)
  {
    var pte3 := OrIf(prot.noexec, pte2, Or64(Bit64(UXN), Bit64(PXN)));
    var pte4 := OrIf(FEAT_ARMV8_NS in features, pte3, Bit64(NS));
    OrIfBit(prot.noexec, pte2, Or64(Bit64(UXN), Bit64(PXN)), k);
    TwoBits(UXN, PXN, k);
    OrIfBit(FEAT_ARMV8_NS in features, pte3, Bit64(NS), k);
    BitBit(NS, k);
    OrBit(pte4, Bit64(AF), k);
    BitBit(AF, k);
  }

  lemma ProtCommonBit(features: Features, prot: Prot, pte0: u64, k: nat)
    ensures TestBit(ProtCommon(features, prot, pte0), k) == (TestBit(pte0, k) || CommonProtBit(features, prot, k))
  {
    var pte2 := Or64(OrIf(FEAT_ARMV8_DBM in features && prot.write, pte0, Bit64(DBM)),
                     Prep64(SH_HI, SH_LO, if prot.cache then SH_IS else SH_OS));
    ProtCommonHeadBit(features, prot, pte0, k);
    ProtCommonTailBit(features, prot, pte2, k);
  }

  /** iommu_set_prot sets exactly the bits ProtBit describes. */
  lemma SetProtBit(features: Features, prot: Prot, k: nat)
    ensures TestBit(SetProt(features, prot).descriptorBits, k) == ProtBit(features, prot, k)
  {
    var pte0 := if FEAT_ARMV8_S2 !in features then ProtS1(prot) else ProtS2(features, prot);
    ProtCommonBit(features, prot, pte0, k);
    if FEAT_ARMV8_S2 !in features {
      ProtS1Bit(prot, k);
    } else {
      ProtS2Bit(features, prot, k);
    }
  }

  /** Every bit iommu_set_prot can produce is an attribute bit a leaf may carry. */
  lemma SetProtAttrsOk(features: Features, prot: Prot)
    ensures DescriptorBitsOk(SetProt(features, prot))
  {
    forall k | TestBit(SetProt(features, prot).descriptorBits, k) ensures IsAttrBit(k) {
      SetProtBit(features, prot, k);
      ProtBitIsAttrBit(features, prot, k);
    }
  }

  lemma ProtBitIsAttrBit(features: Features, prot: Prot, k: nat)
    requires ProtBit(features, prot, k)
    ensures IsAttrBit(k)
  {
  }

  // ---- dirty tracking --------------------------------------------------

  /** The stage 1 read-only bit, FIELD_PREP(AP, RDONLY). */
  function ApRdonly(): u64
  {
    Prep64(AP_HI, AP_LO, AP_RDONLY)
  }

  /** The stage 2 write permission bit, FIELD_PREP(S2AP, WRITE). */
  function S2apWrite(): u64
  {
    Prep64(S2AP_HI, S2AP_LO, S2AP_WRITE)
  }

  lemma PermBits(k: nat)
    ensures TestBit(ApRdonly(), k) == (k == 7)
    ensures TestBit(S2apWrite(), k) == (k == 7)
  {
    PrepNibbleBit(AP_HI, AP_LO, AP_RDONLY, k);
    PrepNibbleBit(S2AP_HI, S2AP_LO, S2AP_WRITE, k);
  }

  /** armv8pt_check_is_dirty_s1: DBM set and the entry not (yet) made read-only. */
  predicate IsDirtyS1(entry: u64)
  {
    And64(entry, Or64(Bit64(DBM), ApRdonly())) == Bit64(DBM)
  }

  /** armv8pt_check_is_dirty_s2: DBM and the write permission both set. */
  predicate IsDirtyS2(entry: u64)
  {
    And64(entry, Or64(Bit64(DBM), S2apWrite())) == Or64(Bit64(DBM), S2apWrite())
  }

  /** armv6pt_clear_dirty_s1: make the item read-only again. */
  function ClearDirtyS1(entry: u64): u64
  {
    Or64(entry, ApRdonly())
  }

  /** armv6pt_clear_dirty_s2: drop the write permission. */
  function ClearDirtyS2(entry: u64): u64
  {
    Pow2Words();
    And64(entry, Not(S2apWrite(), 64))
  }

  lemma DirtyMaskBit(entry: u64, perm: u64, k: nat)
    requires forall j :: TestBit(perm, j) == (j == 7)
    ensures TestBit(And64(entry, Or64(Bit64(DBM), perm)), k) == (TestBit(entry, k) && (k == DBM || k == 7))
    ensures TestBit(Or64(Bit64(DBM), perm), k) == (k == DBM || k == 7)
  {
    AndBit(entry, Or64(Bit64(DBM), perm), k);
    OrBit(Bit64(DBM), perm, k);
    BitBit(DBM, k);
  }

  /** The stage 1 dirty test, bit by bit. */
  lemma IsDirtyS1Iff(entry: u64)
    ensures IsDirtyS1(entry) <==> TestBit(entry, DBM) && !TestBit(entry, 7)
  {
    var a := And64(entry, Or64(Bit64(DBM), ApRdonly()));
    forall j ensures TestBit(ApRdonly(), j) == (j == 7) {
      PermBits(j);
    }
    forall k | 0 <= k < 64 ensures TestBit(a, k) == (TestBit(entry, k) && (k == DBM || k == 7)) {
      DirtyMaskBit(entry, ApRdonly(), k);
    }
    BitBit(DBM, DBM);
    BitBit(DBM, 7);
    if TestBit(entry, DBM) && !TestBit(entry, 7) {
      forall k | 0 <= k < 64 ensures TestBit(a, k) == TestBit(Bit64(DBM), k) {
        BitBit(DBM, k);
      }
      BitsEqual64(a, Bit64(DBM));
    }
  }

  /** The stage 2 dirty test, bit by bit. */
  lemma IsDirtyS2Iff(entry: u64)
    ensures IsDirtyS2(entry) <==> TestBit(entry, DBM) && TestBit(entry, 7)
  {
    var m := Or64(Bit64(DBM), S2apWrite());
    var a := And64(entry, m);
    forall j ensures TestBit(S2apWrite(), j) == (j == 7) {
      PermBits(j);
    }
    forall k | 0 <= k < 64 ensures TestBit(a, k) == (TestBit(entry, k) && (k == DBM || k == 7)) &&
                                   TestBit(m, k) == (k == DBM || k == 7) {
      DirtyMaskBit(entry, S2apWrite(), k);
    }
    if TestBit(entry, DBM) && TestBit(entry, 7) {
      BitsEqual64(a, m);
    }
  }

  /** Clearing changes bit 7 only: stage 1 sets it, stage 2 clears it. */
  lemma ClearDirtyBit(entry: u64, k: nat)
    ensures TestBit(ClearDirtyS1(entry), k) == (k == 7 || TestBit(entry, k))
    ensures TestBit(ClearDirtyS2(entry), k) == (k != 7 && TestBit(entry, k))
  {
    Pow2Words();
    PermBits(k);
    OrBit(entry, ApRdonly(), k);
    AndBit(entry, Not(S2apWrite(), 64), k);
    NotBit(S2apWrite(), 64, k);
    if k >= 64 {
      HighBitClear(entry, 64, k);
    }
  }

  /**
   * What the dirty test of the table's stage means for one item: DBM set,
   * and the item still read-only free (stage 1) or writable (stage 2).
   */
  predicate ItemIsDirty(features: Features, entry: u64)
  {
    TestBit(entry, DBM) && (if FEAT_ARMV8_S2 !in features then !TestBit(entry, 7) else TestBit(entry, 7))
  }

  /** The check_is_dirty function of the table's stage, applied to one item. */
  method CheckIsDirty(features: Features, entry: u64) returns (dirty: bool)
    ensures dirty == ItemIsDirty(features, entry)
  {
    if FEAT_ARMV8_S2 !in features {
      IsDirtyS1Iff(entry);
      dirty := IsDirtyS1(entry);
    } else {
      IsDirtyS2Iff(entry);
      dirty := IsDirtyS2(entry);
    }
  }

  /** The clear function of the table's stage on one item. */
  function ItemClean(features: Features, entry: u64): u64
  {
    if FEAT_ARMV8_S2 !in features then ClearDirtyS1(entry) else ClearDirtyS2(entry)
  }

  /** A cleaned item is not dirty, and only its bit 7 changed. */
  lemma ItemCleanSpec(features: Features, entry: u64)
    ensures !ItemIsDirty(features, ItemClean(features, entry))
    ensures forall k | k != 7 :: TestBit(ItemClean(features, entry), k) == TestBit(entry, k)
  {
    forall k | k != 7 ensures TestBit(ItemClean(features, entry), k) == TestBit(entry, k) {
      ClearDirtyBit(entry, k);
    }
    ClearDirtyBit(entry, 7);
  }

  /** The first slot of the 16-slot run that holds index: log2_set_mod(index, 0, 4). */
  function ContigStart(index: nat): nat
    requires index < ITEMS_PER_TABLE
  {
    Pow2Words();
    SetMod(index, 0, CONTIG_COUNT_LG2)
  }

  lemma ContigStartBounds(index: nat)
    requires index < ITEMS_PER_TABLE
    ensures ContigStart(index) <= index < ContigStart(index) + 16 <= ITEMS_PER_TABLE
    ensures ContigStart(index) % 16 == 0
  {
    Pow2Words();
    var s := SetMod(index, 0, CONTIG_COUNT_LG2);
    SetModSpec(index, 0, CONTIG_COUNT_LG2);
    ModDivAreRemainderQuotient(index, CONTIG_COUNT_LG2);
    ModDivAreRemainderQuotient(s, CONTIG_COUNT_LG2);
    ContigCountIs16();
  }

  /**
   * pt_entry_write_is_dirty through reduce_contig: an entry with CONTIG set
   * is dirty when any of the 16 slots of its run is, read from the table;
   * any other entry is judged on pts->entry alone.
   */
  predicate WriteIsDirty(features: Features, table: seq<u64>, index: nat, entry: u64)
    requires |table| == ITEMS_PER_TABLE && index < ITEMS_PER_TABLE
  {
    if TestBit(entry, CONTIG) then AnyDirty(features, table, ContigStart(index), 16)
    else ItemIsDirty(features, entry)
  }

  /** Some slot among the n from start is dirty. */
  predicate AnyDirty(features: Features, table: seq<u64>, start: nat, n: nat)
  {
    n > 0 && start + n <= |table| &&
    (AnyDirty(features, table, start, n - 1) || ItemIsDirty(features, table[start + n - 1]))
  }

  lemma {:induction false} AnyDirtyIff(features: Features, table: seq<u64>, start: nat, n: nat)
    requires start + n <= |table|
    ensures AnyDirty(features, table, start, n) <==> exists j :: start <= j < start + n && ItemIsDirty(features, table[j])
  {
    if n > 0 {
      AnyDirtyIff(features, table, start, n - 1);
    }
  }

  /**
   * pt_entry_set_write_clean through reduce_contig: every slot of a CONTIG
   * run is cleaned in place; otherwise pts->entry, cleaned, is written to
   * the slot.
   */
  function SetWriteClean(features: Features, table: seq<u64>, index: nat, entry: u64): (r: seq<u64>)
    requires |table| == ITEMS_PER_TABLE && index < ITEMS_PER_TABLE
    ensures |r| == |table|
  {
    if TestBit(entry, CONTIG) then
      CleanRun(features, table, ContigStart(index), 16)
    else
      table[index := ItemClean(features, entry)]
  }

  /** The table with the n slots from start cleaned. */
  function CleanRun(features: Features, table: seq<u64>, start: nat, n: nat): (r: seq<u64>)
    ensures |r| == |table|
  {
    if n == 0 || start + n > |table| then table
    else CleanRun(features, table, start, n - 1)[start + n - 1 := ItemClean(features, table[start + n - 1])]
  }

  lemma {:induction false} CleanRunAt(features: Features, table: seq<u64>, start: nat, n: nat, j: nat)
    requires start + n <= |table| && j < |table|
    ensures CleanRun(features, table, start, n)[j] ==
            if start <= j < start + n then ItemClean(features, table[j]) else table[j]
  {
    if n > 0 {
      CleanRunAt(features, table, start, n - 1, j);
    }
  }

  /** reduce_contig with check_is_dirty: stop at the first dirty slot of the run. */
  method EntryWriteIsDirty(table: array<u64>, index: nat, entry: u64, features: Features) returns (dirty: bool)
    requires table.Length == ITEMS_PER_TABLE && index < ITEMS_PER_TABLE
    ensures dirty == WriteIsDirty(features, table[..], index, entry)
  {
    if TestBit(entry, CONTIG) {
      ContigStartBounds(index);
      var start := ContigStart(index);
      var i := start;
      ContigCountIs16();
      while i < start + ToInt(CONTIG_COUNT_LG2)
        invariant start <= i <= start + 16
        invariant !AnyDirty(features, table[..], start, i - start)
      {
        var d := CheckIsDirty(features, table[i]);
        if d {
          assert table[..][i] == table[i];
          AnyDirtyMonotone(features, table[..], start, i - start + 1, 16);
          return true;
        }
        i := i + 1;
      }
      return false;
    }
    dirty := CheckIsDirty(features, entry);
  }

  lemma {:induction false} AnyDirtyMonotone(features: Features, table: seq<u64>, start: nat, m: nat, n: nat)
    requires m <= n && start + n <= |table| && AnyDirty(features, table, start, m)
    ensures AnyDirty(features, table, start, n)
    decreases n
  {
    if m < n {
      AnyDirtyMonotone(features, table, start, m, n - 1);
    }
  }

  /** reduce_contig with clear_dirty: clean every slot of the run, or the one slot. */
  method EntrySetWriteClean(table: array<u64>, index: nat, entry: u64, features: Features)
    requires table.Length == ITEMS_PER_TABLE && index < ITEMS_PER_TABLE
    modifies table
    ensures table[..] == SetWriteClean(features, old(table[..]), index, entry)
  {
    if TestBit(entry, CONTIG) {
      ContigStartBounds(index);
      var start := ContigStart(index);
      var i := start;
      ContigCountIs16();
      while i < start + ToInt(CONTIG_COUNT_LG2)
        invariant start <= i <= start + 16
        invariant forall j :: 0 <= j < table.Length ==>
                    table[j] == if start <= j < i then ItemClean(features, old(table[j])) else old(table[j])
      {
        table[i] := ItemClean(features, table[i]);
        i := i + 1;
      }
      forall j | 0 <= j < table.Length
        ensures table[..][j] == CleanRun(features, old(table[..]), start, 16)[j]
      {
        CleanRunAt(features, old(table[..]), start, 16, j);
      }
    } else {
      table[index] := ItemClean(features, entry);
    }
  }

  /**
   * After set_write_clean the entry, reloaded from its slot, is no longer
   * dirty, and every slot differs from before in bit 7 at most.
   */
  lemma CleanedNotDirty(features: Features, table: seq<u64>, index: nat)
    requires |table| == ITEMS_PER_TABLE && index < ITEMS_PER_TABLE
    ensures var t := SetWriteClean(features, table, index, table[index]);
            !WriteIsDirty(features, t, index, t[index])
  {
    var t := SetWriteClean(features, table, index, table[index]);
    ContigStartBounds(index);
    var start := ContigStart(index);
    if TestBit(table[index], CONTIG) {
      forall j | 0 <= j < |table| ensures t[j] == if start <= j < start + 16 then ItemClean(features, table[j]) else table[j] {
        CleanRunAt(features, table, start, 16, j);
      }
      ItemCleanSpec(features, table[index]);
      forall j | start <= j < start + 16 ensures !ItemIsDirty(features, t[j]) {
        ItemCleanSpec(features, table[j]);
      }
      AnyDirtyIff(features, t, start, 16);
    } else {
      ItemCleanSpec(features, table[index]);
    }
  }

  /** set_write_clean touches bit 7 of the visited slots and nothing else. */
  lemma CleanChangesOnlyBit7(features: Features, table: seq<u64>, index: nat, entry: u64, j: nat, k: nat)
    requires |table| == ITEMS_PER_TABLE && index < ITEMS_PER_TABLE && j < ITEMS_PER_TABLE && k != 7
    requires entry == table[index]
    ensures TestBit(SetWriteClean(features, table, index, entry)[j], k) == TestBit(table[j], k)
  {
    ContigStartBounds(index);
    if TestBit(entry, CONTIG) {
      CleanRunAt(features, table, ContigStart(index), 16, j);
    }
    ItemCleanSpec(features, table[j]);
  }

  // ---- configuration ---------------------------------------------------

  /** DIV_ROUND_UP(n, d) */
  function DivRoundUp(n: nat, d: nat): nat
    requires d > 0
  {
    (n + d - 1) / d
  }

  /**
   * The decisions of armv8pt_iommu_fmt_init for a VA size: the error it
   * returns, or the top level it sets. The number of levels is the number
   * of 9-bit steps above the 4K page needed to cover vasz; at stage 2 a top
   * level of at most 16 entries is folded into concatenated tables one
   * level down.
   */
  function InitTopLevel(features: Features, vaszLg2: nat): Result<nat>
  {
    if FEAT_ARMV8_DBM in features && FEAT_DMA_INCOHERENT in features then Err(EOPNOTSUPP)
    else if FEAT_ARMV8_NS in features && FEAT_ARMV8_S2 in features then Err(EOPNOTSUPP)
    else if vaszLg2 <= GRANULE_LG2SZ then Err(EINVAL)
    else
      var levels := DivRoundUp(vaszLg2 - GRANULE_LG2SZ, GRANULE_LG2SZ - ENTRY_WORD_LG2SZ);
      if levels > MAX_TOP_LEVEL + 1 then Err(EINVAL)
      else if FEAT_ARMV8_S2 in features && levels == 1 then Err(EINVAL)
      else
        var folded := FEAT_ARMV8_S2 in features && levels > 1 &&
                      vaszLg2 - (GRANULE_LG2SZ + (TABLEMEM_LG2SZ - ENTRY_WORD_LG2SZ) * (levels - 1)) <= 4;
        Ok(if folded then levels - 2 else levels - 1)
  }

  /** The OA limit fmt_init stores once the VA size has passed its first check. */
  function InitMaxOaszLg2(oaszLg2: nat): nat
  {
    if oaszLg2 < 58 then oaszLg2 else 58
  }

  /** fmt_init fails exactly on the feature conflicts and on VA sizes outside 13..48 (22..48 at stage 2). */
  lemma InitTopLevelErrors(features: Features, vaszLg2: nat)
    ensures InitTopLevel(features, vaszLg2).Err? <==>
            (FEAT_ARMV8_DBM in features && FEAT_DMA_INCOHERENT in features) ||
            (FEAT_ARMV8_NS in features && FEAT_ARMV8_S2 in features) ||
            vaszLg2 <= 12 || vaszLg2 > 48 || (FEAT_ARMV8_S2 in features && vaszLg2 <= 21)
    ensures InitTopLevel(features, vaszLg2) == Err(EOPNOTSUPP) <==>
            (FEAT_ARMV8_DBM in features && FEAT_DMA_INCOHERENT in features) ||
            (FEAT_ARMV8_NS in features && FEAT_ARMV8_S2 in features)
  {
  }

  /**
   * The chosen top level covers the VA size: at stage 1 the top table spans
   * at least vasz and one level less would not; at stage 2 the top table,
   * with up to 16 concatenated tables, spans vasz and has more than 16
   * entries.
   */
  lemma InitTopLevelCovers(features: Features, vaszLg2: nat)
    requires InitTopLevel(features, vaszLg2).Ok?
    ensures var top := InitTopLevel(features, vaszLg2).value;
            top <= MAX_TOP_LEVEL &&
            if FEAT_ARMV8_S2 !in features then
              TableItemLg2sz(top) < vaszLg2 <= TableItemLg2sz(top) + 9
            else
              TableItemLg2sz(top) + 4 < vaszLg2 <= TableItemLg2sz(top) + 13
  {
  }

  /** A 48-bit VA space uses all four levels (the kunit configurations). */
  lemma InitTopLevel48(features: Features)
    requires !(FEAT_ARMV8_DBM in features && FEAT_DMA_INCOHERENT in features)
    requires !(FEAT_ARMV8_NS in features && FEAT_ARMV8_S2 in features)
    ensures InitTopLevel(features, 48) == Ok(3)
  {
  }

  /**
   * armv8pt_iommu_fmt_init on the table's common part: max_oasz_lg2 is
   * capped once the VA size is above the granule (even when a later check
   * fails), and on success the top level is set.
   */
  method FmtInit(common: Common, vaszLg2: nat, oaszLg2: nat) returns (status: Status)
    modifies common
    ensures status == if InitTopLevel(old(common.features), vaszLg2).Ok? then Success
                      else Failure(InitTopLevel(old(common.features), vaszLg2).err)
    ensures common.features == old(common.features) && common.maxVaszLg2 == old(common.maxVaszLg2)
    ensures common.maxOaszLg2 ==
            if InitTopLevel(common.features, vaszLg2) == Err(EOPNOTSUPP) || vaszLg2 <= GRANULE_LG2SZ
            then old(common.maxOaszLg2) else InitMaxOaszLg2(oaszLg2)
    ensures status.Success? ==>
              common.TopLevel() == InitTopLevel(common.features, vaszLg2).value && common.TopTable() == old(common.TopTable())
    ensures status.Failure? ==> common.topOfTable == old(common.topOfTable)
  {
    var features := common.features;
    if FEAT_ARMV8_DBM in features && FEAT_DMA_INCOHERENT in features {
      return Failure(EOPNOTSUPP);
    }
    if FEAT_ARMV8_NS in features && FEAT_ARMV8_S2 in features {
      return Failure(EOPNOTSUPP);
    }
    if vaszLg2 <= GRANULE_LG2SZ {
      return Failure(EINVAL);
    }
    common.maxOaszLg2 := InitMaxOaszLg2(oaszLg2);
    var levels := DivRoundUp(vaszLg2 - GRANULE_LG2SZ, GRANULE_LG2SZ - ENTRY_WORD_LG2SZ);
    if levels > MAX_TOP_LEVEL + 1 {
      return Failure(EINVAL);
    }
    if FEAT_ARMV8_S2 in features && levels == 1 {
      return Failure(EINVAL);
    }
    if FEAT_ARMV8_S2 in features && levels > 1 {
      var topszLg2 := vaszLg2 - (GRANULE_LG2SZ + (TABLEMEM_LG2SZ - ENTRY_WORD_LG2SZ) * (levels - 1));
      if topszLg2 <= 4 {
        levels := levels - 1;
      }
    }
    assert levels >= 1;
    Pow2Is256();
    common.TopSetLevel(levels - 1);
    return Success;
  }
}
