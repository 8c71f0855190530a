// The Apple DART page table, v1 and v2 layouts on 64-bit entries. Level 0
// holds the pages, level 1 the tables of level 0, and level 2 is the
// optional table of up to four TTBRs. The granule, and so the size of every
// table, is the smallest page size the IOMMU offers.

module PtDart {
  import opened Bits
  import opened PtLog2
  import opened Bitfield
  import opened PtDefs
  import opened Errno

  const ENTRY_WORD_LG2SZ: nat := 3
  const MAX_TOP_LEVEL: nat := 2
  const NUM_TTBRS_LG2: nat := 2
  const MAX_VA_ADDRESS_LG2: nat := 44

  // Bits common to both layouts, as bit numbers and GENMASK(HI, LO) fields.
  const VALID: nat := 0
  const SUBPAGE_START_HI: nat := 63
  const SUBPAGE_START_LO: nat := 52
  const SUBPAGE_END_HI: nat := 51
  const SUBPAGE_END_LO: nat := 40

  // The v1 layout.
  const FMT1_SP_DIS: nat := 1
  const FMT1_NO_WRITE: nat := 7
  const FMT1_NO_READ: nat := 8
  const FMT1_OA_HI: nat := 35
  const FMT1_OA_LO: nat := 12

  // The v2 layout.
  const FMT2_NO_CACHE: nat := 1
  const FMT2_NO_WRITE: nat := 2
  const FMT2_NO_READ: nat := 3
  const FMT2_OA_HI: nat := 37
  const FMT2_OA_LO: nat := 10

  /** The subpage end written into every leaf: the whole page is accessible. */
  const SUBPAGE_ALL: nat := 0xfff

  datatype WriteAttrs = WriteAttrs(descriptorBits: u64)

  predicate IsV2(features: Features)
  {
    FEAT_DART_V2 in features
  }

  // ---- output addresses ------------------------------------------------

  function OaHi(features: Features): nat
  {
    if IsV2(features) then FMT2_OA_HI else FMT1_OA_HI
  }

  function OaLo(features: Features): nat
  {
    if IsV2(features) then FMT2_OA_LO else FMT1_OA_LO
  }

  /** The OA field holds the address in units of 16K on v2 and 4K on v1. */
  function OaShift(features: Features): nat
  {
    if IsV2(features) then 14 else 12
  }

  /** pt_max_output_address_lg2: the width of the OA field plus its unit. */
  function MaxOutputAddressLg2(features: Features): nat
  {
    (OaHi(features) - OaLo(features) + 1) + OaShift(features)
  }

  /** The raw OA field of an entry. */
  function OaField(features: Features, entry: u64): u64
  {
    FieldGetBound(OaHi(features), OaLo(features), entry);
    Pow2Monotone(OaHi(features) - OaLo(features) + 1, 64);
    Pow2Words();
    FieldGet(OaHi(features), OaLo(features), entry)
  }

  lemma OaFieldBit(features: Features, entry: u64, j: nat)
    ensures TestBit(OaField(features, entry), j) ==
            (j <= OaHi(features) - OaLo(features) && TestBit(entry, j + OaLo(features)))
  {
    FieldGetBit(OaHi(features), OaLo(features), entry, j);
  }

  /** dartpt_oa: the OA field scaled back to a byte address. */
  function FieldOa(features: Features, entry: u64): u64
  {
    Mul(OaField(features, entry), OaShift(features))
  }

  /** dartpt_make_oa: the address in OA-field units, placed in the field. */
  function MakeOa(features: Features, oa: u64): u64
  {
    Prep64(OaHi(features), OaLo(features), Div(oa, OaShift(features)))
  }

  /** pt_table_pa and pt_entry_oa both read the OA field. */
  function TablePa(features: Features, entry: u64): u64
  {
    FieldOa(features, entry)
  }

  function EntryOa(features: Features, entry: u64): u64
  {
    FieldOa(features, entry)
  }

  /** Field bit k of the encoding holds address bit k - lo + shift. */
  lemma MakeOaBit(features: Features, oa: u64, k: nat)
    ensures TestBit(MakeOa(features, oa), k) ==
            (OaLo(features) <= k <= OaHi(features) && TestBit(oa, k - OaLo(features) + OaShift(features)))
  {
    FieldPrepBit(OaHi(features), OaLo(features), Div(oa, OaShift(features)), k);
    if k >= OaLo(features) {
      ShrBit(oa, OaShift(features), k - OaLo(features));
    }
  }

  /**
   * An entry whose OA field carries the field bits of oa decodes to oa,
   * when oa has no bits outside the field's reach.
   */
  lemma OaOfBits(features: Features, entry: u64, oa: u64)
    requires BitsWithin(oa, OaShift(features), MaxOutputAddressLg2(features))
    requires forall k :: OaLo(features) <= k <= OaHi(features) ==>
               TestBit(entry, k) == TestBit(oa, k - OaLo(features) + OaShift(features))
    ensures FieldOa(features, entry) == oa
  {
    var sh := OaShift(features);
    forall k: nat | k < 64 ensures TestBit(FieldOa(features, entry), k) == TestBit(oa, k) {
      MulBit(OaField(features, entry), sh, k);
      if k >= sh {
        OaFieldBit(features, entry, k - sh);
      }
    }
    BitsEqual64(FieldOa(features, entry), oa);
  }

  /**
   * The OA codec round trip: an address aligned to the OA unit and below
   * 2^max_output_address_lg2 survives make_oa followed by oa. The maximum
   * is 36 bits on v1 and 42 bits on v2.
   */
  lemma MakeOaRoundTrip(features: Features, oa: u64)
    requires oa % Pow2(OaShift(features)) == 0 && oa < Pow2(MaxOutputAddressLg2(features))
    ensures FieldOa(features, MakeOa(features, oa)) == oa
    ensures MaxOutputAddressLg2(features) == if IsV2(features) then 42 else 36
  {
    BitsWithinOfAligned(oa, OaShift(features), MaxOutputAddressLg2(features));
    forall k | OaLo(features) <= k <= OaHi(features)
      ensures TestBit(MakeOa(features, oa), k) == TestBit(oa, k - OaLo(features) + OaShift(features))
    {
      MakeOaBit(features, oa, k);
    }
    OaOfBits(features, MakeOa(features, oa), oa);
  }

  /**
   * Every decoded address is a multiple of the OA unit below
   * 2^max_output_address_lg2: the codec reaches exactly the addresses the
   * round trip accepts.
   */
  lemma OaBounds(features: Features, entry: u64)
    ensures FieldOa(features, entry) % Pow2(OaShift(features)) == 0
    ensures FieldOa(features, entry) < Pow2(MaxOutputAddressLg2(features))
  {
    var sh := OaShift(features);
    var x := FieldOa(features, entry);
    forall k: nat | k < 64 && !(sh <= k < MaxOutputAddressLg2(features)) ensures !TestBit(x, k) {
      MulBit(OaField(features, entry), sh, k);
      if k >= sh {
        OaFieldBit(features, entry, k - sh);
      }
    }
    AlignedOfBitsWithin(x, sh, MaxOutputAddressLg2(features));
  }

  // ---- geometry --------------------------------------------------------

  /** pt_table_item_lg2sz: granule + (granule - 3) level, in unsigned int. */
  function TableItemLg2sz(granuleLg2sz: nat, level: nat): nat
  {
    U32(granuleLg2sz + U32(granuleLg2sz - ENTRY_WORD_LG2SZ) * level)
  }

  /** pt_num_items_lg2: a table is one granule of 8-byte words. */
  function NumItemsLg2(granuleLg2sz: nat): nat
  {
    U32(granuleLg2sz - ENTRY_WORD_LG2SZ)
  }

  /** pt_can_have_leaf: only level 0 holds pages. */
  predicate CanHaveLeaf(level: nat)
  {
    level == 0
  }

  /**
   * For the granules fmt_init can choose, a table of one granule holds
   * 2^(granule - 3) words, each level's item spans a whole table of the
   * level below, and level 0 items are granules.
   */
  lemma Geometry(granuleLg2sz: nat, level: nat)
    requires ENTRY_WORD_LG2SZ <= granuleLg2sz <= 14 && level <= MAX_TOP_LEVEL
    ensures NumItemsLg2(granuleLg2sz) + ENTRY_WORD_LG2SZ == granuleLg2sz
    ensures TableItemLg2sz(granuleLg2sz, 0) == granuleLg2sz
    ensures TableItemLg2sz(granuleLg2sz, level + 1) == TableItemLg2sz(granuleLg2sz, level) + NumItemsLg2(granuleLg2sz)
    ensures granuleLg2sz == 12 ==> TableItemLg2sz(granuleLg2sz, 2) == 30
    ensures granuleLg2sz == 14 ==> TableItemLg2sz(granuleLg2sz, 2) == 36
  {
    var n := granuleLg2sz - ENTRY_WORD_LG2SZ;
    U32Small(n);
    U32Small(granuleLg2sz + n * level);
    U32Small(granuleLg2sz + n * (level + 1));
    U32Small(granuleLg2sz + n * 2);
    U32Small(granuleLg2sz);
  }


  // ---- classification ----------------------------------------------------

  /** pt_load_entry_raw: VALID clear is empty, level 0 holds pages, above are tables. */
  function LoadEntryRaw(entry: u64, level: nat): EntryType
  {
    if !TestBit(entry, VALID) then Empty
    else if level == 0 then Oa
    else Table
  }

  // ---- leaves ----------------------------------------------------------

  /** The protection bits of the layout. */
  predicate IsAttrBit(features: Features, k: nat)
  {
    if IsV2(features) then k == FMT2_NO_CACHE || k == FMT2_NO_WRITE || k == FMT2_NO_READ
    else k == FMT1_SP_DIS || k == FMT1_NO_WRITE || k == FMT1_NO_READ
  }

  /** Attributes made by set_prot hold only protection bits. */
  ghost predicate DescriptorBitsOk(features: Features, attrs: WriteAttrs)
  {
    forall k :: TestBit(attrs.descriptorBits, k) ==> IsAttrBit(features, k)
  }

  /** SUBPAGE_START = 0 | SUBPAGE_END = 0xfff */
  function SubpageBits(): u64
  {
    Or64(Prep64(SUBPAGE_START_HI, SUBPAGE_START_LO, 0), Prep64(SUBPAGE_END_HI, SUBPAGE_END_LO, SUBPAGE_ALL))
  }

  lemma SubpageAllIsMax()
    ensures SUBPAGE_ALL == Pow2(12) - 1
  {
    Pow2Is256();
    assert Pow2(4) == 16;
    Pow2Add(8, 4);
  }

  lemma SubpageBitsBit(k: nat)
    ensures TestBit(SubpageBits(), k) == (SUBPAGE_END_LO <= k <= SUBPAGE_END_HI)
  {
    SubpageStartPrepBit(k);
    SubpageEndPrepBit(k);
    OrBit(Prep64(SUBPAGE_START_HI, SUBPAGE_START_LO, 0), Prep64(SUBPAGE_END_HI, SUBPAGE_END_LO, SUBPAGE_ALL), k);
  }

  lemma SubpageStartPrepBit(k: nat)
    ensures !TestBit(Prep64(SUBPAGE_START_HI, SUBPAGE_START_LO, 0), k)
  {
    FieldPrepBit(SUBPAGE_START_HI, SUBPAGE_START_LO, 0, k);
    if k >= SUBPAGE_START_LO {
      ZeroBit(k - SUBPAGE_START_LO);
    }
  }

  lemma SubpageEndPrepBit(k: nat)
    ensures TestBit(Prep64(SUBPAGE_END_HI, SUBPAGE_END_LO, SUBPAGE_ALL), k) == (SUBPAGE_END_LO <= k <= SUBPAGE_END_HI)
  {
    SubpageAllIsMax();
    FullFieldBit(SUBPAGE_END_HI, SUBPAGE_END_LO, k);
  }

  /** A field filled with ones sets exactly its own bits. */
  lemma FullFieldBit(hi: nat, lo: nat, k: nat)
    requires lo <= hi < 64
    ensures TestBit(Prep64(hi, lo, Pow2(hi - lo + 1) - 1), k) == (lo <= k <= hi)
  {
    FieldPrepBit(hi, lo, Pow2(hi - lo + 1) - 1, k);
    if lo <= k {
      MaxBit(hi - lo + 1, k - lo);
    }
  }

  /** The leaf word install_leaf_entry stores: VALID | OA | attributes | the subpage range. */
  function LeafEntry(features: Features, oa: u64, attrs: WriteAttrs): u64
  {
    Or64(Or64(Or64(Bit64(VALID), MakeOa(features, oa)), attrs.descriptorBits), SubpageBits())
  }

  lemma LeafEntryBit(features: Features, oa: u64, attrs: WriteAttrs, k: nat)
    ensures TestBit(LeafEntry(features, oa, attrs), k) ==
            (k == VALID || TestBit(MakeOa(features, oa), k) || TestBit(attrs.descriptorBits, k) ||
             SUBPAGE_END_LO <= k <= SUBPAGE_END_HI)
  {
    BitBit(VALID, k);
    SubpageBitsBit(k);
    OrBit(Bit64(VALID), MakeOa(features, oa), k);
    OrBit(Or(Bit64(VALID), MakeOa(features, oa)), attrs.descriptorBits, k);
    OrBit(Or64(Or64(Bit64(VALID), MakeOa(features, oa)), attrs.descriptorBits), SubpageBits(), k);
  }

  /** The subpage fields of an entry. */
  function SubpageStart(entry: u64): nat
  {
    FieldGet(SUBPAGE_START_HI, SUBPAGE_START_LO, entry)
  }

  function SubpageEnd(entry: u64): nat
  {
    FieldGet(SUBPAGE_END_HI, SUBPAGE_END_LO, entry)
  }

  /**
   * pt_install_leaf_entry: store the leaf in the one slot at index. DART
   * has no contiguous leaves, so oasz_lg2 plays no part and no other slot
   * changes.
   */
  method InstallLeafEntry(table: array<u64>, index: nat, features: Features, oa: u64, oaszLg2: nat, attrs: WriteAttrs)
    returns (entry: u64)
    requires index < table.Length
    modifies table
    ensures entry == LeafEntry(features, oa, attrs)
    ensures table[..] == old(table[..])[index := entry]
  {
    entry := LeafEntry(features, oa, attrs);
    table[index] := entry;
  }

  /**
   * A leaf for an OA-unit-aligned address below the maximum, with
   * protection-only attributes, loads at level 0 as an OA entry for that
   * address with the same attributes and the whole page open to subpage
   * access.
   */
  lemma LeafRoundTrip(features: Features, oa: u64, attrs: WriteAttrs)
    requires oa % Pow2(OaShift(features)) == 0 && oa < Pow2(MaxOutputAddressLg2(features))
    requires DescriptorBitsOk(features, attrs)
    ensures LoadEntryRaw(LeafEntry(features, oa, attrs), 0) == Oa
    ensures EntryOa(features, LeafEntry(features, oa, attrs)) == oa
    ensures AttrFromEntry(features, LeafEntry(features, oa, attrs)) == attrs
    ensures SubpageStart(LeafEntry(features, oa, attrs)) == 0
    ensures SubpageEnd(LeafEntry(features, oa, attrs)) == SUBPAGE_ALL
  {
    var e := LeafEntry(features, oa, attrs);
    BitsWithinOfAligned(oa, OaShift(features), MaxOutputAddressLg2(features));
    LeafEntryBit(features, oa, attrs, VALID);
    forall k | OaLo(features) <= k <= OaHi(features)
      ensures TestBit(e, k) == TestBit(oa, k - OaLo(features) + OaShift(features))
    {
      LeafEntryBit(features, oa, attrs, k);
      MakeOaBit(features, oa, k);
    }
    OaOfBits(features, e, oa);
    LeafAttrsReadBack(features, oa, attrs);
    LeafSubpageReadsBack(features, oa, attrs);
  }

  lemma LeafAttrsReadBack(features: Features, oa: u64, attrs: WriteAttrs)
    requires DescriptorBitsOk(features, attrs)
    ensures AttrFromEntry(features, LeafEntry(features, oa, attrs)) == attrs
  {
    var e := LeafEntry(features, oa, attrs);
    forall k | 0 <= k < 64 ensures TestBit(AttrFromEntry(features, e).descriptorBits, k) == TestBit(attrs.descriptorBits, k) {
      AttrFromEntryBit(features, e, k);
      LeafEntryBit(features, oa, attrs, k);
      MakeOaBit(features, oa, k);
    }
    BitsEqual64(AttrFromEntry(features, e).descriptorBits, attrs.descriptorBits);
  }

  lemma LeafSubpageReadsBack(features: Features, oa: u64, attrs: WriteAttrs)
    requires DescriptorBitsOk(features, attrs)
    ensures SubpageStart(LeafEntry(features, oa, attrs)) == 0
    ensures SubpageEnd(LeafEntry(features, oa, attrs)) == SUBPAGE_ALL
  {
    var e := LeafEntry(features, oa, attrs);
    forall k | SUBPAGE_END_LO <= k <= SUBPAGE_END_HI ensures TestBit(e, k) {
      LeafEntryBit(features, oa, attrs, k);
    }
    forall k | SUBPAGE_START_LO <= k <= SUBPAGE_START_HI ensures !TestBit(e, k) {
      LeafEntryBit(features, oa, attrs, k);
      MakeOaBit(features, oa, k);
    }
    SubpageReadsBack(e);
  }

  /** In a 64-bit word with bits 40..51 set, SUBPAGE_END reads 0xfff and SUBPAGE_START 0. */
  lemma SubpageReadsBack(e: u64)
    requires forall k :: SUBPAGE_END_LO <= k <= SUBPAGE_END_HI ==> TestBit(e, k)
    requires forall k :: SUBPAGE_START_LO <= k <= SUBPAGE_START_HI ==> !TestBit(e, k)
    ensures SubpageStart(e) == 0 && SubpageEnd(e) == SUBPAGE_ALL
  {
    SubpageAllIsMax();
    FieldGetBound(SUBPAGE_START_HI, SUBPAGE_START_LO, e);
    FieldGetBound(SUBPAGE_END_HI, SUBPAGE_END_LO, e);
    forall j | 0 <= j < 12 ensures TestBit(SubpageStart(e), j) == TestBit(0, j) {
      FieldGetBit(SUBPAGE_START_HI, SUBPAGE_START_LO, e, j);
      ZeroBit(j);
    }
    BitsEqual(SubpageStart(e), 0, 12);
    forall j | 0 <= j < 12 ensures TestBit(SubpageEnd(e), j) == TestBit(SUBPAGE_ALL, j) {
      FieldGetBit(SUBPAGE_END_HI, SUBPAGE_END_LO, e, j);
      MaxBit(12, j);
    }
    BitsEqual(SubpageEnd(e), SUBPAGE_ALL, 12);
  }

  // ---- tables ----------------------------------------------------------

  /** A table entry is VALID with the table's address in the OA field. */
  function TableEntry(features: Features, tablePa: u64): u64
  {
    Or64(Bit64(VALID), MakeOa(features, tablePa))
  }

  /**
   * A table entry for an OA-unit-aligned table below the maximum loads
   * above level 0 as a table pointing at that table.
   */
  lemma TableEntryRoundTrip(features: Features, pa: u64, level: nat)
    requires 1 <= level
    requires pa % Pow2(OaShift(features)) == 0 && pa < Pow2(MaxOutputAddressLg2(features))
    ensures LoadEntryRaw(TableEntry(features, pa), level) == Table
    ensures TablePa(features, TableEntry(features, pa)) == pa
  {
    var e := TableEntry(features, pa);
    BitsWithinOfAligned(pa, OaShift(features), MaxOutputAddressLg2(features));
    BitBit(VALID, VALID);
    OrBit(Bit64(VALID), MakeOa(features, pa), VALID);
    forall k | OaLo(features) <= k <= OaHi(features)
      ensures TestBit(e, k) == TestBit(pa, k - OaLo(features) + OaShift(features))
    {
      BitBit(VALID, k);
      OrBit(Bit64(VALID), MakeOa(features, pa), k);
      MakeOaBit(features, pa, k);
    }
    OaOfBits(features, e, pa);
  }

  /** pt_install_table: compare-and-set of the table entry against pts->entry. */
  method InstallTable(table: array<u64>, index: nat, features: Features, tablePa: u64, current: u64)
    returns (installed: bool)
    requires index < table.Length
    modifies table
    ensures installed == (old(table[index]) == current)
    ensures table[..] == if installed then old(table[..])[index := TableEntry(features, tablePa)] else old(table[..])
  {
    installed := TableInstall(table, index, TableEntry(features, tablePa), current);
  }

  // ---- attributes ------------------------------------------------------

  /** The protection bits of the layout as a mask. */
  function AttrMask(features: Features): u64
  {
    if IsV2(features) then Or64(Or64(Bit64(FMT2_NO_CACHE), Bit64(FMT2_NO_WRITE)), Bit64(FMT2_NO_READ))
    else Or64(Or64(Bit64(FMT1_SP_DIS), Bit64(FMT1_NO_WRITE)), Bit64(FMT1_NO_READ))
  }

  /** pt_attr_from_entry: the protection bits of the entry. */
  function AttrFromEntry(features: Features, entry: u64): WriteAttrs
  {
    WriteAttrs(And64(entry, AttrMask(features)))
  }

  lemma AttrFromEntryBit(features: Features, entry: u64, k: nat)
    ensures TestBit(AttrFromEntry(features, entry).descriptorBits, k) == (IsAttrBit(features, k) && TestBit(entry, k))
  {
    AndBit(entry, AttrMask(features), k);
    if IsV2(features) {
      BitBit(FMT2_NO_CACHE, k);
      BitBit(FMT2_NO_WRITE, k);
      BitBit(FMT2_NO_READ, k);
      OrBit(Bit64(FMT2_NO_CACHE), Bit64(FMT2_NO_WRITE), k);
      OrBit(Or(Bit64(FMT2_NO_CACHE), Bit64(FMT2_NO_WRITE)), Bit64(FMT2_NO_READ), k);
    } else {
      BitBit(FMT1_SP_DIS, k);
      BitBit(FMT1_NO_WRITE, k);
      BitBit(FMT1_NO_READ, k);
      OrBit(Bit64(FMT1_SP_DIS), Bit64(FMT1_NO_WRITE), k);
      OrBit(Or(Bit64(FMT1_SP_DIS), Bit64(FMT1_NO_WRITE)), Bit64(FMT1_NO_READ), k);
    }
  }

  /**
   * pt_iommu_set_prot. v2: NO_WRITE without WRITE, NO_READ without READ,
   * NO_CACHE without CACHE and then NO_CACHE regardless. v1: NO_WRITE
   * without WRITE, NO_READ without READ, and always SP_DIS.
   */
  function SetProt(features: Features, prot: Prot): WriteAttrs
  {
    if IsV2(features) then
      var pte := OrIf(!prot.write, 0, Bit64(FMT2_NO_WRITE));
      var pte := OrIf(!prot.read, pte, Bit64(FMT2_NO_READ));
      var pte := OrIf(!prot.cache, pte, Bit64(FMT2_NO_CACHE));
      WriteAttrs(Or64(pte, Bit64(FMT2_NO_CACHE)))
    else
      var pte := OrIf(!prot.write, 0, Bit64(FMT1_NO_WRITE));
      var pte := OrIf(!prot.read, pte, Bit64(FMT1_NO_READ));
      WriteAttrs(Or64(pte, Bit64(FMT1_SP_DIS)))
  }

  function NoReadBit(features: Features): nat
  {
    if IsV2(features) then FMT2_NO_READ else FMT1_NO_READ
  }

  function NoWriteBit(features: Features): nat
  {
    if IsV2(features) then FMT2_NO_WRITE else FMT1_NO_WRITE
  }

  /** The bits set_prot produces, one by one. */
  predicate ProtBit(features: Features, prot: Prot, k: nat)
  {
    if IsV2(features) then k == FMT2_NO_CACHE || (k == FMT2_NO_WRITE && !prot.write) || (k == FMT2_NO_READ && !prot.read)
    else k == FMT1_SP_DIS || (k == FMT1_NO_WRITE && !prot.write) || (k == FMT1_NO_READ && !prot.read)
  }

  lemma SetProtBit(features: Features, prot: Prot, k: nat)
    ensures TestBit(SetProt(features, prot).descriptorBits, k) == ProtBit(features, prot, k)
  {
    ZeroBit(k);
    if IsV2(features) {
      var p1 := OrIf(!prot.write, 0, Bit64(FMT2_NO_WRITE));
      var p2 := OrIf(!prot.read, p1, Bit64(FMT2_NO_READ));
      var p3 := OrIf(!prot.cache, p2, Bit64(FMT2_NO_CACHE));
      BitBit(FMT2_NO_WRITE, k);
      BitBit(FMT2_NO_READ, k);
      BitBit(FMT2_NO_CACHE, k);
      OrIfBit(!prot.write, 0, Bit64(FMT2_NO_WRITE), k);
      OrIfBit(!prot.read, p1, Bit64(FMT2_NO_READ), k);
      OrIfBit(!prot.cache, p2, Bit64(FMT2_NO_CACHE), k);
      OrBit(p3, Bit64(FMT2_NO_CACHE), k);
    } else {
      var p1 := OrIf(!prot.write, 0, Bit64(FMT1_NO_WRITE));
      var p2 := OrIf(!prot.read, p1, Bit64(FMT1_NO_READ));
      BitBit(FMT1_NO_WRITE, k);
      BitBit(FMT1_NO_READ, k);
      BitBit(FMT1_SP_DIS, k);
      OrIfBit(!prot.write, 0, Bit64(FMT1_NO_WRITE), k);
      OrIfBit(!prot.read, p1, Bit64(FMT1_NO_READ), k);
      OrBit(p2, Bit64(FMT1_SP_DIS), k);
    }
  }

  lemma SetProtAttrsOk(features: Features, prot: Prot)
    ensures DescriptorBitsOk(features, SetProt(features, prot))
  {
    forall k | TestBit(SetProt(features, prot).descriptorBits, k) ensures IsAttrBit(features, k) {
      SetProtBit(features, prot, k);
    }
  }

  /**
   * A leaf installed with set_prot's attributes reads back as an OA entry
   * at oa whose NO_READ bit is set exactly without READ and NO_WRITE
   * exactly without WRITE; bit 1 (SP_DIS on v1, NO_CACHE on v2) is always
   * set, whatever CACHE says.
   */
  lemma InstalledLeafReadsBack(features: Features, prot: Prot, oa: u64)
    requires oa % Pow2(OaShift(features)) == 0 && oa < Pow2(MaxOutputAddressLg2(features))
    ensures LoadEntryRaw(LeafEntry(features, oa, SetProt(features, prot)), 0) == Oa
    ensures EntryOa(features, LeafEntry(features, oa, SetProt(features, prot))) == oa
    ensures TestBit(LeafEntry(features, oa, SetProt(features, prot)), NoReadBit(features)) <==> !prot.read
    ensures TestBit(LeafEntry(features, oa, SetProt(features, prot)), NoWriteBit(features)) <==> !prot.write
    ensures TestBit(LeafEntry(features, oa, SetProt(features, prot)), 1)
  {
    var attrs := SetProt(features, prot);
    var e := LeafEntry(features, oa, attrs);
    SetProtAttrsOk(features, prot);
    LeafRoundTrip(features, oa, attrs);
    var nr := NoReadBit(features);
    var nw := NoWriteBit(features);
    AttrFromEntryBit(features, e, nr);
    AttrFromEntryBit(features, e, nw);
    AttrFromEntryBit(features, e, 1);
    SetProtBit(features, prot, nr);
    SetProtBit(features, prot, nw);
    SetProtBit(features, prot, 1);
  }

  // ---- configuration -----------------------------------------------------

  /** The v2 OA needs a 16K page: v2 drops the page sizes below 16K. */
  function InitPgsizeBitmap(features: Features, pgsizeBitmap: u64): u64
  {
    if IsV2(features) then SetMod(pgsizeBitmap, 0, 14) else pgsizeBitmap
  }

  /**
   * The first half of fmt_init: -EOPNOTSUPP unless the OA size is 36 or 42
   * bits, the VA fits in it and a 4K or 16K page is offered; otherwise the
   * granule is the smallest offered page size.
   */
  function InitGranule(features: Features, vaszLg2: nat, oaszLg2: nat, pgsizeBitmap: u64): Result<nat>
  {
    var bitmap := InitPgsizeBitmap(features, pgsizeBitmap);
    if (oaszLg2 != 36 && oaszLg2 != 42) || vaszLg2 > oaszLg2 || (!TestBit(bitmap, 12) && !TestBit(bitmap, 14)) then
      Err(EOPNOTSUPP)
    else
      FfsAtMost(bitmap, if TestBit(bitmap, 12) then 12 else 14);
      Ok(Ffs(bitmap))
  }

  /**
   * The second half: one TTBR, top level 1, when the first two levels cover
   * the VA; otherwise the TTBR table at level 2 with at most four entries.
   */
  function InitTopLevel(granuleLg2sz: nat, vaszLg2: nat): Result<nat>
  {
    var l2VaLg2sz := TableItemLg2sz(granuleLg2sz, 2);
    if vaszLg2 <= l2VaLg2sz then Ok(1)
    else if vaszLg2 - l2VaLg2sz > NUM_TTBRS_LG2 then Err(EOPNOTSUPP)
    else Ok(2)
  }

  /**
   * fmt_init accepts exactly the OA sizes 36 and 42 with a VA no larger
   * and a 4K or 16K page offered. On v2 the granule is then always 16K; on
   * v1 it is the smallest offered size, at most 4K when 4K is offered and
   * at most 16K otherwise.
   */
  lemma InitGranuleSpec(features: Features, vaszLg2: nat, oaszLg2: nat, pgsizeBitmap: u64)
    ensures InitGranule(features, vaszLg2, oaszLg2, pgsizeBitmap).Ok? <==>
            (oaszLg2 == 36 || oaszLg2 == 42) && vaszLg2 <= oaszLg2 &&
            (if IsV2(features) then TestBit(pgsizeBitmap, 14)
             else TestBit(pgsizeBitmap, 12) || TestBit(pgsizeBitmap, 14))
    ensures InitGranule(features, vaszLg2, oaszLg2, pgsizeBitmap).Ok? && IsV2(features) ==>
            InitGranule(features, vaszLg2, oaszLg2, pgsizeBitmap).value == 14
    ensures InitGranule(features, vaszLg2, oaszLg2, pgsizeBitmap).Ok? && !IsV2(features) ==>
            pgsizeBitmap != 0 && InitGranule(features, vaszLg2, oaszLg2, pgsizeBitmap).value == Ffs(pgsizeBitmap) &&
            InitGranule(features, vaszLg2, oaszLg2, pgsizeBitmap).value <= (if TestBit(pgsizeBitmap, 12) then 12 else 14)
  {
    if IsV2(features) {
      var b := InitPgsizeBitmap(features, pgsizeBitmap);
      Pow2Words();
      SetModBits(pgsizeBitmap, 0, 14, 12);
      SetModBits(pgsizeBitmap, 0, 14, 14);
      ZeroBit(12);
      if TestBit(pgsizeBitmap, 14) {
        forall j | 0 <= j < 14 ensures !TestBit(b, j) {
          SetModBits(pgsizeBitmap, 0, 14, j);
          ZeroBit(j);
        }
        FfsAt(b, 14);
      }
    } else if TestBit(pgsizeBitmap, 12) {
      FfsAtMost(pgsizeBitmap, 12);
    } else if TestBit(pgsizeBitmap, 14) {
      FfsAtMost(pgsizeBitmap, 14);
    }
  }

  /**
   * For a granule of at least one word, the chosen top level covers the
   * VA: level 1 when two levels span it, level 2 when the TTBR table adds
   * at most two bits, and -EOPNOTSUPP exactly when four TTBRs are not
   * enough.
   */
  lemma InitTopLevelCovers(granuleLg2sz: nat, vaszLg2: nat)
    requires ENTRY_WORD_LG2SZ <= granuleLg2sz <= 14
    ensures InitTopLevel(granuleLg2sz, vaszLg2).Err? <==>
            vaszLg2 > TableItemLg2sz(granuleLg2sz, 2) + NUM_TTBRS_LG2
    ensures InitTopLevel(granuleLg2sz, vaszLg2) == Ok(1) <==>
            vaszLg2 <= TableItemLg2sz(granuleLg2sz, 1) + NumItemsLg2(granuleLg2sz)
    ensures InitTopLevel(granuleLg2sz, vaszLg2).Ok? ==>
            InitTopLevel(granuleLg2sz, vaszLg2).value <= MAX_TOP_LEVEL &&
            vaszLg2 <= TableItemLg2sz(granuleLg2sz, InitTopLevel(granuleLg2sz, vaszLg2).value) +
                       (if InitTopLevel(granuleLg2sz, vaszLg2).value == 1 then NumItemsLg2(granuleLg2sz) else NUM_TTBRS_LG2)
  {
    Geometry(granuleLg2sz, 1);
  }

  /** The v1 self-test configuration: 4K pages, a 36-bit OA and a 30-bit VA on one TTBR. */
  lemma TestConfigurationV1()
    ensures InitGranule({}, 30, 36, Bit64(12)) == Ok(12) && InitTopLevel(12, 30) == Ok(1)
  {
    BitBit(12, 12);
    forall j | 0 <= j < 12 ensures !TestBit(Bit64(12), j) {
      BitBit(12, j);
    }
    FfsAt(Bit64(12), 12);
    Geometry(12, 1);
  }

  /** The v2 self-test configuration: 16K pages, a 42-bit OA and a 36-bit VA on one TTBR. */
  lemma TestConfigurationV2()
    ensures InitGranule({FEAT_DART_V2}, 36, 42, Bit64(14)) == Ok(14) && InitTopLevel(14, 36) == Ok(1)
  {
    BitBit(14, 14);
    InitGranuleSpec({FEAT_DART_V2}, 36, 42, Bit64(14));
    Geometry(14, 1);
  }

  /** pt_dart: the common table state and the granule fmt_init chose. */
  class Dart {
    const common: Common
    var granuleLg2sz: nat

    constructor (common: Common)
      ensures this.common == common && granuleLg2sz == 0
    {
      this.common := common;
      granuleLg2sz := 0;
    }

    /**
     * pt_iommu_fmt_init. A rejected configuration changes nothing; once
     * the granule is chosen it and max_vasz_lg2 are stored even when the
     * VA then needs more than four TTBRs.
     */
    method FmtInit(vaszLg2: nat, oaszLg2: nat, pgsizeBitmap: u64) returns (status: Status)
      modifies this, common
      ensures InitGranule(common.features, vaszLg2, oaszLg2, pgsizeBitmap).Err? ==>
                status == Failure(EOPNOTSUPP) && granuleLg2sz == old(granuleLg2sz) &&
                common.maxVaszLg2 == old(common.maxVaszLg2) && common.topOfTable == old(common.topOfTable)
      ensures InitGranule(common.features, vaszLg2, oaszLg2, pgsizeBitmap).Ok? ==>
                granuleLg2sz == InitGranule(common.features, vaszLg2, oaszLg2, pgsizeBitmap).value &&
                common.maxVaszLg2 == vaszLg2 &&
                status == (if InitTopLevel(granuleLg2sz, vaszLg2).Ok? then Success else Failure(EOPNOTSUPP))
      ensures status.Success? ==>
                common.TopLevel() == InitTopLevel(granuleLg2sz, vaszLg2).value && common.TopTable() == old(common.TopTable())
      ensures status.Failure? ==> common.topOfTable == old(common.topOfTable)
      ensures common.features == old(common.features) && common.maxOaszLg2 == old(common.maxOaszLg2)
    {
      var bitmap := InitPgsizeBitmap(common.features, pgsizeBitmap);
      if (oaszLg2 != 36 && oaszLg2 != 42) || vaszLg2 > oaszLg2 || (!TestBit(bitmap, 12) && !TestBit(bitmap, 14)) {
        return Failure(EOPNOTSUPP);
      }
      FfsAtMost(bitmap, if TestBit(bitmap, 12) then 12 else 14);
      granuleLg2sz := Ffs(bitmap);
      var l2VaLg2sz := TableItemLg2sz(granuleLg2sz, 2);
      common.maxVaszLg2 := vaszLg2;
      if vaszLg2 <= l2VaLg2sz {
        Pow2Is256();
        common.TopSetLevel(1);
      } else {
        if vaszLg2 - l2VaLg2sz > NUM_TTBRS_LG2 {
          return Failure(EOPNOTSUPP);
        }
        Pow2Is256();
        common.TopSetLevel(2);
      }
      return Success;
    }
  }
}
