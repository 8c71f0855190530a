// The AMD IOMMU v1 host page table (section 2.2.3, "I/O Page Tables for
// Host Translations", of the AMD I/O Virtualization Technology (IOMMU)
// Specification) on 64-bit entries. Levels are numbered as in the generic
// page table: level 0 holds 4K pages and is what the hardware calls mode 1.
//
// A leaf larger than its level's item is stored in the same word in every
// slot it covers, with NEXT_LEVEL = 7 and its size encoded as a run of ones
// in the low bits of the OA field.

module PtAmdv1 {
  import opened Bits
  import opened PtLog2
  import opened Bitfield
  import opened PtDefs
  import opened Errno
  import PtFmtDefaults

  // Geometry (the production layout; the 2K-granule self-test layout is not modelled).
  const MAX_VA_ADDRESS_LG2: nat := 64
  const MAX_OUTPUT_ADDRESS_LG2: nat := 52
  const MAX_TOP_LEVEL: nat := 5
  const GRANULE_LG2SZ: nat := 12
  const TABLEMEM_LG2SZ: nat := 12
  const ENTRY_WORD_LG2SZ: nat := 3
  const ITEMS_PER_TABLE: nat := 512

  // Descriptor bits, as bit numbers, and the fields as GENMASK(HI, LO).
  const PR: nat := 0
  const D: nat := 6
  const NL_HI: nat := 11
  const NL_LO: nat := 9
  const OA_HI: nat := 51
  const OA_LO: nat := 12
  const FC: nat := 60
  const IR: nat := 61
  const IW: nat := 62

  // NEXT_LEVEL values of leaves.
  const NL_DEFAULT: nat := 0
  const NL_SIZE: nat := 7

  /** SZ_512G, as a bit number: the page size the hardware cannot use. */
  const SZ_512G_LG2: nat := 39

  datatype WriteAttrs = WriteAttrs(descriptorBits: u64)

  // ---- geometry --------------------------------------------------------

  /** pt_table_item_lg2sz: an item of a level spans 2^(12 + 9 level) bytes. */
  function TableItemLg2sz(level: nat): nat
  {
    GRANULE_LG2SZ + (TABLEMEM_LG2SZ - ENTRY_WORD_LG2SZ) * level
  }

  /** pt_num_items_lg2: every table holds 512 entries. */
  function NumItemsLg2(): nat
  {
    TABLEMEM_LG2SZ - ENTRY_WORD_LG2SZ
  }

  /** pt_can_have_leaf: the largest top level holds no translations. */
  predicate CanHaveLeaf(level: nat)
  {
    level < MAX_TOP_LEVEL
  }

  /**
   * One table is one 4K page of 512 words, an item spans a whole table of
   * the level below, the top level spans the 64-bit VA space, and leaves
   * go up to the item size of level 4.
   */
  lemma Geometry(level: nat)
    ensures ToInt(NumItemsLg2()) == ITEMS_PER_TABLE
    ensures ITEMS_PER_TABLE * Pow2(ENTRY_WORD_LG2SZ) == Pow2(TABLEMEM_LG2SZ)
    ensures TableItemLg2sz(level + 1) == TableItemLg2sz(level) + NumItemsLg2()
    ensures TableItemLg2sz(0) == 12 && TableItemLg2sz(4) == 48
    ensures TableItemLg2sz(MAX_TOP_LEVEL) + NumItemsLg2() >= MAX_VA_ADDRESS_LG2
    ensures CanHaveLeaf(level) <==> level <= 4
  {
    assert Pow2(9) == 512;
    assert Pow2(12) == 4096;
  }

  // ---- fields ----------------------------------------------------------

  /** FIELD_GET(NEXT_LEVEL, entry) */
  function NextLevel(entry: u64): nat
  {
    FieldGet(NL_HI, NL_LO, entry)
  }

  /** FIELD_GET(OA, entry): the 40-bit address field, in 4K units. */
  function OaField(entry: u64): u64
  {
    FieldGetBound(OA_HI, OA_LO, entry);
    Pow2Monotone(OA_HI - OA_LO + 1, 64);
    Pow2Words();
    FieldGet(OA_HI, OA_LO, entry)
  }

  lemma OaFieldBit(entry: u64, j: nat)
    ensures TestBit(OaField(entry), j) == (j <= OA_HI - OA_LO && TestBit(entry, j + OA_LO))
  {
    FieldGetBit(OA_HI, OA_LO, entry, j);
  }

  /** The 40-bit field has a clear bit at 40 at the latest. */
  lemma OaFieldFfz(entry: u64)
    ensures Ffz(OaField(entry)) <= OA_HI - OA_LO + 1
  {
    FieldGetBound(OA_HI, OA_LO, entry);
    HighBitClear(OaField(entry), OA_HI - OA_LO + 1, OA_HI - OA_LO + 1);
    FfzAtMost(OaField(entry), OA_HI - OA_LO + 1);
  }

  /** NEXT_LEVEL reads back v when bits 9..11 of entry hold the bits of v. */
  lemma NextLevelOfBits(entry: u64, v: nat)
    requires v < 8
    requires forall k :: NL_LO <= k <= NL_HI ==> TestBit(entry, k) == TestBit(v, k - NL_LO)
    ensures NextLevel(entry) == v
  {
    forall j | 0 <= j < 3 ensures TestBit(NextLevel(entry), j) == TestBit(v, j) {
      FieldGetBit(NL_HI, NL_LO, entry, j);
    }
    FieldGetBound(NL_HI, NL_LO, entry);
    assert Pow2(3) == 8;
    BitsEqual(NextLevel(entry), v, 3);
  }

  /** The bits of NL_SIZE = 7. */
  lemma NlSizeBit(j: nat)
    ensures TestBit(NL_SIZE, j) == (j < 3)
  {
    assert Pow2(3) - 1 == NL_SIZE;
    MaxBit(3, j);
  }

  // ---- decoding a slot -------------------------------------------------

  /** pt_table_pa: a table entry points at the next table through the OA field. */
  function TablePa(entry: u64): u64
  {
    Mul(OaField(entry), GRANULE_LG2SZ)
  }

  /**
   * pt_entry_oa: the address of the first byte of the entry. With
   * NEXT_LEVEL = 7 the trailing ones of the OA field encode the size and
   * are cleared; any NEXT_LEVEL other than 0 and 7 is not a leaf and reads
   * as address 0.
   */
  function EntryOa(entry: u64): u64
  {
    OaFieldFfz(entry);
    var oa := OaField(entry);
    if NextLevel(entry) == NL_SIZE then Mul(SetMod(oa, 0, Ffz(oa)), GRANULE_LG2SZ)
    else if NextLevel(entry) != NL_DEFAULT then 0
    else Mul(oa, GRANULE_LG2SZ)
  }

  /**
   * The 32-bit code entry_num_contig_lg2 scans: the entry shifted so that
   * bit isz - 1 comes first, truncated to u32 as the C assignment does.
   */
  function ContigCode(entry: u64, level: nat): u32
  {
    LowBound(Shr(entry, OA_LO - 1 + TableItemLg2sz(level) - GRANULE_LG2SZ), 32);
    Pow2Words();
    Low(Shr(entry, OA_LO - 1 + TableItemLg2sz(level) - GRANULE_LG2SZ), 32)
  }

  lemma ContigCodeBit(entry: u64, level: nat, i: nat)
    ensures TestBit(ContigCode(entry, level), i) == (i < 32 && TestBit(entry, i + TableItemLg2sz(level) - 1))
  {
    LowBit(Shr(entry, OA_LO - 1 + TableItemLg2sz(level) - GRANULE_LG2SZ), 32, i);
    ShrBit(entry, OA_LO - 1 + TableItemLg2sz(level) - GRANULE_LG2SZ, i);
  }

  /**
   * pt_entry_num_contig_lg2: 0 for NEXT_LEVEL = 0, otherwise the length of
   * the run of ones from bit isz - 1, which is never past the 32 bits of
   * the code.
   */
  function EntryNumContigLg2(entry: u64, level: nat): (r: nat)
    ensures r <= 32
  {
    LowBound(Shr(entry, OA_LO - 1 + TableItemLg2sz(level) - GRANULE_LG2SZ), 32);
    HighBitClear(ContigCode(entry, level), 32, 32);
    FfzAtMost(ContigCode(entry, level), 32);
    if NextLevel(entry) == NL_DEFAULT then 0 else Ffz(ContigCode(entry, level))
  }

  /** pt_load_entry_raw: what the word read from a slot at a level holds. */
  function LoadEntryRaw(entry: u64, level: nat): EntryType
  {
    if !TestBit(entry, PR) then Empty
    else if level == 0 || NextLevel(entry) == NL_DEFAULT || NextLevel(entry) == NL_SIZE then Oa
    else Table
  }

  // ---- page sizes ------------------------------------------------------

  function Min(a: nat, b: nat): nat
  {
    if a < b then a else b
  }

  /**
   * pt_possible_sizes: every power of two from the item size up to a whole
   * table's span, capped at 2^51 and without 512G; nothing at the top level.
   */
  function PossibleSizes(level: nat): u64
  {
    if !CanHaveLeaf(level) then 0
    else SizeRange(Min(51, TableItemLg2sz(level) + NumItemsLg2() - 1), TableItemLg2sz(level))
  }

  /** GENMASK_ULL(hi, lo) & ~SZ_512G */
  function SizeRange(hi: nat, lo: nat): u64
    requires lo <= hi < 64
  {
    Pow2Words();
    And64(Mask64(hi, lo), Not(Bit64(SZ_512G_LG2), 64))
  }

  lemma SizeRangeBit(hi: nat, lo: nat, k: nat)
    requires lo <= hi < 64
    ensures TestBit(SizeRange(hi, lo), k) <==> lo <= k <= hi && k != SZ_512G_LG2
  {
    Pow2Words();
    AndBit(Mask64(hi, lo), Not(Bit64(SZ_512G_LG2), 64), k);
    GenMaskBit(hi, lo, k);
    NotBit(Bit64(SZ_512G_LG2), 64, k);
    BitBit(SZ_512G_LG2, k);
  }

  /** The possible sizes, bit by bit. */
  lemma PossibleSizesBit(level: nat, k: nat)
    ensures TestBit(PossibleSizes(level), k) <==>
            CanHaveLeaf(level) && TableItemLg2sz(level) <= k <= Min(51, TableItemLg2sz(level) + 8) && k != SZ_512G_LG2
  {
    if CanHaveLeaf(level) {
      SizeRangeBit(Min(51, TableItemLg2sz(level) + NumItemsLg2() - 1), TableItemLg2sz(level), k);
    } else {
      ZeroBit(k);
    }
  }

  /**
   * A possible size lies at a level that can hold leaves, between the item
   * size and 2^8 items, below 2^52.
   */
  lemma PossibleSizeBounds(level: nat, oaszLg2: nat)
    requires TestBit(PossibleSizes(level), oaszLg2)
    ensures CanHaveLeaf(level)
    ensures TableItemLg2sz(level) <= oaszLg2 <= TableItemLg2sz(level) + 8 && oaszLg2 < MAX_OUTPUT_ADDRESS_LG2
  {
    PossibleSizesBit(level, oaszLg2);
  }

  // ---- leaves ----------------------------------------------------------

  /** The bits set_prot puts in descriptor_bits: FC, IR and IW. */
  predicate IsAttrBit(k: nat)
  {
    FC <= k <= IW
  }

  ghost predicate DescriptorBitsOk(attrs: WriteAttrs)
  {
    forall k :: TestBit(attrs.descriptorBits, k) ==> IsAttrBit(k)
  }

  /** PR | FIELD_PREP(OA, oa >> 12) | descriptor_bits */
  function LeafBase(oa: u64, attrs: WriteAttrs): u64
  {
    Or64(Or64(Bit64(PR), Prep64(OA_HI, OA_LO, Div(oa, GRANULE_LG2SZ))), attrs.descriptorBits)
  }

  /** A leaf of the item size: NEXT_LEVEL = 0. */
  function LeafEntry(oa: u64, attrs: WriteAttrs): u64
  {
    Or64(LeafBase(oa, attrs), Prep64(NL_HI, NL_LO, NL_DEFAULT))
  }

  /**
   * The size code 2^(oasz - 13) - 1 ORed into the OA field of a larger
   * leaf. A larger leaf is always above the 4K item size, so oasz >= 13;
   * below that the code is taken as 0.
   */
  function SizeCode(oaszLg2: nat): nat
  {
    if oaszLg2 <= GRANULE_LG2SZ then 0 else Pow2(oaszLg2 - GRANULE_LG2SZ - 1) - 1
  }

  /** A leaf larger than the item size: NEXT_LEVEL = 7 and the size code. */
  function ContigLeaf(oa: u64, oaszLg2: nat, attrs: WriteAttrs): u64
  {
    Or64(Or64(LeafBase(oa, attrs), Prep64(NL_HI, NL_LO, NL_SIZE)), Prep64(OA_HI, OA_LO, SizeCode(oaszLg2)))
  }

  /** The word install_leaf_entry stores for an oasz leaf at a level. */
  function LeafWord(oa: u64, level: nat, oaszLg2: nat, attrs: WriteAttrs): u64
  {
    if oaszLg2 == TableItemLg2sz(level) then LeafEntry(oa, attrs) else ContigLeaf(oa, oaszLg2, attrs)
  }

  /** FIELD_PREP(OA, oa >> 12) carries the bits 12..51 of oa. */
  lemma OaPrepBit(oa: u64, k: nat)
    ensures TestBit(Prep64(OA_HI, OA_LO, Div(oa, GRANULE_LG2SZ)), k) == (OA_LO <= k <= OA_HI && TestBit(oa, k))
  {
    FieldPrepBit(OA_HI, OA_LO, Div(oa, GRANULE_LG2SZ), k);
    if k >= OA_LO {
      ShrBit(oa, GRANULE_LG2SZ, k - GRANULE_LG2SZ);
    }
  }

  /** The size code sets the OA-field bits from 12 up to oasz - 2. */
  lemma SizeCodePrepBit(oaszLg2: nat, k: nat)
    requires oaszLg2 > GRANULE_LG2SZ
    ensures TestBit(Prep64(OA_HI, OA_LO, SizeCode(oaszLg2)), k) == (OA_LO <= k <= OA_HI && k + 1 < oaszLg2)
  {
    FieldPrepBit(OA_HI, OA_LO, SizeCode(oaszLg2), k);
    if k >= OA_LO {
      MaxBit(oaszLg2 - GRANULE_LG2SZ - 1, k - OA_LO);
    }
  }

  lemma NlPrepBit(v: nat, k: nat)
    ensures TestBit(Prep64(NL_HI, NL_LO, v), k) == (NL_LO <= k <= NL_HI && TestBit(v, k - NL_LO))
  {
    FieldPrepBit(NL_HI, NL_LO, v, k);
  }

  lemma LeafBaseBit(oa: u64, attrs: WriteAttrs, k: nat)
    ensures TestBit(LeafBase(oa, attrs), k) ==
            (k == PR || (OA_LO <= k <= OA_HI && TestBit(oa, k)) || TestBit(attrs.descriptorBits, k))
  {
    var a := Prep64(OA_HI, OA_LO, Div(oa, GRANULE_LG2SZ));
    OaPrepBit(oa, k);
    BitBit(PR, k);
    OrBit(Bit64(PR), a, k);
    OrBit(Or(Bit64(PR), a), attrs.descriptorBits, k);
  }

  /** A leaf of the item size is PR, the address bits and the attribute bits. */
  lemma LeafEntryBit(oa: u64, attrs: WriteAttrs, k: nat)
    ensures TestBit(LeafEntry(oa, attrs), k) ==
            (k == PR || (OA_LO <= k <= OA_HI && TestBit(oa, k)) || TestBit(attrs.descriptorBits, k))
  {
    LeafBaseBit(oa, attrs, k);
    NlPrepBit(NL_DEFAULT, k);
    if k >= NL_LO {
      ZeroBit(k - NL_LO);
    }
    OrBit(LeafBase(oa, attrs), Prep64(NL_HI, NL_LO, NL_DEFAULT), k);
  }

  /** A larger leaf adds the NEXT_LEVEL bits 9..11 and the size code bits 12..oasz-2. */
  lemma ContigLeafBit(oa: u64, oaszLg2: nat, attrs: WriteAttrs, k: nat)
    requires oaszLg2 > GRANULE_LG2SZ
    ensures TestBit(ContigLeaf(oa, oaszLg2, attrs), k) ==
            (k == PR || NL_LO <= k <= NL_HI || (OA_LO <= k <= OA_HI && (k + 1 < oaszLg2 || TestBit(oa, k))) ||
             TestBit(attrs.descriptorBits, k))
  {
    var b := LeafBase(oa, attrs);
    LeafBaseBit(oa, attrs, k);
    NlPrepBit(NL_SIZE, k);
    if k >= NL_LO {
      NlSizeBit(k - NL_LO);
    }
    SizeCodePrepBit(oaszLg2, k);
    OrBit(b, Prep64(NL_HI, NL_LO, NL_SIZE), k);
    OrBit(Or(b, Prep64(NL_HI, NL_LO, NL_SIZE)), Prep64(OA_HI, OA_LO, SizeCode(oaszLg2)), k);
  }

  // ---- reading a leaf back ---------------------------------------------

  /** Mul(x, 12) holds the bits of oa when x holds its bits 12..51 and oa has no others. */
  lemma ScaledOaEquals(x: u64, oa: u64)
    requires BitsWithin(oa, OA_LO, OA_HI + 1)
    requires forall j :: 0 <= j < 64 ==> TestBit(x, j) == (j <= OA_HI - OA_LO && TestBit(oa, j + OA_LO))
    ensures Mul(x, GRANULE_LG2SZ) == oa
  {
    forall k: nat | k < 64 ensures TestBit(Mul(x, GRANULE_LG2SZ), k) == TestBit(oa, k) {
      MulBit(x, GRANULE_LG2SZ, k);
    }
    BitsEqual64(Mul(x, GRANULE_LG2SZ), oa);
  }

  /**
   * Any word that is present, has NEXT_LEVEL = 0 and holds the bits of a
   * 4K-aligned, 52-bit oa in its OA field reads back as an OA entry of one
   * item at oa.
   */
  lemma DefaultEncodedReadsBack(e: u64, level: nat, oa: u64)
    requires TestBit(e, PR)
    requires forall k :: NL_LO <= k <= NL_HI ==> !TestBit(e, k)
    requires forall k :: OA_LO <= k <= OA_HI ==> TestBit(e, k) == TestBit(oa, k)
    requires BitsWithin(oa, OA_LO, OA_HI + 1)
    ensures LoadEntryRaw(e, level) == Oa
    ensures EntryOa(e) == oa
    ensures EntryNumContigLg2(e, level) == 0
  {
    forall k | NL_LO <= k <= NL_HI ensures TestBit(e, k) == TestBit(NL_DEFAULT, k - NL_LO) {
      ZeroBit(k - NL_LO);
    }
    NextLevelOfBits(e, NL_DEFAULT);
    forall j | 0 <= j < 64 ensures TestBit(OaField(e), j) == (j <= OA_HI - OA_LO && TestBit(oa, j + OA_LO)) {
      OaFieldBit(e, j);
    }
    ScaledOaEquals(OaField(e), oa);
  }

  /**
   * Any word that is present, has NEXT_LEVEL = 7 and holds in its OA field
   * the bits of an oa aligned to 2^oasz together with the ones below bit
   * oasz - 1 reads back as an OA entry of 2^(oasz - isz) items at oa.
   */
  lemma SizeEncodedReadsBack(e: u64, level: nat, oaszLg2: nat, oa: u64)
    requires TableItemLg2sz(level) < oaszLg2 <= MAX_OUTPUT_ADDRESS_LG2
    requires oaszLg2 < TableItemLg2sz(level) + 32
    requires TestBit(e, PR)
    requires forall k :: NL_LO <= k <= NL_HI ==> TestBit(e, k)
    requires forall k :: OA_LO <= k <= OA_HI ==> TestBit(e, k) == (k + 1 < oaszLg2 || TestBit(oa, k))
    requires BitsWithin(oa, oaszLg2, OA_HI + 1)
    ensures LoadEntryRaw(e, level) == Oa
    ensures EntryOa(e) == oa
    ensures EntryNumContigLg2(e, level) == oaszLg2 - TableItemLg2sz(level)
  {
    forall k | NL_LO <= k <= NL_HI ensures TestBit(e, k) == TestBit(NL_SIZE, k - NL_LO) {
      NlSizeBit(k - NL_LO);
    }
    NextLevelOfBits(e, NL_SIZE);
    SizeEncodedOa(e, oaszLg2, oa);
    SizeEncodedCount(e, level, oaszLg2, oa);
  }

  lemma SizeEncodedOa(e: u64, oaszLg2: nat, oa: u64)
    requires GRANULE_LG2SZ < oaszLg2 <= MAX_OUTPUT_ADDRESS_LG2
    requires NextLevel(e) == NL_SIZE
    requires forall k :: OA_LO <= k <= OA_HI ==> TestBit(e, k) == (k + 1 < oaszLg2 || TestBit(oa, k))
    requires BitsWithin(oa, oaszLg2, OA_HI + 1)
    ensures EntryOa(e) == oa
  {
    var f := OaField(e);
    var n := oaszLg2 - GRANULE_LG2SZ - 1;
    forall j | 0 <= j < n ensures TestBit(f, j) {
      OaFieldBit(e, j);
    }
    OaFieldBit(e, n);
    FfzAt(f, n);
    Pow2Words();
    var x := SetMod(f, 0, n);
    forall j | 0 <= j < 64 ensures TestBit(x, j) == (j <= OA_HI - OA_LO && TestBit(oa, j + OA_LO)) {
      SetModBits(f, 0, n, j);
      ZeroBit(j);
      OaFieldBit(e, j);
    }
    BitsWithinWidens(oa, oaszLg2, OA_LO, OA_HI + 1);
    ScaledOaEquals(x, oa);
  }

  lemma BitsWithinWidens(x: u64, lo: nat, lo': nat, hi: nat)
    requires lo' <= lo && BitsWithin(x, lo, hi)
    ensures BitsWithin(x, lo', hi)
  {
  }

  lemma SizeEncodedCount(e: u64, level: nat, oaszLg2: nat, oa: u64)
    requires TableItemLg2sz(level) < oaszLg2 <= MAX_OUTPUT_ADDRESS_LG2
    requires oaszLg2 < TableItemLg2sz(level) + 32
    requires NextLevel(e) == NL_SIZE
    requires forall k :: NL_LO <= k <= NL_HI ==> TestBit(e, k)
    requires forall k :: OA_LO <= k <= OA_HI ==> TestBit(e, k) == (k + 1 < oaszLg2 || TestBit(oa, k))
    requires BitsWithin(oa, oaszLg2, OA_HI + 1)
    ensures EntryNumContigLg2(e, level) == oaszLg2 - TableItemLg2sz(level)
  {
    var isz := TableItemLg2sz(level);
    var code := ContigCode(e, level);
    forall i | 0 <= i < oaszLg2 - isz ensures TestBit(code, i) {
      ContigCodeBit(e, level, i);
      if i + isz - 1 < OA_LO {
        assert TestBit(e, NL_HI);
      }
    }
    ContigCodeBit(e, level, oaszLg2 - isz);
    FfzAt(code, oaszLg2 - isz);
  }

  /** A leaf of the item size, as installed, reads back as one item at oa. */
  lemma LeafEntryReadsBack(oa: u64, level: nat, attrs: WriteAttrs)
    requires BitsWithin(oa, OA_LO, OA_HI + 1) && DescriptorBitsOk(attrs)
    ensures LoadEntryRaw(LeafEntry(oa, attrs), level) == Oa
    ensures EntryOa(LeafEntry(oa, attrs)) == oa
    ensures EntryNumContigLg2(LeafEntry(oa, attrs), level) == 0
  {
    var e := LeafEntry(oa, attrs);
    LeafEntryBit(oa, attrs, PR);
    forall k | NL_LO <= k <= NL_HI ensures !TestBit(e, k) {
      LeafEntryBit(oa, attrs, k);
    }
    forall k | OA_LO <= k <= OA_HI ensures TestBit(e, k) == TestBit(oa, k) {
      LeafEntryBit(oa, attrs, k);
    }
    DefaultEncodedReadsBack(e, level, oa);
  }

  /** A larger leaf, as installed, reads back as 2^(oasz - isz) items at oa. */
  lemma ContigLeafReadsBack(oa: u64, level: nat, oaszLg2: nat, attrs: WriteAttrs)
    requires TableItemLg2sz(level) < oaszLg2 <= MAX_OUTPUT_ADDRESS_LG2
    requires oaszLg2 < TableItemLg2sz(level) + 32
    requires BitsWithin(oa, oaszLg2, OA_HI + 1) && DescriptorBitsOk(attrs)
    ensures LoadEntryRaw(ContigLeaf(oa, oaszLg2, attrs), level) == Oa
    ensures EntryOa(ContigLeaf(oa, oaszLg2, attrs)) == oa
    ensures EntryNumContigLg2(ContigLeaf(oa, oaszLg2, attrs), level) == oaszLg2 - TableItemLg2sz(level)
  {
    var e := ContigLeaf(oa, oaszLg2, attrs);
    ContigLeafBit(oa, oaszLg2, attrs, PR);
    forall k | NL_LO <= k <= NL_HI ensures TestBit(e, k) {
      ContigLeafBit(oa, oaszLg2, attrs, k);
    }
    forall k | OA_LO <= k <= OA_HI ensures TestBit(e, k) == (k + 1 < oaszLg2 || TestBit(oa, k)) {
      ContigLeafBit(oa, oaszLg2, attrs, k);
    }
    SizeEncodedReadsBack(e, level, oaszLg2, oa);
  }

  /**
   * The round trip of install_leaf_entry: for every size possible at the
   * level and every oa aligned to it below 2^52, the stored word loads as
   * an OA entry whose entry_oa is oa, whose entry_num_contig_lg2 is
   * oasz - isz and whose attributes are the ones installed.
   */
  lemma LeafWordRoundTrip(oa: u64, level: nat, oaszLg2: nat, attrs: WriteAttrs)
    requires TestBit(PossibleSizes(level), oaszLg2)
    requires oa % Pow2(oaszLg2) == 0 && oa < Pow2(MAX_OUTPUT_ADDRESS_LG2)
    requires DescriptorBitsOk(attrs)
    ensures LoadEntryRaw(LeafWord(oa, level, oaszLg2, attrs), level) == Oa
    ensures EntryOa(LeafWord(oa, level, oaszLg2, attrs)) == oa
    ensures EntryNumContigLg2(LeafWord(oa, level, oaszLg2, attrs), level) == oaszLg2 - TableItemLg2sz(level)
    ensures AttrFromEntry(LeafWord(oa, level, oaszLg2, attrs)) == attrs
  {
    PossibleSizeBounds(level, oaszLg2);
    BitsWithinOfAligned(oa, oaszLg2, OA_HI + 1);
    LeafWordReadsBack(oa, level, oaszLg2, attrs);
  }

  lemma LeafWordReadsBack(oa: u64, level: nat, oaszLg2: nat, attrs: WriteAttrs)
    requires TableItemLg2sz(level) <= oaszLg2 <= TableItemLg2sz(level) + 8 && oaszLg2 < MAX_OUTPUT_ADDRESS_LG2
    requires BitsWithin(oa, oaszLg2, OA_HI + 1) && DescriptorBitsOk(attrs)
    ensures LoadEntryRaw(LeafWord(oa, level, oaszLg2, attrs), level) == Oa
    ensures EntryOa(LeafWord(oa, level, oaszLg2, attrs)) == oa
    ensures EntryNumContigLg2(LeafWord(oa, level, oaszLg2, attrs), level) == oaszLg2 - TableItemLg2sz(level)
    ensures AttrFromEntry(LeafWord(oa, level, oaszLg2, attrs)) == attrs
  {
    if oaszLg2 == TableItemLg2sz(level) {
      BitsWithinWidens(oa, oaszLg2, OA_LO, OA_HI + 1);
      LeafEntryReadsBack(oa, level, attrs);
    } else {
      ContigLeafReadsBack(oa, level, oaszLg2, attrs);
    }
    AttrFromLeafWord(oa, level, oaszLg2, attrs);
  }

  // ---- installing ------------------------------------------------------

  /**
   * pt_install_leaf_entry: a leaf of the item size fills the slot at index;
   * a larger leaf fills the 2^(oasz - isz) slots from index with the same
   * word. The returned word is the new pts->entry.
   */
  method InstallLeafEntry(table: array<u64>, index: nat, level: nat, oa: u64, oaszLg2: nat, attrs: WriteAttrs)
    returns (entry: u64)
    requires TableItemLg2sz(level) <= oaszLg2
    requires index + Pow2(oaszLg2 - TableItemLg2sz(level)) <= table.Length
    modifies table
    ensures entry == LeafWord(oa, level, oaszLg2, attrs)
    ensures table[..] == Spliced(old(table[..]), index, seq(Pow2(oaszLg2 - TableItemLg2sz(level)), _ => entry))
  {
    var isz := TableItemLg2sz(level);
    entry := Or64(Or64(Bit64(PR), Prep64(OA_HI, OA_LO, Div(oa, GRANULE_LG2SZ))), attrs.descriptorBits);
    if oaszLg2 == isz {
      entry := Or64(entry, Prep64(NL_HI, NL_LO, NL_DEFAULT));
      table[index] := entry;
      assert Pow2(oaszLg2 - isz) == 1;
      SplicedFromElements(table[..], old(table[..]), index, seq(1, _ => entry));
    } else {
      var numContigLg2 := oaszLg2 - isz;
      entry := Or64(Or64(entry, Prep64(NL_HI, NL_LO, NL_SIZE)),
                    Prep64(OA_HI, OA_LO, Pow2(oaszLg2 - GRANULE_LG2SZ - 1) - 1));
      WriteRun(table, index, Pow2(numContigLg2), entry);
    }
  }

  /**
   * Store entry in count consecutive slots from index. The source writes
   * runs of up to 32 words one by one and longer runs with memset64; both
   * store the same words.
   */
  method WriteRun(table: array<u64>, index: nat, count: nat, entry: u64)
    requires index + count <= table.Length
    modifies table
    ensures table[..] == Spliced(old(table[..]), index, seq(count, _ => entry))
  {
    var p := index;
    while p != index + count
      invariant index <= p <= index + count
      invariant forall j :: 0 <= j < table.Length ==> table[j] == if index <= j < p then entry else old(table[j])
    {
      table[p] := entry;
      p := p + 1;
    }
    SplicedFromElements(table[..], old(table[..]), index, seq(count, _ => entry));
  }

  /** pt_clear_entry: zero the 2^num_contig_lg2 slots from index. */
  method ClearEntry(table: array<u64>, index: nat, numContigLg2: nat)
    requires index + Pow2(numContigLg2) <= table.Length
    modifies table
    ensures table[..] == PtFmtDefaults.Cleared(old(table[..]), 0, index, Pow2(numContigLg2))
  {
    PtFmtDefaults.ClearRun(table, 0, index, numContigLg2);
  }

  /** Every cleared slot loads as empty; the others keep their words. */
  lemma ClearedLoadsEmpty(table: seq<u64>, index: nat, numContigLg2: nat, level: nat, j: nat)
    requires index + Pow2(numContigLg2) <= |table| && j < |table|
    ensures index <= j < index + Pow2(numContigLg2) ==>
              LoadEntryRaw(PtFmtDefaults.Cleared(table, 0, index, Pow2(numContigLg2))[j], level) == Empty
    ensures !(index <= j < index + Pow2(numContigLg2)) ==>
              PtFmtDefaults.Cleared(table, 0, index, Pow2(numContigLg2))[j] == table[j]
  {
    PtFmtDefaults.ClearedAt(table, 0, index, Pow2(numContigLg2), j);
    ZeroBit(PR);
  }

  // ---- tables ----------------------------------------------------------

  /**
   * The word install_table builds: PR, NEXT_LEVEL = the level of the slot,
   * the table's address, and IR and IW, so that permissions are decided by
   * the leaves alone.
   */
  function TableEntry(tablePa: u64, level: nat): u64
  {
    Or64(Or64(Or64(Or64(Bit64(PR), Prep64(NL_HI, NL_LO, level)), Prep64(OA_HI, OA_LO, Div(tablePa, GRANULE_LG2SZ))),
              Bit64(IR)),
         Bit64(IW))
  }

  lemma TableEntryBit(pa: u64, level: nat, k: nat)
    ensures TestBit(TableEntry(pa, level), k) ==
            (k == PR || (NL_LO <= k <= NL_HI && TestBit(level, k - NL_LO)) || (OA_LO <= k <= OA_HI && TestBit(pa, k)) ||
             k == IR || k == IW)
  {
    var n := Prep64(NL_HI, NL_LO, level);
    var a := Prep64(OA_HI, OA_LO, Div(pa, GRANULE_LG2SZ));
    NlPrepBit(level, k);
    OaPrepBit(pa, k);
    BitBit(PR, k);
    BitBit(IR, k);
    BitBit(IW, k);
    OrBit(Bit64(PR), n, k);
    OrBit(Or(Bit64(PR), n), a, k);
    OrBit(Or(Or(Bit64(PR), n), a), Bit64(IR), k);
    OrBit(Or(Or(Or(Bit64(PR), n), a), Bit64(IR)), Bit64(IW), k);
  }

  /**
   * A table entry installed at level 1..5 for a 4K-aligned table below
   * 2^52 loads as a table pointing at that table, with NEXT_LEVEL = level
   * and both permission bits set.
   */
  lemma TableEntryRoundTrip(pa: u64, level: nat)
    requires 1 <= level <= MAX_TOP_LEVEL
    requires pa % Pow2(TABLEMEM_LG2SZ) == 0 && pa < Pow2(MAX_OUTPUT_ADDRESS_LG2)
    ensures LoadEntryRaw(TableEntry(pa, level), level) == Table
    ensures NextLevel(TableEntry(pa, level)) == level
    ensures TablePa(TableEntry(pa, level)) == pa
    ensures TestBit(TableEntry(pa, level), IR) && TestBit(TableEntry(pa, level), IW)
  {
    BitsWithinOfAligned(pa, TABLEMEM_LG2SZ, MAX_OUTPUT_ADDRESS_LG2);
    TableEntryReadsBack(pa, level);
  }

  lemma TableEntryReadsBack(pa: u64, level: nat)
    requires 1 <= level <= MAX_TOP_LEVEL
    requires BitsWithin(pa, OA_LO, OA_HI + 1)
    ensures LoadEntryRaw(TableEntry(pa, level), level) == Table
    ensures NextLevel(TableEntry(pa, level)) == level
    ensures TablePa(TableEntry(pa, level)) == pa
    ensures TestBit(TableEntry(pa, level), IR) && TestBit(TableEntry(pa, level), IW)
  {
    var e := TableEntry(pa, level);
    TableEntryBit(pa, level, PR);
    TableEntryBit(pa, level, IR);
    TableEntryBit(pa, level, IW);
    forall k | NL_LO <= k <= NL_HI ensures TestBit(e, k) == TestBit(level, k - NL_LO) {
      TableEntryBit(pa, level, k);
    }
    NextLevelOfBits(e, level);
    forall j | 0 <= j < 64 ensures TestBit(OaField(e), j) == (j <= OA_HI - OA_LO && TestBit(pa, j + OA_LO)) {
      OaFieldBit(e, j);
      TableEntryBit(pa, level, j + OA_LO);
    }
    ScaledOaEquals(OaField(e), pa);
  }

  /**
   * pt_install_table: store the table entry only if the slot still holds
   * current, the word last loaded from it (pts->entry).
   */
  method InstallTable(table: array<u64>, index: nat, tablePa: u64, level: nat, current: u64)
    returns (installed: bool)
    requires index < table.Length
    modifies table
    ensures installed == (old(table[index]) == current)
    ensures table[..] == if installed then old(table[..])[index := TableEntry(tablePa, level)] else old(table[..])
  {
    installed := TableInstall(table, index, TableEntry(tablePa, level), current);
  }

  // ---- attributes ------------------------------------------------------

  /** FC | IR | IW */
  function AttrMask(): u64
  {
    Or64(Or64(Bit64(FC), Bit64(IR)), Bit64(IW))
  }

  /** pt_attr_from_entry: the FC, IR and IW bits of the entry. */
  function AttrFromEntry(entry: u64): WriteAttrs
  {
    WriteAttrs(And64(entry, AttrMask()))
  }

  lemma AttrFromEntryBit(entry: u64, k: nat)
    ensures TestBit(AttrFromEntry(entry).descriptorBits, k) == (IsAttrBit(k) && TestBit(entry, k))
  {
    AndBit(entry, AttrMask(), k);
    BitBit(FC, k);
    BitBit(IR, k);
    BitBit(IW, k);
    OrBit(Bit64(FC), Bit64(IR), k);
    OrBit(Or(Bit64(FC), Bit64(IR)), Bit64(IW), k);
  }

  /** attr_from_entry of an installed leaf, of either form, gives back its attributes. */
  lemma AttrFromLeafWord(oa: u64, level: nat, oaszLg2: nat, attrs: WriteAttrs)
    requires TableItemLg2sz(level) <= oaszLg2 && DescriptorBitsOk(attrs)
    ensures AttrFromEntry(LeafWord(oa, level, oaszLg2, attrs)) == attrs
  {
    var e := LeafWord(oa, level, oaszLg2, attrs);
    forall k | 0 <= k < 64 ensures TestBit(AttrFromEntry(e).descriptorBits, k) == TestBit(attrs.descriptorBits, k) {
      AttrFromEntryBit(e, k);
      if oaszLg2 == TableItemLg2sz(level) {
        LeafEntryBit(oa, attrs, k);
      } else {
        ContigLeafBit(oa, oaszLg2, attrs, k);
      }
    }
    BitsEqual64(AttrFromEntry(e).descriptorBits, attrs.descriptorBits);
  }

  // ---- set_prot --------------------------------------------------------

  /** iommu_set_prot: FC always, IR for IOMMU_READ and IW for IOMMU_WRITE; nothing else. */
  function SetProt(prot: Prot): WriteAttrs
  {
    WriteAttrs(OrIf(prot.write, OrIf(prot.read, Bit64(FC), Bit64(IR)), Bit64(IW)))
  }

  lemma SetProtBit(prot: Prot, k: nat)
    ensures TestBit(SetProt(prot).descriptorBits, k) <==> k == FC || (k == IR && prot.read) || (k == IW && prot.write)
  {
    BitBit(FC, k);
    BitBit(IR, k);
    BitBit(IW, k);
    OrIfBit(prot.read, Bit64(FC), Bit64(IR), k);
    OrIfBit(prot.write, OrIf(prot.read, Bit64(FC), Bit64(IR)), Bit64(IW), k);
  }

  lemma SetProtAttrsOk(prot: Prot)
    ensures DescriptorBitsOk(SetProt(prot))
  {
    forall k | TestBit(SetProt(prot).descriptorBits, k) ensures IsAttrBit(k) {
      SetProtBit(prot, k);
    }
  }

  /**
   * A leaf installed with set_prot's attributes at a possible size reads
   * back as an OA entry at oa, of its size, with the same attributes: FC
   * set, IR exactly for read and IW exactly for write.
   */
  lemma InstalledLeafReadsBack(prot: Prot, oa: u64, level: nat, oaszLg2: nat)
    requires TestBit(PossibleSizes(level), oaszLg2)
    requires oa % Pow2(oaszLg2) == 0 && oa < Pow2(MAX_OUTPUT_ADDRESS_LG2)
    ensures LoadEntryRaw(LeafWord(oa, level, oaszLg2, SetProt(prot)), level) == Oa
    ensures EntryOa(LeafWord(oa, level, oaszLg2, SetProt(prot))) == oa
    ensures EntryNumContigLg2(LeafWord(oa, level, oaszLg2, SetProt(prot)), level) == oaszLg2 - TableItemLg2sz(level)
    ensures TestBit(LeafWord(oa, level, oaszLg2, SetProt(prot)), FC)
    ensures TestBit(LeafWord(oa, level, oaszLg2, SetProt(prot)), IR) <==> prot.read
    ensures TestBit(LeafWord(oa, level, oaszLg2, SetProt(prot)), IW) <==> prot.write
  {
    var e := LeafWord(oa, level, oaszLg2, SetProt(prot));
    SetProtAttrsOk(prot);
    LeafWordRoundTrip(oa, level, oaszLg2, SetProt(prot));
    AttrFromEntryBit(e, FC);
    AttrFromEntryBit(e, IR);
    AttrFromEntryBit(e, IW);
    SetProtBit(prot, FC);
    SetProtBit(prot, IR);
    SetProtBit(prot, IW);
  }

  // ---- dirty tracking --------------------------------------------------

  /** The hardware sets D in a leaf it writes through. */
  predicate ItemIsDirty(entry: u64)
  {
    TestBit(entry, D)
  }

  /** entry & ~D */
  function ClearDirty(entry: u64): u64
  {
    Pow2Words();
    And64(entry, Not(Bit64(D), 64))
  }

  /** entry | D */
  function SetDirty(entry: u64): u64
  {
    Or64(entry, Bit64(D))
  }

  lemma ClearDirtyBit(entry: u64, k: nat)
    ensures TestBit(ClearDirty(entry), k) == (k != D && TestBit(entry, k))
  {
    Pow2Words();
    AndBit(entry, Not(Bit64(D), 64), k);
    NotBit(Bit64(D), 64, k);
    BitBit(D, k);
    if k >= 64 {
      HighBitClear(entry, 64, k);
    }
  }

  lemma SetDirtyBit(entry: u64, k: nat)
    ensures TestBit(SetDirty(entry), k) == (k == D || TestBit(entry, k))
  {
    OrBit(entry, Bit64(D), k);
    BitBit(D, k);
  }

  /** Two words that agree from bit 9 up have the same NEXT_LEVEL and contiguous size. */
  lemma SameSpan(e1: u64, e2: u64, level: nat)
    requires forall k :: NL_LO <= k ==> TestBit(e1, k) == TestBit(e2, k)
    ensures NextLevel(e1) == NextLevel(e2)
    ensures EntryNumContigLg2(e1, level) == EntryNumContigLg2(e2, level)
  {
    forall j | 0 <= j < 3 ensures TestBit(NextLevel(e1), j) == TestBit(NextLevel(e2), j) {
      FieldGetBit(NL_HI, NL_LO, e1, j);
      FieldGetBit(NL_HI, NL_LO, e2, j);
    }
    FieldGetBound(NL_HI, NL_LO, e1);
    FieldGetBound(NL_HI, NL_LO, e2);
    BitsEqual(NextLevel(e1), NextLevel(e2), 3);
    forall i | 0 <= i < 32 ensures TestBit(ContigCode(e1, level), i) == TestBit(ContigCode(e2, level), i) {
      ContigCodeBit(e1, level, i);
      ContigCodeBit(e2, level, i);
    }
    BitsEqual32(ContigCode(e1, level), ContigCode(e2, level));
  }

  /** The first slot of the aligned 2^n-slot span that holds index: log2_set_mod(index, 0, n). */
  function SpanStart(index: nat, n: nat): nat
    requires index < ITEMS_PER_TABLE && n <= NumItemsLg2()
  {
    Pow2Words();
    SetMod(index, 0, n)
  }

  lemma SpanStartBounds(index: nat, n: nat)
    requires index < ITEMS_PER_TABLE && n <= NumItemsLg2()
    ensures SpanStart(index, n) <= index < SpanStart(index, n) + Pow2(n) <= ITEMS_PER_TABLE
    ensures SpanStart(index, n) % Pow2(n) == 0
  {
    Pow2Words();
    var s := SetMod(index, 0, n);
    SetModSpec(index, 0, n);
    ModDivAreRemainderQuotient(index, n);
    ModDivAreRemainderQuotient(s, n);
    Geometry(0);
    AlignedRoom(s, n, NumItemsLg2());
  }

  /** Some slot among the n from start has D set. */
  predicate AnyDirty(table: seq<u64>, start: nat, n: nat)
  {
    n > 0 && start + n <= |table| && (AnyDirty(table, start, n - 1) || ItemIsDirty(table[start + n - 1]))
  }

  lemma {:induction false} AnyDirtyIff(table: seq<u64>, start: nat, n: nat)
    requires start + n <= |table|
    ensures AnyDirty(table, start, n) <==> exists j :: start <= j < start + n && ItemIsDirty(table[j])
  {
    if n > 0 {
      AnyDirtyIff(table, start, n - 1);
    }
  }

  lemma {:induction false} AnyDirtyMonotone(table: seq<u64>, start: nat, m: nat, n: nat)
    requires m <= n && start + n <= |table| && AnyDirty(table, start, m)
    ensures AnyDirty(table, start, n)
    decreases n
  {
    if m < n {
      AnyDirtyMonotone(table, start, m, n - 1);
    }
  }

  /**
   * pt_entry_write_is_dirty: the entry was written through when D is set
   * in any slot of the aligned span its contiguous size covers.
   */
  predicate WriteIsDirty(table: seq<u64>, index: nat, entry: u64, level: nat)
    requires index < ITEMS_PER_TABLE && EntryNumContigLg2(entry, level) <= NumItemsLg2()
  {
    AnyDirty(table, SpanStart(index, EntryNumContigLg2(entry, level)), Pow2(EntryNumContigLg2(entry, level)))
  }

  /** The table with D cleared in the n slots from start. */
  function CleanRun(table: seq<u64>, start: nat, n: nat): (r: seq<u64>)
    ensures |r| == |table|
  {
    if n == 0 || start + n > |table| then table
    else CleanRun(table, start, n - 1)[start + n - 1 := ClearDirty(table[start + n - 1])]
  }

  lemma {:induction false} CleanRunAt(table: seq<u64>, start: nat, n: nat, j: nat)
    requires start + n <= |table| && j < |table|
    ensures CleanRun(table, start, n)[j] == if start <= j < start + n then ClearDirty(table[j]) else table[j]
  {
    if n > 0 {
      CleanRunAt(table, start, n - 1, j);
    }
  }

  /** pt_entry_set_write_clean: D cleared in every slot of the entry's span. */
  function SetWriteClean(table: seq<u64>, index: nat, entry: u64, level: nat): (r: seq<u64>)
    requires index < ITEMS_PER_TABLE && EntryNumContigLg2(entry, level) <= NumItemsLg2()
    ensures |r| == |table|
  {
    CleanRun(table, SpanStart(index, EntryNumContigLg2(entry, level)), Pow2(EntryNumContigLg2(entry, level)))
  }

  /** entry_write_is_dirty: scan the entry's span for D. */
  method EntryWriteIsDirty(table: array<u64>, index: nat, entry: u64, level: nat) returns (dirty: bool)
    requires table.Length == ITEMS_PER_TABLE && index < ITEMS_PER_TABLE
    requires EntryNumContigLg2(entry, level) <= NumItemsLg2()
    ensures dirty == WriteIsDirty(table[..], index, entry, level)
  {
    var n := EntryNumContigLg2(entry, level);
    SpanStartBounds(index, n);
    dirty := ScanDirty(table, SpanStart(index, n), Pow2(n));
  }

  /** The loop of entry_write_is_dirty, stopping at the first slot with D set. */
  method ScanDirty(table: array<u64>, start: nat, count: nat) returns (dirty: bool)
    requires start + count <= table.Length
    ensures dirty == AnyDirty(table[..], start, count)
  {
    var i := start;
    while i < start + count
      invariant start <= i <= start + count
      invariant !AnyDirty(table[..], start, i - start)
    {
      if TestBit(table[i], D) {
        assert table[..][i] == table[i];
        AnyDirtyMonotone(table[..], start, i - start + 1, count);
        return true;
      }
      i := i + 1;
    }
    return false;
  }

  /** entry_set_write_clean: clear D in every slot of the entry's span. */
  method EntrySetWriteClean(table: array<u64>, index: nat, entry: u64, level: nat)
    requires table.Length == ITEMS_PER_TABLE && index < ITEMS_PER_TABLE
    requires EntryNumContigLg2(entry, level) <= NumItemsLg2()
    modifies table
    ensures table[..] == SetWriteClean(old(table[..]), index, entry, level)
  {
    var n := EntryNumContigLg2(entry, level);
    SpanStartBounds(index, n);
    CleanSpan(table, SpanStart(index, n), Pow2(n));
  }

  /** The loop of entry_set_write_clean. */
  method CleanSpan(table: array<u64>, start: nat, count: nat)
    requires start + count <= table.Length
    modifies table
    ensures table[..] == CleanRun(old(table[..]), start, count)
  {
    var i := start;
    while i < start + count
      invariant start <= i <= start + count
      invariant forall j :: 0 <= j < table.Length ==>
                  table[j] == if start <= j < i then ClearDirty(old(table[j])) else old(table[j])
    {
      table[i] := ClearDirty(table[i]);
      i := i + 1;
    }
    forall j | 0 <= j < table.Length ensures table[..][j] == CleanRun(old(table[..]), start, count)[j] {
      CleanRunAt(old(table[..]), start, count, j);
    }
  }

  /**
   * After set_write_clean the entry, reloaded from its slot, spans the same
   * slots and is no longer dirty.
   */
  lemma CleanedNotDirty(table: seq<u64>, index: nat, level: nat)
    requires |table| == ITEMS_PER_TABLE && index < ITEMS_PER_TABLE
    requires EntryNumContigLg2(table[index], level) <= NumItemsLg2()
    ensures var t := SetWriteClean(table, index, table[index], level);
            EntryNumContigLg2(t[index], level) == EntryNumContigLg2(table[index], level) &&
            !WriteIsDirty(t, index, t[index], level)
  {
    var n := EntryNumContigLg2(table[index], level);
    SpanStartBounds(index, n);
    var start := SpanStart(index, n);
    var t := SetWriteClean(table, index, table[index], level);
    forall j | 0 <= j < |table| ensures t[j] == if start <= j < start + Pow2(n) then ClearDirty(table[j]) else table[j] {
      CleanRunAt(table, start, Pow2(n), j);
    }
    forall k | NL_LO <= k ensures TestBit(t[index], k) == TestBit(table[index], k) {
      ClearDirtyBit(table[index], k);
    }
    SameSpan(t[index], table[index], level);
    forall j | start <= j < start + Pow2(n) ensures !ItemIsDirty(t[j]) {
      ClearDirtyBit(table[j], D);
    }
    AnyDirtyIff(t, start, Pow2(n));
  }

  /** set_write_clean changes the D bit of the slots it visits and nothing else. */
  lemma CleanChangesOnlyDirty(table: seq<u64>, index: nat, entry: u64, level: nat, j: nat, k: nat)
    requires |table| == ITEMS_PER_TABLE && index < ITEMS_PER_TABLE && j < ITEMS_PER_TABLE && k != D
    requires EntryNumContigLg2(entry, level) <= NumItemsLg2()
    ensures TestBit(SetWriteClean(table, index, entry, level)[j], k) == TestBit(table[j], k)
  {
    var n := EntryNumContigLg2(entry, level);
    SpanStartBounds(index, n);
    CleanRunAt(table, SpanStart(index, n), Pow2(n), j);
    ClearDirtyBit(table[j], k);
  }

  /**
   * pt_entry_make_write_dirty, sequentially: set D in the slot only if it
   * still holds current (try_cmpxchg64). seen is the slot's word, which the
   * failed compare copies back into pts->entry.
   */
  method EntryMakeWriteDirty(table: array<u64>, index: nat, current: u64) returns (dirty: bool, seen: u64)
    requires index < table.Length
    modifies table
    ensures dirty == (old(table[index]) == current) && seen == old(table[index])
    ensures table[..] == if dirty then old(table[..])[index := SetDirty(current)] else old(table[..])
  {
    seen := table[index];
    dirty := TableInstall(table, index, SetDirty(current), current);
  }

  /**
   * A successful make_write_dirty leaves the entry, reloaded from its slot,
   * with the same span and dirty.
   */
  lemma MadeWriteDirty(table: seq<u64>, index: nat, level: nat)
    requires |table| == ITEMS_PER_TABLE && index < ITEMS_PER_TABLE
    requires EntryNumContigLg2(table[index], level) <= NumItemsLg2()
    ensures var t := table[index := SetDirty(table[index])];
            EntryNumContigLg2(t[index], level) == EntryNumContigLg2(table[index], level) &&
            WriteIsDirty(t, index, t[index], level)
  {
    var t := table[index := SetDirty(table[index])];
    var n := EntryNumContigLg2(table[index], level);
    forall k | NL_LO <= k ensures TestBit(t[index], k) == TestBit(table[index], k) {
      SetDirtyBit(table[index], k);
    }
    SameSpan(t[index], table[index], level);
    SpanStartBounds(index, n);
    SetDirtyBit(table[index], D);
    AnyDirtyIff(t, SpanStart(index, n), Pow2(n));
  }

  // ---- configuration ---------------------------------------------------

  /**
   * amdv1pt_iommu_fmt_init: a starting level of 0 or above 5 is refused
   * with EINVAL; otherwise it becomes the top level.
   */
  method FmtInit(common: Common, startingLevel: nat) returns (status: Status)
    modifies common
    ensures status == if startingLevel == 0 || startingLevel > MAX_TOP_LEVEL then Failure(EINVAL) else Success
    ensures status.Success? ==> common.TopLevel() == startingLevel && common.TopTable() == old(common.TopTable())
    ensures status.Failure? ==> common.topOfTable == old(common.topOfTable)
    ensures common.features == old(common.features) && common.maxVaszLg2 == old(common.maxVaszLg2)
    ensures common.maxOaszLg2 == old(common.maxOaszLg2)
  {
    if startingLevel == 0 || startingLevel > MAX_TOP_LEVEL {
      return Failure(EINVAL);
    }
    Pow2Is256();
    common.TopSetLevel(startingLevel);
    return Success;
  }

  /** The mode hw_info reports for a top level: the number of levels. */
  function HwMode(topLevel: nat): nat
  {
    topLevel + 1
  }

  /**
   * A table fmt_init accepts runs in mode 2..6, and the top table of mode
   * m translates 12 + 9 m bits of IOVA.
   */
  lemma HwModeOfInit(startingLevel: nat)
    requires 1 <= startingLevel <= MAX_TOP_LEVEL
    ensures 2 <= HwMode(startingLevel) <= 6
    ensures TableItemLg2sz(startingLevel) + NumItemsLg2() == GRANULE_LG2SZ + 9 * HwMode(startingLevel)
  {
  }
}
