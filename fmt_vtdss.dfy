// The Intel VT-d second-stage page table in its 4 and 5 level forms
// (sections 3.7, "Second-Stage Translation", and 9.8, "Second-Stage Paging
// Entries", of the Intel Virtualization Technology for Directed I/O
// Architecture Specification). Levels are numbered as in the generic page
// table: level 0 is the SS-PTE table, level 1 the SS-PDE, level 2 the
// SS-PDPTE, 3 the SS-PML4 and 4 the SS-PML5. There is no present bit: an
// entry is in use when it is not zero.

module PtVtdss {
  import opened Bits
  import opened PtLog2
  import opened Bitfield
  import opened PtDefs
  import opened Errno

  const MAX_OUTPUT_ADDRESS_LG2: nat := 52
  const MAX_VA_ADDRESS_LG2: nat := 57
  const MAX_TOP_LEVEL: nat := 4
  const GRANULE_LG2SZ: nat := 12
  const TABLEMEM_LG2SZ: nat := 12
  const ENTRY_WORD_LG2SZ: nat := 3

  // Descriptor bits, as bit numbers, and the OA field as GENMASK(HI, LO).
  const R: nat := 0
  const W: nat := 1
  const PS: nat := 7
  const A: nat := 8
  const D: nat := 9
  const SNP: nat := 11
  const OA_HI: nat := 51
  const OA_LO: nat := 12

  datatype WriteAttrs = WriteAttrs(descriptorBits: u64)

  // ---- geometry --------------------------------------------------------

  /** pt_table_item_lg2sz: an item of a level spans 2^(12 + 9 level) bytes. */
  function TableItemLg2sz(level: nat): nat
  {
    GRANULE_LG2SZ + (TABLEMEM_LG2SZ - ENTRY_WORD_LG2SZ) * level
  }

  /** pt_num_items_lg2: every table holds 512 entries. */
  function NumItemsLg2(): nat
  {
    TABLEMEM_LG2SZ - ENTRY_WORD_LG2SZ
  }

  /** pt_can_have_leaf: pages of 4K, 2M and 1G, at levels 0 to 2. */
  predicate CanHaveLeaf(level: nat)
  {
    level <= 2
  }

  /**
   * Items span the table of the level below, leaves are 4K, 2M or 1G,
   * and the top of the 5 level form spans the 57-bit VA.
   */
  lemma Geometry(level: nat)
    ensures Pow2(NumItemsLg2()) == 512
    ensures TableItemLg2sz(level + 1) == TableItemLg2sz(level) + NumItemsLg2()
    ensures TableItemLg2sz(0) == 12 && TableItemLg2sz(1) == 21 && TableItemLg2sz(2) == 30
    ensures TableItemLg2sz(MAX_TOP_LEVEL) + NumItemsLg2() == MAX_VA_ADDRESS_LG2
    ensures CanHaveLeaf(level) <==> TableItemLg2sz(level) <= 30
  {
    assert Pow2(9) == 512;
  }

  // ---- output addresses ------------------------------------------------

  /** The 40-bit OA field of an entry. */
  function OaField(entry: u64): u64
  {
    FieldGetBound(OA_HI, OA_LO, entry);
    Pow2Monotone(OA_HI - OA_LO + 1, 64);
    Pow2Words();
    FieldGet(OA_HI, OA_LO, entry)
  }

  lemma OaFieldBit(entry: u64, j: nat)
    ensures TestBit(OaField(entry), j) == (j <= OA_HI - OA_LO && TestBit(entry, j + OA_LO))
  {
    FieldGetBit(OA_HI, OA_LO, entry, j);
  }

  /** pt_table_pa: the OA field in units of the 4K table size. */
  function TablePa(entry: u64): u64
  {
    Mul(OaField(entry), TABLEMEM_LG2SZ)
  }

  /** pt_entry_oa: the OA field in units of the 4K granule. */
  function EntryOa(entry: u64): u64
  {
    Mul(OaField(entry), GRANULE_LG2SZ)
  }

  /** FIELD_PREP(OA, oa >> 12) sets exactly bits 12..51 of oa. */
  lemma OaPrepBit(oa: u64, k: nat)
    ensures TestBit(Prep64(OA_HI, OA_LO, Div(oa, GRANULE_LG2SZ)), k) == (OA_LO <= k <= OA_HI && TestBit(oa, k))
  {
    FieldPrepBit(OA_HI, OA_LO, Div(oa, GRANULE_LG2SZ), k);
    if k >= OA_LO {
      ShrBit(oa, GRANULE_LG2SZ, k - GRANULE_LG2SZ);
    }
  }

  /** A word holding the bits 12..51 of an aligned address decodes to it. */
  lemma ScaledOaEquals(e: u64, oa: u64)
    requires BitsWithin(oa, OA_LO, OA_HI + 1)
    requires forall k :: OA_LO <= k <= OA_HI ==> TestBit(e, k) == TestBit(oa, k)
    ensures EntryOa(e) == oa && TablePa(e) == oa
  {
    forall k: nat | k < 64 ensures TestBit(EntryOa(e), k) == TestBit(oa, k) {
      MulBit(OaField(e), GRANULE_LG2SZ, k);
      if k >= GRANULE_LG2SZ {
        OaFieldBit(e, k - GRANULE_LG2SZ);
      }
    }
    BitsEqual64(EntryOa(e), oa);
  }

  // ---- classification ----------------------------------------------------

  /**
   * pt_load_entry_raw: a zero word is empty; level 0, or a leaf-capable
   * level with PS set, holds a page; anything else points at a table.
   */
  function LoadEntryRaw(entry: u64, level: nat): EntryType
  {
    if entry == 0 then Empty
    else if level == 0 || (CanHaveLeaf(level) && TestBit(entry, PS)) then Oa
    else Table
  }

  // ---- leaves ----------------------------------------------------------

  /** The bits attr_from_entry keeps. */
  predicate IsAttrBit(k: nat)
  {
    k == R || k == W || k == SNP
  }

  ghost predicate DescriptorBitsOk(attrs: WriteAttrs)
  {
    forall k :: TestBit(attrs.descriptorBits, k) ==> IsAttrBit(k)
  }

  /** The leaf word install_leaf_entry stores: OA | attributes, and PS above level 0. */
  function LeafEntry(oa: u64, level: nat, attrs: WriteAttrs): u64
  {
    var entry := Or64(Prep64(OA_HI, OA_LO, Div(oa, GRANULE_LG2SZ)), attrs.descriptorBits);
    OrIf(level != 0, entry, Bit64(PS))
  }

  lemma LeafEntryBit(oa: u64, level: nat, attrs: WriteAttrs, k: nat)
    ensures TestBit(LeafEntry(oa, level, attrs), k) ==
            ((OA_LO <= k <= OA_HI && TestBit(oa, k)) || TestBit(attrs.descriptorBits, k) || (k == PS && level != 0))
  {
    var a := Prep64(OA_HI, OA_LO, Div(oa, GRANULE_LG2SZ));
    OaPrepBit(oa, k);
    BitBit(PS, k);
    OrBit(a, attrs.descriptorBits, k);
    OrIfBit(level != 0, Or64(a, attrs.descriptorBits), Bit64(PS), k);
  }

  /**
   * pt_install_leaf_entry: store the leaf in the one slot at index; the
   * page size is the level's item size, so oasz_lg2 plays no part.
   */
  method InstallLeafEntry(table: array<u64>, index: nat, level: nat, oa: u64, oaszLg2: nat, attrs: WriteAttrs)
    returns (entry: u64)
    requires index < table.Length
    modifies table
    ensures entry == LeafEntry(oa, level, attrs)
    ensures table[..] == old(table[..])[index := entry]
  {
    entry := LeafEntry(oa, level, attrs);
    table[index] := entry;
  }

  /**
   * A leaf at a leaf-capable level for a 4K-aligned address below 2^52,
   * whose attributes hold R or W, is not zero: it loads as an OA entry,
   * entry_oa gives the address back and attr_from_entry the attributes.
   */
  lemma LeafRoundTrip(oa: u64, level: nat, attrs: WriteAttrs)
    requires CanHaveLeaf(level)
    requires oa % Pow2(GRANULE_LG2SZ) == 0 && oa < Pow2(MAX_OUTPUT_ADDRESS_LG2)
    requires DescriptorBitsOk(attrs)
    requires TestBit(attrs.descriptorBits, R) || TestBit(attrs.descriptorBits, W)
    ensures LeafEntry(oa, level, attrs) != 0
    ensures LoadEntryRaw(LeafEntry(oa, level, attrs), level) == Oa
    ensures EntryOa(LeafEntry(oa, level, attrs)) == oa
    ensures AttrFromEntry(LeafEntry(oa, level, attrs)) == attrs
  {
    var e := LeafEntry(oa, level, attrs);
    BitsWithinOfAligned(oa, OA_LO, OA_HI + 1);
    LeafEntryBit(oa, level, attrs, R);
    LeafEntryBit(oa, level, attrs, W);
    LeafEntryBit(oa, level, attrs, PS);
    if e == 0 {
      ZeroBit(R);
      ZeroBit(W);
    }
    forall k | OA_LO <= k <= OA_HI ensures TestBit(e, k) == TestBit(oa, k) {
      LeafEntryBit(oa, level, attrs, k);
    }
    ScaledOaEquals(e, oa);
    LeafAttrsReadBack(oa, level, attrs);
  }

  lemma LeafAttrsReadBack(oa: u64, level: nat, attrs: WriteAttrs)
    requires DescriptorBitsOk(attrs)
    ensures AttrFromEntry(LeafEntry(oa, level, attrs)) == attrs
  {
    var e := LeafEntry(oa, level, attrs);
    forall k | 0 <= k < 64 ensures TestBit(AttrFromEntry(e).descriptorBits, k) == TestBit(attrs.descriptorBits, k) {
      AttrFromEntryBit(e, k);
      LeafEntryBit(oa, level, attrs, k);
    }
    BitsEqual64(AttrFromEntry(e).descriptorBits, attrs.descriptorBits);
  }

  // ---- tables ----------------------------------------------------------

  /** R | W | OA */
  function TableEntry(tablePa: u64): u64
  {
    Or64(Or64(Bit64(R), Bit64(W)), Prep64(OA_HI, OA_LO, Div(tablePa, GRANULE_LG2SZ)))
  }

  lemma TableEntryBit(pa: u64, k: nat)
    ensures TestBit(TableEntry(pa), k) == (k == R || k == W || (OA_LO <= k <= OA_HI && TestBit(pa, k)))
  {
    BitBit(R, k);
    BitBit(W, k);
    OaPrepBit(pa, k);
    OrBit(Bit64(R), Bit64(W), k);
    OrBit(Or(Bit64(R), Bit64(W)), Prep64(OA_HI, OA_LO, Div(pa, GRANULE_LG2SZ)), k);
  }

  /**
   * A table entry for a 4K-aligned table below 2^52 is not zero and loads
   * above level 0 as a table (PS is clear) pointing at that table, with
   * read and write allowed below it.
   */
  lemma TableEntryRoundTrip(pa: u64, level: nat)
    requires 1 <= level
    requires pa % Pow2(TABLEMEM_LG2SZ) == 0 && pa < Pow2(MAX_OUTPUT_ADDRESS_LG2)
    ensures LoadEntryRaw(TableEntry(pa), level) == Table
    ensures TablePa(TableEntry(pa)) == pa
    ensures TestBit(TableEntry(pa), R) && TestBit(TableEntry(pa), W)
  {
    BitsWithinOfAligned(pa, OA_LO, OA_HI + 1);
    TableEntryBit(pa, R);
    TableEntryBit(pa, W);
    TableEntryBit(pa, PS);
    if TableEntry(pa) == 0 {
      ZeroBit(R);
    }
    forall k | OA_LO <= k <= OA_HI ensures TestBit(TableEntry(pa), k) == TestBit(pa, k) {
      TableEntryBit(pa, k);
    }
    ScaledOaEquals(TableEntry(pa), pa);
  }

  /** pt_install_table: compare-and-set of the table entry against pts->entry. */
  method InstallTable(table: array<u64>, index: nat, tablePa: u64, current: u64) returns (installed: bool)
    requires index < table.Length
    modifies table
    ensures installed == (old(table[index]) == current)
    ensures table[..] == if installed then old(table[..])[index := TableEntry(tablePa)] else old(table[..])
  {
    installed := TableInstall(table, index, TableEntry(tablePa), current);
  }

  // ---- attributes ------------------------------------------------------

  /** R | W | SNP */
  function AttrMask(): u64
  {
    Or64(Or64(Bit64(R), Bit64(W)), Bit64(SNP))
  }

  /** pt_attr_from_entry */
  function AttrFromEntry(entry: u64): WriteAttrs
  {
    WriteAttrs(And64(entry, AttrMask()))
  }

  lemma AttrFromEntryBit(entry: u64, k: nat)
    ensures TestBit(AttrFromEntry(entry).descriptorBits, k) == (IsAttrBit(k) && TestBit(entry, k))
  {
    AndBit(entry, AttrMask(), k);
    BitBit(R, k);
    BitBit(W, k);
    BitBit(SNP, k);
    OrBit(Bit64(R), Bit64(W), k);
    OrBit(Or(Bit64(R), Bit64(W)), Bit64(SNP), k);
  }

  /**
   * pt_iommu_set_prot: -EINVAL when neither READ nor WRITE is asked for
   * (a zero entry would read as empty); otherwise R always, and W for
   * WRITE.
   */
  function SetProt(prot: Prot): Result<WriteAttrs>
  {
    if !prot.read && !prot.write then Err(EINVAL)
    else
      var pte := Or64(0, Bit64(R));
      var pte := OrIf(prot.read, pte, Bit64(R));
      Ok(WriteAttrs(OrIf(prot.write, pte, Bit64(W))))
  }

  /** set_prot fails exactly without READ and WRITE, and sets R always and W exactly for WRITE. */
  lemma SetProtBit(prot: Prot, k: nat)
    ensures SetProt(prot).Err? <==> !prot.read && !prot.write
    ensures SetProt(prot).Err? ==> SetProt(prot).err == EINVAL
    ensures SetProt(prot).Ok? ==> (TestBit(SetProt(prot).value.descriptorBits, k) <==> k == R || (k == W && prot.write))
  {
    if SetProt(prot).Ok? {
      ZeroBit(k);
      BitBit(R, k);
      BitBit(W, k);
      OrBit(0, Bit64(R), k);
      OrIfBit(prot.read, Or64(0, Bit64(R)), Bit64(R), k);
      OrIfBit(prot.write, OrIf(prot.read, Or64(0, Bit64(R)), Bit64(R)), Bit64(W), k);
    }
  }

  lemma SetProtAttrsOk(prot: Prot)
    requires SetProt(prot).Ok?
    ensures DescriptorBitsOk(SetProt(prot).value)
    ensures TestBit(SetProt(prot).value.descriptorBits, R)
  {
    SetProtBit(prot, R);
    forall k | TestBit(SetProt(prot).value.descriptorBits, k) ensures IsAttrBit(k) {
      SetProtBit(prot, k);
    }
  }

  /**
   * A leaf installed with the attributes of a successful set_prot is
   * never zero, so it never reads back as empty: it loads as an OA entry
   * at oa with the same attributes, readable always and writable exactly
   * for WRITE.
   */
  lemma InstalledLeafReadsBack(prot: Prot, oa: u64, level: nat)
    requires SetProt(prot).Ok?
    requires CanHaveLeaf(level)
    requires oa % Pow2(GRANULE_LG2SZ) == 0 && oa < Pow2(MAX_OUTPUT_ADDRESS_LG2)
    ensures LeafEntry(oa, level, SetProt(prot).value) != 0
    ensures LoadEntryRaw(LeafEntry(oa, level, SetProt(prot).value), level) == Oa
    ensures EntryOa(LeafEntry(oa, level, SetProt(prot).value)) == oa
    ensures AttrFromEntry(LeafEntry(oa, level, SetProt(prot).value)) == SetProt(prot).value
    ensures TestBit(LeafEntry(oa, level, SetProt(prot).value), R)
    ensures TestBit(LeafEntry(oa, level, SetProt(prot).value), W) <==> prot.write
  {
    var attrs := SetProt(prot).value;
    SetProtAttrsOk(prot);
    LeafRoundTrip(oa, level, attrs);
    LeafEntryBit(oa, level, attrs, R);
    LeafEntryBit(oa, level, attrs, W);
    SetProtBit(prot, W);
  }

  // ---- configuration -----------------------------------------------------

  /** The top level fmt_init always picks: the 4 level, 48-bit form. */
  const INIT_TOP_LEVEL: nat := 3

  /**
   * pt_iommu_fmt_init: always the 4 level table, whatever the
   * configuration asks for.
   */
  method FmtInit(common: Common) returns (status: Status)
    modifies common
    ensures status == Success
    ensures common.TopLevel() == INIT_TOP_LEVEL && common.TopTable() == old(common.TopTable())
    ensures common.features == old(common.features) && common.maxVaszLg2 == old(common.maxVaszLg2)
    ensures common.maxOaszLg2 == old(common.maxOaszLg2)
  {
    Pow2Is256();
    common.TopSetLevel(INIT_TOP_LEVEL);
    return Success;
  }

  /** The top table fmt_init picks spans a 48-bit VA and cannot hold pages. */
  lemma InitTopLevelCovers()
    ensures TableItemLg2sz(INIT_TOP_LEVEL) + NumItemsLg2() == 48
    ensures !CanHaveLeaf(INIT_TOP_LEVEL) && INIT_TOP_LEVEL <= MAX_TOP_LEVEL
  {
  }
}
