// The x86 PAE page table in its 3, 4 and 5 level forms (section 4.4 of the
// Intel Software Developer's Manual Volume 3, and its reuse as the
// first-stage table of VT-d and the guest table of the AMD IOMMU). Levels
// are numbered as in the generic page table: level 0 is the PTE table,
// level 1 the page directory, level 2 the PDPT, 3 the PML4 and 4 the PML5.

module PtX86pae {
  import opened Bits
  import opened PtLog2
  import opened Bitfield
  import opened PtDefs
  import opened Errno

  const MAX_OUTPUT_ADDRESS_LG2: nat := 52
  const MAX_VA_ADDRESS_LG2: nat := 57
  const MAX_TOP_LEVEL: nat := 4
  const GRANULE_LG2SZ: nat := 12
  const TABLEMEM_LG2SZ: nat := 12
  const ENTRY_WORD_LG2SZ: nat := 3

  // Descriptor bits, as bit numbers, and the OA field as GENMASK(HI, LO).
  const P: nat := 0
  const RW: nat := 1
  const U: nat := 2
  const A: nat := 5
  const D: nat := 6
  const PS: nat := 7
  const OA_HI: nat := 51
  const OA_LO: nat := 12
  const XD: nat := 63

  datatype WriteAttrs = WriteAttrs(descriptorBits: u64)

  // ---- geometry --------------------------------------------------------

  /** pt_table_item_lg2sz: an item of a level spans 2^(12 + 9 level) bytes. */
  function TableItemLg2sz(level: nat): nat
  {
    GRANULE_LG2SZ + (TABLEMEM_LG2SZ - ENTRY_WORD_LG2SZ) * level
  }

  /** pt_num_items_lg2: every table holds 512 entries. */
  function NumItemsLg2(): nat
  {
    TABLEMEM_LG2SZ - ENTRY_WORD_LG2SZ
  }

  /** pt_can_have_leaf: pages of 4K, 2M and 1G, at levels 0 to 2. */
  predicate CanHaveLeaf(level: nat)
  {
    level <= 2
  }

  /**
   * Items span the table of the level below, leaves are 4K, 2M or 1G,
   * and the top of the 5 level form spans the 57-bit VA.
   */
  lemma Geometry(level: nat)
    ensures Pow2(NumItemsLg2()) == 512
    ensures TableItemLg2sz(level + 1) == TableItemLg2sz(level) + NumItemsLg2()
    ensures TableItemLg2sz(0) == 12 && TableItemLg2sz(1) == 21 && TableItemLg2sz(2) == 30
    ensures TableItemLg2sz(MAX_TOP_LEVEL) + NumItemsLg2() == MAX_VA_ADDRESS_LG2
    ensures CanHaveLeaf(level) <==> TableItemLg2sz(level) <= 30
  {
    assert Pow2(9) == 512;
  }

  // ---- output addresses ------------------------------------------------

  /** The 40-bit OA field of an entry. */
  function OaField(entry: u64): u64
  {
    FieldGetBound(OA_HI, OA_LO, entry);
    Pow2Monotone(OA_HI - OA_LO + 1, 64);
    Pow2Words();
    FieldGet(OA_HI, OA_LO, entry)
  }

  lemma OaFieldBit(entry: u64, j: nat)
    ensures TestBit(OaField(entry), j) == (j <= OA_HI - OA_LO && TestBit(entry, j + OA_LO))
  {
    FieldGetBit(OA_HI, OA_LO, entry, j);
  }

  /** pt_table_pa: the OA field in units of the 4K table size. */
  function TablePa(entry: u64): u64
  {
    Mul(OaField(entry), TABLEMEM_LG2SZ)
  }

  /** pt_entry_oa: the OA field in units of the 4K granule. */
  function EntryOa(entry: u64): u64
  {
    Mul(OaField(entry), GRANULE_LG2SZ)
  }

  /** FIELD_PREP(OA, oa >> 12) sets exactly bits 12..51 of oa. */
  lemma OaPrepBit(oa: u64, k: nat)
    ensures TestBit(Prep64(OA_HI, OA_LO, Div(oa, GRANULE_LG2SZ)), k) == (OA_LO <= k <= OA_HI && TestBit(oa, k))
  {
    FieldPrepBit(OA_HI, OA_LO, Div(oa, GRANULE_LG2SZ), k);
    if k >= OA_LO {
      ShrBit(oa, GRANULE_LG2SZ, k - GRANULE_LG2SZ);
    }
  }

  /** A word holding the bits 12..51 of an aligned address decodes to it. */
  lemma ScaledOaEquals(e: u64, oa: u64)
    requires BitsWithin(oa, OA_LO, OA_HI + 1)
    requires forall k :: OA_LO <= k <= OA_HI ==> TestBit(e, k) == TestBit(oa, k)
    ensures EntryOa(e) == oa && TablePa(e) == oa
  {
    forall k: nat | k < 64 ensures TestBit(EntryOa(e), k) == TestBit(oa, k) {
      MulBit(OaField(e), GRANULE_LG2SZ, k);
      if k >= GRANULE_LG2SZ {
        OaFieldBit(e, k - GRANULE_LG2SZ);
      }
    }
    BitsEqual64(EntryOa(e), oa);
  }

  // ---- classification ----------------------------------------------------

  /**
   * pt_load_entry_raw: P clear is empty; level 0, or a leaf-capable level
   * with PS set, holds a page; anything else points at a table.
   */
  function LoadEntryRaw(entry: u64, level: nat): EntryType
  {
    if !TestBit(entry, P) then Empty
    else if level == 0 || (CanHaveLeaf(level) && TestBit(entry, PS)) then Oa
    else Table
  }

  // ---- leaves ----------------------------------------------------------

  /** The bits attr_from_entry keeps. */
  predicate IsAttrBit(k: nat)
  {
    k == RW || k == U || k == A || k == D || k == XD
  }

  ghost predicate DescriptorBitsOk(attrs: WriteAttrs)
  {
    forall k :: TestBit(attrs.descriptorBits, k) ==> IsAttrBit(k)
  }

  /** The leaf word install_leaf_entry stores: P | OA | attributes, and PS above level 0. */
  function LeafEntry(oa: u64, level: nat, attrs: WriteAttrs): u64
  {
    var entry := Or64(Or64(Bit64(P), Prep64(OA_HI, OA_LO, Div(oa, GRANULE_LG2SZ))), attrs.descriptorBits);
    OrIf(level != 0, entry, Bit64(PS))
  }

  lemma LeafEntryBit(oa: u64, level: nat, attrs: WriteAttrs, k: nat)
    ensures TestBit(LeafEntry(oa, level, attrs), k) ==
            (k == P || (OA_LO <= k <= OA_HI && TestBit(oa, k)) || TestBit(attrs.descriptorBits, k) ||
             (k == PS && level != 0))
  {
    var a := Prep64(OA_HI, OA_LO, Div(oa, GRANULE_LG2SZ));
    OaPrepBit(oa, k);
    BitBit(P, k);
    BitBit(PS, k);
    OrBit(Bit64(P), a, k);
    OrBit(Or64(Bit64(P), a), attrs.descriptorBits, k);
    OrIfBit(level != 0, Or64(Or64(Bit64(P), a), attrs.descriptorBits), Bit64(PS), k);
  }

  /**
   * pt_install_leaf_entry: store the leaf in the one slot at index; the
   * page size is the level's item size, so oasz_lg2 plays no part.
   */
  method InstallLeafEntry(table: array<u64>, index: nat, level: nat, oa: u64, oaszLg2: nat, attrs: WriteAttrs)
    returns (entry: u64)
    requires index < table.Length
    modifies table
    ensures entry == LeafEntry(oa, level, attrs)
    ensures table[..] == old(table[..])[index := entry]
  {
    entry := LeafEntry(oa, level, attrs);
    table[index] := entry;
  }

  /**
   * A leaf at a leaf-capable level for a 4K-aligned address below 2^52
   * loads as an OA entry, entry_oa gives the address back and
   * attr_from_entry the attributes.
   */
  lemma LeafRoundTrip(oa: u64, level: nat, attrs: WriteAttrs)
    requires CanHaveLeaf(level)
    requires oa % Pow2(GRANULE_LG2SZ) == 0 && oa < Pow2(MAX_OUTPUT_ADDRESS_LG2)
    requires DescriptorBitsOk(attrs)
    ensures LoadEntryRaw(LeafEntry(oa, level, attrs), level) == Oa
    ensures EntryOa(LeafEntry(oa, level, attrs)) == oa
    ensures AttrFromEntry(LeafEntry(oa, level, attrs)) == attrs
  {
    var e := LeafEntry(oa, level, attrs);
    BitsWithinOfAligned(oa, OA_LO, OA_HI + 1);
    LeafEntryBit(oa, level, attrs, P);
    LeafEntryBit(oa, level, attrs, PS);
    forall k | OA_LO <= k <= OA_HI ensures TestBit(e, k) == TestBit(oa, k) {
      LeafEntryBit(oa, level, attrs, k);
    }
    ScaledOaEquals(e, oa);
    LeafAttrsReadBack(oa, level, attrs);
  }

  lemma LeafAttrsReadBack(oa: u64, level: nat, attrs: WriteAttrs)
    requires DescriptorBitsOk(attrs)
    ensures AttrFromEntry(LeafEntry(oa, level, attrs)) == attrs
  {
    var e := LeafEntry(oa, level, attrs);
    forall k | 0 <= k < 64 ensures TestBit(AttrFromEntry(e).descriptorBits, k) == TestBit(attrs.descriptorBits, k) {
      AttrFromEntryBit(e, k);
      LeafEntryBit(oa, level, attrs, k);
    }
    BitsEqual64(AttrFromEntry(e).descriptorBits, attrs.descriptorBits);
  }

  // ---- tables ----------------------------------------------------------

  /** P | RW | U | A | OA */
  function TableEntry(tablePa: u64): u64
  {
    Or64(Or64(Or64(Or64(Bit64(P), Bit64(RW)), Bit64(U)), Bit64(A)), Prep64(OA_HI, OA_LO, Div(tablePa, GRANULE_LG2SZ)))
  }

  lemma TableEntryBit(pa: u64, k: nat)
    ensures TestBit(TableEntry(pa), k) == (k == P || k == RW || k == U || k == A || (OA_LO <= k <= OA_HI && TestBit(pa, k)))
  {
    BitBit(P, k);
    BitBit(RW, k);
    BitBit(U, k);
    BitBit(A, k);
    OaPrepBit(pa, k);
    OrBit(Bit64(P), Bit64(RW), k);
    OrBit(Or(Bit64(P), Bit64(RW)), Bit64(U), k);
    OrBit(Or(Or(Bit64(P), Bit64(RW)), Bit64(U)), Bit64(A), k);
    OrBit(Or(Or(Or(Bit64(P), Bit64(RW)), Bit64(U)), Bit64(A)), Prep64(OA_HI, OA_LO, Div(pa, GRANULE_LG2SZ)), k);
  }

  /**
   * A table entry for a 4K-aligned table below 2^52 loads above level 0
   * as a table (PS is clear) pointing at that table, writable by the
   * levels below.
   */
  lemma TableEntryRoundTrip(pa: u64, level: nat)
    requires 1 <= level
    requires pa % Pow2(TABLEMEM_LG2SZ) == 0 && pa < Pow2(MAX_OUTPUT_ADDRESS_LG2)
    ensures LoadEntryRaw(TableEntry(pa), level) == Table
    ensures TablePa(TableEntry(pa)) == pa
    ensures TestBit(TableEntry(pa), RW) && TestBit(TableEntry(pa), U) && TestBit(TableEntry(pa), A)
  {
    BitsWithinOfAligned(pa, OA_LO, OA_HI + 1);
    TableEntryBit(pa, P);
    TableEntryBit(pa, PS);
    TableEntryBit(pa, RW);
    TableEntryBit(pa, U);
    TableEntryBit(pa, A);
    forall k | OA_LO <= k <= OA_HI ensures TestBit(TableEntry(pa), k) == TestBit(pa, k) {
      TableEntryBit(pa, k);
    }
    ScaledOaEquals(TableEntry(pa), pa);
  }

  /** pt_install_table: compare-and-set of the table entry against pts->entry. */
  method InstallTable(table: array<u64>, index: nat, tablePa: u64, current: u64) returns (installed: bool)
    requires index < table.Length
    modifies table
    ensures installed == (old(table[index]) == current)
    ensures table[..] == if installed then old(table[..])[index := TableEntry(tablePa)] else old(table[..])
  {
    installed := TableInstall(table, index, TableEntry(tablePa), current);
  }

  // ---- attributes ------------------------------------------------------

  /** RW | U | A | D | XD */
  function AttrMask(): u64
  {
    Or64(Or64(Or64(Or64(Bit64(RW), Bit64(U)), Bit64(A)), Bit64(D)), Bit64(XD))
  }

  /** pt_attr_from_entry */
  function AttrFromEntry(entry: u64): WriteAttrs
  {
    WriteAttrs(And64(entry, AttrMask()))
  }

  lemma AttrFromEntryBit(entry: u64, k: nat)
    ensures TestBit(AttrFromEntry(entry).descriptorBits, k) == (IsAttrBit(k) && TestBit(entry, k))
  {
    AndBit(entry, AttrMask(), k);
    BitBit(RW, k);
    BitBit(U, k);
    BitBit(A, k);
    BitBit(D, k);
    BitBit(XD, k);
    OrBit(Bit64(RW), Bit64(U), k);
    OrBit(Or(Bit64(RW), Bit64(U)), Bit64(A), k);
    OrBit(Or(Or(Bit64(RW), Bit64(U)), Bit64(A)), Bit64(D), k);
    OrBit(Or(Or(Or(Bit64(RW), Bit64(U)), Bit64(A)), Bit64(D)), Bit64(XD), k);
  }

  /** pt_iommu_set_prot: U | A | D, and RW for WRITE. */
  function SetProt(prot: Prot): WriteAttrs
  {
    WriteAttrs(OrIf(prot.write, Or64(Or64(Bit64(U), Bit64(A)), Bit64(D)), Bit64(RW)))
  }

  /** set_prot sets U, A and D, sets RW exactly for WRITE, and looks at no other request bit. */
  lemma SetProtBit(prot: Prot, k: nat)
    ensures TestBit(SetProt(prot).descriptorBits, k) <==> k == U || k == A || k == D || (k == RW && prot.write)
  {
    BitBit(U, k);
    BitBit(A, k);
    BitBit(D, k);
    BitBit(RW, k);
    OrBit(Bit64(U), Bit64(A), k);
    OrBit(Or(Bit64(U), Bit64(A)), Bit64(D), k);
    OrIfBit(prot.write, Or64(Or64(Bit64(U), Bit64(A)), Bit64(D)), Bit64(RW), k);
  }

  lemma SetProtAttrsOk(prot: Prot)
    ensures DescriptorBitsOk(SetProt(prot))
  {
    forall k | TestBit(SetProt(prot).descriptorBits, k) ensures IsAttrBit(k) {
      SetProtBit(prot, k);
    }
  }

  /**
   * A leaf installed with set_prot's attributes reads back as an OA entry
   * at oa, attr_from_entry recovers exactly those attributes, and the
   * entry is writable exactly for WRITE and never execute-disabled.
   */
  lemma InstalledLeafReadsBack(prot: Prot, oa: u64, level: nat)
    requires CanHaveLeaf(level)
    requires oa % Pow2(GRANULE_LG2SZ) == 0 && oa < Pow2(MAX_OUTPUT_ADDRESS_LG2)
    ensures LoadEntryRaw(LeafEntry(oa, level, SetProt(prot)), level) == Oa
    ensures EntryOa(LeafEntry(oa, level, SetProt(prot))) == oa
    ensures AttrFromEntry(LeafEntry(oa, level, SetProt(prot))) == SetProt(prot)
    ensures TestBit(LeafEntry(oa, level, SetProt(prot)), RW) <==> prot.write
    ensures !TestBit(LeafEntry(oa, level, SetProt(prot)), XD)
  {
    SetProtAttrsOk(prot);
    LeafRoundTrip(oa, level, SetProt(prot));
    LeafEntryBit(oa, level, SetProt(prot), RW);
    LeafEntryBit(oa, level, SetProt(prot), XD);
    SetProtBit(prot, RW);
    SetProtBit(prot, XD);
  }

  // ---- configuration -----------------------------------------------------

  /** fmt_init's choice: 39, 48 and 57 bits of VA take 3, 4 and 5 levels. */
  function InitTopLevel(vaszLg2: nat): Result<nat>
  {
    if vaszLg2 == 39 then Ok(2)
    else if vaszLg2 == 48 then Ok(3)
    else if vaszLg2 == 57 then Ok(4)
    else Err(EINVAL)
  }

  /**
   * fmt_init accepts only the three paging forms, and the top level it
   * picks spans exactly the VA.
   */
  lemma InitTopLevelCovers(vaszLg2: nat)
    ensures InitTopLevel(vaszLg2).Ok? <==> vaszLg2 in {39, 48, 57}
    ensures InitTopLevel(vaszLg2).Err? ==> InitTopLevel(vaszLg2).err == EINVAL
    ensures InitTopLevel(vaszLg2).Ok? ==>
              2 <= InitTopLevel(vaszLg2).value <= MAX_TOP_LEVEL &&
              TableItemLg2sz(InitTopLevel(vaszLg2).value) + NumItemsLg2() == vaszLg2
  {
  }

  /** pt_iommu_fmt_init: set the top level for the VA size, or -EINVAL. */
  method FmtInit(common: Common, vaszLg2: nat) returns (status: Status)
    modifies common
    ensures status == if InitTopLevel(vaszLg2).Ok? then Success else Failure(EINVAL)
    ensures status.Success? ==> common.TopLevel() == InitTopLevel(vaszLg2).value && common.TopTable() == old(common.TopTable())
    ensures status.Failure? ==> common.topOfTable == old(common.topOfTable)
    ensures common.features == old(common.features) && common.maxVaszLg2 == old(common.maxVaszLg2)
    ensures common.maxOaszLg2 == old(common.maxOaszLg2)
  {
    Pow2Is256();
    if vaszLg2 == 39 {
      common.TopSetLevel(2);
    } else if vaszLg2 == 48 {
      common.TopSetLevel(3);
    } else if vaszLg2 == 57 {
      common.TopSetLevel(4);
    } else {
      return Failure(EINVAL);
    }
    return Success;
  }

  /** The paging levels hw_info reports for a top level. */
  function HwLevels(topLevel: nat): nat
  {
    topLevel + 1
  }

  /** A table fmt_init accepts runs with 3, 4 or 5 levels of 9 bits above the 4K page. */
  lemma HwLevelsOfInit(vaszLg2: nat)
    requires InitTopLevel(vaszLg2).Ok?
    ensures 3 <= HwLevels(InitTopLevel(vaszLg2).value) <= 5
    ensures vaszLg2 == GRANULE_LG2SZ + 9 * HwLevels(InitTopLevel(vaszLg2).value)
  {
  }
}
