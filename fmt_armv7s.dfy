// The ARMv7 short-descriptor page table format (the VMSAv8-32
// short-descriptor translation tables) on 32-bit entries.
//
// Levels are numbered as in the generic page table: level 0 is what the
// architecture calls the second level (4K small pages and 64K large pages)
// and level 1, the fixed top, is the first level (tables, 1M sections and
// 16M supersections).

module PtArmv7s {
  import opened Bits
  import opened PtLog2
  import opened Bitfield
  import opened PtDefs

  const MAX_OUTPUT_ADDRESS_LG2: nat := 40
  const MAX_VA_ADDRESS_LG2: nat := 32
  const ENTRY_WORD_LG2SZ: nat := 2
  const MAX_TOP_LEVEL: nat := 1
  const GRANULE_LG2SZ: nat := 12
  const TABLEMEM_LG2SZ: nat := 10
  const ITEMS_PER_TABLE: nat := 256

  // The type field, bits [1:0] of every descriptor.
  const TYPE_HI: nat := 1
  const TYPE_LO: nat := 0
  const FMT1_TYPE_TABLE: nat := 1
  const FMT1_TYPE_SECTION: nat := 2
  const FMT2_TYPE_LARGE_PAGE: nat := 1
  const FMT2_TYPE_SMALL_PAGE: nat := 2

  // Single bits.
  const FMT2_SMALL_PAGE: nat := 1
  const FMT1_SUPER_SECTION: nat := 18
  const FMT1_NS: nat := 19
  const TABLE_NS: nat := 3

  // Address fields.
  const TTB_HI: nat := 31
  const TTB_LO: nat := 10
  const FMT1S_OA_HI: nat := 31
  const FMT1S_OA_LO: nat := 20
  const SS_OA_A_HI: nat := 31
  const SS_OA_A_LO: nat := 24
  const SS_OA_B_HI: nat := 23
  const SS_OA_B_LO: nat := 20
  const SS_OA_C_HI: nat := 8
  const SS_OA_C_LO: nat := 5
  const FMT2S_OA_HI: nat := 31
  const FMT2S_OA_LO: nat := 12
  const FMT2L_OA_HI: nat := 31
  const FMT2L_OA_LO: nat := 16

  // ---- geometry --------------------------------------------------------

  /** pt_table_item_lg2sz: 4K items at level 0, 1M items at level 1. */
  function TableItemLg2sz(level: nat): nat
  {
    GRANULE_LG2SZ + (TABLEMEM_LG2SZ - ENTRY_WORD_LG2SZ) * level
  }

  /** pt_num_items_lg2: 256 words of 4 bytes fill the 1K table. */
  function NumItemsLg2(): nat
  {
    TABLEMEM_LG2SZ - ENTRY_WORD_LG2SZ
  }

  /** pt_contig_count_lg2: large pages and supersections join 16 entries. */
  const CONTIG_COUNT_LG2: nat := 4

  /**
   * pt_entry_num_contig_lg2: a level-0 entry without the small-page bit is
   * a large page and a level-1 entry with the supersection bit is a
   * supersection; both span 16 items.
   */
  function EntryNumContigLg2(entry: u32, level: nat): nat
  {
    if (level == 0 && !TestBit(entry, FMT2_SMALL_PAGE)) || (level != 0 && TestBit(entry, FMT1_SUPER_SECTION))
    then CONTIG_COUNT_LG2 else 0
  }

  /** pt_full_va_prefix: a TTBR1 table translates the top of the 32-bit VA space. */
  function FullVaPrefix(features: Features): u32
  {
    if FEAT_ARMV7S_TTBR1 in features then U32_MAX else 0
  }

  /**
   * The two levels: 256 items per 1K table, 4K and 1M items, and the
   * contiguous forms 64K and 16M. With 256 items the top level spans 2^28
   * bytes, although the VA limit is 32 bits.
   */
  lemma Geometry()
    ensures ToInt(NumItemsLg2()) == ITEMS_PER_TABLE
    ensures ITEMS_PER_TABLE * Pow2(ENTRY_WORD_LG2SZ) == Pow2(TABLEMEM_LG2SZ)
    ensures TableItemLg2sz(0) == 12 && TableItemLg2sz(1) == 20
    ensures TableItemLg2sz(1) == TableItemLg2sz(0) + NumItemsLg2()
    ensures TableItemLg2sz(MAX_TOP_LEVEL) + NumItemsLg2() == 28
    ensures Pow2(CONTIG_COUNT_LG2) == 16
  {
    Pow2Is256();
    assert Pow2(10) == 1024 by {
      Pow2Add(8, 2);
    }
    assert Pow2(4) == 16;
  }

  // ---- the three attribute encodings -----------------------------------

  /**
   * The memory attributes a leaf carries, independent of where a
   * descriptor keeps them: not-global, shareable, TEX, the three access
   * permission bits (AP0 doubles as the access flag, AP1 grants
   * unprivileged access, AP2 makes the mapping read-only), execute-never,
   * bufferable and cacheable.
   */
  datatype Attrs = Attrs(ng: bool, s: bool, tex: nat, ap0: bool, ap1: bool, ap2: bool, xn: bool, b: bool, c: bool)

  /** Where one descriptor layout keeps each attribute: bit numbers and the lowest bit of TEX. */
  datatype Layout = Layout(ng: nat, s: nat, texLo: nat, ap0: nat, ap1: nat, ap2: nat, xn: nat, b: nat, c: nat)

  /** TEX is three bits wide in every layout. */
  function TexHi(l: Layout): nat
  {
    l.texLo + 2
  }

  /** Sections and supersections (level 1). */
  const FMT1: Layout := Layout(17, 16, 12, 10, 11, 15, 4, 2, 3)
  /** Small pages (level 0). */
  const FMT2S: Layout := Layout(11, 10, 6, 4, 5, 9, 0, 2, 3)
  /** Large pages (level 0). */
  const FMT2L: Layout := Layout(11, 10, 12, 4, 5, 9, 15, 2, 3)

  /** Every position lies in a 32-bit word. */
  predicate Fits(l: Layout)
  {
    TexHi(l) < 32 &&
    l.ng < 32 && l.s < 32 && l.ap0 < 32 && l.ap1 < 32 && l.ap2 < 32 && l.xn < 32 && l.b < 32 && l.c < 32
  }

  /** No two attributes share a bit. */
  predicate Distinct(l: Layout)
  {
    l.ng != l.s && l.ng != l.ap0 && l.ng != l.ap1 && l.ng != l.ap2 && l.ng != l.xn && l.ng != l.b &&
    l.ng != l.c && l.s != l.ap0 && l.s != l.ap1 && l.s != l.ap2 && l.s != l.xn && l.s != l.b &&
    l.s != l.c && l.ap0 != l.ap1 && l.ap0 != l.ap2 && l.ap0 != l.xn && l.ap0 != l.b && l.ap0 != l.c &&
    l.ap1 != l.ap2 && l.ap1 != l.xn && l.ap1 != l.b && l.ap1 != l.c && l.ap2 != l.xn && l.ap2 != l.b &&
    l.ap2 != l.c && l.xn != l.b && l.xn != l.c && l.b != l.c &&
    !(l.texLo <= l.ng <= TexHi(l)) && !(l.texLo <= l.s <= TexHi(l)) && !(l.texLo <= l.ap0 <= TexHi(l)) &&
    !(l.texLo <= l.ap1 <= TexHi(l)) && !(l.texLo <= l.ap2 <= TexHi(l)) && !(l.texLo <= l.xn <= TexHi(l)) &&
    !(l.texLo <= l.b <= TexHi(l)) && !(l.texLo <= l.c <= TexHi(l))
  }

  lemma LayoutsWellFormed()
    ensures Fits(FMT1) && Distinct(FMT1)
    ensures Fits(FMT2S) && Distinct(FMT2S)
    ensures Fits(FMT2L) && Distinct(FMT2L)
  {
  }

  /** Bit k belongs to one of the attributes of layout l. */
  predicate InLayout(l: Layout, k: nat)
  {
    k == l.ng || k == l.s || l.texLo <= k <= TexHi(l) || k == l.ap0 || k == l.ap1 || k == l.ap2 ||
    k == l.xn || k == l.b || k == l.c
  }

  /** The attribute word for a in layout l has bit k set. */
  predicate EncodedBit(l: Layout, a: Attrs, k: nat)
  {
    EncodedFlagBit(l, a, k) || TexBit(l, a.tex, k)
  }

  predicate EncodedFlagBit(l: Layout, a: Attrs, k: nat)
  {
    (a.ng && k == l.ng) || (a.s && k == l.s) ||
    (a.ap0 && k == l.ap0) || (a.ap1 && k == l.ap1) || (a.ap2 && k == l.ap2) ||
    (a.xn && k == l.xn) || (a.b && k == l.b) || (a.c && k == l.c)
  }

  /** Bit k lies in the TEX field of l and carries the matching bit of tex. */
  predicate TexBit(l: Layout, tex: nat, k: nat)
  {
    l.texLo <= k <= TexHi(l) && TestBit(tex, k - l.texLo)
  }

  /** `if (c) pte |= BIT(n)` contributes this word. */
  function Flag(c: bool, n: nat): u32
    requires n < 32
  {
    if c then Bit32(n) else 0
  }

  /**
   * The SET_PTE_MASK / COPY_PTE_MASK accumulation into one word: each
   * attribute stored at its place in layout l, in the order NG, S, TEX,
   * AP0, AP1, AP2, XN, B, C.
   */
  function Encode(l: Layout, a: Attrs): u32
    requires Fits(l)
  {
    var w0 := Or32(Flag(a.ng, l.ng), Flag(a.s, l.s));
    var w1 := Or32(w0, Prep32(TexHi(l), l.texLo, a.tex));
    var w2 := Or32(w1, Flag(a.ap0, l.ap0));
    var w3 := Or32(w2, Flag(a.ap1, l.ap1));
    var w4 := Or32(w3, Flag(a.ap2, l.ap2));
    var w5 := Or32(w4, Flag(a.xn, l.xn));
    var w6 := Or32(w5, Flag(a.b, l.b));
    Or32(w6, Flag(a.c, l.c))
  }

  /** The FIELD_GET half of COPY_PTE_MASK: the attributes read from entry in layout l. */
  function Decode(l: Layout, entry: u32): Attrs
  {
    Attrs(TestBit(entry, l.ng), TestBit(entry, l.s), FieldGet(TexHi(l), l.texLo, entry),
          TestBit(entry, l.ap0), TestBit(entry, l.ap1), TestBit(entry, l.ap2),
          TestBit(entry, l.xn), TestBit(entry, l.b), TestBit(entry, l.c))
  }

  lemma FlagBit(c: bool, n: nat, k: nat)
    requires n < 32
    ensures TestBit(Flag(c, n), k) == (c && k == n)
  {
    BitBit(n, k);
    ZeroBit(k);
  }

  /** The encoded word has exactly the bits of EncodedBit. */
  lemma EncodeBit(l: Layout, a: Attrs, k: nat)
    requires Fits(l)
    ensures TestBit(Encode(l, a), k) == EncodedBit(l, a, k)
  {
    var w0 := Or32(Flag(a.ng, l.ng), Flag(a.s, l.s));
    var w1 := Or32(w0, Prep32(TexHi(l), l.texLo, a.tex));
    var w2 := Or32(w1, Flag(a.ap0, l.ap0));
    var w3 := Or32(w2, Flag(a.ap1, l.ap1));
    var w4 := Or32(w3, Flag(a.ap2, l.ap2));
    var w5 := Or32(w4, Flag(a.xn, l.xn));
    var w6 := Or32(w5, Flag(a.b, l.b));
    OrBit(Flag(a.ng, l.ng), Flag(a.s, l.s), k);
    OrBit(w0, Prep32(TexHi(l), l.texLo, a.tex), k);
    OrBit(w1, Flag(a.ap0, l.ap0), k);
    OrBit(w2, Flag(a.ap1, l.ap1), k);
    OrBit(w3, Flag(a.ap2, l.ap2), k);
    OrBit(w4, Flag(a.xn, l.xn), k);
    OrBit(w5, Flag(a.b, l.b), k);
    OrBit(w6, Flag(a.c, l.c), k);
    FlagBit(a.ng, l.ng, k);
    FlagBit(a.s, l.s, k);
    FlagBit(a.ap0, l.ap0, k);
    FlagBit(a.ap1, l.ap1, k);
    FlagBit(a.ap2, l.ap2, k);
    FlagBit(a.xn, l.xn, k);
    FlagBit(a.b, l.b, k);
    FlagBit(a.c, l.c, k);
    FieldPrepBit(TexHi(l), l.texLo, a.tex, k);
  }

  /** An encoded word has no bit outside its layout. */
  lemma EncodeInLayout(l: Layout, a: Attrs, k: nat)
    requires Fits(l)
    requires !InLayout(l, k)
    ensures !TestBit(Encode(l, a), k)
  {
    EncodeBit(l, a, k);
  }

  /**
   * Reading a word whose layout bits are those of Encode(l, a) gives back
   * a, whatever the word holds outside the layout.
   */
  lemma DecodeOfEncoded(l: Layout, a: Attrs, entry: u32)
    requires Fits(l) && Distinct(l) && a.tex < 8
    requires forall k :: InLayout(l, k) ==> TestBit(entry, k) == EncodedBit(l, a, k)
    ensures Decode(l, entry) == a
  {
    FlagsOfEncoded(l, a, entry);
    TexOfEncoded(l, a, entry);
  }

  lemma FlagsOfEncoded(l: Layout, a: Attrs, entry: u32)
    requires Fits(l) && Distinct(l)
    requires forall k :: InLayout(l, k) ==> TestBit(entry, k) == EncodedBit(l, a, k)
    ensures TestBit(entry, l.ng) == a.ng && TestBit(entry, l.s) == a.s
    ensures TestBit(entry, l.ap0) == a.ap0 && TestBit(entry, l.ap1) == a.ap1 && TestBit(entry, l.ap2) == a.ap2
    ensures TestBit(entry, l.xn) == a.xn && TestBit(entry, l.b) == a.b && TestBit(entry, l.c) == a.c
  {
    FlagsOutsideTex(l, a.tex);
    assert InLayout(l, l.ng) && InLayout(l, l.s) && InLayout(l, l.ap0) && InLayout(l, l.ap1);
    assert InLayout(l, l.ap2) && InLayout(l, l.xn) && InLayout(l, l.b) && InLayout(l, l.c);
  }

  /** No flag position of l carries a TEX bit. */
  lemma FlagsOutsideTex(l: Layout, tex: nat)
    requires Distinct(l)
    ensures !TexBit(l, tex, l.ng) && !TexBit(l, tex, l.s) && !TexBit(l, tex, l.ap0) && !TexBit(l, tex, l.ap1)
    ensures !TexBit(l, tex, l.ap2) && !TexBit(l, tex, l.xn) && !TexBit(l, tex, l.b) && !TexBit(l, tex, l.c)
  {
  }

  lemma TexOfEncoded(l: Layout, a: Attrs, entry: u32)
    requires Fits(l) && Distinct(l) && a.tex < 8
    requires forall k :: InLayout(l, k) ==> TestBit(entry, k) == EncodedBit(l, a, k)
    ensures FieldGet(TexHi(l), l.texLo, entry) == a.tex
  {
    TexBitOfEncoded(l, a, entry, 0);
    TexBitOfEncoded(l, a, entry, 1);
    TexBitOfEncoded(l, a, entry, 2);
    FieldOfBits3(l.texLo, entry, a.tex);
  }

  /** Bit i of the TEX field of an encoded word is bit i of tex. */
  lemma TexBitOfEncoded(l: Layout, a: Attrs, entry: u32, i: nat)
    requires Distinct(l) && i < 3
    requires forall k :: InLayout(l, k) ==> TestBit(entry, k) == EncodedBit(l, a, k)
    ensures TestBit(entry, l.texLo + i) == TestBit(a.tex, i)
  {
    var k := l.texLo + i;
    assert InLayout(l, k);
    TexNotFlag(l, a, k);
    assert TexBit(l, a.tex, k) == TestBit(a.tex, i);
  }

  /** No flag of a lands in the TEX field. */
  lemma TexNotFlag(l: Layout, a: Attrs, k: nat)
    requires Distinct(l) && l.texLo <= k <= TexHi(l)
    ensures !EncodedFlagBit(l, a, k)
  {
  }

  /** A three-bit field whose bits are those of t holds t. */
  lemma FieldOfBits3(lo: nat, e: nat, t: nat)
    requires t < 8
    requires TestBit(e, lo) == TestBit(t, 0) && TestBit(e, lo + 1) == TestBit(t, 1) && TestBit(e, lo + 2) == TestBit(t, 2)
    ensures FieldGet(lo + 2, lo, e) == t
  {
    var f := FieldGet(lo + 2, lo, e);
    forall j | 0 <= j < 3 ensures TestBit(f, j) == TestBit(t, j) {
      FieldGetBit(lo + 2, lo, e, j);
    }
    FieldGetBound(lo + 2, lo, e);
    assert Pow2(3) == 8;
    BitsEqual(f, t, 3);
  }

  /** Encoding then decoding in the same layout is the identity. */
  lemma DecodeEncode(l: Layout, a: Attrs)
    requires Fits(l) && Distinct(l) && a.tex < 8
    ensures Decode(l, Encode(l, a)) == a
  {
    forall k | InLayout(l, k) ensures TestBit(Encode(l, a), k) == EncodedBit(l, a, k) {
      EncodeBit(l, a, k);
    }
    DecodeOfEncoded(l, a, Encode(l, a));
  }

  // ---- set_prot and attr_from_entry ------------------------------------

  /**
   * pt_write_attrs: the attributes in each of the three encodings (pte1
   * for sections and supersections, pte2 for small pages, pte2l for large
   * pages) and whether table memory must come from the DMA32 zone.
   */
  datatype WriteAttrs = WriteAttrs(pte1: u32, pte2: u32, pte2l: u32, gfpDma32: bool)

  /** The three encodings of a; pte1 also carries NS when the table has the NS feature. */
  function EncodeAll(features: Features, a: Attrs, gfpDma32: bool): WriteAttrs
  {
    LayoutsWellFormed();
    WriteAttrs(OrIf32(FEAT_ARMV7S_NS in features, Encode(FMT1, a), Bit32(FMT1_NS)),
               Encode(FMT2S, a), Encode(FMT2L, a), gfpDma32)
  }

  /**
   * The attributes set_prot asks for: NG, S and AP0 (the access flag)
   * always, TEX = 1 unless MMIO, AP1 unless PRIV, AP2 (read-only) unless
   * WRITE, XN for NOEXEC, B for MMIO, and B and C for CACHE.
   */
  function ProtAttrs(prot: Prot): (a: Attrs)
    ensures a.tex < 8
  {
    Attrs(ng := true, s := true, tex := if prot.mmio then 0 else 1, ap0 := true, ap1 := !prot.priv,
          ap2 := !prot.write, xn := prot.noexec, b := prot.mmio || prot.cache, c := !prot.mmio && prot.cache)
  }

  /**
   * armv7s_pt_iommu_set_prot: all three encodings of ProtAttrs(prot), NS on
   * pte1 with the NS feature, and table memory from DMA32 because the table
   * pointer field holds only 32 bits. The C function always returns 0.
   */
  function SetProt(features: Features, prot: Prot): WriteAttrs
  {
    EncodeAll(features, ProtAttrs(prot), true)
  }

  /** The attributes a leaf stored at a level carries, read from its own layout. */
  function LeafAttrs(entry: u32, level: nat): Attrs
  {
    if level == 0 then
      if TestBit(entry, FMT2_SMALL_PAGE) then Decode(FMT2S, entry) else Decode(FMT2L, entry)
    else Decode(FMT1, entry)
  }

  /**
   * armv7s_pt_attr_from_entry: the entry's attributes translated into all
   * three encodings, NS added with the feature; gfp is left as it was.
   */
  function AttrFromEntry(entry: u32, level: nat, features: Features, gfpDma32: bool): WriteAttrs
  {
    EncodeAll(features, LeafAttrs(entry, level), gfpDma32)
  }

  /**
   * Each word set_prot builds reads back as ProtAttrs(prot) in its own
   * layout; NS is in pte1 exactly with the NS feature.
   */
  lemma SetProtEncodings(features: Features, prot: Prot)
    ensures Decode(FMT1, SetProt(features, prot).pte1) == ProtAttrs(prot)
    ensures Decode(FMT2S, SetProt(features, prot).pte2) == ProtAttrs(prot)
    ensures Decode(FMT2L, SetProt(features, prot).pte2l) == ProtAttrs(prot)
    ensures TestBit(SetProt(features, prot).pte1, FMT1_NS) <==> FEAT_ARMV7S_NS in features
    ensures SetProt(features, prot).gfpDma32
  {
    EncodeAllDecodes(features, ProtAttrs(prot), true);
  }

  /** The three words of EncodeAll read back as a in their own layouts. */
  lemma EncodeAllDecodes(features: Features, a: Attrs, gfpDma32: bool)
    requires a.tex < 8
    ensures Decode(FMT1, EncodeAll(features, a, gfpDma32).pte1) == a
    ensures Decode(FMT2S, EncodeAll(features, a, gfpDma32).pte2) == a
    ensures Decode(FMT2L, EncodeAll(features, a, gfpDma32).pte2l) == a
    ensures TestBit(EncodeAll(features, a, gfpDma32).pte1, FMT1_NS) <==> FEAT_ARMV7S_NS in features
  {
    var r := EncodeAll(features, a, gfpDma32);
    LayoutsWellFormed();
    DecodeEncode(FMT2S, a);
    DecodeEncode(FMT2L, a);
    forall k | InLayout(FMT1, k) ensures TestBit(r.pte1, k) == EncodedBit(FMT1, a, k) {
      Pte1Bit(features, a, gfpDma32, k);
    }
    DecodeOfEncoded(FMT1, a, r.pte1);
    Pte1Bit(features, a, gfpDma32, FMT1_NS);
  }

  /** pte1 is the FMT1 encoding plus NS with the feature. */
  lemma Pte1Bit(features: Features, a: Attrs, gfpDma32: bool, k: nat)
    ensures TestBit(EncodeAll(features, a, gfpDma32).pte1, k) ==
            (EncodedBit(FMT1, a, k) || (k == FMT1_NS && FEAT_ARMV7S_NS in features))
  {
    LayoutsWellFormed();
    OrIf32Bit(FEAT_ARMV7S_NS in features, Encode(FMT1, a), Bit32(FMT1_NS), k);
    EncodeBit(FMT1, a, k);
    BitBit(FMT1_NS, k);
  }

  // ---- descriptor fields -----------------------------------------------

  /** FIELD_PREP(ARMV7S_PT_FMT_TYPE, t) */
  function TypeBits(t: nat): u32
  {
    Prep32(TYPE_HI, TYPE_LO, t)
  }

  lemma TypeBitsBit(t: nat, k: nat)
    requires t < 4
    ensures TestBit(TypeBits(t), k) == ((k == 0 && t % 2 == 1) || (k == 1 && t / 2 == 1))
  {
    FieldPrepBit(TYPE_HI, TYPE_LO, t, k);
  }

  /** FIELD_PREP of oa >> sh into bits hi..lo. */
  function OaPrep(hi: nat, lo: nat, oa: u64, sh: nat): u32
    requires lo <= hi < 32
  {
    Prep32(hi, lo, Div(oa, sh))
  }

  lemma OaPrepBit(hi: nat, lo: nat, oa: u64, sh: nat, k: nat)
    requires lo <= hi < 32
    ensures TestBit(OaPrep(hi, lo, oa, sh), k) == (lo <= k <= hi && TestBit(oa, k - lo + sh))
  {
    FieldPrepBit(hi, lo, Div(oa, sh), k);
    if lo <= k {
      ShrBit(oa, sh, k - lo);
    }
  }

  /** oalog2_mul(FIELD_GET(GENMASK(hi, lo), entry), sh) */
  function OaGet(hi: nat, lo: nat, entry: u32, sh: nat): u64
    requires lo <= hi < 32 && sh < 64
  {
    FieldGetBound(hi, lo, entry);
    Pow2Monotone(hi - lo + 1, 64);
    Pow2Words();
    Mul(FieldGet(hi, lo, entry), sh)
  }

  lemma OaGetBit(hi: nat, lo: nat, entry: u32, sh: nat, k: nat)
    requires lo <= hi < 32 && sh < 64
    ensures TestBit(OaGet(hi, lo, entry, sh), k) == (sh <= k < 64 && k - sh <= hi - lo && TestBit(entry, k - sh + lo))
  {
    FieldGetBound(hi, lo, entry);
    Pow2Monotone(hi - lo + 1, 64);
    Pow2Words();
    MulBit(FieldGet(hi, lo, entry), sh, k);
    if sh <= k {
      FieldGetBit(hi, lo, entry, k - sh);
    }
  }

  // ---- decoding a slot -------------------------------------------------

  /** armv7s_pt_load_entry_raw: type 0 is empty, type 1 at level 1 a table, anything else a leaf. */
  function LoadEntryRaw(entry: u32, level: nat): EntryType
  {
    var t := FieldGet(TYPE_HI, TYPE_LO, entry);
    if t == 0 then Empty
    else if level == 1 && t == FMT1_TYPE_TABLE then Table
    else EntryType.Oa
  }

  lemma TypeFieldValue(entry: u32)
    ensures FieldGet(TYPE_HI, TYPE_LO, entry) == (if TestBit(entry, 0) then 1 else 0) + (if TestBit(entry, 1) then 2 else 0)
  {
    var t := FieldGet(TYPE_HI, TYPE_LO, entry);
    var v := (if TestBit(entry, 0) then 1 else 0) + (if TestBit(entry, 1) then 2 else 0);
    FieldGetBound(TYPE_HI, TYPE_LO, entry);
    FieldGetBit(TYPE_HI, TYPE_LO, entry, 0);
    FieldGetBit(TYPE_HI, TYPE_LO, entry, 1);
    assert Pow2(2) == 4;
    BitsEqual(t, v, 2);
  }

  /** The classification by the two type bits. */
  lemma LoadEntryRawCases(entry: u32, level: nat)
    ensures LoadEntryRaw(entry, level) == Empty <==> !TestBit(entry, 0) && !TestBit(entry, 1)
    ensures LoadEntryRaw(entry, level) == Table <==> level == 1 && TestBit(entry, 0) && !TestBit(entry, 1)
  {
    TypeFieldValue(entry);
  }

  /** armv7s_pt_table_pa: the table address held in TTB. */
  function TablePa(entry: u32): u64
  {
    OaGet(TTB_HI, TTB_LO, entry, TABLEMEM_LG2SZ)
  }

  /**
   * armv7s_pt_entry_oa: the address of the start of the entry, from the
   * small-page, large-page, supersection or section OA fields.
   */
  function EntryOa(entry: u32, level: nat): u64
  {
    if level == 0 then
      if TestBit(entry, FMT2_SMALL_PAGE) then OaGet(FMT2S_OA_HI, FMT2S_OA_LO, entry, GRANULE_LG2SZ)
      else OaGet(FMT2L_OA_HI, FMT2L_OA_LO, entry, 16)
    else if TestBit(entry, FMT1_SUPER_SECTION) then
      Or64(Or64(OaGet(SS_OA_A_HI, SS_OA_A_LO, entry, 24), OaGet(SS_OA_B_HI, SS_OA_B_LO, entry, 32)),
           OaGet(SS_OA_C_HI, SS_OA_C_LO, entry, 36))
    else OaGet(FMT1S_OA_HI, FMT1S_OA_LO, entry, 20)
  }

  // ---- leaves ----------------------------------------------------------

  /** A 4K small page: type 2, OA[31:12] and the pte2 attributes. */
  function SmallPage(oa: u64, pte2: u32): u32
  {
    Or32(Or32(TypeBits(FMT2_TYPE_SMALL_PAGE), OaPrep(FMT2S_OA_HI, FMT2S_OA_LO, oa, GRANULE_LG2SZ)), pte2)
  }

  /** A 1M section: type 2, OA[31:20] and the pte1 attributes. */
  function Section(oa: u64, pte1: u32): u32
  {
    Or32(Or32(TypeBits(FMT1_TYPE_SECTION), OaPrep(FMT1S_OA_HI, FMT1S_OA_LO, oa, 20)), pte1)
  }

  /** A 64K large page: type 1, OA[31:16] and the pte2l attributes. */
  function LargePage(oa: u64, pte2l: u32): u32
  {
    Or32(Or32(TypeBits(FMT2_TYPE_LARGE_PAGE), OaPrep(FMT2L_OA_HI, FMT2L_OA_LO, oa, 16)), pte2l)
  }

  /**
   * A 16M supersection: type 2, the supersection bit, OA bits 31..24 in
   * [31:24], 35..32 in [23:20] and 39..36 in [8:5], and the pte1 attributes.
   */
  function Supersection(oa: u64, pte1: u32): u32
  {
    var w0 := Or32(TypeBits(FMT1_TYPE_SECTION), Bit32(FMT1_SUPER_SECTION));
    var w1 := Or32(w0, OaPrep(SS_OA_A_HI, SS_OA_A_LO, oa, 24));
    var w2 := Or32(w1, OaPrep(SS_OA_B_HI, SS_OA_B_LO, oa, 32));
    var w3 := Or32(w2, OaPrep(SS_OA_C_HI, SS_OA_C_LO, oa, 36));
    Or32(w3, pte1)
  }

  /** The word install_leaf_entry stores: a single item at a level, or the contiguous form. */
  function LeafEntry(oa: u64, level: nat, contig: bool, attrs: WriteAttrs): u32
  {
    if level == 0 then
      if contig then LargePage(oa, attrs.pte2l) else SmallPage(oa, attrs.pte2)
    else
      if contig then Supersection(oa, attrs.pte1) else Section(oa, attrs.pte1)
  }

  lemma SmallPageBit(oa: u64, pte2: u32, k: nat)
    ensures TestBit(SmallPage(oa, pte2), k) ==
            (k == 1 || (12 <= k <= 31 && TestBit(oa, k)) || TestBit(pte2, k))
  {
    var t := TypeBits(FMT2_TYPE_SMALL_PAGE);
    var o := OaPrep(FMT2S_OA_HI, FMT2S_OA_LO, oa, GRANULE_LG2SZ);
    TypeBitsBit(FMT2_TYPE_SMALL_PAGE, k);
    OaPrepBit(FMT2S_OA_HI, FMT2S_OA_LO, oa, GRANULE_LG2SZ, k);
    OrBit(t, o, k);
    OrBit(Or32(t, o), pte2, k);
  }

  lemma SectionBit(oa: u64, pte1: u32, k: nat)
    ensures TestBit(Section(oa, pte1), k) ==
            (k == 1 || (20 <= k <= 31 && TestBit(oa, k)) || TestBit(pte1, k))
  {
    var t := TypeBits(FMT1_TYPE_SECTION);
    var o := OaPrep(FMT1S_OA_HI, FMT1S_OA_LO, oa, 20);
    TypeBitsBit(FMT1_TYPE_SECTION, k);
    OaPrepBit(FMT1S_OA_HI, FMT1S_OA_LO, oa, 20, k);
    OrBit(t, o, k);
    OrBit(Or32(t, o), pte1, k);
  }

  lemma LargePageBit(oa: u64, pte2l: u32, k: nat)
    ensures TestBit(LargePage(oa, pte2l), k) ==
            (k == 0 || (16 <= k <= 31 && TestBit(oa, k)) || TestBit(pte2l, k))
  {
    var t := TypeBits(FMT2_TYPE_LARGE_PAGE);
    var o := OaPrep(FMT2L_OA_HI, FMT2L_OA_LO, oa, 16);
    TypeBitsBit(FMT2_TYPE_LARGE_PAGE, k);
    OaPrepBit(FMT2L_OA_HI, FMT2L_OA_LO, oa, 16, k);
    OrBit(t, o, k);
    OrBit(Or32(t, o), pte2l, k);
  }

  lemma SupersectionBit(oa: u64, pte1: u32, k: nat)
    ensures TestBit(Supersection(oa, pte1), k) ==
            (k == 1 || k == FMT1_SUPER_SECTION || (24 <= k <= 31 && TestBit(oa, k)) ||
             (20 <= k <= 23 && TestBit(oa, k + 12)) || (5 <= k <= 8 && TestBit(oa, k + 31)) || TestBit(pte1, k))
  {
    var t := TypeBits(FMT1_TYPE_SECTION);
    var a := OaPrep(SS_OA_A_HI, SS_OA_A_LO, oa, 24);
    var b := OaPrep(SS_OA_B_HI, SS_OA_B_LO, oa, 32);
    var c := OaPrep(SS_OA_C_HI, SS_OA_C_LO, oa, 36);
    var w0 := Or32(t, Bit32(FMT1_SUPER_SECTION));
    var w1 := Or32(w0, a);
    var w2 := Or32(w1, b);
    var w3 := Or32(w2, c);
    TypeBitsBit(FMT1_TYPE_SECTION, k);
    BitBit(FMT1_SUPER_SECTION, k);
    OaPrepBit(SS_OA_A_HI, SS_OA_A_LO, oa, 24, k);
    OaPrepBit(SS_OA_B_HI, SS_OA_B_LO, oa, 32, k);
    OaPrepBit(SS_OA_C_HI, SS_OA_C_LO, oa, 36, k);
    OrBit(t, Bit32(FMT1_SUPER_SECTION), k);
    OrBit(w0, a, k);
    OrBit(w1, b, k);
    OrBit(w2, c, k);
    OrBit(w3, pte1, k);
  }

  // ---- leaf round trips ------------------------------------------------

  /** The size install_leaf_entry expects: one item, or 16 of them for the contiguous form. */
  function LeafOaLg2(level: nat, contig: bool): nat
  {
    TableItemLg2sz(level) + (if contig then CONTIG_COUNT_LG2 else 0)
  }

  /** Only a supersection holds OA bits above 31. */
  function LeafOaLimitLg2(level: nat, contig: bool): nat
  {
    if level != 0 && contig then MAX_OUTPUT_ADDRESS_LG2 else 32
  }

  /**
   * What install_leaf_entry relies on of the three attribute words: each
   * reads back as a in its own layout and none has a bit where the leaf
   * forms put their type, size or OA bits.
   */
  ghost predicate WellEncoded(w: WriteAttrs, a: Attrs)
  {
    Pte2WellEncoded(w.pte2, a) && Pte2lWellEncoded(w.pte2l, a) && Pte1WellEncoded(w.pte1, a)
  }

  /** The small-page word decodes to a and leaves the OA bits 12..31 clear. */
  ghost predicate Pte2WellEncoded(p: u32, a: Attrs)
  {
    Decode(FMT2S, p) == a && forall k :: FMT2S_OA_LO <= k <= FMT2S_OA_HI ==> !TestBit(p, k)
  }

  /** The large-page word decodes to a and leaves bit 1 and the OA bits 16..31 clear. */
  ghost predicate Pte2lWellEncoded(p: u32, a: Attrs)
  {
    Decode(FMT2L, p) == a && !TestBit(p, FMT2_SMALL_PAGE) &&
    forall k :: FMT2L_OA_LO <= k <= FMT2L_OA_HI ==> !TestBit(p, k)
  }

  /**
   * The section word decodes to a and leaves clear the supersection bit and
   * every bit a supersection uses for its OA.
   */
  ghost predicate Pte1WellEncoded(p: u32, a: Attrs)
  {
    Decode(FMT1, p) == a && !TestBit(p, FMT1_SUPER_SECTION) &&
    forall k :: (SS_OA_C_LO <= k <= SS_OA_C_HI || SS_OA_B_LO <= k <= SS_OA_A_HI) ==> !TestBit(p, k)
  }

  /** The words set_prot and attr_from_entry build are well encoded. */
  lemma EncodeAllWellEncoded(features: Features, a: Attrs, gfpDma32: bool)
    requires a.tex < 8
    ensures WellEncoded(EncodeAll(features, a, gfpDma32), a)
  {
    EncodeAllDecodes(features, a, gfpDma32);
    LayoutsWellFormed();
    forall k | FMT2S_OA_LO <= k <= FMT2S_OA_HI ensures !TestBit(Encode(FMT2S, a), k) {
      EncodeInLayout(FMT2S, a, k);
    }
    forall k | FMT2L_OA_LO <= k <= FMT2L_OA_HI ensures !TestBit(Encode(FMT2L, a), k) {
      EncodeInLayout(FMT2L, a, k);
    }
    EncodeInLayout(FMT2L, a, FMT2_SMALL_PAGE);
    Pte1Clear(features, a, gfpDma32, FMT1_SUPER_SECTION);
    forall k | SS_OA_C_LO <= k <= SS_OA_C_HI || SS_OA_B_LO <= k <= SS_OA_A_HI
      ensures !TestBit(EncodeAll(features, a, gfpDma32).pte1, k)
    {
      Pte1Clear(features, a, gfpDma32, k);
    }
  }

  /** Outside the FMT1 layout and NS, pte1 has no bit set. */
  lemma Pte1Clear(features: Features, a: Attrs, gfpDma32: bool, k: nat)
    requires k != FMT1_NS && !InLayout(FMT1, k)
    ensures !TestBit(EncodeAll(features, a, gfpDma32).pte1, k)
  {
    LayoutsWellFormed();
    OrIf32Bit(FEAT_ARMV7S_NS in features, Encode(FMT1, a), Bit32(FMT1_NS), k);
    EncodeInLayout(FMT1, a, k);
    BitBit(FMT1_NS, k);
  }

  /** Words that agree on every bit of layout l decode alike. */
  lemma DecodeOfSameBits(l: Layout, x: u32, y: u32)
    requires forall k :: InLayout(l, k) ==> TestBit(x, k) == TestBit(y, k)
    ensures Decode(l, x) == Decode(l, y)
  {
    var lo := l.texLo;
    assert InLayout(l, l.ng) && InLayout(l, l.s) && InLayout(l, l.ap0) && InLayout(l, l.ap1);
    assert InLayout(l, l.ap2) && InLayout(l, l.xn) && InLayout(l, l.b) && InLayout(l, l.c);
    assert InLayout(l, lo) && InLayout(l, lo + 1) && InLayout(l, lo + 2);
    var tx := FieldGet(lo + 2, lo, x);
    FieldGetBound(lo + 2, lo, x);
    assert Pow2(2 + 1) == 8;
    FieldGetBit(lo + 2, lo, x, 0);
    FieldGetBit(lo + 2, lo, x, 1);
    FieldGetBit(lo + 2, lo, x, 2);
    FieldOfBits3(lo, y, tx);
  }

  /** The type and OA bits of a small page leave the FMT2S attributes of its pte2 word as they were. */
  lemma SmallPageKeepsAttrs(oa: u64, p: u32)
    ensures Decode(FMT2S, SmallPage(oa, p)) == Decode(FMT2S, p)
  {
    forall k | InLayout(FMT2S, k) ensures TestBit(SmallPage(oa, p), k) == TestBit(p, k) {
      SmallPageBit(oa, p, k);
    }
    DecodeOfSameBits(FMT2S, SmallPage(oa, p), p);
  }

  lemma LargePageKeepsAttrs(oa: u64, p: u32)
    ensures Decode(FMT2L, LargePage(oa, p)) == Decode(FMT2L, p)
  {
    forall k | InLayout(FMT2L, k) ensures TestBit(LargePage(oa, p), k) == TestBit(p, k) {
      LargePageBit(oa, p, k);
    }
    DecodeOfSameBits(FMT2L, LargePage(oa, p), p);
  }

  lemma SectionKeepsAttrs(oa: u64, p: u32)
    ensures Decode(FMT1, Section(oa, p)) == Decode(FMT1, p)
  {
    forall k | InLayout(FMT1, k) ensures TestBit(Section(oa, p), k) == TestBit(p, k) {
      SectionBit(oa, p, k);
    }
    DecodeOfSameBits(FMT1, Section(oa, p), p);
  }

  lemma SupersectionKeepsAttrs(oa: u64, p: u32)
    ensures Decode(FMT1, Supersection(oa, p)) == Decode(FMT1, p)
  {
    forall k | InLayout(FMT1, k) ensures TestBit(Supersection(oa, p), k) == TestBit(p, k) {
      SupersectionBit(oa, p, k);
    }
    DecodeOfSameBits(FMT1, Supersection(oa, p), p);
  }

  /** Where p has no bit in the OA field, a small page holds oa's bits 31..12 there. */
  lemma SmallPageFields(oa: u64, p: u32)
    requires forall k :: FMT2S_OA_LO <= k <= FMT2S_OA_HI ==> !TestBit(p, k)
    ensures TestBit(SmallPage(oa, p), FMT2_SMALL_PAGE)
    ensures forall j {:trigger TestBit(SmallPage(oa, p), j)} :: FMT2S_OA_LO <= j <= FMT2S_OA_HI ==> TestBit(SmallPage(oa, p), j) == TestBit(oa, j)
  {
    SmallPageBit(oa, p, FMT2_SMALL_PAGE);
    forall j | FMT2S_OA_LO <= j <= FMT2S_OA_HI ensures TestBit(SmallPage(oa, p), j) == TestBit(oa, j) {
      SmallPageBit(oa, p, j);
    }
  }

  /** Where p has no bit in the OA field or the type bits, a large page holds oa's bits 31..16 there. */
  lemma LargePageFields(oa: u64, p: u32)
    requires !TestBit(p, FMT2_SMALL_PAGE)
    requires forall k :: FMT2L_OA_LO <= k <= FMT2L_OA_HI ==> !TestBit(p, k)
    ensures TestBit(LargePage(oa, p), 0) && !TestBit(LargePage(oa, p), FMT2_SMALL_PAGE)
    ensures forall j {:trigger TestBit(LargePage(oa, p), j)} :: FMT2L_OA_LO <= j <= FMT2L_OA_HI ==> TestBit(LargePage(oa, p), j) == TestBit(oa, j)
  {
    LargePageBit(oa, p, 0);
    LargePageBit(oa, p, FMT2_SMALL_PAGE);
    forall j | FMT2L_OA_LO <= j <= FMT2L_OA_HI ensures TestBit(LargePage(oa, p), j) == TestBit(oa, j) {
      LargePageBit(oa, p, j);
    }
  }

  /** Where p has no bit in the OA field or the supersection bit, a section holds oa's bits 31..20 there. */
  lemma SectionFields(oa: u64, p: u32)
    requires !TestBit(p, FMT1_SUPER_SECTION)
    requires forall k :: FMT1S_OA_LO <= k <= FMT1S_OA_HI ==> !TestBit(p, k)
    ensures TestBit(Section(oa, p), 1) && !TestBit(Section(oa, p), FMT1_SUPER_SECTION)
    ensures forall j {:trigger TestBit(Section(oa, p), j)} :: FMT1S_OA_LO <= j <= FMT1S_OA_HI ==> TestBit(Section(oa, p), j) == TestBit(oa, j)
  {
    SectionBit(oa, p, 1);
    SectionBit(oa, p, FMT1_SUPER_SECTION);
    forall j | FMT1S_OA_LO <= j <= FMT1S_OA_HI ensures TestBit(Section(oa, p), j) == TestBit(oa, j) {
      SectionBit(oa, p, j);
    }
  }

  /** Where p has no bit in the three OA fields, a supersection holds oa's bits 39..24 there. */
  lemma SupersectionFields(oa: u64, p: u32)
    requires forall k :: (SS_OA_C_LO <= k <= SS_OA_C_HI || SS_OA_B_LO <= k <= SS_OA_A_HI) ==> !TestBit(p, k)
    ensures TestBit(Supersection(oa, p), 1) && TestBit(Supersection(oa, p), FMT1_SUPER_SECTION)
    ensures forall j {:trigger TestBit(Supersection(oa, p), j)} :: SS_OA_A_LO <= j <= SS_OA_A_HI ==> TestBit(Supersection(oa, p), j) == TestBit(oa, j)
    ensures forall j :: SS_OA_B_LO <= j <= SS_OA_B_HI ==> TestBit(Supersection(oa, p), j) == TestBit(oa, j + 12)
    ensures forall j :: SS_OA_C_LO <= j <= SS_OA_C_HI ==> TestBit(Supersection(oa, p), j) == TestBit(oa, j + 31)
  {
    SupersectionBit(oa, p, 1);
    SupersectionBit(oa, p, FMT1_SUPER_SECTION);
    forall j | SS_OA_A_LO <= j <= SS_OA_A_HI ensures TestBit(Supersection(oa, p), j) == TestBit(oa, j) {
      SupersectionBit(oa, p, j);
    }
    forall j | SS_OA_B_LO <= j <= SS_OA_B_HI ensures TestBit(Supersection(oa, p), j) == TestBit(oa, j + 12) {
      SupersectionBit(oa, p, j);
    }
    forall j | SS_OA_C_LO <= j <= SS_OA_C_HI ensures TestBit(Supersection(oa, p), j) == TestBit(oa, j + 31) {
      SupersectionBit(oa, p, j);
    }
  }

  /** Where field hi..lo of e holds the bits of oa from lo + d up, the field read back holds them too. */
  lemma OaFieldBit(hi: nat, lo: nat, d: nat, e: u32, oa: u64, k: nat)
    requires lo <= hi < 32 && lo + d < 64
    requires forall j :: lo <= j <= hi ==> TestBit(e, j) == TestBit(oa, j + d)
    ensures TestBit(OaGet(hi, lo, e, lo + d), k) == (lo + d <= k < 64 && k <= hi + d && TestBit(oa, k))
  {
    OaGetBit(hi, lo, e, lo + d, k);
    if lo + d <= k <= hi + d {
      assert TestBit(e, k - d) == TestBit(oa, k - d + d);
    }
  }

  /** An oa aligned to 2^lo whose bits all lie in field hi..lo of e reads back whole. */
  lemma OaGetOfField(hi: nat, lo: nat, e: u32, oa: u64)
    requires lo <= hi < 32
    requires BitsWithin(oa, lo, hi + 1)
    requires forall j {:trigger TestBit(e, j)} :: lo <= j <= hi ==> TestBit(e, j) == TestBit(oa, j)
    ensures OaGet(hi, lo, e, lo) == oa
  {
    forall j | lo <= j <= hi ensures TestBit(e, j) == TestBit(oa, j + 0) {
    }
    forall k | 0 <= k < 64 ensures TestBit(OaGet(hi, lo, e, lo), k) == TestBit(oa, k) {
      OaFieldBit(hi, lo, 0, e, oa, k);
    }
    BitsEqual64(OaGet(hi, lo, e, lo), oa);
  }

  /** The facts a reader of a leaf entry uses: what the load, contig, OA and attribute decoders return. */
  predicate ReadsBack(e: u32, level: nat, contig: bool, oa: u64, a: Attrs)
  {
    LoadEntryRaw(e, level) == EntryType.Oa &&
    EntryNumContigLg2(e, level) == (if contig then CONTIG_COUNT_LG2 else 0) &&
    EntryOa(e, level) == oa && LeafAttrs(e, level) == a
  }

  lemma SmallPageReadsBack(e: u32, oa: u64, a: Attrs)
    requires BitsWithin(oa, 12, 32)
    requires TestBit(e, FMT2_SMALL_PAGE)
    requires forall j {:trigger TestBit(e, j)} :: FMT2S_OA_LO <= j <= FMT2S_OA_HI ==> TestBit(e, j) == TestBit(oa, j)
    requires Decode(FMT2S, e) == a
    ensures ReadsBack(e, 0, false, oa, a)
  {
    LoadEntryRawCases(e, 0);
    OaGetOfField(FMT2S_OA_HI, FMT2S_OA_LO, e, oa);
  }

  lemma LargePageReadsBack(e: u32, oa: u64, a: Attrs)
    requires BitsWithin(oa, 16, 32)
    requires TestBit(e, 0) && !TestBit(e, FMT2_SMALL_PAGE)
    requires forall j {:trigger TestBit(e, j)} :: FMT2L_OA_LO <= j <= FMT2L_OA_HI ==> TestBit(e, j) == TestBit(oa, j)
    requires Decode(FMT2L, e) == a
    ensures ReadsBack(e, 0, true, oa, a)
  {
    LoadEntryRawCases(e, 0);
    OaGetOfField(FMT2L_OA_HI, FMT2L_OA_LO, e, oa);
  }

  lemma SectionReadsBack(e: u32, oa: u64, a: Attrs)
    requires BitsWithin(oa, 20, 32)
    requires TestBit(e, 1) && !TestBit(e, FMT1_SUPER_SECTION)
    requires forall j {:trigger TestBit(e, j)} :: FMT1S_OA_LO <= j <= FMT1S_OA_HI ==> TestBit(e, j) == TestBit(oa, j)
    requires Decode(FMT1, e) == a
    ensures ReadsBack(e, 1, false, oa, a)
  {
    LoadEntryRawCases(e, 1);
    OaGetOfField(FMT1S_OA_HI, FMT1S_OA_LO, e, oa);
  }

  lemma SupersectionReadsBack(e: u32, oa: u64, a: Attrs)
    requires BitsWithin(oa, 24, 40)
    requires TestBit(e, 1) && TestBit(e, FMT1_SUPER_SECTION)
    requires forall j {:trigger TestBit(e, j)} :: SS_OA_A_LO <= j <= SS_OA_A_HI ==> TestBit(e, j) == TestBit(oa, j)
    requires forall j :: SS_OA_B_LO <= j <= SS_OA_B_HI ==> TestBit(e, j) == TestBit(oa, j + 12)
    requires forall j :: SS_OA_C_LO <= j <= SS_OA_C_HI ==> TestBit(e, j) == TestBit(oa, j + 31)
    requires Decode(FMT1, e) == a
    ensures ReadsBack(e, 1, true, oa, a)
  {
    LoadEntryRawCases(e, 1);
    SupersectionEntryOa(e, oa);
  }

  /** The three OA fields of a supersection put the OA back together. */
  lemma SupersectionEntryOa(e: u32, oa: u64)
    requires BitsWithin(oa, 24, 40)
    requires TestBit(e, FMT1_SUPER_SECTION)
    requires forall j {:trigger TestBit(e, j)} :: SS_OA_A_LO <= j <= SS_OA_A_HI ==> TestBit(e, j) == TestBit(oa, j)
    requires forall j :: SS_OA_B_LO <= j <= SS_OA_B_HI ==> TestBit(e, j) == TestBit(oa, j + 12)
    requires forall j :: SS_OA_C_LO <= j <= SS_OA_C_HI ==> TestBit(e, j) == TestBit(oa, j + 31)
    ensures EntryOa(e, 1) == oa
  {
    var ra := OaGet(SS_OA_A_HI, SS_OA_A_LO, e, 24);
    var rb := OaGet(SS_OA_B_HI, SS_OA_B_LO, e, 32);
    var rc := OaGet(SS_OA_C_HI, SS_OA_C_LO, e, 36);
    forall j | SS_OA_A_LO <= j <= SS_OA_A_HI ensures TestBit(e, j) == TestBit(oa, j + 0) {
    }
    forall k | 0 <= k < 64 ensures TestBit(Or64(Or64(ra, rb), rc), k) == TestBit(oa, k) {
      OaFieldBit(SS_OA_A_HI, SS_OA_A_LO, 0, e, oa, k);
      OaFieldBit(SS_OA_B_HI, SS_OA_B_LO, 12, e, oa, k);
      OaFieldBit(SS_OA_C_HI, SS_OA_C_LO, 31, e, oa, k);
      OrBit(ra, rb, k);
      OrBit(Or64(ra, rb), rc, k);
    }
    BitsEqual64(Or64(Or64(ra, rb), rc), oa);
  }

  lemma SmallPageRoundTrip(w: WriteAttrs, a: Attrs, oa: u64, level: nat, contig: bool)
    requires level == 0 && contig == false
    requires Pte2WellEncoded(w.pte2, a)
    requires BitsWithin(oa, LeafOaLg2(level, contig), LeafOaLimitLg2(level, contig))
    ensures ReadsBack(LeafEntry(oa, level, contig, w), level, contig, oa, a)
  {
    SmallPageFields(oa, w.pte2);
    SmallPageKeepsAttrs(oa, w.pte2);
    SmallPageReadsBack(SmallPage(oa, w.pte2), oa, a);
  }

  lemma LargePageRoundTrip(w: WriteAttrs, a: Attrs, oa: u64, level: nat, contig: bool)
    requires level == 0 && contig == true
    requires Pte2lWellEncoded(w.pte2l, a)
    requires BitsWithin(oa, LeafOaLg2(level, contig), LeafOaLimitLg2(level, contig))
    ensures ReadsBack(LeafEntry(oa, level, contig, w), level, contig, oa, a)
  {
    LargePageFields(oa, w.pte2l);
    LargePageKeepsAttrs(oa, w.pte2l);
    LargePageReadsBack(LargePage(oa, w.pte2l), oa, a);
  }

  lemma SectionRoundTrip(w: WriteAttrs, a: Attrs, oa: u64, level: nat, contig: bool)
    requires level == 1 && contig == false
    requires Pte1WellEncoded(w.pte1, a)
    requires BitsWithin(oa, LeafOaLg2(level, contig), LeafOaLimitLg2(level, contig))
    ensures ReadsBack(LeafEntry(oa, level, contig, w), level, contig, oa, a)
  {
    SectionFields(oa, w.pte1);
    SectionKeepsAttrs(oa, w.pte1);
    SectionReadsBack(Section(oa, w.pte1), oa, a);
  }

  lemma SupersectionRoundTrip(w: WriteAttrs, a: Attrs, oa: u64, level: nat, contig: bool)
    requires level == 1 && contig == true
    requires Pte1WellEncoded(w.pte1, a)
    requires BitsWithin(oa, LeafOaLg2(level, contig), LeafOaLimitLg2(level, contig))
    ensures ReadsBack(LeafEntry(oa, level, contig, w), level, contig, oa, a)
  {
    SupersectionFields(oa, w.pte1);
    SupersectionKeepsAttrs(oa, w.pte1);
    SupersectionReadsBack(Supersection(oa, w.pte1), oa, a);
  }

  /**
   * Every leaf install_leaf_entry can write reads back: the slot loads as
   * an OA entry, reports the contiguity it was written with, and gives back
   * the OA and the attributes, for an OA aligned to the leaf and inside the
   * 32 bits (40 for a supersection) the descriptor can hold.
   */
  lemma LeafEntryRoundTrip(w: WriteAttrs, a: Attrs, oa: u64, level: nat, contig: bool)
    requires level <= MAX_TOP_LEVEL && WellEncoded(w, a)
    requires oa % Pow2(LeafOaLg2(level, contig)) == 0 && oa < Pow2(LeafOaLimitLg2(level, contig))
    ensures ReadsBack(LeafEntry(oa, level, contig, w), level, contig, oa, a)
  {
    BitsWithinOfAligned(oa, LeafOaLg2(level, contig), LeafOaLimitLg2(level, contig));
    if level == 0 {
      PageRoundTrip(w, a, oa, level, contig);
    } else {
      SectionsRoundTrip(w, a, oa, level, contig);
    }
  }

  lemma PageRoundTrip(w: WriteAttrs, a: Attrs, oa: u64, level: nat, contig: bool)
    requires level == 0 && WellEncoded(w, a)
    requires BitsWithin(oa, LeafOaLg2(level, contig), LeafOaLimitLg2(level, contig))
    ensures ReadsBack(LeafEntry(oa, level, contig, w), level, contig, oa, a)
  {
    if contig {
      LargePageRoundTrip(w, a, oa, level, contig);
    } else {
      SmallPageRoundTrip(w, a, oa, level, contig);
    }
  }

  lemma SectionsRoundTrip(w: WriteAttrs, a: Attrs, oa: u64, level: nat, contig: bool)
    requires level == 1 && WellEncoded(w, a)
    requires BitsWithin(oa, LeafOaLg2(level, contig), LeafOaLimitLg2(level, contig))
    ensures ReadsBack(LeafEntry(oa, level, contig, w), level, contig, oa, a)
  {
    if contig {
      SupersectionRoundTrip(w, a, oa, level, contig);
    } else {
      SectionRoundTrip(w, a, oa, level, contig);
    }
  }

  /**
   * attr_from_entry on a leaf written with set_prot's attributes returns
   * exactly those attributes.
   */
  lemma AttrFromEntryOfSetProt(features: Features, prot: Prot, oa: u64, level: nat, contig: bool)
    requires level <= MAX_TOP_LEVEL
    requires oa % Pow2(LeafOaLg2(level, contig)) == 0 && oa < Pow2(LeafOaLimitLg2(level, contig))
    ensures AttrFromEntry(LeafEntry(oa, level, contig, SetProt(features, prot)), level, features, true) == SetProt(features, prot)
  {
    EncodeAllWellEncoded(features, ProtAttrs(prot), true);
    LeafEntryRoundTrip(SetProt(features, prot), ProtAttrs(prot), oa, level, contig);
  }

  // ---- installing entries --------------------------------------------

  /** A level-1 table entry: type 1, the table address in TTB and NS with the feature. */
  function TableEntry(tablePa: u64, features: Features): u32
  {
    OrIf32(FEAT_ARMV7S_NS in features,
           Or32(TypeBits(FMT1_TYPE_TABLE), OaPrep(TTB_HI, TTB_LO, tablePa, TABLEMEM_LG2SZ)),
           Bit32(TABLE_NS))
  }

  lemma TableEntryBit(tablePa: u64, features: Features, k: nat)
    ensures TestBit(TableEntry(tablePa, features), k) ==
            (k == 0 || (TTB_LO <= k <= TTB_HI && TestBit(tablePa, k)) ||
             (k == TABLE_NS && FEAT_ARMV7S_NS in features))
  {
    var t := TypeBits(FMT1_TYPE_TABLE);
    var o := OaPrep(TTB_HI, TTB_LO, tablePa, TABLEMEM_LG2SZ);
    TypeBitsBit(FMT1_TYPE_TABLE, k);
    OaPrepBit(TTB_HI, TTB_LO, tablePa, TABLEMEM_LG2SZ, k);
    OrBit(t, o, k);
    OrIf32Bit(FEAT_ARMV7S_NS in features, Or32(t, o), Bit32(TABLE_NS), k);
    BitBit(TABLE_NS, k);
  }

  /** The type bits, the TTB field and the NS bit of a table entry. */
  lemma TableEntryFields(tablePa: u64, features: Features)
    ensures TestBit(TableEntry(tablePa, features), 0) && !TestBit(TableEntry(tablePa, features), 1)
    ensures TestBit(TableEntry(tablePa, features), TABLE_NS) <==> FEAT_ARMV7S_NS in features
    ensures forall j {:trigger TestBit(TableEntry(tablePa, features), j)} :: TTB_LO <= j <= TTB_HI ==>
              TestBit(TableEntry(tablePa, features), j) == TestBit(tablePa, j)
  {
    TableEntryBit(tablePa, features, 0);
    TableEntryBit(tablePa, features, 1);
    TableEntryBit(tablePa, features, TABLE_NS);
    forall j | TTB_LO <= j <= TTB_HI ensures TestBit(TableEntry(tablePa, features), j) == TestBit(tablePa, j) {
      TableEntryBit(tablePa, features, j);
    }
  }

  /** A word with type 1 and a 1K aligned 32-bit address in TTB loads at level 1 as that table. */
  lemma TableReadsBack(e: u32, tablePa: u64)
    requires BitsWithin(tablePa, TTB_LO, TTB_HI + 1)
    requires TestBit(e, 0) && !TestBit(e, 1)
    requires forall j {:trigger TestBit(e, j)} :: TTB_LO <= j <= TTB_HI ==> TestBit(e, j) == TestBit(tablePa, j)
    ensures LoadEntryRaw(e, 1) == Table && TablePa(e) == tablePa
  {
    LoadEntryRawCases(e, 1);
    OaGetOfField(TTB_HI, TTB_LO, e, tablePa);
  }

  /**
   * A table entry built for a 1K aligned 32-bit address loads at level 1
   * as a table at that address, with NS exactly when the feature is on.
   */
  lemma TableEntryRoundTrip(tablePa: u64, features: Features)
    requires tablePa % Pow2(TABLEMEM_LG2SZ) == 0 && tablePa < Pow2(32)
    ensures LoadEntryRaw(TableEntry(tablePa, features), 1) == Table
    ensures TablePa(TableEntry(tablePa, features)) == tablePa
    ensures TestBit(TableEntry(tablePa, features), TABLE_NS) <==> FEAT_ARMV7S_NS in features
  {
    BitsWithinOfAligned(tablePa, TTB_LO, TTB_HI + 1);
    TableEntryFields(tablePa, features);
    TableReadsBack(TableEntry(tablePa, features), tablePa);
  }

  /**
   * pt_install_table: store the table entry only if the slot still holds
   * current, the word last loaded from it.
   */
  method InstallTable(table: array<u32>, index: nat, tablePa: u64, features: Features, current: u32)
    returns (installed: bool)
    requires table.Length == ITEMS_PER_TABLE && index < ITEMS_PER_TABLE
    modifies table
    ensures installed == (old(table[index]) == current)
    ensures table[..] == if installed then old(table[..])[index := TableEntry(tablePa, features)] else old(table[..])
  {
    installed := TableInstall(table, index, TableEntry(tablePa, features), current);
  }

  /**
   * pt_install_leaf_entry. A leaf of the item size fills one slot with a
   * small page or a section; any other size must be the 16-item size at an
   * index aligned to 16, and then fills 16 slots with the same large page
   * or supersection word. The returned word is the new pts->entry.
   */
  method InstallLeafEntry(table: array<u32>, index: nat, level: nat, oa: u64, oaszLg2: nat, attrs: WriteAttrs)
    returns (entry: u32)
    requires table.Length == ITEMS_PER_TABLE && index < ITEMS_PER_TABLE && level <= MAX_TOP_LEVEL
    requires oaszLg2 <= 64 && Mod(oa, oaszLg2) == 0
    requires oaszLg2 != TableItemLg2sz(level) ==>
               oaszLg2 == TableItemLg2sz(level) + CONTIG_COUNT_LG2 && Mod(index, CONTIG_COUNT_LG2) == 0
    modifies table
    ensures entry == LeafEntry(oa, level, oaszLg2 != TableItemLg2sz(level), attrs)
    ensures oaszLg2 == TableItemLg2sz(level) ==> table[..] == old(table[..])[index := entry]
    ensures oaszLg2 != TableItemLg2sz(level) ==>
              index + 16 <= ITEMS_PER_TABLE && table[..] == Spliced(old(table[..]), index, seq(16, _ => entry))
  {
    var isz := TableItemLg2sz(level);
    if oaszLg2 == isz {
      entry := LeafEntry(oa, level, false, attrs);
      table[index] := entry;
    } else {
      entry := LeafEntry(oa, level, true, attrs);
      ContigIndexRoom(index);
      WriteRun(table, index, entry);
    }
  }

  lemma ContigIndexRoom(index: nat)
    requires index < ITEMS_PER_TABLE && Mod(index, CONTIG_COUNT_LG2) == 0
    ensures index + 16 <= ITEMS_PER_TABLE
  {
    ModDivAreRemainderQuotient(index, CONTIG_COUNT_LG2);
    Geometry();
  }

  /** The loop of a contiguous install: the same word in 16 slots from index. */
  method WriteRun(table: array<u32>, index: nat, entry: u32)
    requires index + 16 <= table.Length
    modifies table
    ensures table[..] == Spliced(old(table[..]), index, seq(16, _ => entry))
  {
    var i := 0;
    while i < 16
      invariant 0 <= i <= 16
      invariant forall j :: 0 <= j < table.Length ==>
                  table[j] == if index <= j < index + i then entry else old(table[j])
    {
      table[index + i] := entry;
      i := i + 1;
    }
    SplicedFromElements(table[..], old(table[..]), index, seq(16, _ => entry));
  }

  /**
   * Every slot install_leaf_entry writes reads back as the leaf asked for,
   * given attributes built by set_prot and an address the format can hold.
   */
  lemma InstalledLeafReadsBack(features: Features, prot: Prot, oa: u64, level: nat, contig: bool)
    requires level <= MAX_TOP_LEVEL
    requires oa % Pow2(LeafOaLg2(level, contig)) == 0 && oa < Pow2(LeafOaLimitLg2(level, contig))
    ensures ReadsBack(LeafEntry(oa, level, contig, SetProt(features, prot)), level, contig, oa, ProtAttrs(prot))
  {
    EncodeAllWellEncoded(features, ProtAttrs(prot), true);
    LeafEntryRoundTrip(SetProt(features, prot), ProtAttrs(prot), oa, level, contig);
  }
}
