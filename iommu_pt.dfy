// The IOMMU entry points of the generic page table that do not change a
// mapping: the page-size report, the checks and defaults applied when a
// table is initialised, the domain geometry and the walk that collects
// every table for freeing.
//
// The page table format compiled into these functions is a Fmt value.
// The table walk reads table words through a Walker: memory is a function
// from a table address and an index to the word stored there, and the
// walk does not write it.

module IommuPt {
  import opened Bits
  import opened PtLog2
  import opened Errno
  import opened PtDefs
  import opened PtIter
  import opened Bitfield

  /**
   * What the format supplies: the geometry and possible page sizes of each
   * level, PT_FIXED_TOP_LEVEL (if any), PT_MAX_TOP_LEVEL, the VA prefix,
   * pt_max_output_address_lg2, the width of pt_vaddr_t, PT_MAX_VA_ADDRESS_LG2
   * and the supported and always-enabled feature sets.
   */
  datatype Fmt = Fmt(
    geo: nat -> Geo,
    possibleSizes: nat -> u64,
    fixedTopLevel: Option<nat>,
    maxTopLevel: nat,
    fullVaPrefix: u64,
    maxOutputLg2: nat,
    vaddrMaxLg2: nat,
    maxVaAddressLg2: nat,
    supported: Features,
    forceEnabled: Features)

  /** The fields of pt_common as a value. */
  datatype CommonState = CommonState(topOfTable: u64, maxOaszLg2: nat, maxVaszLg2: nat, features: Features)

  /** A status and the state it leaves behind. */
  datatype Outcome = Outcome(status: Status, state: CommonState)

  function StateOf(c: Common): CommonState
    reads c
  {
    CommonState(c.topOfTable, c.maxOaszLg2, c.maxVaszLg2, c.features)
  }

  method SetState(c: Common, s: CommonState)
    modifies c
    ensures StateOf(c) == s
  {
    c.topOfTable := s.topOfTable;
    c.maxOaszLg2 := s.maxOaszLg2;
    c.maxVaszLg2 := s.maxVaszLg2;
    c.features := s.features;
  }

  /** pt_top_range of a pt_common. */
  function TopOf(s: CommonState, fmt: Fmt): Range
    requires s.maxVaszLg2 <= 64
  {
    TopRange(s.maxVaszLg2, s.topOfTable, fmt.fullVaPrefix, fmt.fixedTopLevel, fmt.geo)
  }

  // ---- get_info ----------------------------------------------------------

  /** The OR of the possible page sizes of levels 0 .. count - 1. */
  function PgsizeUnion(possible: nat -> u64, count: nat): u64
  {
    if count == 0 then 0 else Or64(PgsizeUnion(possible, count - 1), possible(count - 1))
  }

  /** A page size is in the union exactly when one of the levels offers it. */
  lemma {:induction false} PgsizeUnionBit(possible: nat -> u64, count: nat, k: nat)
    ensures TestBit(PgsizeUnion(possible, count), k) <==> exists l :: 0 <= l < count && TestBit(possible(l), k)
  {
    if count == 0 {
      ZeroBit(k);
    } else {
      PgsizeUnionBit(possible, count - 1, k);
      OrBit(PgsizeUnion(possible, count - 1), possible(count - 1), k);
    }
  }

  /**
   * The number of levels the dynamic-top loop of get_info ORs in, counting
   * from level from: it stops at the first level whose items are at least
   * max_vasz wide, or after PT_MAX_TOP_LEVEL.
   */
  function DynamicLevels(geo: nat -> Geo, maxVaszLg2: nat, maxTopLevel: nat, from: nat): (r: nat)
    ensures from <= r && (from <= maxTopLevel + 1 ==> r <= maxTopLevel + 1)
    ensures forall l :: from <= l < r ==> geo(l).itemLg2sz < maxVaszLg2
    ensures r <= maxTopLevel ==> geo(r).itemLg2sz >= maxVaszLg2
    decreases maxTopLevel + 1 - from
  {
    if from > maxTopLevel || geo(from).itemLg2sz >= maxVaszLg2 then from
    else DynamicLevels(geo, maxVaszLg2, maxTopLevel, from + 1)
  }

  /** The number of levels get_info scans: the dynamic-top count, or levels 0 .. top_level. */
  function ScannedLevels(s: CommonState, fmt: Fmt): nat
    requires s.maxVaszLg2 <= 64
  {
    if FEAT_DYNAMIC_TOP in s.features then DynamicLevels(fmt.geo, s.maxVaszLg2, fmt.maxTopLevel, 0)
    else TopOf(s, fmt).topLevel + 1
  }

  /** The page-size bitmap get_info reports. */
  function InfoBitmap(s: CommonState, fmt: Fmt): u64
    requires s.maxVaszLg2 <= 64 && s.maxOaszLg2 <= 64
  {
    Mod(PgsizeUnion(fmt.possibleSizes, ScannedLevels(s, fmt)), s.maxOaszLg2)
  }

  /** log2_mod keeps exactly the bits below its exponent. */
  /**
   * get_info offers the page size 2^k exactly when it is below 2^max_oasz
   * and one of the scanned levels offers it.  With a dynamic top every
   * scanned level has items narrower than max_vasz, and the first level
   * left out (if any below PT_MAX_TOP_LEVEL) does not; otherwise levels
   * 0 .. top_level are scanned.
   */
  lemma InfoBitmapSpec(s: CommonState, fmt: Fmt, k: nat)
    requires s.maxVaszLg2 <= 64 && s.maxOaszLg2 <= 64
    ensures TestBit(InfoBitmap(s, fmt), k) <==>
      k < s.maxOaszLg2 && exists l :: 0 <= l < ScannedLevels(s, fmt) && TestBit(fmt.possibleSizes(l), k)
    ensures FEAT_DYNAMIC_TOP in s.features ==>
      ScannedLevels(s, fmt) <= fmt.maxTopLevel + 1 &&
      (forall l :: 0 <= l < ScannedLevels(s, fmt) ==> fmt.geo(l).itemLg2sz < s.maxVaszLg2) &&
      (ScannedLevels(s, fmt) <= fmt.maxTopLevel ==> fmt.geo(ScannedLevels(s, fmt)).itemLg2sz >= s.maxVaszLg2)
    ensures FEAT_DYNAMIC_TOP !in s.features ==> ScannedLevels(s, fmt) == TopOf(s, fmt).topLevel + 1
  {
    ModBit(PgsizeUnion(fmt.possibleSizes, ScannedLevels(s, fmt)), s.maxOaszLg2, k);
    PgsizeUnionBit(fmt.possibleSizes, ScannedLevels(s, fmt), k);
  }

  /** The dynamic-top loop of get_info: OR in levels until one spans max_vasz or PT_MAX_TOP_LEVEL is passed. */
  method UnionDynamic(geo: nat -> Geo, possible: nat -> u64, maxVaszLg2: nat, maxTopLevel: nat) returns (bitmap: u64)
    ensures bitmap == PgsizeUnion(possible, DynamicLevels(geo, maxVaszLg2, maxTopLevel, 0))
  {
    bitmap := 0;
    var level: nat := 0;
    while level <= maxTopLevel
      invariant level <= maxTopLevel + 1
      invariant DynamicLevels(geo, maxVaszLg2, maxTopLevel, level) == DynamicLevels(geo, maxVaszLg2, maxTopLevel, 0)
      invariant bitmap == PgsizeUnion(possible, level)
      decreases maxTopLevel + 1 - level
    {
      if geo(level).itemLg2sz >= maxVaszLg2 {
        break;
      }
      bitmap := Or64(bitmap, possible(level));
      level := level + 1;
    }
  }

  /** The fixed-top loop of get_info: OR in levels 0 .. topLevel. */
  method UnionUpTo(possible: nat -> u64, topLevel: nat) returns (bitmap: u64)
    ensures bitmap == PgsizeUnion(possible, topLevel + 1)
  {
    bitmap := 0;
    var level: nat := 0;
    while level <= topLevel
      invariant level <= topLevel + 1
      invariant bitmap == PgsizeUnion(possible, level)
    {
      bitmap := Or64(bitmap, possible(level));
      level := level + 1;
    }
  }

  /** get_info: OR the possible sizes of the scanned levels and hide those at or above max_oasz. */
  method GetInfo(common: Common, fmt: Fmt) returns (pgsizeBitmap: u64)
    requires common.maxVaszLg2 <= 64 && common.maxOaszLg2 <= 64
    ensures pgsizeBitmap == InfoBitmap(StateOf(common), fmt)
  {
    var range := TopOf(StateOf(common), fmt);
    var bitmap: u64;
    if FEAT_DYNAMIC_TOP in common.features {
      bitmap := UnionDynamic(fmt.geo, fmt.possibleSizes, common.maxVaszLg2, fmt.maxTopLevel);
    } else {
      bitmap := UnionUpTo(fmt.possibleSizes, range.topLevel);
    }
    pgsizeBitmap := Mod(bitmap, common.maxOaszLg2);
  }

  // ---- pt_init_common ----------------------------------------------------

  /** The features after pt_init_common's adjustments, before the support check. */
  function AdjustedFeatures(s: CommonState, fmt: Fmt): Features
    requires s.maxVaszLg2 <= 64
  {
    var top := TopOf(s, fmt);
    var f := if top.topLevel == fmt.maxTopLevel || s.maxVaszLg2 == top.maxVaszLg2 then s.features - {FEAT_DYNAMIC_TOP}
      else s.features;
    if top.maxVaszLg2 == fmt.vaddrMaxLg2 then f + {FEAT_FULL_VA} else f
  }

  /** min_t of the requested OA size and the format's, with 0 meaning "the format's". */
  function ClampOasz(requested: nat, fmtMax: nat): (r: nat)
    ensures r <= fmtMax && (requested != 0 ==> r <= requested)
    ensures r == fmtMax || r == requested
  {
    if requested == 0 then fmtMax else Min(requested, fmtMax)
  }

  /**
   * pt_init_common applied to a pt_common: the status it returns and the
   * fields it leaves.
   */
  function InitCommonSpec(s: CommonState, fmt: Fmt): Outcome
    requires s.maxVaszLg2 <= 64
  {
    var top := TopOf(s, fmt);
    if top.topLevel > fmt.maxTopLevel then Outcome(Failure(EINVAL), s)
    else
      var f := AdjustedFeatures(s, fmt);
      var vasz := if FEAT_DYNAMIC_TOP in f then s.maxVaszLg2 else top.maxVaszLg2;
      var s2 := s.(features := f, maxVaszLg2 := vasz);
      if !(f <= fmt.supported) || !(fmt.forceEnabled <= f) then Outcome(Failure(EOPNOTSUPP), s2)
      else Outcome(Success, s2.(maxOaszLg2 := ClampOasz(s.maxOaszLg2, fmt.maxOutputLg2)))
  }

  /**
   * What pt_init_common promises: a top level beyond PT_MAX_TOP_LEVEL is
   * refused and nothing changes; the dynamic top survives only below the
   * maximum top level and when the top does not already span max_vasz, and
   * without it max_vasz becomes the top range's; FULL_VA is added when the
   * top spans the whole VA word; an unsupported or missing forced feature
   * gives EOPNOTSUPP; on success max_oasz is the requested value clamped to
   * the format's.  The top of the table is never touched.
   */
  lemma InitCommonProps(s: CommonState, fmt: Fmt)
    requires s.maxVaszLg2 <= 64
    ensures var top := TopOf(s, fmt); var r := InitCommonSpec(s, fmt);
      r.state.topOfTable == s.topOfTable &&
      (top.topLevel > fmt.maxTopLevel <==> r.status == Failure(EINVAL)) &&
      (top.topLevel > fmt.maxTopLevel ==> r.state == s) &&
      (top.topLevel <= fmt.maxTopLevel ==>
        (FEAT_DYNAMIC_TOP in r.state.features <==>
          FEAT_DYNAMIC_TOP in s.features && top.topLevel < fmt.maxTopLevel && s.maxVaszLg2 != top.maxVaszLg2) &&
        (FEAT_DYNAMIC_TOP in r.state.features ==> r.state.maxVaszLg2 == s.maxVaszLg2) &&
        (FEAT_DYNAMIC_TOP !in r.state.features ==> r.state.maxVaszLg2 == top.maxVaszLg2) &&
        r.state.maxVaszLg2 <= s.maxVaszLg2 &&
        (FEAT_FULL_VA in r.state.features <==> FEAT_FULL_VA in s.features || top.maxVaszLg2 == fmt.vaddrMaxLg2) &&
        (r.status == Failure(EOPNOTSUPP) <==>
          !(r.state.features <= fmt.supported && fmt.forceEnabled <= r.state.features)) &&
        (r.status == Success ==> r.state.maxOaszLg2 == ClampOasz(s.maxOaszLg2, fmt.maxOutputLg2)) &&
        (r.status != Success ==> r.state.maxOaszLg2 == s.maxOaszLg2))
  {
  }

  /**
   * A pt_common that pt_init_common accepted is accepted again unchanged:
   * the adjustments have reached their fixed point.
   */
  lemma InitCommonIdempotent(s: CommonState, fmt: Fmt)
    requires s.maxVaszLg2 <= 64
    requires InitCommonSpec(s, fmt).status == Success
    ensures InitCommonSpec(InitCommonSpec(s, fmt).state, fmt) == Outcome(Success, InitCommonSpec(s, fmt).state)
  {
    var top := TopOf(s, fmt);
    var s2 := InitCommonSpec(s, fmt).state;
    var top2 := TopOf(s2, fmt);
    assert top2.topLevel == top.topLevel;
    assert top2.maxVaszLg2 == top.maxVaszLg2;
    assert AdjustedFeatures(s2, fmt) == s2.features;
  }

  /** pt_init_common: adjust the features and size limits of the table's common part. */
  method InitCommon(common: Common, fmt: Fmt) returns (status: Status)
    requires common.maxVaszLg2 <= 64
    modifies common
    ensures Outcome(status, StateOf(common)) == InitCommonSpec(old(StateOf(common)), fmt)
  {
    var top := TopOf(StateOf(common), fmt);
    if top.topLevel > fmt.maxTopLevel {
      return Failure(EINVAL);
    }
    if top.topLevel == fmt.maxTopLevel || common.maxVaszLg2 == top.maxVaszLg2 {
      common.features := common.features - {FEAT_DYNAMIC_TOP};
    }
    if FEAT_DYNAMIC_TOP !in common.features {
      common.maxVaszLg2 := top.maxVaszLg2;
    }
    if top.maxVaszLg2 == fmt.vaddrMaxLg2 {
      common.features := common.features + {FEAT_FULL_VA};
    }
    if !(common.features <= fmt.supported) || !(fmt.forceEnabled <= common.features) {
      return Failure(EOPNOTSUPP);
    }
    if common.maxOaszLg2 == 0 {
      common.maxOaszLg2 := fmt.maxOutputLg2;
    } else {
      common.maxOaszLg2 := Min(common.maxOaszLg2, fmt.maxOutputLg2);
    }
    return Success;
  }

  // ---- the domain and pt_iommu_init ------------------------------------

  /** The fields pt_iommu_init_domain sets: the aperture [start, end] and the page sizes. */
  datatype Domain = Domain(apertureStart: u64, apertureEnd: u64, pgsizeBitmap: u64)

  /**
   * pt_iommu_init_domain: the aperture is the span of the VA prefix at
   * max_vasz, an aligned block of 2^max_vasz addresses, and the page sizes
   * are get_info's.
   */
  method InitDomain(common: Common, fmt: Fmt) returns (domain: Domain)
    requires common.maxVaszLg2 <= 64 && common.maxOaszLg2 <= 64
    ensures domain.pgsizeBitmap == InfoBitmap(StateOf(common), fmt)
    ensures domain.apertureStart == SpanStart(fmt.fullVaPrefix, common.maxVaszLg2)
    ensures domain.apertureEnd == SpanLast(fmt.fullVaPrefix, common.maxVaszLg2)
    ensures domain.apertureStart % Pow2(common.maxVaszLg2) == 0
    ensures domain.apertureEnd == domain.apertureStart + Pow2(common.maxVaszLg2) - 1
  {
    var bitmap := GetInfo(common, fmt);
    SpanFacts(fmt.fullVaPrefix, common.maxVaszLg2);
    domain := Domain(SpanStart(fmt.fullVaPrefix, common.maxVaszLg2), SpanLast(fmt.fullVaPrefix, common.maxVaszLg2), bitmap);
  }

  /** The pt_iommu_table_cfg fields pt_iommu_init reads; wantDomain says whether a domain is passed. */
  datatype Cfg = Cfg(features: Features, hwMaxVaszLg2: nat, hwMaxOaszLg2: nat, wantDomain: bool)

  /** The driver's hw_flush_ops: absent, or present with or without the two dynamic-top hooks. */
  datatype FlushOps = NoFlushOps | FlushOps(changeTop: bool, getTopLock: bool)

  /** The common part after pt_iommu_zero and the three fields copied from the configuration. */
  function ZeroedFrom(cfg: Cfg): CommonState
  {
    CommonState(0, cfg.hwMaxOaszLg2, cfg.hwMaxVaszLg2, cfg.features)
  }

  /** The configuration checks made before anything is written. */
  predicate CfgOk(cfg: Cfg, fmt: Fmt)
  {
    0 < cfg.hwMaxVaszLg2 <= fmt.maxVaAddressLg2 && cfg.hwMaxOaszLg2 != 0
  }

  /** pt_top_set: the table's address with the top level in the low TOP_LEVEL_BITS bits. */
  function TopSet(table: u64, level: nat): u64
    requires level <= ToMaxInt(TOP_LEVEL_BITS)
  {
    SetMod(table, level, TOP_LEVEL_BITS)
  }

  /**
   * pt_iommu_init.  pt_iommu_fmt_init is the function fmtInit over the
   * common part (an errno or the new fields), and table_alloc_top's result
   * is topAlloc.  The checks run in order: the configuration's sizes, the
   * flush ops, the format's init, the hardware OA size against the format,
   * pt_init_common, the dynamic-top hooks and the allocation; the first
   * one that fails decides the error.  On success the top is the new
   * table at the top level and the domain, if one was passed, is set up.
   */
  method IommuInit(common: Common, fmt: Fmt, cfg: Cfg, flushOps: FlushOps,
                   fmtInit: CommonState -> Result<CommonState>, topAlloc: Result<u64>)
      returns (status: Status, domain: Option<Domain>)
    requires fmt.maxVaAddressLg2 <= 64 && fmt.maxOutputLg2 <= 64 && fmt.maxTopLevel <= ToMaxInt(TOP_LEVEL_BITS)
    requires forall s: CommonState :: fmtInit(s).Ok? ==> fmtInit(s).value.maxVaszLg2 <= 64
    modifies common
    ensures !CfgOk(cfg, fmt) ==> status == Failure(EINVAL) && domain == None && StateOf(common) == old(StateOf(common))
    ensures CfgOk(cfg, fmt) && flushOps.NoFlushOps? ==>
      status == Failure(EINVAL) && domain == None && StateOf(common) == old(StateOf(common))
    ensures CfgOk(cfg, fmt) && flushOps.FlushOps? && fmtInit(ZeroedFrom(cfg)).Err? ==>
      status == Failure(fmtInit(ZeroedFrom(cfg)).err) && domain == None
    ensures CfgOk(cfg, fmt) && flushOps.FlushOps? && fmtInit(ZeroedFrom(cfg)).Ok? ==>
      var f := fmtInit(ZeroedFrom(cfg)).value;
      var init := InitCommonSpec(f, fmt);
      (cfg.hwMaxOaszLg2 > fmt.maxOutputLg2 ==> status == Failure(EINVAL) && StateOf(common) == f) &&
      (cfg.hwMaxOaszLg2 <= fmt.maxOutputLg2 ==>
        (init.status.Failure? ==> status == init.status && StateOf(common) == init.state) &&
        (init.status == Success && FEAT_DYNAMIC_TOP in init.state.features && !(flushOps.changeTop && flushOps.getTopLock) ==>
          status == Failure(EINVAL) && StateOf(common) == init.state) &&
        (init.status == Success && (FEAT_DYNAMIC_TOP in init.state.features ==> flushOps.changeTop && flushOps.getTopLock) ==>
          (topAlloc.Err? ==> status == Failure(topAlloc.err) && StateOf(common) == init.state) &&
          (topAlloc.Ok? ==>
            status == Success &&
            StateOf(common) == init.state.(topOfTable := TopSet(topAlloc.value, TopLevelOf(init.state.topOfTable, fmt.fixedTopLevel))))))
    ensures status.Failure? ==> domain == None
    ensures status == Success ==>
      common.maxVaszLg2 <= 64 && common.maxOaszLg2 <= fmt.maxOutputLg2 &&
      (cfg.wantDomain <==> domain.Some?) &&
      (domain.Some? ==> domain.value == Domain(SpanStart(fmt.fullVaPrefix, common.maxVaszLg2),
        SpanLast(fmt.fullVaPrefix, common.maxVaszLg2), InfoBitmap(StateOf(common), fmt)))
  {
    domain := None;
    if cfg.hwMaxVaszLg2 > fmt.maxVaAddressLg2 || cfg.hwMaxVaszLg2 == 0 || cfg.hwMaxOaszLg2 == 0 {
      return Failure(EINVAL), None;
    }
    if flushOps.NoFlushOps? {
      return Failure(EINVAL), None;
    }
    SetState(common, ZeroedFrom(cfg));
    var f := fmtInit(StateOf(common));
    if f.Err? {
      return Failure(f.err), None;
    }
    SetState(common, f.value);
    if cfg.hwMaxOaszLg2 > fmt.maxOutputLg2 {
      return Failure(EINVAL), None;
    }
    status := InitCommon(common, fmt);
    if status.Failure? {
      return status, None;
    }
    if FEAT_DYNAMIC_TOP in common.features && !(flushOps.changeTop && flushOps.getTopLock) {
      return Failure(EINVAL), None;
    }
    if topAlloc.Err? {
      return Failure(topAlloc.err), None;
    }
    common.topOfTable := TopSet(topAlloc.value, TopLevelOf(common.topOfTable, fmt.fixedTopLevel));
    if cfg.wantDomain {
      var d := InitDomain(common, fmt);
      domain := Some(d);
    }
    return Success, domain;
  }

  // ---- __collect_tables and deinit ---------------------------------------

  /**
   * What __collect_tables reads: the format's classification of a word at
   * a level, its contiguous count, the lower table of a table word
   * (pt_table_ptr, with __va as the identity), the geometry of each level
   * and the table words in memory.
   */
  datatype Walker = Walker(
    load: (u64, nat) -> EntryType,
    contig: (u64, nat) -> nat,
    tablePa: u64 -> u64,
    geo: nat -> Geo,
    mem: (u64, nat) -> u64)

  /**
   * A real format: contiguous counts below 32, no table entries at level 0,
   * and each level's table under 2^32 items of under 2^64 bytes.
   */
  ghost predicate WalkerOk(w: Walker)
  {
    (forall e: u64, l: nat :: w.contig(e, l) < 32) &&
    (forall e: u64 :: w.load(e, 0) != Table) &&
    (forall l: nat :: w.geo(l).itemLg2sz < 64 && w.geo(l).numItemsLg2 < 32 &&
      w.geo(l).itemLg2sz + w.geo(l).numItemsLg2 <= 64)
  }

  /** A range that can be walked at level: inside the VA word, at or below its top, with its window inside the table. */
  predicate RangeOk(range: Range, level: nat, g: Geo)
  {
    range.maxVaszLg2 <= 64 && level <= range.topLevel &&
    g.itemLg2sz <= IndexWindow(range, level, g) <= g.itemLg2sz + g.numItemsLg2
  }

  /** The result of a walk: its return value, the tables it appended in order and where it left range->va. */
  datatype Collected = Collected(status: Status, tables: seq<u64>, va: u64)

  /** pt_index_to_va after the level loop stepped to index. */
  function StepVa(range: Range, g: Geo, index: u64): u64
    requires g.itemLg2sz < 64 && g.itemLg2sz + g.numItemsLg2 <= 64
  {
    VaAtIndex(range.va, index, g.itemLg2sz, TableOaLg2sz(range, g))
  }

  /** The words of the table at pa with indexes below n. */
  function TableWords(w: Walker, pa: u64, n: nat): (r: seq<u64>)
    ensures |r| == n && forall i :: 0 <= i < n ==> r[i] == w.mem(pa, i)
  {
    seq<u64>(n, (i: nat) requires i < n => w.mem(pa, i))
  }

  /** The error a walk can return: EINVAL for a table entry without a table, EADDRINUSE for a leaf when leaves are not ignored. */
  predicate CollectError(r: Collected, ignoreMapped: bool)
  {
    r.status.Failure? ==> r.status.err == EINVAL || (r.status.err == EADDRINUSE && !ignoreMapped)
  }

  /**
   * __collect_tables on the table at level: with leaves ignored, a level
   * that holds no tables is skipped; otherwise the level loop runs from the
   * range's first index to its end index.
   */
  function CollectLevel(w: Walker, range: Range, level: nat, table: u64, ignoreMapped: bool): (r: Collected)
    requires WalkerOk(w) && RangeOk(range, level, w.geo(level))
    ensures CollectError(r, ignoreMapped)
    decreases level, 1
  {
    var g := w.geo(level);
    if ignoreMapped && !CanHaveTable(level) then Collected(Success, [], range.va)
    else
      LevelEndBound(range, level, g);
      CollectFrom(w, range, level, table, RangeToIndex(range, level, g), FirstEndIndex(range, level, g), ignoreMapped)
  }

  /** The first and end index of a level walk are below 2^32. */
  lemma LevelEndBound(range: Range, level: nat, g: Geo)
    requires range.maxVaszLg2 <= 64 && g.numItemsLg2 < 32
    requires g.itemLg2sz <= IndexWindow(range, level, g) <= g.itemLg2sz + g.numItemsLg2
    ensures RangeToIndex(range, level, g) < U32_LIMIT
    ensures FirstEndIndex(range, level, g) <= U32_LIMIT
  {
    FirstEndIndexBound(range, level, g);
    Pow2Monotone(IndexWindow(range, level, g) - g.itemLg2sz, 32);
    Pow2Words();
  }

  /**
   * The level loop of __collect_tables from index, with the guard
   * index < end_index.  A table entry is appended to the list and then
   * descended into, sharing the range; a nonzero return of the descent
   * ends the walk.  A leaf ends it with EADDRINUSE unless leaves are
   * ignored.  Every other entry is stepped over.
   */
  function CollectFrom(w: Walker, range: Range, level: nat, table: u64, index: u64, end: nat, ignoreMapped: bool): (r: Collected)
    requires WalkerOk(w) && RangeOk(range, level, w.geo(level)) && end <= U32_LIMIT
    ensures CollectError(r, ignoreMapped)
    decreases level, 0, end - index
  {
    if !LoadGuard(index, end) then Collected(Success, [], range.va)
    else
      var g := w.geo(level);
      var entry := w.mem(table, index);
      var next := NextIndex(w.load, w.contig, entry, level, index);
      if w.load(entry, level) == Table then
        var lower := w.tablePa(entry);
        if lower == 0 then Collected(Failure(EINVAL), [lower], range.va)
        else
          var child := CollectLevel(w, range, level - 1, lower, ignoreMapped);
          if child.status.Failure? then Collected(child.status, [lower] + child.tables, child.va)
          else
            var after := range.(va := child.va);
            var rest := CollectFrom(w, after.(va := StepVa(after, g, next)), level, table, next, end, ignoreMapped);
            Collected(rest.status, [lower] + child.tables + rest.tables, rest.va)
      else if w.load(entry, level) == Oa && !ignoreMapped then Collected(Failure(EADDRINUSE), [], range.va)
      else CollectFrom(w, range.(va := StepVa(range, g, next)), level, table, next, end, ignoreMapped)
  }

  /**
   * Every visited index holding a table entry has its lower table among
   * tables, and, when leaves are not ignored, none holds a leaf.
   */
  ghost predicate VisitedCollected(w: Walker, table: u64, level: nat, v: seq<nat>, tables: seq<u64>, ignoreMapped: bool)
  {
    forall k :: 0 <= k < |v| ==>
      (w.load(w.mem(table, v[k]), level) == Table ==> w.tablePa(w.mem(table, v[k])) in tables) &&
      (!ignoreMapped ==> w.load(w.mem(table, v[k]), level) != Oa)
  }

  lemma VisitedExtend(w: Walker, table: u64, level: nat, index: nat, rest: seq<nat>, small: seq<u64>, big: seq<u64>, ignoreMapped: bool)
    requires VisitedCollected(w, table, level, rest, small, ignoreMapped)
    requires forall x :: x in small ==> x in big
    requires w.load(w.mem(table, index), level) == Table ==> w.tablePa(w.mem(table, index)) in big
    requires !ignoreMapped ==> w.load(w.mem(table, index), level) != Oa
    ensures VisitedCollected(w, table, level, [index] + rest, big, ignoreMapped)
  {
    var v := [index] + rest;
    forall k | 0 <= k < |v|
      ensures (w.load(w.mem(table, v[k]), level) == Table ==> w.tablePa(w.mem(table, v[k])) in big) &&
        (!ignoreMapped ==> w.load(w.mem(table, v[k]), level) != Oa)
    {
      if k > 0 {
        assert v[k] == rest[k - 1];
      }
    }
  }

  /**
   * A successful walk of one level visits the entries the level loop
   * visits (PtIter.Visits over the table's words) and every one of them
   * that is a table entry has its lower table in the list; when leaves are
   * not ignored none of them is a leaf.
   */
  lemma {:induction false} CollectFromVisits(w: Walker, range: Range, level: nat, table: u64, index: u64, end: nat, ignoreMapped: bool)
    requires WalkerOk(w) && RangeOk(range, level, w.geo(level)) && end <= U32_LIMIT
    requires CollectFrom(w, range, level, table, index, end, ignoreMapped).status == Success
    ensures VisitedCollected(w, table, level, Visits(NextIndexes(w.load, w.contig, TableWords(w, table, end), level), index, end),
      CollectFrom(w, range, level, table, index, end, ignoreMapped).tables, ignoreMapped)
    decreases end - index
  {
    var nexts := NextIndexes(w.load, w.contig, TableWords(w, table, end), level);
    var r := CollectFrom(w, range, level, table, index, end, ignoreMapped);
    if index < end {
      var g := w.geo(level);
      var entry := w.mem(table, index);
      var next := NextIndex(w.load, w.contig, entry, level, index);
      assert nexts[index] == next;
      var rest := Visits(nexts, next, end);
      assert Visits(nexts, index, end) == [index] + rest;
      var restRange: Range;
      if w.load(entry, level) == Table {
        var child := CollectLevel(w, range, level - 1, w.tablePa(entry), ignoreMapped);
        var after := range.(va := child.va);
        restRange := after.(va := StepVa(after, g, next));
      } else {
        restRange := range.(va := StepVa(range, g, next));
      }
      var restResult := CollectFrom(w, restRange, level, table, next, end, ignoreMapped);
      assert restResult.status == Success && forall x :: x in restResult.tables ==> x in r.tables;
      CollectFromVisits(w, restRange, level, table, next, end, ignoreMapped);
      VisitedExtend(w, table, level, index, rest, restResult.tables, r.tables, ignoreMapped);
    }
  }

  /**
   * deinit's list: the top table first, then every table __collect_tables
   * adds walking the whole top range with leaves ignored.  That walk can
   * fail only with EINVAL; deinit does not look at its status, so the
   * tables gathered before a failure are freed all the same.  The radix
   * free itself and the incoherent-DMA stop are foreign and left out.
   */
  function DeinitList(w: Walker, top: Range): (r: seq<u64>)
    requires WalkerOk(w) && RangeOk(top, top.topLevel, w.geo(top.topLevel))
    ensures |r| >= 1 && r[0] == top.topTable
    ensures r[1..] == CollectLevel(w, top, top.topLevel, top.topTable, true).tables
    ensures CollectLevel(w, top, top.topLevel, top.topTable, true).status.Failure? ==>
      CollectLevel(w, top, top.topLevel, top.topTable, true).status.err == EINVAL
  {
    [top.topTable] + CollectLevel(w, top, top.topLevel, top.topTable, true).tables
  }
}
