// Ranges, table indexes and the per-level iterator of the generic page
// table, and the page-size selector used when mapping.
//
// A range is a VA interval [va, last_va] together with the top of the table
// it is walked in.  The iterator state walks the items of one table level
// that the range touches.  The format supplies the geometry of each level
// (the VA size of one item and the number of items in a table) as a Geo
// value, and the classification of a table word as a function value.

module PtIter {
  import opened Bits
  import opened PtLog2
  import opened Errno
  import opened PtDefs

  /** The format's geometry of one level: item VA size and table size, as log2. */
  datatype Geo = Geo(itemLg2sz: nat, numItemsLg2: nat)

  /**
   * pt_range: the common VA limit it was built from, the top table and its
   * level, the VA width of the walk and the interval [va, lastVa].
   */
  datatype Range = Range(commonMaxVaszLg2: nat, topTable: u64, topLevel: nat, maxVaszLg2: nat, va: u64, lastVa: u64)

  function Min(a: nat, b: nat): nat
  {
    if a <= b then a else b
  }

  // ---- arithmetic meaning of the log2 helpers --------------------------

  lemma DivIsQuotient(a: u64, k: nat)
    ensures Div(a, k) == a / Pow2(k)
  {
    ShrLowDivMod(a, k);
  }

  lemma DivEqIsSameQuotient(a: u64, b: u64, k: nat)
    ensures DivEq(a, b, k) <==> a / Pow2(k) == b / Pow2(k)
  {
    DivEqIff(a, b, k);
    DivIsQuotient(a, k);
    DivIsQuotient(b, k);
  }

  lemma SetModIsSum(a: u64, val: u64, k: nat)
    requires k <= 64 && val < Pow2(k)
    ensures SetMod(a, val, k) == (a / Pow2(k)) * Pow2(k) + val
  {
    var r := SetMod(a, val, k);
    SetModSpec(a, val, k);
    ModDivAreRemainderQuotient(r, k);
    DivIsQuotient(a, k);
  }

  lemma SetModMaxIsSum(a: u64, k: nat)
    requires k <= 64
    ensures SetModMax(a, k) == (a / Pow2(k)) * Pow2(k) + Pow2(k) - 1
  {
    var r := SetModMax(a, k);
    SetModMaxSpec(a, k);
    ModDivAreRemainderQuotient(r, k);
    DivIsQuotient(a, k);
  }

  lemma DivMonotone(a: nat, b: nat, d: nat)
    requires 0 < d && a <= b
    ensures a / d <= b / d
  {
    DivMul(a, d);
    DivMul(b, d);
    if a / d > b / d {
      MulMonotone(b / d + 1, a / d, d);
      MulDistrib(b / d, 1, d);
    }
  }

  lemma Recombine(q: nat, d1: nat, d2: nat, s: nat, t: nat)
    ensures q * (d1 * d2) + (s * d1 + t) == (q * d2 + s) * d1 + t
  {
    MulAssoc(q, d2, d1);
    MulDistrib(q * d2, s, d1);
  }

  lemma BelowProduct(rem: nat, s: nat, t: nat, d1: nat, d2: nat)
    requires rem == s * d1 + t && rem < d1 * d2
    ensures s < d2
  {
    if s >= d2 {
      MulMonotone(d2, s, d1);
    }
  }

  lemma DivSplit(a: nat, d1: nat, d2: nat)
    requires d1 > 0 && d2 > 0
    ensures a / d1 == (a / (d1 * d2)) * d2 + (a % (d1 * d2)) / d1
    ensures (a % (d1 * d2)) / d1 < d2
  {
    var w := d1 * d2;
    var q := a / w;
    var rem := a % w;
    DivMul(a, w);
    var s := rem / d1;
    var t := rem % d1;
    DivMul(rem, d1);
    BelowProduct(rem, s, t, d1, d2);
    Recombine(q, d1, d2, s, t);
    DivModUnique(a, d1, q * d2 + s, t);
  }

  /** Splitting a at bit i of a window of i + n bits. */
  lemma SplitAt(a: nat, i: nat, n: nat)
    ensures a / Pow2(i) == (a / Pow2(i + n)) * Pow2(n) + (a % Pow2(i + n)) / Pow2(i)
    ensures (a % Pow2(i + n)) / Pow2(i) < Pow2(n)
  {
    Pow2Add(i, n);
    DivSplit(a, Pow2(i), Pow2(n));
  }

  lemma InBlockIffBy(x: nat, q: nat, d: nat)
    requires d > 0
    ensures x / d == q <==> q * d <= x <= q * d + d - 1
  {
    DivMul(x, d);
    if q * d <= x <= q * d + d - 1 {
      DivModUnique(x, d, q, x - q * d);
    }
  }

  // ---- ranges ------------------------------------------------------------

  /**
   * pt_check_range: both ends of the range carry the format's VA prefix
   * above the range's VA width.
   */
  function CheckRange(range: Range, prefix: u64): (r: Status)
    ensures r.Failure? ==> r.err == ERANGE
  {
    if !DivEq(range.va, prefix, range.maxVaszLg2) || !DivEq(range.lastVa, prefix, range.maxVaszLg2) then
      Failure(ERANGE)
    else
      Success
  }

  /** The lowest and highest address with the prefix above bit m. */
  function SpanStart(prefix: u64, m: nat): u64
    requires m <= 64
  {
    SetMod(prefix, 0, m)
  }

  function SpanLast(prefix: u64, m: nat): u64
    requires m <= 64
  {
    SetModMax(prefix, m)
  }

  lemma SpanEnds(prefix: u64, m: nat)
    requires m <= 64
    ensures SpanStart(prefix, m) == (prefix / Pow2(m)) * Pow2(m)
    ensures SpanLast(prefix, m) == SpanStart(prefix, m) + Pow2(m) - 1
  {
    SetModIsSum(prefix, 0, m);
    SetModMaxIsSum(prefix, m);
  }

  lemma InSpanIff(x: u64, prefix: u64, m: nat)
    requires m <= 64
    ensures DivEq(x, prefix, m) <==> SpanStart(prefix, m) <= x <= SpanLast(prefix, m)
  {
    DivEqIsSameQuotient(x, prefix, m);
    SpanEnds(prefix, m);
    var q := QuotNat(prefix, Pow2(m));
    InBlockIffBy(x, q, Pow2(m));
  }

  /** pt_check_range succeeds exactly when both ends lie in the prefix's span. */
  lemma CheckRangeIff(range: Range, prefix: u64)
    requires range.maxVaszLg2 <= 64
    ensures CheckRange(range, prefix) == Success <==>
      SpanStart(prefix, range.maxVaszLg2) <= range.va <= SpanLast(prefix, range.maxVaszLg2) &&
      SpanStart(prefix, range.maxVaszLg2) <= range.lastVa <= SpanLast(prefix, range.maxVaszLg2)
  {
    InSpanIff(range.va, prefix, range.maxVaszLg2);
    InSpanIff(range.lastVa, prefix, range.maxVaszLg2);
  }

  /** The top level: fixed by the format, or the low bits of top_of_table. */
  function TopLevelOf(topOfTable: u64, fixedTopLevel: Option<nat>): nat
  {
    match fixedTopLevel
    case Some(level) => level
    case None => Mod(topOfTable, TOP_LEVEL_BITS)
  }

  /**
   * _pt_top_range: the range spanning the whole table.  Its VA width is the
   * common limit capped at what the top table decodes, and it runs from the
   * prefix followed by zeros to the prefix followed by ones.
   */
  function TopRange(commonMaxVaszLg2: nat, topOfTable: u64, prefix: u64, fixedTopLevel: Option<nat>, geo: nat -> Geo): (r: Range)
    requires commonMaxVaszLg2 <= 64
    ensures r.commonMaxVaszLg2 == commonMaxVaszLg2 && r.topLevel == TopLevelOf(topOfTable, fixedTopLevel)
    ensures r.topTable == SetMod(topOfTable, 0, TOP_LEVEL_BITS)
    ensures r.maxVaszLg2 <= commonMaxVaszLg2 && r.maxVaszLg2 <= geo(r.topLevel).numItemsLg2 + geo(r.topLevel).itemLg2sz
    ensures r.maxVaszLg2 == commonMaxVaszLg2 || r.maxVaszLg2 == geo(r.topLevel).numItemsLg2 + geo(r.topLevel).itemLg2sz
  {
    var level := TopLevelOf(topOfTable, fixedTopLevel);
    var m := Min(commonMaxVaszLg2, geo(level).numItemsLg2 + geo(level).itemLg2sz);
    Range(commonMaxVaszLg2, SetMod(topOfTable, 0, TOP_LEVEL_BITS), level, m, SpanStart(prefix, m), SpanLast(prefix, m))
  }

  /**
   * The top range covers exactly the 2^max_vasz addresses carrying the
   * prefix, and it passes pt_check_range.
   */
  lemma TopRangeSpan(commonMaxVaszLg2: nat, topOfTable: u64, prefix: u64, fixedTopLevel: Option<nat>, geo: nat -> Geo)
    requires commonMaxVaszLg2 <= 64
    ensures var r := TopRange(commonMaxVaszLg2, topOfTable, prefix, fixedTopLevel, geo);
      r.va % Pow2(r.maxVaszLg2) == 0 && r.lastVa == r.va + Pow2(r.maxVaszLg2) - 1 &&
      DivEq(r.va, prefix, r.maxVaszLg2) && CheckRange(r, prefix) == Success
  {
    var r := TopRange(commonMaxVaszLg2, topOfTable, prefix, fixedTopLevel, geo);
    SpanFacts(prefix, r.maxVaszLg2);
  }

  /** The span of a prefix is aligned, 2^m long, and both its ends carry the prefix. */
  lemma SpanFacts(prefix: u64, m: nat)
    requires m <= 64
    ensures SpanStart(prefix, m) % Pow2(m) == 0 && SpanLast(prefix, m) == SpanStart(prefix, m) + Pow2(m) - 1
    ensures DivEq(SpanStart(prefix, m), prefix, m) && DivEq(SpanLast(prefix, m), prefix, m)
  {
    SpanEnds(prefix, m);
    var q := QuotNat(prefix, Pow2(m));
    DivModUnique(q * Pow2(m), Pow2(m), q, 0);
    InSpanIff(SpanStart(prefix, m), prefix, m);
    InSpanIff(SpanLast(prefix, m), prefix, m);
  }

  /** Without a fixed top level, top_of_table is the top table plus its level. */
  lemma TopRangeUnpacks(commonMaxVaszLg2: nat, topOfTable: u64, prefix: u64, geo: nat -> Geo)
    requires commonMaxVaszLg2 <= 64
    ensures var r := TopRange(commonMaxVaszLg2, topOfTable, prefix, None, geo);
      r.topLevel < Pow2(TOP_LEVEL_BITS) && r.topTable % Pow2(TOP_LEVEL_BITS) == 0 && r.topTable + r.topLevel == topOfTable
  {
    SetModIsSum(topOfTable, 0, TOP_LEVEL_BITS);
    ModDivAreRemainderQuotient(topOfTable, TOP_LEVEL_BITS);
    DivIsQuotient(topOfTable, TOP_LEVEL_BITS);
    ModOfMultiple(topOfTable / Pow2(TOP_LEVEL_BITS), TOP_LEVEL_BITS);
  }

  /** pt_make_range: the top range with the caller's endpoints. */
  function MakeRange(commonMaxVaszLg2: nat, topOfTable: u64, prefix: u64, fixedTopLevel: Option<nat>, geo: nat -> Geo, va: u64, lastVa: u64): (r: Range)
    requires commonMaxVaszLg2 <= 64
    ensures r.va == va && r.lastVa == lastVa
    ensures r.(va := 0, lastVa := 0) == TopRange(commonMaxVaszLg2, topOfTable, prefix, fixedTopLevel, geo).(va := 0, lastVa := 0)
  {
    TopRange(commonMaxVaszLg2, topOfTable, prefix, fixedTopLevel, geo).(va := va, lastVa := lastVa)
  }

  /** A range made from the top passes pt_check_range exactly when it lies inside the top range. */
  lemma MakeRangeChecksIff(commonMaxVaszLg2: nat, topOfTable: u64, prefix: u64, fixedTopLevel: Option<nat>, geo: nat -> Geo, va: u64, lastVa: u64)
    requires commonMaxVaszLg2 <= 64
    ensures var top := TopRange(commonMaxVaszLg2, topOfTable, prefix, fixedTopLevel, geo);
      CheckRange(MakeRange(commonMaxVaszLg2, topOfTable, prefix, fixedTopLevel, geo, va, lastVa), prefix) == Success <==>
      top.va <= va <= top.lastVa && top.va <= lastVa <= top.lastVa
  {
    var r := MakeRange(commonMaxVaszLg2, topOfTable, prefix, fixedTopLevel, geo, va, lastVa);
    CheckRangeIff(r, prefix);
  }

  /** pt_make_child_range: the parent's range with new endpoints. */
  function MakeChildRange(parent: Range, va: u64, lastVa: u64): (r: Range)
    ensures r.va == va && r.lastVa == lastVa
    ensures r.(va := parent.va, lastVa := parent.lastVa) == parent
  {
    parent.(va := va, lastVa := lastVa)
  }

  // ---- table geometry --------------------------------------------------

  /** pt_can_have_table: every level but 0 may point at a lower table. */
  predicate CanHaveTable(level: nat)
  {
    level > 0
  }

  /** pt_entry_oa_lg2sz: a contiguous entry spans 2^num_contig items. */
  function EntryOaLg2sz(numContigLg2: nat, itemLg2sz: nat): (r: nat)
    ensures Pow2(r) == Pow2(numContigLg2) * Pow2(itemLg2sz)
  {
    Pow2Add(numContigLg2, itemLg2sz);
    numContigLg2 + itemLg2sz
  }

  /** pt_table_oa_lg2sz: the VA a whole table of this level decodes, capped by the common limit. */
  function TableOaLg2sz(range: Range, geo: Geo): (r: nat)
    ensures r <= range.commonMaxVaszLg2 && r <= geo.numItemsLg2 + geo.itemLg2sz
    ensures r == range.commonMaxVaszLg2 || r == geo.numItemsLg2 + geo.itemLg2sz
  {
    Min(range.commonMaxVaszLg2, geo.numItemsLg2 + geo.itemLg2sz)
  }

  /**
   * pt_entry_oa_full: the entry's OA with the range's offset inside the
   * entry.  For an aligned entry OA that is the sum, and it keeps the
   * entry's high bits and the VA's low bits.
   */
  function EntryOaFull(entryOa: u64, va: u64, entryOaLg2sz: nat): u64
    requires entryOaLg2sz <= 64
  {
    Pow2Words();
    OrBound(entryOa, Mod(va, entryOaLg2sz), 64);
    Or(entryOa, Mod(va, entryOaLg2sz))
  }

  /** ORing low bits into an aligned word is SetMod. */
  lemma OrOfAligned(a: u64, low: u64, s: nat)
    requires s <= 64 && a % Pow2(s) == 0 && low < Pow2(s)
    ensures Or(a, low) == SetMod(a, low, s)
  {
    LowIsMod(a, s);
    forall k | 0 <= k < 64 ensures TestBit(Or(a, low), k) == TestBit(SetMod(a, low, s), k) {
      OrBit(a, low, k);
      SetModBits(a, low, s, k);
      if k < s {
        LowBit(a, s, k);
        ZeroBit(k);
      } else {
        HighBitClear(low, s, k);
      }
    }
    Pow2Words();
    OrBound(a, low, 64);
    BitsEqual(Or(a, low), SetMod(a, low, s), 64);
  }

  lemma EntryOaFullSpec(entryOa: u64, va: u64, entryOaLg2sz: nat)
    requires entryOaLg2sz <= 64 && entryOa % Pow2(entryOaLg2sz) == 0
    ensures EntryOaFull(entryOa, va, entryOaLg2sz) == entryOa + va % Pow2(entryOaLg2sz)
    ensures EntryOaFull(entryOa, va, entryOaLg2sz) % Pow2(entryOaLg2sz) == va % Pow2(entryOaLg2sz)
    ensures EntryOaFull(entryOa, va, entryOaLg2sz) / Pow2(entryOaLg2sz) == entryOa / Pow2(entryOaLg2sz)
  {
    var s := entryOaLg2sz;
    var low := Mod(va, s);
    ModIsRemainder(va, s);
    OrOfAligned(entryOa, low, s);
    SetModIsSum(entryOa, low, s);
    AddAligned(entryOa, low, Pow2(s), EntryOaFull(entryOa, va, s));
  }

  lemma AddAligned(a: nat, low: nat, d: nat, r: nat)
    requires d > 0 && a % d == 0 && low < d && r == (a / d) * d + low
    ensures r == a + low && r % d == low && r / d == a / d
  {
    DivMul(a, d);
    DivModUnique(a + low, d, a / d, low);
  }

  // ---- arithmetic of table indexes -------------------------------------

  /** An index i below dHigh placed above a block of dLow inside a block of dLow*dHigh. */
  lemma PlaceIndex(q: nat, i: nat, dLow: nat, dHigh: nat)
    requires dLow > 0 && dHigh > 0 && i < dHigh
    ensures i * dLow < dLow * dHigh
    ensures (q * (dLow * dHigh) + i * dLow) % (dLow * dHigh) == i * dLow
    ensures (q * (dLow * dHigh) + i * dLow) / (dLow * dHigh) == q
    ensures (q * (dLow * dHigh) + i * dLow) / dLow == q * dHigh + i
    ensures (q * (dLow * dHigh) + i * dLow) % dLow == 0
    ensures (i * dLow) / dLow == i
  {
    PlaceIndexNamed(q, i, dLow, dHigh, dLow * dHigh, i * dLow, q * (dLow * dHigh) + i * dLow);
  }

  /** PlaceIndex with the block t, the offset x and the address y named. */
  lemma PlaceIndexNamed(q: nat, i: nat, dLow: nat, dHigh: nat, t: nat, x: nat, y: nat)
    requires dLow > 0 && dHigh > 0 && i < dHigh && t == dLow * dHigh && x == i * dLow && y == q * t + x
    ensures x < t && y % t == x && y / t == q && y / dLow == q * dHigh + i && y % dLow == 0 && x / dLow == i
  {
    MulMonotone(i + 1, dHigh, dLow);
    MulDistrib(i, 1, dLow);
    assert dHigh * dLow == t;
    DivModUnique(y, t, q, x);
    Recombine(q, dLow, dHigh, i, 0);
    DivModUnique(y, dLow, q * dHigh + i, 0);
    DivModUnique(x, dLow, i, 0);
  }

  /** The least multiple of d strictly above x. */
  lemma NextMultiple(x: nat, d: nat)
    requires d > 0
    ensures ((x + d) / d) * d % d == 0
    ensures x < ((x + d) / d) * d <= x + d
  {
    DivMul(x, d);
    MulDistrib(x / d, 1, d);
    DivModUnique(x + d, d, x / d + 1, x % d);
    MultipleOfMultiple(x / d + 1, d);
  }

  /** Stepping to the next multiple of d never passes an end that is itself a multiple of d. */
  lemma NextMultipleWithin(x: nat, d: nat, e: nat)
    requires d > 0 && e % d == 0 && x < e
    ensures ((x + d) / d) * d <= e
  {
    DivMul(x, d);
    DivMul(e, d);
    MulDistrib(x / d, 1, d);
    DivModUnique(x + d, d, x / d + 1, x % d);
    if e / d <= x / d {
      MulMonotone(e / d, x / d, d);
    } else {
      MulMonotone(x / d + 1, e / d, d);
    }
  }

  lemma ModMonotoneInBlock(a: nat, b: nat, d: nat)
    requires d > 0 && a <= b && a / d == b / d
    ensures a % d <= b % d
  {
    DivMul(a, d);
    DivMul(b, d);
  }

  // ---- table indexes ---------------------------------------------------

  /**
   * The VA window an index of this level is taken from: the range's VA
   * width at the top level, the span of one table below it.
   */
  function IndexWindow(range: Range, level: nat, geo: Geo): nat
  {
    if level == range.topLevel then range.maxVaszLg2 else geo.numItemsLg2 + geo.itemLg2sz
  }

  /**
   * pt_range_to_index applied to one address: at the top level the item of
   * the address taken modulo the VA width, below it the item bits of the
   * address.
   */
  function IndexOf(range: Range, level: nat, geo: Geo, addr: u64): u64
    requires range.maxVaszLg2 <= 64 && geo.numItemsLg2 <= 64
  {
    if range.topLevel == level then Div(Mod(addr, range.maxVaszLg2), geo.itemLg2sz)
    else Mod(Div(addr, geo.itemLg2sz), geo.numItemsLg2)
  }

  /** pt_range_to_index */
  function RangeToIndex(range: Range, level: nat, geo: Geo): u64
    requires range.maxVaszLg2 <= 64 && geo.numItemsLg2 <= 64
  {
    IndexOf(range, level, geo, range.va)
  }

  /** pt_range_to_last_index */
  function RangeToLastIndex(range: Range, level: nat, geo: Geo): u64
    requires range.maxVaszLg2 <= 64 && geo.numItemsLg2 <= 64
  {
    IndexOf(range, level, geo, range.lastVa)
  }

  /**
   * Both forms of the index are the address's offset within the level's
   * window, counted in items.
   */
  lemma IndexOfArith(range: Range, level: nat, geo: Geo, addr: u64)
    requires range.maxVaszLg2 <= 64 && geo.numItemsLg2 <= 64
    requires geo.itemLg2sz <= IndexWindow(range, level, geo)
    ensures var w := IndexWindow(range, level, geo);
      IndexOf(range, level, geo, addr) == (addr % Pow2(w)) / Pow2(geo.itemLg2sz) &&
      IndexOf(range, level, geo, addr) < Pow2(w - geo.itemLg2sz)
  {
    var isz := geo.itemLg2sz;
    var w := IndexWindow(range, level, geo);
    Pow2Add(isz, w - isz);
    DivModSplit(addr, Pow2(isz), Pow2(w - isz));
    if range.topLevel == level {
      ModIsRemainder(addr, w);
      DivIsQuotient(Mod(addr, w), isz);
    } else {
      DivIsQuotient(addr, isz);
      ModIsRemainder(Div(addr, isz), geo.numItemsLg2);
    }
  }

  lemma DivModSplit(a: nat, d1: nat, d2: nat)
    requires d1 > 0 && d2 > 0
    ensures (a / d1) % d2 == (a % (d1 * d2)) / d1
    ensures (a % (d1 * d2)) / d1 < d2
  {
    DivSplit(a, d1, d2);
    DivModUnique(a / d1, d2, a / (d1 * d2), (a % (d1 * d2)) / d1);
  }

  /** The VA with the bits of this table replaced by the start of item index. */
  function VaAtIndex(va: u64, index: u64, itemLg2sz: nat, tableLg2sz: nat): u64
    requires itemLg2sz < 64 && tableLg2sz <= 64
  {
    SetMod(va, Mul(index, itemLg2sz), tableLg2sz)
  }

  /**
   * For an index inside the table, pt_index_to_va keeps the VA above the
   * table and puts the start of the indexed item below it.
   */
  lemma VaAtIndexSpec(va: u64, index: u64, itemLg2sz: nat, tableLg2sz: nat)
    requires itemLg2sz < 64 && itemLg2sz <= tableLg2sz <= 64
    requires index < Pow2(tableLg2sz - itemLg2sz)
    ensures var r := VaAtIndex(va, index, itemLg2sz, tableLg2sz);
      r == (va / Pow2(tableLg2sz)) * Pow2(tableLg2sz) + index * Pow2(itemLg2sz) &&
      r / Pow2(tableLg2sz) == va / Pow2(tableLg2sz) &&
      (r % Pow2(tableLg2sz)) / Pow2(itemLg2sz) == index &&
      r % Pow2(itemLg2sz) == 0
  {
    var isz := itemLg2sz;
    var t := tableLg2sz;
    MulInWindow(index, isz, t);
    SetModIsSum(va, Mul(index, isz), t);
    Pow2Add(isz, t - isz);
    PlaceIndexAt(va, index, Pow2(isz), Pow2(t - isz), Pow2(t), VaAtIndex(va, index, isz, t));
  }

  /** Item index of a table of 2^t bytes starts at index * 2^isz, inside the table. */
  lemma MulInWindow(index: u64, isz: nat, t: nat)
    requires isz < 64 && isz <= t <= 64 && index < Pow2(t - isz)
    ensures Mul(index, isz) == index * Pow2(isz) && index * Pow2(isz) < Pow2(t)
  {
    Pow2Add(isz, t - isz);
    ItemInBlock(index, Pow2(isz), Pow2(t - isz), Pow2(t));
    Pow2Fits(t);
    MulIsProduct(index, isz);
    SmallMod(index * Pow2(isz), U64_LIMIT);
  }

  lemma ItemInBlock(i: nat, dLow: nat, dHigh: nat, dT: nat)
    requires dLow > 0 && i < dHigh && dT == dLow * dHigh
    ensures 0 <= i * dLow < dT
  {
    MulMonotone(i + 1, dHigh, dLow);
    MulDistrib(i, 1, dLow);
  }

  lemma PlaceIndexAt(va: nat, index: nat, dLow: nat, dHigh: nat, dT: nat, r: nat)
    requires dLow > 0 && dHigh > 0 && index < dHigh && dT == dLow * dHigh
    requires r == (va / dT) * dT + index * dLow
    ensures r / dT == va / dT && (r % dT) / dLow == index && r % dLow == 0
  {
    PlaceIndex(va / dT, index, dLow, dHigh);
  }

  /** a / d as a nat, without asking the solver to bound a quotient by a power of two. */
  lemma QuotNat(a: nat, d: nat) returns (q: nat)
    requires d > 0
    ensures q == a / d
  {
    q := a / d;
  }

  lemma SmallMod(x: nat, d: nat)
    requires x < d
    ensures x % d == x
  {
    DivModUnique(x, d, 0, x);
  }

  /** Round trip: the index of the VA moved to item index is index. */
  lemma IndexOfVaAtIndex(range: Range, level: nat, geo: Geo, index: u64)
    requires range.maxVaszLg2 <= 64 && geo.numItemsLg2 <= 64 && geo.itemLg2sz < 64
    requires geo.itemLg2sz <= IndexWindow(range, level, geo) <= 64
    requires TableOaLg2sz(range, geo) == IndexWindow(range, level, geo)
    requires index < Pow2(IndexWindow(range, level, geo) - geo.itemLg2sz)
    ensures IndexOf(range, level, geo, VaAtIndex(range.va, index, geo.itemLg2sz, TableOaLg2sz(range, geo))) == index
  {
    var w := IndexWindow(range, level, geo);
    var r := VaAtIndex(range.va, index, geo.itemLg2sz, w);
    VaAtIndexSpec(range.va, index, geo.itemLg2sz, w);
    IndexOfArith(range, level, geo, r);
  }

  /** Round trip: moving the VA to its own index rounds it down to the start of its item. */
  lemma VaAtIndexOfVa(range: Range, level: nat, geo: Geo)
    requires range.maxVaszLg2 <= 64 && geo.numItemsLg2 <= 64 && geo.itemLg2sz < 64
    requires geo.itemLg2sz <= IndexWindow(range, level, geo) <= 64
    requires TableOaLg2sz(range, geo) == IndexWindow(range, level, geo)
    ensures VaAtIndex(range.va, RangeToIndex(range, level, geo), geo.itemLg2sz, TableOaLg2sz(range, geo)) ==
      (range.va / Pow2(geo.itemLg2sz)) * Pow2(geo.itemLg2sz)
  {
    var isz := geo.itemLg2sz;
    var w := IndexWindow(range, level, geo);
    var i := RangeToIndex(range, level, geo);
    IndexOfArith(range, level, geo, range.va);
    VaAtIndexSpec(range.va, i, isz, w);
    Pow2Add(isz, w - isz);
    RoundDown(range.va, i, Pow2(isz), Pow2(w - isz), Pow2(w), VaAtIndex(range.va, i, isz, w));
  }

  lemma RoundDown(a: nat, i: nat, dLow: nat, dHigh: nat, dT: nat, r: nat)
    requires dLow > 0 && dHigh > 0 && dT == dLow * dHigh
    requires i == (a % dT) / dLow && r == (a / dT) * dT + i * dLow
    ensures r == (a / dLow) * dLow
  {
    DivSplit(a, dLow, dHigh);
    Recombine(a / dT, dLow, dHigh, i, 0);
  }

  /**
   * The end index _pt_iter_first chooses: one past the first index for a
   * single address, one past the last index when last_va falls in this
   * table, and the table size otherwise.
   */
  function FirstEndIndex(range: Range, level: nat, geo: Geo): nat
    requires range.maxVaszLg2 <= 64 && geo.numItemsLg2 < 64
  {
    if range.va == range.lastVa then RangeToIndex(range, level, geo) + 1
    else if range.topLevel == level || DivEq(range.va, range.lastVa, geo.numItemsLg2 + geo.itemLg2sz) then
      RangeToLastIndex(range, level, geo) + 1
    else ToInt(geo.numItemsLg2)
  }

  /** The end index never passes the window of this level. */
  lemma FirstEndIndexBound(range: Range, level: nat, geo: Geo)
    requires range.maxVaszLg2 <= 64 && geo.numItemsLg2 < 64
    requires geo.itemLg2sz <= IndexWindow(range, level, geo) <= geo.itemLg2sz + geo.numItemsLg2
    ensures RangeToIndex(range, level, geo) < Pow2(IndexWindow(range, level, geo) - geo.itemLg2sz)
    ensures FirstEndIndex(range, level, geo) <= Pow2(IndexWindow(range, level, geo) - geo.itemLg2sz)
  {
    IndexOfArith(range, level, geo, range.va);
    IndexOfArith(range, level, geo, range.lastVa);
  }

  /**
   * For a range with va <= last_va whose ends agree above the top's VA
   * width, the first index is below the end index: the walk visits at
   * least one item, and the last item it visits holds last_va when last_va
   * is inside this table.
   */
  lemma IterFirstOrdered(range: Range, level: nat, geo: Geo)
    requires range.maxVaszLg2 <= 64 && geo.numItemsLg2 < 64
    requires geo.itemLg2sz <= IndexWindow(range, level, geo) <= geo.itemLg2sz + geo.numItemsLg2
    requires range.va <= range.lastVa
    requires level == range.topLevel ==> DivEq(range.va, range.lastVa, range.maxVaszLg2)
    ensures RangeToIndex(range, level, geo) < FirstEndIndex(range, level, geo)
    ensures DivEq(range.va, range.lastVa, IndexWindow(range, level, geo)) ==>
      FirstEndIndex(range, level, geo) == RangeToLastIndex(range, level, geo) + 1
  {
    var w := IndexWindow(range, level, geo);
    var isz := geo.itemLg2sz;
    IndexOfArith(range, level, geo, range.va);
    IndexOfArith(range, level, geo, range.lastVa);
    DivEqIsSameQuotient(range.va, range.lastVa, w);
    if DivEq(range.va, range.lastVa, w) {
      ModMonotoneInBlock(range.va, range.lastVa, Pow2(w));
      DivMonotone(range.va % Pow2(w), range.lastVa % Pow2(w), Pow2(isz));
    }
    if range.va == range.lastVa {
      assert DivEq(range.va, range.lastVa, w);
    }
  }

  /**
   * The index _pt_advance moves to: index + 2^n with the low n bits
   * cleared.  Indexes are below 2^32, as the C unsigned int is.
   */
  function AdvancedIndex(index: u64, n: nat): u64
    requires index < U32_LIMIT && n < 32
  {
    Pow2Words();
    Pow2StrictMonotone(n, 32);
    SetMod(index + ToInt(n), 0, n)
  }

  /** _pt_advance goes to the next multiple of 2^n strictly above the index. */
  lemma AdvancedIndexSpec(index: u64, n: nat)
    requires index < U32_LIMIT && n < 32
    ensures AdvancedIndex(index, n) % Pow2(n) == 0
    ensures index < AdvancedIndex(index, n) <= index + Pow2(n)
  {
    AdvancedIndexSum(index, n);
    NextMultipleOf(index, Pow2(n), index + ToInt(n), AdvancedIndex(index, n));
  }

  /** An end index that is a multiple of 2^n is never stepped over. */
  lemma AdvancedIndexWithin(index: u64, n: nat, endIndex: nat)
    requires index < U32_LIMIT && n < 32
    requires endIndex % Pow2(n) == 0 && index < endIndex
    ensures AdvancedIndex(index, n) <= endIndex
  {
    AdvancedIndexSum(index, n);
    NextMultipleWithinOf(index, Pow2(n), index + ToInt(n), AdvancedIndex(index, n), endIndex);
  }

  lemma AdvancedIndexSum(index: u64, n: nat)
    requires index < U32_LIMIT && n < 32
    ensures Pow2(n) > 0 && ToInt(n) == Pow2(n)
    ensures AdvancedIndex(index, n) == ((index + ToInt(n)) / Pow2(n)) * Pow2(n) + 0
  {
    Pow2Words();
    Pow2StrictMonotone(n, 32);
    SetModIsSum(index + ToInt(n), 0, n);
  }

  lemma NextMultipleWithinOf(x: nat, d: nat, a: nat, r: nat, e: nat)
    requires d > 0 && a == x + d && r == (a / d) * d + 0
    requires e % d == 0 && x < e
    ensures r <= e
  {
    NextMultipleWithin(x, d, e);
  }

  lemma NextMultipleOf(x: nat, d: nat, a: nat, r: nat)
    requires d > 0 && a == x + d && r == (a / d) * d + 0
    ensures r % d == 0 && x < r <= x + d
  {
    NextMultiple(x, d);
  }

  /** The guard of the level loop as written: stop only when index equals end_index. */
  predicate LoadGuardAsWritten(index: nat, endIndex: nat)
  {
    index != endIndex
  }

  /** The guard the loop needs: stop once index reaches or passes end_index. */
  predicate LoadGuard(index: nat, endIndex: nat)
  {
    index < endIndex
  }

  /**
   * An end index inside a contiguous block is stepped over: from index 0
   * holding a block of 2^4 entries, with end index 4, the next index is
   * 16, which the guard as written still loads and the intended guard
   * stops at.
   */
  lemma AsWrittenOvershoot()
    ensures AdvancedIndex(0, 4) == 16
    ensures LoadGuardAsWritten(AdvancedIndex(0, 4), 4) && !LoadGuard(AdvancedIndex(0, 4), 4)
  {
    AdvancedIndexSpec(0, 4);
    assert Pow2(4) == 16;
  }

  /** Once past the end index, stepping never returns to it: the guard as written never stops. */
  lemma AsWrittenNeverStops(index: u64, n: nat, endIndex: nat)
    requires index < U32_LIMIT && n < 32 && endIndex < index
    ensures endIndex < AdvancedIndex(index, n)
    ensures LoadGuardAsWritten(AdvancedIndex(index, n), endIndex)
  {
    AdvancedIndexSpec(index, n);
  }

  // ---- covered entries, slices and child ranges ---------------------------

  /**
   * pt_entry_fully_covered: the range starts at the start of an entry of
   * 2^oaszLg2 bytes and runs to its end or beyond.
   */
  predicate EntryFullyCovered(range: Range, oaszLg2: nat)
    requires oaszLg2 <= 64
  {
    if Mod(range.va, oaszLg2) != 0 then false
    else if !DivEq(range.va, range.lastVa, oaszLg2) then true
    else ModEqMax(range.lastVa, oaszLg2)
  }

  lemma CoveredArith(va: nat, last: nat, d: nat)
    requires d > 0 && va % d == 0 && va <= last
    ensures (va / d != last / d || last % d == d - 1) <==> va + d - 1 <= last
  {
    DivMul(va, d);
    DivMul(last, d);
    DivMonotone(va, last, d);
    if va / d != last / d {
      MulMonotone(va / d + 1, last / d, d);
      MulDistrib(va / d, 1, d);
    }
  }

  /** An entry is fully covered exactly when va is aligned to it and last_va reaches its last byte. */
  lemma EntryFullyCoveredIff(range: Range, oaszLg2: nat)
    requires oaszLg2 <= 64 && range.va <= range.lastVa
    ensures EntryFullyCovered(range, oaszLg2) <==>
      range.va % Pow2(oaszLg2) == 0 && range.va + Pow2(oaszLg2) - 1 <= range.lastVa
  {
    ModIsRemainder(range.va, oaszLg2);
    ModIsRemainder(range.lastVa, oaszLg2);
    DivEqIsSameQuotient(range.va, range.lastVa, oaszLg2);
    if range.va % Pow2(oaszLg2) == 0 {
      CoveredArith(range.va, range.lastVa, Pow2(oaszLg2));
    }
  }

  /**
   * pt_range_slice: the child range covering items [startIndex, endIndex)
   * of the current table.  last_va is computed as end * 2^isz - 1 in the
   * VA word, which wraps when end is 0.
   */
  function RangeSlice(range: Range, geo: Geo, startIndex: u32, endIndex: u32): (r: Range)
    requires geo.itemLg2sz < 64 && TableOaLg2sz(range, geo) <= 64
    ensures r.(va := range.va, lastVa := range.lastVa) == range
  {
    var t := TableOaLg2sz(range, geo);
    var va := SetMod(range.va, Mul(startIndex, geo.itemLg2sz), t);
    var lastVa := SetMod(range.va, (Mul(endIndex, geo.itemLg2sz) + U64_MAX) % U64_LIMIT, t);
    MakeChildRange(range, va, lastVa)
  }

  lemma WrapDecrement(x: int)
    requires 1 <= x <= U64_LIMIT
    ensures ((x % U64_LIMIT) + U64_MAX) % U64_LIMIT == x - 1
  {
    if x < U64_LIMIT {
      SmallMod(x, U64_LIMIT);
      DivModUnique(x + U64_MAX, U64_LIMIT, 1, x - 1);
    } else {
      DivModUnique(x, U64_LIMIT, 1, 0);
      SmallMod(U64_MAX, U64_LIMIT);
    }
  }

  /** Item e - 1 of a block of dHigh items of dLow bytes ends one byte before e * dLow. */
  lemma LastItemArith(e: nat, dLow: nat, dHigh: nat, dT: nat, x: int)
    requires dLow > 0 && 1 <= e <= dHigh && dT == dLow * dHigh && x == e * dLow
    ensures 1 <= x <= dT && (x - 1) / dLow == e - 1
  {
    MulMonotone(e, dHigh, dLow);
    MulMonotone(1, e, dLow);
    MulDistrib(e - 1, 1, dLow);
    DivModUnique(x - 1, dLow, e - 1, dLow - 1);
  }

  /**
   * A slice of items start..end - 1 runs from the first byte of item start
   * to the last byte of item end - 1 of the same table, so its first and
   * last indexes are start and end - 1.
   */
  lemma RangeSliceSpec(range: Range, level: nat, geo: Geo, startIndex: u32, endIndex: u32)
    requires range.maxVaszLg2 <= 64 && geo.numItemsLg2 <= 64 && geo.itemLg2sz < 64
    requires geo.itemLg2sz <= IndexWindow(range, level, geo) <= 64
    requires TableOaLg2sz(range, geo) == IndexWindow(range, level, geo)
    requires startIndex < endIndex <= Pow2(IndexWindow(range, level, geo) - geo.itemLg2sz)
    ensures var s := RangeSlice(range, geo, startIndex, endIndex);
      var w := IndexWindow(range, level, geo);
      var base := (range.va / Pow2(w)) * Pow2(w);
      s.va == base + startIndex * Pow2(geo.itemLg2sz) &&
      s.lastVa == base + endIndex * Pow2(geo.itemLg2sz) - 1 &&
      IndexOf(range, level, geo, s.va) == startIndex &&
      IndexOf(range, level, geo, s.lastVa) == endIndex - 1
  {
    var isz := geo.itemLg2sz;
    var w := IndexWindow(range, level, geo);
    VaAtIndexSpec(range.va, startIndex, isz, w);
    IndexOfVaAtIndex(range, level, geo, startIndex);
    RangeSliceLast(range, level, geo, startIndex, endIndex);
  }

  lemma RangeSliceLast(range: Range, level: nat, geo: Geo, startIndex: u32, endIndex: u32)
    requires range.maxVaszLg2 <= 64 && geo.numItemsLg2 <= 64 && geo.itemLg2sz < 64
    requires geo.itemLg2sz <= IndexWindow(range, level, geo) <= 64
    requires TableOaLg2sz(range, geo) == IndexWindow(range, level, geo)
    requires 1 <= endIndex <= Pow2(IndexWindow(range, level, geo) - geo.itemLg2sz)
    ensures var w := IndexWindow(range, level, geo);
      RangeSlice(range, geo, startIndex, endIndex).lastVa ==
        (range.va / Pow2(w)) * Pow2(w) + endIndex * Pow2(geo.itemLg2sz) - 1 &&
      IndexOf(range, level, geo, RangeSlice(range, geo, startIndex, endIndex).lastVa) == endIndex - 1
  {
    var isz := geo.itemLg2sz;
    var w := IndexWindow(range, level, geo);
    RangeSliceLastVa(range, geo, startIndex, endIndex);
    var last := RangeSlice(range, geo, startIndex, endIndex).lastVa;
    IndexOfArith(range, level, geo, last);
    SliceLastIndexAt(last, range.va, Pow2(w), Pow2(isz), endIndex * Pow2(isz), endIndex);
  }

  lemma RangeSliceLastVa(range: Range, geo: Geo, startIndex: u32, endIndex: u32)
    requires geo.itemLg2sz < 64 && geo.itemLg2sz <= TableOaLg2sz(range, geo) <= 64
    requires 1 <= endIndex <= Pow2(TableOaLg2sz(range, geo) - geo.itemLg2sz)
    ensures var t := TableOaLg2sz(range, geo);
      RangeSlice(range, geo, startIndex, endIndex).lastVa ==
        (range.va / Pow2(t)) * Pow2(t) + (endIndex * Pow2(geo.itemLg2sz) - 1)
    ensures 1 <= endIndex * Pow2(geo.itemLg2sz) <= Pow2(TableOaLg2sz(range, geo))
    ensures (endIndex * Pow2(geo.itemLg2sz) - 1) / Pow2(geo.itemLg2sz) == endIndex - 1
  {
    var t := TableOaLg2sz(range, geo);
    SliceLastWord(endIndex, geo.itemLg2sz, t);
    SetModIsSum(range.va, (Mul(endIndex, geo.itemLg2sz) + U64_MAX) % U64_LIMIT, t);
  }

  lemma SliceLastIndexAt(last: nat, va: nat, dT: nat, dLow: nat, x: nat, e: nat)
    requires dT > 0 && dLow > 0 && 1 <= x <= dT
    requires last == (va / dT) * dT + (x - 1) && (x - 1) / dLow == e - 1
    ensures (last % dT) / dLow == e - 1
  {
    DivModUnique(last, dT, va / dT, x - 1);
  }

  /** The wrapped end word of a slice is the last byte of item end - 1, inside the table. */
  lemma SliceLastWord(e: u32, isz: nat, w: nat)
    requires isz < 64 && isz <= w <= 64 && 1 <= e <= Pow2(w - isz)
    ensures 1 <= e * Pow2(isz) <= Pow2(w)
    ensures (Mul(e, isz) + U64_MAX) % U64_LIMIT == e * Pow2(isz) - 1
    ensures (e * Pow2(isz) - 1) / Pow2(isz) == e - 1
  {
    Pow2Add(isz, w - isz);
    Pow2Monotone(w, 64);
    Pow2Words();
    LastItemArith(e, Pow2(isz), Pow2(w - isz), Pow2(w), e * Pow2(isz));
    MulIsProduct(e, isz);
    WrapDecrement(e * Pow2(isz));
  }

  /**
   * pt_walk_child_range's checks before descending: the parent entry must
   * be able to hold a table and must have loaded one.  On success the
   * child walk runs at parent level - 1 over the new endpoints.
   */
  function ChildRange(parent: Range, parentLevel: nat, tableLower: u64, va: u64, lastVa: u64): (r: Result<Range>)
    ensures r.Err? <==> !CanHaveTable(parentLevel) || tableLower == 0
    ensures r.Err? ==> r.err == EINVAL
    ensures r.Ok? ==> r.value.va == va && r.value.lastVa == lastVa && r.value.(va := parent.va, lastVa := parent.lastVa) == parent
  {
    if !CanHaveTable(parentLevel) || tableLower == 0 then Err(EINVAL)
    else Ok(MakeChildRange(parent, va, lastVa))
  }

  /** pt_walk_child_all: the child range spanning the whole item that holds the parent's va. */
  function ChildAllRange(parent: Range, parentLevel: nat, geo: Geo, tableLower: u64): (r: Result<Range>)
    requires geo.itemLg2sz <= 64
  {
    ChildRange(parent, parentLevel, tableLower, SpanStart(parent.va, geo.itemLg2sz), SpanLast(parent.va, geo.itemLg2sz))
  }

  /** The whole-item child range is the aligned block of 2^isz bytes around the parent's va. */
  lemma ChildAllRangeSpan(parent: Range, parentLevel: nat, geo: Geo, tableLower: u64)
    requires geo.itemLg2sz <= 64 && CanHaveTable(parentLevel) && tableLower != 0
    ensures var r := ChildAllRange(parent, parentLevel, geo, tableLower);
      r.Ok? && r.value.va % Pow2(geo.itemLg2sz) == 0 &&
      r.value.va <= parent.va <= r.value.lastVa &&
      r.value.lastVa == r.value.va + Pow2(geo.itemLg2sz) - 1
  {
    SpanFacts(parent.va, geo.itemLg2sz);
    DivEqIsSameQuotient(parent.va, parent.va, geo.itemLg2sz);
    InSpanIff(parent.va, parent.va, geo.itemLg2sz);
  }

  // ---- top table size ----------------------------------------------------

  /**
   * pt_top_memsize_lg2: log2 of the bytes of the top table at the level
   * encoded in top_of_table (or the format's fixed top level).  It has one
   * word per top item of the common VA width; with a dynamic top below the
   * format's highest level it is capped at the items the top level holds.
   * The counts are C unsigned ints.
   */
  function TopMemsizeLg2(commonMaxVaszLg2: nat, topOfTable: u64, fixedTopLevel: Option<nat>, geo: nat -> Geo,
                         maxTopLevel: nat, dynamicTop: bool, entryWordLg2: nat): nat
  {
    var level := TopLevelOf(topOfTable, fixedTopLevel);
    var items := U32(commonMaxVaszLg2 - geo(level).itemLg2sz);
    var capped := if level != maxTopLevel && dynamicTop then Min(items, geo(level).numItemsLg2) else items;
    U32(capped + entryWordLg2)
  }

  /** The item count before the word size is added, when nothing wraps. */
  function TopItemsLg2(commonMaxVaszLg2: nat, isz: nat, numItemsLg2: nat, capped: bool): nat
    requires isz <= commonMaxVaszLg2
  {
    if capped then Min(commonMaxVaszLg2 - isz, numItemsLg2) else commonMaxVaszLg2 - isz
  }

  lemma TopMemsizeValue(commonMaxVaszLg2: nat, topOfTable: u64, fixedTopLevel: Option<nat>, geo: nat -> Geo,
                        maxTopLevel: nat, dynamicTop: bool, entryWordLg2: nat)
    requires commonMaxVaszLg2 <= 64 && entryWordLg2 <= 3
    requires geo(TopLevelOf(topOfTable, fixedTopLevel)).itemLg2sz <= commonMaxVaszLg2
    ensures var level := TopLevelOf(topOfTable, fixedTopLevel);
      TopMemsizeLg2(commonMaxVaszLg2, topOfTable, fixedTopLevel, geo, maxTopLevel, dynamicTop, entryWordLg2) ==
      TopItemsLg2(commonMaxVaszLg2, geo(level).itemLg2sz, geo(level).numItemsLg2, dynamicTop && level != maxTopLevel) + entryWordLg2
  {
    var level := TopLevelOf(topOfTable, fixedTopLevel);
    var items := commonMaxVaszLg2 - geo(level).itemLg2sz;
    U32Small(items);
    var c := TopItemsLg2(commonMaxVaszLg2, geo(level).itemLg2sz, geo(level).numItemsLg2, dynamicTop && level != maxTopLevel);
    U32Small(c + entryWordLg2);
  }

  lemma TopItemsSpan(commonMaxVaszLg2: nat, isz: nat, numItemsLg2: nat, capped: bool, entryWordLg2: nat)
    requires isz <= commonMaxVaszLg2
    ensures var c := TopItemsLg2(commonMaxVaszLg2, isz, numItemsLg2, capped);
      Pow2(c + entryWordLg2) == Pow2(c) * Pow2(entryWordLg2) &&
      Pow2(c) * Pow2(isz) <= Pow2(commonMaxVaszLg2) &&
      (!capped ==> Pow2(c) * Pow2(isz) == Pow2(commonMaxVaszLg2)) &&
      (capped ==> c <= numItemsLg2)
  {
    var c := TopItemsLg2(commonMaxVaszLg2, isz, numItemsLg2, capped);
    Pow2Add(c, entryWordLg2);
    Pow2Add(c, isz);
    Pow2Monotone(c + isz, commonMaxVaszLg2);
  }

  /**
   * The top table holds one word for each of its items: never more items
   * than span the common VA width, exactly that many unless the dynamic
   * cap applies, and then never more than the top level holds.
   */
  lemma TopMemsizeWords(commonMaxVaszLg2: nat, topOfTable: u64, fixedTopLevel: Option<nat>, geo: nat -> Geo,
                        maxTopLevel: nat, dynamicTop: bool, entryWordLg2: nat)
    requires commonMaxVaszLg2 <= 64 && entryWordLg2 <= 3
    requires geo(TopLevelOf(topOfTable, fixedTopLevel)).itemLg2sz <= commonMaxVaszLg2
    ensures var r := TopMemsizeLg2(commonMaxVaszLg2, topOfTable, fixedTopLevel, geo, maxTopLevel, dynamicTop, entryWordLg2);
      var level := TopLevelOf(topOfTable, fixedTopLevel);
      var isz := geo(level).itemLg2sz;
      r >= entryWordLg2 &&
      Pow2(r) == Pow2(r - entryWordLg2) * Pow2(entryWordLg2) &&
      Pow2(r - entryWordLg2) * Pow2(isz) <= Pow2(commonMaxVaszLg2) &&
      (!(dynamicTop && level != maxTopLevel) ==> Pow2(r - entryWordLg2) * Pow2(isz) == Pow2(commonMaxVaszLg2)) &&
      (dynamicTop && level != maxTopLevel ==> r - entryWordLg2 <= geo(level).numItemsLg2)
  {
    var level := TopLevelOf(topOfTable, fixedTopLevel);
    TopMemsizeValue(commonMaxVaszLg2, topOfTable, fixedTopLevel, geo, maxTopLevel, dynamicTop, entryWordLg2);
    TopItemsSpan(commonMaxVaszLg2, geo(level).itemLg2sz, geo(level).numItemsLg2, dynamicTop && level != maxTopLevel, entryWordLg2);
  }

  // ---- best page size ---------------------------------------------------

  /**
   * A page of 2^p bytes can map [va, lastVa] at oa from va on: the bitmap
   * offers it, va and oa are aligned to it and it ends at or before lastVa.
   */
  predicate PgsizeFits(pgszBitmap: u64, va: u64, lastVa: u64, oa: u64, p: nat)
  {
    p < 64 && TestBit(pgszBitmap, p) && va % Pow2(p) == 0 && oa % Pow2(p) == 0 && va + Pow2(p) - 1 <= lastVa
  }

  /**
   * The lowest set bit of va | oa | 2^(fls(len) - 1): the largest page
   * both addresses are aligned to and the length holds.
   */
  function BestPgszLg2(va: u64, oa: u64, len: nat): (r: nat)
    requires 2 <= len < U64_LIMIT
    ensures r < 64
  {
    FlsWord(len);
    FlsSpec(len);
    var f := Fls(len);
    Pow2Words();
    Pow2Fits(f - 1);
    var mask := Or(Or(va, oa), ToInt(f - 1));
    OrBit(Or(va, oa), ToInt(f - 1), f - 1);
    Pow2Bit(f - 1, f - 1);
    ZeroBit(f - 1);
    OrBound(va, oa, 64);
    OrBound(Or(va, oa), Pow2(f - 1), 64);
    FfsAtMost(mask, f - 1);
    Ffs(mask)
  }

  /** pgsz_bitmap with every bit above best cleared. */
  function CutBitmap(pgszBitmap: u64, best: nat): u64
    requires best < 64
  {
    if best < 63 then Mod(pgszBitmap, best + 1) else pgszBitmap
  }

  /**
   * __pt_compute_best_pgsize.  The whole 64-bit space (va = 0, lastVa =
   * 2^64 - 1) is excluded: its length wraps to 0 and the C shift is then
   * undefined.
   */
  function ComputeBestPgsize(pgszBitmap: u64, va: u64, lastVa: u64, oa: u64): (r: nat)
    requires !(va == 0 && lastVa == U64_MAX)
    ensures r < 64
  {
    if va >= lastVa then 0
    else
      var bitmap := CutBitmap(pgszBitmap, BestPgszLg2(va, oa, lastVa - va + 1));
      var p := Fls(bitmap);
      FlsWord(bitmap);
      if p == 0 then 0 else p - 1
  }

  /** x is a multiple of 2^p when its bits below p are clear. */
  lemma AlignedOfLowClear(x: nat, p: nat)
    requires forall j :: 0 <= j < p ==> !TestBit(x, j)
    ensures x % Pow2(p) == 0
  {
    LowIsMod(x, p);
    LowBound(x, p);
    forall j | 0 <= j < p ensures TestBit(Low(x, p), j) == TestBit(0, j) {
      LowBit(x, p, j);
      ZeroBit(j);
    }
    BitsEqual(Low(x, p), 0, p);
  }

  /** A multiple of 2^p has no bit set below p. */
  lemma LowClearOfAligned(x: nat, p: nat, j: nat)
    requires x % Pow2(p) == 0 && j < p
    ensures !TestBit(x, j)
  {
    LowIsMod(x, p);
    LowBit(x, p, j);
    ZeroBit(j);
  }

  /**
   * The best bit in terms of va, oa and the length: no bit of va or oa is
   * set below it, and it is a set bit of va or oa or the top bit of len.
   */
  lemma BestPgszBits(va: u64, oa: u64, len: nat)
    requires 2 <= len < U64_LIMIT
    ensures var best := BestPgszLg2(va, oa, len);
      1 <= Fls(len) && best <= Fls(len) - 1 && Pow2(Fls(len) - 1) <= len < Pow2(Fls(len)) &&
      (forall j :: 0 <= j < best ==> !TestBit(va, j) && !TestBit(oa, j)) &&
      (TestBit(va, best) || TestBit(oa, best) || best == Fls(len) - 1)
  {
    FlsWord(len);
    FlsSpec(len);
    var f := Fls(len);
    var mask := Or(Or(va, oa), Pow2(f - 1));
    OrBit(Or(va, oa), Pow2(f - 1), f - 1);
    Pow2Bit(f - 1, f - 1);
    FfsAtMost(mask, f - 1);
    var best := Ffs(mask);
    assert best == BestPgszLg2(va, oa, len);
    FfsSpec(mask);
    forall j | 0 <= j < best ensures !TestBit(va, j) && !TestBit(oa, j) {
      LowBit(mask, best, j);
      ZeroBit(j);
      OrBit(Or(va, oa), Pow2(f - 1), j);
      OrBit(va, oa, j);
    }
    OrBit(Or(va, oa), Pow2(f - 1), best);
    OrBit(va, oa, best);
    Pow2Bit(f - 1, best);
  }

  lemma BestBoundBelow(va: u64, oa: u64, len: nat, p: nat)
    requires 2 <= len < U64_LIMIT && p <= BestPgszLg2(va, oa, len)
    ensures va % Pow2(p) == 0 && oa % Pow2(p) == 0 && Pow2(p) <= len
  {
    BestPgszBits(va, oa, len);
    AlignedOfLowClear(va, p);
    AlignedOfLowClear(oa, p);
    Pow2Monotone(p, Fls(len) - 1);
  }

  lemma BestBoundAbove(va: u64, oa: u64, len: nat, p: nat)
    requires 2 <= len < U64_LIMIT && BestPgszLg2(va, oa, len) < p
    ensures !(va % Pow2(p) == 0 && oa % Pow2(p) == 0 && Pow2(p) <= len)
  {
    var best := BestPgszLg2(va, oa, len);
    BestPgszBits(va, oa, len);
    if TestBit(va, best) && va % Pow2(p) == 0 {
      LowClearOfAligned(va, p, best);
    } else if TestBit(oa, best) && oa % Pow2(p) == 0 {
      LowClearOfAligned(oa, p, best);
    } else if best == Fls(len) - 1 {
      Pow2Monotone(Fls(len), p);
    }
  }

  /** A page 2^p qualifies by alignment and length exactly when p is at most the best bit. */
  lemma BestBound(va: u64, oa: u64, len: nat, p: nat)
    requires 2 <= len < U64_LIMIT && p < 64
    ensures p <= BestPgszLg2(va, oa, len) <==> va % Pow2(p) == 0 && oa % Pow2(p) == 0 && Pow2(p) <= len
  {
    if p <= BestPgszLg2(va, oa, len) {
      BestBoundBelow(va, oa, len, p);
    } else {
      BestBoundAbove(va, oa, len, p);
    }
  }

  /** The cut bitmap keeps exactly the bits at or below best. */
  lemma CutBitmapBit(pgszBitmap: u64, best: nat, k: nat)
    requires best < 64 && k < 64
    ensures TestBit(CutBitmap(pgszBitmap, best), k) == (TestBit(pgszBitmap, k) && k <= best)
  {
    if best < 63 {
      AndBit(pgszBitmap, ToMaxInt(best + 1), k);
      MaxBit(best + 1, k);
    }
  }

  /** For a range of two or more addresses, the fitting page sizes are the bits of the cut bitmap. */
  lemma FitsIffCutBit(pgszBitmap: u64, va: u64, lastVa: u64, oa: u64, q: nat)
    requires va < lastVa && !(va == 0 && lastVa == U64_MAX) && q < 64
    ensures PgsizeFits(pgszBitmap, va, lastVa, oa, q) <==>
      TestBit(CutBitmap(pgszBitmap, BestPgszLg2(va, oa, lastVa - va + 1)), q)
  {
    BestBound(va, oa, lastVa - va + 1, q);
    CutBitmapBit(pgszBitmap, BestPgszLg2(va, oa, lastVa - va + 1), q);
  }

  /**
   * The result of __pt_compute_best_pgsize is the largest page size that
   * fits the range at va and oa, and 0 when none does: every larger bitmap
   * bit fails alignment or length.
   */
  lemma ComputeBestPgsizeSpec(pgszBitmap: u64, va: u64, lastVa: u64, oa: u64)
    requires !(va == 0 && lastVa == U64_MAX)
    ensures var r := ComputeBestPgsize(pgszBitmap, va, lastVa, oa);
      ((exists p :: PgsizeFits(pgszBitmap, va, lastVa, oa, p)) ==> PgsizeFits(pgszBitmap, va, lastVa, oa, r)) &&
      (forall p :: r < p ==> !PgsizeFits(pgszBitmap, va, lastVa, oa, p)) &&
      ((forall p :: !PgsizeFits(pgszBitmap, va, lastVa, oa, p)) ==> r == 0)
  {
    var r := ComputeBestPgsize(pgszBitmap, va, lastVa, oa);
    if va >= lastVa {
      forall p | PgsizeFits(pgszBitmap, va, lastVa, oa, p) ensures p == 0 {
      }
    } else {
      var bitmap := CutBitmap(pgszBitmap, BestPgszLg2(va, oa, lastVa - va + 1));
      FlsWord(bitmap);
      FlsSpec(bitmap);
      if bitmap == 0 {
        forall q | PgsizeFits(pgszBitmap, va, lastVa, oa, q) ensures false {
          FitsIffCutBit(pgszBitmap, va, lastVa, oa, q);
          ZeroBit(q);
        }
      } else {
        FitsIffCutBit(pgszBitmap, va, lastVa, oa, r);
        forall q | r < q ensures !PgsizeFits(pgszBitmap, va, lastVa, oa, q) {
          if q < 64 {
            FitsIffCutBit(pgszBitmap, va, lastVa, oa, q);
            HighBitClear(bitmap, Fls(bitmap), q);
          }
        }
      }
    }
  }

  // ---- the walk of one level ---------------------------------------------

  /** The log2 of the items pt_next_entry steps over: the contiguous count of a leaf, one item otherwise. */
  function StepLg2(entryType: EntryType, numContigLg2: nat): nat
  {
    if entryType == Oa then numContigLg2 else 0
  }

  /** Every word of the table has a contiguous count below 32. */
  predicate ContigBounded(contig: (u64, nat) -> nat, words: seq<u64>, level: nat)
  {
    forall i :: 0 <= i < |words| ==> contig(words[i], level) < 32
  }

  /** The index pt_next_entry moves to from the entry word w at index. */
  function NextIndex(load: (u64, nat) -> EntryType, contig: (u64, nat) -> nat, w: u64, level: nat, index: u64): (r: u64)
    requires index < U32_LIMIT && contig(w, level) < 32
    ensures index < r
  {
    AdvancedIndexSpec(index, StepLg2(load(w, level), contig(w, level)));
    AdvancedIndex(index, StepLg2(load(w, level), contig(w, level)))
  }

  /** For each index of the table, the index the walk moves to after loading it. */
  function NextIndexes(load: (u64, nat) -> EntryType, contig: (u64, nat) -> nat, words: seq<u64>, level: nat): (r: seq<u64>)
    requires |words| <= U32_LIMIT && ContigBounded(contig, words, level)
    ensures |r| == |words|
    ensures forall i :: 0 <= i < |r| ==> r[i] == NextIndex(load, contig, words[i], level, i)
    ensures Forward(r)
  {
    seq(|words|, i requires 0 <= i < |words| => NextIndex(load, contig, words[i], level, i))
  }

  predicate Forward(nexts: seq<u64>)
  {
    forall i :: 0 <= i < |nexts| ==> i < nexts[i]
  }

  /**
   * The indexes for_each_pt_level_item loads, from index from with the
   * guard index < end: each entry, then the index its step moves to.  The
   * walk also ends at the end of nexts or at a step that does not move
   * forward; on the tables of Walk neither happens before end.
   */
  function Visits(nexts: seq<u64>, from: nat, end: nat): seq<nat>
    decreases end - from
  {
    if from < end && from < |nexts| && from < nexts[from] then [from] + Visits(nexts, nexts[from], end) else []
  }

  /**
   * The visited indexes start at from, strictly increase, stay inside
   * [from, end), each follows its predecessor by one step, and the step
   * after the last one leaves the range.
   */
  lemma {:induction false} VisitsOrdered(nexts: seq<u64>, from: nat, end: nat)
    requires end <= |nexts| && Forward(nexts)
    ensures var r := Visits(nexts, from, end);
      (from < end <==> |r| > 0) && (|r| > 0 ==> r[0] == from) &&
      (forall k :: 0 <= k < |r| ==> from <= r[k] < end) &&
      (forall i, j :: 0 <= i < j < |r| ==> r[i] < r[j]) &&
      (forall k :: 0 <= k < |r| - 1 ==> r[k + 1] == nexts[r[k]]) &&
      (|r| > 0 ==> nexts[r[|r| - 1]] >= end)
    decreases end - from
  {
    if from < end {
      VisitsOrdered(nexts, nexts[from], end);
      assert Visits(nexts, from, end) == [from] + Visits(nexts, nexts[from], end);
    }
  }

  /**
   * Nothing in [from, end) is skipped: every index lies at or after a
   * visited index and before the next visited one, that is inside the
   * block the visited entry's step moves over.
   */
  lemma {:induction false} VisitsCover(nexts: seq<u64>, from: nat, end: nat, j: nat)
    requires end <= |nexts| && Forward(nexts)
    requires from <= j < end
    ensures exists m :: 0 <= m < |Visits(nexts, from, end)| && Visits(nexts, from, end)[m] <= j < nexts[Visits(nexts, from, end)[m]]
    decreases end - from
  {
    var r := Visits(nexts, from, end);
    var rest := Visits(nexts, nexts[from], end);
    assert r == [from] + rest;
    if j < nexts[from] {
      assert |r| > 0 && r[0] == from;
      assert 0 <= 0 < |r| && r[0] <= j < nexts[r[0]];
    } else {
      VisitsCover(nexts, nexts[from], end, j);
      var k :| 0 <= k < |rest| && rest[k] <= j < nexts[rest[k]];
      assert r[k + 1] == rest[k];
      assert 0 <= k + 1 < |r| && r[k + 1] <= j < nexts[r[k + 1]];
      assert exists k' :: 0 <= k' < |r| && r[k'] <= j < nexts[r[k']];
    }
  }

  /**
   * pt_state: one table level being walked.  The range is held by value
   * (the source shares it by pointer with the caller of the walk), the
   * table as the array of its words.
   */
  class State {
    var range: Range
    const level: nat
    const geo: Geo
    const table: array<u64>
    var index: u64
    var endIndex: u64
    var entryType: EntryType
    var entry: u64
    var tableLower: u64

    /**
     * The geometry of a real format: items narrower than the VA word,
     * fewer than 2^32 items a table, the index window inside the table's
     * span and the table holding one word for each index of the window.
     */
    predicate Valid()
      reads this
    {
      geo.itemLg2sz < 64 && geo.numItemsLg2 < 32 && range.maxVaszLg2 <= 64 &&
      geo.itemLg2sz <= IndexWindow(range, level, geo) <= geo.itemLg2sz + geo.numItemsLg2 &&
      IndexWindow(range, level, geo) <= 64 &&
      TableOaLg2sz(range, geo) == IndexWindow(range, level, geo) &&
      table.Length == Pow2(IndexWindow(range, level, geo) - geo.itemLg2sz)
    }

    /** The number of indexes of this level's window. */
    function NumIndexes(): nat
      requires Valid()
      reads this
    {
      Pow2(IndexWindow(range, level, geo) - geo.itemLg2sz)
    }

    /** What the last load left: the entry type, the entry word and the lower table. */
    function Loaded(): (EntryType, u64, u64)
      reads this
    {
      (entryType, entry, tableLower)
    }

    /** pt_init: a state for table at level with its iteration fields zero. */
    constructor (range: Range, level: nat, geo: Geo, table: array<u64>)
      ensures this.range == range && this.level == level && this.geo == geo && this.table == table
      ensures index == 0 && endIndex == 0 && Loaded() == (Empty, 0, 0)
    {
      this.range := range;
      this.level := level;
      this.geo := geo;
      this.table := table;
      index := 0;
      endIndex := 0;
      entryType := Empty;
      entry := 0;
      tableLower := 0;
    }

    /** pt_init_top: a state for the top table at the range's top level. */
    constructor InitTop(range: Range, geo: Geo, table: array<u64>)
      ensures this.range == range && level == range.topLevel && this.geo == geo && this.table == table
      ensures index == 0 && endIndex == 0 && Loaded() == (Empty, 0, 0)
    {
      this.range := range;
      level := range.topLevel;
      this.geo := geo;
      this.table := table;
      index := 0;
      endIndex := 0;
      entryType := Empty;
      entry := 0;
      tableLower := 0;
    }

    /** pt_index_to_va: the range's va moves to the start of the current item. */
    method IndexToVa()
      requires Valid()
      modifies this
      ensures Valid()
      ensures range == old(range).(va := VaAtIndex(old(range).va, index, geo.itemLg2sz, IndexWindow(old(range), level, geo)))
      ensures index == old(index) && endIndex == old(endIndex) && Loaded() == old(Loaded())
      ensures index < NumIndexes() ==> RangeToIndex(range, level, geo) == index
    {
      var old_range := range;
      range := range.(va := VaAtIndex(range.va, index, geo.itemLg2sz, TableOaLg2sz(range, geo)));
      if index < NumIndexes() {
        IndexOfVaAtIndex(old_range, level, geo, index);
      }
    }

    /**
     * _pt_advance: step to the next multiple of 2^n items strictly above
     * the index and move the va to it.
     */
    method Advance(n: nat)
      requires Valid() && index < U32_LIMIT && n < 32
      modifies this
      ensures Valid()
      ensures index == AdvancedIndex(old(index), n) && endIndex == old(endIndex) && Loaded() == old(Loaded())
      ensures range == old(range).(va := VaAtIndex(old(range).va, index, geo.itemLg2sz, IndexWindow(old(range), level, geo)))
      ensures index < NumIndexes() ==> RangeToIndex(range, level, geo) == index
    {
      index := AdvancedIndex(index, n);
      IndexToVa();
    }

    /**
     * _pt_iter_first: the first index is the item of va and the end index
     * follows FirstEndIndex.  Both lie in the window, and for a range with
     * va <= last_va inside the top's VA width at least one item is visited.
     */
    method IterFirst()
      requires Valid()
      modifies this
      ensures Valid() && range == old(range) && Loaded() == old(Loaded())
      ensures index == RangeToIndex(range, level, geo) && endIndex == FirstEndIndex(range, level, geo)
      ensures index < NumIndexes() && endIndex <= NumIndexes()
      ensures range.va <= range.lastVa && (level == range.topLevel ==> DivEq(range.va, range.lastVa, range.maxVaszLg2)) ==>
        index < endIndex
    {
      FirstEndIndexBound(range, level, geo);
      Pow2Fits(IndexWindow(range, level, geo) - geo.itemLg2sz);
      index := RangeToIndex(range, level, geo);
      if range.va == range.lastVa {
        endIndex := index + 1;
      } else if range.topLevel == level || DivEq(range.va, range.lastVa, geo.numItemsLg2 + geo.itemLg2sz) {
        endIndex := RangeToLastIndex(range, level, geo) + 1;
      } else {
        endIndex := ToInt(geo.numItemsLg2);
      }
      assert endIndex == FirstEndIndex(range, level, geo);
      assert NumIndexes() == Pow2(IndexWindow(range, level, geo) - geo.itemLg2sz);
      if range.va <= range.lastVa && (level == range.topLevel ==> DivEq(range.va, range.lastVa, range.maxVaszLg2)) {
        IterFirstOrdered(range, level, geo);
      }
    }

    /**
     * pt_load_entry: read the word at the index, classify it with the
     * format's load, and for a table entry record the lower table.
     */
    method LoadEntry(load: (u64, nat) -> EntryType, tablePa: u64 -> u64)
      requires index < table.Length
      modifies this
      ensures range == old(range) && index == old(index) && endIndex == old(endIndex)
      ensures entry == table[index] && entryType == load(entry, level)
      ensures tableLower == if entryType == Table then tablePa(entry) else old(tableLower)
    {
      entry := table[index];
      entryType := load(entry, level);
      if entryType == Table {
        tableLower := tablePa(entry);
      }
    }

    /** _pt_iter_load with the guard index < end_index: load the entry while one is left. */
    method IterLoad(load: (u64, nat) -> EntryType, tablePa: u64 -> u64) returns (more: bool)
      requires index < endIndex ==> index < table.Length
      modifies this
      ensures more == LoadGuard(index, endIndex)
      ensures range == old(range) && index == old(index) && endIndex == old(endIndex)
      ensures more ==> (entry == table[index] && entryType == load(entry, level) &&
        tableLower == if entryType == Table then tablePa(entry) else old(tableLower))
      ensures !more ==> Loaded() == old(Loaded())
    {
      if !LoadGuard(index, endIndex) {
        return false;
      }
      LoadEntry(load, tablePa);
      return true;
    }

    /**
     * _pt_iter_load as written: it stops only when the index equals
     * end_index, so the caller must keep every other index inside the table.
     */
    method IterLoadAsWritten(load: (u64, nat) -> EntryType, tablePa: u64 -> u64) returns (more: bool)
      requires index != endIndex ==> index < table.Length
      modifies this
      ensures more == LoadGuardAsWritten(index, endIndex)
      ensures range == old(range) && index == old(index) && endIndex == old(endIndex)
      ensures more ==> (entry == table[index] && entryType == load(entry, level) &&
        tableLower == if entryType == Table then tablePa(entry) else old(tableLower))
      ensures !more ==> Loaded() == old(Loaded())
    {
      if !LoadGuardAsWritten(index, endIndex) {
        return false;
      }
      LoadEntry(load, tablePa);
      return true;
    }

    /** pt_next_entry: a leaf steps over its contiguous block, any other entry over one item. */
    method NextEntry(load: (u64, nat) -> EntryType, contig: (u64, nat) -> nat)
      requires Valid() && index < U32_LIMIT && contig(entry, level) < 32 && entryType == load(entry, level)
      modifies this
      ensures Valid()
      ensures index == NextIndex(load, contig, old(entry), level, old(index))
      ensures endIndex == old(endIndex) && Loaded() == old(Loaded())
      ensures range == old(range).(va := VaAtIndex(old(range).va, index, geo.itemLg2sz, IndexWindow(old(range), level, geo)))
    {
      if entryType == Oa {
        Advance(contig(entry, level));
      } else {
        Advance(0);
      }
    }

    /** pt_load_single_entry: load the entry of the range's va. */
    method LoadSingleEntry(load: (u64, nat) -> EntryType, tablePa: u64 -> u64) returns (t: EntryType)
      requires Valid()
      modifies this
      ensures Valid() && range == old(range) && endIndex == old(endIndex)
      ensures index == RangeToIndex(range, level, geo) && index < table.Length
      ensures t == entryType && entry == table[index] && entryType == load(entry, level)
      ensures tableLower == if entryType == Table then tablePa(entry) else old(tableLower)
    {
      FirstEndIndexBound(range, level, geo);
      index := RangeToIndex(range, level, geo);
      LoadEntry(load, tablePa);
      t := entryType;
    }

    /** The increment and the condition of for_each_pt_level_item: step past the entry, then load the next one if any. */
    method StepAndLoad(load: (u64, nat) -> EntryType, tablePa: u64 -> u64, contig: (u64, nat) -> nat, ghost words: seq<u64>, ghost nexts: seq<u64>)
        returns (more: bool)
      requires Valid() && index < endIndex <= table.Length <= U32_LIMIT
      requires words == table[..] && ContigBounded(contig, words, level) && nexts == NextIndexes(load, contig, words, level)
      requires entry == words[index] && entryType == load(entry, level)
      modifies this
      ensures Valid() && range.(va := old(range).va) == old(range) && endIndex == old(endIndex)
      ensures index == nexts[old(index)]
      ensures more <==> index < endIndex
      ensures more ==> (entry == words[index] && entryType == load(entry, level))
    {
      NextEntry(load, contig);
      more := IterLoad(load, tablePa);
    }

    /**
     * The loop of for_each_pt_level_item from the current index, with the
     * guard index < end_index: it loads exactly the indexes Visits gives.
     */
    method WalkFrom(load: (u64, nat) -> EntryType, tablePa: u64 -> u64, contig: (u64, nat) -> nat) returns (visited: seq<nat>)
      requires Valid() && ContigBounded(contig, table[..], level) && endIndex <= table.Length <= U32_LIMIT
      modifies this
      ensures Valid() && range.(va := old(range).va) == old(range) && endIndex == old(endIndex) && index >= endIndex
      ensures visited == Visits(NextIndexes(load, contig, table[..], level), old(index), endIndex)
    {
      ghost var from := index;
      ghost var words := table[..];
      ghost var nexts := NextIndexes(load, contig, words, level);
      visited := [];
      var more := IterLoad(load, tablePa);
      while more
        invariant Valid() && range.(va := old(range).va) == old(range) && endIndex == old(endIndex)
        invariant words == table[..] && Walked(load, words, nexts, from, visited, more)
        decreases endIndex - index
      {
        visited, more := WalkStep(load, tablePa, contig, words, nexts, from, visited);
      }
      assert visited + [] == visited;
    }

    /**
     * Where the loop of for_each_pt_level_item stands: more says whether an
     * entry is loaded (index < end_index), and the indexes visited so far
     * followed by those still to come are the visits from the first index.
     */
    ghost predicate Walked(load: (u64, nat) -> EntryType, words: seq<u64>, nexts: seq<u64>, from: nat, visited: seq<nat>, more: bool)
      reads this
    {
      (more <==> index < endIndex) &&
      (more ==> index < |words| && entry == words[index] && entryType == load(entry, level)) &&
      visited + Visits(nexts, index, endIndex) == Visits(nexts, from, endIndex)
    }

    /** One turn of for_each_pt_level_item: record the loaded index, step past its entry and load the next. */
    method WalkStep(load: (u64, nat) -> EntryType, tablePa: u64 -> u64, contig: (u64, nat) -> nat, ghost words: seq<u64>,
                    ghost nexts: seq<u64>, ghost from: nat, visited: seq<nat>)
        returns (visited': seq<nat>, more: bool)
      requires Valid() && endIndex <= table.Length <= U32_LIMIT
      requires words == table[..] && ContigBounded(contig, words, level) && nexts == NextIndexes(load, contig, words, level)
      requires Walked(load, words, nexts, from, visited, true)
      modifies this
      ensures Valid() && range.(va := old(range).va) == old(range) && endIndex == old(endIndex)
      ensures Walked(load, words, nexts, from, visited', more) && old(index) < index
    {
      ghost var rest := Visits(nexts, nexts[index], endIndex);
      assert Visits(nexts, index, endIndex) == [index] + rest;
      visited' := visited + [index];
      assert visited' + rest == visited + ([index] + rest);
      more := StepAndLoad(load, tablePa, contig, words, nexts);
    }

    /**
     * for_each_pt_level_item with the guard index < end_index: the loaded
     * indexes are exactly Visits from the first index to the end index, so
     * they increase, stay inside the range's items and skip only the items
     * of contiguous leaves.
     */
    method Walk(load: (u64, nat) -> EntryType, tablePa: u64 -> u64, contig: (u64, nat) -> nat) returns (visited: seq<nat>)
      requires Valid() && ContigBounded(contig, table[..], level)
      modifies this
      ensures Valid() && range.(va := old(range).va) == old(range)
      ensures endIndex == FirstEndIndex(old(range), level, geo) <= table.Length <= U32_LIMIT && index >= endIndex
      ensures visited == Visits(NextIndexes(load, contig, table[..], level), RangeToIndex(old(range), level, geo), endIndex)
    {
      IterFirst();
      Pow2Monotone(IndexWindow(range, level, geo) - geo.itemLg2sz, 32);
      Pow2Is4G();
      visited := WalkFrom(load, tablePa, contig);
    }
  }
}
