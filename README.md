# A verified model of generic_pt, rlist and three of their users

This project models, in Dafny, parts of a Linux kernel tree:

- **generic_pt**, the generic IOMMU page-table library:
  - the `log2_*` bit helpers;
  - the range and level iterator (`pt_range`, `pt_state`);
  - the shared entry helpers and format defaults;
  - the six page-table formats: ARMv8 LPAE, ARMv7 short descriptor, AMD IOMMU v1, Apple DART, x86 PAE and Intel VT-d second stage;
  - the `iommu_pt` front end (`get_info`, `init` and the collect walk);
  - the radix free list of `pt_alloc.h`;
  - the comparison code in `kunit_iommu_cmp.h`, which splits a mapping into page sizes.
- **rlist**, the compact range list:
  - the chunked variable-length entry encoding and its read cursor (`lib/rlist.c`);
  - the CPU view, with folio, PFN and physical entries and the append state machine (`lib/rlist_cpu.c`);
  - the DMA view and the IOVA layout helpers (`include/linux/rlist_dma.h`, `lib/rlist_dma.c`).
- **mlx5 VFIO live migration**: the data window, the header fields and the device-state flags (`drivers/vfio/pci/mlx5/main.c`).
- **VFIO PCI dma-buf export**: the feature ioctl, attach, map and unmap, revocation and cleanup (`drivers/vfio/pci/dma_buf.c`).
- **The CXL fwctl RPC gate**: the command and feature checks and scope rules (`drivers/fwctl/cxl/cxl.c`).

Machine words are naturals bounded by 2^64. Every place where the C code wraps, truncates or shifts is written out explicitly.

The code is modelled in two forms:

- Pure encoders and decoders are functions, with round-trip and bit-level lemmas.
- Objects whose fields the C code updates become classes, with `modifies` frames and invariants.
  This covers the iterator state, the free list, the rlist and its append and read states, the VFIO device, and the fwctl user context.

Some things are inputs rather than modelled behaviour: the outcome of hardware and firmware commands, memory allocation, user copies, and the physical addresses of pages.

Each entry under "## Findings" below has two halves:

- one member models the code as written and shows the discrepancy on a concrete input;
- the other is the corrected definition, with its intended property proved. The rest of the model uses the corrected definition.

## Model

Functions and predicates with no contract of their own are the definitions the rows below are stated in, and have no row. This covers field readers such as `RlistCpuState.RlistCpu.Length`, `RlistCpuState.RlistCpu.HasP2pdma`, `RlistCpuState.RlistCpu.IsPagelistFlag`, `RlistDmaState.RlistDma.Length`, `PtAmdv1.EntryOa` and `PtArmv8.AttrFromEntry`. It also covers decisions such as `FwctlCxl.ValidateQueryCommands`, `RlistCpuFormat.IsContiguousFolio`, `RlistCpuFormat.IsPagelist`, `RlistDmaFormat.SegmentationOk`, `RlistDmaBlocks.NumBlocks` and `RlistDmaIova.RoundupPow2`. Each is given its meaning by the lemma rows that name it, for example `FwctlCxl.QueryCommandsIff`, `RlistCpuFormat.ContiguousMeansAdjacent`, `RlistDmaBlocks.NumBlocksCeil` and `RlistDmaIova.RoundupPow2Spec`.

| member | source | states |
|---|---|---|
| PtLog2.ModDivAreRemainderQuotient | drivers/iommu/generic_pt/pt_log2.h:21-37 | `log2_mod(a,b)` is `a mod 2^b`, `log2_div(a,b)` is `a / 2^b`, and the two recombine to `a` |
| PtLog2.ModIsRemainder | drivers/iommu/generic_pt/pt_log2.h:34-36 | `a & (2^b-1)` equals `a mod 2^b` |
| PtLog2.ModBit | drivers/iommu/generic_pt/pt_log2.h:34-36 | bit k of `log2_mod(a,m)` is set iff k < m and bit k of a is set |
| PtLog2.MulIsProduct | drivers/iommu/generic_pt/pt_log2.h:67-68 | `log2_mul(a,b)` is `a * 2^b` modulo 2^64 (the left shift drops the bits that leave the word) |
| PtLog2.DivEqIff | drivers/iommu/generic_pt/pt_log2.h:25-31 | `log2_div_eq(a,b,c)` (the xor shifted right by c is zero) holds iff `a >> c == b >> c` |
| PtLog2.SetModBits | drivers/iommu/generic_pt/pt_log2.h:48-55 | for `val < 2^b`, bit k of `log2_set_mod(a,val,b)` is bit k of val below b and bit k of a from b up |
| PtLog2.SameHighBits | drivers/iommu/generic_pt/pt_log2.h:25-31 | words whose bits agree from b upwards have the same quotient by 2^b |
| PtLog2.SameLowBits | drivers/iommu/generic_pt/pt_log2.h:34-36 | words whose bits agree below b have the same `log2_mod` |
| PtLog2.ModOfSmall | drivers/iommu/generic_pt/pt_log2.h:34-36 | `log2_mod(x,b) == x` when x < 2^b |
| PtLog2.SetModSpec | drivers/iommu/generic_pt/pt_log2.h:48-56 | for `val < 2^b` the result r has `r >> b == a >> b`, `log2_div_eq(r,a,b)` and `r mod 2^b == val` |
| PtLog2.SetModMaxSpec | drivers/iommu/generic_pt/pt_log2.h:58-65 | `log2_set_mod_max(a,b)` keeps `a >> b` and satisfies `log2_mod_eq_max(r,b)` |
| PtLog2.DivModInstances | drivers/iommu/generic_pt/pt_log2.h:15-46 | the static_asserts on `log2_to_int`, `log2_div`, `log2_div_eq`, `log2_mod` and `log2_mod_eq_max` hold |
| PtLog2.SetModInstances | drivers/iommu/generic_pt/pt_log2.h:54-65 | the static_asserts `log2_set_mod(3,1,2) == 1` and `log2_set_mod_max(2,2) == 3` hold |
| PtLog2.MulInstance | drivers/iommu/generic_pt/pt_log2.h:68-69 | the static_assert `log2_mul(2,2) == 8` holds |
| PtLog2.FlsSpec | drivers/iommu/generic_pt/pt_log2.h:74-89 | `fls(a) == 0` iff a == 0, `a < 2^fls(a)`, and for a ≠ 0 bit `fls(a)-1` is set and `2^(fls(a)-1) <= a` |
| PtLog2.FlsUnique | drivers/iommu/generic_pt/pt_log2.h:74-89 | fls(a) is the unique r with `2^(r-1) <= a < 2^r` |
| PtLog2.FlsWord | drivers/iommu/generic_pt/pt_log2.h:85-88 | fls of a 64-bit word is at most 64 |
| PtLog2.FfsSpec | drivers/iommu/generic_pt/pt_log2.h:91-106 | for a ≠ 0, bit ffs(a) of a is set and `a mod 2^ffs(a) == 0` |
| PtLog2.FfzSpec | drivers/iommu/generic_pt/pt_log2.h:108-129 | bit ffz(a) of a is clear and `a mod 2^ffz(a) == 2^ffz(a) - 1` |
| PtLog2.ScanInstances | drivers/iommu/generic_pt/pt_log2.h:74-115 | the documented values fls(0)=0, fls(1)=1, ffs(1)=0, ffz(0)=0, ffz(1)=1 |
| PtLog2.FfzWord | drivers/iommu/generic_pt/pt_log2.h:108-120 | ffz of any word other than the all-ones word is below 64 |
| PtLog2.FfzAt | drivers/iommu/generic_pt/pt_log2.h:108-115 | ffz(a) == n when bits 0..n-1 of a are set and bit n is clear |
| PtLog2.FfzAtMost | drivers/iommu/generic_pt/pt_log2.h:108-115 | any clear bit n bounds ffz(a) by n |
| PtLog2.FfsAt | drivers/iommu/generic_pt/pt_log2.h:91-97 | ffs(a) == n when the bits below n are clear and bit n is set |
| PtLog2.FfsAtMost | drivers/iommu/generic_pt/pt_log2.h:91-97 | any set bit n of a bounds ffs(a) by n |
| PtLog2.FfsWord | drivers/iommu/generic_pt/pt_log2.h:102-105 | ffs of a nonzero 64-bit word is below 64 |
| PtLog2.Ffz64SplitAgrees | drivers/iommu/generic_pt/pt_log2.h:120-128 | the 32-bit split path of `log2_ffz64` (high half when the low half is all ones) returns the same index as the direct ffz |
| PtIter.CheckRange | drivers/iommu/generic_pt/pt_iter.h:24-34 | the only failure `pt_check_range` returns is -ERANGE |
| PtIter.CheckRangeIff | drivers/iommu/generic_pt/pt_iter.h:24-34 | `pt_check_range` succeeds iff both va and last_va lie in [prefix·0…0, prefix·1…1], that is, both carry the format prefix above bit max_vasz_lg2 |
| PtIter.TopRange | drivers/iommu/generic_pt/pt_iter.h:153-177 | `_pt_top_range` takes the table with the low 3 bits cleared and the level from those bits (or the fixed top level); max_vasz_lg2 is the common limit capped at the top table's span |
| PtIter.TopRangeSpan | drivers/iommu/generic_pt/pt_iter.h:169-176 | the top range starts 2^max_vasz-aligned, spans exactly 2^max_vasz addresses, carries the prefix and passes `pt_check_range` |
| PtIter.TopRangeUnpacks | drivers/iommu/generic_pt/pt_iter.h:156-165 | without a fixed top level, top_table (low 3 bits clear) plus top_level (< 8) rebuilds top_of_table |
| PtIter.MakeRange | drivers/iommu/generic_pt/pt_iter.h:191-200 | `pt_make_range` is the top range with only va and last_va replaced |
| PtIter.MakeRangeChecksIff | drivers/iommu/generic_pt/pt_iter.h:191-200 | a range made from the top passes `pt_check_range` iff both endpoints lie inside the top range |
| PtIter.MakeChildRange | drivers/iommu/generic_pt/pt_iter.h:206-219 | `pt_make_child_range` copies the parent and replaces only va and last_va |
| PtIter.EntryOaLg2sz | drivers/iommu/generic_pt/pt_common.h:105-115 | the entry size `2^(num_contig_lg2 + item_lg2sz)` is 2^num_contig items of 2^item_lg2sz each |
| PtIter.TableOaLg2sz | drivers/iommu/generic_pt/pt_common.h:275-285 | `pt_table_oa_lg2sz` is min(common max_vasz_lg2, num_items_lg2 + item_lg2sz) |
| PtIter.EntryOaFullSpec | drivers/iommu/generic_pt/pt_common.h:117-129 | for an entry OA aligned to the entry size, OR-ing in `va mod 2^entry_lg2sz` is addition: the result keeps the entry's high part and takes va's offset |
| PtIter.IndexOfArith | drivers/iommu/generic_pt/pt_iter.h:78-101 | at the top level the index is `(va mod 2^max_vasz) >> item_lg2sz`, below it `(va >> item_lg2sz) mod 2^num_items`; both are va's offset inside the level's window counted in items, below the window's item count |
| PtIter.VaAtIndexSpec | drivers/iommu/generic_pt/pt_iter.h:36-46 | `pt_index_to_va` keeps va above the table span and sets the bits below it to `index·2^item_lg2sz`, item-aligned |
| PtIter.IndexOfVaAtIndex | drivers/iommu/generic_pt/pt_iter.h:36-46 | round trip: the index of the va moved to item `index` is `index` |
| PtIter.VaAtIndexOfVa | drivers/iommu/generic_pt/pt_iter.h:36-46 | round trip: moving va to its own index rounds it down to the start of its item |
| PtIter.FirstEndIndexBound | drivers/iommu/generic_pt/pt_iter.h:103-123 | the first index lies in the table and the end index never passes the table's item count |
| PtIter.IterFirstOrdered | drivers/iommu/generic_pt/pt_iter.h:103-123 | for va ≤ last_va (in the top's VA width at the top level) `index < end_index`, and when last_va lies in this table `end_index` is the last index + 1 |
| PtIter.AdvancedIndexSpec | drivers/iommu/generic_pt/pt_iter.h:48-58 | `_pt_advance(n)` moves the index to the next multiple of 2^n strictly above it, at most 2^n further |
| PtIter.AdvancedIndexWithin | drivers/iommu/generic_pt/pt_iter.h:48-58 | an end index that is a multiple of 2^n is never stepped over |
| PtIter.AsWrittenOvershoot | drivers/iommu/generic_pt/pt_iter.h:125-140 | from index 0 holding a 16-item contiguous leaf with end_index 4, the next index is 16, and the guard `index == end_index` as written still loads |
| PtIter.AsWrittenNeverStops | drivers/iommu/generic_pt/pt_iter.h:125-131 | once the index is past end_index every further step stays past it, so the `==` guard never stops the loop |
| PtIter.EntryFullyCoveredIff | drivers/iommu/generic_pt/pt_iter.h:60-76 | `pt_entry_fully_covered(oasz)` holds iff va is 2^oasz-aligned and `va + 2^oasz - 1 <= last_va` |
| PtIter.RangeSlice | drivers/iommu/generic_pt/pt_iter.h:294-310 | `pt_range_slice` changes only va and last_va of the range |
| PtIter.RangeSliceSpec | drivers/iommu/generic_pt/pt_iter.h:294-310 | the slice for items [start, end) runs from the first byte of item start to the last byte of item end-1 of the same table, so its first and last indexes are start and end-1 |
| PtIter.ChildRange | drivers/iommu/generic_pt/pt_iter.h:262-278 | `pt_walk_child_range` fails with -EINVAL iff the level cannot have a table or table_lower is NULL, else gives the parent range with the new endpoints |
| PtIter.ChildAllRangeSpan | drivers/iommu/generic_pt/pt_iter.h:280-292 | `pt_walk_child_all` walks the 2^item_lg2sz-aligned block of one item that holds the parent's va |
| PtIter.TopMemsizeValue | drivers/iommu/generic_pt/pt_iter.h:312-329 | `pt_top_memsize_lg2` is `max_vasz - item_lg2sz` (capped at num_items under DYNAMIC_TOP below PT_MAX_TOP_LEVEL) plus log2 of the word size |
| PtIter.TopMemsizeWords | drivers/iommu/generic_pt/pt_iter.h:312-329 | the top table holds one word per top item: exactly spanning max_vasz without the dynamic cap, never more than the level's item count with it |
| PtIter.BestPgszLg2 | drivers/iommu/generic_pt/pt_iter.h:344-361 | `ffs(va \| oa \| 2^(fls(len)-1))` is below 64 |
| PtIter.ComputeBestPgsize | drivers/iommu/generic_pt/pt_iter.h:331-380 | `__pt_compute_best_pgsize` returns a page size log2 below 64 |
| PtIter.BestBound | drivers/iommu/generic_pt/pt_iter.h:344-361 | p ≤ the best bit iff va and oa are multiples of 2^p and 2^p ≤ len |
| PtIter.CutBitmapBit | drivers/iommu/generic_pt/pt_iter.h:363-365 | the cut bitmap keeps exactly the bitmap bits at or below best |
| PtIter.FitsIffCutBit | drivers/iommu/generic_pt/pt_iter.h:344-369 | a page 2^q fits [va, last_va] at oa (offered, both aligned, ends at or before last_va) iff q is a bit of the cut bitmap |
| PtIter.ComputeBestPgsizeSpec | drivers/iommu/generic_pt/pt_iter.h:331-380 | the result is a fitting page size whenever one exists (a set bitmap bit, va and oa multiples of 2^p, `va + 2^p - 1 <= last_va`), no larger size fits, and it is 0 when none fits |
| PtIter.NextIndex | drivers/iommu/generic_pt/pt_iter.h:133-140 | `pt_next_entry` always moves the index forward: by the contiguous count for an OA entry, by one item otherwise |
| PtIter.NextIndexes | drivers/iommu/generic_pt/pt_iter.h:133-140 | the per-index successor table has one forward step per table word |
| PtIter.VisitsOrdered | drivers/iommu/generic_pt/pt_iter.h:142-143 | the indexes `for_each_pt_level_item` visits start at the first index, strictly increase, stay in [first, end), each is the step of the previous, and the last step leaves the range |
| PtIter.VisitsCover | drivers/iommu/generic_pt/pt_iter.h:142-143 | no index of [first, end) is skipped: each lies inside the block stepped over by some visited entry |
| PtIter.State.constructor | drivers/iommu/generic_pt/pt_iter.h:221-230 | `pt_init` records range, level and table with index, end_index and the loaded fields zero |
| PtIter.State.InitTop | drivers/iommu/generic_pt/pt_iter.h:232-235 | `pt_init_top` starts at the range's top level |
| PtIter.State.IndexToVa | drivers/iommu/generic_pt/pt_iter.h:36-46 | only range.va changes, to the start of the current item, whose index is then the current index |
| PtIter.State.Advance | drivers/iommu/generic_pt/pt_iter.h:48-58 | index becomes the next multiple of 2^n above it and va follows it; end_index and the loaded entry are unchanged |
| PtIter.State.IterFirst | drivers/iommu/generic_pt/pt_iter.h:103-123 | index is va's index and end_index is as chosen by `_pt_iter_first`, both inside the table, and `index < end_index` for a well-formed range |
| PtIter.State.LoadEntry | drivers/iommu/generic_pt/pt_common.h:307-319 | `pt_load_entry` reads the word at index, classifies it with the format's raw load and sets table_lower only for a TABLE entry |
| PtIter.State.IterLoad | drivers/iommu/generic_pt/pt_iter.h:125-131 | with the guard `index < end_index` the entry is loaded exactly while one is left, and nothing changes otherwise |
| PtIter.State.IterLoadAsWritten | drivers/iommu/generic_pt/pt_iter.h:125-131 | the guard as written loads whenever `index != end_index` |
| PtIter.State.NextEntry | drivers/iommu/generic_pt/pt_iter.h:133-140 | index moves as `NextIndex` says (contiguous count for OA, one otherwise) and va follows it |
| PtIter.State.LoadSingleEntry | drivers/iommu/generic_pt/pt_iter.h:145-151 | loads the entry at va's own index and returns its type |
| PtIter.State.StepAndLoad | drivers/iommu/generic_pt/pt_iter.h:142-143 | one iteration step of `for_each_pt_level_item`: move to the successor index and load it if it is still below end_index |
| PtIter.State.WalkFrom | drivers/iommu/generic_pt/pt_iter.h:142-143 | the loop from the current index loads exactly the indexes `Visits` gives and ends at or past end_index |
| PtIter.State.Walk | drivers/iommu/generic_pt/pt_iter.h:142-143 | the whole `for_each_pt_level_item` loop: first/end index from `_pt_iter_first`, then exactly the `Visits` indexes |
| PtDefs.Common.constructor | drivers/iommu/generic_pt/iommu_pt.h:174-177 | a zeroed `pt_common` with the configured features and VA/OA limits and a zero top_of_table |
| PtDefs.Common.TopSetLevel | drivers/iommu/generic_pt/iommu_pt.h:197-201 | storing a level into top_of_table makes it the top level and keeps the top table address and every other field |
| PtDefs.SameTableAfterSetLevel | drivers/iommu/generic_pt/pt_iter.h:156-165 | setting the level bits of top_of_table leaves the table address (level bits cleared) unchanged |
| PtDefs.TableInstall | drivers/iommu/generic_pt/fmt/armv8.h:289-305 | the sequential compare-and-set `pt_table_install64/32`: the slot takes the new word iff it still held the expected old word, the result says whether it did, and no other slot changes |
| PtFmtDefaults.DefaultEntryNumContigLg2 | drivers/iommu/generic_pt/pt_fmt_defaults.h:18-24 | without a format override an entry spans `2^0 == 1` item |
| PtFmtDefaults.DefaultContigCountLg2 | drivers/iommu/generic_pt/pt_fmt_defaults.h:25-29 | without a format override the contiguous count is `2^0 == 1` |
| PtFmtDefaults.DefaultEntrySetWriteClean | drivers/iommu/generic_pt/pt_fmt_defaults.h:31-41 | without dirty tracking no entry is write-dirty and `set_write_clean` leaves the table unchanged |
| PtFmtDefaults.DefaultEntryMakeWriteDirty | drivers/iommu/generic_pt/pt_fmt_defaults.h:42-47 | without dirty tracking `make_write_dirty` returns false and changes nothing |
| PtFmtDefaults.DefaultMaxOutputAddressLg2 | drivers/iommu/generic_pt/pt_fmt_defaults.h:76-86 | the default maximum OA is PT_MAX_OUTPUT_ADDRESS_LG2 |
| PtFmtDefaults.DefaultFullVaPrefix | drivers/iommu/generic_pt/pt_fmt_defaults.h:107-113 | the default VA prefix has no bit set |
| PtFmtDefaults.DefaultPossibleSizesBits | drivers/iommu/generic_pt/pt_fmt_defaults.h:88-105 | bit k of the default bitmap is set iff the level can hold a leaf and k is `isz` or `isz + contig_count_lg2` |
| PtFmtDefaults.ItemOffsetBound | drivers/iommu/generic_pt/pt_fmt_defaults.h:57-62 | the offset of an item inside its contiguous entry, `(index mod 2^contig)·2^isz`, stays below the entry size |
| PtFmtDefaults.EntryItemOaRoundTrip | drivers/iommu/generic_pt/pt_fmt_defaults.h:49-74 | for an entry OA aligned to the entry size, deriving `pt_item_oa` from it and `pt_entry_oa` back (clearing the low contig+item bits) returns the entry OA |
| PtFmtDefaults.ItemOaAsWrittenLeavesEntry | drivers/iommu/generic_pt/pt_fmt_defaults.h:57-62 | as written, the derived `pt_item_oa` for a single-item entry with OA 0 at index 1 of a 4 KiB-item table is 0x1000, outside the entry; the intended form gives 0 |
| PtFmtDefaults.ItemOaAsWrittenAgreesInsideEntry | drivers/iommu/generic_pt/pt_fmt_defaults.h:57-62 | the written and intended forms agree while the index is below 2^num_contig |
| PtFmtDefaults.ClearedAt | drivers/iommu/generic_pt/pt_fmt_defaults.h:115-137 | word i of the cleared table is zero inside the run and the old word outside it |
| PtFmtDefaults.ClearRun | drivers/iommu/generic_pt/pt_fmt_defaults.h:124-125 | the zeroing loop writes zero to exactly the 2^n words from index and changes no other word |
| PtFmtDefaults.ClearEntry64 | drivers/iommu/generic_pt/pt_fmt_defaults.h:115-126 | `pt_clear_entry64`, with the index a multiple of 2^n, zeroes exactly 2^n words from the index |
| PtFmtDefaults.ClearEntry32 | drivers/iommu/generic_pt/pt_fmt_defaults.h:128-137 | `pt_clear_entry32` does the same on a table of 32-bit words |
| PtAlloc.Meta.constructor | drivers/iommu/generic_pt/pt_alloc.h:68-74 | a meta record starts with a NULL free_next and still_flushing 0 |
| PtAlloc.RadixList.constructor | drivers/iommu/generic_pt/pt_alloc.h:55-60 | PT_RADIX_LIST_INIT is the empty list: num_items 0, head and tail NULL |
| PtAlloc.RadixList.AddList | drivers/iommu/generic_pt/pt_alloc.h:68-80 | num_items grows by one, the record becomes the tail with a NULL free_next, the old tail links to it or head is set on an empty list, and the list invariant (following free_next from head visits num_items distinct records ending at tail) is kept |
| PtAlloc.RadixList.Splice | drivers/iommu/generic_pt/pt_alloc.h:82-96 | nothing changes when `from` is empty; otherwise `to` becomes to ++ from with the counts added and the invariant kept, and `from` is unchanged |
| PtAlloc.DoneIncoherentFlush | drivers/iommu/generic_pt/pt_alloc.h:105-115 | sequentially, still_flushing becomes 0 and the free link is kept |
| PtAlloc.IncoherentStillFlushing | drivers/iommu/generic_pt/pt_alloc.h:117-122 | returns whether still_flushing is nonzero |
| IommuPt.SetState | drivers/iommu/generic_pt/iommu_pt.h:174-177 | writes every field of `pt_common` from the given state |
| IommuPt.PgsizeUnionBit | drivers/iommu/generic_pt/iommu_pt.h:55-65 | bit k of the OR of `pt_possible_sizes` over levels 0..count-1 is set iff some such level offers it |
| IommuPt.DynamicLevels | drivers/iommu/generic_pt/iommu_pt.h:55-61 | the DYNAMIC_TOP loop scans the levels from 0 while `item_lg2sz < max_vasz_lg2`, stopping at the first level that reaches it or after PT_MAX_TOP_LEVEL |
| IommuPt.InfoBitmapSpec | drivers/iommu/generic_pt/iommu_pt.h:47-69 | bit k of `get_info`'s bitmap is set iff k < max_oasz_lg2 and a scanned level offers 2^k; with DYNAMIC_TOP the scanned levels are those whose item size is below max_vasz, otherwise levels 0..top_level |
| IommuPt.UnionDynamic | drivers/iommu/generic_pt/iommu_pt.h:55-61 | the DYNAMIC_TOP loop computes the OR over `DynamicLevels` |
| IommuPt.UnionUpTo | drivers/iommu/generic_pt/iommu_pt.h:63-64 | the fixed-top loop computes the OR over levels 0..top_level |
| IommuPt.GetInfo | drivers/iommu/generic_pt/iommu_pt.h:47-69 | `get_info` reports exactly `InfoBitmap` of the table's state |
| IommuPt.ClampOasz | drivers/iommu/generic_pt/iommu_pt.h:117-122 | max_oasz becomes the format maximum when 0 was requested, else min(requested, format maximum) |
| IommuPt.InitCommonProps | drivers/iommu/generic_pt/iommu_pt.h:94-124 | `pt_init_common`: -EINVAL (state untouched) iff the top level is above PT_MAX_TOP_LEVEL; DYNAMIC_TOP survives iff requested, below PT_MAX_TOP_LEVEL and not already spanning max_vasz; static tables take the top range's max_vasz; FULL_VA is added iff the top span is the whole VA word; -EOPNOTSUPP iff a feature is unsupported or a forced one missing; on success max_oasz is clamped |
| IommuPt.InitCommonIdempotent | drivers/iommu/generic_pt/iommu_pt.h:94-124 | running `pt_init_common` again on its own successful result succeeds and changes nothing |
| IommuPt.InitCommon | drivers/iommu/generic_pt/iommu_pt.h:94-124 | the method leaves the status and state that `InitCommonSpec` gives for the old state |
| IommuPt.InitDomain | drivers/iommu/generic_pt/iommu_pt.h:126-142 | the domain's pgsize_bitmap is `get_info`'s, and its aperture is the 2^max_vasz-aligned block of 2^max_vasz addresses carrying the VA prefix |
| IommuPt.IommuInit | drivers/iommu/generic_pt/iommu_pt.h:159-206 | -EINVAL for hw vasz over the format maximum or zero vasz/oasz and without flush ops (state untouched); the format init's error is returned; -EINVAL when hw oasz exceeds the format maximum; `pt_init_common`'s error; -EINVAL for DYNAMIC_TOP without change_top/get_top_lock; the allocation error; on success the top is set to the new table at the top level and the domain (if requested) gets the geometry and bitmap |
| IommuPt.TableWords | drivers/iommu/generic_pt/iommu_pt.h:33-43 | the words the level loop reads from a table |
| IommuPt.CollectLevel | drivers/iommu/generic_pt/iommu_pt.h:23-45 | `__collect_tables` on one table: skipped when leaves are ignored and the level holds no tables, and its only errors are -EINVAL (table entry without a table) and -EADDRINUSE (a leaf while leaves are not ignored) |
| IommuPt.CollectFrom | drivers/iommu/generic_pt/iommu_pt.h:33-44 | the level loop: a table entry is appended, then descended into, and a failing descent stops the walk; a leaf stops it with -EADDRINUSE unless leaves are ignored; the errors are only those two |
| IommuPt.CollectFromVisits | drivers/iommu/generic_pt/iommu_pt.h:33-44 | a successful walk visits exactly the level loop's indexes; every visited table entry has its lower table in the collected list, and without ignore_mapped no visited entry is a leaf |
| IommuPt.DeinitList | drivers/iommu/generic_pt/iommu_pt.h:71-86 | `deinit`'s list holds the top table first, then every table the leaf-ignoring walk collects; that walk can only fail with -EINVAL |
| PtArmv8.Geometry | drivers/iommu/generic_pt/fmt/armv8.h:160-220 | with the 4K granule a table is 512 eight-byte words filling one granule, each level's item spans a whole table of the level below (12, 21, 30 bits at levels 0..2), a contiguous run is 16 items, and only levels 0..2 can hold leaves |
| PtArmv8.ContigCountIs16 | drivers/iommu/generic_pt/fmt/armv8.h:183-195 | the 4K-granule contiguous count is 16 |
| PtArmv8.OaIsOa48 | drivers/iommu/generic_pt/fmt/armv8.h:131-142 | `armv8pt_oa` always yields a 4K-aligned address below 2^48 (OA52 is only read with the 64K granule) |
| PtArmv8.OaFieldsBit | drivers/iommu/generic_pt/fmt/armv8.h:256-258 | the two OA fields of a descriptor for a 48-bit aligned address carry exactly that address's bits |
| PtArmv8.LoadEntryRawCases | drivers/iommu/generic_pt/fmt/armv8.h:222-242 | a slot is EMPTY iff not VALID or a non-table above level 2, TABLE iff VALID with TABLE set above level 0, and OA iff VALID on a leaf-capable level without TABLE (the bit is ignored at level 0) |
| PtArmv8.LeafBit | drivers/iommu/generic_pt/fmt/armv8.h:256-265 | a leaf word's bits are VALID, the address bits, the descriptor bits and, on level 0, PAGE, and nothing else |
| PtArmv8.LeafLoadsAsOa | drivers/iommu/generic_pt/fmt/armv8.h:222-265 | a single leaf built on a leaf-capable level loads back as an OA entry of one item |
| PtArmv8.ContigLeafLoadsAsOa | drivers/iommu/generic_pt/fmt/armv8.h:198-204 | a leaf with CONTIG loads back as an OA entry spanning 16 items |
| PtArmv8.LeafOaRoundTrip | drivers/iommu/generic_pt/fmt/armv8.h:131-158 | `armv8pt_oa` of a stored leaf returns the address it was built from |
| PtArmv8.ContigLeafOaRoundTrip | drivers/iommu/generic_pt/fmt/armv8.h:131-158 | the same for a CONTIG leaf |
| PtArmv8.ContigRunWord | drivers/iommu/generic_pt/fmt/armv8.h:276-281 | after k steps of the install loop the word is the contiguous leaf of the k-th item's address, `oa + k·2^isz`, with no wrap-around |
| PtArmv8.ContigRunLoads | drivers/iommu/generic_pt/fmt/armv8.h:150-158 | every word of a contiguous run loads as a 16-item OA entry whose `pt_item_oa` is its own item's address |
| PtArmv8.WriteContigRun | drivers/iommu/generic_pt/fmt/armv8.h:274-281 | the loop writes 16 words from the index, each one OA step above the last, changes no other slot and returns the word after the last step |
| PtArmv8.InstallLeafEntry | drivers/iommu/generic_pt/fmt/armv8.h:245-286 | a leaf of the item size replaces exactly the slot at index; a 16-item leaf replaces exactly the 16 slots from the (aligned) index with the CONTIG run; `pts->entry` is the last word computed |
| PtArmv8.TableEntryLoads | drivers/iommu/generic_pt/fmt/armv8.h:296-302 | a table entry loads back as TABLE on every level above 0, with NSTABLE set iff the NS feature is on |
| PtArmv8.TableEntryPa | drivers/iommu/generic_pt/fmt/armv8.h:144-148 | `pt_table_pa` of a table entry is the table address it was built from |
| PtArmv8.InstallTable | drivers/iommu/generic_pt/fmt/armv8.h:289-305 | the table entry is stored iff the slot still holds the word last loaded from it, the result says which, and no other slot changes |
| PtArmv8.AttrFromLeaf | drivers/iommu/generic_pt/fmt/armv8.h:308-316 | the attributes read back from an installed single or contiguous leaf are the ones it was built with (DBM excepted, which `attr_from_entry` does not copy) |
| PtArmv8.ApBit | drivers/iommu/generic_pt/fmt/armv8.h:416-423 | the stage 1 AP field sets bit 7 for read-only and bit 6 for unprivileged access |
| PtArmv8.S2apBit | drivers/iommu/generic_pt/fmt/armv8.h:432-438 | the stage 2 S2AP field sets bit 6 for read and bit 7 for write |
| PtArmv8.ShBit | drivers/iommu/generic_pt/fmt/armv8.h:463-466 | SH is inner shareable (3) for cached mappings and outer shareable (2) otherwise |
| PtArmv8.MemAttrBit | drivers/iommu/generic_pt/fmt/armv8.h:440-452 | stage 2 MemAttr is device (0b0001) for MMIO, FWB write-back (0b0110) for cached with S2FWB, 0b1111 for cached without it and non-cacheable (0b0101) otherwise |
| PtArmv8.SetProtBit | drivers/iommu/generic_pt/fmt/armv8.h:409-483 | each bit of `iommu_set_prot`'s descriptor bits is set exactly when its meaning calls for it: read-only/unprivileged AP, nG and AttrIndx at stage 1; S2AP and MemAttr at stage 2; DBM for writable mappings under DBM; SH; UXN and PXN for NOEXEC; NS under the NS feature; AF always |
| PtArmv8.SetProtAttrsOk | drivers/iommu/generic_pt/fmt/armv8.h:409-483 | `iommu_set_prot` never sets VALID, TABLE/PAGE, CONTIG or an OA bit |
| PtArmv8.PermBits | drivers/iommu/generic_pt/fmt/armv8.h:344-371 | the stage 1 read-only mask and the stage 2 write mask are both bit 7 alone |
| PtArmv8.IsDirtyS1Iff | drivers/iommu/generic_pt/fmt/armv8.h:344-349 | a stage 1 item is dirty iff DBM is set and AP read-only is clear |
| PtArmv8.IsDirtyS2Iff | drivers/iommu/generic_pt/fmt/armv8.h:358-364 | a stage 2 item is dirty iff DBM and S2AP write are both set |
| PtArmv8.ClearDirtyBit | drivers/iommu/generic_pt/fmt/armv8.h:351-371 | clearing sets bit 7 at stage 1, clears it at stage 2, and keeps every other bit |
| PtArmv8.CheckIsDirty | drivers/iommu/generic_pt/fmt/armv8.h:344-364 | the stage's dirty test on one item returns whether the item is dirty by its stage's meaning |
| PtArmv8.ItemCleanSpec | drivers/iommu/generic_pt/fmt/armv8.h:351-371 | a cleaned item is not dirty and differs from the original in bit 7 at most |
| PtArmv8.ContigStartBounds | drivers/iommu/generic_pt/fmt/armv8.h:334-335 | the run containing an index starts at a multiple of 16 at or below it and ends inside the table |
| PtArmv8.AnyDirtyIff | drivers/iommu/generic_pt/fmt/armv8.h:336-339 | the reduce over a run is true iff some slot of the run is dirty |
| PtArmv8.EntryWriteIsDirty | drivers/iommu/generic_pt/fmt/armv8.h:324-342 | the method (stopping at the first dirty slot) returns exactly `WriteIsDirty`: for a CONTIG entry, whether any slot of its 16-slot run in the table is dirty, otherwise whether the loaded entry is |
| PtArmv8.EntrySetWriteClean | drivers/iommu/generic_pt/fmt/armv8.h:382-388 | the table becomes `SetWriteClean`: every slot of a CONTIG run cleaned in place, or the cleaned entry written to its slot |
| PtArmv8.CleanedNotDirty | drivers/iommu/generic_pt/fmt/armv8.h:373-388 | after `set_write_clean` the reloaded entry is no longer write-dirty |
| PtArmv8.CleanChangesOnlyBit7 | drivers/iommu/generic_pt/fmt/armv8.h:373-388 | `set_write_clean` changes no bit other than bit 7 in any slot |
| PtArmv8.InitTopLevelErrors | drivers/iommu/generic_pt/fmt/armv8.h:494-526 | `fmt_init` fails iff DBM meets DMA_INCOHERENT or NS meets S2 (both -EOPNOTSUPP, and only they), or the VA size is outside 13..48 (22..48 at stage 2) |
| PtArmv8.InitTopLevelCovers | drivers/iommu/generic_pt/fmt/armv8.h:514-540 | the chosen top level is the smallest whose table spans the VA size; at stage 2 up to 16 concatenated top tables fold one level away |
| PtArmv8.InitTopLevel48 | drivers/iommu/generic_pt/fmt/armv8.h:514-540 | a 48-bit VA uses all four levels (top level 3), at either stage |
| PtArmv8.FmtInit | drivers/iommu/generic_pt/fmt/armv8.h:486-542 | the status is `InitTopLevel`'s; max_oasz becomes min(58, hw oasz) once the VA size passed its first check, even when a later check fails; on success the top level is set and the table pointer kept, on failure top_of_table is unchanged |
| PtArmv7s.Geometry | drivers/iommu/generic_pt/fmt/armv7s.h:145-186 | a level 0 table holds 256 four-byte words in 1 KiB, items span 4 KiB at level 0 and 1 MiB at level 1, a level 1 table spans 2^28 bytes of VA, and a contiguous run is 16 items |
| PtArmv7s.LayoutsWellFormed | drivers/iommu/generic_pt/fmt/armv7s.h:282-294 | the three attribute layouts (section, small page, large page) put each attribute in bits of the 32-bit word that no other attribute of the layout uses |
| PtArmv7s.EncodeInLayout | drivers/iommu/generic_pt/fmt/armv7s.h:382-390 | an encoded attribute word has no bit outside its layout |
| PtArmv7s.DecodeEncode | drivers/iommu/generic_pt/fmt/armv7s.h:282-334 | decoding an encoded attribute set in the same layout returns it |
| PtArmv7s.ProtAttrs | drivers/iommu/generic_pt/fmt/armv7s.h:392-427 | the attributes `iommu_set_prot` asks for keep TEX within its 3 bits |
| PtArmv7s.SetProtEncodings | drivers/iommu/generic_pt/fmt/armv7s.h:392-443 | each of the three words `iommu_set_prot` builds decodes, in its own layout, to the same attributes (nG, S, TEX 1 unless MMIO, AP0, AP1 unless PRIV, AP2 unless WRITE, XN for NOEXEC, B for MMIO or CACHE, C for CACHE without MMIO); pte1 carries NS iff the NS feature is on; table memory is DMA32 |
| PtArmv7s.EncodeAllDecodes | drivers/iommu/generic_pt/fmt/armv7s.h:338-356 | the three words built from any attribute set each decode to it, with NS in pte1 exactly under the NS feature |
| PtArmv7s.Pte1Bit | drivers/iommu/generic_pt/fmt/armv7s.h:338-356 | the section word's bits are those of the attributes in the section layout plus NS under the feature |
| PtArmv7s.EncodeAllWellEncoded | drivers/iommu/generic_pt/fmt/armv7s.h:204-261 | the three attribute words leave clear every bit a leaf form uses for its type, size or address |
| PtArmv7s.Pte1Clear | drivers/iommu/generic_pt/fmt/armv7s.h:382-390 | the section word sets no bit outside the section layout but NS |
| PtArmv7s.TypeFieldValue | drivers/iommu/generic_pt/fmt/armv7s.h:195 | the type field is the value of bits 1..0 |
| PtArmv7s.LoadEntryRawCases | drivers/iommu/generic_pt/fmt/armv7s.h:188-201 | an entry is EMPTY iff its type is 0, TABLE iff the level is 1 and the type is 1, and an OA entry otherwise |
| PtArmv7s.SupersectionEntryOa | drivers/iommu/generic_pt/fmt/armv7s.h:128-135 | a supersection whose three OA fields hold bits 24..31, 32..35 and 36..39 of an address decodes to that address |
| PtArmv7s.SmallPageRoundTrip | drivers/iommu/generic_pt/fmt/armv7s.h:216-222 | a small page built from an aligned 32-bit address loads as a single-item OA entry with that address and those attributes |
| PtArmv7s.LargePageRoundTrip | drivers/iommu/generic_pt/fmt/armv7s.h:233-238 | a large page loads as a 16-item OA entry with its 64 KiB-aligned address and its attributes |
| PtArmv7s.SectionRoundTrip | drivers/iommu/generic_pt/fmt/armv7s.h:223-228 | a section loads as a single-item OA entry with its 1 MiB-aligned address and its attributes |
| PtArmv7s.SupersectionRoundTrip | drivers/iommu/generic_pt/fmt/armv7s.h:239-249 | a supersection loads as a 16-item OA entry with its 16 MiB-aligned 40-bit address and its attributes |
| PtArmv7s.LeafEntryRoundTrip | drivers/iommu/generic_pt/fmt/armv7s.h:119-167 | every leaf form built from an aligned address within its limit reads back as an OA entry of its size, with its address and attributes |
| PtArmv7s.PageRoundTrip | drivers/iommu/generic_pt/fmt/armv7s.h:216-238 | the level 0 forms read back, whichever size |
| PtArmv7s.SectionsRoundTrip | drivers/iommu/generic_pt/fmt/armv7s.h:223-249 | the level 1 forms read back, whichever size |
| PtArmv7s.AttrFromEntryOfSetProt | drivers/iommu/generic_pt/fmt/armv7s.h:338-356 | `attr_from_entry` of a leaf built from `iommu_set_prot`'s attributes returns those attributes |
| PtArmv7s.TableEntryFields | drivers/iommu/generic_pt/fmt/armv7s.h:264-275 | a table entry has type 1, NS iff the feature is on, and the table address bits in the TTB field |
| PtArmv7s.TableEntryRoundTrip | drivers/iommu/generic_pt/fmt/armv7s.h:111-116 | a table entry for a 1 KiB-aligned 32-bit address loads as TABLE at level 1 and `pt_table_pa` returns that address |
| PtArmv7s.InstallTable | drivers/iommu/generic_pt/fmt/armv7s.h:264-279 | the table entry is stored iff the slot still holds the word last loaded, and nothing else changes |
| PtArmv7s.WriteRun | drivers/iommu/generic_pt/fmt/armv7s.h:256-258 | the loop writes the same word to the 16 slots from the index and changes no other slot |
| PtArmv7s.InstallLeafEntry | drivers/iommu/generic_pt/fmt/armv7s.h:204-261 | an item-sized leaf replaces exactly its slot; a 16-item leaf writes the same large-page or supersection word into the 16 slots from the aligned index; `pts->entry` is the word written |
| PtArmv7s.InstalledLeafReadsBack | drivers/iommu/generic_pt/fmt/armv7s.h:204-261 | a leaf installed with `iommu_set_prot`'s attributes reads back as an OA entry with its address, size and the requested attributes |
| PtAmdv1.Geometry | drivers/iommu/generic_pt/fmt/amdv1.h:96-150 | a table is 512 eight-byte words in 4 KiB, each level's item spans a table of the level below (12 bits at level 0, 48 at level 4), the top level spans the whole VA, and leaves sit on levels 0..4 |
| PtAmdv1.OaFieldFfz | drivers/iommu/generic_pt/fmt/amdv1.h:80-93 | the first zero of the OA field lies within the field or just past it |
| PtAmdv1.NextLevelOfBits | drivers/iommu/generic_pt/fmt/amdv1.h:84-85 | the NEXT_LEVEL field reads the value its three bits hold |
| PtAmdv1.NlSizeBit | drivers/iommu/generic_pt/fmt/amdv1.h:213-214 | NL_SIZE (7) is the all-ones three-bit code |
| PtAmdv1.ContigCodeBit | drivers/iommu/generic_pt/fmt/amdv1.h:137-139 | the 32-bit code shifted out of a size-encoded entry holds the entry's bits from the level's item size upwards |
| PtAmdv1.EntryNumContigLg2 | drivers/iommu/generic_pt/fmt/amdv1.h:113-140 | the entry's contiguous count, 0 for NL_DEFAULT and the first zero of the 32-bit code otherwise, is at most 32 |
| PtAmdv1.PossibleSizesBit | drivers/iommu/generic_pt/fmt/amdv1.h:153-171 | size 2^k is offered at a level iff the level can hold a leaf, k runs from the item size to min(51, item size + 8), and k is not 39 (512 GiB) |
| PtAmdv1.PossibleSizeBounds | drivers/iommu/generic_pt/fmt/amdv1.h:153-171 | an offered size is at least one item, at most 256 items, and below the 52-bit OA limit |
| PtAmdv1.SizeEncodedOa | drivers/iommu/generic_pt/fmt/amdv1.h:84-92 | a size-encoded entry whose OA field holds the address with ones in the low size bits decodes to that address |
| PtAmdv1.SizeEncodedCount | drivers/iommu/generic_pt/fmt/amdv1.h:113-140 | such an entry reports a contiguous count of oasz - isz |
| PtAmdv1.LeafEntryReadsBack | drivers/iommu/generic_pt/fmt/amdv1.h:201-208 | an NL_DEFAULT leaf loads as an OA entry of one item with its address |
| PtAmdv1.ContigLeafReadsBack | drivers/iommu/generic_pt/fmt/amdv1.h:209-218 | a size-encoded leaf loads as an OA entry with its address and 2^(oasz - isz) items |
| PtAmdv1.LeafWordReadsBack | drivers/iommu/generic_pt/fmt/amdv1.h:192-229 | the leaf word built for any size from one to 256 items loads back as an OA entry with its address, its item count and its attributes |
| PtAmdv1.LeafWordRoundTrip | drivers/iommu/generic_pt/fmt/amdv1.h:153-229 | the same for every size `pt_possible_sizes` offers and every aligned 52-bit address |
| PtAmdv1.WriteRun | drivers/iommu/generic_pt/fmt/amdv1.h:221-226 | the loop (or memset64) writes the same word to the count slots from the index and changes no other slot |
| PtAmdv1.InstallLeafEntry | drivers/iommu/generic_pt/fmt/amdv1.h:192-229 | the leaf word is written into the 2^(oasz - isz) slots from the index, no other slot changes, and `pts->entry` is that word |
| PtAmdv1.ClearEntry | drivers/iommu/generic_pt/fmt/amdv1.h:261-278 | exactly the 2^n slots from the index become zero |
| PtAmdv1.ClearedLoadsEmpty | drivers/iommu/generic_pt/fmt/amdv1.h:174-182 | every cleared slot loads as EMPTY and every other slot keeps its word |
| PtAmdv1.TableEntryReadsBack | drivers/iommu/generic_pt/fmt/amdv1.h:232-250 | a table entry built at a level from 1 up loads as TABLE, names that level in NEXT_LEVEL, carries IR and IW, and `pt_table_pa` returns its address |
| PtAmdv1.TableEntryRoundTrip | drivers/iommu/generic_pt/fmt/amdv1.h:72-76 | the same for every 4 KiB-aligned address below 2^52 |
| PtAmdv1.InstallTable | drivers/iommu/generic_pt/fmt/amdv1.h:232-250 | the table entry is stored iff the slot still holds the word last loaded, and nothing else changes |
| PtAmdv1.AttrFromLeafWord | drivers/iommu/generic_pt/fmt/amdv1.h:253-258 | `attr_from_entry` of a leaf returns the FC, IR and IW bits it was built with |
| PtAmdv1.SetProtBit | drivers/iommu/generic_pt/fmt/amdv1.h:334-349 | `iommu_set_prot` sets FC always, IR exactly for READ and IW exactly for WRITE, and nothing else |
| PtAmdv1.SetProtAttrsOk | drivers/iommu/generic_pt/fmt/amdv1.h:334-349 | those bits never touch PR, NEXT_LEVEL, the OA field or D |
| PtAmdv1.InstalledLeafReadsBack | drivers/iommu/generic_pt/fmt/amdv1.h:192-258 | a leaf installed with `iommu_set_prot`'s bits reads back as an OA entry with its address and size, FC set, and IR and IW exactly as requested |
| PtAmdv1.ClearDirtyBit | drivers/iommu/generic_pt/fmt/amdv1.h:303 | clearing dirt drops bit D and keeps every other bit |
| PtAmdv1.SetDirtyBit | drivers/iommu/generic_pt/fmt/amdv1.h:310 | making dirty sets bit D and keeps every other bit |
| PtAmdv1.SameSpan | drivers/iommu/generic_pt/fmt/amdv1.h:113-140 | the contiguous count depends only on bits above D, so changing D keeps it |
| PtAmdv1.SpanStartBounds | drivers/iommu/generic_pt/fmt/amdv1.h:284-286 | the run containing an index starts at a 2^n-aligned slot at or below it and ends inside the table |
| PtAmdv1.AnyDirtyIff | drivers/iommu/generic_pt/fmt/amdv1.h:288-291 | the scan is true iff some slot of the run has D set |
| PtAmdv1.ScanDirty | drivers/iommu/generic_pt/fmt/amdv1.h:288-291 | the loop returns whether some slot among the count from start is dirty |
| PtAmdv1.EntryWriteIsDirty | drivers/iommu/generic_pt/fmt/amdv1.h:281-292 | the method returns `WriteIsDirty`: whether any slot of the entry's whole contiguous run has D set |
| PtAmdv1.SetWriteClean | drivers/iommu/generic_pt/fmt/amdv1.h:295-304 | the cleaned table has the table's length |
| PtAmdv1.CleanSpan | drivers/iommu/generic_pt/fmt/amdv1.h:302-303 | the loop clears D in the count slots from start and changes nothing else |
| PtAmdv1.EntrySetWriteClean | drivers/iommu/generic_pt/fmt/amdv1.h:295-304 | the table becomes `SetWriteClean`: D cleared in every slot of the entry's run |
| PtAmdv1.CleanedNotDirty | drivers/iommu/generic_pt/fmt/amdv1.h:281-304 | after `set_write_clean` the entry keeps its size and is no longer write-dirty |
| PtAmdv1.CleanChangesOnlyDirty | drivers/iommu/generic_pt/fmt/amdv1.h:295-304 | `set_write_clean` changes no bit but D in any slot |
| PtAmdv1.EntryMakeWriteDirty | drivers/iommu/generic_pt/fmt/amdv1.h:307-313 | sequential try_cmpxchg: D is set in the slot iff it still held the loaded entry; the result says so and the word seen is returned |
| PtAmdv1.MadeWriteDirty | drivers/iommu/generic_pt/fmt/amdv1.h:281-313 | once D is set in the slot the entry keeps its size and is write-dirty |
| PtAmdv1.FmtInit | drivers/iommu/generic_pt/fmt/amdv1.h:352-362 | -EINVAL iff the starting level is 0 or above PT_MAX_TOP_LEVEL (top_of_table untouched); otherwise the top level becomes the starting level and the table pointer is kept |
| PtAmdv1.HwModeOfInit | drivers/iommu/generic_pt/fmt/amdv1.h:365-373 | the mode reported to the hardware (top level + 1) is 2..6 and the top table spans 12 + 9·mode bits |
| PtDart.OaOfBits | drivers/iommu/generic_pt/fmt/dart.h:78-83 | an entry whose OA field holds an address's page-frame bits decodes to that address, for either version |
| PtDart.MakeOaRoundTrip | drivers/iommu/generic_pt/fmt/dart.h:78-99 | `dartpt_oa` of `dartpt_make_oa(oa)` is oa for every granule-aligned address below the version's limit, 2^36 on v1 and 2^42 on v2 |
| PtDart.OaBounds | drivers/iommu/generic_pt/fmt/dart.h:78-99 | every decoded address is granule-aligned and below the maximum output address |
| PtDart.Geometry | drivers/iommu/generic_pt/fmt/dart.h:120-136 | a table fills one granule of eight-byte words and each level's item spans a table of the level below; 4 KiB granules give 2^30 at level 2, 16 KiB granules 2^36 |
| PtDart.SubpageAllIsMax | drivers/iommu/generic_pt/fmt/dart.h:163-165 | the subpage end written, 0xfff, is the whole 12-bit field |
| PtDart.LeafEntryBit | drivers/iommu/generic_pt/fmt/dart.h:161-165 | a leaf's bits are VALID, the OA field, the descriptor bits and the whole subpage-end field, nothing else |
| PtDart.InstallLeafEntry | drivers/iommu/generic_pt/fmt/dart.h:153-169 | the leaf replaces exactly its slot and becomes `pts->entry` |
| PtDart.LeafRoundTrip | drivers/iommu/generic_pt/fmt/dart.h:108-197 | a leaf loads as an OA entry at level 0 with its address and attributes, allowing access to the whole page (subpage 0..0xfff) |
| PtDart.LeafAttrsReadBack | drivers/iommu/generic_pt/fmt/dart.h:184-197 | `attr_from_entry` of a leaf returns its protection bits |
| PtDart.LeafSubpageReadsBack | drivers/iommu/generic_pt/fmt/dart.h:163-165 | a leaf's subpage start is 0 and its end 0xfff |
| PtDart.SubpageReadsBack | drivers/iommu/generic_pt/fmt/dart.h:163-165 | the subpage fields read back as the values written |
| PtDart.TableEntryRoundTrip | drivers/iommu/generic_pt/fmt/dart.h:139-181 | a table entry loads as TABLE on every level above 0 and `pt_table_pa` returns its address |
| PtDart.InstallTable | drivers/iommu/generic_pt/fmt/dart.h:172-181 | the table entry is stored iff the slot still holds the word last loaded, and nothing else changes |
| PtDart.AttrFromEntryBit | drivers/iommu/generic_pt/fmt/dart.h:184-197 | `attr_from_entry` keeps exactly the version's protection bits of the entry |
| PtDart.SetProtBit | drivers/iommu/generic_pt/fmt/dart.h:219-249 | `iommu_set_prot` sets NO_WRITE without WRITE and NO_READ without READ; v2 always sets NO_CACHE and v1 always sets SP_DIS; nothing else |
| PtDart.SetProtAttrsOk | drivers/iommu/generic_pt/fmt/dart.h:219-249 | those bits never touch VALID, the OA field or the subpage fields |
| PtDart.InstalledLeafReadsBack | drivers/iommu/generic_pt/fmt/dart.h:153-249 | a leaf installed with `iommu_set_prot`'s bits loads as an OA entry with its address, NO_READ iff not readable, NO_WRITE iff not writable, and bit 1 set |
| PtDart.InitGranuleSpec | drivers/iommu/generic_pt/fmt/dart.h:262-275 | the granule step succeeds iff the OA size is 36 or 42, the VA size is at most the OA size and the (v2: 16K-masked) bitmap offers 4K or 16K; v2 then uses 16K and v1 the lowest bitmap bit |
| PtDart.InitTopLevelCovers | drivers/iommu/generic_pt/fmt/dart.h:277-298 | -EOPNOTSUPP iff the VA size exceeds two levels plus the 2^2 TTBRs; the top level is 1 iff two levels cover the VA, otherwise 2 |
| PtDart.TestConfigurationV1 | drivers/iommu/generic_pt/fmt/dart.h:305-308 | the v1 test configuration (OA 36, VA 30, 4K) takes a 4 KiB granule and top level 1 |
| PtDart.TestConfigurationV2 | drivers/iommu/generic_pt/fmt/dart.h:309-312 | the v2 test configuration (OA 42, VA 36, 16K) takes a 16 KiB granule and top level 1 |
| PtDart.Dart.constructor | drivers/iommu/generic_pt/fmt/dart.h:71-76 | a DART table starts with granule 0 around its common part |
| PtDart.Dart.FmtInit | drivers/iommu/generic_pt/fmt/dart.h:252-300 | a rejected granule returns -EOPNOTSUPP before anything is written; otherwise granule and max_vasz are stored, and the top level is set (table pointer kept) or -EOPNOTSUPP returned when the TTBRs cannot cover the VA |
| PtX86pae.Geometry | drivers/iommu/generic_pt/fmt/x86pae.h:89-107 | 512 items per table, each level's item spans a table of the level below (12, 21, 30 bits at levels 0..2), the top level spans the whole VA, and leaves sit exactly on the levels of at most 1 GiB items |
| PtX86pae.ScaledOaEquals | drivers/iommu/generic_pt/fmt/x86pae.h:76-86 | an entry whose OA field holds an address's bits decodes to it through both `pt_entry_oa` and `pt_table_pa` |
| PtX86pae.LeafEntryBit | drivers/iommu/generic_pt/fmt/x86pae.h:132-136 | a leaf's bits are P, the address bits, the descriptor bits and PS above level 0, nothing else |
| PtX86pae.InstallLeafEntry | drivers/iommu/generic_pt/fmt/x86pae.h:124-140 | the leaf replaces exactly its slot and becomes `pts->entry` |
| PtX86pae.LeafRoundTrip | drivers/iommu/generic_pt/fmt/x86pae.h:83-162 | a leaf on a leaf-capable level loads as an OA entry with its address and its attributes |
| PtX86pae.LeafAttrsReadBack | drivers/iommu/generic_pt/fmt/x86pae.h:156-162 | `attr_from_entry` of a leaf returns its RW, U, A, D and XD bits |
| PtX86pae.TableEntryBit | drivers/iommu/generic_pt/fmt/x86pae.h:150-151 | a table entry's bits are P, RW, U, A and the table address |
| PtX86pae.TableEntryRoundTrip | drivers/iommu/generic_pt/fmt/x86pae.h:76-80 | a table entry loads as TABLE above level 0, `pt_table_pa` returns its address, and RW, U and A are set |
| PtX86pae.InstallTable | drivers/iommu/generic_pt/fmt/x86pae.h:143-153 | the table entry is stored iff the slot still holds the word last loaded, and nothing else changes |
| PtX86pae.AttrFromEntryBit | drivers/iommu/generic_pt/fmt/x86pae.h:156-162 | `attr_from_entry` keeps exactly RW, U, A, D and XD of the entry |
| PtX86pae.SetProtBit | drivers/iommu/generic_pt/fmt/x86pae.h:184-196 | `iommu_set_prot` sets U, A and D always and RW exactly for WRITE |
| PtX86pae.SetProtAttrsOk | drivers/iommu/generic_pt/fmt/x86pae.h:184-196 | those bits never touch P, PS or the OA field |
| PtX86pae.InstalledLeafReadsBack | drivers/iommu/generic_pt/fmt/x86pae.h:124-196 | a leaf installed with `iommu_set_prot`'s bits loads as an OA entry with its address and attributes, RW iff writable and XD clear |
| PtX86pae.InitTopLevelCovers | drivers/iommu/generic_pt/fmt/x86pae.h:210-222 | `fmt_init` accepts exactly VA sizes 39, 48 and 57 (otherwise -EINVAL) and picks the top level whose table spans that VA |
| PtX86pae.FmtInit | drivers/iommu/generic_pt/fmt/x86pae.h:199-224 | success sets that top level and keeps the table pointer; -EINVAL leaves top_of_table unchanged |
| PtX86pae.HwLevelsOfInit | drivers/iommu/generic_pt/fmt/x86pae.h:227-235 | the level count reported to the hardware is 3..5 and the VA is 12 + 9·levels bits |
| PtVtdss.Geometry | drivers/iommu/generic_pt/fmt/vtdss.h:76-93 | 512 items per table, each level's item spans a table of the level below, the top level spans the whole VA, and leaves sit on the levels of at most 1 GiB items |
| PtVtdss.ScaledOaEquals | drivers/iommu/generic_pt/fmt/vtdss.h:64-73 | an entry whose OA field holds an address's bits decodes to it through both `pt_entry_oa` and `pt_table_pa` |
| PtVtdss.LeafEntryBit | drivers/iommu/generic_pt/fmt/vtdss.h:118-121 | a leaf's bits are the address bits, the descriptor bits and PS above level 0 (there is no present bit) |
| PtVtdss.InstallLeafEntry | drivers/iommu/generic_pt/fmt/vtdss.h:110-125 | the leaf replaces exactly its slot and becomes `pts->entry` |
| PtVtdss.LeafRoundTrip | drivers/iommu/generic_pt/fmt/vtdss.h:95-107 | a leaf with R or W is nonzero, so it loads as an OA entry, with its address and attributes |
| PtVtdss.LeafAttrsReadBack | drivers/iommu/generic_pt/fmt/vtdss.h:145-150 | `attr_from_entry` of a leaf returns its R, W and SNP bits |
| PtVtdss.TableEntryBit | drivers/iommu/generic_pt/fmt/vtdss.h:139-140 | a table entry's bits are R, W and the table address |
| PtVtdss.TableEntryRoundTrip | drivers/iommu/generic_pt/fmt/vtdss.h:64-67 | a table entry loads as TABLE above level 0 and `pt_table_pa` returns its address |
| PtVtdss.InstallTable | drivers/iommu/generic_pt/fmt/vtdss.h:128-142 | the table entry is stored iff the slot still holds the word last loaded, and nothing else changes |
| PtVtdss.AttrFromEntryBit | drivers/iommu/generic_pt/fmt/vtdss.h:145-150 | `attr_from_entry` keeps exactly R, W and SNP |
| PtVtdss.SetProtBit | drivers/iommu/generic_pt/fmt/vtdss.h:172-200 | -EINVAL iff neither READ nor WRITE is asked; otherwise R is always set and W exactly for WRITE |
| PtVtdss.SetProtAttrsOk | drivers/iommu/generic_pt/fmt/vtdss.h:172-200 | successful attributes carry R and never touch PS or the OA field |
| PtVtdss.InstalledLeafReadsBack | drivers/iommu/generic_pt/fmt/vtdss.h:110-200 | a leaf installed with `iommu_set_prot`'s bits is nonzero and loads as an OA entry with its address and attributes, R set and W iff writable |
| PtVtdss.FmtInit | drivers/iommu/generic_pt/fmt/vtdss.h:203-211 | `fmt_init` always succeeds and sets top level 3, keeping the table pointer |
| PtVtdss.InitTopLevelCovers | drivers/iommu/generic_pt/fmt/vtdss.h:203-211 | the fixed top level spans a 48-bit VA and holds no leaves |
| KunitIommuCmp.PgsizeIdx | drivers/iommu/generic_pt/kunit_iommu_cmp.h:196-207 | `pgsize_idx`, the top remaining candidate, is a bit index of the 64-bit word |
| KunitIommuCmp.CandidateBit | drivers/iommu/generic_pt/kunit_iommu_cmp.h:196-201 | bit k survives the two masks iff 2^k is a bitmap size, at most size, and divides both va and pa |
| KunitIommuCmp.CandidatesIff | drivers/iommu/generic_pt/kunit_iommu_cmp.h:203-204 | the BUG_ON is avoided iff some bitmap size is at most size and divides both addresses |
| KunitIommuCmp.PgsizeEqSpec | drivers/iommu/generic_pt/kunit_iommu_cmp.h:188-210 | the page size returned is a bitmap size, at most size, dividing va and pa, and no larger bitmap size has all three properties |
| KunitIommuCmp.NextBoundary | drivers/iommu/generic_pt/kunit_iommu_cmp.h:212-228 | the next larger size, when one is taken, is a bit index of the 64-bit word |
| KunitIommuCmp.NextBoundarySpec | drivers/iommu/generic_pt/kunit_iommu_cmp.h:212-225 | the next larger size is a bitmap size above the page size with none in between, and va and pa agree modulo it |
| KunitIommuCmp.CountFits | drivers/iommu/generic_pt/kunit_iommu_cmp.h:238 | `size >> pgsize_idx` pages fit in size and one more does not |
| KunitIommuCmp.PgsizeCountSpec | drivers/iommu/generic_pt/kunit_iommu_cmp.h:227-239 | the count (fit test without wrap-around) is at least one page and never exceeds size; when the larger page fits, the run ends exactly on its boundary with both addresses aligned to it; otherwise one more page would not fit |
| KunitIommuCmp.AsWrittenCountOverrun | drivers/iommu/generic_pt/kunit_iommu_cmp.h:234-238 | as written, with sizes 2^n and 2^63, both addresses 0 and size 2^n, `offset + pgsize_next` wraps to 0 and the count covers 2^63 bytes, more than size; the corrected count stays within size |
| KunitIommuCmp.MinPagesz | drivers/iommu/generic_pt/kunit_iommu_cmp.h:253-254 | `min_pagesz` is 2^ffs(bitmap) |
| KunitIommuCmp.IsAlignedOr | drivers/iommu/generic_pt/kunit_iommu_cmp.h:261 | `IS_ALIGNED(iova \| paddr \| size, min_pagesz)` holds iff each of the three is a multiple of the smallest page size |
| KunitIommuCmp.MinAlignedCandidates | drivers/iommu/generic_pt/kunit_iommu_cmp.h:261-267 | once that check passes, every request of the loop has a candidate (the BUG_ON cannot fire) and picks at least the smallest page size |
| KunitIommuCmp.RequestSpec | drivers/iommu/generic_pt/kunit_iommu_cmp.h:264-271 | the request at (va, pa, left) asks for whole pages of a bitmap size, aligned on both sides, within left |
| KunitIommuCmp.Split | drivers/iommu/generic_pt/kunit_iommu_cmp.h:267 | the splitter the loops use makes only such requests |
| KunitIommuCmp.MapStep | drivers/iommu/generic_pt/kunit_iommu_cmp.h:276-282 | after a step of whole pages within the request, the addresses and the remaining size stay on the smallest page size and size does not underflow |
| KunitIommuCmp.MapFromSpec | drivers/iommu/generic_pt/kunit_iommu_cmp.h:264-285 | the map loop's requests start at (iova, paddr), each is a good request starting where the previous one's mapped bytes ended, their mapped bytes never exceed size, reach size on success, and a failure is the last request's error |
| KunitIommuCmp.MapOnce | drivers/iommu/generic_pt/kunit_iommu_cmp.h:265-282 | one turn of the loop body: on failure the run is that request alone; otherwise the remaining size shrinks and the run is this request followed by the run from the new position |
| KunitIommuCmp.MapEq | drivers/iommu/generic_pt/kunit_iommu_cmp.h:242-286 | `__iommu_map_eq` returns -EINVAL with no request unless iova, paddr and size are on the smallest page size; otherwise its status and requests are those of the map loop |
| KunitIommuCmp.UnmapFromSpec | drivers/iommu/generic_pt/kunit_iommu_cmp.h:362-373 | the unmap loop reports the sum of what its requests unmapped, never more than asked; it stops short only after a request that unmapped nothing; each request is good and starts where the previous one's bytes ended |
| KunitIommuCmp.UnmapOnce | drivers/iommu/generic_pt/kunit_iommu_cmp.h:363-372 | one turn: a request that unmaps nothing ends the run; otherwise the remaining size shrinks by what it unmapped and the run continues from the new address |
| KunitIommuCmp.UnmapEq | drivers/iommu/generic_pt/kunit_iommu_cmp.h:337-375 | `__iommu_unmap_eq` returns 0 with no request unless iova and size are on the smallest page size; otherwise the bytes the unmap loop accumulates |
| RlistFormat.SetHdrType | lib/rlist.c:25-29 | storing into the 2-bit `type` bit-field of a header changes only that field: encoding and length read back unchanged |
| RlistFormat.SetHdrEncoding | lib/rlist.c:25-29 | storing into the 2-bit `encoding` bit-field changes only that field: type and length read back unchanged |
| RlistFormat.HdrFields | lib/rlist.c:25-29 | a header built from (encoding, type, length) reads back the encoding, the type and the length truncated to its 28 bits |
| RlistFormat.Encode | lib/rlist.c:380-419 | `rls_append` writes 2, 4 or 6 header slots, the first a header carrying the chosen encoding and the entry's type |
| RlistFormat.EncodingChoice | lib/rlist.c:51-70 | the 8-byte form is chosen iff length < 2^28, base ≤ U32_MAX and offset and extra are 0; the 16-byte form iff the 8-byte one does not fit, length < 2^36, offset < 2^24 and extra is 0; else the 24-byte form (with lib/rlist.c:380-394) |
| RlistFormat.Decode8 | lib/rlist.c:161-171 | the `rlist_8` branch of `rlist_decode` returns the entry `rls_append` stored, with offset and extra 0, and reports 2 slots (with lib/rlist.c:380-391) |
| RlistFormat.Decode16 | lib/rlist.c:172-184 | the `rlist_16` branch rebuilds the 36-bit length from the header's 28 bits and the extra 8, the 24-bit offset and the 64-bit base, and reports 4 slots (with lib/rlist.c:392-405) |
| RlistFormat.Decode24 | lib/rlist.c:185-197 | the `rlist_24` branch rebuilds length, offset, base and extra, and reports 6 slots (with lib/rlist.c:406-419) |
| RlistFormat.DecodeEncoded | lib/rlist.c:158-203 | wherever in a chunk the slots hold the encoding of e, `rlist_decode` there returns e and the slot count 2·encoding+2 |
| RlistFormat.DecodeEncode | lib/rlist.c:158-203 | round trip: `rlist_decode` of what `rls_append` wrote gives back the same type, length, base, offset and extra, with 2, 4 or 6 slots for encodings 0, 1, 2 (with lib/rlist.c:371-423) |
| RlistFormat.MarkEnd | lib/rlist.c:362-369 | the slot `rls_mark_end` writes reads as the end of the chunk to `rls_is_end` |
| RlistFormat.RestFromStep | lib/rlist.c:148-156 | from a slot holding e the iterator returns e and then goes on in the same chunk, or in the next chunk when the following slot is the end (with lib/rlist.c:205-217) |
| RlistFormat.NotEndAt | lib/rlist.c:148-156 | a slot holding a stored entry is not taken for the end of the chunk (in the as-written type-field reading, unless the entry's type is 3) |
| RlistFormat.RestOfChunk | lib/rlist.c:148-156 | within one chunk the iterator returns the stored entries in order and then moves to the next chunk (with lib/rlist.c:205-217) |
| RlistFormat.RestOfChain | lib/rlist.c:205-217 | the walk from any chunk of a closed chain returns every entry stored from that chunk on, in order |
| RlistFormat.IterateLayout | lib/rlist.c:205-227 | what was appended is what the iterator returns: a chain built by `rls_alloc_entry` and closed by `rls_mark_end` walks back to exactly its entries, in order (with lib/rlist.c:321-369) |
| RlistFormat.Splice | lib/rlist.c:331-336 | overwriting a run of slots keeps the chunk's size |
| RlistFormat.MarkFrame | lib/rlist.c:362-369 | `rls_mark_end` touches the last chunk only: the chain keeps its length and every earlier chunk |
| RlistFormat.LayoutInPlace | lib/rlist.c:327-337 | writing e at the first free slot of the last chunk, when it fits in the 126 slots, keeps the chain well formed and adds e at the end of its entries |
| RlistFormat.LayoutMark | lib/rlist.c:339-341 | marking the end keeps every stored entry and closes the last chunk (with lib/rlist.c:362-369) |
| RlistFormat.LayoutNewChunk | lib/rlist.c:344-359 | a fresh chunk holding only e at slot 0, linked after a closed chain, keeps the chain well formed and adds e at the end of its entries |
| RlistFormat.EmptyAsWrittenInverted | lib/rlist.c:291-298 | `__rlist_empty` as written reports every non-empty list built by append as empty, although its iterator returns an entry |
| RlistFormat.TypeFieldDropsType3 | lib/rlist.c:18 | with END_PAD stored in and read from the `type` field, a chunk holding two entries of type 3 walks back to only the first (with lib/rlist.c:154-155, 340-341) |
| RlistFormat.NextCursor | lib/rlist.c:205-217 | after the current entry the walk continues in the same chunk, or at the next chunk when `rls_is_end` holds, or ends when that was the last chunk |
| RlistFormat.HeadOfRest | lib/rlist.c:158-203 | the walk from a cursor is non-empty iff `rlist_decode` accepts the slot there, and starts with what it decodes (with lib/rlist.c:219-227) |
| RlistState.Rlist.constructor | include/linux/rlist.h:102-105 | `rlist_init` gives a list with no chunks |
| RlistState.Rlist.Destroy | lib/rlist.c:285-289 | `rlist_destroy` leaves a list with no chunks |
| RlistState.RlistEmpty | include/linux/rlist.h:109-114 | `rlist_empty` is true iff iterating the list returns no entry (NULL head included) |
| RlistState.State.constructor | include/linux/rlist.h:143 | `RLIST_STATE` starts with no chunk, position 0 and the slot counters 0 |
| RlistState.State.Reset | lib/rlist.c:219-227 | `rls_reset` sets position 0 and returns true iff the list has an entry, leaving the cursor on the first one with the whole list still to come |
| RlistState.State.Next | lib/rlist.c:205-217 | `rls_next` adds the previous entry's length to position (mod 2^64), and returns true iff entries remain, then yielding the next one with one entry fewer to come |
| RlistState.ForEachEntry | include/linux/rlist.h:156-158 | `rlist_for_each_entry` visits exactly the list's entries, in order |
| RlistState.AppendState.constructor | include/linux/rlist.h:212-213 | `RLIST_STATE_APPEND` starts with no chunk, position 0, allocation allowed and nothing appended |
| RlistState.AppendState.Begin | lib/rlist.c:425-445 | `rls_append_begin` on an empty list returns 0 with no entries appended, position 0 and allocation allowed |
| RlistState.AppendState.AllocChunk | lib/rlist.c:302-319 | `rls_alloc_chunk` without preloaded chunks fails with -ENOSPC under no_alloc, with -ENOMEM when the slab fails, and otherwise returns a chunk |
| RlistState.AppendState.Append | lib/rlist.c:371-423 | `rls_append` succeeds iff e fits in the current chunk or a chunk can be allocated; on success e is added at the end of the entries and position grows by its length (mod 2^64), on failure the entries and position are unchanged and the error is -ENOSPC or -ENOMEM; earlier chunks are untouched |
| RlistState.AppendState.AllocEntry | lib/rlist.c:321-360 | `rls_alloc_entry` with the encoding written into its slots: the same success condition, entries grow by e, and at most one chunk is added |
| RlistState.AppendState.AppendHere | lib/rlist.c:327-337 | the in-chunk case: e is added at the end of the entries, no chunk is added and only the last one changes |
| RlistState.AppendState.AppendNewChunk | lib/rlist.c:339-359 | the new-chunk case: END_PAD closes the current chunk and a new chunk holding e is linked; on allocation failure the entries and position are unchanged (END_PAD has already been written) |
| RlistState.AppendState.LinkChunk | lib/rlist.c:348-359 | a chunk holding e is linked at the tail of a closed chain, or becomes rlist->head of an empty one |
| RlistState.AppendState.MarkLast | lib/rlist.c:362-369 | `rls_mark_end` writes END_PAD into the first free slot of the last chunk unless it is full, closing the chain |
| RlistState.AppendState.End | lib/rlist.c:529-535 | after `rls_append_end` the iterator returns exactly the appended entries |
| RlistState.AppendState.DestroyRlist | lib/rlist.c:538-542 | `rls_append_destroy_rlist` returns the list to empty |
| RlistState.InitSingle | lib/rlist.c:544-563 | `rlist_init_single` succeeds iff the chunk allocation does, and then the list holds exactly e; on failure it returns -ENOMEM and the list is empty |
| RlistState.SimpleTest | lib/rlist_kunit.c:25-58 | simple_test: a fresh list is empty with no entries; after appending {base 10, length 10} it holds one entry and `rls_reset` yields it |
| RlistState.TestEmpty | lib/rlist_kunit.c:29-31 | a fresh list is empty and walks no entry |
| RlistState.AppendOne | lib/rlist_kunit.c:33-42 | begin, one successful append and end leave a list holding exactly that entry |
| RlistState.TestOne | lib/rlist_kunit.c:44-55 | a list holding e walks one entry, and `rls_reset` returns true and yields e |
| RlistCpuFormat.PageCount | lib/rlist_cpu.c:83-86 | a page-multiple length below 2^60 is an exact number of pages, which again fits the 60-bit length field |
| RlistCpuFormat.DecodeEncodeCpu | lib/rlist_cpu.c:58-96 | round trip: `rlscpu_encode_entry` stores a page-shaped FOLIO entry (offset 0, whole pages) as type FOLIO_PFN with its length in pages, keeps every other entry's type, and `rlscpu_decode_entry` gives back the entry |
| RlistCpuFormat.StoreRoundTrip | lib/rlist_cpu.c:58-96 | the whole store path, rlist_cpu encoding under rlist encoding, reads back the same entry and the same physical address (with lib/rlist.c:158-203, 371-423) |
| RlistCpuFormat.EncodeAll | lib/rlist_cpu.c:79-96 | encoding a list entry by entry keeps its length |
| RlistCpuFormat.DecodeAll | lib/rlist_cpu.c:58-77 | decoding a list entry by entry keeps its length |
| RlistCpuFormat.EncodeAllSnoc | lib/rlist_cpu.c:570-571 | encoding a list with one more entry at the end adds that entry's encoding at the end |
| RlistCpuFormat.DecodeEncodeAll | lib/rlist_cpu.c:58-96 | a list of storable entries reads back, entry by entry, as it was appended |
| RlistCpuFormat.RunPhysical | lib/rlist_cpu.c:126-129 | the FOLIO entry `rlscpu_decode_pages` makes of a run of n pages points at the run's first frame and is n pages long (with include/linux/rlist_cpu.h:71-83) |
| RlistCpuFormat.RunEnd | lib/rlist_cpu.c:118-124 | the combine loop stops at the last page of the maximal run of consecutive frames (each `nth_page` of the one before) |
| RlistCpuFormat.RunsAt | lib/rlist_cpu.c:103-133 | the walk over a page array from a run's first page is that run's FOLIO entry, then the walk from the page after the run |
| RlistCpuFormat.DecodeAllAt | lib/rlist_cpu.c:58-77 | reading back a list decodes each stored entry on its own |
| RlistCpuFormat.FolioPiecesTile | lib/rlist_cpu.c:278-309 | the pieces `read_folio`/`next_folio` cut an entry into sum to its length, every piece but the first starts at folio offset 0, and no piece runs past the end of its folio |
| RlistCpuFormat.PagePiecesTile | lib/rlist_cpu.c:311-344 | the pieces `read_page`/`next_page` cut an entry into sum to its length; piece k lies in frame page+k, starts at page_offset for k = 0 and at 0 after, and ends within its page |
| RlistCpuFormat.PageBoundary | lib/rlist_cpu.c:675-676 | for a page-aligned offset, pfn·PAGE_SIZE + offset is the address of frame pfn + offset/PAGE_SIZE |
| RlistCpuFormat.ContiguousMeansAdjacent | lib/rlist_cpu.c:655-679 | `is_contiguous_folio` holds only when the new range starts, physically, exactly where the pending one ends; conversely two page-aligned, physically adjacent ranges with the same pgmap are contiguous |
| RlistCpuFormat.PushStep | lib/rlist_cpu.c:577-587 | one push as evidently intended: NOT_PAGELIST gains the previous range's pending end flag, and the new start flag when something was pushed before; the pending flag becomes "this range ends off a page boundary" |
| RlistCpuFormat.NotPagelistExact | lib/rlist_cpu.c:577-587 | for entries of nonzero length whose total fits 64 bits, NOT_PAGELIST as evidently intended is set iff the list is not a page list (all but the first start, and all but the last end, on a page boundary) (with include/linux/rlist_cpu.h:151-154) |
| RlistCpuFormat.FirstStartFlagged | lib/rlist_cpu.c:552 | with `first` inverted as written, a single entry starting 256 bytes into its page is flagged NOT_PAGELIST although it is a page list (with lib/rlist_cpu.c:583-584) |
| RlistCpuFormat.LaterStartMissed | lib/rlist_cpu.c:552 | with `first` inverted as written, a second entry starting 256 bytes into its page is not flagged although the list is not a page list (with lib/rlist_cpu.c:583-584) |
| RlistCpuFormat.NextToLastEndLost | lib/rlist_cpu.c:596-598 | `rlscpu_append_end` as written clears the pending flag of the next-to-last entry's end before the final push, so such a list is not flagged although it is not a page list |
| RlistCpuFormat.LengthCountsPages | lib/rlist_cpu.c:603-604 | as written max_position is the rlist position, which counts FOLIO_PFN entries in pages: one two-page aligned folio gives `rlist_cpu_length` 2, not 8192 (with lib/rlist.c:420) |
| RlistCpuFormat.Wrap61 | include/linux/rlist_cpu.h:122-123 | the 64-bit position cut to the 61-bit max_position field is the byte count cut to 61 bits |
| RlistCpuFormat.PhysicalPushedTwice | lib/rlist_cpu.c:755-770 | as written, appending one physical range and ending the append stores it twice, because the pushed range stays pending (with lib/rlist_cpu.c:596-602) |
| RlistCpuFormat.PagesBeginLooksFailed | lib/rlist_cpu.c:538-540 | as written `rlscpu_append_begin` returns `true` for page-array storage, which the int convention reads as an error |
| RlistCpuFormat.FolioStepCases | lib/rlist_cpu.c:681-714 | `rlscpu_append_folio_rlist` either grows the pending range by the new length (kept to 60 bits) or pushes it and makes the new range pending |
| RlistCpuFormat.MergeExtends | lib/rlist_cpu.c:685-691 | a merge keeps what was pushed and the pending range's start, grows it by the new bytes, and the new bytes begin where it ended |
| RlistCpuFormat.NoMergePushes | lib/rlist_cpu.c:693-713 | without a merge the pending range is pushed whole and the new range, at the folio's address plus offset, becomes pending |
| RlistCpuFormat.PhysicalPushedOnce | lib/rlist_cpu.c:751-771 | with the physical range consumed once pushed, appending one physical range and ending the append stores it once |
| RlistCpuFormat.PhysStepStores | lib/rlist_cpu.c:751-771 | each physical append stores the pending range and the new one exactly once, where the code as written stores the new one twice |
| RlistCpuFormat.WritePages | lib/rlist_cpu.c:646-650 | the page-array write as evidently intended keeps the array's size |
| RlistCpuFormat.WritePagesAsWritten | lib/rlist_cpu.c:646-650 | the page-array write as written keeps the array's size |
| RlistCpuFormat.WrittenRun | lib/rlist_cpu.c:646-650 | the frames written form one run of consecutive pages from the first one, and the slots outside it keep what they held |
| RlistCpuFormat.SecondPageLost | lib/rlist_cpu.c:646-650 | as written, writing a two-page folio into two empty slots leaves only the last frame, in the first slot |
| RlistCpuFormat.PushedStateSnoc | lib/rlist_cpu.c:570-587 | one push of a storable range keeps the append invariant: the rlist holds the pushes encoded, position is their byte total mod 2^64 and the flags are those of the pushes |
| RlistCpuState.RlistCpu.constructor | lib/rlist_cpu.c:347-353 | `rlist_cpu_init`: rlist storage, no chunks, no summary bits, length 0 |
| RlistCpuState.RlistCpu.InitPages | lib/rlist_cpu.c:357-369 | `rlist_cpu_init_pages`: page-array storage of npages_used of npages_available pages, length npages_used·PAGE_SIZE (cut to 61 bits), P2PDMA assumed iff pages are used and the option is on |
| RlistCpuState.RlistCpu.InitBio | lib/rlist_cpu.c:373-388 | `rlist_cpu_init_bio`: bio storage of the given length, always NOT_PAGELIST, P2PDMA assumed iff the length is nonzero and the option is on |
| RlistCpuState.RlistCpu.Empty | lib/rlist_cpu.c:456-469 | `rlist_cpu_empty` is true iff the rlist iterates to nothing, the page array has no used page, or the bio has no bytes |
| RlistCpuState.InitSinglePage | lib/rlist_cpu.c:391-409 | `rlist_cpu_init_single_page` succeeds iff allocation does, giving one FOLIO entry of the given length at physical address page·PAGE_SIZE + offset; on failure -ENOMEM and an empty list |
| RlistCpuState.SinglePageEntry | lib/rlist_cpu.c:399-405 | moving a large offset to a later page and taking the folio offset of that page gives a storable entry at page·PAGE_SIZE + offset |
| RlistCpuState.CpuState.constructor | include/linux/rlist_cpu.h:196-197 | `RLIST_CPU_STATE` ties a fresh rlist cursor to the list, at page 0 and position 0 |
| RlistCpuState.CpuState.DecodePages | lib/rlist_cpu.c:103-133 | `rlscpu_decode_pages` sets position to cur_page·PAGE_SIZE, fails iff cur_page is past the used pages, and otherwise returns the maximal run of consecutive frames from cur_page as one FOLIO entry |
| RlistCpuState.CpuState.Reset | lib/rlist_cpu.c:168-189 | `rlscpu_reset`: position 0; for an rlist the first stored entry decoded (false iff none), for pages the first run (false iff no page) |
| RlistCpuState.CpuState.Next | lib/rlist_cpu.c:258-275 | `rlscpu_next`: for an rlist, position grows by the previous entry's length and the next entry is decoded (false iff none left); for pages, the run after the current one |
| RlistCpuState.CpuState.NextRun | lib/rlist_cpu.c:266-268 | over pages `rlscpu_next` steps past the run at hand and decodes the next maximal run: position at its first page, false exactly past the last used page |
| RlistCpuState.CpuState.SeekPages | lib/rlist_cpu.c:231-236 | `rlscpu_seek` over pages fails iff position/PAGE_SIZE is past the used pages, else returns the run from the page holding position |
| RlistCpuState.CpuState.ReadFolio | lib/rlist_cpu.c:278-291 | `rlscpu_read_folio` fails iff the entry is not a FOLIO; else its first piece runs to at most the end of its folio, the piece and remaining_length add up to the entry, and the pieces still to come tile the rest |
| RlistCpuState.CpuState.NextFolio | lib/rlist_cpu.c:294-308 | `rlscpu_next_folio` returns the next piece, at offset 0 of the next folio, while bytes remain (position grows by the last piece); else the first piece of the next entry, false at the end |
| RlistCpuState.CpuState.ReadPage | lib/rlist_cpu.c:311-326 | `rlscpu_read_page` fails iff the entry is not a FOLIO; else it returns the page holding the entry's first byte and the piece up to that page's end, and the pieces to come tile the rest |
| RlistCpuState.CpuState.NextPage | lib/rlist_cpu.c:329-343 | `rlscpu_next_page` returns the following frame at offset 0 while bytes remain (position grows by the last piece), else the first page piece of the next entry |
| RlistCpuState.First | include/linux/rlist_cpu.h:251-257 | `rlist_cpu_first` returns true iff the list has an entry, and then the first one decoded |
| RlistCpuAppend.CpuAppendState.constructor | include/linux/rlist_cpu.h:264-273 | the append state starts with nothing pending, no pending flag, page slot 0 and nothing pushed |
| RlistCpuAppend.CpuAppendState.Begin | lib/rlist_cpu.c:529-545 | `rlscpu_append_begin` clears the summary bits and the length; for an rlist it starts an empty append, for pages it starts at slot 0 (success is returned where the code returns `true`) |
| RlistCpuAppend.CpuAppendState.PushCur | lib/rlist_cpu.c:549-588 | `rlscpu_append_push_cur_rlist` succeeds iff the rlist append does; then the pending range is added to what was pushed, stored encoded, with the flags as evidently intended; on failure nothing changes |
| RlistCpuAppend.CpuAppendState.Flags | lib/rlist_cpu.c:581-587 | the summary and pending flag updates of a push keep the append invariant |
| RlistCpuAppend.CpuAppendState.Record | lib/rlist_cpu.c:571-587 | once the encoded range is stored after what was stored before, the bookkeeping keeps the append invariant and records the push |
| RlistCpuAppend.CpuAppendState.AppendFolioRlist | lib/rlist_cpu.c:681-714 | `rlscpu_append_folio_rlist` performs the merge-or-push step; it cannot fail when it merges or nothing is pending, and on failure nothing changes |
| RlistCpuAppend.CpuAppendState.Merge | lib/rlist_cpu.c:685-691 | the merge grows the pending range by the new length, kept to 60 bits |
| RlistCpuAppend.CpuAppendState.StartRange | lib/rlist_cpu.c:693-713 | the non-merge case pushes the pending range if it holds bytes and makes the new FOLIO range pending |
| RlistCpuAppend.CpuAppendState.AppendFolioPages | lib/rlist_cpu.c:632-652 | `rlscpu_append_folio_pages`: -EINVAL unless offset and length are page multiples, -ENOSPC when fewer than length/PAGE_SIZE slots remain, otherwise the folio's frames from offset are stored as a run at the next free slots |
| RlistCpuAppend.CpuAppendState.AppendFolioPagesAsWritten | lib/rlist_cpu.c:632-652 | as written, the same checks, then every frame is stored through cur_page without moving it |
| RlistCpuAppend.CpuAppendState.AppendFolio | lib/rlist_cpu.c:723-748 | `rlscpu_append_folio` appends to the storage in use and sets HAS_P2PDMA iff it succeeds on a P2PDMA folio |
| RlistCpuAppend.CpuAppendState.MarkP2P | lib/rlist_cpu.c:745-746 | setting HAS_P2PDMA changes nothing else (with lib/rlist_cpu.c:797) |
| RlistCpuAppend.CpuAppendState.AppendPhysRlist | lib/rlist_cpu.c:751-771 | `rlscpu_append_phys_rlist` pushes the pending range and then the physical range, each once; on failure the error is -ENOSPC or -ENOMEM and at most the first push happened |
| RlistCpuAppend.CpuAppendState.FlushCur | lib/rlist_cpu.c:755-762 | pushing the pending range leaves nothing pending, or nothing changed on failure |
| RlistCpuAppend.CpuAppendState.PushRange | lib/rlist_cpu.c:764-770 | a physical range is pushed and then consumed, or left pending on failure |
| RlistCpuAppend.CpuAppendState.AppendPhysical | lib/rlist_cpu.c:777-799 | `rlscpu_append_physical`: -EOPNOTSUPP for page-array storage; for an rlist the physical push, with HAS_P2PDMA set iff it succeeds |
| RlistCpuAppend.CpuAppendState.End | lib/rlist_cpu.c:590-618 | `rlscpu_append_end`: for pages, size = used slots and length = size·PAGE_SIZE; for an rlist the pending range is pushed, the list closed, it iterates back to exactly what was pushed, length is their byte total and NOT_PAGELIST is exact |
| RlistCpuAppend.CpuAppendState.EndPages | lib/rlist_cpu.c:608-613 | page-array storage ends with size = used slots and length = size·PAGE_SIZE, cut to 61 bits |
| RlistCpuAppend.CpuAppendState.EndPush | lib/rlist_cpu.c:596-602 | the final push happens iff something is pending, and the pending range is cleared whatever the outcome |
| RlistCpuAppend.CpuAppendState.Close | lib/rlist_cpu.c:603-606 | after a successful push, max_position is the byte count of the pushes; the rlist is closed and iterates back to them |
| RlistCpuAppend.CpuAppendState.DestroyRlist | lib/rlist_cpu.c:621-629 | `rlscpu_append_destroy_rlist` drops the pending range and ends the append, keeping what was pushed |
| RlistDmaFormat.RelativeEntry | include/linux/rlist_dma.h:356-370 | `rlsdma_append` stores a RELATIVE entry whose base plus rdma->base is the DMA address (mod 2^64), with the length cut to 60 bits and the ops private word in extra |
| RlistDmaFormat.AbsoluteEntry | include/linux/rlist_dma.h:372-385 | `rlsdma_append_no_base` stores an ABSOLUTE entry holding the DMA address itself |
| RlistDmaFormat.DecodeAllDma | lib/rlist_dma.c:34-41 | decoding a list decodes each entry in place, keeping the count |
| RlistDmaFormat.AppendedReadBack | lib/rlist_dma.c:34-41 | round trip: whatever rdma->base is, an entry appended either way reads back with the DMA address, length and private word it was appended with (with include/linux/rlist_dma.h:356-385) |
| RlistDmaFormat.RebaseMoves | lib/rlist_dma.c:34-41 | changing rdma->base from b1 to b2 moves every RELATIVE entry by b2 − b1 (mod 2^64) and leaves every ABSOLUTE entry, and every length and private word, as it was (with include/linux/rlist_dma.h:436-442) |
| RlistDmaFormat.QuotIsDiv | lib/rlist_dma.c:141 | the unsigned division used for the counts is integer division |
| RlistDmaFormat.WindowSplit | lib/rlist_dma.c:133-141 | for a boundary mask 2^k−1, `x & mask` is the offset in x's window, `x & ~mask` the window start and `x \| mask` the window's last byte |
| RlistDmaFormat.DivRoundUpIsCeil | lib/rlist_dma.c:134 | DIV_ROUND_UP is the exact ceiling when its sum does not wrap |
| RlistDmaFormat.SegCountAtLeast | include/linux/rlist_dma.h:148-155 | cutting a range at window boundaries and into max-sized pieces makes at least ⌈length/max⌉ and at most length segments |
| RlistDmaFormat.SegCountWhole | include/linux/rlist_dma.h:148-155 | a window-aligned range of n whole windows and t more bytes makes n·⌈w/max⌉ + ⌈t/max⌉ segments |
| RlistDmaFormat.SameWindowCount | lib/rlist_dma.c:133-134 | a range within one window makes ⌈length/max⌉ segments |
| RlistDmaFormat.CrossCount | lib/rlist_dma.c:136-142 | a range from window a to window b makes first + (b−a−1)·⌈w/max⌉ + last segments |
| RlistDmaFormat.NumSegmentsCounts | lib/rlist_dma.c:120-143 | with the same-window test corrected, `rlist_dma_num_segments` is exactly the number of segments the range makes when cut at every window boundary and into max_segment_size pieces (non-wrapping ranges) |
| RlistDmaFormat.NumSegmentsSame | lib/rlist_dma.c:133-134 | the same-window branch gives that count |
| RlistDmaFormat.NumSegmentsCross | lib/rlist_dma.c:136-142 | the crossing branch, first_segs + boundary_segs·num_boundaries + last_segs, gives that count |
| RlistDmaFormat.CrossPieces | lib/rlist_dma.c:136-142 | the crossing branch's three terms are ⌈(w−r)/max⌉, n·⌈w/max⌉ and ⌈e/max⌉ |
| RlistDmaFormat.NoSegmentationDividesByZero | lib/rlist_dma.c:18-21 | as written, under `rlist_no_segmentation` (mask ULONG_MAX) any nonempty entry fails the same-window test and divides by mask+1 = 0; with the test on the window bits it stays in the one window (with lib/rlist_dma.c:131-141) |
| RlistDmaFormat.SameOffsetAsWritten | lib/rlist_dma.c:133-134 | as written, a range whose ends have the same offset in their windows is counted as ⌈length/max⌉, whatever it crosses |
| RlistDmaFormat.CrossingMissed | lib/rlist_dma.c:133-134 | as written, 0x2_0000 bytes from 0x100 with 64 KiB windows and segments count 2, where the range makes 3 |
| RlistDmaFormat.InWindowOvercounted | lib/rlist_dma.c:133-142 | as written, 0x100 bytes from 0x100 inside one 64 KiB window take the crossing branch, whose boundary count wraps, giving 2^48+1 where the range makes 1 |
| RlistDmaFormat.InWindowAsWritten | lib/rlist_dma.c:133-142 | the as-written count of that in-window range, from its end address |
| RlistDmaFormat.NoSegmentationCheckTraps | include/linux/rlist_dma.h:196-216 | as written, `rlist_dma_segmentation_ok` under `rlist_no_segmentation` reaches the division by zero for any nonempty entry; corrected, every mapping is accepted |
| RlistDmaFormat.SegmentationOkIff | include/linux/rlist_dma.h:191-216 | for 2^k windows and non-wrapping ranges, the corrected check accepts dma iff it keeps the address bits under min_align_mask and the DMA range makes no more segments than the CPU range |
| RlistDmaFormat.SameWindowFewest | include/linux/rlist_dma.h:209-213 | a DMA range within one window makes no more segments than the CPU range, whatever its address, so the early `true` is sound |
| RlistDmaBlocks.AlignIsCeil | lib/rlist_dma.c:249 | ALIGN(x, 2^j) is ⌈x/2^j⌉·2^j, the least multiple at or above x, when it does not wrap (with lib/rlist_dma.c:263) |
| RlistDmaBlocks.AlignDownIsFloor | lib/rlist_dma.c:553 | ALIGN_DOWN(x, 2^j) is x − x mod 2^j, a multiple of 2^j (with lib/rlist_dma.c:570) |
| RlistDmaBlocks.GapIsMod | lib/rlist_dma.c:235 | `x & (blocksz − 1)` for a power-of-two blocksz is x mod blocksz (with lib/rlist_dma.c:248, 256) |
| RlistDmaBlocks.HighMaskBit | lib/rlist_dma.c:193-195 | GENMASK(63, h) has exactly the bits h..63 set |
| RlistDmaBlocks.SpanCapMeaning | lib/rlist_dma.c:193-195 | the start mask has no bit below j iff no supported block size from bits_per((length − 1 + hwva) ^ hwva) up to j is supported: sizes spanning the VA range are kept |
| RlistDmaBlocks.MaskStep | lib/rlist_dma.c:197-215 | one loop step keeps the invariant: the mask has no bit below j iff the cap allows j and every entry so far is 2^j-aligned with the running hwva (and, after the first, starts a block) |
| RlistDmaBlocks.CandidateIsMask | lib/rlist_dma.c:217-223 | after the loop, block size 2^j works for the list iff it is supported and the mask has no bit below j |
| RlistDmaBlocks.PickIsBest | lib/rlist_dma.c:222-224 | keeping the bitmap's bits up to the mask's lowest set bit and rounding down to a power of two gives 0 or a supported size the mask allows, and no allowed size is larger |
| RlistDmaBlocks.FindBestBlocksz | lib/rlist_dma.c:164-225 | `rlist_dma_find_best_blocksz` returns 0 for an empty bitmap or an empty list without hwva; otherwise its result is 0 or a single supported power of two with which every entry's address agrees with the running hwva mod the size and every later entry starts a block, and it is the largest such size |
| RlistDmaBlocks.AccumulateMask | lib/rlist_dma.c:193-215 | the mask the loop accumulates has no bit below j iff the span cap allows j and every entry is aligned as above |
| RlistDmaBlocks.NumBlocksCeil | lib/rlist_dma.c:228-251 | `rlist_dma_block_offset` is the first address mod the block size and `rlist_dma_num_blocks` is ⌈(length + gap)/blocksz⌉; both are 0 for an empty list |
| RlistDmaBlocks.BlockRunIs | lib/rlist_dma.c:277-284 | `rlsdma_block_iter_next` within one entry yields the addresses dma, dma+b, dma+2b, …, length/b + 1 of them |
| RlistDmaBlocks.FirstBlockMultiple | lib/rlist_dma.c:253-265 | `set_first_block` leaves a length that is a multiple of the block size |
| RlistDmaBlocks.SingleEntryBlocks | lib/rlist_dma.c:253-290 | for a single-entry list the block iterator yields exactly `rlist_dma_num_blocks` = ⌈(len + gap)/b⌉ consecutive b-aligned addresses from the aligned-down start (with include/linux/rlist_dma.h:317-325) |
| RlistDmaBlocks.SingleEntryRun | lib/rlist_dma.c:253-265 | `set_first_block` moves the address down by the gap and sets the length to (c−1)·b, where c is the block count |
| RlistDmaIova.RoundupPow2Spec | include/linux/rlist_dma.h:430-432 | roundup_pow_of_two(n) for 0 < n is the least power of two at or above n: n ≤ r < 2n, and at most 2^63 for n ≤ 2^63 |
| RlistDmaIova.Alignment | include/linux/rlist_dma.h:426-434 | `rsiova_alignment` is never 0 for a nonzero page size |
| RlistDmaIova.SetIovaWarnsOnZero | include/linux/rlist_dma.h:437-442 | the WARN_ON in `rsiova_set_iova` fires on IOVA 0, which every alignment accepts; the corrected check stays silent there |
| RlistDmaIova.AlignedIovaKeepsSegments | include/linux/rlist_dma.h:416-425 | the layout is computed from IOVA 0; placed at an IOVA that is a multiple of `rsiova_alignment`, every range inside the layout's length makes as many boundary pieces as it did at 0 |
| RlistDmaIova.SilentSetIovaKeepsSegments | include/linux/rlist_dma.h:437-442 | under the corrected warning, an IOVA that draws no warning keeps every range's segment count |
| RlistDmaIova.InitCheckMeaning | lib/rlist_dma.c:439-451 | `rsiova_init` accepts a page size 2^p with min_align_mask 2^m − 1 exactly when m ≤ p, and then addresses congruent modulo the page size agree under min_align_mask |
| RlistDmaIova.PadIovaCongruent | lib/rlist_dma.c:292-328 | from a page-aligned cur_iova, the padded IOVA has phys's offset in the page, whether or not it moved to the next boundary window |
| RlistDmaIova.NoBoundaryNoPad | lib/rlist_dma.c:310-312 | without a boundary (mask all ones) `pad_iova` only adds the page offset |
| RlistDmaIova.SameOffsetStays | lib/rlist_dma.c:310-312 | as written, when the ends agree under the boundary mask, `pad_iova` only adds the page offset |
| RlistDmaIova.CrossMoves | lib/rlist_dma.c:310-326 | the corrected `pad_iova` moves to the next window when the entry crosses one and the move saves a segment |
| RlistDmaIova.PadMissesCrossing | lib/rlist_dma.c:310-326 | with a 64 KiB boundary and 0x100-byte pages, 0x2_0000 bytes at phys 0x2_0000 from cur 0x100: as written no padding and the DMA range fails the segmentation check; corrected, it moves to 0x1_0000 and passes |
| RlistDmaIova.PadAsWrittenStays | lib/rlist_dma.c:310-312 | as written, any 64 KiB-masked entry of 0x2_0000 bytes from cur 0x100 with a page-aligned phys is not moved, because the same-bits test compares the low bits |
| RlistDmaIova.PadMoves | lib/rlist_dma.c:310-326 | the corrected `pad_iova` moves that entry to 0x1_0000 |
| RlistDmaIova.FillIovaMap | lib/rlist_dma.c:330-346 | `fill_iova_map`'s mapping starts at or below phys |
| RlistDmaIova.FillIovaMapCovers | lib/rlist_dma.c:330-346 | when cur_iova has phys's page offset, the mapping is page aligned at phys and IOVA ends, covers the entry with less than a page over, maps cur_iova to phys, and cur_iova then advances by the mapping's length |
| RlistDmaIova.FillLeavesOffset | lib/rlist_dma.c:341-345 | as written, with 4 KiB pages, an entry 0x100 into its page and 0xF00 long maps page 0 but leaves cur_iova at 0x1100, not page aligned; corrected it is 0x1000 |
| RlistDmaIova.FillOnePage | lib/rlist_dma.c:341-345 | an entry that ends on the first page boundary maps that page and leaves cur_iova a page past where it began; corrected, on the boundary |
| RlistDmaIova.FillIovaMapAligned | lib/rlist_dma.c:341-345 | the corrected `fill_iova_map` produces the same mapping |
| RlistDmaIova.FillIovaMapAlignedNext | lib/rlist_dma.c:341-345 | the corrected cur_iova is ALIGN(cur_iova + length, pgsize), a page boundary, as the next `pad_iova` requires |
| RlistDmaIova.Place | lib/rlist_dma.c:417-421 | one CPU entry placed (`pad_iova` then `fill_iova_map`) leaves cur_iova at the mapping's end |
| RlistDmaIova.IovaLayout | lib/rlist_dma.c:401-424 | the layout of a CPU list has one placed entry per CPU entry |
| RlistDmaIova.Entries | lib/rlist_dma.c:417-419 | the DMA entries appended are the placed entries' entries, in order |
| RlistDmaIova.PlaceOk | lib/rlist_dma.c:292-346 | from a page-aligned cur_iova one entry is placed as the IOMMU requires: DMA address ≡ phys mod pgsize, mapping page aligned and covering the entry, next cur_iova page aligned |
| RlistDmaIova.LayoutOk | lib/rlist_dma.c:384-431 | every entry of a layout from a page-aligned cur_iova is placed as the IOMMU requires, and the layout ends on a page boundary |
| RlistDmaIova.MapsPrefix | lib/rlist_dma.c:482-531 | `rsiova_for_each_map` yields a prefix of the mappings, each nonzero, and all of them when none is empty (with include/linux/rlist_dma.h:461-463) |
| RlistDmaIova.LayoutMapsAll | lib/rlist_dma.c:482-531 | from a page-aligned start, nonempty CPU entries all get nonempty mappings, so the walk visits every one, each placed as the IOMMU requires (with include/linux/rlist_dma.h:461-463) |
| RlistDmaIova.UnmapCovers | lib/rlist_dma.c:553-555 | the corrected unmap range is the entry's pages, page aligned and covering the entry; as written it is short of them by the entry's offset in its first page (with lib/rlist_dma.c:570-572) |
| RlistDmaIova.UnmapShort | lib/rlist_dma.c:553-555 | 0x1000 bytes at 0x1800 with 4 KiB pages: as written 0x1800 bytes from 0x1000 are unmapped, of the 0x2000 mapped |
| RlistDmaIova.UnmapUndoesMap | lib/rlist_dma.c:341-345 | unmapping the DMA entry appended for a CPU entry (relative to a page-aligned base) releases exactly the pages `fill_iova_map` mapped for it (with lib/rlist_dma.c:553-555) |
| RlistDmaIova.NotP2p | lib/rlist_dma.c:541-546 | the unmap walk skips entries marked RSIOVA_PRIV_P2P; the kept entries are a subsequence of the list (with lib/rlist_dma.c:564-566) |
| RlistDmaIova.UnmapsAll | lib/rlist_dma.c:533-573 | when no mapped entry has an empty unmap range, the walk visits the unmap range of every entry not marked P2P, in order |
| RlistDmaIova.UnmapsCover | lib/rlist_dma.c:533-573 | every range the unmap walk visits is the page-aligned cover of a mapped entry |
| RlistDmaState.DecodeAllSnoc | lib/rlist_dma.c:34-41 | reading back a list with one more stored entry yields one more DMA entry, that entry decoded against the base |
| RlistDmaState.DecodeAllTail | lib/rlist_dma.c:52-55 | reading back a nonempty list is its first entry decoded against the base, then the rest read back |
| RlistDmaState.IdentityTail | lib/rlist_dma.c:29-32 | in identity mode over an rlist CPU list, the walk is the first CPU entry at its physical address, then the walk of the rest |
| RlistDmaState.IdentityRuns | lib/rlist_cpu.c:103-133 | in identity mode over a page array, the walk from a run is that run's FOLIO entry at its physical address, then the walk after the run's last page |
| RlistDmaState.PagesStep | lib/rlist_cpu.c:266-268 | one `rlscpu_next` over pages moves the walk by one run: it succeeds iff runs remain, and then its entry followed by the walk after it is the walk it started from |
| RlistDmaState.RlistDma.constructor | lib/rlist_dma.c:75-80 | `rlist_dma_init`: no CPU list, base 0, an empty rlist |
| RlistDmaState.RlistDma.InitIdentityCpu | lib/rlist_dma.c:87-92 | `rlist_dma_init_identity_cpu`: the CPU list is recorded, base 0, the rlist empty |
| RlistDmaState.RlistDma.InitSingle | lib/rlist_dma.c:95-106 | `rlist_dma_init_single`: base 0 and one RELATIVE entry that reads back as (dma_address, length mod 2^60, priv); or ENOMEM and no entry |
| RlistDmaState.RlistDma.Destroy | lib/rlist_dma.c:108-113 | `rlist_dma_destroy` empties the rlist, except in identity mode, where it owns nothing and leaves it alone |
| RlistDmaState.RlistDma.Empty | include/linux/rlist_dma.h:78-83 | `rlist_dma_empty` is the CPU list's emptiness in identity mode, else true exactly when the rlist holds no entry |
| RlistDmaState.IsCpuDiffers | lib/rlist_dma.c:24-27 | `rlsdma_is_cpu` as written (`!rlist.head`) differs from the identity-mode test (`cpu != NULL`, what `rlsdma_init` uses) exactly on an empty list that is not identity mapped |
| RlistDmaState.DmaAppendState.constructor | include/linux/rlist_dma.h:336-338 | RLIST_DMA_STATE_APPEND ties the append state to the list's rlist |
| RlistDmaState.DmaAppendState.Begin | include/linux/rlist_dma.h:340-343 | `rlsdma_append_begin` on an empty list succeeds with nothing appended, allocation allowed |
| RlistDmaState.DmaAppendState.Append | include/linux/rlist_dma.h:356-370 | `rlsdma_append` stores dma_address − base as a RELATIVE entry, so it reads back as (dma_address, length mod 2^60, priv) appended to the entries so far; on failure nothing changes and the error is ENOSPC or ENOMEM |
| RlistDmaState.DmaAppendState.AppendNoBase | include/linux/rlist_dma.h:372-385 | `rlsdma_append_no_base` stores an ABSOLUTE entry, read back as given whatever the base |
| RlistDmaState.DmaAppendState.End | include/linux/rlist_dma.h:345-348 | `rlsdma_append_end` closes the list so that a walk reads back exactly the entries appended |
| RlistDmaState.DmaAppendState.DestroyRlist | include/linux/rlist_dma.h:350-354 | `rlsdma_append_destroy_rlist` leaves an empty list |
| RlistDmaState.DmaState.constructor | include/linux/rlist_dma.h:228-245 | RLIST_DMA_STATE: a CPU cursor in identity mode, else an rlist cursor |
| RlistDmaState.DmaState.Reset | lib/rlist_dma.c:43-56 | `rlsdma_reset` succeeds exactly when the walk of the list has an entry (the rlist's entries decoded against base, or in identity mode every CPU entry, page runs included, read through its physical address), and then yields the first of them with exactly the rest still to come |
| RlistDmaState.DmaState.ResetInList | lib/rlist_dma.c:52-55 | over a list that is not identity mapped, `rlsdma_reset` succeeds iff the rlist holds an entry and yields the first decoded DMA entry, the cursor on it |
| RlistDmaState.DmaState.ResetCpuList | lib/rlist_dma.c:45-50 | in identity mode over an rlist CPU list, `rlsdma_reset` succeeds iff the CPU list has an entry and yields its physical address as dma_address, the rest of the walk still to come |
| RlistDmaState.DmaState.ResetCpuPages | lib/rlist_dma.c:45-50 | in identity mode over a page array, `rlsdma_reset` succeeds iff a page is used and yields the first run of consecutive frames at its physical address, the later runs still to come |
| RlistDmaState.DmaState.Next | lib/rlist_dma.c:59-72 | `rlsdma_next` succeeds exactly when the walk has an entry after the one at hand, and then yields that entry and leaves exactly the ones after it to come, in either mode |
| RlistDmaState.DmaState.NextCpu | lib/rlist_dma.c:61-66 | in identity mode `rlsdma_next` yields the next CPU entry read through its physical address, failing exactly at the end of the CPU walk |
| RlistDmaState.DmaState.NextCpuList | lib/rlist_cpu.c:260-265 | over an rlist CPU list, the next stored entry decoded, failing exactly when none is left |
| RlistDmaState.DmaState.NextCpuPages | lib/rlist_cpu.c:266-268 | over a page array, the run of consecutive frames after the one at hand, failing exactly past the last used page |
| RlistDmaState.DmaState.NextInList | lib/rlist_dma.c:59-72 | on a non-identity list `rlsdma_next` drops the entry at hand and yields the next, failing exactly at the end |
| RlistDmaState.ForEachEntry | include/linux/rlist_dma.h:254-256 | `rlist_dma_for_each_entry` visits exactly the DMA entries of the list at the call, in order, in either mode |
| RlistDmaState.EntriesFrom | include/linux/rlist_dma.h:254-256 | the loop of `rlist_dma_for_each_entry`, started on the first entry, visits that entry and every later one and then stops |
| RlistDmaState.EntryStep | include/linux/rlist_dma.h:254-256 | one step of that loop keeps visited ++ rest == all and shrinks the rest |
| RlistDmaState.First | include/linux/rlist_dma.h:264-270 | `rlist_dma_first` succeeds iff the walk of the list has an entry and yields the first, in either mode (rlist or identity mapped CPU list) |
| RlistDmaState.FirstUnmap | lib/rlist_dma.c:533-556 | `rlsdma_first_unmap` yields the first range of the unmap walk, or length 0 when there is none |
| RlistDmaState.NextUnmap | lib/rlist_dma.c:558-573 | `rlsdma_next_unmap` yields the next range of the walk over the rest, or length 0 at its end |
| RlistDmaState.SkipP2p | lib/rlist_dma.c:541-546 | the skip loop stops at the first entry not marked RSIOVA_PRIV_P2P without changing the ranges still to come, or reports there is none |
| RlistDmaState.ForEachUnmap | include/linux/rlist_dma.h:474-476 | `rlsdma_for_each_unmap` visits exactly the (corrected) unmap ranges of the list's non-P2P entries, in order, up to the first empty one |
| RlistDmaState.UnmapStep | include/linux/rlist_dma.h:474-476 | one step of that loop keeps visited ++ [current] ++ rest == all |
| RlistDmaState.BlockIterReset | lib/rlist_dma.c:267-274 | `rlsdma_block_iter_reset` starts the walk whose blocks, this one first, are all of the list's blocks |
| RlistDmaState.BlockIterNext | lib/rlist_dma.c:277-289 | `rlsdma_block_iter_next` drops the block at hand from the blocks still to come |
| RlistDmaState.ForEachBlock | include/linux/rlist_dma.h:317-325 | `rlist_dma_for_each_block` visits exactly the blocks of every entry, widened to whole blocks, in order |
| RlistDmaState.NullCpuLength | include/linux/rlist_dma.h:86-89 | a list made by `rlist_dma_init_single` has a first entry (so `rlist_dma_num_blocks` goes on to `rlist_dma_length`) and no CPU list, the pointer `rlist_dma_length` dereferences |
| RlistDmaState.WalkNumBlocks | lib/rlist_dma.c:240-250 | `rlist_dma_num_blocks` (corrected: the length is the sum of the DMA entries' lengths) is 0 for a list with no entry |
| RlistDmaState.OneEntryBlocks | lib/rlist_dma.c:240-250 | for a one-entry list, as `rlist_dma_init_single` makes, the corrected `rlist_dma_num_blocks` is the number of blocks `rlist_dma_for_each_block` visits |
| RlistDmaState.UnclosedReadsStale | lib/rlist_dma.c:384-431 | as written `rsiova_init_slow` never calls `rlsdma_append_end`; when the stale slot after the one entry holds an ENCODING_8 header, a walk yields a second entry |
| RlistDmaState.IovaState.constructor | include/linux/rlist_dma.h:397-405 | an rlist_dma_state_iova before `rsiova_init`, zeroed: cur_iova 0, no CPU ranges |
| RlistDmaState.IovaState.Pad | lib/rlist_dma.c:292-328 | `pad_iova` sets cur_iova to PadIova of the old cur_iova |
| RlistDmaState.IovaState.FillMap | lib/rlist_dma.c:330-346 | `fill_iova_map` (corrected advance) yields the mapping and the next cur_iova of FillIovaMapAligned |
| RlistDmaState.IovaState.PlaceMap | lib/rlist_dma.c:417-421 | `pad_iova` then `fill_iova_map` yields the placed mapping and leaves cur_iova where Place says (with lib/rlist_dma.c:500-501) |
| RlistDmaState.IovaState.PlaceStep | lib/rlist_dma.c:416-422 | one loop step of `rsiova_init_slow` appends the placed DMA entry, or fails with ENOMEM |
| RlistDmaState.IovaState.InitSlow | lib/rlist_dma.c:384-431 | `rsiova_init_slow` (append closed): the DMA entries are the layout of the CPU entries from IOVA 0 and cur_iova the page-aligned end of the last mapping; a failed append is ENOMEM and empties the list |
| RlistDmaState.IovaState.InitLoop | lib/rlist_dma.c:400-423 | the loop places and appends every CPU entry in order, the last mapping being the last entry's |
| RlistDmaState.IovaState.InitStep | lib/rlist_dma.c:400-423 | one iteration extends the built prefix by one entry |
| RlistDmaState.IovaState.Init | lib/rlist_dma.c:433-480 | `rsiova_init`: EINVAL, changing nothing, when the page size shares bits with min_align_mask; else it records the page size, the segmentation and the CPU ranges (each CPU entry's physical address and length), sets base 0, and either (fast path: a page list without P2PDMA pages whose first entry `rlist_cpu_first` finds) stores one entry of the CPU length at 0, ENOMEM iff its allocation fails, with cur_iova ALIGN(length + the first entry's physical address mod PAGE_SIZE, the first entry's length), or (slow path) lays out every range from IOVA 0, succeeding when every allocation does |
| RlistDmaState.IovaState.InitPath | lib/rlist_dma.c:466-479 | the fast path is taken exactly for a page list without P2PDMA pages that has a first entry, with the single entry and cur_iova above; any other list goes to `rsiova_init_slow` |
| RlistDmaState.IovaState.SetIova | include/linux/rlist_dma.h:437-442 | `rsiova_set_iova` sets the base and warns exactly when the IOVA is not a multiple of `rsiova_alignment` (corrected) |
| RlistDmaState.IovaState.FirstMap | lib/rlist_dma.c:508-519 | `rsiova_first_map` yields length 0 for an empty CPU list, else the first mapping of the layout from first_iova |
| RlistDmaState.IovaState.NextMap | lib/rlist_dma.c:521-531 | `rsiova_next_map` yields the next mapping of that layout, or length 0 past the last entry |
| RlistDmaState.IovaState.MapStep | include/linux/rlist_dma.h:461-463 | one step of `rsiova_for_each_map` keeps the visited maps a prefix of the layout's |
| RlistDmaState.IovaState.ForEachMap | include/linux/rlist_dma.h:461-463 | `rsiova_for_each_map` visits exactly the layout's mappings from first_iova, up to the first empty one |
| RlistDmaState.DmaSimpleTest | lib/rlist_dma_kunit.c:26-58 | simple_test: a fresh list is empty with no entries; after appending (10, 11) it has one, and `rlsdma_reset` yields (dma_address 10, length 11) |
| RlistDmaState.DmaTestEmpty | lib/rlist_dma_kunit.c:30-32 | a fresh list is empty and the walk counts no entries |
| RlistDmaState.DmaAppendOne | lib/rlist_dma_kunit.c:35-42 | begin, append (10, 11, 0), end leaves exactly that entry |
| RlistDmaState.DmaTestOne | lib/rlist_dma_kunit.c:44-55 | the walk counts one entry and reset yields it |
| FwctlCxl.Uctx.constructor | drivers/fwctl/cxl/cxl.c:13-17 | a new user context has no capabilities |
| FwctlCxl.Uctx.OpenUctx | drivers/fwctl/cxl/cxl.c:26-35 | `cxlctl_open_uctx` sets the capabilities to BIT(QUERY_COMMANDS) \| BIT(SEND_COMMAND) = 3 and never fails |
| FwctlCxl.Uctx.Info | drivers/fwctl/cxl/cxl.c:41-54 | `cxlctl_info` reports the context's capabilities, or -ENOMEM when the allocation fails |
| FwctlCxl.OpenCapsAreRpcs | drivers/fwctl/cxl/cxl.c:31-32 | the capabilities open_uctx reports are exactly the two RPC commands `cxlctl_validate_rpc` knows (with drivers/fwctl/cxl/cxl.c:165-175) |
| FwctlCxl.QueryCommandsIff | drivers/fwctl/cxl/cxl.c:140-156 | a query passes exactly when the payload holds the query header and it asks for no commands, or for exactly (payload − header)/sizeof(cxl_command_info) with the remainder fitting an int |
| FwctlCxl.FirstFeature | drivers/fwctl/cxl/cxl.c:72-78 | the feature search finds the first entry with the UUID at or after i, or reports that none has it |
| FwctlCxl.ValidateSetFeatures | drivers/fwctl/cxl/cxl.c:56-101 | `cxlctl_validate_set_features` decides SetFeaturesOk |
| FwctlCxl.SetFeaturesIff | drivers/fwctl/cxl/cxl.c:56-101 | a Set Feature passes exactly when the payload holds the header, the UUID copies, the first feature with it is found, it has no background effect, and it has an immediate effect at DEBUG_WRITE scope or above, or a reset effect at DEBUG_READ_ONLY or above |
| FwctlCxl.ValidateHwCmds | drivers/fwctl/cxl/cxl.c:103-138 | `cxlctl_validate_hw_cmds` decides HwCmdsOk |
| FwctlCxl.HwCmdsNeedDebugScope | drivers/fwctl/cxl/cxl.c:91-98 | no hardware command passes below DEBUG_READ_ONLY scope (with drivers/fwctl/cxl/cxl.c:128) |
| FwctlCxl.HwCmdsScopeMonotone | drivers/fwctl/cxl/cxl.c:91-98 | a command accepted at one scope is accepted at every wider scope (with drivers/fwctl/cxl/cxl.c:128) |
| FwctlCxl.HwCmdsOnlyFeatures | drivers/fwctl/cxl/cxl.c:112-135 | only known commands with opcode Get Supported Features, Get Feature or Set Feature pass, and none the kernel has enabled or claimed exclusively |
| FwctlCxl.ValidateRpc | drivers/fwctl/cxl/cxl.c:158-176 | `cxlctl_validate_rpc` decides RpcOk: the query check, the hardware-command check, or refusal |
| FwctlCxl.RpcWithinCaps | drivers/fwctl/cxl/cxl.c:26-35 | every RPC that passes validation is among the capabilities open_uctx reports (with drivers/fwctl/cxl/cxl.c:158-176) |
| FwctlCxl.SendCxlCommand | drivers/fwctl/cxl/cxl.c:178-192 | `send_cxl_command` returns the mailbox error, or its output buffer and length |
| FwctlCxl.FwRpc | drivers/fwctl/cxl/cxl.c:194-216 | `cxlctl_fw_rpc` answers -EPERM to anything validation refuses, otherwise the query answer or the mailbox send's result; -EOPNOTSUPP comes only from those |
| VfioDmaBuf.ExportSize | drivers/vfio/pci/dma_buf.c:178-194 | an accepted request names a nonempty BAR below the ROM index and a window [offset, offset + size) inside it; every refusal is -EINVAL |
| VfioDmaBuf.ExportSizeIff | drivers/vfio/pci/dma_buf.c:178-194 | the range check passes exactly for a nonempty BAR below the ROM index and either offset = length = 0 (the whole BAR is exported) or a page-aligned window with offset inside the BAR and offset + length within it (length is exported) |
| VfioDmaBuf.ZeroLengthWindow | drivers/vfio/pci/dma_buf.c:186-193 | a nonzero page-aligned offset with length 0 passes the window check and exports a buffer of size 0 |
| VfioDmaBuf.SgTable.constructor | drivers/vfio/pci/dma_buf.c:73-74 | `sg_alloc_table` gives a table of n entries with orig_nents = nents = n |
| VfioDmaBuf.DmaBuf.constructor | drivers/vfio/pci/dma_buf.c:197-202 | the zeroed private data records the size, BAR index and offset, with no device and not revoked |
| VfioDmaBuf.DmaBuf.Revoke | drivers/vfio/pci/dma_buf.c:259-264 | one live buffer during cleanup loses its device, is revoked and notified once more |
| VfioDmaBuf.Attachment.constructor | drivers/vfio/pci/dma_buf.c:22-33 | an attachment starts out with peer2peer allowed |
| VfioDmaBuf.Device.constructor | drivers/vfio/pci/dma_buf.c:161-163 | a device with its BAR lengths, memory state and no buffers |
| VfioDmaBuf.Device.FeatureDmaBuf | drivers/vfio/pci/dma_buf.c:161-228 | `vfio_pci_core_feature_dma_buf` passes on the feature check's error or probe answer, -EFAULT for a failed copy, -EINVAL for a bad range, -ENOMEM or the export error without adding a buffer; otherwise the fd, with one new buffer appended to the device's list holding the exported size, index and offset, revoked exactly when memory is disabled |
| VfioDmaBuf.Device.Move | drivers/vfio/pci/dma_buf.c:230-248 | `vfio_pci_dma_buf_move` sets revoked on every live buffer, notifies exactly the live ones whose state changed, and leaves dead buffers and every device link as they were |
| VfioDmaBuf.Device.Cleanup | drivers/vfio/pci/dma_buf.c:250-269 | `vfio_pci_dma_buf_cleanup` unlinks every live buffer, clears its device, revokes and notifies it; the list keeps exactly the dead ones, untouched, in order |
| VfioDmaBuf.Device.CleanupOne | drivers/vfio/pci/dma_buf.c:256-267 | one step of the cleanup walk keeps the list equal to the dead buffers seen so far followed by those not yet visited |
| VfioDmaBuf.CleanupLeavesDead | drivers/vfio/pci/dma_buf.c:250-269 | what cleanup leaves is exactly the buffers of the list that were not live, and a second cleanup with the same live set changes nothing |
| VfioDmaBuf.Attach | drivers/vfio/pci/dma_buf.c:22-33 | `vfio_pci_dma_buf_attach` never fails and turns peer2peer off exactly when the P2P distance is negative |
| VfioDmaBuf.Pin | drivers/vfio/pci/dma_buf.c:39-46 | `vfio_pci_dma_buf_pin` always fails with -EINVAL |
| VfioDmaBuf.NumChunksTight | drivers/vfio/pci/dma_buf.c:73 | DIV_ROUND_UP(size, seg) is the fewest segments of at most seg bytes that cover the buffer, 0 exactly for an empty buffer |
| VfioDmaBuf.ChunksTile | drivers/vfio/pci/dma_buf.c:95-104 | the segments tile [dma, dma + size): each nonempty and at most seg long, all but the last exactly seg, each starting where the previous ended |
| VfioDmaBuf.FillSgl | drivers/vfio/pci/dma_buf.c:95-104 | the map loop fills every table entry with the j-th segment, min(size − j·seg, seg) bytes at dma + j·seg, and stops exactly at the table's end |
| VfioDmaBuf.Map | drivers/vfio/pci/dma_buf.c:48-120 | `vfio_pci_dma_buf_map` is -EPERM without peer2peer, -ENODEV when revoked, then the allocation, table or mapping error; otherwise a fresh table of ⌈size/seg⌉ entries holding the tiling, its orig_nents 0 and the buffer's saved orig_nents ⌈size/seg⌉ |
| VfioDmaBuf.Unmap | drivers/vfio/pci/dma_buf.c:122-133 | `vfio_pci_dma_buf_unmap` restores the table's orig_nents from the buffer and unmaps the whole buffer from the first segment's DMA address |
| VfioMlx5.SetFreezed | drivers/vfio/pci/mlx5/main.c:94 | setting MLX5VF_PCI_FREEZED sets bit 0 and keeps every other bit of dev_state |
| VfioMlx5.ClearFreezed | drivers/vfio/pci/mlx5/main.c:80 | clearing MLX5VF_PCI_FREEZED clears bit 0 and keeps every other bit |
| VfioMlx5.SetDataSizeFlag | drivers/vfio/pci/mlx5/main.c:177 | setting MLX5VF_REGION_DATA_SIZE sets bit 1 of region_state and keeps the others |
| VfioMlx5.WriteWindowCovers | drivers/vfio/pci/mlx5/main.c:121-141 | when the allocated pages reach the window start and hold at most 64 MiB past it, `new_write_window` requests exactly enough pages to cover the whole 64 MiB window with less than a page of slack, and none exactly when the window is already covered |
| VfioMlx5.PageChunksSum | drivers/vfio/pci/mlx5/main.c:357-443 | the steps of the copy loops move exactly count bytes in all, the first starting at curr_offset |
| VfioMlx5.PageChunksInPage | drivers/vfio/pci/mlx5/main.c:379-380 | each step, min(PAGE_SIZE − offset mod PAGE_SIZE, remaining), stays inside one page and is nonempty when count is (with drivers/vfio/pci/mlx5/main.c:427-428) |
| VfioMlx5.PageChunksContiguous | drivers/vfio/pci/mlx5/main.c:390-391 | each step starts where the previous ended, on the u32 curr_offset (with drivers/vfio/pci/mlx5/main.c:437-438) |
| VfioMlx5.PageChunksWithin | drivers/vfio/pci/mlx5/main.c:379-391 | while curr_offset does not wrap, every step lies inside the bytes the transfer names, from the start to below start + count |
| VfioMlx5.Save | drivers/vfio/pci/mlx5/main.c:99-119 | `mlx5vf_pci_save_device_data` touches only state_size and the page store, and a failure (-EFAULT unless frozen, or the query's or the save's error) touches nothing |
| VfioMlx5.SaveOnce | drivers/vfio/pci/mlx5/main.c:107-109 | once a state has been saved, a further save returns 0 and changes nothing, whatever the device commands would answer |
| VfioMlx5.SaveFillsPages | drivers/vfio/pci/mlx5/main.c:115-118 | a save into an empty store leaves pages holding the whole state and less than a page more |
| VfioMlx5.ArcUnhandled | drivers/vfio/pci/mlx5/main.c:321-323 | an arc `mlx5vf_pci_setup_device_state` does not handle is -EINVAL and changes nothing |
| VfioMlx5.ArcFsm | drivers/vfio/pci/mlx5/main.c:287-299 | no arc moves vfio_dev_fsm except PRE_COPY_P2P→STOP_COPY, to ERROR, when the freeze succeeds, the save fails and the unfreeze fails too |
| VfioMlx5.ArcFreeze | drivers/vfio/pci/mlx5/main.c:268-280 | RUNNING_P2P→STOP returns the suspend's status and on success sets only FREEZED; STOP→RUNNING_P2P returns the resume's status and on success clears only FREEZED; the quiesce arcs change nothing |
| VfioMlx5.ArcDrops | drivers/vfio/pci/mlx5/main.c:301-319 | the arcs out of STOP_COPY and the PRE_COPY arcs drop the migration state and succeed; RESUMING→STOP does so iff there is nothing to load or the load succeeds, and otherwise returns its error with nothing changed |
| VfioMlx5.ArcResuming | drivers/vfio/pci/mlx5/main.c:310-311 | a successful STOP→RESUMING leaves pages covering the whole 64 MiB window past its start |
| VfioMlx5.ArcStopCopy | drivers/vfio/pci/mlx5/main.c:282-299 | both arcs into STOP_COPY end frozen with a state saved when they succeed; from STOP the state is fresh, the window at 0 and the pages holding all of it |
| VfioMlx5.StopCopyReadable | drivers/vfio/pci/mlx5/main.c:445-464 | after STOP→STOP_COPY succeeds, a read of count > 0 bytes inside the saved data passes the window checks and every page step finds its page |
| VfioMlx5.WalkReachesTarget | drivers/vfio/pci/mlx5/main.c:342-346 | a state write that succeeds leaves vfio_dev_fsm at the last state of the arc path |
| VfioMlx5.WalkFailsAtArc | drivers/vfio/pci/mlx5/main.c:342-346 | a state write that fails returns the error of one arc of the path, reached with every arc before it done |
| VfioMlx5.WalkPrefix | drivers/vfio/pci/mlx5/main.c:342-346 | walking the first k arcs, the first succeeding, is that arc followed by the next k − 1 |
| VfioMlx5.Mlx5VfDevice.constructor | drivers/vfio/pci/mlx5/main.c:611-614 | a kzalloc'ed device in state s: no flags, no state, no window, no pages |
| VfioMlx5.Mlx5VfDevice.Freeze | drivers/vfio/pci/mlx5/main.c:85-97 | `mlx5vf_pci_freeze_device` returns the suspend's status and sets FREEZED only on success |
| VfioMlx5.Mlx5VfDevice.Unfreeze | drivers/vfio/pci/mlx5/main.c:71-83 | `mlx5vf_pci_unfreeze_device` returns the resume's status and clears FREEZED only on success |
| VfioMlx5.Mlx5VfDevice.SaveDeviceData | drivers/vfio/pci/mlx5/main.c:99-119 | `mlx5vf_pci_save_device_data` returns the status and leaves the state that Save gives for the old state |
| VfioMlx5.Mlx5VfDevice.ResetMigState | drivers/vfio/pci/mlx5/main.c:253-259 | `mlx5vf_reset_mig_state` zeroes region_state, state_size, the window start and the page store |
| VfioMlx5.Mlx5VfDevice.NewWriteWindow | drivers/vfio/pci/mlx5/main.c:121-141 | `new_write_window` does nothing when no pages are needed; else it returns the allocation's status and adds the needed pages only on success |
| VfioMlx5.Mlx5VfDevice.LoadState | drivers/vfio/pci/mlx5/main.c:243-251 | `mlx5vf_load_state` succeeds with nothing to load, else returns the load's status |
| VfioMlx5.Mlx5VfDevice.SetupDeviceState | drivers/vfio/pci/mlx5/main.c:261-324 | `mlx5vf_pci_setup_device_state` returns the status and leaves the state that Arc gives for the old state and the new one; the Arc lemmas above state each arc |
| VfioMlx5.Mlx5VfDevice.DataSize | drivers/vfio/pci/mlx5/main.c:143-180 | data_size: a write only while RESUMING grows state_size and the window start by the value and opens a new write window; a read only in STOP_COPY reports min(64 MiB, state_size − window start); both set DATA_SIZE on success; -EINVAL or -EFAULT leave all unchanged |
| VfioMlx5.Mlx5VfDevice.DataOffset | drivers/vfio/pci/mlx5/main.c:182-198 | data_offset is read-only (-EFAULT on write) and reports the data section offset |
| VfioMlx5.Mlx5VfDevice.PendingBytes | drivers/vfio/pci/mlx5/main.c:200-241 | pending_bytes is read-only; 0 pending in the PRE_COPY states, 0 returned without a state, else state_size − window start; a read after DATA_SIZE advances the window by the last data size, and the window start never passes state_size |
| VfioMlx5.Mlx5VfDevice.DeviceState | drivers/vfio/pci/mlx5/main.c:326-355 | device_state needs count 4 (-EINVAL, nothing changed); a write whose copy faults is -EFAULT, nothing changed; a write steps through the arcs of the core's path, ending in the state and status of Walk; a read reports the current state |
| VfioMlx5.Mlx5VfDevice.CopyLoop | drivers/vfio/pci/mlx5/main.c:357-443 | the copy loops complete exactly the page-bounded steps up to the first whose page is missing (-EINVAL) or whose user copy faults (-EFAULT), and succeed exactly when all are done |
| VfioMlx5.Mlx5VfDevice.DataRw | drivers/vfio/pci/mlx5/main.c:445-464 | data rw is -EINVAL, copying nothing, when offset + count passes 64 MiB and on a read past the window's data; otherwise it returns count exactly when every page step from window start + offset finds its page and copies without fault, and else stops at the first failing step with -EINVAL (page missing) or -EFAULT (copy fault) |
| VfioMlx5.Mlx5VfDevice.MigRw | drivers/vfio/pci/mlx5/main.c:466-530 | `mlx5vf_pci_mig_rw` refuses a data access past the window with -EINVAL, an offset naming no header field with -EFAULT, and a write to a read-only field with -EFAULT, changing nothing |
| VfioMlx5.Mlx5VfDevice.CloseDevice | drivers/vfio/pci/mlx5/main.c:583-590 | `mlx5vf_pci_close_device` drops the migration state and keeps the FSM state and freeze bit |

## Left out

- Concurrency and memory ordering. `READ_ONCE`, `WRITE_ONCE` and `cmpxchg` on entries are modelled as sequential reads and writes. RCU freeing, the VFIO `state_mutex`, `memory_lock` and the dma-buf reservation lock are not modelled.
- The format-independent map, unmap, `iova_to_phys`, `cut_mapping` and dirty-tracking walkers. Their bodies are not part of this model; only `get_info`, `init` and the collect walk of `iommu_pt.h` are.
- `pt_alloc.c`: the table allocator, page accounting and freeing go through the page allocator (foreign code). `pt_alloc.h`'s radix free list is modelled.
- The `pt_defs.h`, `defs_*.h` and `include/linux/iommu.h` constants are not part of this model. Their values (IOMMU_READ=1 … IOMMU_PRIV=0x20, the feature bit numbers) are taken as given.
- The `fvalog2_*` helpers are modelled by the `log2_*` functions, with a width of 64 meaning the full word.
- The AMD v1 self-test geometry is left out; only the production geometry is modelled.
- The ARMv7s `fmt_init` (armv7s.h:448-453) only copies constants and is not modelled separately.
- The io-pgtable reference comparisons, `__compare_tables` and the benchmark timing of the KUnit comparison code are left out: they call into foreign page-table code and clocks.
- The x86 PAE `gcr3_pt` field of `fmt_hw_info` needs `virt_to_phys` (foreign). Only the levels it reports are modelled.
- Firmware and device-tree glue (`of_iommu.c`, IORT, VIOT), the irqchip files, RDMA uverbs, `umem`, `umem_dmabuf`, `generic_rlist.c` and `mig_state_study.py` are callers or context, not part of this model.
- `rls_preload` (the bulk chunk allocator; only its guard at lib/rlist.c:514 matters) is left out: fresh chunk contents and allocation success are inputs.
- `rls_append_begin` on an already populated list (lib/rlist.c:433-441) is left out; appends start from an empty list or continue a list that the model built.
- `rls_seek` (lib/rlist.c:229-239) and its slice helpers are left out. On CPU lists only the page seek of `rlscpu_seek` is modelled.
- Freeing the chunk list at destroy time is modelled as dropping the chunks; `free_chunk_list` itself is not modelled.
- Rlist chunks are values (`seq<seq<u32>>` of 126 slots) held by the list object, not separate slab objects. Aliasing between chunks and in-place buffer writes are therefore not captured.
- The 64-bit fields of an rlist entry are stored as two little-endian 32-bit slots. Other layouts are not modelled.
- The `iommu_pt` collect walk is a pure function over a table snapshot, not a recursion over live table memory.
- Block I/O (bio) storage: decode, seek and next are left out. `rlscpu_init_bio` only records the length.
- `rlist_cpu_copy`, the unpin helpers and `rlist_cpu_destroy` are left out: they release pages through foreign code.
- The P2P provider mapping (`fill_p2p`, `p2pdma_provider_map`) is an input: the list of CPU ranges to export.
- `vfio_pci_dma_buf_release` (refcount-driven removal under `memory_lock`) and the no-op unpin callback are not modelled.
- The mlx5 `open_device`, probe, remove and quiesce paths and the VHCA firmware commands are left out. The command results are inputs.
- The CXL probe, remove and `close_uctx` paths are left out; the mailbox command results are inputs.
- VfioMlx5.Mlx5VfDevice.MigRw: its contract states only the refusals (out-of-window data, unknown header offsets, writes to read-only fields). The dispatch to the data and header handlers, which those handlers' own contracts describe, is not restated.
- RlistDmaState.IovaState.Init: the CPU ranges are tied to the CPU list's entries only when the list has no P2PDMA pages and is not bio storage. For a list with P2PDMA pages the ranges are an input, and `fill_p2p`'s provider mapping, its errors and the bus-address entries it produces are not captured.
- RlistDmaState.IovaState.InitSlow: it lays out the ranges it is handed instead of walking the CPU list itself. Entries that `p2pdma_provider_map` fills with a bus address (appended with `rlsdma_append_no_base` and RSIOVA_PRIV_P2P, with no IOVA allocated) are not modelled, nor is the -EINVAL of `fill_p2p` on a corrupt entry type.
- VfioMlx5.SavedPages: `mlx5vf_cmd_save_vhca_state` lives in cmd.c, which is not part of this model. It is taken to add ⌈size / PAGE_SIZE⌉ pages holding the state from window offset 0. `mlx5vf_reset_vhca_state` is taken to drop the size, the window and the pages.
- VfioMlx5.Walk: the VFIO core's `vfio_mig_set_device_state` and its FSM table are not part of this model. The arc path it takes to the written state, and each arc's command outcomes, are inputs.
- KunitIommuCmp.MinPagesz, KunitIommuCmp.IsAlignedOr, KunitIommuCmp.MapEq and KunitIommuCmp.UnmapEq: page-size bitmaps whose smallest size is 4 GiB or more are excluded. `min_pagesz` is an unsigned int, so `1 << __ffs(bitmap)` does not fit in it there.
- RlistDmaBlocks.SpanCap: when the span crosses bit 63, bits_per gives 64 and the C mask is GENMASK(63, 64), an out-of-range shift. The model reads that mask as empty (`HighMask(64) == 0`), so no block size covers such a span.
- VfioDmaBuf.Map: sg_alloc_table's status is an input. For a zero-size buffer (created with a nonzero offset and length 0) the table has no entries, and the kernel's -EINVAL for that case is not forced by the model.
- PtDart: a DART v1 page-size bitmap with bits below 4K yields a granule below 12. This is modelled as written, because the callers only pass the exact sizes.

## Findings

| source | as written | input that shows it | evidently intended | confidence | as-written member | corrected member |
|---|---|---|---|---|---|---|
| drivers/iommu/generic_pt/pt_iter.h:125-131 | the level loop stops on `index != end` | a contiguous step from index 0 with 16 items against end 4 reaches 16, which overshoots end and never equals it | stop on `index >= end` | not executed | PtIter.AsWrittenOvershoot, PtIter.AsWrittenNeverStops, PtIter.State.IterLoadAsWritten, PtIter.LoadGuardAsWritten | PtIter.LoadGuard, PtIter.State.IterLoad, PtIter.State.Walk |
| drivers/iommu/generic_pt/pt_fmt_defaults.h:57-62 | the default `pt_item_oa` ORs the whole index into the entry's output address | entry OA 0, index 1, item size 2^12, no contiguity: gives 0x1000 instead of 0 | OR in `index mod 2^contig` only | not executed | PtFmtDefaults.ItemOaFromEntryOaAsWritten, PtFmtDefaults.ItemOaAsWrittenLeavesEntry | PtFmtDefaults.ItemOaFromEntryOa, PtFmtDefaults.EntryItemOaRoundTrip |
| lib/rlist.c:291-298 | `__rlist_empty` returns true when the list has entries | any list holding one entry | true only when there are no entries | not executed | RlistFormat.EmptyAsWritten, RlistFormat.EmptyAsWrittenInverted | RlistState.RlistEmpty |
| lib/rlist.c:18,154-155,340-341 | END_PAD is stored in and read from the `type` field | two entries of type 3 in one chunk walk back as one | mark the end in the encoding field | not executed | RlistFormat.TypeFieldDropsType3 | RlistFormat.IterateLayout, RlistState.AppendState.End |
| lib/rlist_cpu.c:646-650 | `append_folio_pages` never advances `cur_page` | a two-page folio with first frame 5 into slots [0,0] gives [6,0] | [5,6] | not executed | RlistCpuFormat.WritePagesAsWritten, RlistCpuFormat.SecondPageLost, RlistCpuAppend.CpuAppendState.AppendFolioPagesAsWritten | RlistCpuFormat.WritePages, RlistCpuFormat.WrittenRun, RlistCpuAppend.CpuAppendState.AppendFolioPages |
| lib/rlist_cpu.c:552,583-584 | the `first` test is inverted when flagging non-page-list starts | [folio at 0xf00, offset 0x100] is flagged; [folio at 0x1000, folio at 0xf00 offset 0x100] is missed | flag an unaligned start of every entry except the first | not executed | RlistCpuFormat.NotPagelistAsWritten, RlistCpuFormat.FirstStartFlagged, RlistCpuFormat.LaterStartMissed | RlistCpuFormat.NotPagelist, RlistCpuFormat.NotPagelistExact, RlistCpuAppend.CpuAppendState.PushCur |
| lib/rlist_cpu.c:596-598 | `append_end` clears `last_summary_flags` before the final push | [folio 0x800 long, folio 0x1000] loses the unaligned end of the first entry | keep the pending flag through the final push | not executed | RlistCpuFormat.NotPagelistAtEndAsWritten, RlistCpuFormat.NextToLastEndLost | RlistCpuAppend.CpuAppendState.End, RlistCpuFormat.NotPagelistExact |
| lib/rlist_cpu.c:755-770 | `append_phys_rlist` leaves `cur.length` set after pushing | any physical entry of non-zero length is stored twice | store each entry once | not executed | RlistCpuFormat.PhysAsWritten, RlistCpuFormat.PhysicalPushedTwice | RlistCpuFormat.PhysStep, RlistCpuFormat.PhysicalPushedOnce, RlistCpuFormat.PhysStepStores, RlistCpuAppend.CpuAppendState.AppendPhysRlist |
| lib/rlist_cpu.c:603-604 | `max_position` adds pages while rlist.c:420 compares it with byte lengths | one folio entry of 0x2000 bytes gives 2 | 0x2000 | not executed | RlistCpuFormat.MaxPositionAsWritten, RlistCpuFormat.LengthCountsPages | RlistCpuAppend.CpuAppendState.Close, RlistCpuAppend.CpuAppendState.End |
| lib/rlist_cpu.c:538-540 | `append_begin` returns true for PAGES storage where callers expect 0 | PAGES storage | return 0 | not executed | RlistCpuFormat.AppendBeginAsWritten, RlistCpuFormat.PagesBeginLooksFailed | RlistCpuAppend.CpuAppendState.Begin |
| drivers/iommu/generic_pt/kunit_iommu_cmp.h:234-238 | the page-count test `offset + pgsize_next <= size` can wrap | bitmap {2^n, 2^63} and size 2^n: the count times the page size reaches 2^63, above size | no wrap in the bound | not executed (low: contrived bitmap) | KunitIommuCmp.CountAsWritten, KunitIommuCmp.AsWrittenCountOverrun | KunitIommuCmp.PgsizeCount, KunitIommuCmp.PgsizeCountSpec |
| lib/rlist_dma.c:133-142 | `num_segments` tests whether start and end share a window with the wrong expression | 64K segments: 0x100 + 0x2_0000 gives 2 (true 3); 0x100 + 0x100 gives 0x1_0000_0000_0001 (true 1) | the number of segment windows the range touches | not executed | RlistDmaFormat.NumSegmentsAsWritten, RlistDmaFormat.CrossingMissed, RlistDmaFormat.InWindowOvercounted, RlistDmaFormat.SameOffsetAsWritten | RlistDmaFormat.NumSegments, RlistDmaFormat.NumSegmentsCounts |
| lib/rlist_dma.c:18-21,131-141 | `rlist_no_segmentation` divides by a zero segment size | any length above 0 with no segmentation | no division when unsegmented | not executed | RlistDmaFormat.NoSegmentationDividesByZero, RlistDmaFormat.NoSegmentationCheckTraps | RlistDmaFormat.NumSegments, RlistDmaFormat.SegmentationOk |
| lib/rlist_dma.c:310-326 | `pad_iova` uses the same window test | 64K segments, 0x100 pages, cur 0x100, phys 0x2_0000, length 0x2_0000: stays at 0x100 | move to 0x1_0000 | not executed | RlistDmaIova.PadIovaAsWritten, RlistDmaIova.PadMissesCrossing, RlistDmaIova.PadAsWrittenStays | RlistDmaIova.PadIova, RlistDmaIova.PadIovaCongruent |
| include/linux/rlist_dma.h:441 | the `set_iova` warning fires when the IOVA IS aligned | IOVA 0, aligned for every alignment, warns | warn only on a misaligned IOVA | not executed | RlistDmaIova.SetIovaWarnsAsWritten | RlistDmaIova.SetIovaWarns, RlistDmaIova.SetIovaWarnsOnZero |
| lib/rlist_dma.c:553-555,570-572 | unmap length is taken from the unaligned DMA address | length 0x1000 at DMA 0x1800 with 4K pages unmaps 0x1800 | 0x2000, the pages mapped | not executed | RlistDmaIova.UnmapAsWritten, RlistDmaIova.UnmapShort | RlistDmaIova.Unmap, RlistDmaIova.UnmapCovers, RlistDmaIova.UnmapUndoesMap |
| lib/rlist_dma.c:341-345 | `fill_iova_map` advances `cur_iova` from the unaligned start | 4K pages, cur 0x100, phys 0x1100, length 0xF00: next cur 0x1100 | 0x1000, the end of the mapping | not executed | RlistDmaIova.FillIovaMap, RlistDmaIova.FillLeavesOffset | RlistDmaIova.FillIovaMapAligned, RlistDmaIova.FillIovaMapAlignedNext |
| lib/rlist_dma.c:24-27 | `rlsdma_is_cpu` tests `!rlist.head` | an empty non-identity list reads the CPU type past the end of `struct rlist_dma` | test `rdma->cpu != NULL` | not executed | RlistDmaState.IsCpuAsWritten | RlistDmaState.IsCpu, RlistDmaState.IsCpuDiffers |
| lib/rlist_dma.c:384-431 | `rsiova_init_slow` never calls `rlsdma_append_end` | a stale ENCODING_8 header after the one entry makes the walk yield two entries | close the list after the last entry | not executed | RlistDmaState.UnclosedReadsStale | RlistDmaState.IovaState.InitSlow |
| include/linux/rlist_dma.h:86-89 | `rlist_dma_length` returns `rlist_cpu_length(rdma->cpu)`, which only an identity mapped list has | a list made by `rlist_dma_init_single` (no CPU list, one entry) passed to `rlist_dma_num_blocks` (lib/rlist_dma.c:249) dereferences NULL | the sum of the DMA entries' lengths | not executed | RlistDmaState.RlistDma.Length, RlistDmaState.NullCpuLength | RlistDmaState.WalkNumBlocks, RlistDmaState.OneEntryBlocks |
