# Cache lab: LRU cache simulator and matrix transposes

This project models two C files of a cache lab.

**`csim.c`** is a set-associative cache simulator with LRU replacement. A cache has `2^s` sets of
`E` lines, and each line has a valid bit and a tag. An address is split into a tag, a set index and
a block offset. An access has one of three outcomes:

- a hit on the first valid line holding the tag;
- a miss that fills the first invalid line;
- a miss that evicts the last line of the set.

Whichever line is used then becomes the set's most recently used line. `process_instruction` ignores
`I`, accesses the address once for `L` and `S`, and twice for `M`. The read loop of `main` feeds every
trace entry through it in order, and the `hits`, `misses` and `evictions` counters are the
simulator's result.

**`trans.c`** holds matrix transposes `B = A^T` written for a small direct-mapped cache:

- a row-by-row baseline, `trans`;
- a blocked 8 x 8 routine for 32 x 32 matrices, `transpose_32`;
- a 16 x 16 tiled routine for other shapes, `transpose_generic`;
- two block helpers, `transpose_naive` and `copy_naive`;
- the dispatcher `transpose_submit`.

The model is laid out in these modules:

- `Arith` (`arith.dfy`): powers of two and division facts.
- `Address` (`address.dfy`): the geometry and the address split of `access`.
- `LruSet` (`lru_set.dfy`): one set as a sequence of lines, most recently used first. It has the
  in-place shift of `set_as_mru` as a function on values, and the three-way decision of `access`.
- `CacheModel` (`cache_model.dfy`): the whole cache as a value. It has `access`,
  `process_instruction` and the trace loop as functions, plus the lemmas about counters, distinct
  tags and uninitialised tags.
- `CacheExamples` (`cache_examples.dfy`): concrete traces worked through the model.
- `CacheSim` (`csim.dfy`): the simulator as the C code writes it. It is a `Cache` class with one
  array per set and counter fields, updated in place. `Access`, `ProcessInstruction` and `RunTrace`
  are proved to take the object to the state that `CacheModel.Access`, `CacheModel.Process` and
  `CacheModel.Run` give, and `HitCache` and `MissCache` to the state `CacheModel.Tally` gives. The
  constructor only agrees with `CacheModel.NewCache` on valid bits and counters, because the tags
  `malloc` leaves are arbitrary. `EvictCache` is specified by adding one to `evictions`, and
  `SetAsMru` by `LruSet.MoveToFront` of the addressed set.
- `Conflicts` (`trans_conflicts.dfy`): which cells `transpose_generic` stores, and the exact
  condition under which it stores all of them.
- `Transpose` (`trans.dfy`): the transposes as methods on `array2<int>`. `A` has `N` rows and `M`
  columns, `B` has `M` rows and `N` columns, and each method's contract gives every cell of `B`
  afterwards.

The set index is taken from the bits just above the block offset. With `s = 1, E = 1, b = 0`,
`access` computes the set of address 2 as `(2 >> 0) & 1 = 0`, so address 2 is tag 1 in set 0 and
conflicts with address 0. `CacheExamples.EvenAddressesShareSetZero` works a trace through this, and
`CacheExamples.TwoSetsKeepTwoBlocks` shows addresses 0 and 1 using both sets.

## Model

| member | source | states |
|---|---|---|
| Address.SetIndex | cache-lab/solution/csim.c:134 | the set index of an address is below the number of sets `2^s` |
| Address.Tag | cache-lab/solution/csim.c:135 | the tag is `addr >> (b + s)` and fits in the `64 - s - b` bits above the set index |
| Address.SplitJoin | cache-lab/solution/csim.c:134-135 | tag, set index and block offset reassemble into the original address: the split loses nothing |
| Address.JoinSplit | cache-lab/solution/csim.c:134-135 | splitting an address built from a tag, a set index below `2^s` and an offset below `2^b` gives those three fields back |
| LruSet.FindHit | cache-lab/solution/csim.c:136-142 | the first scan stops at the first valid line holding the tag; no earlier line holds it |
| LruSet.FindFree | cache-lab/solution/csim.c:143-151 | the second scan stops at the first invalid line; every earlier line is valid |
| LruSet.MoveToFront | cache-lab/solution/csim.c:123-132 | line `e` moves to position 0, lines `0 .. e-1` move up one place, and lines after `e` stay put |
| LruSet.MoveToFrontPermutes | cache-lab/solution/csim.c:123-132 | `set_as_mru` only reorders the set: the multiset of lines is unchanged |
| LruSet.AccessSet | cache-lab/solution/csim.c:136-157 | the set keeps its size and its first line is valid with the accessed tag; the outcome is a hit exactly when the tag is resident, and an eviction exactly when it is not resident and every line is valid |
| LruSet.AccessHitPromotes | cache-lab/solution/csim.c:136-141 | on a hit, the set is the old set with the first matching line moved to the front |
| LruSet.AccessFillsFirstFree | cache-lab/solution/csim.c:143-150 | on a miss with a free line, the first invalid line takes the tag and moves to the front |
| LruSet.AccessEvictsLru | cache-lab/solution/csim.c:152-156 | on a miss in a full set, the last (least recently used) line takes the tag and moves to the front |
| LruSet.AccessHitPermutes | cache-lab/solution/csim.c:137-140 | a hit only reorders the set |
| LruSet.AccessEvictionShifts | cache-lab/solution/csim.c:152-156 | after an eviction, the other lines follow the new one in their old order, and the old last line is gone |
| LruSet.MoveToFrontDistinct | cache-lab/solution/csim.c:123-132 | moving a line to the front keeps the valid tags of a set distinct |
| LruSet.AccessPreservesDistinct | cache-lab/solution/csim.c:133-157 | an access never makes two valid lines of a set hold the same tag |
| LruSet.AccessTwiceHits | cache-lab/solution/csim.c:133-157 | repeating an access hits and leaves the set exactly as the first access left it |
| LruSet.AccessResidentTags | cache-lab/solution/csim.c:133-157 | afterwards the resident tags are the old ones plus the accessed tag; on an eviction, the tag of the old last line is removed |
| LruSet.AccessIgnoresInvalidTags | cache-lab/solution/csim.c:136-151 | sets that differ only in the tags of invalid lines give the same outcome, and still differ only there |
| LruSet.DirectMappedConflictEvicts | cache-lab/solution/csim.c:143-156 | with one line per set, a second tag right after a first one always evicts |
| CacheModel.NewCache | cache-lab/solution/csim.c:96-110 | a new cache has `2^s` sets of `E` lines, no valid line, and all counters 0 |
| CacheModel.Tally | cache-lab/solution/csim.c:111-113 | a hit adds to `hits` only, a miss to `misses` only, and an eviction to both `misses` and `evictions` |
| CacheModel.Access | cache-lab/solution/csim.c:133-157 | only the addressed set changes and its front line holds the tag; the outcome is a hit exactly when the tag was resident; a hit adds one to `hits` (`hit_cache`), a miss one to `misses` (`miss_cache`), and an eviction one to `misses` and one to `evictions` (`miss_cache` then `evict_cache`) |
| CacheModel.Process | cache-lab/solution/csim.c:158-164 | `M` issues two accesses, `L` and `S` one, and anything else none and changes nothing; the second access of `M` is always a hit |
| CacheModel.Run | cache-lab/solution/csim.c:53-55 | `main`'s read loop: the trace fed entry by entry, in file order, through `process_instruction`, keeping the cache well formed; what a run computes is stated by `RunSteps`, `RunSnoc` and `RunCounts` |
| CacheModel.RunSteps | cache-lab/solution/csim.c:53-55 | a run is its entries' `process_instruction` calls one after another, whatever their op codes: it goes from the first state to the last, and its outcomes are those of every entry (none, one or two each) in order |
| CacheModel.RunSnoc | cache-lab/solution/csim.c:53-55 | one more trace entry continues from the state the shorter run reached, and appends its outcomes |
| CacheModel.ProcessCounts | cache-lab/solution/csim.c:158-164 | over one entry, the counters grow by the number of hits, misses and evictions among its outcomes |
| CacheModel.RunCounts | cache-lab/solution/csim.c:53-56 | over a trace there is one outcome per access issued; `hits`, `misses` and `evictions` count the hits, all misses and the evictions; `hits + misses` grows by the number of accesses, and `evictions` never outgrows `misses` |
| CacheModel.AccessKeepsTagsDistinct | cache-lab/solution/csim.c:133-157 | no block is ever cached twice in one set, after one access |
| CacheModel.ProcessKeepsTagsDistinct | cache-lab/solution/csim.c:158-164 | the same, after one trace entry |
| CacheModel.RunKeepsTagsDistinct | cache-lab/solution/csim.c:53-55 | the same, after a whole trace |
| CacheModel.ModifyIsAccessThenHit | cache-lab/solution/csim.c:161-162 | `M` is one access followed by a hit that changes nothing but `hits` |
| CacheModel.AccessAgainHits | cache-lab/solution/csim.c:133-157 | repeating an access on the whole cache hits and only adds to `hits` |
| CacheModel.ProcessSingle | cache-lab/solution/csim.c:159-162 | `L` and `S` are exactly one access; `I` and unknown op codes change nothing |
| CacheModel.AccessAgrees | cache-lab/solution/csim.c:101-102 | caches that agree on their valid lines and counters give the same outcome and still agree afterwards |
| CacheModel.ProcessAgrees | cache-lab/solution/csim.c:101-102 | the same, for one trace entry |
| CacheModel.RunAgrees | cache-lab/solution/csim.c:101-102 | the same, for a whole trace |
| CacheModel.FreshCachesAgree | cache-lab/solution/csim.c:96-110 | whatever tags `malloc` leaves behind, a new cache produces the same outcomes and counters on every trace |
| CacheExamples.OneLineThrashes | cache-lab/solution/csim.c:133-157 | one line: addresses 0, 1, 0, 0 give miss, eviction, eviction, hit, and the counters 1, 3, 2 |
| CacheExamples.TwoSetsKeepTwoBlocks | cache-lab/solution/csim.c:133-157 | two sets of one line: 0, 1, 0, 1 give miss, miss, hit, hit |
| CacheExamples.EvenAddressesShareSetZero | cache-lab/solution/csim.c:134-135 | two sets of one line: address 2 is tag 1 in set 0, so 0, 2, 1, 2 give miss, eviction, miss, hit |
| CacheExamples.LeastRecentlyUsedIsEvicted | cache-lab/solution/csim.c:123-157 | one set of two lines: tags 10, 11, 10, 12 give miss, miss, hit, eviction, and the evicted block is 11, not 10 |
| CacheExamples.ModifyOnNewCache | cache-lab/solution/csim.c:158-164 | `M` on a new cache, for any geometry and address, is one miss and one hit |
| CacheSim.Cache.constructor | cache-lab/solution/csim.c:96-110 | `create_cache` allocates `2^s` fresh, distinct arrays of `E` lines, with every valid bit clear and all counters 0; the cache agrees with `CacheModel.NewCache` |
| CacheSim.Cache.HitCache | cache-lab/solution/csim.c:111 | `hits` grows by one and nothing else changes |
| CacheSim.Cache.MissCache | cache-lab/solution/csim.c:112 | `misses` grows by one and nothing else changes |
| CacheSim.Cache.EvictCache | cache-lab/solution/csim.c:113 | `evictions` grows by one and nothing else changes |
| CacheSim.Cache.SetAsMru | cache-lab/solution/csim.c:123-132 | the shifting loop leaves the set's array equal to `LruSet.MoveToFront` of its old contents; every other set and all counters are unchanged |
| CacheSim.Cache.Access | cache-lab/solution/csim.c:133-157 | the two scans and the in-place updates take the cache to the state and outcome that `CacheModel.Access` gives; only the addressed set's array is written |
| CacheSim.Cache.ProcessInstruction | cache-lab/solution/csim.c:158-164 | the cache reaches the state and outcomes that `CacheModel.Process` gives |
| CacheSim.Cache.RunTrace | cache-lab/solution/csim.c:53-55 | feeding a parsed trace entry by entry reaches the state and outcomes that `CacheModel.Run` gives, so `RunCounts` holds of the object's counters |
| Conflicts.CacheSet | cache-lab/solution/trans.c:183 | `(index / 8) & 31` names one of 32 sets |
| Conflicts.Conflict | cache-lab/solution/trans.c:183 | cell `A[r][c]`, at element offset `M * r + c`, and its destination `B[c][r]`, at offset `N * c + r`, fall in the same `CacheSet` (blocks of 8 `int`s, 32 sets); `Square128LosesCell` evaluates it on row 0 of a 128 x 128 matrix |
| Conflicts.CountPasses | cache-lab/solution/trans.c:184-190 | a conflicting cell raises the count seen by every later cell of its segment, so no two conflicting cells share a count |
| Conflicts.StoresAllWhenSegmentsFit | cache-lab/solution/trans.c:181-196 | when every segment has at most two conflicting cells, every cell of the matrix is stored |
| Conflicts.LosesCellWhenSegmentOverfull | cache-lab/solution/trans.c:184-190 | a segment with a third conflicting cell leaves some cell of the matrix unstored |
| Conflicts.StoresAllIffSegmentsFit | cache-lab/solution/trans.c:173-200 | `transpose_generic` stores every cell exactly when no 16-column segment of a row has more than two conflicting cells |
| Conflicts.Square128LosesCell | cache-lab/solution/trans.c:183-190 | on a 128 x 128 matrix, row 0 conflicts at columns 0, 2 and 4, so `A[0][4]` is not stored and the condition fails |
| Transpose.Trans | cache-lab/solution/trans.c:237-246 | `B` is the transpose of `A`; only `B` is written |
| Transpose.TransposeNaive | cache-lab/solution/trans.c:206-215 | for an even block inside both arrays, the block of `B` holds the transpose of the block of `A`, and every other cell of `B` is unchanged; `A` may be `B` if the blocks do not overlap |
| Transpose.CopyNaive | cache-lab/solution/trans.c:221-230 | under the same conditions, the block of `B` holds a copy of the block of `A`, and every other cell of `B` is unchanged |
| Transpose.DiagonalUpperRows | cache-lab/solution/trans.c:108-119 | the upper-left sub-block of `A` lands, transposed, in the lower-right sub-block of `B`; the upper-right sub-block lands in the lower-left sub-block, where it belongs; nothing else changes |
| Transpose.DiagonalLowerRows | cache-lab/solution/trans.c:127-138 | the lower-left sub-block of `A` lands in the upper-right sub-block of `B`, where it belongs; the lower-right sub-block lands, transposed, in the upper-left sub-block; nothing else changes |
| Transpose.SwapDiagonalSubBlocks | cache-lab/solution/trans.c:142-150 | the upper-left and lower-right 4 x 4 sub-blocks trade contents cell for cell; nothing else changes |
| Transpose.DiagonalBlock | cache-lab/solution/trans.c:100-150 | the three loops together leave the diagonal 8 x 8 block of `B` equal to the transpose of `A`'s block, and nothing else changes |
| Transpose.OffDiagonalBlock | cache-lab/solution/trans.c:151-158 | an off-diagonal 8 x 8 block, cut at the edges of the matrix, is stored transposed, and nothing else changes |
| Transpose.Transpose32 | cache-lab/solution/trans.c:95-162 | `B` is the transpose of `A` whenever the smaller dimension is a multiple of 8, which includes 32 x 32 |
| Transpose.GenericRowScan | cache-lab/solution/trans.c:180-194 | after the `dj` loop, `dj1` and `dj2` mark the first and second conflicting cells of the segment (or -1), and `temp1` and `temp2` hold their values; exactly the non-conflicting cells of the segment are stored |
| Transpose.HeldBackCell | cache-lab/solution/trans.c:184-196 | a conflicting cell with none (one) before it in its segment is the one held in `temp1` (`temp2`) |
| Transpose.GenericRow | cache-lab/solution/trans.c:177-197 | after the deferred writes, exactly the stored cells of row `r`'s segment hold `A`'s values, and every other cell of `B` is unchanged |
| Transpose.GenericTiles | cache-lab/solution/trans.c:173-200 | over all tiles, every stored cell of `B` holds `A`'s value, and every other cell keeps its old value |
| Transpose.TransposeGeneric | cache-lab/solution/trans.c:173-200 | `B[c][r]` holds `A[r][c]` for every stored cell and its old value for every dropped one; `B` is the transpose when no segment has more than two conflicts |
| Transpose.TransposeGenericCorrected | cache-lab/solution/trans.c:183-193 | with the third and later conflicting cells of a segment stored at once, `B` is the transpose of `A` for every shape |
| Transpose.TransposeSubmit | cache-lab/solution/trans.c:30-34 | 32 x 32 is handed to `transpose_32` and every other shape except 64 x 64 to `transpose_generic`: `B[c][r]` holds `A[r][c]` when the shape is 32 x 32 or the cell is stored, and its old value otherwise; `B` is the transpose for 32 x 32 and whenever no segment has more than two conflicts |
| Transpose.TransposeSubmitCorrected | cache-lab/solution/trans.c:30-34 | the same dispatch to the corrected generic routine: `B` is the transpose of `A` for every shape except 64 x 64 |

## Left out

- Argument parsing (`parse_args`, csim.c:67-90) is process I/O: `getopt`, `strtol`, usage text and `exit`.
- Opening and reading the trace file and `printSummary` (csim.c:44-60) are I/O, and
  `printSummary` lives in `cachelab.h`, which is not part of this model. The trace is taken as an
  already-parsed sequence of entries (`CacheModel.Entry`). A malformed line ends `main`'s loop; the
  model has no such line.
- Verbose output (csim.c:111-113, 160, 163) is `printf`. The outcome each access returns stands in
  for what verbose mode prints.
- `malloc`/`calloc`/`free` and `destroy_cache` (csim.c:96-122) are memory management. The tags
  that `malloc` leaves uninitialised are arbitrary in the constructor, and
  `CacheModel.FreshCachesAgree` shows that they never matter.
- `s`, `E` and `b` become the class's constant `g`; the `verbose` field is dropped with the verbose
  output.
- CacheSim.Cache.HitCache: `unsigned int` counters would wrap at `2^32`; the model counts with
  unbounded naturals, as it does in `MissCache`, `EvictCache` and `CacheModel.Tally`.
- Address.ValidGeometry: requires `s < 31`, because `1 << s` is an `int` shift. It also requires
  `s + b < 64`, because a shift by the full width of `unsigned long` is undefined in C. It requires
  `E >= 1`: `create_cache` and `access` never check `E`, and with `E = 0` a miss takes the eviction
  branch and writes line `E - 1`, which as an `unsigned int` is far outside the empty set.
- `transpose_64` (trans.c:44-85) is not modelled. Its scratch blocks in `B` can lie at row 64 of a
  64-row matrix, for example at `col = 56, row = 48`. It relies on storage beyond `B` that the
  grading driver provides and that is not part of this model.
- Transpose.TransposeSubmit and Transpose.TransposeSubmitCorrected: require that the matrix not be
  64 x 64, since that branch calls `transpose_64`.
- Transpose.Transpose32: requires the smaller dimension to be a multiple of 8. Otherwise the last
  diagonal block reaches outside the arrays. `transpose_submit` only calls it for 32 x 32.
- Transpose.TransposeNaive and Transpose.CopyNaive: require an even `block` (an odd one reads
  row `A_i + block`) and blocks inside the arrays. They are only called from `transpose_64`.
- Conflicts.Conflict: the products `M * (i + di)` are `int` arithmetic in C and could overflow for
  huge matrices; the model computes them exactly.
- `registerFunctions` (trans.c:255-262) registers the routines with a driver that is not part of
  this model.
- The cache misses the transposes cause are not modelled. trans.c never calls the simulator, so
  only what the routines store is.
- `bomb-lab/solution/scripts/binary_tree.py` is a debugger script (memory reads and printing) and
  is not part of this model.

## Findings

| source | as written | input that shows it | evidently intended | confidence | as-written member | corrected member |
|---|---|---|---|---|---|---|
| cache-lab/solution/trans.c:184-190 | a conflicting cell after the first two of its 16-column segment is neither held back nor stored, so its cell of `B` keeps whatever it held | `transpose_submit` on a 128 x 128 matrix: columns 0, 2 and 4 of row 0 all fall in the set of their destination, so `B[4][0]` never receives `A[0][4]` | every cell of `B` receives its value of `A` for every shape `transpose_submit` hands to the generic routine, for example by storing such a cell at once | not executed | Conflicts.Square128LosesCell | Transpose.TransposeSubmitCorrected |

`Transpose.TransposeGeneric` models the routine as written. Its contract says which cells it stores
(`Conflicts.Stored`), and `Conflicts.StoresAllIffSegmentsFit` gives the exact condition for a full
transpose. `Transpose.TransposeSubmit` dispatches to it as `transpose_submit` does, so its contract
carries the dropped cells. `Transpose.TransposeSubmitCorrected` dispatches to
`Transpose.TransposeGenericCorrected`, which stores such a cell at once, and gives the full transpose
for every shape except 64 x 64.
