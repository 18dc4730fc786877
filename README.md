# A verified model of the LC-2K cache simulator's cache engine

`cache.c` implements a write-back, write-allocate, set-associative cache with
LRU replacement. It sits between an LC-2K processor simulator and a
word-addressable memory of 65536 words. This project models its engine in
Dafny:

- **the address codec** (`tagVal`, `setIndVal`, `blockOffsetVal`,
  `startAddrCalc`, `memAddrCalc`) as pure functions of the configuration and
  the address;
- **`cache_init`**, as its checks (a function that returns the error or the
  warnings) and as the constructor of the global cache;
- **the two probes**, `cacheDataWF0` (read) and `cacheDataWF1` (write), each
  with its LRU promotion loop;
- **the two loaders**, `memToCacheLoader_Empty` (fill the first invalid way)
  and `memToCacheLoader_LRU` (evict the way of rank 0, with a write-back when
  it is dirty);
- **`cache_access`**, which combines them.

Files:

- `codec.dfy` (module `Codec`) — the configuration and the address split.
  Shifts and masks are written bit by bit and proved equal to division,
  multiplication and remainder by powers of two. The two round trips are
  proved: address to (tag, set, offset) and back, and (set, tag, offset) to
  address and back.
- `memory.dfy` (module `Memory`) — the backing memory that `mem_access` and
  `get_num_mem_accesses` stand for. It is a class with the words, the access
  counter and a ghost log of every call.
- `cacheset.dfy` (module `CacheSet`) — one set as a sequence of lines, and the
  searches the engine makes over it:
  - the hit way;
  - the first invalid way;
  - the first way of rank 0;
  - LRU promotion.

  It also holds the per-set invariant the engine keeps: valid ways form a
  prefix, valid ways carry distinct ranks `n-k .. n-1`, invalid ways carry
  rank 0, and no tag is valid twice. The file proves that hits, empty-way
  fills and evictions preserve this invariant, and that a full set always has
  a valid victim of rank 0.
- `cacheview.dfy` (module `CacheView`) — the flat 256-line array seen as sets.
  It defines what the processor sees at each address: the cached word when the
  block is cached, memory's word otherwise. It also defines coherence: clean
  lines agree with memory. Specification functions describe the array and the
  memory after one whole access. `AccessCorrect` proves that an access keeps
  every invariant and changes the processor's view exactly at a stored word.
- `cacheengine.dfy` (module `CacheEngine`) — the global `cache` as a class
  over an `array<Block>`. It holds the probes, the loaders and `cache_access`
  as methods with their loops, each proved against the specification functions
  above. Each `printAction` call is recorded as an event in a ghost trace.

## Model

| member | source | states |
|---|---|---|
| Codec.TagVal | cache.c:111-116 | the tag of an address is below `2^tagBits`, the number of distinct tags |
| Codec.SetIndVal | cache.c:118-123 | the set index of an address is below `numSets` |
| Codec.BlockOffsetVal | cache.c:125-130 | the block offset of an address is below `blockSize` |
| Codec.ConfigBits | cache.c:112-113 | for an accepted power-of-two configuration, `log2(blockSize)` and `log2(numSets)` are at most 8, and 2 to their power gives the sizes back |
| Codec.AddressSpace | cache.c:114 | tags, sets and offsets together span exactly the 16-bit address space: `2^tagBits * numSets * blockSize == 65536` |
| Codec.DecomposeRoundTrip | cache.c:132-142 | `startAddrCalc(addr) + blockOffsetVal(addr) == addr`, and `memAddrCalc(setIndVal(addr), tagVal(addr)) == startAddrCalc(addr)` |
| Codec.ComposeRoundTrip | cache.c:138-142 | every word `memAddrCalc(s, t) + j` of a block lies in memory and splits back into tag `t`, set `s` and offset `j`, so blocks of different (set, tag) pairs never overlap |
| Memory.Memory.Access | cache.c:20-28 | `mem_access`: a write stores the word, the call returns the addressed word, and the counter and the call log each grow by one |
| CacheSet.FindWay | cache.c:151-153 | the probe's way is the first valid way holding the tag; no earlier way holds it; `blocksPerSet` when none does |
| CacheSet.FirstInvalid | cache.c:213-214 | the empty-way loader's way is the first invalid way; every earlier way is valid |
| CacheSet.FirstRankZero | cache.c:237-238 | the eviction loop's way is the first way of rank 0; no earlier way has rank 0 |
| CacheSet.PromoteOrder | cache.c:158-166 | promotion puts the hit way above every other valid way and keeps the relative order of the other valid ways |
| CacheSet.PromoteShape | cache.c:158-166 | promotion changes ranks only: the number of valid ways, the valid prefix and tag uniqueness are kept |
| CacheSet.PromoteRanks | cache.c:158-166 | from a rank layout where the ways above the hit way can move down, promotion yields valid ranks `n-k .. n-1` that are pairwise distinct, with invalid ways at rank 0 |
| CacheSet.HitKeepsInv | cache.c:158-166 | a hit on a valid way keeps the per-set invariant (valid prefix, rank layout, unique tags) |
| CacheSet.ValidRanksExact | cache.c:158-166 | with `k` valid ways, their ranks are exactly the set `n-k .. n-1` |
| CacheSet.FullSetRanksPermutation | cache.c:236-238 | in a full set the ranks are a permutation of `0 .. n-1` |
| CacheSet.VictimExists | cache.c:236-238 | a full, non-empty set always has a way of rank 0, and that way is valid |
| CacheSet.FillEmptyKeepsInv | cache.c:213-224 | loading a missing tag into the first invalid way adds one valid way; the re-probe hits that way, and promoting it keeps the per-set invariant |
| CacheSet.EvictKeepsInv | cache.c:236-258 | in a full set, replacing the rank-0 way with a missing tag keeps the set full; the re-probe hits that way, and promoting it keeps the per-set invariant |
| CacheSet.HitLineView | cache.c:151-166 | after a hit and its promotion, every probe finds the same way as before; a write changes exactly the stored word, and exactly the hit block becomes dirty |
| CacheSet.FillLineView | cache.c:213-222 | after a fill, the set shows the loaded data for the new tag and nothing for the evicted tag, with every other block unchanged; the new line is clean |
| CacheView.InOwnBlock | cache.c:132-142 | an address lies at its own offset in the block that its set index and tag name |
| CacheView.StoreBlockElsewhere | cache.c:240-244 | a write-back changes no memory word outside the victim's block |
| CacheView.StoreBlockInside | cache.c:240-244 | a write-back puts each word of the line at its own address |
| CacheView.FetchBlockAt | cache.c:218-222 | a loaded block holds memory's word for every address in the block |
| CacheView.ProbeHitViewAt | cache.c:151-204 | a hit on `addr`: a read changes no word the processor sees, a write changes exactly the word at `addr`, and clean lines stay equal to memory |
| CacheView.ProbeHitView | cache.c:151-204 | the same, for all addresses at once; the line array keeps its shape and stays coherent |
| CacheView.ProbeHitInv | cache.c:151-204 | a hit whose promotion keeps its set's invariant leaves every set's invariant intact |
| CacheView.FillViewAt | cache.c:239-257 | a fill with its write-back changes no word the processor sees, and clean lines stay equal to the new memory |
| CacheView.FillStep | cache.c:207-262 | a fill keeps the view and coherence; the re-probe hits the filled way, and promoting it restores the set's invariant |
| CacheView.FillStepView | cache.c:239-257 | a fill keeps the line array's shape, coherence and every word of the view |
| CacheView.FillStepInv | cache.c:207-262 | after a fill the re-probe hits the filled way, the other sets keep their invariant, and promotion restores the filled set's invariant |
| CacheView.AfterFillHits | cache.c:289-296 | after any fill of `addr`'s block, the probe for `addr` hits the filled way |
| CacheView.EmptyCacheShowsMemory | cache.c:103-105 | with every line invalid, the processor sees memory and no address is dirty |
| CacheView.EmptyCacheInv | cache.c:99-105 | a cache whose lines are all invalid at rank 0 satisfies every invariant and is coherent with any memory |
| CacheView.FillWay | cache.c:207-262 | the way a miss fills is the first invalid way, or the first way of rank 0 when the set is full |
| CacheView.ProbeBlocks | cache.c:284-310 | after the loaders of a miss, the array keeps its shape and `addr`'s block is cached |
| CacheView.ProbeBlocksFacts | cache.c:284-310 | before the final probe, the view is unchanged, clean lines match memory, other sets are untouched, and promoting the hit way restores the set's invariant |
| CacheView.AccessReads | cache.c:284-296 | the final probe of a read returns the word the processor saw at `addr` before the access |
| CacheView.AccessCorrect | cache.c:275-311 | an access keeps every invariant and coherence, and leaves `addr`'s block cached; the view is unchanged except for a stored word, and no other set changes |
| CacheEngine.InitCheck | cache.c:76-93 | `cache_init` fails on a non-positive parameter, on more than 256 lines, or on blocks over 256 words, in that order; otherwise it warns exactly when `blockSize` or `numSets` is not a power of two |
| CacheEngine.Int32Wrap | cache.c:80 | a product wrapped to a C `int` lies in the 32-bit range and differs from the exact product by a multiple of `2^32` |
| CacheEngine.Int32WrapFits | cache.c:80 | a value that fits in a C `int` is unchanged by the wrap-around |
| CacheEngine.InitCheckAsWritten | cache.c:76-93 | the checks of `cache_init` with the line count computed in 32-bit `int`: the same three errors and warnings, with the line-count test made on the wrapped product |
| CacheEngine.InitCheckAgrees | cache.c:80 | whenever `blocksPerSet * numSets` fits in an `int`, the checks as written and the intended checks give the same outcome |
| CacheEngine.InitOverflowAccepts | cache.c:80 | 4 sets of `2^30` ways wrap to a line count of 0: the checks as written accept them without a warning, while the intended checks reject them and the codec does not support them |
| CacheEngine.InitAcceptsExactly | cache.c:76-93 | the checks pass with no warning exactly when the configuration is one the address codec supports |
| CacheEngine.MissCases | cache.c:207-262 | with an invalid way left, a miss fills the first one and only reads memory; in a full set it evicts the first valid way of rank 0, writes it back only when dirty, and reports `cacheToMemory` or `cacheToNowhere` before `memoryToCache` |
| CacheEngine.MissTraffic | cache.c:239-257 | a hit calls memory 0 times; a miss reads `blockSize` words, all inside `addr`'s block, and writes `blockSize` more only when the victim is valid and dirty, all inside the victim's block |
| CacheEngine.RepeatHits | cache.c:284-288 | right after an access to `addr`, a second access to `addr` hits: no memory call and no loader event |
| CacheEngine.Cache.Init | cache.c:99-105 | the geometry equals the arguments, all 256 lines are invalid (the zero-initialised global), the trace is empty, every invariant holds, and the cache is coherent with any memory |
| CacheEngine.Cache.PromoteWay | cache.c:158-166 | the promotion loop leaves the array equal to the array with the set replaced by its promotion |
| CacheEngine.Cache.Probe | cache.c:151-153 | the probe loop returns the hit way of the specification search |
| CacheEngine.Cache.LookupRead | cache.c:144-173 | `cacheDataWF0` resolves exactly when the block is cached; it returns the cached word and promotes the way on a hit and emits one `cacheToProcessor`; on a miss it changes nothing and `data` keeps its value |
| CacheEngine.Cache.LookupWrite | cache.c:175-205 | `cacheDataWF1` resolves exactly when the block is cached; on a hit it stores the word, marks the line dirty, promotes the way and emits one `processorToCache`; on a miss it changes nothing |
| CacheEngine.Cache.ReadBlock | cache.c:218-222 | the copy loop reads the block's words in rising address order: exactly `blockSize` reads, with memory unchanged |
| CacheEngine.Cache.WriteBlock | cache.c:240-244 | the write-back loop stores the line's words at consecutive addresses: exactly `blockSize` writes |
| CacheEngine.Cache.Refill | cache.c:215-223 | the loaded way becomes valid and clean with the new tag and memory's block; one `memoryToCache` event |
| CacheEngine.Cache.LoadEmpty | cache.c:207-229 | `memToCacheLoader_Empty` returns true exactly when the set has an invalid way and then fills the first one; otherwise nothing changes |
| CacheEngine.Cache.WriteBack | cache.c:239-249 | a dirty victim is written to `memAddrCalc(set, tag)` and becomes clean, with `cacheToMemory`; a clean one costs no memory call and reports `cacheToNowhere` |
| CacheEngine.Cache.Evict | cache.c:239-257 | the eviction of a way and the refill that follows: memory, lines, access count, call log and trace afterwards |
| CacheEngine.Cache.LoadEvict | cache.c:231-262 | `memToCacheLoader_LRU` evicts the first way of rank 0 as `Evict` states, and changes nothing when no way has rank 0 |
| CacheEngine.Cache.Miss | cache.c:289-296 | the loaders of a miss produce exactly the specified array, memory, memory calls and events |
| CacheEngine.Cache.AccessRead | cache.c:284-297 | a read returns the word the processor saw at `addr`; it keeps every invariant and performs exactly the specified memory calls and events |
| CacheEngine.Cache.AccessWrite | cache.c:298-310 | a write leaves the specified array and memory, keeps every invariant, and performs exactly the specified memory calls and events |
| CacheEngine.Cache.Access | cache.c:275-311 | `cache_access` returns the visible word on a read and 0 on a write. The new line array and memory are exactly those of the specified access. The visible memory changes exactly at a stored word, only `addr`'s set changes, every invariant holds afterwards, and memory is called only on a miss |

## Left out

- CacheEngine.InitCheck: computes `blocksPerSet * numSets` exactly, which is the intended check. The source multiplies two C `int`s, which can overflow and let huge geometries through. That behaviour is modelled separately as `CacheEngine.InitCheckAsWritten`; see "## Findings". `CacheEngine.Cache.Init` requires the intended check to pass.
- Printing. `printAction` calls become events in a ghost trace. The `printf` text of `cache_init`, `printCache` and `printStats` is not modelled.
- `exit(1)` in `cache_init` is modelled as the `Fatal` outcome of `InitCheck`, not as process termination.
- CacheEngine.Cache.Init: requires `blockSize` and `numSets` to be powers of two. The source only warns about other sizes, and then computes with a truncated floating-point `log2`. That behaviour and floating point in general are not modelled.
- The `is_power_of_2` bit trick is modelled by its meaning: exactly one bit set.
- `mem_access` and `get_num_mem_accesses` are external. Memory is modelled by their documented behaviour: a write stores the word, each call returns the addressed word, and each call counts one access.
- Memory words are unbounded integers. The source's 32-bit `int` words are only stored and returned, never computed with, so wrap-around does not arise.
- Every operation requires `0 <= addr < 65536`. The source documents addresses as 16-bit word addresses and never checks them.
- CacheEngine.Cache.LookupRead: the caller's uninitialised `data` is modelled as the input `dataIn`, returned unchanged on a miss. `AccessRead` passes 0, which is never returned, because the probe after a fill always hits.
- The physical padding of `data[MAX_BLOCK_SIZE]` is not modelled: a line's data has exactly `blockSize` words.
- Lines beyond `numSets * blocksPerSet` are not modelled individually. They stay invalid and untouched, and only their shape is kept.
- CacheView.AfterWriteBack: writes the victim back when it is valid and dirty, while the source tests only `dirty`. The two agree because an eviction only happens in a full set, where the victim is valid (`CacheSet.VictimExists`).
- The simulator driver, `main` and the `printAction` implementation are not part of this model.

## Findings

| source | as written | input that shows it | evidently intended | confidence | as-written member | corrected member |
|---|---|---|---|---|---|---|
| cache.c:80 | `blocksPerSet * numSets > MAX_CACHE_SIZE` multiplies two 32-bit `int`s, so a product of `2^32` or more wraps around before the comparison (signed overflow, which wraps on two's-complement hardware) | `blockSize = 1`, `numSets = 4`, `blocksPerSet = 2^30`: the product wraps to 0, so `cache_init` accepts a cache of `2^32` lines with no error or warning | reject every geometry with more than 256 lines | not executed; the wrapped result assumes two's-complement wrap-around of undefined behaviour | CacheEngine.InitOverflowAccepts | CacheEngine.InitAcceptsExactly |
