/** The cache engine itself: the configuration checks of `cache_init`, the
    global cache (a 256-line array plus its geometry), the two probes with
    their LRU promotion, the two loaders, and `cache_access`, which
    combines them. Every `printAction` call is recorded in a ghost trace. */
module CacheEngine {
  import opened Codec
  import opened CacheSet
  import opened Memory
  import opened CacheView

  /** The kinds of transfer `printAction` reports. */
  datatype Action = CacheToProcessor | ProcessorToCache | MemoryToCache | CacheToMemory | CacheToNowhere

  /** One `printAction(address, size, type)` call. */
  datatype Event = Event(address: int, size: int, action: Action)

  /** Why `cache_init` stops the simulator. */
  datatype InitError = NonPositive | TooManyLines | BlockTooBig

  /** The outcome of `cache_init`'s checks: stop with an error, or go on,
      possibly warning about a block size or set count that is not a power
      of two. */
  datatype InitOutcome = Fatal(error: InitError) | Proceed(blockSizeWarning: bool, numSetsWarning: bool)

  /** The checks of `cache_init`, in the order it makes them. */
  function InitCheck(blockSize: int, numSets: int, blocksPerSet: int): (r: InitOutcome)
    ensures r == Fatal(NonPositive) <==> blockSize <= 0 || numSets <= 0 || blocksPerSet <= 0
    ensures r == Fatal(TooManyLines) <==>
      0 < blockSize && 0 < numSets && 0 < blocksPerSet && blocksPerSet * numSets > MAX_CACHE_SIZE
    ensures r == Fatal(BlockTooBig) <==>
      0 < blockSize && 0 < numSets && 0 < blocksPerSet && blocksPerSet * numSets <= MAX_CACHE_SIZE &&
      blockSize > MAX_BLOCK_SIZE
    ensures r.Proceed? ==>
      (r.blockSizeWarning <==> !IsPowerOf2(blockSize)) && (r.numSetsWarning <==> !IsPowerOf2(numSets))
  {
    if blockSize <= 0 || numSets <= 0 || blocksPerSet <= 0 then Fatal(NonPositive)
    else if blocksPerSet * numSets > MAX_CACHE_SIZE then Fatal(TooManyLines)
    else if blockSize > MAX_BLOCK_SIZE then Fatal(BlockTooBig)
    else Proceed(!IsPowerOf2(blockSize), !IsPowerOf2(numSets))
  }

  /** The configurations `cache_init` accepts without a warning are exactly
      the ones the address codec is defined for. */
  lemma InitAcceptsExactly(blockSize: int, numSets: int, blocksPerSet: int)
    ensures InitCheck(blockSize, numSets, blocksPerSet) == Proceed(false, false) <==>
      ConfigOk(Config(blockSize, numSets, blocksPerSet))
  {
  }

  /** A C `int`: 32-bit two's complement. */
  predicate IsInt32(x: int) {
    -0x8000_0000 <= x < 0x8000_0000
  }

  /** `x` wrapped around to a C `int`, as a 32-bit multiplication that
      overflows behaves on two's-complement hardware. */
  function Int32Wrap(x: int): (r: int)
    ensures IsInt32(r)
    ensures (x - r) % 0x1_0000_0000 == 0
  {
    var m := x % 0x1_0000_0000;
    if m >= 0x8000_0000 then m - 0x1_0000_0000 else m
  }

  /** A value that fits in a C `int` is left alone by the wrap-around. */
  lemma Int32WrapFits(x: int)
    requires IsInt32(x)
    ensures Int32Wrap(x) == x
  {
  }

  /** The checks of `cache_init` as written for C `int` parameters: the
      line count `blocksPerSet * numSets` is computed in 32 bits, so a
      product that overflows is compared after wrap-around. */
  function InitCheckAsWritten(blockSize: int, numSets: int, blocksPerSet: int): (r: InitOutcome)
    requires IsInt32(blockSize) && IsInt32(numSets) && IsInt32(blocksPerSet)
    ensures r == Fatal(NonPositive) <==> blockSize <= 0 || numSets <= 0 || blocksPerSet <= 0
    ensures r == Fatal(TooManyLines) <==>
      0 < blockSize && 0 < numSets && 0 < blocksPerSet && Int32Wrap(blocksPerSet * numSets) > MAX_CACHE_SIZE
    ensures r.Proceed? ==>
      Int32Wrap(blocksPerSet * numSets) <= MAX_CACHE_SIZE && blockSize <= MAX_BLOCK_SIZE &&
      (r.blockSizeWarning <==> !IsPowerOf2(blockSize)) && (r.numSetsWarning <==> !IsPowerOf2(numSets))
  {
    if blockSize <= 0 || numSets <= 0 || blocksPerSet <= 0 then Fatal(NonPositive)
    else if Int32Wrap(blocksPerSet * numSets) > MAX_CACHE_SIZE then Fatal(TooManyLines)
    else if blockSize > MAX_BLOCK_SIZE then Fatal(BlockTooBig)
    else Proceed(!IsPowerOf2(blockSize), !IsPowerOf2(numSets))
  }

  /** Whenever the line count fits in a C `int`, the checks as written
      and the intended checks agree. */
  lemma InitCheckAgrees(blockSize: int, numSets: int, blocksPerSet: int)
    requires IsInt32(blockSize) && IsInt32(numSets) && IsInt32(blocksPerSet)
    requires IsInt32(blocksPerSet * numSets)
    ensures InitCheckAsWritten(blockSize, numSets, blocksPerSet) == InitCheck(blockSize, numSets, blocksPerSet)
  {
    Int32WrapFits(blocksPerSet * numSets);
  }

  /** The overflow lets a geometry of 2^32 lines through: 4 sets of 2^30
      ways give a wrapped line count of 0, so the checks as written accept
      it without even a warning, while the intended checks reject it and
      the configuration is far beyond the 256-line array. */
  lemma InitOverflowAccepts()
    ensures InitCheckAsWritten(1, 4, 0x4000_0000) == Proceed(false, false)
    ensures InitCheck(1, 4, 0x4000_0000) == Fatal(TooManyLines)
    ensures !ConfigOk(Config(1, 4, 0x4000_0000))
  {
    assert IsPowerOf2(2);
    assert IsPowerOf2(4);
    assert Int32Wrap(0x4000_0000 * 4) == 0;
  }

  /** The memory calls of an access to `addr`: none on a hit; on a miss the
      write-back of a dirty victim, then the reads of `addr`'s block. */
  ghost function MissOps(c: Config, bl: seq<Block>, addr: int): seq<MemOp>
    requires CacheInv(c, bl) && 0 <= addr < MEMORY_WORDS
  {
    if Cached(c, bl, addr) then []
    else
      var s := SetIndVal(c, addr);
      var victim := SetOf(c, bl, s)[FillWay(c, bl, addr)];
      (if victim.valid && victim.dirty then WriteOps(MemAddrCalc(c, s, victim.tag), victim.data) else []) +
      ReadOps(StartAddrCalc(c, addr), c.blockSize)
  }

  /** The `printAction` calls of the loaders on an access to `addr`: none
      on a hit; the eviction, when the set is full, then the load. */
  ghost function MissEvents(c: Config, bl: seq<Block>, addr: int): seq<Event>
    requires CacheInv(c, bl) && 0 <= addr < MEMORY_WORDS
  {
    var load := Event(StartAddrCalc(c, addr), c.blockSize, MemoryToCache);
    var s := SetIndVal(c, addr);
    var L := SetOf(c, bl, s);
    if Cached(c, bl, addr) then []
    else if NumValid(L) < c.blocksPerSet then [load]
    else
      var victim := L[FillWay(c, bl, addr)];
      [Event(MemAddrCalc(c, s, victim.tag), c.blockSize, if victim.dirty then CacheToMemory else CacheToNowhere), load]
  }

  /** The two kinds of miss, spelt out: with an invalid way left, the
      first one is loaded and memory is only read; in a full set the first
      way of rank 0, which is valid, is evicted, and written back when
      dirty. */
  lemma MissCases(c: Config, bl: seq<Block>, words: seq<int>, addr: int)
    requires CacheInv(c, bl) && |words| == MEMORY_WORDS && 0 <= addr < MEMORY_WORDS && !Cached(c, bl, addr)
    ensures var s, t, start := SetIndVal(c, addr), TagVal(c, addr), StartAddrCalc(c, addr);
      var L := SetOf(c, bl, s);
      var f := FillWay(c, bl, addr);
      var load := Event(start, c.blockSize, MemoryToCache);
      if NumValid(L) < c.blocksPerSet then
        f == NumValid(L) && AccessWords(c, bl, words, addr) == words &&
        ProbeBlocks(c, bl, words, addr) == AfterFill(c, bl, words, addr, f) &&
        MissOps(c, bl, addr) == ReadOps(start, c.blockSize) && MissEvents(c, bl, addr) == [load]
      else
        var back := MemAddrCalc(c, s, L[f].tag);
        var words' := if L[f].dirty then StoreBlock(words, back, L[f].data) else words;
        f == FirstRankZero(L, 0) && L[f].valid && AccessWords(c, bl, words, addr) == words' &&
        ProbeBlocks(c, bl, words, addr) == AfterFill(c, bl, words', addr, f) &&
        MissOps(c, bl, addr) == (if L[f].dirty then WriteOps(back, L[f].data) else []) + ReadOps(start, c.blockSize) &&
        MissEvents(c, bl, addr) ==
          [Event(back, c.blockSize, if L[f].dirty then CacheToMemory else CacheToNowhere), load]
  {
    var L := SetOf(c, bl, SetIndVal(c, addr));
    if NumValid(L) >= c.blocksPerSet {
      VictimExists(L);
    }
  }

  /** The memory traffic of an access: nothing on a hit, one block read on
      a miss, plus one block written back when the evicted line is dirty.
      Every word read lies in `addr`'s block, and every word written lies
      in the victim's block. */
  lemma MissTraffic(c: Config, bl: seq<Block>, addr: int)
    requires CacheInv(c, bl) && 0 <= addr < MEMORY_WORDS
    ensures Cached(c, bl, addr) ==> MissOps(c, bl, addr) == []
    ensures !Cached(c, bl, addr) ==>
      var s, start := SetIndVal(c, addr), StartAddrCalc(c, addr);
      var victim := SetOf(c, bl, s)[FillWay(c, bl, addr)];
      var back := MemAddrCalc(c, s, victim.tag);
      var ops := MissOps(c, bl, addr);
      |ops| == (if victim.valid && victim.dirty then 2 * c.blockSize else c.blockSize) &&
      start <= addr < start + c.blockSize &&
      (forall op :: op in ops && op.Read? ==> start <= op.addr < start + c.blockSize) &&
      (forall op :: op in ops && op.Write? ==> victim.valid && victim.dirty && back <= op.addr < back + c.blockSize)
  {
    if !Cached(c, bl, addr) {
      var s, start := SetIndVal(c, addr), StartAddrCalc(c, addr);
      SetOfWf(c, bl, s);
      var victim := SetOf(c, bl, s)[FillWay(c, bl, addr)];
      var back := MemAddrCalc(c, s, victim.tag);
      DecomposeRoundTrip(c, addr);
      var loads := ReadOps(start, c.blockSize);
      var writes := if victim.valid && victim.dirty then WriteOps(back, victim.data) else [];
      assert MissOps(c, bl, addr) == writes + loads;
      forall op: MemOp | op in writes + loads
        ensures op.Read? ==> start <= op.addr < start + c.blockSize
        ensures op.Write? ==> victim.valid && victim.dirty && back <= op.addr < back + c.blockSize
      {
        var j :| 0 <= j < |writes + loads| && (writes + loads)[j] == op;
        assert j < |writes| ==> op == writes[j];
        assert j >= |writes| ==> op == loads[j - |writes|];
      }
    }
  }

  /** Right after an access to `addr`, a second access to `addr` hits: it
      makes no memory call and no loader reports anything. */
  lemma RepeatHits(c: Config, bl: seq<Block>, words: seq<int>, addr: int, write: bool, v: int)
    requires CacheInv(c, bl) && |words| == MEMORY_WORDS && Coherent(c, bl, words) && 0 <= addr < MEMORY_WORDS
    ensures var bl' := AccessBlocks(c, bl, words, addr, write, v);
      CacheInv(c, bl') && MissOps(c, bl', addr) == [] && MissEvents(c, bl', addr) == []
  {
    AccessCorrect(c, bl, words, addr, write, v);
  }

  /** The global `cache`: the line array and the geometry `cache_init`
      stores, with every `printAction` call recorded in `trace`. */
  class Cache {
    const blockSize: int
    const numSets: int
    const blocksPerSet: int
    const blocks: array<Block>
    /** The `printAction` calls so far, oldest first. */
    ghost var trace: seq<Event>

    function Conf(): Config {
      Config(blockSize, numSets, blocksPerSet)
    }

    /** The shape every state has. */
    ghost predicate Wf()
      reads blocks
    {
      blocks.Length == MAX_CACHE_SIZE && WfBlocks(Conf(), blocks[..])
    }

    /** The engine invariant, together with the memory it sits in front of. */
    ghost predicate Valid(mem: Memory)
      reads blocks, mem
    {
      blocks.Length == MAX_CACHE_SIZE && CacheInv(Conf(), blocks[..]) &&
      mem.Valid() && Coherent(Conf(), blocks[..], mem.words)
    }

    /** The word the processor sees at `a`. */
    ghost function ValueAt(mem: Memory, a: int): int
      requires Valid(mem) && 0 <= a < MEMORY_WORDS
      reads blocks, mem
    {
      ViewAt(Conf(), blocks[..], mem.words, a)
    }

    /** `cache_init` for a configuration its checks accept, with a block
        size and a set count that are powers of two. The line array is the
        zero-initialised global; every line is then marked invalid. */
    constructor Init(blockSize: int, numSets: int, blocksPerSet: int)
      requires InitCheck(blockSize, numSets, blocksPerSet).Proceed?
      requires IsPowerOf2(blockSize) && IsPowerOf2(numSets)
      ensures Conf() == Config(blockSize, numSets, blocksPerSet)
      ensures blocks.Length == MAX_CACHE_SIZE && fresh(blocks)
      ensures forall i :: 0 <= i < MAX_CACHE_SIZE ==>
        blocks[i] == Block(seq(blockSize, _ => 0), false, 0, 0, false)
      ensures trace == []
      ensures CacheInv(Conf(), blocks[..])
      ensures forall words :: |words| == MEMORY_WORDS ==> Coherent(Conf(), blocks[..], words)
    {
      this.blockSize := blockSize;
      this.numSets := numSets;
      this.blocksPerSet := blocksPerSet;
      var zero := Block(seq(blockSize, _ => 0), false, 0, 0, false);
      blocks := new Block[MAX_CACHE_SIZE](_ => zero);
      trace := [];
      new;
      for i := 0 to MAX_CACHE_SIZE
        invariant forall k :: 0 <= k < MAX_CACHE_SIZE ==> blocks[k] == zero
        invariant trace == []
      {
        blocks[i] := blocks[i].(valid := false);
      }
      EmptyCacheInv(Conf(), blocks[..], seq(MEMORY_WORDS, _ => 0));
      forall words | |words| == MEMORY_WORDS ensures Coherent(Conf(), blocks[..], words) {
        EmptyCacheInv(Conf(), blocks[..], words);
      }
    }

    /** The LRU update of a hit on way `w` of set `s`: the way gets the top
        rank and every way of the set ranked above its old rank moves down
        by one. */
    method PromoteWay(s: int, w: int)
      requires Wf() && 0 <= s < numSets && 0 <= w < blocksPerSet
      modifies blocks
      ensures blocks[..] == ReplaceSet(Conf(), old(blocks[..]), s, Promote(SetOf(Conf(), old(blocks[..]), s), w))
    {
      ghost var c, bl := Conf(), blocks[..];
      ghost var target := ReplaceSet(c, bl, s, Promote(SetOf(c, bl, s), w));
      SetOfAt(c, bl, s, w);
      PromoteSetAt(c, bl, s, w, s * blocksPerSet + w);
      var base := s * blocksPerSet;
      var indexI := base + w;
      var x := blocks[indexI].lruLabel;
      blocks[indexI] := blocks[indexI].(lruLabel := blocksPerSet - 1);
      var indexJ := base;
      for j := 0 to blocksPerSet
        invariant indexJ == base + j
        invariant forall k :: 0 <= k < MAX_CACHE_SIZE ==>
          blocks[k] == if base <= k < indexJ || k == indexI then target[k] else bl[k]
      {
        PromoteSetAt(c, bl, s, w, indexJ);
        if indexJ != indexI && blocks[indexJ].lruLabel > x {
          blocks[indexJ] := blocks[indexJ].(lruLabel := blocks[indexJ].lruLabel - 1);
        }
        assert blocks[indexJ] == target[indexJ];
        indexJ := indexJ + 1;
      }
      forall k | 0 <= k < MAX_CACHE_SIZE ensures blocks[k] == target[k] {
        PromoteSetAt(c, bl, s, w, k);
      }
    }

    /** The probe loop shared by both probes: the way of set `s` whose valid
        line holds `tag`, or `blocksPerSet` when there is none. */
    method Probe(s: int, tag: int) returns (w: int)
      requires Wf() && 0 <= s < numSets
      ensures w == FindWay(SetOf(Conf(), blocks[..], s), tag, 0)
    {
      ghost var L := SetOf(Conf(), blocks[..], s);
      var indexI := s * blocksPerSet;
      for i := 0 to blocksPerSet
        invariant indexI == s * blocksPerSet + i
        invariant forall k :: 0 <= k < i ==> !Holds(L[k], tag)
      {
        SetOfAt(Conf(), blocks[..], s, i);
        if blocks[indexI].valid && blocks[indexI].tag == tag {
          return i;
        }
        indexI := indexI + 1;
      }
      return blocksPerSet;
    }

    /** `cacheDataWF0`: a read probe. On a hit it returns the addressed word
        of the line and promotes the line; on a miss it changes nothing and
        `data` keeps the caller's value `dataIn`. */
    method LookupRead(addr: int, dataIn: int) returns (data: int, resolved: bool)
      requires Wf() && 0 <= addr < MEMORY_WORDS
      modifies this, blocks
      ensures var c, bl := Conf(), old(blocks[..]);
        var s := SetIndVal(c, addr);
        (resolved <==> Cached(c, bl, addr)) &&
        data == LineWord(SetOf(c, bl, s), TagVal(c, addr), BlockOffsetVal(c, addr), dataIn) &&
        blocks[..] == (if resolved then AfterHit(c, bl, addr, WayOf(c, bl, addr), false, 0) else bl) &&
        trace == old(trace) + (if resolved then [Event(addr, 1, CacheToProcessor)] else [])
    {
      ghost var c, bl := Conf(), blocks[..];
      var tag, setInd, blockOffset := TagVal(Conf(), addr), SetIndVal(Conf(), addr), BlockOffsetVal(Conf(), addr);
      SetOfWf(c, bl, setInd);
      SetStartIsProduct(blocksPerSet, setInd);
      var w := Probe(setInd, tag);
      data, resolved := dataIn, false;
      if w < blocksPerSet {
        resolved := true;
        data := blocks[setInd * blocksPerSet + w].data[blockOffset];
        trace := trace + [Event(addr, 1, CacheToProcessor)];
        PromoteWay(setInd, w);
      }
    }

    /** `cacheDataWF1`: a write probe. On a hit it stores `writeData` at the
        addressed word, marks the line dirty and promotes it; on a miss it
        changes nothing. */
    method LookupWrite(addr: int, writeData: int) returns (resolved: bool)
      requires Wf() && 0 <= addr < MEMORY_WORDS
      modifies this, blocks
      ensures var c, bl := Conf(), old(blocks[..]);
        (resolved <==> Cached(c, bl, addr)) &&
        blocks[..] == (if resolved then AfterHit(c, bl, addr, WayOf(c, bl, addr), true, writeData) else bl) &&
        trace == old(trace) + (if resolved then [Event(addr, 1, ProcessorToCache)] else [])
    {
      ghost var c, bl := Conf(), blocks[..];
      var tag, setInd, blockOffset := TagVal(Conf(), addr), SetIndVal(Conf(), addr), BlockOffsetVal(Conf(), addr);
      ghost var L := SetOf(c, bl, setInd);
      SetOfWf(c, bl, setInd);
      SetStartIsProduct(blocksPerSet, setInd);
      var w := Probe(setInd, tag);
      resolved := false;
      if w < blocksPerSet {
        resolved := true;
        var indexI := setInd * blocksPerSet + w;
        blocks[indexI] := blocks[indexI].(data := blocks[indexI].data[blockOffset := writeData], dirty := true);
        trace := trace + [Event(addr, 1, ProcessorToCache)];
        ghost var T := Touched(L, w, blockOffset, true, writeData);
        ReplaceSetOne(c, bl, setInd, w, T[w]);
        ReplaceSetOf(c, bl, setInd, T, setInd);
        ReplaceSetWf(c, bl, setInd, T);
        PromoteWay(setInd, w);
        ReplaceSetTwice(c, bl, setInd, T, Promote(T, w));
      }
    }

    /** The copy loop of both loaders: the `blockSize` words from `start` on
        are read one by one from memory into the data of line `index`. */
    method ReadBlock(index: int, start: int, mem: Memory)
      requires blocks.Length == MAX_CACHE_SIZE && 0 <= index < MAX_CACHE_SIZE && |blocks[index].data| == blockSize
      requires mem.Valid() && 0 <= start && start + blockSize <= MEMORY_WORDS
      modifies blocks, mem
      ensures mem.Valid() && mem.words == old(mem.words)
      ensures blocks[..] == old(blocks[..])[index := old(blocks[index]).(data := mem.words[start .. start + blockSize])]
      ensures mem.accesses == old(mem.accesses) + blockSize
      ensures mem.log == old(mem.log) + ReadOps(start, blockSize)
    {
      var startAddr := start;
      for j := 0 to blockSize
        invariant startAddr == start + j
        invariant mem.Valid() && mem.words == old(mem.words)
        invariant mem.accesses == old(mem.accesses) + j
        invariant mem.log == old(mem.log) + ReadOps(start, j)
        invariant blocks[index] == old(blocks[index]).(data := blocks[index].data)
        invariant |blocks[index].data| == blockSize
        invariant forall m :: 0 <= m < j ==> blocks[index].data[m] == mem.words[start + m]
        invariant forall k :: 0 <= k < MAX_CACHE_SIZE && k != index ==> blocks[k] == old(blocks[k])
      {
        var v := mem.Access(startAddr, false, 0);
        blocks[index] := blocks[index].(data := blocks[index].data[j := v]);
        startAddr := startAddr + 1;
      }
      assert blocks[index].data == mem.words[start .. start + blockSize];
    }

    /** The write-back loop of `memToCacheLoader_LRU`: the data of line
        `index` is written word by word to memory from `start` on. */
    method WriteBlock(index: int, start: int, mem: Memory)
      requires blocks.Length == MAX_CACHE_SIZE && 0 <= index < MAX_CACHE_SIZE && |blocks[index].data| == blockSize
      requires mem.Valid() && 0 <= start && start + blockSize <= MEMORY_WORDS
      modifies mem
      ensures mem.Valid() && mem.words == StoreBlock(old(mem.words), start, blocks[index].data)
      ensures mem.accesses == old(mem.accesses) + blockSize
      ensures mem.log == old(mem.log) + WriteOps(start, blocks[index].data)
    {
      var d := blocks[index].data;
      var memAddr := start;
      for j := 0 to blockSize
        invariant memAddr == start + j
        invariant mem.Valid() && mem.words == StoreBlock(old(mem.words), start, d[..j])
        invariant mem.accesses == old(mem.accesses) + j
        invariant mem.log == old(mem.log) + WriteOps(start, d[..j])
      {
        var _ := mem.Access(memAddr, true, d[j]);
        assert d[..j + 1][..j] == d[..j];
        memAddr := memAddr + 1;
      }
      assert d[..blockSize] == d;
    }

    /** The load both loaders end with: way `f` of `addr`'s set becomes a
        valid, clean line with `addr`'s tag, its words are read from
        memory, and the transfer is reported; the way keeps its rank. */
    method Refill(addr: int, f: int, mem: Memory)
      requires Wf() && mem.Valid() && 0 <= addr < MEMORY_WORDS && 0 <= f < blocksPerSet
      modifies this, blocks, mem
      ensures mem.Valid() && mem.words == old(mem.words)
      ensures var c, start := Conf(), StartAddrCalc(Conf(), addr);
        blocks[..] == AfterFill(c, old(blocks[..]), mem.words, addr, f) &&
        mem.accesses == old(mem.accesses) + blockSize &&
        mem.log == old(mem.log) + ReadOps(start, blockSize) &&
        trace == old(trace) + [Event(start, blockSize, MemoryToCache)]
    {
      ghost var c, bl := Conf(), blocks[..];
      var tag, setInd := TagVal(Conf(), addr), SetIndVal(Conf(), addr);
      ghost var L := SetOf(c, bl, setInd);
      SetOfWf(c, bl, setInd);
      SetStartIsProduct(blocksPerSet, setInd);
      var indexI := setInd * blocksPerSet + f;
      blocks[indexI] := blocks[indexI].(dirty := false, valid := true, tag := tag);
      var startAddr := StartAddrCalc(Conf(), addr);
      DecomposeRoundTrip(c, addr);
      ghost var d := FetchBlock(c, mem.words, setInd, tag);
      ReadBlock(indexI, startAddr, mem);
      trace := trace + [Event(StartAddrCalc(Conf(), addr), blockSize, MemoryToCache)];
      ReplaceSetOne(c, bl, setInd, f, Loaded(L[f], tag, d));
    }

    /** `memToCacheLoader_Empty`: loads `addr`'s block into the first
        invalid way of its set and reports whether there was one. */
    method LoadEmpty(addr: int, mem: Memory) returns (filled: bool)
      requires Wf() && mem.Valid() && 0 <= addr < MEMORY_WORDS
      modifies this, blocks, mem
      ensures mem.Valid() && mem.words == old(mem.words)
      ensures var c, bl := Conf(), old(blocks[..]);
        var L := SetOf(c, bl, SetIndVal(c, addr));
        var start := StartAddrCalc(c, addr);
        (filled <==> NumValid(L) < blocksPerSet) &&
        blocks[..] == (if filled then AfterFill(c, bl, mem.words, addr, NumValid(L)) else bl) &&
        mem.accesses == old(mem.accesses) + (if filled then blockSize else 0) &&
        mem.log == old(mem.log) + (if filled then ReadOps(start, blockSize) else []) &&
        trace == old(trace) + (if filled then [Event(start, blockSize, MemoryToCache)] else [])
    {
      ghost var L := SetOf(Conf(), blocks[..], SetIndVal(Conf(), addr));
      var setInd := SetIndVal(Conf(), addr);
      SetOfWf(Conf(), blocks[..], setInd);
      SetStartIsProduct(blocksPerSet, setInd);
      var indexI := setInd * blocksPerSet;
      for i := 0 to blocksPerSet
        invariant indexI == setInd * blocksPerSet + i
        invariant forall k :: 0 <= k < i ==> L[k].valid
      {
        if !blocks[indexI].valid {
          assert i == NumValid(L);
          Refill(addr, i, mem);
          return true;
        }
        indexI := indexI + 1;
      }
      return false;
    }

    /** The eviction step of `memToCacheLoader_LRU` for way `f` of set `s`:
        a dirty line is written back to the address its tag and set give
        and becomes clean; either way the eviction is reported. */
    method WriteBack(s: int, f: int, mem: Memory)
      requires Wf() && mem.Valid() && 0 <= s < numSets && 0 <= f < blocksPerSet
      modifies this, blocks, mem
      ensures mem.Valid()
      ensures var c, bl := Conf(), old(blocks[..]);
        var victim := SetOf(c, bl, s)[f];
        var back := MemAddrCalc(c, s, victim.tag);
        blocks[..] == ReplaceSet(c, bl, s, SetOf(c, bl, s)[f := victim.(dirty := false)]) &&
        mem.words == (if victim.dirty then StoreBlock(old(mem.words), back, victim.data) else old(mem.words)) &&
        mem.accesses == old(mem.accesses) + (if victim.dirty then blockSize else 0) &&
        mem.log == old(mem.log) + (if victim.dirty then WriteOps(back, victim.data) else []) &&
        trace == old(trace) + [Event(back, blockSize, if victim.dirty then CacheToMemory else CacheToNowhere)]
    {
      ghost var c, bl := Conf(), blocks[..];
      ghost var L := SetOf(c, bl, s);
      SetOfWf(c, bl, s);
      SetStartIsProduct(blocksPerSet, s);
      var indexI := s * blocksPerSet + f;
      ReplaceSetOne(c, bl, s, f, L[f].(dirty := false));
      if blocks[indexI].dirty {
        var memAddr := MemAddrCalc(Conf(), s, blocks[indexI].tag);
        ghost var _ := FetchBlock(c, mem.words, s, blocks[indexI].tag);
        WriteBlock(indexI, memAddr, mem);
        trace := trace + [Event(MemAddrCalc(Conf(), s, blocks[indexI].tag), blockSize, CacheToMemory)];
        blocks[indexI] := blocks[indexI].(dirty := false);
      } else {
        trace := trace + [Event(MemAddrCalc(Conf(), s, blocks[indexI].tag), blockSize, CacheToNowhere)];
      }
    }

    /** `memToCacheLoader_LRU`: evicts the first way of rank 0 of `addr`'s
        set, writing it back first when it is dirty, then loads `addr`'s
        block into it. Nothing happens when no way has rank 0. */
    method LoadEvict(addr: int, mem: Memory)
      requires Wf() && mem.Valid() && 0 <= addr < MEMORY_WORDS
      modifies this, blocks, mem
      ensures mem.Valid()
      ensures var c, bl, words := Conf(), old(blocks[..]), old(mem.words);
        var L := SetOf(c, bl, SetIndVal(c, addr));
        var v := FirstRankZero(L, 0);
        if v == blocksPerSet then
          blocks[..] == bl && mem.words == words && mem.accesses == old(mem.accesses) &&
          mem.log == old(mem.log) && trace == old(trace)
        else
          EvictedTo(c, bl, words, addr, v, blocks[..], mem.words, mem.accesses - old(mem.accesses),
            old(mem.log), mem.log, old(trace), trace)
    {
      ghost var c, bl := Conf(), blocks[..];
      var setInd := SetIndVal(Conf(), addr);
      ghost var L := SetOf(c, bl, setInd);
      SetOfWf(c, bl, setInd);
      SetStartIsProduct(blocksPerSet, setInd);
      var indexI := setInd * blocksPerSet;
      var victim := blocksPerSet;
      for i := 0 to blocksPerSet
        invariant indexI == setInd * blocksPerSet + i
        invariant forall k :: 0 <= k < i ==> L[k].lruLabel != 0
      {
        if blocks[indexI].lruLabel == 0 {
          victim := i;
          break;
        }
        indexI := indexI + 1;
      }
      assert victim == FirstRankZero(L, 0);
      if victim < blocksPerSet {
        Evict(addr, victim, mem);
      }
    }

    /** The outcome of evicting way `v` of the set of `addr` and loading the
        block of `addr` in its place, from lines `bl` and memory `words` to
        lines `bl'` and memory `words'`, with `n` memory accesses. */
    ghost predicate EvictedTo(c: Config, bl: seq<Block>, words: seq<int>, addr: int, v: int,
                              bl': seq<Block>, words': seq<int>, n: int,
                              log: seq<MemOp>, log': seq<MemOp>, tr: seq<Event>, tr': seq<Event>)
      requires WfBlocks(c, bl) && |words| == MEMORY_WORDS && 0 <= addr < MEMORY_WORDS
      requires 0 <= v < c.blocksPerSet
    {
      var s, start := SetIndVal(c, addr), StartAddrCalc(c, addr);
      var L := SetOf(c, bl, s);
      var back := MemAddrCalc(c, s, L[v].tag);
      |words'| == MEMORY_WORDS &&
      words' == (if L[v].dirty then StoreBlock(words, back, L[v].data) else words) &&
      bl' == AfterFill(c, bl, words', addr, v) &&
      n == (if L[v].dirty then 2 * c.blockSize else c.blockSize) &&
      log' == log + ((if L[v].dirty then WriteOps(back, L[v].data) else []) + ReadOps(start, c.blockSize)) &&
      tr' == tr +
        [Event(back, c.blockSize, if L[v].dirty then CacheToMemory else CacheToNowhere),
         Event(start, c.blockSize, MemoryToCache)]
    }

    /** The write-back and refill of `memToCacheLoader_LRU`: write way `v`
        back when it is dirty, then load the block of `addr` into it. */
    method Evict(addr: int, v: int, mem: Memory)
      requires Wf() && mem.Valid() && 0 <= addr < MEMORY_WORDS && 0 <= v < blocksPerSet
      modifies this, blocks, mem
      ensures mem.Valid()
      ensures EvictedTo(Conf(), old(blocks[..]), old(mem.words), addr, v, blocks[..], mem.words,
        mem.accesses - old(mem.accesses), old(mem.log), mem.log, old(trace), trace)
    {
      ghost var c, bl := Conf(), blocks[..];
      var setInd := SetIndVal(Conf(), addr);
      ghost var L := SetOf(c, bl, setInd);
      SetOfWf(c, bl, setInd);
      WriteBack(setInd, v, mem);
      ghost var L1 := L[v := L[v].(dirty := false)];
      ReplaceSetOf(c, bl, setInd, L1, setInd);
      ReplaceSetWf(c, bl, setInd, L1);
      ghost var log1 := mem.log;
      Refill(addr, v, mem);
      LogAppend(old(mem.log), log1[|old(mem.log)|..], ReadOps(StartAddrCalc(c, addr), blockSize));
      ReplaceSetTwice(c, bl, setInd, L1, L1[v := Loaded(L1[v], TagVal(c, addr), FetchBlock(c, mem.words, setInd, TagVal(c, addr)))]);
    }

    /** The miss handling of `cache_access`: the block of `addr` is loaded
        into an invalid way of its set when there is one, else into the
        least recently used way, after that way's write-back. */
    method Miss(addr: int, mem: Memory)
      requires Valid(mem) && 0 <= addr < MEMORY_WORDS && !Cached(Conf(), blocks[..], addr)
      modifies this, blocks, mem
      ensures mem.Valid()
      ensures var c, bl, words := Conf(), old(blocks[..]), old(mem.words);
        blocks[..] == ProbeBlocks(c, bl, words, addr) &&
        mem.words == AccessWords(c, bl, words, addr) &&
        mem.log == old(mem.log) + MissOps(c, bl, addr) &&
        mem.accesses == old(mem.accesses) + |MissOps(c, bl, addr)| &&
        trace == old(trace) + MissEvents(c, bl, addr)
    {
      ghost var c, bl, words := Conf(), blocks[..], mem.words;
      ghost var L := SetOf(c, bl, SetIndVal(c, addr));
      MissCases(c, bl, words, addr);
      var filled := LoadEmpty(addr, mem);
      if !filled {
        assert trace == old(trace) && mem.log == old(mem.log) && mem.words == words;
        ghost var f := FirstRankZero(L, 0);
        assert f < blocksPerSet;
        LoadEvict(addr, mem);
      }
    }

    /** The read branch of `cache_access`: probe; on a miss load the block
        and probe again; return the word the probe read. */
    method AccessRead(addr: int, mem: Memory) returns (data: int)
      requires Valid(mem) && 0 <= addr < MEMORY_WORDS
      modifies this, blocks, mem
      ensures Valid(mem)
      ensures var c, bl, words := Conf(), old(blocks[..]), old(mem.words);
        data == ViewAt(c, bl, words, addr) &&
        blocks[..] == AccessBlocks(c, bl, words, addr, false, 0) &&
        mem.words == AccessWords(c, bl, words, addr) &&
        mem.log == old(mem.log) + MissOps(c, bl, addr) &&
        mem.accesses == old(mem.accesses) + |MissOps(c, bl, addr)| &&
        trace == old(trace) + MissEvents(c, bl, addr) + [Event(addr, 1, CacheToProcessor)]
    {
      ghost var c, bl, words := Conf(), blocks[..], mem.words;
      AccessCorrect(c, bl, words, addr, false, 0);
      AccessReads(c, bl, words, addr, 0);
      var cacheResolved: bool;
      data, cacheResolved := LookupRead(addr, 0);
      if !cacheResolved {
        Miss(addr, mem);
        data, cacheResolved := LookupRead(addr, data);
      }
    }

    /** The write branch of `cache_access`: probe, storing `writeData` on a
        hit; on a miss load the block and probe again. */
    method AccessWrite(addr: int, writeData: int, mem: Memory)
      requires Valid(mem) && 0 <= addr < MEMORY_WORDS
      modifies this, blocks, mem
      ensures Valid(mem)
      ensures var c, bl, words := Conf(), old(blocks[..]), old(mem.words);
        blocks[..] == AccessBlocks(c, bl, words, addr, true, writeData) &&
        mem.words == AccessWords(c, bl, words, addr) &&
        mem.log == old(mem.log) + MissOps(c, bl, addr) &&
        mem.accesses == old(mem.accesses) + |MissOps(c, bl, addr)| &&
        trace == old(trace) + MissEvents(c, bl, addr) + [Event(addr, 1, ProcessorToCache)]
    {
      ghost var c, bl, words := Conf(), blocks[..], mem.words;
      AccessCorrect(c, bl, words, addr, true, writeData);
      var cacheResolved := LookupWrite(addr, writeData);
      if !cacheResolved {
        Miss(addr, mem);
        cacheResolved := LookupWrite(addr, writeData);
      }
    }

    /** `cache_access`: a read returns the word the processor sees at
        `addr`; a write stores `writeData` there and returns 0. Either way
        the view of every other word is unchanged, only `addr`'s set
        changes, and memory is called only on a miss. */
    method Access(addr: int, writeFlag: int, writeData: int, mem: Memory) returns (r: int)
      requires Valid(mem) && 0 <= addr < MEMORY_WORDS
      modifies this, blocks, mem
      ensures Valid(mem)
      ensures r == if writeFlag == 0 then old(ValueAt(mem, addr)) else 0
      ensures forall a :: 0 <= a < MEMORY_WORDS ==>
        ValueAt(mem, a) == if writeFlag != 0 && a == addr then writeData else old(ValueAt(mem, a))
      ensures forall s :: 0 <= s < numSets && s != SetIndVal(Conf(), addr) ==>
        SetOf(Conf(), blocks[..], s) == SetOf(Conf(), old(blocks[..]), s)
      ensures var c, bl, words := Conf(), old(blocks[..]), old(mem.words);
        blocks[..] == (if writeFlag == 0 then AccessBlocks(c, bl, words, addr, false, 0)
                       else AccessBlocks(c, bl, words, addr, true, writeData)) &&
        mem.words == AccessWords(c, bl, words, addr)
      ensures var c, bl, words := Conf(), old(blocks[..]), old(mem.words);
        var hit := Event(addr, 1, if writeFlag == 0 then CacheToProcessor else ProcessorToCache);
        mem.log == old(mem.log) + MissOps(c, bl, addr) &&
        mem.accesses == old(mem.accesses) + |MissOps(c, bl, addr)| &&
        trace == old(trace) + MissEvents(c, bl, addr) + [hit]
    {
      ghost var c, bl, words := Conf(), blocks[..], mem.words;
      AccessCorrect(c, bl, words, addr, writeFlag != 0, writeData);
      if writeFlag == 0 {
        AccessCorrect(c, bl, words, addr, false, 0);
        r := AccessRead(addr, mem);
      } else {
        AccessWrite(addr, writeData, mem);
        r := 0;
      }
    }
  }
}
