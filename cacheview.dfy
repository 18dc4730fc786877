/** The whole line array (`cache.blocks`) as a value, the memory contents
    the processor sees through the cache, and the facts that each step of
    an access keeps that view and the engine's invariants. */
module CacheView {
  import opened Codec
  import opened CacheSet
  import opened Memory

  /** Shape facts every state of the engine has: a valid configuration,
      the 256-line array, blocks of `blockSize` words and tags that fit in
      the tag field (all lines start with tag 0 and are only ever given a
      tag computed by `TagVal`). */
  ghost predicate WfBlocks(c: Config, bl: seq<Block>) {
    ConfigOk(c) && |bl| == MAX_CACHE_SIZE &&
    forall i :: 0 <= i < |bl| ==> |bl[i].data| == c.blockSize && 0 <= bl[i].tag < TagLimit(c)
  }

  /** `s * n`, the index of the first line of set `s` when every set has
      `n` ways, as a running sum. */
  function SetStart(n: nat, s: nat): nat {
    if s == 0 then 0 else SetStart(n, s - 1) + n
  }

  lemma {:induction false} SetStartIsProduct(n: nat, s: nat)
    ensures SetStart(n, s) == s * n
  {
    if s != 0 {
      SetStartIsProduct(n, s - 1);
    }
  }

  lemma {:induction false} SetStartMono(n: nat, s: nat, s': nat)
    requires s < s'
    ensures SetStart(n, s) + n <= SetStart(n, s')
    decreases s'
  {
    if s + 1 < s' {
      SetStartMono(n, s, s' - 1);
    }
  }

  /** Set `s` occupies lines `SetStart(blocksPerSet, s) ..`, inside the array. */
  lemma SetBase(c: Config, s: int)
    requires ConfigOk(c) && 0 <= s < c.numSets
    ensures SetStart(c.blocksPerSet, s) + c.blocksPerSet <= MAX_CACHE_SIZE
  {
    SetStartMono(c.blocksPerSet, s, c.numSets);
    SetStartIsProduct(c.blocksPerSet, c.numSets);
  }

  /** Distinct sets occupy disjoint parts of the array. */
  lemma SetsDisjoint(n: nat, s: nat, s': nat, w: int, w': int)
    requires s != s' && 0 <= w < n && 0 <= w' < n
    ensures SetStart(n, s) + w != SetStart(n, s') + w'
  {
    if s < s' {
      SetStartMono(n, s, s');
    } else {
      SetStartMono(n, s', s);
    }
  }

  ghost function SetOf(c: Config, bl: seq<Block>, s: int): (lines: seq<Block>)
    requires ConfigOk(c) && |bl| == MAX_CACHE_SIZE && 0 <= s < c.numSets
    ensures |lines| == c.blocksPerSet
  {
    SetBase(c, s);
    bl[SetStart(c.blocksPerSet, s) .. SetStart(c.blocksPerSet, s) + c.blocksPerSet]
  }

  /** The array with set `s` replaced by `lines`. */
  ghost function ReplaceSet(c: Config, bl: seq<Block>, s: int, lines: seq<Block>): seq<Block>
    requires ConfigOk(c) && |bl| == MAX_CACHE_SIZE && 0 <= s < c.numSets && |lines| == c.blocksPerSet
  {
    var base := SetStart(c.blocksPerSet, s);
    seq(|bl|, i requires 0 <= i < |bl| =>
      if base <= i < base + c.blocksPerSet then lines[i - base] else bl[i])
  }

  /** Replacing one set changes that set only. */
  lemma ReplaceSetOf(c: Config, bl: seq<Block>, s: int, lines: seq<Block>, s': int)
    requires ConfigOk(c) && |bl| == MAX_CACHE_SIZE && 0 <= s < c.numSets && |lines| == c.blocksPerSet
    requires 0 <= s' < c.numSets
    ensures |ReplaceSet(c, bl, s, lines)| == MAX_CACHE_SIZE
    ensures SetOf(c, ReplaceSet(c, bl, s, lines), s') == if s' == s then lines else SetOf(c, bl, s')
  {
    SetBase(c, s);
    SetBase(c, s');
    var r := ReplaceSet(c, bl, s, lines);
    var n := c.blocksPerSet;
    if s' != s {
      forall w | 0 <= w < n
        ensures SetOf(c, r, s')[w] == SetOf(c, bl, s')[w]
      {
        var i := SetStart(n, s') + w;
        if SetStart(n, s) <= i < SetStart(n, s) + n {
          SetsDisjoint(n, s', s, w, i - SetStart(n, s));
        }
      }
    }
  }

  /** The lines of a set are lines of the array, so they have its shape. */
  lemma SetOfWf(c: Config, bl: seq<Block>, s: int)
    requires WfBlocks(c, bl) && 0 <= s < c.numSets
    ensures SetStart(c.blocksPerSet, s) + c.blocksPerSet <= MAX_CACHE_SIZE
    ensures forall w :: 0 <= w < c.blocksPerSet ==>
      SetOf(c, bl, s)[w] == bl[SetStart(c.blocksPerSet, s) + w] &&
      |SetOf(c, bl, s)[w].data| == c.blockSize && 0 <= SetOf(c, bl, s)[w].tag < TagLimit(c)
  {
    SetBase(c, s);
  }

  /** Way `w` of set `s` is line `s * blocksPerSet + w` of the array. */
  lemma SetOfAt(c: Config, bl: seq<Block>, s: int, w: int)
    requires ConfigOk(c) && |bl| == MAX_CACHE_SIZE && 0 <= s < c.numSets && 0 <= w < c.blocksPerSet
    ensures SetStart(c.blocksPerSet, s) == s * c.blocksPerSet
    ensures s * c.blocksPerSet + w < MAX_CACHE_SIZE && SetOf(c, bl, s)[w] == bl[s * c.blocksPerSet + w]
  {
    SetBase(c, s);
    SetStartIsProduct(c.blocksPerSet, s);
  }

  /** Line `k` after way `w` of set `s` has been promoted, in terms of the
      lines before: the line-by-line effect of the promotion loop. */
  lemma PromoteSetAt(c: Config, bl: seq<Block>, s: int, w: int, k: int)
    requires ConfigOk(c) && |bl| == MAX_CACHE_SIZE && 0 <= s < c.numSets && 0 <= w < c.blocksPerSet
    requires 0 <= k < MAX_CACHE_SIZE
    ensures SetStart(c.blocksPerSet, s) == s * c.blocksPerSet
    ensures SetStart(c.blocksPerSet, s) + c.blocksPerSet <= MAX_CACHE_SIZE
    ensures var base := SetStart(c.blocksPerSet, s);
      ReplaceSet(c, bl, s, Promote(SetOf(c, bl, s), w))[k] ==
        if !(base <= k < base + c.blocksPerSet) then bl[k]
        else if k == base + w then bl[k].(lruLabel := c.blocksPerSet - 1)
        else if bl[k].lruLabel > bl[base + w].lruLabel then bl[k].(lruLabel := bl[k].lruLabel - 1)
        else bl[k]
  {
    SetBase(c, s);
    SetStartIsProduct(c.blocksPerSet, s);
    var base := SetStart(c.blocksPerSet, s);
    var L := SetOf(c, bl, s);
    assert L[w] == bl[base + w];
    if base <= k < base + c.blocksPerSet {
      assert L[k - base] == bl[k];
    }
  }

  /** A replacement that keeps every line's data length and tag range
      keeps the shape facts. */
  lemma ReplaceSetWf(c: Config, bl: seq<Block>, s: int, lines: seq<Block>)
    requires WfBlocks(c, bl) && 0 <= s < c.numSets && |lines| == c.blocksPerSet
    requires forall w :: 0 <= w < |lines| ==> |lines[w].data| == c.blockSize && 0 <= lines[w].tag < TagLimit(c)
    ensures WfBlocks(c, ReplaceSet(c, bl, s, lines))
  {
    SetBase(c, s);
  }

  /** Replacing one way of a set is a single update of the array. */
  lemma ReplaceSetOne(c: Config, bl: seq<Block>, s: int, f: int, b: Block)
    requires ConfigOk(c) && |bl| == MAX_CACHE_SIZE && 0 <= s < c.numSets && 0 <= f < c.blocksPerSet
    ensures SetStart(c.blocksPerSet, s) + f < MAX_CACHE_SIZE
    ensures ReplaceSet(c, bl, s, SetOf(c, bl, s)[f := b]) == bl[SetStart(c.blocksPerSet, s) + f := b]
  {
    SetBase(c, s);
  }

  /** Replacing a set twice keeps the second replacement only. */
  lemma ReplaceSetTwice(c: Config, bl: seq<Block>, s: int, lines: seq<Block>, lines': seq<Block>)
    requires ConfigOk(c) && |bl| == MAX_CACHE_SIZE && 0 <= s < c.numSets
    requires |lines| == c.blocksPerSet && |lines'| == c.blocksPerSet
    ensures ReplaceSet(c, ReplaceSet(c, bl, s, lines), s, lines') == ReplaceSet(c, bl, s, lines')
  {
  }

  /** The words of the block with tag `t` in set `s`, as memory holds them. */
  ghost function FetchBlock(c: Config, words: seq<int>, s: int, t: int): (d: seq<int>)
    requires ConfigOk(c) && |words| == MEMORY_WORDS && 0 <= s < c.numSets && 0 <= t < TagLimit(c)
    ensures |d| == c.blockSize
    ensures 0 <= MemAddrCalc(c, s, t) && MemAddrCalc(c, s, t) + c.blockSize <= MEMORY_WORDS
  {
    ComposeRoundTrip(c, s, t, 0);
    ComposeRoundTrip(c, s, t, c.blockSize - 1);
    words[MemAddrCalc(c, s, t) .. MemAddrCalc(c, s, t) + c.blockSize]
  }

  /** The way of `addr`'s set that holds `addr`'s block, or `blocksPerSet`. */
  ghost function WayOf(c: Config, bl: seq<Block>, addr: int): nat
    requires ConfigOk(c) && |bl| == MAX_CACHE_SIZE && 0 <= addr < MEMORY_WORDS
  {
    FindWay(SetOf(c, bl, SetIndVal(c, addr)), TagVal(c, addr), 0)
  }

  ghost predicate Cached(c: Config, bl: seq<Block>, addr: int)
    requires ConfigOk(c) && |bl| == MAX_CACHE_SIZE && 0 <= addr < MEMORY_WORDS
  {
    WayOf(c, bl, addr) < c.blocksPerSet
  }

  /** `addr` sits in a valid line the processor has written since its load. */
  ghost predicate DirtyAt(c: Config, bl: seq<Block>, addr: int)
    requires ConfigOk(c) && |bl| == MAX_CACHE_SIZE && 0 <= addr < MEMORY_WORDS
  {
    LineDirty(SetOf(c, bl, SetIndVal(c, addr)), TagVal(c, addr))
  }

  /** The word the processor sees at `addr`: the cached copy when `addr`'s
      block is in the cache, memory's word otherwise. */
  ghost function ViewAt(c: Config, bl: seq<Block>, words: seq<int>, addr: int): int
    requires WfBlocks(c, bl) && |words| == MEMORY_WORDS && 0 <= addr < MEMORY_WORDS
  {
    LineWord(SetOf(c, bl, SetIndVal(c, addr)), TagVal(c, addr), BlockOffsetVal(c, addr), words[addr])
  }

  /** Clean lines hold exactly what memory holds. */
  ghost predicate Coherent(c: Config, bl: seq<Block>, words: seq<int>)
    requires WfBlocks(c, bl) && |words| == MEMORY_WORDS
  {
    forall a :: 0 <= a < MEMORY_WORDS && !DirtyAt(c, bl, a) ==> ViewAt(c, bl, words, a) == words[a]
  }

  /** Every set other than `s` keeps the per-set invariant. */
  ghost predicate InvOutside(c: Config, bl: seq<Block>, s: int)
    requires ConfigOk(c) && |bl| == MAX_CACHE_SIZE
  {
    forall s' :: 0 <= s' < c.numSets && s' != s ==> SetInv(SetOf(c, bl, s'))
  }

  ghost predicate CacheInv(c: Config, bl: seq<Block>) {
    WfBlocks(c, bl) && forall s :: 0 <= s < c.numSets ==> SetInv(SetOf(c, bl, s))
  }

  // ---------------------------------------------------------------------
  // Addresses and blocks.

  /** `addr` lies in its own block, at its offset. */
  lemma InOwnBlock(c: Config, addr: int)
    requires ConfigOk(c) && 0 <= addr < MEMORY_WORDS
    ensures MemAddrCalc(c, SetIndVal(c, addr), TagVal(c, addr)) + BlockOffsetVal(c, addr) == addr
  {
    DecomposeRoundTrip(c, addr);
  }

  /** Storing a block into memory changes only the words of that block. */
  lemma StoreBlockElsewhere(c: Config, words: seq<int>, s: int, t: int, d: seq<int>, addr: int)
    requires ConfigOk(c) && |words| == MEMORY_WORDS && 0 <= s < c.numSets && 0 <= t < TagLimit(c)
    requires |d| == c.blockSize && 0 <= addr < MEMORY_WORDS
    requires SetIndVal(c, addr) != s || TagVal(c, addr) != t
    ensures StoreBlock(words, MemAddrCalc(c, s, t), d)[addr] == words[addr]
  {
    var m := MemAddrCalc(c, s, t);
    if m <= addr < m + c.blockSize {
      ComposeRoundTrip(c, s, t, addr - m);
      assert false;
    }
  }

  /** Storing a block into memory puts its words at their offsets. */
  lemma StoreBlockInside(c: Config, words: seq<int>, s: int, t: int, d: seq<int>, addr: int)
    requires ConfigOk(c) && |words| == MEMORY_WORDS && 0 <= s < c.numSets && 0 <= t < TagLimit(c)
    requires |d| == c.blockSize && 0 <= addr < MEMORY_WORDS
    requires SetIndVal(c, addr) == s && TagVal(c, addr) == t
    ensures StoreBlock(words, MemAddrCalc(c, s, t), d)[addr] == d[BlockOffsetVal(c, addr)]
  {
    InOwnBlock(c, addr);
  }

  /** A fetched block holds memory's word for every address in the block. */
  lemma FetchBlockAt(c: Config, words: seq<int>, addr: int)
    requires ConfigOk(c) && |words| == MEMORY_WORDS && 0 <= addr < MEMORY_WORDS
    ensures FetchBlock(c, words, SetIndVal(c, addr), TagVal(c, addr))[BlockOffsetVal(c, addr)] == words[addr]
  {
    InOwnBlock(c, addr);
  }

  // ---------------------------------------------------------------------
  // A probe that hits.

  /** The array after a probe for `addr` hits way `w`. */
  ghost function AfterHit(c: Config, bl: seq<Block>, addr: int, w: nat, write: bool, v: int): seq<Block>
    requires WfBlocks(c, bl) && 0 <= addr < MEMORY_WORDS && w < c.blocksPerSet
  {
    var s := SetIndVal(c, addr);
    var L := SetOf(c, bl, s);
    SetOfWf(c, bl, s);
    ReplaceSet(c, bl, s, Promote(Touched(L, w, BlockOffsetVal(c, addr), write, v), w))
  }

  /** Per address: after a hit on `addr`, a read changes no word of the
      view, a write changes exactly the written word, and clean lines stay
      coherent with memory. */
  lemma ProbeHitViewAt(c: Config, bl: seq<Block>, words: seq<int>, addr: int, write: bool, v: int, a: int)
    requires WfBlocks(c, bl) && |words| == MEMORY_WORDS && 0 <= addr < MEMORY_WORDS
    requires Coherent(c, bl, words) && Cached(c, bl, addr) && 0 <= a < MEMORY_WORDS
    ensures var bl' := AfterHit(c, bl, addr, WayOf(c, bl, addr), write, v);
      WfBlocks(c, bl') &&
      ViewAt(c, bl', words, a) == (if write && a == addr then v else ViewAt(c, bl, words, a)) &&
      (!DirtyAt(c, bl', a) ==> ViewAt(c, bl', words, a) == words[a])
  {
    var s, t, o := SetIndVal(c, addr), TagVal(c, addr), BlockOffsetVal(c, addr);
    var L := SetOf(c, bl, s);
    var w := WayOf(c, bl, addr);
    SetOfWf(c, bl, s);
    var L' := Promote(Touched(L, w, o, write, v), w);
    ReplaceSetWf(c, bl, s, L');
    var sa, ta, oa := SetIndVal(c, a), TagVal(c, a), BlockOffsetVal(c, a);
    ReplaceSetOf(c, bl, s, L', sa);
    InOwnBlock(c, a);
    InOwnBlock(c, addr);
    if sa == s {
      HitLineView(L, t, w, o, write, v, ta, oa, words[a]);
    }
  }

  /** A hit keeps the array's shape and coherence; a read hit changes no
      word of the view, a write hit changes exactly the written word. */
  lemma ProbeHitView(c: Config, bl: seq<Block>, words: seq<int>, addr: int, write: bool, v: int)
    requires WfBlocks(c, bl) && |words| == MEMORY_WORDS && 0 <= addr < MEMORY_WORDS
    requires Coherent(c, bl, words) && Cached(c, bl, addr)
    ensures var bl' := AfterHit(c, bl, addr, WayOf(c, bl, addr), write, v);
      WfBlocks(c, bl') && Coherent(c, bl', words) &&
      forall a :: 0 <= a < MEMORY_WORDS ==>
        ViewAt(c, bl', words, a) == if write && a == addr then v else ViewAt(c, bl, words, a)
  {
    var bl' := AfterHit(c, bl, addr, WayOf(c, bl, addr), write, v);
    ProbeHitViewAt(c, bl, words, addr, write, v, 0);
    forall a | 0 <= a < MEMORY_WORDS
      ensures ViewAt(c, bl', words, a) == (if write && a == addr then v else ViewAt(c, bl, words, a))
      ensures !DirtyAt(c, bl', a) ==> ViewAt(c, bl', words, a) == words[a]
    {
      ProbeHitViewAt(c, bl, words, addr, write, v, a);
    }
  }

  /** The per-set invariant after a hit on way `w` of `addr`'s set, given
      that promoting `w` in the set before the access keeps it. */
  lemma ProbeHitInv(c: Config, bl: seq<Block>, addr: int, w: nat, write: bool, v: int)
    requires WfBlocks(c, bl) && 0 <= addr < MEMORY_WORDS && w < c.blocksPerSet
    requires InvOutside(c, bl, SetIndVal(c, addr))
    requires SetInv(Promote(SetOf(c, bl, SetIndVal(c, addr)), w))
    ensures CacheInv(c, AfterHit(c, bl, addr, w, write, v))
  {
    var s := SetIndVal(c, addr);
    var L := SetOf(c, bl, s);
    SetOfWf(c, bl, s);
    var L' := Promote(Touched(L, w, BlockOffsetVal(c, addr), write, v), w);
    assert SameShape(Promote(L, w), L');
    SetInvSameShape(Promote(L, w), L');
    ReplaceSetWf(c, bl, s, L');
    forall s' | 0 <= s' < c.numSets
      ensures SetInv(SetOf(c, AfterHit(c, bl, addr, w, write, v), s'))
    {
      ReplaceSetOf(c, bl, s, L', s');
    }
  }

  // ---------------------------------------------------------------------
  // Filling a missing block.

  /** Memory after the fill of `addr`'s set into way `f` has written the
      old line back, which happens only when it is valid and dirty. */
  ghost function AfterWriteBack(c: Config, bl: seq<Block>, words: seq<int>, addr: int, f: nat): seq<int>
    requires WfBlocks(c, bl) && 0 <= addr < MEMORY_WORDS && f < c.blocksPerSet
  {
    var s := SetIndVal(c, addr);
    var victim := SetOf(c, bl, s)[f];
    if victim.valid && victim.dirty then StoreBlock(words, MemAddrCalc(c, s, victim.tag), victim.data)
    else words
  }

  /** The array after `addr`'s block has been loaded into way `f` from
      memory `words` (memory after any write-back). */
  ghost function AfterFill(c: Config, bl: seq<Block>, words: seq<int>, addr: int, f: nat): seq<Block>
    requires WfBlocks(c, bl) && |words| == MEMORY_WORDS && 0 <= addr < MEMORY_WORDS && f < c.blocksPerSet
  {
    var s, t := SetIndVal(c, addr), TagVal(c, addr);
    var L := SetOf(c, bl, s);
    ReplaceSet(c, bl, s, L[f := Loaded(L[f], t, FetchBlock(c, words, s, t))])
  }

  /** The way a miss fills: the first invalid way, else the rank-0 way. */
  ghost predicate FillTarget(lines: seq<Block>, f: nat) {
    f < |lines| &&
    (f == NumValid(lines) || (NumValid(lines) == |lines| && f == FirstRankZero(lines, 0)))
  }

  /** Per address: a fill after a miss, with its write-back, changes no
      word of the view and keeps clean lines coherent. */
  lemma FillViewAt(c: Config, bl: seq<Block>, words: seq<int>, addr: int, f: nat, a: int)
    requires CacheInv(c, bl) && |words| == MEMORY_WORDS && Coherent(c, bl, words)
    requires 0 <= addr < MEMORY_WORDS && 0 <= a < MEMORY_WORDS
    requires !Cached(c, bl, addr) && FillTarget(SetOf(c, bl, SetIndVal(c, addr)), f)
    ensures var words' := AfterWriteBack(c, bl, words, addr, f);
      var bl' := AfterFill(c, bl, words', addr, f);
      |words'| == MEMORY_WORDS && WfBlocks(c, bl') &&
      ViewAt(c, bl', words', a) == ViewAt(c, bl, words, a) &&
      (!DirtyAt(c, bl', a) ==> ViewAt(c, bl', words', a) == words'[a])
  {
    var s, t := SetIndVal(c, addr), TagVal(c, addr);
    var sa, ta, oa := SetIndVal(c, a), TagVal(c, a), BlockOffsetVal(c, a);
    var L := SetOf(c, bl, s);
    SetOfWf(c, bl, s);
    var victim := L[f];
    var words' := AfterWriteBack(c, bl, words, addr, f);
    var d := FetchBlock(c, words', s, t);
    var L' := L[f := Loaded(victim, t, d)];
    ReplaceSetWf(c, bl, s, L');
    ReplaceSetOf(c, bl, s, L', sa);
    // Memory changes only inside the victim's block.
    var outside := sa != s || ta != victim.tag || !victim.valid;
    assert outside ==> words'[a] == words[a] by {
      if outside && victim.valid && victim.dirty {
        StoreBlockElsewhere(c, words, s, victim.tag, victim.data, a);
      }
    }
    if sa == s {
      FillLineView(L, t, f, d, ta, oa, words'[a]);
      FillLineView(L, t, f, d, ta, oa, words[a]);
      if ta == t {
        FetchBlockAt(c, words', a);
      } else if victim.valid && ta == victim.tag {
        FindWayUnique(L, f);
        if victim.dirty {
          StoreBlockInside(c, words, s, victim.tag, victim.data, a);
        }
      }
    }
  }

  /** A fill after a miss keeps the view and coherence, the re-probe hits
      the filled way, and promoting it restores the per-set invariant. */
  lemma FillStep(c: Config, bl: seq<Block>, words: seq<int>, addr: int, f: nat)
    requires CacheInv(c, bl) && |words| == MEMORY_WORDS && Coherent(c, bl, words)
    requires 0 <= addr < MEMORY_WORDS
    requires !Cached(c, bl, addr) && FillTarget(SetOf(c, bl, SetIndVal(c, addr)), f)
    ensures var s := SetIndVal(c, addr);
      var words' := AfterWriteBack(c, bl, words, addr, f);
      var bl' := AfterFill(c, bl, words', addr, f);
      |words'| == MEMORY_WORDS && WfBlocks(c, bl') && Coherent(c, bl', words') &&
      (forall a :: 0 <= a < MEMORY_WORDS ==> ViewAt(c, bl', words', a) == ViewAt(c, bl, words, a)) &&
      WayOf(c, bl', addr) == f && InvOutside(c, bl', s) && SetInv(Promote(SetOf(c, bl', s), f))
  {
    FillStepView(c, bl, words, addr, f);
    FillStepInv(c, bl, words, addr, f);
  }

  /** The view half of `FillStep`. */
  lemma FillStepView(c: Config, bl: seq<Block>, words: seq<int>, addr: int, f: nat)
    requires CacheInv(c, bl) && |words| == MEMORY_WORDS && Coherent(c, bl, words)
    requires 0 <= addr < MEMORY_WORDS
    requires !Cached(c, bl, addr) && FillTarget(SetOf(c, bl, SetIndVal(c, addr)), f)
    ensures var words' := AfterWriteBack(c, bl, words, addr, f);
      var bl' := AfterFill(c, bl, words', addr, f);
      |words'| == MEMORY_WORDS && WfBlocks(c, bl') && Coherent(c, bl', words') &&
      (forall a :: 0 <= a < MEMORY_WORDS ==> ViewAt(c, bl', words', a) == ViewAt(c, bl, words, a))
  {
    var words' := AfterWriteBack(c, bl, words, addr, f);
    var bl' := AfterFill(c, bl, words', addr, f);
    AfterFillHits(c, bl, words', addr, f);
    forall a | 0 <= a < MEMORY_WORDS
      ensures ViewAt(c, bl', words', a) == ViewAt(c, bl, words, a)
      ensures !DirtyAt(c, bl', a) ==> ViewAt(c, bl', words', a) == words'[a]
    {
      FillViewAt(c, bl, words, addr, f, a);
    }
  }

  /** The invariant half of `FillStep`. */
  lemma FillStepInv(c: Config, bl: seq<Block>, words: seq<int>, addr: int, f: nat)
    requires CacheInv(c, bl) && |words| == MEMORY_WORDS
    requires 0 <= addr < MEMORY_WORDS
    requires !Cached(c, bl, addr) && FillTarget(SetOf(c, bl, SetIndVal(c, addr)), f)
    ensures var s := SetIndVal(c, addr);
      var words' := AfterWriteBack(c, bl, words, addr, f);
      var bl' := AfterFill(c, bl, words', addr, f);
      WfBlocks(c, bl') && WayOf(c, bl', addr) == f && InvOutside(c, bl', s) && SetInv(Promote(SetOf(c, bl', s), f))
  {
    var s, t := SetIndVal(c, addr), TagVal(c, addr);
    var L := SetOf(c, bl, s);
    SetBase(c, s);
    var words' := AfterWriteBack(c, bl, words, addr, f);
    var d := FetchBlock(c, words', s, t);
    var L' := L[f := Loaded(L[f], t, d)];
    var bl' := AfterFill(c, bl, words', addr, f);
    AfterFillHits(c, bl, words', addr, f);
    if f == NumValid(L) {
      FillEmptyKeepsInv(L, t, d);
    } else {
      EvictKeepsInv(L, t, d);
    }
    forall s' | 0 <= s' < c.numSets
      ensures SetOf(c, bl', s') == if s' == s then L' else SetOf(c, bl, s')
    {
      ReplaceSetOf(c, bl, s, L', s');
    }
  }

  // ---------------------------------------------------------------------
  // The start of a run.

  /** A cache with no valid line shows memory unchanged. */
  lemma EmptyCacheShowsMemory(c: Config, bl: seq<Block>, words: seq<int>, a: int)
    requires WfBlocks(c, bl) && |words| == MEMORY_WORDS && 0 <= a < MEMORY_WORDS
    requires forall i :: 0 <= i < |bl| ==> !bl[i].valid
    ensures ViewAt(c, bl, words, a) == words[a] && !DirtyAt(c, bl, a)
  {
    var s := SetIndVal(c, a);
    SetBase(c, s);
    var L := SetOf(c, bl, s);
    assert forall w :: 0 <= w < |L| ==> !L[w].valid by {
      forall w | 0 <= w < |L| ensures !L[w].valid {
        assert L[w] == bl[SetStart(c.blocksPerSet, s) + w];
      }
    }
    assert FindWay(L, TagVal(c, a), 0) == |L|;
  }

  /** A cache with no valid line, all ranks 0, keeps every invariant. */
  lemma EmptyCacheInv(c: Config, bl: seq<Block>, words: seq<int>)
    requires WfBlocks(c, bl) && |words| == MEMORY_WORDS
    requires forall i :: 0 <= i < |bl| ==> !bl[i].valid && bl[i].lruLabel == 0
    ensures CacheInv(c, bl) && Coherent(c, bl, words)
  {
    forall a | 0 <= a < MEMORY_WORDS ensures ViewAt(c, bl, words, a) == words[a] {
      EmptyCacheShowsMemory(c, bl, words, a);
    }
    forall s | 0 <= s < c.numSets ensures SetInv(SetOf(c, bl, s)) {
      SetBase(c, s);
      var L := SetOf(c, bl, s);
      assert forall w :: 0 <= w < |L| ==> L[w] == bl[SetStart(c.blocksPerSet, s) + w];
      if |L| > 0 {
        assert !L[0].valid;
      }
      assert NumValid(L) == 0;
    }
  }
  // ---------------------------------------------------------------------
  // One whole access.

  /** The way a miss for `addr` fills: the first invalid way of its set,
      or the first way of rank 0 when every way is valid. */
  ghost function FillWay(c: Config, bl: seq<Block>, addr: int): (f: nat)
    requires CacheInv(c, bl) && 0 <= addr < MEMORY_WORDS
    ensures FillTarget(SetOf(c, bl, SetIndVal(c, addr)), f)
  {
    var L := SetOf(c, bl, SetIndVal(c, addr));
    if NumValid(L) < |L| then NumValid(L)
    else
      VictimExists(L);
      FirstRankZero(L, 0)
  }

  /** A miss followed by the fill of way `f`: the array keeps its shape and
      the probe for `addr` then hits way `f`. */
  lemma AfterFillHits(c: Config, bl: seq<Block>, words: seq<int>, addr: int, f: nat)
    requires WfBlocks(c, bl) && |words| == MEMORY_WORDS && 0 <= addr < MEMORY_WORDS
    requires !Cached(c, bl, addr) && f < c.blocksPerSet
    ensures WfBlocks(c, AfterFill(c, bl, words, addr, f))
    ensures WayOf(c, AfterFill(c, bl, words, addr, f), addr) == f
  {
    var s, t := SetIndVal(c, addr), TagVal(c, addr);
    var L := SetOf(c, bl, s);
    SetOfWf(c, bl, s);
    var L' := L[f := Loaded(L[f], t, FetchBlock(c, words, s, t))];
    ReplaceSetWf(c, bl, s, L');
    ReplaceSetOf(c, bl, s, L', s);
    assert Holds(L'[f], t);
    assert FindWay(L', t, 0) == f;
  }

  /** Memory after an access to `addr`: a miss writes the victim back when
      it is dirty; a hit leaves memory alone. */
  ghost function AccessWords(c: Config, bl: seq<Block>, words: seq<int>, addr: int): (words': seq<int>)
    requires CacheInv(c, bl) && |words| == MEMORY_WORDS && 0 <= addr < MEMORY_WORDS
    ensures |words'| == MEMORY_WORDS
  {
    if Cached(c, bl, addr) then words else AfterWriteBack(c, bl, words, addr, FillWay(c, bl, addr))
  }

  /** The array the final probe of an access sees: as it was on a hit,
      after the fill on a miss. */
  ghost function ProbeBlocks(c: Config, bl: seq<Block>, words: seq<int>, addr: int): (pb: seq<Block>)
    requires CacheInv(c, bl) && |words| == MEMORY_WORDS && 0 <= addr < MEMORY_WORDS
    ensures WfBlocks(c, pb) && Cached(c, pb, addr)
  {
    if Cached(c, bl, addr) then bl
    else
      var f := FillWay(c, bl, addr);
      var words' := AccessWords(c, bl, words, addr);
      AfterFillHits(c, bl, words', addr, f);
      AfterFill(c, bl, words', addr, f)
  }

  /** The array after an access to `addr` that reads (`write` false) or
      stores `v` (`write` true): the final probe hits and promotes. */
  ghost function AccessBlocks(c: Config, bl: seq<Block>, words: seq<int>, addr: int, write: bool, v: int): seq<Block>
    requires CacheInv(c, bl) && |words| == MEMORY_WORDS && 0 <= addr < MEMORY_WORDS
  {
    var pb := ProbeBlocks(c, bl, words, addr);
    AfterHit(c, pb, addr, WayOf(c, pb, addr), write, v)
  }

  /** What the final probe of an access sees: the same view of memory as
      before the access, coherent clean lines, unchanged sets other than
      `addr`'s, and a set whose promotion of the hit way keeps the per-set
      invariant. */
  lemma ProbeBlocksFacts(c: Config, bl: seq<Block>, words: seq<int>, addr: int)
    requires CacheInv(c, bl) && |words| == MEMORY_WORDS && Coherent(c, bl, words) && 0 <= addr < MEMORY_WORDS
    ensures var s, pb, words' := SetIndVal(c, addr), ProbeBlocks(c, bl, words, addr), AccessWords(c, bl, words, addr);
      Coherent(c, pb, words') && InvOutside(c, pb, s) && SetInv(Promote(SetOf(c, pb, s), WayOf(c, pb, addr))) &&
      (forall a :: 0 <= a < MEMORY_WORDS ==> ViewAt(c, pb, words', a) == ViewAt(c, bl, words, a)) &&
      (forall s' :: 0 <= s' < c.numSets && s' != s ==> SetOf(c, pb, s') == SetOf(c, bl, s'))
  {
    var s, t := SetIndVal(c, addr), TagVal(c, addr);
    var L := SetOf(c, bl, s);
    if Cached(c, bl, addr) {
      HitKeepsInv(L, WayOf(c, bl, addr));
    } else {
      var f := FillWay(c, bl, addr);
      var words' := AccessWords(c, bl, words, addr);
      FillStep(c, bl, words, addr, f);
      var L' := L[f := Loaded(L[f], t, FetchBlock(c, words', s, t))];
      forall s' | 0 <= s' < c.numSets && s' != s ensures SetOf(c, ProbeBlocks(c, bl, words, addr), s') == SetOf(c, bl, s') {
        ReplaceSetOf(c, bl, s, L', s');
      }
    }
  }

  /** The final probe of an access hits and reads the word the processor
      saw before the access. */
  lemma AccessReads(c: Config, bl: seq<Block>, words: seq<int>, addr: int, m: int)
    requires CacheInv(c, bl) && |words| == MEMORY_WORDS && Coherent(c, bl, words) && 0 <= addr < MEMORY_WORDS
    ensures var pb := ProbeBlocks(c, bl, words, addr);
      LineWord(SetOf(c, pb, SetIndVal(c, addr)), TagVal(c, addr), BlockOffsetVal(c, addr), m) == ViewAt(c, bl, words, addr)
  {
    var pb, words' := ProbeBlocks(c, bl, words, addr), AccessWords(c, bl, words, addr);
    ProbeBlocksFacts(c, bl, words, addr);
    SetOfWf(c, pb, SetIndVal(c, addr));
    assert ViewAt(c, pb, words', addr) == ViewAt(c, bl, words, addr);
  }

  /** An access keeps every invariant and coherence; afterwards the block
      of `addr` is cached, the view is unchanged except for a stored word,
      and no set other than `addr`'s has changed. */
  lemma AccessCorrect(c: Config, bl: seq<Block>, words: seq<int>, addr: int, write: bool, v: int)
    requires CacheInv(c, bl) && |words| == MEMORY_WORDS && Coherent(c, bl, words) && 0 <= addr < MEMORY_WORDS
    ensures var bl', words' := AccessBlocks(c, bl, words, addr, write, v), AccessWords(c, bl, words, addr);
      CacheInv(c, bl') && Coherent(c, bl', words') && Cached(c, bl', addr) &&
      (forall a :: 0 <= a < MEMORY_WORDS ==>
         ViewAt(c, bl', words', a) == if write && a == addr then v else ViewAt(c, bl, words, a)) &&
      (forall s' :: 0 <= s' < c.numSets && s' != SetIndVal(c, addr) ==> SetOf(c, bl', s') == SetOf(c, bl, s'))
  {
    var s, t, o := SetIndVal(c, addr), TagVal(c, addr), BlockOffsetVal(c, addr);
    var pb, words' := ProbeBlocks(c, bl, words, addr), AccessWords(c, bl, words, addr);
    var w := WayOf(c, pb, addr);
    ProbeBlocksFacts(c, bl, words, addr);
    ProbeHitView(c, pb, words', addr, write, v);
    ProbeHitInv(c, pb, addr, w, write, v);
    SetOfWf(c, pb, s);
    var L' := Promote(Touched(SetOf(c, pb, s), w, o, write, v), w);
    forall s' | 0 <= s' < c.numSets
      ensures SetOf(c, AccessBlocks(c, bl, words, addr, write, v), s') == if s' == s then L' else SetOf(c, pb, s')
    {
      ReplaceSetOf(c, pb, s, L', s');
    }
    HitLineView(SetOf(c, pb, s), t, w, o, write, v, t, o, 0);
  }
}
