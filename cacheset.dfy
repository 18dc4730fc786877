/** One set of the cache: its ways, the searches the engine makes over
    them, the LRU promotion, and the invariant the engine keeps per set.
    A set is a sequence of `blocksPerSet` lines; way `w` of set `s` is line
    `s * blocksPerSet + w` of the flat line array. */
module CacheSet {

  /** One cache line (`blockStruct`). */
  datatype Block = Block(data: seq<int>, dirty: bool, lruLabel: int, tag: int, valid: bool)

  predicate Holds(b: Block, tag: int) {
    b.valid && b.tag == tag
  }

  /** The way a probe for `tag` hits: the first valid way holding `tag`,
      searching from `from`; `|lines|` when there is none. */
  function FindWay(lines: seq<Block>, tag: int, from: nat): (w: nat)
    requires from <= |lines|
    ensures from <= w <= |lines|
    ensures w < |lines| ==> Holds(lines[w], tag)
    ensures forall i :: from <= i < w ==> !Holds(lines[i], tag)
    decreases |lines| - from
  {
    if from == |lines| then from
    else if Holds(lines[from], tag) then from
    else FindWay(lines, tag, from + 1)
  }

  /** The way an empty-way fill takes: the first invalid way, searching
      from `from`; `|lines|` when every way is valid. */
  function FirstInvalid(lines: seq<Block>, from: nat): (w: nat)
    requires from <= |lines|
    ensures from <= w <= |lines|
    ensures w < |lines| ==> !lines[w].valid
    ensures forall i :: from <= i < w ==> lines[i].valid
    decreases |lines| - from
  {
    if from == |lines| then from
    else if !lines[from].valid then from
    else FirstInvalid(lines, from + 1)
  }

  /** The eviction victim: the first way whose LRU rank is 0, searching
      from `from`; `|lines|` when there is none. */
  function FirstRankZero(lines: seq<Block>, from: nat): (w: nat)
    requires from <= |lines|
    ensures from <= w <= |lines|
    ensures w < |lines| ==> lines[w].lruLabel == 0
    ensures forall i :: from <= i < w ==> lines[i].lruLabel != 0
    decreases |lines| - from
  {
    if from == |lines| then from
    else if lines[from].lruLabel == 0 then from
    else FirstRankZero(lines, from + 1)
  }

  /** LRU promotion of way `w`: it gets the top rank `|lines| - 1`, and every
      other way ranked above its old rank moves down by one. */
  function Promote(lines: seq<Block>, w: nat): seq<Block>
    requires w < |lines|
  {
    seq(|lines|, j requires 0 <= j < |lines| =>
      if j == w then lines[j].(lruLabel := |lines| - 1)
      else if lines[j].lruLabel > lines[w].lruLabel then lines[j].(lruLabel := lines[j].lruLabel - 1)
      else lines[j])
  }

  /** A line after a block with tag `tag` and contents `d` has been loaded
      into it: valid and clean; its rank is left as it was. */
  function Loaded(b: Block, tag: int, d: seq<int>): Block {
    b.(valid := true, dirty := false, tag := tag, data := d)
  }

  /** A line after the processor stored `v` at offset `o`: the word changes
      and the line becomes dirty. */
  function Stored(b: Block, o: int, v: int): Block
    requires 0 <= o < |b.data|
  {
    b.(data := b.data[o := v], dirty := true)
  }

  /** The word at offset `o` of the block with tag `t` when the set holds
      that block, else `m`, the word memory holds. */
  function LineWord(lines: seq<Block>, t: int, o: int, m: int): int {
    var w := FindWay(lines, t, 0);
    if w < |lines| && 0 <= o < |lines[w].data| then lines[w].data[o] else m
  }

  /** The set holds the block with tag `t` in a dirty line. */
  predicate LineDirty(lines: seq<Block>, t: int) {
    var w := FindWay(lines, t, 0);
    w < |lines| && lines[w].dirty
  }

  /** The set after a hit on way `w`: unchanged by a read, `v` stored at
      offset `o` of way `w` by a write. */
  function Touched(lines: seq<Block>, w: nat, o: int, write: bool, v: int): seq<Block>
    requires w < |lines| && 0 <= o < |lines[w].data|
  {
    if write then lines[w := Stored(lines[w], o, v)] else lines
  }

  /** Number of valid ways, which form a prefix of the set. */
  function NumValid(lines: seq<Block>): nat {
    FirstInvalid(lines, 0)
  }

  /** Fills take the first invalid way and nothing invalidates a line, so
      the valid ways are a prefix of the set. */
  ghost predicate ValidPrefix(lines: seq<Block>) {
    forall w :: 0 <= w < |lines| ==> (lines[w].valid <==> w < NumValid(lines))
  }

  /** With `k` valid ways out of `n`, the valid ways carry pairwise distinct
      ranks in `n-k .. n-1` and the invalid ways carry rank 0. */
  ghost predicate RanksOk(lines: seq<Block>) {
    var n, k := |lines|, NumValid(lines);
    (forall w :: 0 <= w < n && !lines[w].valid ==> lines[w].lruLabel == 0) &&
    (forall w :: 0 <= w < n && lines[w].valid ==> n - k <= lines[w].lruLabel < n) &&
    (forall v, w :: 0 <= v < n && 0 <= w < n && v != w && lines[v].valid && lines[w].valid ==>
       lines[v].lruLabel != lines[w].lruLabel)
  }

  /** No two valid ways hold the same tag. */
  ghost predicate TagsUnique(lines: seq<Block>) {
    forall v, w :: 0 <= v < |lines| && 0 <= w < |lines| && v != w && lines[v].valid && lines[w].valid ==>
      lines[v].tag != lines[w].tag
  }

  ghost predicate SetInv(lines: seq<Block>) {
    ValidPrefix(lines) && RanksOk(lines) && TagsUnique(lines)
  }

  /** The ranks of the first `k` ways. */
  ghost function RankSet(lines: seq<Block>, k: nat): set<int>
    requires k <= |lines|
  {
    set w | 0 <= w < k :: lines[w].lruLabel
  }

  /** The integers `lo .. hi-1`. */
  ghost function Range(lo: int, hi: int): (r: set<int>)
    ensures forall x :: x in r <==> lo <= x < hi
    decreases hi - lo
  {
    if lo >= hi then {} else Range(lo, hi - 1) + {hi - 1}
  }

  /** Two sets whose lines agree on validity, tags and ranks. */
  ghost predicate SameShape(a: seq<Block>, b: seq<Block>) {
    |a| == |b| &&
    forall i :: 0 <= i < |a| ==>
      a[i].valid == b[i].valid && a[i].tag == b[i].tag && a[i].lruLabel == b[i].lruLabel
  }

  // ---------------------------------------------------------------------
  // Searches depend only on what they look at.

  lemma NumValidSame(a: seq<Block>, b: seq<Block>)
    requires |a| == |b| && forall i :: 0 <= i < |a| ==> a[i].valid == b[i].valid
    ensures NumValid(a) == NumValid(b)
  {
    var ka, kb := NumValid(a), NumValid(b);
    assert ka < |a| ==> !b[ka].valid;
    assert kb < |b| ==> !a[kb].valid;
  }

  /** A probe's answer is unchanged when no way's match status changes. */
  lemma FindWaySame(a: seq<Block>, b: seq<Block>, tag: int)
    requires |a| == |b| && forall i :: 0 <= i < |a| ==> (Holds(a[i], tag) <==> Holds(b[i], tag))
    ensures FindWay(a, tag, 0) == FindWay(b, tag, 0)
  {
    var wa, wb := FindWay(a, tag, 0), FindWay(b, tag, 0);
    assert wa < |a| ==> Holds(b[wa], tag);
    assert wb < |b| ==> Holds(a[wb], tag);
  }

  /** With unique tags, the probe finds exactly the way holding the tag. */
  lemma FindWayUnique(lines: seq<Block>, w: nat)
    requires TagsUnique(lines) && w < |lines| && lines[w].valid
    ensures FindWay(lines, lines[w].tag, 0) == w
  {
    var f := FindWay(lines, lines[w].tag, 0);
    if f < w {
      assert Holds(lines[f], lines[w].tag);
    }
  }

  lemma SetInvSameShape(a: seq<Block>, b: seq<Block>)
    requires SameShape(a, b) && SetInv(a)
    ensures SetInv(b)
  {
    NumValidSame(a, b);
  }

  // ---------------------------------------------------------------------
  // The rank layout.

  lemma {:induction false} RangeSize(lo: int, hi: int)
    requires lo <= hi
    ensures |Range(lo, hi)| == hi - lo
    decreases hi - lo
  {
    if lo < hi {
      RangeSize(lo, hi - 1);
    }
  }

  /** Distinct ranks on the first `k` ways give `k` different values. */
  lemma {:induction false} RankSetSize(lines: seq<Block>, k: nat)
    requires k <= |lines|
    requires forall v, w :: 0 <= v < k && 0 <= w < k && v != w ==> lines[v].lruLabel != lines[w].lruLabel
    ensures |RankSet(lines, k)| == k
  {
    if k > 0 {
      RankSetSize(lines, k - 1);
      assert RankSet(lines, k) == RankSet(lines, k - 1) + {lines[k - 1].lruLabel};
      assert lines[k - 1].lruLabel !in RankSet(lines, k - 1);
    } else {
      assert RankSet(lines, k) == {};
    }
  }

  lemma SubsetSameSize(a: set<int>, b: set<int>)
    requires a <= b && |a| == |b|
    ensures a == b
  {
    assert a + b == b && a * b == a;
    assert |b - a| == 0;
    assert b - a == {};
  }

  /** The valid ways carry exactly the ranks `n-k .. n-1`. */
  lemma ValidRanksExact(lines: seq<Block>)
    requires SetInv(lines)
    ensures RankSet(lines, NumValid(lines)) == Range(|lines| - NumValid(lines), |lines|)
  {
    var n, k := |lines|, NumValid(lines);
    assert forall w :: 0 <= w < k ==> lines[w].valid;
    RankSetSize(lines, k);
    RangeSize(n - k, n);
    forall x | x in RankSet(lines, k) ensures x in Range(n - k, n) {
      var w :| 0 <= w < k && lines[w].lruLabel == x;
      assert lines[w].valid;
    }
    SubsetSameSize(RankSet(lines, k), Range(n - k, n));
  }

  /** In a full set the ranks are a permutation of `0 .. n-1`. */
  lemma FullSetRanksPermutation(lines: seq<Block>)
    requires SetInv(lines) && NumValid(lines) == |lines|
    ensures RankSet(lines, |lines|) == Range(0, |lines|)
  {
    ValidRanksExact(lines);
  }

  /** A full, non-empty set always has a victim of rank 0. */
  lemma VictimExists(lines: seq<Block>)
    requires SetInv(lines) && 0 < |lines| && NumValid(lines) == |lines|
    ensures FirstRankZero(lines, 0) < |lines|
    ensures lines[FirstRankZero(lines, 0)].valid
  {
    FullSetRanksPermutation(lines);
    assert 0 in Range(0, |lines|);
    var w :| 0 <= w < |lines| && lines[w].lruLabel == 0;
    assert FirstRankZero(lines, 0) <= w;
  }

  // ---------------------------------------------------------------------
  // What a set shows after a hit and after a fill.

  /** After a hit on the block with tag `t` in way `w` and its promotion,
      every probe finds the same way as before; the set shows `v` at offset
      `o` of that block on a write and every other word unchanged; exactly
      the hit block becomes dirty on a write. */
  lemma HitLineView(lines: seq<Block>, t: int, w: nat, o: int, write: bool, v: int, tb: int, ob: int, m: int)
    requires w == FindWay(lines, t, 0) && w < |lines| && 0 <= o < |lines[w].data|
    ensures var after := Promote(Touched(lines, w, o, write, v), w);
      FindWay(after, tb, 0) == FindWay(lines, tb, 0) &&
      LineWord(after, tb, ob, m) == (if write && tb == t && ob == o then v else LineWord(lines, tb, ob, m)) &&
      (LineDirty(after, tb) <==> LineDirty(lines, tb) || (write && tb == t))
  {
    var after := Promote(Touched(lines, w, o, write, v), w);
    FindWaySame(lines, after, tb);
  }

  /** Loading the missing block with tag `t` and contents `d` into way `f`:
      the set then shows `d` for that block, nothing for the block `f` held
      before, and the same words as before for every other block. The
      loaded block is clean and the evicted one is gone. */
  lemma FillLineView(lines: seq<Block>, t: int, f: nat, d: seq<int>, tb: int, ob: int, m: int)
    requires TagsUnique(lines) && FindWay(lines, t, 0) == |lines| && f < |lines|
    ensures var filled := lines[f := Loaded(lines[f], t, d)];
      var evicted := lines[f].valid && tb == lines[f].tag;
      FindWay(filled, t, 0) == f &&
      LineWord(filled, tb, ob, m) ==
        (if tb == t then (if 0 <= ob < |d| then d[ob] else m)
         else if evicted then m
         else LineWord(lines, tb, ob, m)) &&
      (LineDirty(filled, tb) <==> tb != t && !evicted && LineDirty(lines, tb))
  {
    var filled := lines[f := Loaded(lines[f], t, d)];
    assert Holds(filled[f], t);
    assert FindWay(filled, t, 0) == f;
    if tb != t {
      if lines[f].valid && tb == lines[f].tag {
        FindWayUnique(lines, f);
        forall i | 0 <= i < |filled| ensures !Holds(filled[i], tb) {
          assert i != f ==> filled[i] == lines[i];
        }
      } else {
        FindWaySame(lines, filled, tb);
      }
    }
  }

  // ---------------------------------------------------------------------
  // Promotion.

  /** Promotion makes `w` the most recently used way and keeps the relative
      order of the other valid ways. */
  lemma PromoteOrder(lines: seq<Block>, w: nat)
    requires SetInv(lines) && w < |lines| && lines[w].valid
    ensures var p := Promote(lines, w);
      forall u, v ::
        (0 <= u < |lines| && 0 <= v < |lines| && u != w && v != w && lines[u].valid && lines[v].valid) ==>
        (p[u].lruLabel < p[v].lruLabel <==> lines[u].lruLabel < lines[v].lruLabel)
    ensures var p := Promote(lines, w);
      forall u :: 0 <= u < |lines| && u != w && lines[u].valid ==> p[u].lruLabel < p[w].lruLabel
  {
  }

  /** Promotion changes ranks only: it keeps the valid prefix and the tags. */
  lemma PromoteShape(lines: seq<Block>, w: nat)
    requires w < |lines|
    ensures var p := Promote(lines, w);
      NumValid(p) == NumValid(lines) &&
      (ValidPrefix(lines) ==> ValidPrefix(p)) && (TagsUnique(lines) ==> TagsUnique(p))
  {
    NumValidSame(lines, Promote(lines, w));
  }

  /** The rank layout after promoting way `w`, from the ranks before it.
      A valid way ranked above `w` moves down by one, so it must start one
      above the lowest rank the layout allows. */
  lemma PromoteRanks(lines: seq<Block>, w: nat)
    requires ValidPrefix(lines) && w < |lines| && lines[w].valid && 0 <= lines[w].lruLabel < |lines|
    requires var n, k := |lines|, NumValid(lines);
      (forall u :: 0 <= u < n && !lines[u].valid ==> lines[u].lruLabel == 0) &&
      (forall u :: 0 <= u < n && u != w && lines[u].valid ==>
         n - k + (if lines[u].lruLabel > lines[w].lruLabel then 1 else 0) <= lines[u].lruLabel < n) &&
      (forall u, v :: 0 <= u < n && 0 <= v < n && u != v && lines[u].valid && lines[v].valid ==>
         lines[u].lruLabel != lines[v].lruLabel)
    ensures RanksOk(Promote(lines, w))
  {
    PromoteShape(lines, w);
    var n, k, p := |lines|, NumValid(lines), Promote(lines, w);
    var r := lines[w].lruLabel;
    assert w < k;
    forall u | 0 <= u < n && !p[u].valid ensures p[u].lruLabel == 0 {
      assert u != w && p[u] == lines[u];
    }
    forall u | 0 <= u < n && p[u].valid ensures n - k <= p[u].lruLabel < n {
      assert lines[u].valid;
    }
    forall u, v | 0 <= u < n && 0 <= v < n && u != v && p[u].valid && p[v].valid
      ensures p[u].lruLabel != p[v].lruLabel
    {
      assert lines[u].valid && lines[v].valid;
      assert lines[u].lruLabel != lines[v].lruLabel;
    }
  }

  /** A hit on a valid way keeps the set invariant. */
  lemma HitKeepsInv(lines: seq<Block>, w: nat)
    requires SetInv(lines) && w < |lines| && lines[w].valid
    ensures SetInv(Promote(lines, w))
  {
    PromoteShape(lines, w);
    PromoteRanks(lines, w);
  }

  /** Loading the missing tag into the first invalid way and promoting it
      keeps the set invariant, and the re-probe then hits that way. */
  lemma FillEmptyKeepsInv(lines: seq<Block>, tag: int, d: seq<int>)
    requires SetInv(lines) && FindWay(lines, tag, 0) == |lines| && NumValid(lines) < |lines|
    ensures var k := NumValid(lines);
      var filled := lines[k := Loaded(lines[k], tag, d)];
      FindWay(filled, tag, 0) == k && NumValid(filled) == k + 1 && SetInv(Promote(filled, k))
  {
    var n, k := |lines|, NumValid(lines);
    var filled := lines[k := Loaded(lines[k], tag, d)];
    assert Holds(filled[k], tag);
    assert FindWay(filled, tag, 0) == k;
    assert NumValid(filled) == k + 1 by {
      if k + 1 < n {
        assert !filled[k + 1].valid;
      }
    }
    assert ValidPrefix(filled);
    assert TagsUnique(filled);
    PromoteShape(filled, k);
    PromoteRanks(filled, k);
  }

  /** Evicting the rank-0 way of a full set, loading the missing tag into it
      and promoting it keeps the set invariant; the re-probe hits it. */
  lemma EvictKeepsInv(lines: seq<Block>, tag: int, d: seq<int>)
    requires SetInv(lines) && 0 < |lines| && FindWay(lines, tag, 0) == |lines| && NumValid(lines) == |lines|
    ensures FirstRankZero(lines, 0) < |lines|
    ensures var v := FirstRankZero(lines, 0);
      var filled := lines[v := Loaded(lines[v], tag, d)];
      FindWay(filled, tag, 0) == v && NumValid(filled) == |lines| && SetInv(Promote(filled, v))
  {
    VictimExists(lines);
    var v := FirstRankZero(lines, 0);
    var filled := lines[v := Loaded(lines[v], tag, d)];
    assert Holds(filled[v], tag);
    NumValidSame(lines, filled);
    assert ValidPrefix(filled);
    assert TagsUnique(filled);
    PromoteShape(filled, v);
    PromoteRanks(filled, v);
  }
}
