/** Address decomposition of a 16-bit word address into tag, set index and
    block offset, and the reconstruction of a block's first address.

    The source computes these with `>>`, `<<` and `& ((1 << b) - 1)` on
    non-negative `int`s. `ShiftRight`, `ShiftLeft` and `LowBits` are those
    operations one bit at a time; lemmas show they are division by `2^k`,
    multiplication by `2^k` and the remainder modulo `2^b`. */
module Codec {

  /** Number of cache lines the fixed line array holds. */
  const MAX_CACHE_SIZE := 256
  /** Largest block, in words. */
  const MAX_BLOCK_SIZE := 256
  /** Width of an LC-2K word address. */
  const ADDRESS_BITS := 16
  /** Number of words of the word-addressable memory. */
  const MEMORY_WORDS := 65536

  function Pow2(k: nat): (r: nat)
    ensures r >= 1
  {
    if k == 0 then 1 else 2 * Pow2(k - 1)
  }

  /** "Exactly one bit set", the meaning of the `is_power_of_2` macro. */
  predicate IsPowerOf2(n: int)
    decreases if n > 0 then n else 0
  {
    n == 1 || (n > 1 && n % 2 == 0 && IsPowerOf2(n / 2))
  }

  /** Integer base-2 logarithm (rounded down). */
  function Log2(n: int): nat
    requires n >= 1
  {
    if n == 1 then 0 else 1 + Log2(n / 2)
  }

  lemma {:induction false} Log2Exact(n: int)
    requires IsPowerOf2(n)
    ensures n >= 1 && Pow2(Log2(n)) == n
  {
    if n != 1 {
      Log2Exact(n / 2);
    }
  }

  lemma {:induction false} Log2Bounded(n: int, k: nat)
    requires IsPowerOf2(n) && n <= Pow2(k)
    ensures Log2(n) <= k
  {
    if n != 1 {
      Log2Bounded(n / 2, k - 1);
    }
  }

  lemma {:induction false} Pow2Add(a: nat, b: nat)
    ensures Pow2(a + b) == Pow2(a) * Pow2(b)
  {
    if a != 0 {
      Pow2Add(a - 1, b);
    }
  }

  /** The three size parameters of a cache. */
  datatype Config = Config(blockSize: int, numSets: int, blocksPerSet: int)

  /** A configuration `cache_init` accepts without error, restricted to
      power-of-two block size and set count. */
  predicate ConfigOk(c: Config) {
    0 < c.blockSize <= MAX_BLOCK_SIZE && 0 < c.numSets && 0 < c.blocksPerSet &&
    c.numSets * c.blocksPerSet <= MAX_CACHE_SIZE &&
    IsPowerOf2(c.blockSize) && IsPowerOf2(c.numSets)
  }

  function OffsetBits(c: Config): nat
    requires ConfigOk(c)
  {
    Log2(c.blockSize)
  }

  function IndexBits(c: Config): nat
    requires ConfigOk(c)
  {
    Log2(c.numSets)
  }

  /** The bit widths of a valid configuration fit in a 16-bit address. */
  lemma ConfigBits(c: Config)
    requires ConfigOk(c)
    ensures OffsetBits(c) <= 8 && IndexBits(c) <= 8
    ensures Pow2(OffsetBits(c)) == c.blockSize && Pow2(IndexBits(c)) == c.numSets
  {
    Log2Exact(c.blockSize);
    Log2Exact(c.numSets);
    assert Pow2(8) == 256;
    MulAtLeast(c.blocksPerSet, c.numSets);
    assert c.numSets <= c.numSets * c.blocksPerSet;
    Log2Bounded(c.blockSize, 8);
    Log2Bounded(c.numSets, 8);
  }

  function TagBits(c: Config): nat
    requires ConfigOk(c)
  {
    ConfigBits(c);
    ADDRESS_BITS - (OffsetBits(c) + IndexBits(c))
  }

  /** Number of distinct tags: `1 << tagBits`. */
  function TagLimit(c: Config): nat
    requires ConfigOk(c)
  {
    Pow2(TagBits(c))
  }

  /** Tags, set indices and offsets together span exactly the address space. */
  lemma AddressSpace(c: Config)
    requires ConfigOk(c)
    ensures TagLimit(c) * (c.numSets * c.blockSize) == MEMORY_WORDS
    ensures Pow2(OffsetBits(c) + IndexBits(c)) == c.numSets * c.blockSize
  {
    ConfigBits(c);
    Pow2Add(IndexBits(c), OffsetBits(c));
    Pow2Add(TagBits(c), IndexBits(c) + OffsetBits(c));
    Pow2Add(8, 8);
    assert Pow2(8) == 256;
  }

  /** `x >> k`. */
  function ShiftRight(x: nat, k: nat): nat
    decreases k
  {
    if k == 0 then x else ShiftRight(x / 2, k - 1)
  }

  /** `x << k`. */
  function ShiftLeft(x: int, k: nat): int {
    if k == 0 then x else 2 * ShiftLeft(x, k - 1)
  }

  /** `x & ((1 << k) - 1)`: the `k` low bits of `x`. */
  function LowBits(x: nat, k: nat): nat
    decreases k
  {
    if k == 0 then 0 else 2 * LowBits(x / 2, k - 1) + x % 2
  }

  function TagVal(c: Config, addr: int): (t: int)
    requires ConfigOk(c) && 0 <= addr < MEMORY_WORDS
    ensures 0 <= t < TagLimit(c)
  {
    var ob, ib := OffsetBits(c), IndexBits(c);
    LowBitsIsMod(ShiftRight(addr, ob + ib), TagBits(c));
    LowBits(ShiftRight(addr, ob + ib), TagBits(c))
  }

  function SetIndVal(c: Config, addr: int): (s: int)
    requires ConfigOk(c) && 0 <= addr < MEMORY_WORDS
    ensures 0 <= s < c.numSets
  {
    ConfigBits(c);
    LowBitsIsMod(ShiftRight(addr, OffsetBits(c)), IndexBits(c));
    LowBits(ShiftRight(addr, OffsetBits(c)), IndexBits(c))
  }

  function BlockOffsetVal(c: Config, addr: int): (o: int)
    requires ConfigOk(c) && 0 <= addr < MEMORY_WORDS
    ensures 0 <= o < c.blockSize
  {
    ConfigBits(c);
    LowBitsIsMod(addr, OffsetBits(c));
    LowBits(addr, OffsetBits(c))
  }

  /** First address of the block holding `addr`. */
  function StartAddrCalc(c: Config, addr: int): int
    requires ConfigOk(c) && 0 <= addr < MEMORY_WORDS
  {
    ShiftLeft(TagVal(c, addr), OffsetBits(c) + IndexBits(c)) + ShiftLeft(SetIndVal(c, addr), OffsetBits(c))
  }

  /** First address of the block with tag `oldTag` in set `newSetInd`. */
  function MemAddrCalc(c: Config, newSetInd: int, oldTag: int): int
    requires ConfigOk(c)
  {
    ShiftLeft(oldTag, OffsetBits(c) + IndexBits(c)) + ShiftLeft(newSetInd, OffsetBits(c))
  }

  lemma MulAtLeast(a: int, d: int)
    requires a >= 1 && d > 0
    ensures a * d >= d
  {
  }

  lemma MulMono(a: int, b: int, d: int)
    requires a <= b && d >= 0
    ensures a * d <= b * d
  {
    if a < b {
      MulAtLeast(b - a, d + 1);
      assert (b - a) * d >= 0;
    }
  }

  /** Division with remainder is unique. */
  lemma DivModUnique(x: int, d: int, q: int, r: int)
    requires d > 0 && 0 <= r < d && x == q * d + r
    ensures x / d == q && x % d == r
  {
    var q', r' := x / d, x % d;
    assert x == q' * d + r';
    assert (q' - q) * d == r - r';
    if q' > q {
      MulAtLeast(q' - q, d);
    } else if q' < q {
      MulAtLeast(q - q', d);
    }
  }

  lemma {:induction false} ShiftLeftIsMul(x: int, k: nat)
    ensures ShiftLeft(x, k) == x * Pow2(k)
  {
    if k != 0 {
      ShiftLeftIsMul(x, k - 1);
    }
  }

  lemma {:induction false} ShiftRightIsDiv(x: nat, k: nat)
    ensures ShiftRight(x, k) == x / Pow2(k)
  {
    if k != 0 {
      ShiftRightIsDiv(x / 2, k - 1);
      var q, r := (x / 2) / Pow2(k - 1), (x / 2) % Pow2(k - 1);
      assert x == q * Pow2(k) + (2 * r + x % 2);
      DivModUnique(x, Pow2(k), q, 2 * r + x % 2);
    }
  }

  lemma {:induction false} LowBitsIsMod(x: nat, k: nat)
    ensures LowBits(x, k) == x % Pow2(k)
  {
    if k != 0 {
      LowBitsIsMod(x / 2, k - 1);
      var q, r := (x / 2) / Pow2(k - 1), (x / 2) % Pow2(k - 1);
      assert x == q * Pow2(k) + (2 * r + x % 2);
      DivModUnique(x, Pow2(k), q, 2 * r + x % 2);
    }
  }

  /** The codec functions in arithmetic form. */
  lemma TagArith(c: Config, addr: int)
    requires ConfigOk(c) && 0 <= addr < MEMORY_WORDS
    ensures TagVal(c, addr) == (addr / (c.numSets * c.blockSize)) % TagLimit(c)
  {
    var k := OffsetBits(c) + IndexBits(c);
    AddressSpace(c);
    ShiftRightIsDiv(addr, k);
    LowBitsIsMod(ShiftRight(addr, k), TagBits(c));
  }

  lemma SetIndArith(c: Config, addr: int)
    requires ConfigOk(c) && 0 <= addr < MEMORY_WORDS
    ensures SetIndVal(c, addr) == (addr / c.blockSize) % c.numSets
  {
    ConfigBits(c);
    ShiftRightIsDiv(addr, OffsetBits(c));
    LowBitsIsMod(ShiftRight(addr, OffsetBits(c)), IndexBits(c));
  }

  lemma OffsetArith(c: Config, addr: int)
    requires ConfigOk(c) && 0 <= addr < MEMORY_WORDS
    ensures BlockOffsetVal(c, addr) == addr % c.blockSize
  {
    ConfigBits(c);
    LowBitsIsMod(addr, OffsetBits(c));
  }

  lemma CodecArith(c: Config, addr: int)
    requires ConfigOk(c) && 0 <= addr < MEMORY_WORDS
    ensures TagVal(c, addr) == (addr / (c.numSets * c.blockSize)) % TagLimit(c)
    ensures SetIndVal(c, addr) == (addr / c.blockSize) % c.numSets
    ensures BlockOffsetVal(c, addr) == addr % c.blockSize
  {
    TagArith(c, addr);
    SetIndArith(c, addr);
    OffsetArith(c, addr);
  }

  lemma MemAddrArith(c: Config, s: int, t: int)
    requires ConfigOk(c)
    ensures MemAddrCalc(c, s, t) == t * (c.numSets * c.blockSize) + s * c.blockSize
  {
    ConfigBits(c);
    AddressSpace(c);
    ShiftLeftIsMul(t, OffsetBits(c) + IndexBits(c));
    ShiftLeftIsMul(s, OffsetBits(c));
  }

  /** An offset inside set `s`'s part of a block group stays inside the group. */
  lemma InnerBound(s: int, j: int, S: int, B: int)
    requires 0 <= s < S && 0 <= j < B
    ensures 0 <= s * B + j < S * B
  {
    MulMono(s, S - 1, B);
    MulMono(0, s, B);
  }

  /** Mixed-radix split of `addr` with radices `B`, `S`, `T`, and its inverse. */
  lemma {:induction false} SplitDigits(addr: int, B: int, S: int, T: int)
    requires B > 0 && S > 0 && T > 0 && 0 <= addr < T * (S * B)
    ensures (addr / (S * B)) % T * (S * B) + (addr / B) % S * B + addr % B == addr
  {
    var q, r := addr / B, addr % B;
    var t, s := q / S, q % S;
    assert q == t * S + s;
    assert addr == q * B + r;
    assert addr == t * (S * B) + (s * B + r);
    InnerBound(s, r, S, B);
    DivModUnique(addr, S * B, t, s * B + r);
    assert t < T by {
      if t >= T {
        MulMono(T, t, S * B);
      }
    }
    DivModUnique(t, T, 0, t);
  }

  lemma {:induction false} JoinDigits(s: int, t: int, j: int, B: int, S: int, T: int)
    requires B > 0 && S > 0 && T > 0 && 0 <= s < S && 0 <= t < T && 0 <= j < B
    ensures 0 <= t * (S * B) + s * B + j < T * (S * B)
    ensures var a := t * (S * B) + s * B + j;
      (a / (S * B)) % T == t && (a / B) % S == s && a % B == j
  {
    var a := t * (S * B) + s * B + j;
    InnerBound(s, j, S, B);
    MulMono(t, T - 1, S * B);
    MulMono(0, t, S * B);
    assert a == (t * S + s) * B + j;
    DivModUnique(a, B, t * S + s, j);
    DivModUnique(t * S + s, S, t, s);
    DivModUnique(a, S * B, t, s * B + j);
    DivModUnique(t, T, 0, t);
  }

  /** Splitting an address into tag, set index and offset and rebuilding the
      block's start address loses nothing: start + offset is the address,
      and `MemAddrCalc` of the address's own set and tag is its block start. */
  lemma DecomposeRoundTrip(c: Config, addr: int)
    requires ConfigOk(c) && 0 <= addr < MEMORY_WORDS
    ensures StartAddrCalc(c, addr) + BlockOffsetVal(c, addr) == addr
    ensures MemAddrCalc(c, SetIndVal(c, addr), TagVal(c, addr)) == StartAddrCalc(c, addr)
  {
    AddressSpace(c);
    CodecArith(c, addr);
    MemAddrArith(c, SetIndVal(c, addr), TagVal(c, addr));
    ShiftLeftIsMul(TagVal(c, addr), OffsetBits(c) + IndexBits(c));
    ShiftLeftIsMul(SetIndVal(c, addr), OffsetBits(c));
    ConfigBits(c);
    SplitDigits(addr, c.blockSize, c.numSets, TagLimit(c));
  }

  /** Conversely, every word of the block with tag `t` in set `s` lies in
      the address space and decomposes back into `t`, `s` and its offset,
      so blocks of distinct (set, tag) pairs never overlap. */
  lemma ComposeRoundTrip(c: Config, s: int, t: int, j: int)
    requires ConfigOk(c)
    requires 0 <= s < c.numSets && 0 <= t < TagLimit(c) && 0 <= j < c.blockSize
    ensures 0 <= MemAddrCalc(c, s, t) + j < MEMORY_WORDS
    ensures TagVal(c, MemAddrCalc(c, s, t) + j) == t
    ensures SetIndVal(c, MemAddrCalc(c, s, t) + j) == s
    ensures BlockOffsetVal(c, MemAddrCalc(c, s, t) + j) == j
  {
    AddressSpace(c);
    MemAddrArith(c, s, t);
    JoinDigits(s, t, j, c.blockSize, c.numSets, TagLimit(c));
    CodecArith(c, MemAddrCalc(c, s, t) + j);
  }
}
