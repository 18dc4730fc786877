/** The word-addressable backing memory behind `mem_access` and
    `get_num_mem_accesses`. Only their documented behaviour is modelled: a
    write stores the word, every call returns the addressed word, and every
    call adds one to the access counter. A ghost log keeps the calls in
    order, so that callers can state exactly which words they moved. */
module Memory {
  import opened Codec

  /** One call of `mem_access`. */
  datatype MemOp = Read(addr: int) | Write(addr: int, value: int)

  /** `count` reads of consecutive words, starting at `start`. */
  function ReadOps(start: int, count: nat): (ops: seq<MemOp>)
    ensures |ops| == count
    ensures forall j :: 0 <= j < count ==> ops[j] == Read(start + j)
  {
    if count == 0 then [] else ReadOps(start, count - 1) + [Read(start + count - 1)]
  }

  /** Writes of the words of `d` to consecutive addresses, starting at
      `start`, in order. */
  function WriteOps(start: int, d: seq<int>): (ops: seq<MemOp>)
    ensures |ops| == |d|
    ensures forall j :: 0 <= j < |d| ==> ops[j] == Write(start + j, d[j])
  {
    if |d| == 0 then [] else WriteOps(start, d[..|d| - 1]) + [Write(start + |d| - 1, d[|d| - 1])]
  }

  /** Appending two runs of calls to a log one after the other appends
      their concatenation. */
  lemma LogAppend(log: seq<MemOp>, a: seq<MemOp>, b: seq<MemOp>)
    ensures log + a + b == log + (a + b)
  {
  }

  /** `words` after `d` has been stored word by word from `start` on. */
  function StoreBlock(words: seq<int>, start: int, d: seq<int>): seq<int> {
    seq(|words|, i requires 0 <= i < |words| =>
      if start <= i < start + |d| then d[i - start] else words[i])
  }

  class Memory {
    /** The memory contents, `state.mem` of the simulator. */
    var words: seq<int>
    /** What `get_num_mem_accesses` returns. */
    var accesses: nat
    /** Every call of `Access`, oldest first. */
    ghost var log: seq<MemOp>

    ghost predicate Valid()
      reads this
    {
      |words| == MEMORY_WORDS && accesses == |log|
    }

    constructor (contents: seq<int>)
      requires |contents| == MEMORY_WORDS
      ensures Valid() && words == contents && accesses == 0 && log == []
    {
      words := contents;
      accesses := 0;
      log := [];
    }

    /** `mem_access(addr, write_flag, write_data)`. */
    method Access(addr: int, writeFlag: bool, writeData: int) returns (r: int)
      requires Valid() && 0 <= addr < MEMORY_WORDS
      modifies this
      ensures Valid()
      ensures words == if writeFlag then old(words)[addr := writeData] else old(words)
      ensures r == words[addr]
      ensures accesses == old(accesses) + 1
      ensures log == old(log) + [if writeFlag then Write(addr, writeData) else Read(addr)]
    {
      if writeFlag {
        words := words[addr := writeData];
      }
      r := words[addr];
      accesses := accesses + 1;
      log := log + [if writeFlag then Write(addr, writeData) else Read(addr)];
    }
  }
}
