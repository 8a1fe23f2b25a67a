/** The blocks of a file (src/fs/userfs.c). allocate_block copies the data into one stretch of memory
    and links an array of block structures, each of which points at its part of that memory. */
module BlockChain {

  newtype byte = x: int | 0 <= x < 0x100

  const BLOCK_SIZE: nat := 8

  class Block {
    /** The pointer to the memory of the block is an index `at` into memory that the blocks share. */
    const memory: array<byte>
    /** Where the structure stands in the array of block structures. */
    const slot: nat
    var at: nat
    var occupied: nat
    var next: Block?
    var prev: Block?

    constructor (memory: array<byte>, slot: nat)
      ensures this.memory == memory && this.slot == slot
      ensures at == 0 && occupied == 0 && next == null && prev == null
    {
      this.memory, this.slot, at, occupied, next, prev := memory, slot, 0, 0, null, null;
    }
  }

  // ---- Sizes ----------------------------------------------------------------------------------

  /** The number of blocks that allocate_block makes for `size` bytes. */
  function BlockCount(size: nat): (n: nat)
    requires size > 0
    ensures n > 0 && 8 * (n - 1) < size <= 8 * n
  {
    if size > BLOCK_SIZE then (size + BLOCK_SIZE - 1) / BLOCK_SIZE else 1
  }

  /** The number of bytes that it keeps. */
  function Kept(size: nat): nat
    requires size > 0
  {
    BLOCK_SIZE * (BlockCount(size) - 1) + size % BLOCK_SIZE
  }

  /** All bytes are kept exactly when the size is no multiple of eight; otherwise the last eight are lost. */
  lemma KeptIsSize(size: nat)
    requires size > 0
    ensures Kept(size) == if size % 8 == 0 then size - 8 else size
  {
    var n := BlockCount(size);
    assert size == BLOCK_SIZE * (size / BLOCK_SIZE) + size % BLOCK_SIZE;
  }

  /** How much of the data the first b blocks take. */
  function TakenBy(b: nat, size: nat): nat
    requires size > 0
  {
    if b < BlockCount(size) then BLOCK_SIZE * b else Kept(size)
  }

  lemma NextBlockTakes(b: nat, size: nat)
    requires size > 0 && b < BlockCount(size)
    ensures TakenBy(b, size) + (if b != BlockCount(size) - 1 then BLOCK_SIZE else size % BLOCK_SIZE) == TakenBy(b + 1, size)
    ensures TakenBy(b + 1, size) <= size
    ensures TakenBy(b + 1, size) <= BLOCK_SIZE * BlockCount(size)
  {
    KeptIsSize(size);
  }

  // ---- Chains ---------------------------------------------------------------------------------

  /** `bs` are the structures of one array, over one memory. */
  ghost predicate SameArray(bs: seq<Block>, memory: array<byte>)
  {
    forall i | 0 <= i < |bs| :: bs[i].memory == memory && bs[i].slot == i
  }

  /** `bs` is a doubly linked list from `first` to `last`. */
  ghost predicate Linked(bs: seq<Block>, first: Block?, last: Block?)
    reads bs
  {
    && bs != [] && first == bs[0] && last == bs[|bs| - 1]
    && bs[0].prev == null && bs[|bs| - 1].next == null
    && (forall i {:trigger bs[i].next} | 0 <= i < |bs| - 1 :: bs[i].next == bs[i + 1])
    && (forall i {:trigger bs[i].prev} | 0 < i < |bs| :: bs[i].prev == bs[i - 1])
  }

  /** All blocks but the last are full, the last holds `rest` bytes, and they lie one after the other. */
  ghost predicate Packed(bs: seq<Block>, memory: array<byte>, rest: nat)
    reads bs
  {
    && rest < BLOCK_SIZE && memory.Length == BLOCK_SIZE * |bs|
    && SameArray(bs, memory)
    && (forall i | 0 <= i < |bs| :: bs[i].at == BLOCK_SIZE * i)
    && (forall i | 0 <= i < |bs| :: bs[i].occupied == if i < |bs| - 1 then BLOCK_SIZE else rest)
  }

  /** The occupied bytes of the blocks, one block after the other. */
  ghost function Contents(bs: seq<Block>): seq<byte>
    requires forall b | b in bs :: b.at + b.occupied <= b.memory.Length
    reads bs, set b | b in bs :: b.memory
  {
    if bs == [] then []
    else
      var b := bs[|bs| - 1];
      Contents(bs[..|bs| - 1]) + b.memory[b.at..b.at + b.occupied]
  }

  /** The first k blocks of a packed chain, none of them the last, hold the first 8k bytes of the memory. */
  lemma {:induction false} FullBlocks(bs: seq<Block>, memory: array<byte>, rest: nat, k: nat)
    requires Packed(bs, memory, rest) && k < |bs|
    ensures Contents(bs[..k]) == memory[..BLOCK_SIZE * k]
  {
    if k > 0 {
      FullBlocks(bs, memory, rest, k - 1);
      assert bs[..k][..k - 1] == bs[..k - 1];
      assert bs[..k][k - 1] == bs[k - 1];
    }
  }

  /** A packed chain holds a prefix of its memory: all of it but for the unused end of the last block. */
  lemma {:induction false} PackedContents(bs: seq<Block>, memory: array<byte>, rest: nat)
    requires Packed(bs, memory, rest) && bs != []
    ensures Contents(bs) == memory[..BLOCK_SIZE * (|bs| - 1) + rest]
  {
    var n := |bs| - 1;
    FullBlocks(bs, memory, rest, n);
    assert bs[n].at == BLOCK_SIZE * n;
  }

  // ---- Building a chain -----------------------------------------------------------------------

  function Zeros(n: nat): (z: seq<byte>)
    ensures |z| == n
  {
    seq(n, _ => 0)
  }

  /** `s` with `chunk` written at index `at`. */
  function Overwrite(s: seq<byte>, at: nat, chunk: seq<byte>): (r: seq<byte>)
    requires at + |chunk| <= |s|
    ensures |r| == |s|
  {
    s[..at] + chunk + s[at + |chunk|..]
  }

  /** The memory starts with the first p bytes of the data and is zero behind them. */
  ghost predicate Holds(memory: seq<byte>, data: seq<byte>, p: nat)
  {
    p <= |data| && p <= |memory| && memory == data[..p] + Zeros(|memory| - p)
  }

  /** Writing the next k bytes behind the first p. */
  lemma HoldsMore(memory: seq<byte>, data: seq<byte>, p: nat, k: nat)
    requires Holds(memory, data, p) && p + k <= |data| && p + k <= |memory|
    ensures Holds(Overwrite(memory, p, data[p..p + k]), data, p + k)
  {
    assert data[..p] + data[p..p + k] == data[..p + k];
    assert memory[..p] == data[..p];
    assert memory[p + k..] == Zeros(|memory| - p - k);
  }

  method Memcpy(dst: array<byte>, at: nat, chunk: seq<byte>)
    requires at + |chunk| <= dst.Length
    modifies dst
    ensures dst[..] == Overwrite(old(dst[..]), at, chunk)
  {
    for i := 0 to |chunk|
      invariant forall k | 0 <= k < dst.Length ::
        dst[k] == if at <= k < at + i then chunk[k - at] else old(dst[k])
    {
      dst[at + i] := chunk[i];
    }
  }

  /** A packed chain over such memory represents the data: its contents are the prefix that is kept. */
  lemma ChainHoldsPrefix(bs: seq<Block>, memory: array<byte>, data: seq<byte>, size: nat)
    requires size > 0 && |bs| == BlockCount(size) && Packed(bs, memory, size % BLOCK_SIZE)
    requires Holds(memory[..], data, Kept(size))
    ensures forall b | b in bs :: b.at + b.occupied <= b.memory.Length
    ensures Contents(bs) == data[..Kept(size)]
  {
    PackedContents(bs, memory, size % BLOCK_SIZE);
    assert memory[..][..Kept(size)] == data[..Kept(size)];
  }

  method CopyNext(memory: array<byte>, data: seq<byte>, p: nat, k: nat)
    requires p + k <= |data| && p + k <= memory.Length && Holds(memory[..], data, p)
    modifies memory
    ensures Holds(memory[..], data, p + k)
  {
    HoldsMore(memory[..], data, p, k);
    Memcpy(memory, p, data[p..p + k]);
  }

  /** malloc and memset of an array of block structures. */
  method NewBlocks(n: nat, memory: array<byte>) returns (bs: seq<Block>)
    ensures |bs| == n && fresh(bs) && SameArray(bs, memory)
    ensures forall b | b in bs :: b.at == 0 && b.occupied == 0 && b.next == null && b.prev == null
  {
    bs := [];
    while |bs| < n
      invariant |bs| <= n && fresh(bs) && SameArray(bs, memory)
      invariant forall b | b in bs :: b.at == 0 && b.occupied == 0 && b.next == null && b.prev == null
    {
      var b := new Block(memory, |bs|);
      bs := bs + [b];
    }
  }

  /** The first b blocks are filled and linked to their successors, the others as allocated. */
  ghost predicate Built(bs: seq<Block>, b: nat, rest: nat)
    reads bs
  {
    && (forall i | 0 <= i < b && i < |bs| :: bs[i].at == BLOCK_SIZE * i)
    && (forall i | 0 <= i < b && i < |bs| :: bs[i].occupied == if i < |bs| - 1 then BLOCK_SIZE else rest)
    && (forall i {:trigger bs[i].next} | 0 <= i < |bs| :: bs[i].next == if i < b && i < |bs| - 1 then bs[i + 1] else null)
    && (forall i {:trigger bs[i].prev} | 0 <= i < |bs| :: bs[i].prev == if 0 < i <= b then bs[i - 1] else null)
  }

  /** The pointers and the length of block b: a block that is not the last is linked to the next one. */
  method PlaceBlock(bs: seq<Block>, b: nat, occupied: nat, ghost rest: nat) returns (bl: Block)
    requires b < |bs| && Built(bs, b, rest)
    requires forall i | 0 <= i < |bs| :: bs[i].slot == i
    requires occupied == if b < |bs| - 1 then BLOCK_SIZE else rest
    modifies bs
    ensures bl == bs[b] && Built(bs, b + 1, rest)
  {
    bl := bs[b];
    bl.at := BLOCK_SIZE * b;
    bl.occupied := occupied;
    if b != |bs| - 1 {
      var following := bs[b + 1];
      bl.next := following;
      following.prev := bl;
    }
  }

  /** Once all blocks are built they are a packed chain. */
  lemma BuiltIsChain(bs: seq<Block>, memory: array<byte>, rest: nat)
    requires bs != [] && SameArray(bs, memory) && Built(bs, |bs|, rest)
    requires rest < BLOCK_SIZE && memory.Length == BLOCK_SIZE * |bs|
    ensures Linked(bs, bs[0], bs[|bs| - 1]) && Packed(bs, memory, rest)
  {
  }

  method CountBlocks(size: nat) returns (totalBlocks: nat, memBlockRemained: nat)
    requires size > 0
    ensures totalBlocks == BlockCount(size) && memBlockRemained == size % BLOCK_SIZE
  {
    var memBlockCnt := 1;
    memBlockRemained := size % BLOCK_SIZE;
    totalBlocks := memBlockCnt;
    if size > BLOCK_SIZE {
      memBlockCnt := size / BLOCK_SIZE;
      totalBlocks := if memBlockRemained > 0 then memBlockCnt + 1 else memBlockCnt;
    }
  }

  /** The state of the loop of allocate_block when b blocks are done. */
  ghost predicate Done(bs: seq<Block>, memory: array<byte>, data: seq<byte>, size: nat, b: nat)
    reads bs, memory
  {
    && 0 < size <= |data| && b <= |bs| == BlockCount(size)
    && SameArray(bs, memory) && memory.Length == |bs| * BLOCK_SIZE
    && Built(bs, b, size % BLOCK_SIZE)
    && Holds(memory[..], data, TakenBy(b, size))
  }

  method NextBlock(bs: seq<Block>, memory: array<byte>, data: seq<byte>, ghost size: nat, b: nat, ptr: nat, occupied: nat)
    returns (bl: Block)
    requires Done(bs, memory, data, size, b) && b < |bs| && ptr == TakenBy(b, size)
    requires occupied == if b < |bs| - 1 then BLOCK_SIZE else size % BLOCK_SIZE
    modifies bs, memory
    ensures bl == bs[b] && ptr + occupied == TakenBy(b + 1, size)
    ensures Done(bs, memory, data, size, b + 1)
  {
    NextBlockTakes(b, size);
    CopyNext(memory, data, ptr, occupied);
    bl := PlaceBlock(bs, b, occupied, size % BLOCK_SIZE);
  }

  /** Builds the chain for the first `size` bytes of `data`. */
  method AllocateBlock(data: seq<byte>, size: nat)
    returns (totalWritten: nat, first: Block, last: Block, ghost blocks: seq<Block>, memory: array<byte>)
    requires 0 < size <= |data|
    ensures totalWritten == Kept(size)
    ensures fresh(blocks) && fresh(memory) && |blocks| == BlockCount(size)
    ensures Linked(blocks, first, last) && Packed(blocks, memory, size % BLOCK_SIZE)
    ensures Holds(memory[..], data, Kept(size))
    ensures (forall b | b in blocks :: b.at + b.occupied <= b.memory.Length) && Contents(blocks) == data[..Kept(size)]
  {
    var ptr := 0;
    var totalBlocks, memBlockRemained := CountBlocks(size);
    memory := new byte[totalBlocks * BLOCK_SIZE](_ => 0);
    assert memory[..] == data[..0] + Zeros(memory.Length);
    var structures := NewBlocks(totalBlocks, memory);
    blocks := structures;
    totalWritten := 0;
    first, last := structures[0], structures[0];
    for b := 0 to totalBlocks
      invariant Done(structures, memory, data, size, b)
      invariant b > 0 ==> last == structures[b - 1]
      invariant ptr == totalWritten == TakenBy(b, size)
    {
      var occupied := if b != totalBlocks - 1 then BLOCK_SIZE else memBlockRemained;
      last := NextBlock(structures, memory, data, size, b, ptr, occupied);
      ptr := ptr + occupied;
      totalWritten := totalWritten + occupied;
    }
    BuiltIsChain(structures, memory, memBlockRemained);
    ChainHoldsPrefix(structures, memory, data, size);
  }
}
