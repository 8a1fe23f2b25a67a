/** Reading and writing the data of a file through a descriptor (src/fs/userfs.c). A write replaces the
    blocks of the file and a read copies from its first block on. The descriptor's offset decides nothing
    about what is copied, but read_data moves it and asserts at the end that it equals the bytes read. */
module FileData {
  import opened BlockChain

  const MAX_FILE_SIZE: nat := 1024 * 1024 * 1024

  datatype Mode = ReadOnly | WriteOnly | ReadWrite

  datatype ErrorCode = NoFile | NoPermission

  /** Abort is a failed assert or a NULL pointer followed. */
  datatype Answer = Bytes(count: nat) | Error(code: ErrorCode) | Abort

  class File {
    var blockList: Block?
    var lastBlock: Block?

    constructor ()
      ensures blockList == null && lastBlock == null
    {
      blockList, lastBlock := null, null;
    }
  }

  class FileDesc {
    const file: File
    const mode: Mode
    var offset: nat

    constructor (file: File, mode: Mode, offset: nat)
      ensures this.file == file && this.mode == mode && this.offset == offset
    {
      this.file, this.mode, this.offset := file, mode, offset;
    }
  }

  /** `bs` are the blocks of the file, none when it was never written. */
  ghost predicate HasBlocks(file: File, bs: seq<Block>, memory: array<byte>, rest: nat)
    reads file, bs
  {
    if bs == [] then file.blockList == null
    else Linked(bs, file.blockList, file.lastBlock) && Packed(bs, memory, rest)
  }

  // ---- Size and writing -----------------------------------------------------------------------

  /** The number of occupied bytes in n blocks. */
  function Length(n: nat, rest: nat): nat
  {
    if n == 0 then 0 else BLOCK_SIZE * (n - 1) + rest
  }

  method FileSize(fd: FileDesc?, ghost bs: seq<Block>, ghost memory: array<byte>, ghost rest: nat)
    returns (answer: Answer)
    requires fd != null ==> HasBlocks(fd.file, bs, memory, rest)
    requires forall b | b in bs :: b.at + b.occupied <= b.memory.Length
    ensures fd == null ==> answer == Error(NoFile)
    ensures fd != null ==> answer == Bytes(|Contents(bs)|) == Bytes(Length(|bs|, rest))
  {
    if fd == null {
      return Error(NoFile);
    }
    var size := 0;
    var block := fd.file.blockList;
    ghost var k := 0;
    while block != null
      invariant k <= |bs| && block == if k < |bs| then bs[k] else null
      invariant size == if k < |bs| then BLOCK_SIZE * k else Length(|bs|, rest)
      decreases |bs| - k
    {
      size := size + block.occupied;
      block := block.next;
      k := k + 1;
    }
    if bs != [] {
      PackedContents(bs, memory, rest);
    }
    answer := Bytes(size);
  }

  method WriteData(file: File, data: seq<byte>, size: nat)
    returns (written: nat, ghost bs: seq<Block>, ghost memory: array<byte>)
    requires 0 < size <= |data|
    modifies file
    ensures var sz := if size > MAX_FILE_SIZE then MAX_FILE_SIZE else size;
      && written == Kept(sz) && |bs| == BlockCount(sz) && fresh(bs) && fresh(memory)
      && HasBlocks(file, bs, memory, sz % BLOCK_SIZE) && Holds(memory[..], data, Kept(sz))
  {
    var sz := size;
    if sz > MAX_FILE_SIZE {
      sz := MAX_FILE_SIZE;
    }
    var total, first, last, blocks, cells := AllocateBlock(data, sz);
    file.blockList, file.lastBlock := first, last;
    written, bs, memory := total, blocks, cells;
  }

  /** The assert on the size in allocate_block is the branch that aborts. */
  method UfsWrite(fd: FileDesc?, data: seq<byte>, size: nat)
    returns (answer: Answer, ghost bs: seq<Block>, ghost memory: array<byte>)
    requires size <= |data|
    modifies fd, if fd == null then {} else {fd.file}
    ensures fd == null ==> answer == Error(NoFile)
    ensures fd != null && fd.mode.ReadOnly? ==> answer == Error(NoPermission)
    ensures fd != null && !fd.mode.ReadOnly? && size == 0 ==> answer == Abort
    ensures fd != null && !answer.Bytes? ==> unchanged(fd) && unchanged(fd.file)
    ensures fd != null && !fd.mode.ReadOnly? && size > 0 ==>
      var sz := if size > MAX_FILE_SIZE then MAX_FILE_SIZE else size;
      && answer == Bytes(Kept(sz)) && fd.offset == Kept(sz)
      && |bs| == BlockCount(sz) && fresh(bs) && fresh(memory)
      && HasBlocks(fd.file, bs, memory, sz % BLOCK_SIZE) && Holds(memory[..], data, Kept(sz))
  {
    bs, memory := [], new byte[0];
    if fd == null {
      return Error(NoFile), bs, memory;
    }
    if !(fd.mode.WriteOnly? || fd.mode.ReadWrite?) {
      return Error(NoPermission), bs, memory;
    }
    if size == 0 {
      return Abort, bs, memory;
    }
    var written;
    written, bs, memory := WriteData(fd.file, data, size);
    fd.offset := written;
    answer := Bytes(written);
  }

  // ---- What a read does -----------------------------------------------------------------------

  /** Where the copy of block k goes: the buffer is advanced by the length of the block that follows, so
      that the last of several blocks moves it by `rest` instead of by a whole block. */
  function Position(n: nat, rest: nat, k: nat): (p: nat)
    requires k < n
    ensures rest < BLOCK_SIZE ==> p <= BLOCK_SIZE * k
  {
    if 0 < k == n - 1 then BLOCK_SIZE * (k - 1) + rest else BLOCK_SIZE * k
  }

  function Occupied(n: nat, rest: nat, k: nat): nat
  {
    if k + 1 < n then BLOCK_SIZE else rest
  }

  /** The buffer with the first k blocks copied into it. */
  function Filled(buf: seq<byte>, memory: seq<byte>, n: nat, rest: nat, k: nat): (r: seq<byte>)
    requires k <= n && rest < BLOCK_SIZE && |memory| == BLOCK_SIZE * n && BLOCK_SIZE * k <= |buf|
    ensures |r| == |buf|
  {
    if k == 0 then buf
    else
      var at := BLOCK_SIZE * (k - 1);
      Overwrite(Filled(buf, memory, n, rest, k - 1), Position(n, rest, k - 1),
                memory[at..at + Occupied(n, rest, k - 1)])
  }

  /** Whether a NULL block is followed. */
  predicate FollowsNull(n: nat, count: nat, remained: nat)
  {
    if n == 0 then count > 0 || remained > 0 else count >= n && remained > 0
  }

  /** The number of bytes a read reports. */
  function Total(n: nat, rest: nat, count: nat, remained: nat): nat
  {
    if count < n then BLOCK_SIZE * count + remained else Length(n, rest)
  }

  /** How far a read moves the offset before the assert. */
  function Moved(n: nat, rest: nat, count: nat, remained: nat): nat
  {
    if count < n then Position(n, rest, count) + remained
    else if n == 0 then 0 else Position(n, rest, n - 1)
  }

  /** The buffer after a read. */
  function Buffer(buf: seq<byte>, memory: seq<byte>, n: nat, rest: nat, count: nat, remained: nat): (r: seq<byte>)
    requires rest < BLOCK_SIZE && |memory| == BLOCK_SIZE * n
    requires remained < BLOCK_SIZE && BLOCK_SIZE * count + remained <= |buf|
    ensures |r| == |buf|
  {
    if count < n then
      Overwrite(Filled(buf, memory, n, rest, count), Position(n, rest, count),
                memory[BLOCK_SIZE * count..BLOCK_SIZE * count + remained])
    else Filled(buf, memory, n, rest, n)
  }

  /** The whole outcome, from the offset the descriptor had. */
  function ReadAnswer(n: nat, rest: nat, count: nat, remained: nat, offset: nat): Answer
  {
    if FollowsNull(n, count, remained) then Abort
    else if offset + Moved(n, rest, count, remained) != Total(n, rest, count, remained) then Abort
    else Bytes(Total(n, rest, count, remained))
  }

  ghost predicate Readable(bs: seq<Block>, memory: array<byte>, rest: nat, buf: array<byte>)
    reads bs
  {
    && rest < BLOCK_SIZE && memory.Length == BLOCK_SIZE * |bs| && memory != buf
    && (bs != [] ==> Packed(bs, memory, rest))
    && (forall i {:trigger bs[i].next} | 0 <= i < |bs| :: bs[i].next == if i + 1 < |bs| then bs[i + 1] else null)
  }

  /** The memcpy of one turn of the loop. */
  method CopyBlock(buf: array<byte>, pos: nat, bl: Block, ghost k: nat, ghost before: seq<byte>,
                   ghost bs: seq<Block>, ghost memory: array<byte>, ghost rest: nat)
    requires Readable(bs, memory, rest, buf) && k < |bs| && bl == bs[k]
    requires BLOCK_SIZE * (k + 1) <= buf.Length == |before|
    requires pos == Position(|bs|, rest, k) && buf[..] == Filled(before, memory[..], |bs|, rest, k)
    modifies buf
    ensures buf[..] == Filled(before, memory[..], |bs|, rest, k + 1)
  {
    var chunk := bl.memory[bl.at..bl.at + bl.occupied];
    assert chunk == memory[..][BLOCK_SIZE * k..BLOCK_SIZE * k + Occupied(|bs|, rest, k)];
    Memcpy(buf, pos, chunk);
  }

  /** The memcpy behind the loop. */
  method CopyRemained(buf: array<byte>, pos: nat, bl: Block, ghost k: nat, remained: nat, ghost before: seq<byte>,
                      ghost bs: seq<Block>, ghost memory: array<byte>, ghost rest: nat)
    requires Readable(bs, memory, rest, buf) && k < |bs| && bl == bs[k]
    requires remained < BLOCK_SIZE && BLOCK_SIZE * k + remained <= buf.Length == |before|
    requires pos == Position(|bs|, rest, k) && buf[..] == Filled(before, memory[..], |bs|, rest, k)
    modifies buf
    ensures buf[..] == Buffer(before, memory[..], |bs|, rest, k, remained)
  {
    var chunk := bl.memory[bl.at..bl.at + remained];
    assert chunk == memory[..][BLOCK_SIZE * k..BLOCK_SIZE * k + remained];
    Memcpy(buf, pos, chunk);
  }

  /** Where the loop may stop: in front of block `block`, or behind the last one. */
  ghost predicate Stopped(n: nat, rest: nat, count: nat, block: nat, pos: nat, totalRead: nat)
  {
    if block < n then block == count && pos == Position(n, rest, block) && totalRead == BLOCK_SIZE * block
    else block == n <= count && (n == 0 ==> count == 0) && totalRead == Length(n, rest) && pos == if n == 0 then 0 else Position(n, rest, n - 1)
  }

  method ReadData(fd: FileDesc, buf: array<byte>, blockCount: nat, remained: nat,
                  ghost bs: seq<Block>, ghost memory: array<byte>, ghost rest: nat)
    returns (answer: Answer)
    requires Readable(bs, memory, rest, buf) && fd.file.blockList == if bs == [] then null else bs[0]
    requires remained < BLOCK_SIZE && BLOCK_SIZE * blockCount + remained <= buf.Length
    modifies fd`offset, buf
    ensures answer == ReadAnswer(|bs|, rest, blockCount, remained, old(fd.offset))
    ensures answer.Bytes? ==> buf[..] == Buffer(old(buf[..]), memory[..], |bs|, rest, blockCount, remained)
  {
    var totalRead, pos := 0, 0;
    var bl := fd.file.blockList;
    ghost var n := |bs|;
    ghost var before := buf[..];
    ghost var offset := fd.offset;
    var block := 0;
    while block < blockCount
      invariant block <= blockCount && (block < n || block == n == 0)
      invariant pos == (if n == 0 then 0 else Position(n, rest, block)) && totalRead == BLOCK_SIZE * block
      invariant bl == if block < n then bs[block] else null
      invariant fd.offset == offset + pos
      invariant buf[..] == Filled(before, memory[..], n, rest, block)
    {
      if bl == null {
        return Abort;
      }
      CopyBlock(buf, pos, bl, block, before, bs, memory, rest);
      totalRead := totalRead + bl.occupied;
      bl := bl.next;
      block := block + 1;
      if bl == null {
        break;
      }
      pos := pos + bl.occupied;
      fd.offset := fd.offset + bl.occupied;
    }
    assert Stopped(n, rest, blockCount, block, pos, totalRead);
    answer := ReadRest(fd, buf, pos, bl, block, totalRead, blockCount, remained, offset, before, bs, memory, rest);
  }

  /** What read_data does behind its loop. */
  method ReadRest(fd: FileDesc, buf: array<byte>, pos: nat, bl: Block?, ghost block: nat, total: nat,
                  ghost blockCount: nat, remained: nat, ghost offset: nat, ghost before: seq<byte>,
                  ghost bs: seq<Block>, ghost memory: array<byte>, ghost rest: nat)
    returns (answer: Answer)
    requires Readable(bs, memory, rest, buf) && Stopped(|bs|, rest, blockCount, block, pos, total)
    requires bl == (if block < |bs| then bs[block] else null) && fd.offset == offset + pos
    requires remained < BLOCK_SIZE && BLOCK_SIZE * blockCount + remained <= buf.Length == |before|
    requires buf[..] == Filled(before, memory[..], |bs|, rest, block)
    modifies fd`offset, buf
    ensures answer == ReadAnswer(|bs|, rest, blockCount, remained, offset)
    ensures answer.Bytes? ==> buf[..] == Buffer(before, memory[..], |bs|, rest, blockCount, remained)
  {
    var totalRead := total;
    if remained != 0 || bl != null {
      if bl == null {
        return Abort;
      }
      CopyRemained(buf, pos, bl, block, remained, before, bs, memory, rest);
      totalRead := totalRead + remained;
      fd.offset := fd.offset + remained;
    }
    if fd.offset != totalRead {
      return Abort;
    }
    answer := Bytes(totalRead);
  }

  lemma BlocksAreReadable(file: File, bs: seq<Block>, memory: array<byte>, rest: nat, buf: array<byte>)
    requires HasBlocks(file, bs, memory, rest) && rest < BLOCK_SIZE && memory.Length == BLOCK_SIZE * |bs| && memory != buf
    ensures Readable(bs, memory, rest, buf) && file.blockList == if bs == [] then null else bs[0]
  {
  }

  method UfsRead(fd: FileDesc?, buf: array<byte>, size: nat,
                 ghost bs: seq<Block>, ghost memory: array<byte>, ghost rest: nat)
    returns (answer: Answer)
    requires size <= buf.Length
    requires fd != null ==> HasBlocks(fd.file, bs, memory, rest)
    requires rest < BLOCK_SIZE && memory.Length == BLOCK_SIZE * |bs| && memory != buf
    modifies if fd == null then {} else {fd}, buf
    ensures fd == null ==> answer == Error(NoFile)
    ensures fd != null && fd.mode.WriteOnly? ==> answer == Error(NoPermission)
    ensures answer.Error? ==> buf[..] == old(buf[..]) && (fd != null ==> unchanged(fd))
    ensures fd != null && !fd.mode.WriteOnly? ==>
      answer == ReadAnswer(|bs|, rest, size / BLOCK_SIZE, size % BLOCK_SIZE, old(fd.offset))
    ensures answer.Bytes? ==> fd != null && fd.offset == answer.count
    ensures answer.Bytes? ==>
      buf[..] == Buffer(old(buf[..]), memory[..], |bs|, rest, size / BLOCK_SIZE, size % BLOCK_SIZE)
  {
    if fd == null {
      return Error(NoFile);
    }
    if !(fd.mode.ReadOnly? || fd.mode.ReadWrite?) {
      return Error(NoPermission);
    }
    BlocksAreReadable(fd.file, bs, memory, rest, buf);
    var blockCount := size / BLOCK_SIZE;
    var remained := size % BLOCK_SIZE;
    answer := ReadData(fd, buf, blockCount, remained, bs, memory, rest);
    if answer.Bytes? {
      fd.offset := answer.count;
    }
  }

  // ---- When a read works ----------------------------------------------------------------------

  /** The reads that end without an abort, by the offset of the descriptor: a read that stops before the
      last block wants offset 0, one that stops in it wants the bytes the last block falls short of a
      whole one, and one that goes through all of n blocks wants what the shortened advance left out. */
  lemma ReadEnds(n: nat, rest: nat, count: nat, remained: nat, offset: nat)
    requires rest < BLOCK_SIZE && remained < BLOCK_SIZE
    ensures !ReadAnswer(n, rest, count, remained, offset).Abort? <==>
      if n == 0 then count == 0 && remained == 0 && offset == 0
      else if count == 0 || count < n - 1 then offset == 0
      else if count == n - 1 then offset == BLOCK_SIZE - rest
      else remained == 0 && offset == if n == 1 then rest else BLOCK_SIZE
  {
  }

  /** Writing what follows a prefix of the memory extends the prefix. */
  lemma OverwriteAtSeam(buf: seq<byte>, memory: seq<byte>, at: nat, k: nat)
    requires at + k <= |memory| && at + k <= |buf|
    ensures Overwrite(memory[..at] + buf[at..], at, memory[at..at + k]) == memory[..at + k] + buf[at + k..]
  {
    var before := memory[..at] + buf[at..];
    assert before[..at] == memory[..at];
    assert before[at + k..] == buf[at + k..];
    assert memory[..at] + memory[at..at + k] == memory[..at + k];
  }

  /** What a read reports, when it ends: the bytes asked for as long as they lie within the blocks, be they occupied
      or not, and otherwise the length of the file. */
  lemma ReadReports(n: nat, rest: nat, s: nat, offset: nat)
    requires rest < 8 && n > 0
    ensures var answer := ReadAnswer(n, rest, s / 8, s % 8, offset);
      answer.Abort? || answer == Bytes(if s < 8 * n then s else 8 * (n - 1) + rest)
  {
  }

  /** A read that stops before the last block copies every block to the place it has in the file. */
  lemma {:induction false} BlocksInPlace(buf: seq<byte>, memory: seq<byte>, n: nat, rest: nat, k: nat)
    requires rest < BLOCK_SIZE && |memory| == BLOCK_SIZE * n && BLOCK_SIZE * k <= |buf|
    requires k == 0 || k < n
    ensures Filled(buf, memory, n, rest, k) == memory[..BLOCK_SIZE * k] + buf[BLOCK_SIZE * k..]
  {
    if k > 0 {
      BlocksInPlace(buf, memory, n, rest, k - 1);
      OverwriteAtSeam(buf, memory, BLOCK_SIZE * (k - 1), BLOCK_SIZE);
    }
  }

  lemma PrefixIsRead(buf: seq<byte>, memory: seq<byte>, n: nat, rest: nat, count: nat, remained: nat)
    requires rest < BLOCK_SIZE && |memory| == BLOCK_SIZE * n
    requires remained < BLOCK_SIZE && BLOCK_SIZE * count + remained <= |buf|
    requires count < n && (count == 0 || count < n - 1)
    ensures var s := BLOCK_SIZE * count + remained;
      Buffer(buf, memory, n, rest, count, remained) == memory[..s] + buf[s..]
  {
    BlocksInPlace(buf, memory, n, rest, count);
    OverwriteAtSeam(buf, memory, BLOCK_SIZE * count, remained);
  }

  /** The file up to its last block in the buffer, and then `chunk` 8 - rest bytes in front of the place of the last
      block, over the end of the block before it. */
  function Misplaced(buf: seq<byte>, memory: seq<byte>, last: nat, rest: nat, chunk: seq<byte>): seq<byte>
    requires rest < BLOCK_SIZE <= last <= |memory| && last - (BLOCK_SIZE - rest) + |chunk| <= |buf| && last <= |buf|
  {
    var at := last - (BLOCK_SIZE - rest);
    Overwrite(memory[..last] + buf[last..], at, chunk)
  }

  /** A read that stops in the last of several blocks copies that block too early. */
  lemma {:induction false} ReadInLastBlock(buf: seq<byte>, memory: seq<byte>, n: nat, rest: nat, remained: nat)
    requires rest < BLOCK_SIZE && |memory| == BLOCK_SIZE * n && n >= 2
    requires remained < BLOCK_SIZE && BLOCK_SIZE * (n - 1) + remained <= |buf|
    ensures var last := BLOCK_SIZE * (n - 1);
      Buffer(buf, memory, n, rest, n - 1, remained) == Misplaced(buf, memory, last, rest, memory[last..last + remained])
  {
    BlocksInPlace(buf, memory, n, rest, n - 1);
  }

  /** So does one that goes through it, with the bytes that it holds. */
  lemma {:induction false} ReadThroughLastBlock(buf: seq<byte>, memory: seq<byte>, n: nat, rest: nat, count: nat, remained: nat)
    requires rest < BLOCK_SIZE && |memory| == BLOCK_SIZE * n && 2 <= n <= count
    requires remained < BLOCK_SIZE && BLOCK_SIZE * count + remained <= |buf|
    ensures var last := BLOCK_SIZE * (n - 1);
      Buffer(buf, memory, n, rest, count, remained) == Misplaced(buf, memory, last, rest, memory[last..last + rest])
  {
    BlocksInPlace(buf, memory, n, rest, n - 1);
    FilledLast(buf, memory, n, rest);
  }

  lemma {:induction false} FilledLast(buf: seq<byte>, memory: seq<byte>, n: nat, rest: nat)
    requires n >= 1 && rest < BLOCK_SIZE && |memory| == BLOCK_SIZE * n && BLOCK_SIZE * n <= |buf|
    ensures var last := BLOCK_SIZE * (n - 1);
      Filled(buf, memory, n, rest, n)
        == Overwrite(Filled(buf, memory, n, rest, n - 1), Position(n, rest, n - 1), memory[last..last + rest])
  {
  }

  /** A read that goes through a single block copies what it holds. */
  lemma {:induction false} SingleBlockIsRead(buf: seq<byte>, memory: seq<byte>, rest: nat, count: nat, remained: nat)
    requires rest < BLOCK_SIZE && |memory| == BLOCK_SIZE && count >= 1
    requires remained < BLOCK_SIZE && BLOCK_SIZE * count + remained <= |buf|
    ensures Buffer(buf, memory, 1, rest, count, remained) == memory[..rest] + buf[rest..]
  {
    assert Filled(buf, memory, 1, rest, 0) == buf;
  }

  /** Reading s bytes at offset 0 from a file that was written with `size` bytes reports s exactly when the
      read stops before the last block or within the first. */
  lemma ReadReportsAll(size: nat, s: nat)
    requires size > 0
    ensures ReadAnswer(BlockCount(size), size % BLOCK_SIZE, s / BLOCK_SIZE, s % BLOCK_SIZE, 0) == Bytes(s)
      <==> s < BLOCK_SIZE || s / BLOCK_SIZE < BlockCount(size) - 1
  {
  }

  /** Then the buffer gets the first s bytes written, and zeros where fewer are kept. */
  lemma ReadAfterWrite(data: seq<byte>, memory: seq<byte>, size: nat, s: nat, buf: seq<byte>)
    requires 0 < size <= |data| && |memory| == BLOCK_SIZE * BlockCount(size) && Holds(memory, data, Kept(size))
    requires s <= |buf| && (s < BLOCK_SIZE || s / BLOCK_SIZE < BlockCount(size) - 1)
    ensures var after := Buffer(buf, memory, BlockCount(size), size % BLOCK_SIZE, s / BLOCK_SIZE, s % BLOCK_SIZE);
      && after[s..] == buf[s..]
      && (s <= Kept(size) ==> after[..s] == data[..s])
      && (s > Kept(size) ==> after[..s] == data[..Kept(size)] + Zeros(s - Kept(size)))
  {
    PrefixIsRead(buf, memory, BlockCount(size), size % BLOCK_SIZE, s / BLOCK_SIZE, s % BLOCK_SIZE);
    assert s == BLOCK_SIZE * (s / BLOCK_SIZE) + s % BLOCK_SIZE;
    var after := Buffer(buf, memory, BlockCount(size), size % BLOCK_SIZE, s / BLOCK_SIZE, s % BLOCK_SIZE);
    assert after[..s] == memory[..s];
    assert after[s..] == buf[s..];
    if s > Kept(size) {
      assert memory[..s] == data[..Kept(size)] + Zeros(s - Kept(size));
    }
  }

  /** A write leaves its count in the offset. Reading back through the same descriptor then aborts, except
      in files of a single block read in whole blocks and in two sizes that are multiples of eight. */
  lemma ReadBack(size: nat, s: nat)
    requires size > 0
    ensures !ReadAnswer(BlockCount(size), size % BLOCK_SIZE, s / BLOCK_SIZE, s % BLOCK_SIZE, Kept(size)).Abort?
      <==> || (size < BLOCK_SIZE && s >= BLOCK_SIZE && s % BLOCK_SIZE == 0)
           || (size == BLOCK_SIZE && (s < BLOCK_SIZE || s % BLOCK_SIZE == 0))
           || (size == 2 * BLOCK_SIZE && s >= BLOCK_SIZE && (s < 2 * BLOCK_SIZE || s % BLOCK_SIZE == 0))
  {
    ReadEnds(BlockCount(size), size % BLOCK_SIZE, s / BLOCK_SIZE, s % BLOCK_SIZE, Kept(size));
  }
}
