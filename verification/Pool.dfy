/** A pool that hands out blocks of memory from chunks and takes them back all at once. */
module Pool {
  import opened Wrappers

  /** Sizes are 64 bits wide. */
  const WORD: nat := 0x1_0000_0000_0000_0000

  /** The size of a chunk's header, a multiple of the alignment. */
  const HEADER: nat := 24

  /** The next multiple of eight, modulo the word size. */
  function Align(x: nat): nat
    requires x < WORD
  {
    (x + 7) % WORD / 8 * 8
  }

  /** Aligning adds less than eight, but for the seven largest sizes, which become zero. */
  lemma AlignFits(x: nat)
    requires x < WORD
    ensures Align(x) % 8 == 0 && (x <= Align(x) < x + 8 <==> x + 7 < WORD) && (x + 7 >= WORD ==> Align(x) == 0)
  {
    if x + 7 < WORD {
      assert (x + 7) % WORD == x + 7;
    } else {
      assert (x + 7) % WORD == x + 7 - WORD;
    }
  }

  datatype Chunk = Chunk(at: nat, capacity: nat, size: nat)

  datatype Block = Block(at: nat, size: nat)

  predicate Apart(a: nat, n: nat, b: nat, m: nat) {
    a + n <= b || b + m <= a
  }

  // ----- chunks and blocks -----

  /** A chunk lies in the memory, and its size is that of blocks it has room for. */
  predicate Sound(c: Chunk, memory: nat) {
    c.at + HEADER + c.capacity <= memory && c.size <= c.capacity && c.size % 8 == 0
  }

  /** The chunks are in memory and do not overlap. */
  ghost predicate AllSound(chunks: seq<Chunk>, memory: nat) {
    && (forall k :: 0 <= k < |chunks| ==> Sound(chunks[k], memory))
    && forall j, k :: 0 <= j < k < |chunks| ==>
         Apart(chunks[j].at, HEADER + chunks[j].capacity, chunks[k].at, HEADER + chunks[k].capacity)
  }

  /** The block lies in what the chunk has handed out, in step with the chunk's own address. */
  predicate Holds(c: Chunk, b: Block) {
    c.at + HEADER <= b.at && b.at + b.size <= c.at + HEADER + c.size && (b.at - c.at) % 8 == 0 && b.size % 8 == 0
      && b.size > 0
  }

  ghost predicate Held(chunks: seq<Chunk>, b: Block) {
    exists k :: 0 <= k < |chunks| && Holds(chunks[k], b)
  }

  ghost predicate Disjoint(blocks: seq<Block>) {
    forall i, j :: 0 <= i < j < |blocks| ==> Apart(blocks[i].at, blocks[i].size, blocks[j].at, blocks[j].size)
  }

  ghost predicate AllHeld(chunks: seq<Chunk>, blocks: seq<Block>) {
    (forall b :: b in blocks ==> Held(chunks, b)) && Disjoint(blocks)
  }

  /** The bytes from a to a + n do not overlap a chunk. */
  ghost predicate Free(chunks: seq<Chunk>, memory: nat, a: nat, n: nat) {
    a + n <= memory && forall k :: 0 <= k < |chunks| ==> Apart(a, n, chunks[k].at, HEADER + chunks[k].capacity)
  }

  /** The base allocator's answer to a request of n bytes: free memory, or none. */
  type Grant = nat -> Option<nat>

  ghost predicate Honest(grant: Grant, chunks: seq<Chunk>, memory: nat) {
    forall n: nat :: n < WORD && grant(n).Some? ==> Free(chunks, memory, grant(n).value, n)
  }

  lemma NewChunk(chunks: seq<Chunk>, blocks: seq<Block>, memory: nat, a: nat, capacity: nat)
    requires AllSound(chunks, memory) && AllHeld(chunks, blocks) && Free(chunks, memory, a, HEADER + capacity)
    ensures AllSound([Chunk(a, capacity, 0)] + chunks, memory) && AllHeld([Chunk(a, capacity, 0)] + chunks, blocks)
  {
    var more := [Chunk(a, capacity, 0)] + chunks;
    forall b | b in blocks ensures Held(more, b) {
      var k :| 0 <= k < |chunks| && Holds(chunks[k], b);
      assert more[k + 1] == chunks[k];
    }
  }

  /** The head chunk hands out s bytes more. */
  function Grown(chunks: seq<Chunk>, s: nat): seq<Chunk>
    requires chunks != []
  {
    chunks[0 := chunks[0].(size := chunks[0].size + s)]
  }

  /** Where the head chunk's next block starts. */
  function Next(chunks: seq<Chunk>): nat
    requires chunks != []
  {
    chunks[0].at + HEADER + chunks[0].size
  }

  lemma GrownIsSound(chunks: seq<Chunk>, blocks: seq<Block>, memory: nat, s: nat)
    requires AllSound(chunks, memory) && AllHeld(chunks, blocks) && chunks != [] && s % 8 == 0
    requires chunks[0].size + s <= chunks[0].capacity
    ensures AllSound(Grown(chunks, s), memory) && AllHeld(Grown(chunks, s), blocks)
  {
    var more := Grown(chunks, s);
    assert (chunks[0].size + s) % 8 == 0;
    forall b | b in blocks ensures Held(more, b) {
      var k :| 0 <= k < |chunks| && Holds(chunks[k], b);
      assert Holds(more[k], b);
    }
  }

  /** A new block at the end of the head chunk is apart from all others. */
  lemma NewBlock(chunks: seq<Chunk>, blocks: seq<Block>, memory: nat, s: nat)
    requires AllSound(chunks, memory) && AllHeld(chunks, blocks) && chunks != [] && s % 8 == 0 && s > 0
    requires chunks[0].size + s <= chunks[0].capacity
    ensures AllSound(Grown(chunks, s), memory) && AllHeld(Grown(chunks, s), blocks + [Block(Next(chunks), s)])
  {
    var b := Block(Next(chunks), s);
    GrownIsSound(chunks, blocks, memory, s);
    assert Holds(Grown(chunks, s)[0], b);
    forall i | 0 <= i < |blocks| ensures Apart(blocks[i].at, blocks[i].size, b.at, b.size) {
      assert blocks[i] in blocks;
      var k :| 0 <= k < |chunks| && Holds(chunks[k], blocks[i]);
      if k > 0 { assert Apart(chunks[0].at, HEADER + chunks[0].capacity, chunks[k].at, HEADER + chunks[k].capacity); }
    }
  }

  /** The last block of the head chunk grows in place. */
  lemma LastBlockGrows(chunks: seq<Chunk>, blocks: seq<Block>, memory: nat, i: nat, s: nat)
    requires AllSound(chunks, memory) && AllHeld(chunks, blocks) && chunks != [] && s % 8 == 0 && i < |blocks|
    requires chunks[0].size + s <= chunks[0].capacity && blocks[i].at + blocks[i].size == Next(chunks)
      && Holds(chunks[0], blocks[i])
    ensures AllSound(Grown(chunks, s), memory)
    ensures AllHeld(Grown(chunks, s), blocks[i := Block(blocks[i].at, blocks[i].size + s)])
  {
    var b, more := Block(blocks[i].at, blocks[i].size + s), Grown(chunks, s);
    GrownIsSound(chunks, blocks, memory, s);
    assert (blocks[i].size + s) % 8 == 0;
    assert Holds(more[0], b);
    forall j | 0 <= j < |blocks| && j != i ensures Apart(blocks[j].at, blocks[j].size, b.at, b.size) {
      assert blocks[j] in blocks;
      var k :| 0 <= k < |chunks| && Holds(chunks[k], blocks[j]);
      if k > 0 { assert Apart(chunks[0].at, HEADER + chunks[0].capacity, chunks[k].at, HEADER + chunks[k].capacity); }
      if j < i { assert Apart(blocks[j].at, blocks[j].size, blocks[i].at, blocks[i].size); }
      if i < j { assert Apart(blocks[i].at, blocks[i].size, blocks[j].at, blocks[j].size); }
    }
  }

  // ----- totals -----

  function Capacities(chunks: seq<Chunk>): nat {
    if chunks == [] then 0 else chunks[0].capacity + Capacities(chunks[1..])
  }

  function Sizes(chunks: seq<Chunk>): nat {
    if chunks == [] then 0 else chunks[0].size + Sizes(chunks[1..])
  }

  lemma {:induction false} SizesWithinCapacities(chunks: seq<Chunk>, memory: nat)
    requires forall k :: 0 <= k < |chunks| ==> Sound(chunks[k], memory)
    ensures Sizes(chunks) <= Capacities(chunks)
  {
    if chunks != [] { SizesWithinCapacities(chunks[1..], memory); }
  }

  /** The bytes of all blocks that were handed out. */
  function Handed(blocks: seq<Block>): nat {
    if blocks == [] then 0 else Handed(blocks[..|blocks| - 1]) + blocks[|blocks| - 1].size
  }

  lemma HandedNext(blocks: seq<Block>, b: Block)
    ensures Handed(blocks + [b]) == Handed(blocks) + b.size
  {
    assert (blocks + [b])[..|blocks|] == blocks;
  }

  lemma {:induction false} HandedChanged(blocks: seq<Block>, i: nat, b: Block)
    requires i < |blocks|
    ensures Handed(blocks[i := b]) == Handed(blocks) - blocks[i].size + b.size
  {
    var n := |blocks| - 1;
    if i < n {
      HandedChanged(blocks[..n], i, b);
      assert blocks[i := b][..n] == blocks[..n][i := b];
    } else {
      assert blocks[i := b][..n] == blocks[..n];
    }
  }

  lemma SizesGrown(chunks: seq<Chunk>, s: nat)
    requires chunks != []
    ensures Sizes(Grown(chunks, s)) == Sizes(chunks) + s
  {
    assert Grown(chunks, s)[1..] == chunks[1..];
  }

  lemma SizesMore(chunks: seq<Chunk>, c: Chunk)
    ensures Sizes([c] + chunks) == c.size + Sizes(chunks)
  {
    assert ([c] + chunks)[1..] == chunks;
  }

  /** The chunks lie in the memory, the blocks in the chunks, and the chunks have handed out just them; locked. */
  ghost predicate Standing(chunks: seq<Chunk>, blocks: seq<Block>, memory: nat) {
    forall key: nat {:trigger Unlock(key)} :: Unlock(key) ==>
      AllSound(chunks, memory) && AllHeld(chunks, blocks) && Sizes(chunks) == Handed(blocks)
  }

  lemma BlocksApart(chunks: seq<Chunk>, blocks: seq<Block>, memory: nat)
    requires Standing(chunks, blocks, memory)
    ensures Disjoint(blocks)
  {
    assert Unlock(0);
  }

  lemma WithinCapacities(chunks: seq<Chunk>, blocks: seq<Block>, memory: nat)
    requires Standing(chunks, blocks, memory)
    ensures Sizes(chunks) == Handed(blocks) && Sizes(chunks) <= Capacities(chunks)
  {
    assert Unlock(0);
    SizesWithinCapacities(chunks, memory);
  }

  /** A new chunk, with nothing handed out yet. */
  lemma ChunkAdded(chunks: seq<Chunk>, blocks: seq<Block>, memory: nat, a: nat, capacity: nat)
    requires Standing(chunks, blocks, memory) && Free(chunks, memory, a, HEADER + capacity)
    ensures Standing([Chunk(a, capacity, 0)] + chunks, blocks, memory)
  {
    assert Unlock(0);
    NewChunk(chunks, blocks, memory, a, capacity);
    SizesMore(chunks, Chunk(a, capacity, 0));
  }

  // ----- requests that do not fit in a word -----

  /** Some sum that the request for `size` bytes leads to does not fit in a word. */
  predicate Wraps(chunks: seq<Chunk>, size: nat)
    requires size < WORD
  {
    size + 7 >= WORD || HEADER + Align(size) >= WORD || (chunks != [] && chunks[0].size + Align(size) >= WORD)
  }

  /** Whether the head chunk is taken to have room for s bytes more. */
  predicate HasRoom(chunks: seq<Chunk>, s: nat) {
    chunks != [] && (chunks[0].size + s) % WORD <= chunks[0].capacity
  }

  /** Whether the head chunk has s bytes left. */
  predicate Left(chunks: seq<Chunk>, s: nat) {
    chunks != [] && chunks[0].size + s <= chunks[0].capacity
  }

  /** When nothing wraps, there is room exactly when there seems to be. */
  lemma RoomIsReal(chunks: seq<Chunk>, size: nat)
    requires size < WORD && !Wraps(chunks, size)
    ensures HasRoom(chunks, Align(size)) <==> Left(chunks, Align(size))
  {}

  /** How large a chunk for a block of s bytes is. */
  function NewCapacity(chunkCapacity: nat, s: nat): nat {
    if chunkCapacity > s then chunkCapacity else s
  }

  /** The chunks after s bytes have been handed out: the head has them, or a new one had to be put in front of it. */
  ghost predicate HandedOut(was: seq<Chunk>, now: seq<Chunk>, s: nat, chunkCapacity: nat, grant: Grant) {
    if Left(was, s) then now == Grown(was, s)
    else
      var a := grant(HEADER + NewCapacity(chunkCapacity, s));
      a.Some? && now == [Chunk(a.value, NewCapacity(chunkCapacity, s), s)] + was
  }

  /** Without a wrapped sum: the answer to a request for s bytes, and the chunks afterwards.  There is none exactly if
      the head has too few bytes left and the base allocator refuses a chunk. */
  ghost predicate Served(was: seq<Chunk>, now: seq<Chunk>, s: nat, chunkCapacity: nat, grant: Grant, r: Option<nat>) {
    && (r.None? <==> !Left(was, s) && grant(HEADER + NewCapacity(chunkCapacity, s)).None?)
    && if r.None? then now == was else HandedOut(was, now, s, chunkCapacity, grant) && Next(now) == r.value + s
  }

  /** The next bytes of the head chunk are a block that may be handed out. */
  lemma NextTaken(chunks: seq<Chunk>, blocks: seq<Block>, memory: nat, s: nat)
    requires Standing(chunks, blocks, memory) && memory < WORD && s % 8 == 0 && s > 0 && Left(chunks, s)
    ensures Standing(Grown(chunks, s), blocks + [Block(Next(chunks), s)], memory)
    ensures Next(chunks) + s <= memory && (chunks[0].size + s) % WORD == chunks[0].size + s
  {
    assert Unlock(0);
    NewBlock(chunks, blocks, memory, s);
    SizesGrown(chunks, s);
    HandedNext(blocks, Block(Next(chunks), s));
    assert Sound(chunks[0], memory);
  }

  /** When something wraps, there seems to be room for what would not even fit in the memory. */
  lemma WrapsOutside(chunks: seq<Chunk>, blocks: seq<Block>, memory: nat, size: nat, at: nat)
    requires size < WORD && Wraps(chunks, size) && memory + 8 <= WORD && Standing(chunks, blocks, memory)
    requires at >= HEADER && (HasRoom(chunks, Align(size)) ==> at == Next(chunks))
    ensures at + size > memory && (size % 8 == 0 ==> at + size >= WORD)
  {
    assert Unlock(0);
    AlignFits(size);
    var s := Align(size);
    if size + 7 < WORD && HEADER + s < WORD {
      assert Sound(chunks[0], memory);
      assert (chunks[0].size + s) % WORD == chunks[0].size + s - WORD;
    }
  }

  // ----- blocks asked for again -----

  /** The block that ends where the next one starts is the last one of the head chunk. */
  lemma LastBlock(chunks: seq<Chunk>, blocks: seq<Block>, memory: nat, i: nat, n: nat)
    requires AllSound(chunks, memory) && AllHeld(chunks, blocks) && chunks != [] && i < |blocks|
    requires n <= blocks[i].size && blocks[i].at + n == Next(chunks)
    ensures n == blocks[i].size && Holds(chunks[0], blocks[i])
  {
    assert blocks[i] in blocks;
    var k :| 0 <= k < |chunks| && Holds(chunks[k], blocks[i]);
    assert Sound(chunks[k], memory) && Sound(chunks[0], memory);
  }

  /** A block of at least `size` bytes was handed out at that address. */
  ghost predicate Owned(blocks: seq<Block>, at: nat, size: nat) {
    exists i :: 0 <= i < |blocks| && blocks[i].at == at && size <= blocks[i].size
  }

  /** Blocks are aligned when the chunks are. */
  lemma BlocksAligned(chunks: seq<Chunk>, blocks: seq<Block>)
    requires AllHeld(chunks, blocks) && forall k :: 0 <= k < |chunks| ==> chunks[k].at % 8 == 0
    ensures forall b :: b in blocks ==> b.at % 8 == 0
  {
    forall b | b in blocks ensures b.at % 8 == 0 {
      var k :| 0 <= k < |chunks| && Holds(chunks[k], b);
      assert b.at == chunks[k].at + (b.at - chunks[k].at);
    }
  }

  /** The block at p, of n bytes, is the last one of the head chunk. */
  predicate AtEnd(chunks: seq<Chunk>, p: nat, n: nat) {
    chunks != [] && p + n == Next(chunks)
  }

  /** A block of n bytes at p is taken to grow to m bytes where it is. */
  predicate GrowsInPlace(chunks: seq<Chunk>, p: nat, n: nat, m: nat)
    requires n <= m
  {
    AtEnd(chunks, p, n) && HasRoom(chunks, m - n)
  }

  /** Some sum that growing the block at p from n to m bytes leads to does not fit in a word. */
  predicate GrowWraps(chunks: seq<Chunk>, p: nat, n: nat, m: nat)
    requires n <= m < WORD
  {
    if GrowsInPlace(chunks, p, n, m) then chunks[0].size + (m - n) >= WORD else Wraps(chunks, m)
  }

  /** Some sum that resizing the block at p leads to does not fit in a word. */
  predicate ResizeWraps(chunks: seq<Chunk>, p: nat, originalSize: nat, newSize: nat)
    requires originalSize < WORD && newSize < WORD
  {
    || newSize + 7 >= WORD
    || (Align(originalSize) < Align(newSize) && GrowWraps(chunks, p, Align(originalSize), Align(newSize)))
  }

  /** A block that is handed out is in memory, and an honest size rounded up is still within the block. */
  lemma OwnedSize(chunks: seq<Chunk>, blocks: seq<Block>, memory: nat, p: nat, size: nat)
    requires Standing(chunks, blocks, memory) && memory + 8 <= WORD && Owned(blocks, p, size)
    ensures size + 7 < WORD && size <= Align(size) && Owned(blocks, p, Align(size)) && p + Align(size) <= memory
      && chunks != []
  {
    assert Unlock(0);
    var i :| 0 <= i < |blocks| && blocks[i].at == p && size <= blocks[i].size;
    assert blocks[i] in blocks;
    var k :| 0 <= k < |chunks| && Holds(chunks[k], blocks[i]);
    assert Sound(chunks[k], memory);
    AlignFits(size);
    assert Align(size) <= blocks[i].size;
  }

  lemma OwnedLess(blocks: seq<Block>, p: nat, n: nat, m: nat)
    requires Owned(blocks, p, n) && m <= n
    ensures Owned(blocks, p, m)
  {
    var i :| 0 <= i < |blocks| && blocks[i].at == p && n <= blocks[i].size;
    assert m <= blocks[i].size;
  }

  lemma InBounds(chunks: seq<Chunk>, blocks: seq<Block>, memory: nat)
    requires Standing(chunks, blocks, memory)
    ensures forall b :: b in blocks ==> b.at + b.size <= memory
  {
    assert Unlock(0);
    forall b | b in blocks ensures b.at + b.size <= memory {
      var k :| 0 <= k < |chunks| && Holds(chunks[k], b);
      assert Sound(chunks[k], memory);
    }
  }

  /** The n bytes that were at p are now at r. */
  predicate Kept(was: seq<nat>, now: seq<nat>, p: nat, r: nat, n: nat) {
    p + n <= |was| && r + n <= |now| && now[r..r + n] == was[p..p + n]
  }

  ghost predicate AllKept(blocks: seq<Block>, was: seq<nat>, now: seq<nat>) {
    forall b :: b in blocks ==> Kept(was, now, b.at, b.at, b.size)
  }

  /** Blocks that are apart from the bytes that were copied are kept. */
  lemma OthersKept(blocks: seq<Block>, b: Block, was: seq<nat>, now: seq<nat>)
    requires Disjoint(blocks + [b]) && |was| == |now|
    requires forall x :: x in blocks ==> x.at + x.size <= |was|
    requires forall a :: 0 <= a < |now| && !(b.at <= a < b.at + b.size) ==> now[a] == was[a]
    ensures AllKept(blocks, was, now)
  {
    forall x | x in blocks ensures Kept(was, now, x.at, x.at, x.size) {
      var i :| 0 <= i < |blocks| && blocks[i] == x;
      var all := blocks + [b];
      assert Apart(all[i].at, all[i].size, all[|blocks|].at, all[|blocks|].size);
    }
  }

  /** What is handed out next is apart from what is owned. */
  lemma OwnedApart(blocks: seq<Block>, b: Block, p: nat, n: nat)
    requires Disjoint(blocks + [b]) && Owned(blocks, p, n)
    ensures Apart(p, n, b.at, b.size)
  {
    var i :| 0 <= i < |blocks| && blocks[i].at == p && n <= blocks[i].size;
    var all := blocks + [b];
    assert Apart(all[i].at, all[i].size, all[|blocks|].at, all[|blocks|].size);
  }

  /** What resizing the n bytes at p to m does to the blocks: one grew, one was added, or nothing changed. */
  ghost predicate Resized(was: seq<Block>, now: seq<Block>, p: nat, r: Option<nat>, m: nat) {
    match r
    case None => now == was
    case Some(at) =>
      && Owned(now, at, m)
      && (|| (at == p && now == was)
          || (at == p && exists i ::
             0 <= i < |was| && was[i].at == p && was[i].size < m && now == was[i := Block(p, m)])
          || now == was + [Block(at, m)])
  }

  lemma MovedIsResized(was: seq<Block>, now: seq<Block>, p: nat, r: Option<nat>, m: nat)
    requires now == was + if r.Some? then [Block(r.value, m)] else []
    ensures Resized(was, now, p, r, m)
  {
    if r.Some? { assert now[|was|] == Block(r.value, m); }
  }

  /** Without a wrapped sum: the answer to a request to resize n bytes at p to m, and the chunks and blocks afterwards.
      The block stays if it need not grow, or if it is the last one of the head chunk and that has enough bytes left;
      otherwise a new one is served. */
  ghost predicate Answered(was: seq<Chunk>, now: seq<Chunk>, blocks: seq<Block>, blocks': seq<Block>, p: nat, n: nat,
      m: nat, chunkCapacity: nat, grant: Grant, r: Option<nat>)
  {
    if m <= n then r == Some(p) && now == was && blocks' == blocks
    else if was != [] && p + n == Next(was) && Left(was, m - n) then r == Some(p) && now == Grown(was, m - n)
    else
      Served(was, now, m, chunkCapacity, grant, r) && blocks' == blocks + if r.Some? then [Block(r.value, m)] else []
  }

  /** What it does to the bytes: those of the blocks are kept, and the new block has those that were asked for. */
  ghost predicate BytesKept(blocks: seq<Block>, was: seq<nat>, now: seq<nat>, p: nat, r: Option<nat>, n: nat) {
    AllKept(blocks, was, now) && (r.Some? ==> Kept(was, now, p, r.value, n))
  }

  /** The block at p grows in place: the blocks afterwards. */
  lemma GrownBlock(chunks: seq<Chunk>, blocks: seq<Block>, memory: nat, p: nat, n: nat, m: nat)
    returns (now: seq<Block>)
    requires Standing(chunks, blocks, memory) && Owned(blocks, p, n) && AtEnd(chunks, p, n)
    requires n < m && n % 8 == 0 && m % 8 == 0 && Left(chunks, m - n)
    ensures Standing(Grown(chunks, m - n), now, memory) && Resized(blocks, now, p, Some(p), m) && p + m <= memory
  {
    assert Unlock(0);
    var i :| 0 <= i < |blocks| && blocks[i].at == p && n <= blocks[i].size;
    SizesGrown(chunks, m - n);
    HandedChanged(blocks, i, Block(p, m));
    LastBlock(chunks, blocks, memory, i, n);
    LastBlockGrows(chunks, blocks, memory, i, m - n);
    assert Sound(chunks[0], memory);
    now := blocks[i := Block(p, m)];
    assert now[i].at == p && m <= now[i].size;
  }

  lemma SameBytes(blocks: seq<Block>, memory: seq<nat>, p: nat, n: nat)
    requires Owned(blocks, p, n) && forall b :: b in blocks ==> b.at + b.size <= |memory|
    ensures AllKept(blocks, memory, memory) && Kept(memory, memory, p, p, n)
  {
    var i :| 0 <= i < |blocks| && blocks[i].at == p && n <= blocks[i].size;
    assert blocks[i] in blocks;
  }

  lemma KeptLess(was: seq<nat>, now: seq<nat>, p: nat, r: nat, n: nat, less: nat)
    requires less <= n
    ensures Kept(was, now, p, r, n) ==> Kept(was, now, p, r, less)
  {
    if Kept(was, now, p, r, n) {
      assert now[r..r + less] == now[r..r + n][..less] == was[p..p + n][..less] == was[p..p + less];
    }
  }

  /** Chunks that do not overlap have different addresses. */
  lemma AddressesDiffer(chunks: seq<Chunk>, blocks: seq<Block>, memory: nat)
    requires Standing(chunks, blocks, memory)
    ensures forall k :: 0 <= k < |chunks| - 1 ==> chunks[k].at != chunks[|chunks| - 1].at
  {
    assert Unlock(0);
    forall k | 0 <= k < |chunks| - 1 ensures chunks[k].at != chunks[|chunks| - 1].at {
      assert Apart(chunks[k].at, HEADER + chunks[k].capacity,
                   chunks[|chunks| - 1].at, HEADER + chunks[|chunks| - 1].capacity);
    }
  }

  /** At most the last chunk is left, and it is empty. */
  lemma Cleared(was: seq<Chunk>, blocks: seq<Block>, now: seq<Chunk>, memory: nat)
    requires Standing(was, blocks, memory)
    requires now == [] || (was != [] && now == [was[|was| - 1].(size := 0)])
    ensures Standing(now, [], memory)
  {
    assert Unlock(0);
    if now != [] { assert Sound(was[|was| - 1], memory); }
  }

  // ----- the pool -----

  class MemoryPool {
    const memory: array<nat>
    const chunkCapacity: nat
    const userBuffer: Option<nat>
    /** The chunks, the head first; only the head hands out blocks. */
    var chunks: seq<Chunk>
    /** The blocks handed out since the pool was last cleared. */
    ghost var blocks: seq<Block>

    ghost predicate Valid()
      reads `chunks, `blocks
    {
      && memory.Length + 8 <= WORD && HEADER + chunkCapacity < WORD
      && Standing(chunks, blocks, memory.Length)
      && (userBuffer.Some? ==> chunks != [] && chunks[|chunks| - 1].at == userBuffer.value)
    }

    /** A pool without a chunk, or with a buffer of the user's as its first one. */
    constructor (memory: array<nat>, chunkCapacity: nat, buffer: Option<Block>)
      requires memory.Length + 8 <= WORD && HEADER + chunkCapacity < WORD
      requires buffer.Some? ==> buffer.value.size > HEADER && buffer.value.at + buffer.value.size <= memory.Length
      ensures Valid() && blocks == [] && this.memory == memory && this.chunkCapacity == chunkCapacity
      ensures userBuffer == if buffer.Some? then Some(buffer.value.at) else None
      ensures chunks == if buffer.Some? then [Chunk(buffer.value.at, buffer.value.size - HEADER, 0)] else []
    {
      this.memory, this.chunkCapacity := memory, chunkCapacity;
      userBuffer := if buffer.Some? then Some(buffer.value.at) else None;
      chunks := if buffer.Some? then [Chunk(buffer.value.at, buffer.value.size - HEADER, 0)] else [];
      blocks := [];
    }

    /** Puts a new chunk at the head. */
    method AddChunk(capacity: nat, grant: Grant) returns (ok: bool)
      requires Valid() && capacity < WORD && Honest(grant, chunks, memory.Length)
      modifies `chunks
      ensures HEADER + capacity < WORD ==> Valid()
      ensures ok == grant((HEADER + capacity) % WORD).Some?
      ensures chunks == if ok then [Chunk(grant((HEADER + capacity) % WORD).value, capacity, 0)] + old(chunks)
        else old(chunks)
    {
      var at := grant((HEADER + capacity) % WORD);
      if at.None? {
        return false;
      }
      if HEADER + capacity < WORD { ChunkAdded(chunks, blocks, memory.Length, at.value, capacity); }
      chunks := [Chunk(at.value, capacity, 0)] + chunks;
      return true;
    }

    /** Hands out the next s bytes of the head chunk. */
    method Take(s: nat) returns (at: nat)
      requires chunks != []
      modifies `chunks, `blocks
      ensures at == Next(old(chunks)) && blocks == old(blocks) + [Block(at, s)]
      ensures old(Valid()) && s % 8 == 0 && s > 0 && Left(old(chunks), s) ==>
        Valid() && at + s <= memory.Length && chunks == Grown(old(chunks), s)
    {
      at := Next(chunks);
      if Valid() && s % 8 == 0 && s > 0 && Left(chunks, s) { NextTaken(chunks, blocks, memory.Length, s); }
      blocks := blocks + [Block(at, s)];
      chunks := chunks[0 := chunks[0].(size := (chunks[0].size + s) % WORD)];
    }

    /** Puts a new chunk at the head if the one there is has too little room. */
    method MakeRoom(size: nat, s: nat, grant: Grant) returns (ok: bool)
      requires Valid() && 0 < size < WORD && s == Align(size) && Honest(grant, chunks, memory.Length)
      modifies `chunks
      ensures ok <==> HasRoom(old(chunks), s) || grant((HEADER + NewCapacity(chunkCapacity, s)) % WORD).Some?
      ensures !ok ==> chunks == old(chunks)
      ensures ok ==> chunks != [] && Next(chunks) >= HEADER
      ensures HasRoom(old(chunks), s) ==> chunks == old(chunks)
      ensures !Wraps(old(chunks), size) ==> Valid() && (ok ==> Left(chunks, s))
      ensures ok && !Wraps(old(chunks), size) ==> HandedOut(old(chunks), Grown(chunks, s), s, chunkCapacity, grant)
    {
      if !Wraps(chunks, size) { RoomIsReal(chunks, size); }
      ok := true;
      if !HasRoom(chunks, s) {
        ok := AddChunk(if chunkCapacity > s then chunkCapacity else s, grant);
      }
    }

    /** Hands out a block; nothing for no bytes, and none if there is no memory.  Unless a sum wraps, the block is the
        next one of the head chunk, which is a new one if there was too little room. */
    method Malloc(size: nat, grant: Grant) returns (r: Option<nat>)
      requires Valid() && size < WORD && Honest(grant, chunks, memory.Length)
      modifies `chunks, `blocks
      ensures size == 0 ==> r == None && chunks == old(chunks) && blocks == old(blocks)
      ensures r.None? <==> (size == 0 || (!HasRoom(old(chunks), Align(size)) &&
        grant((HEADER + NewCapacity(chunkCapacity, Align(size))) % WORD).None?))
      ensures !Wraps(old(chunks), size) ==>
        Valid() && blocks == old(blocks) + if r.Some? then [Block(r.value, Align(size))] else []
      ensures !Wraps(old(chunks), size) && size > 0 ==>
        Served(old(chunks), chunks, Align(size), chunkCapacity, grant, r)
      ensures r.Some? ==> (r.value + size <= memory.Length <==> !Wraps(old(chunks), size))
      ensures r.Some? && Wraps(old(chunks), size) && size % 8 == 0 ==> r.value + size >= WORD
    {
      if size == 0 {
        return None;
      }
      AlignFits(size);
      var s := Align(size);
      if !Wraps(chunks, size) { RoomIsReal(chunks, size); }
      var ok := MakeRoom(size, s, grant);
      if !ok {
        return None;
      }
      var at := Take(s);
      if Wraps(old(chunks), size) { WrapsOutside(old(chunks), old(blocks), memory.Length, size, at); }
      return Some(at);
    }

    /** Copies n bytes to a part of the memory that does not overlap them. */
    method Copy(from: nat, to: nat, n: nat)
      requires from + n <= memory.Length && to + n <= memory.Length && Apart(from, n, to, n)
      modifies memory
      ensures Kept(old(memory[..]), memory[..], from, to, n)
      ensures forall a :: 0 <= a < memory.Length && !(to <= a < to + n) ==> memory[a] == old(memory[a])
    {
      for k := 0 to n
        invariant forall a :: 0 <= a < memory.Length ==>
          memory[a] == if to <= a < to + k then old(memory[from + (a - to)]) else old(memory[a])
      {
        memory[to + k] := memory[from + k];
      }
    }

    /** Copies the n bytes at p to the start of block b, which is apart from the others. */
    method CopyTo(ghost others: seq<Block>, b: Block, p: nat, n: nat)
      requires Disjoint(others + [b]) && Owned(others, p, n) && n <= b.size
      requires p + n <= memory.Length && b.at + b.size <= memory.Length
      requires forall x :: x in others ==> x.at + x.size <= memory.Length
      modifies memory
      ensures BytesKept(others, old(memory[..]), memory[..], p, Some(b.at), n)
    {
      OwnedApart(others, b, p, n);
      Copy(p, b.at, n);
      OthersKept(others, b, old(memory[..]), memory[..]);
    }

    /** Lets the last block of the head chunk grow from n to m bytes where it is. */
    method Extend(p: nat, n: nat, m: nat)
      requires Valid() && Owned(blocks, p, n) && n < m && n % 8 == 0 && m % 8 == 0 && GrowsInPlace(chunks, p, n, m)
      modifies `chunks, `blocks
      ensures old(chunks[0].size) + (m - n) < WORD ==>
        Valid() && p + m <= memory.Length && Resized(old(blocks), blocks, p, Some(p), m)
        && chunks == Grown(old(chunks), m - n)
      ensures old(chunks[0].size) + (m - n) >= WORD ==> p + m >= WORD
    {
      if chunks[0].size + (m - n) < WORD {
        blocks := GrownBlock(chunks, blocks, memory.Length, p, n, m);
      }
      chunks := chunks[0 := chunks[0].(size := (chunks[0].size + (m - n)) % WORD)];
    }

    /** Asks for a block of m bytes and copies the n bytes at p to it. */
    method Move(p: nat, n: nat, m: nat, grant: Grant) returns (r: Option<nat>)
      requires Valid() && Owned(blocks, p, n) && p + n <= memory.Length && n < m < WORD && m % 8 == 0
      requires Honest(grant, chunks, memory.Length)
      requires forall b :: b in blocks ==> b.at + b.size <= memory.Length
      modifies `chunks, `blocks, memory
      ensures !Wraps(old(chunks), m) ==> Valid() && (r.Some? ==> r.value + m <= memory.Length)
      ensures !Wraps(old(chunks), m) ==> blocks == old(blocks) + if r.Some? then [Block(r.value, m)] else []
      ensures !Wraps(old(chunks), m) ==> Served(old(chunks), chunks, m, chunkCapacity, grant, r)
      ensures !Wraps(old(chunks), m) ==> BytesKept(old(blocks), old(memory[..]), memory[..], p, r, n)
      ensures r.Some? && Wraps(old(chunks), m) ==> r.value + m >= WORD
    {
      AlignFits(m);
      SameBytes(blocks, memory[..], p, n);
      r := Malloc(m, grant);
      // With a wrapped sum the block is not in memory, and what the copy does is not defined.
      if r.Some? && r.value + m <= memory.Length {
        BlocksApart(chunks, blocks, memory.Length);
        CopyTo(old(blocks), Block(r.value, m), p, n);
      }
    }

    /** Resizes the n bytes at p to m: in place, or by moving. */
    method Resize(p: nat, n: nat, m: nat, grant: Grant) returns (r: Option<nat>)
      requires Valid() && Owned(blocks, p, n) && n < m < WORD && n % 8 == 0 && m % 8 == 0
      requires Honest(grant, chunks, memory.Length)
      requires forall b :: b in blocks ==> b.at + b.size <= memory.Length
      modifies `chunks, `blocks, memory
      ensures !GrowWraps(old(chunks), p, n, m) ==>
        && Valid() && Resized(old(blocks), blocks, p, r, m)
           && BytesKept(old(blocks), old(memory[..]), memory[..], p, r, n)
        && (r.Some? ==> r.value + m <= memory.Length)
      ensures !GrowWraps(old(chunks), p, n, m) ==>
        Answered(old(chunks), chunks, old(blocks), blocks, p, n, m, chunkCapacity, grant, r)
      ensures r.Some? && GrowWraps(old(chunks), p, n, m) ==> r.value + m >= WORD
    {
      SameBytes(blocks, memory[..], p, n);
      if GrowsInPlace(chunks, p, n, m) {
        Extend(p, n, m);
        r := Some(p);
      } else {
        r := Move(p, n, m, grant);
        if !Wraps(old(chunks), m) { MovedIsResized(old(blocks), blocks, p, r, m); }
      }
    }

    /** Resizes a block that was handed out, or asks for a new one; a block never shrinks.  Unless a sum wraps, it stays
        where it is if it need not grow or is the last one and there is room, and else is moved; there is none exactly
        if it had to be moved and there is no memory. */
    method Realloc(p: Option<nat>, originalSize: nat, newSize: nat, grant: Grant) returns (r: Option<nat>)
      requires Valid() && originalSize < WORD && newSize < WORD && Honest(grant, chunks, memory.Length)
      requires p.Some? ==> Owned(blocks, p.value, originalSize)
      modifies `chunks, `blocks, memory
      ensures newSize == 0 ==> r == None && chunks == old(chunks) && blocks == old(blocks)
      ensures newSize == 0 || p.None? ==> memory[..] == old(memory[..])
      ensures p.None? && !Wraps(old(chunks), newSize) ==>
        Valid() && blocks == old(blocks) + if r.Some? then [Block(r.value, Align(newSize))] else []
      ensures p.None? && !Wraps(old(chunks), newSize) && newSize > 0 ==>
        Served(old(chunks), chunks, Align(newSize), chunkCapacity, grant, r)
      ensures p.Some? && newSize > 0 && !ResizeWraps(old(chunks), p.value, originalSize, newSize) ==>
        && Valid() && Resized(old(blocks), blocks, p.value, r, Align(newSize))
        && BytesKept(old(blocks), old(memory[..]), memory[..], p.value, r, originalSize)
      ensures p.Some? && newSize > 0 && !ResizeWraps(old(chunks), p.value, originalSize, newSize) ==>
        Answered(old(chunks), chunks, old(blocks), blocks, p.value, Align(originalSize), Align(newSize), chunkCapacity,
                 grant, r)
      ensures r.Some? ==>
        (r.value + newSize <= memory.Length <==> !if p.Some?
           then ResizeWraps(old(chunks), p.value, originalSize, newSize) else Wraps(old(chunks), newSize))
    {
      if p.None? {
        r := Malloc(newSize, grant);
      } else if newSize == 0 {
        r := None;
      } else {
        OwnedSize(chunks, blocks, memory.Length, p.value, originalSize);
        InBounds(chunks, blocks, memory.Length);
        AlignFits(originalSize);
        AlignFits(newSize);
        var n, m := Align(originalSize), Align(newSize);
        if n >= m {
          OwnedLess(blocks, p.value, n, m);
          SameBytes(blocks, memory[..], p.value, n);
          r := p;
        } else {
          r := Resize(p.value, n, m, grant);
        }
        if r.Some? { KeptLess(old(memory[..]), memory[..], p.value, r.value, n, originalSize); }
      }
    }

    /** Gives back all chunks but the user's. */
    method FreeChunks()
      requires userBuffer.Some? ==> chunks != [] && chunks[|chunks| - 1].at == userBuffer.value
      requires forall k :: 0 <= k < |chunks| - 1 ==> chunks[k].at != chunks[|chunks| - 1].at
      modifies `chunks
      ensures chunks == if userBuffer.Some? then [old(chunks)[|old(chunks)| - 1]] else []
    {
      ghost var was, k := chunks, 0;
      while chunks != [] && userBuffer != Some(chunks[0].at)
        invariant 0 <= k <= |was| && chunks == was[k..] && (userBuffer.Some? ==> k < |was|)
      {
        chunks, k := chunks[1..], k + 1;
      }
    }

    /** Gives back all chunks but the user's, which is emptied. */
    method Clear()
      requires Valid()
      modifies `chunks, `blocks
      ensures Valid() && blocks == []
      ensures chunks == if userBuffer.Some? then [old(chunks)[|old(chunks)| - 1].(size := 0)] else []
    {
      AddressesDiffer(chunks, blocks, memory.Length);
      ghost var was := chunks;
      FreeChunks();
      if chunks != [] && userBuffer == Some(chunks[0].at) {
        chunks := [chunks[0].(size := 0)] + chunks[1..];
      }
      blocks := [];
      Cleared(was, old(blocks), chunks, memory.Length);
    }

    /** The room in all chunks. */
    method Capacity() returns (capacity: nat)
      ensures capacity == Capacities(chunks)
    {
      capacity := 0;
      for i := 0 to |chunks|
        invariant capacity + Capacities(chunks[i..]) == Capacities(chunks)
      {
        capacity := capacity + chunks[i].capacity;
      }
    }

    /** The bytes of all blocks that have been handed out, no more than there is room for. */
    method Size() returns (size: nat)
      requires Valid()
      ensures size == Handed(blocks) && size <= Capacities(chunks)
    {
      size := 0;
      for i := 0 to |chunks|
        invariant size + Sizes(chunks[i..]) == Sizes(chunks)
      {
        size := size + chunks[i].size;
      }
      WithinCapacities(chunks, blocks, memory.Length);
    }
  }

  /** A buffer of 64 bytes serves a request for all bytes of the word but one: the rounded size is zero. */
  method TooLarge() returns (r: Option<nat>)
    ensures r.Some? && r.value + (WORD - 1) > 64
  {
    var memory := new nat[64];
    var pool := new MemoryPool(memory, 0, Some(Block(0, 64)));
    AlignFits(WORD - 1);
    r := pool.Malloc(WORD - 1, _ => None);
  }
}
