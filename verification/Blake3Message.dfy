/** What a BLAKE3 tree is made of, read off the compressions it stands for (sections 2.1 to 2.6
    of the BLAKE3 specification): the flags, counters and lengths of all blocks, and the message
    itself, in order. */
module Blake3Message {
  import opened Base
  import opened Blake3Tree

  // --------------------------------------------------------------------------- one chunk

  /** The compressions that lead to this one, each with the chaining value of the one before. */
  function Chain(o: Output): (c: seq<Output>)
    ensures |c| > 0 && c[|c| - 1] == o
  {
    (if o.input.Compressed? then Chain(o.input.node) else []) + [o]
  }

  /** The message bytes in the blocks of a chain. */
  function BlockBytes(c: seq<Output>): Bytes {
    if c == [] then []
    else
      var o := c[|c| - 1];
      BlockBytes(c[..|c| - 1]) +
      (if o.block.Data? && o.blockLen <= |o.block.bytes| then o.block.bytes[..o.blockLen] else [])
  }

  /** Block i of a chunk whose `blocks` first blocks are whole. */
  ghost predicate BlockOk(m: Mode, counter: nat, c: seq<Output>, i: nat, ended: bool)
    requires i < |c|
  {
    var o := c[i];
    && (if i == 0 then o.input == m.key else o.input == Compressed(c[i - 1]))
    && o.counter == counter
    && o.flags.mode == m.flags && !o.flags.parent
    && (o.flags.start <==> i == 0) && (o.flags.end <==> ended && i == |c| - 1)
    && o.block.Data? && |o.block.bytes| == BLOCK_LEN && o.blockLen <= BLOCK_LEN
    && (forall k :: o.blockLen <= k < BLOCK_LEN ==> o.block.bytes[k] == 0)
    && (o.blockLen == BLOCK_LEN || (ended && i == |c| - 1))
    && (o.blockLen > 0 || |c| == 1)
  }

  ghost predicate ChainOk(m: Mode, counter: nat, c: seq<Output>, ended: bool) {
    forall i: nat :: i < |c| ==> BlockOk(m, counter, c, i, ended)
  }

  function CvChain(cv: Cv): seq<Output> {
    if cv.Compressed? then Chain(cv.node) else []
  }

  /** The whole blocks compressed so far. */
  lemma {:induction false} CvBlocks(m: Mode, chunk: Bytes, counter: nat, blocks: nat)
    requires m.key.Key? && blocks * BLOCK_LEN <= |chunk|
    ensures var c := CvChain(ChunkCv(m, chunk, counter, blocks));
            && |c| == blocks && ChainOk(m, counter, c, false) && BlockBytes(c) == chunk[..blocks * BLOCK_LEN]
            && (blocks > 0 ==> ChunkCv(m, chunk, counter, blocks) == Compressed(c[blocks - 1]))
  {
    hide ChainOk, BlockBytes;
    if blocks == 0 {
      NoBlocks(m, counter);
    } else {
      CvBlocks(m, chunk, counter, blocks - 1);
      var before := CvChain(ChunkCv(m, chunk, counter, blocks - 1));
      var at := (blocks - 1) * BLOCK_LEN;
      var o := ChunkCv(m, chunk, counter, blocks).node;
      assert o.block.bytes[..BLOCK_LEN] == o.block.bytes == chunk[at..at + BLOCK_LEN];
      AddBlock(m, counter, before, o, false);
      assert chunk[..at] + chunk[at..at + BLOCK_LEN] == chunk[..blocks * BLOCK_LEN];
    }
  }

  lemma NoBlocks(m: Mode, counter: nat)
    ensures ChainOk(m, counter, [], false) && BlockBytes([]) == []
  {
  }

  /** One more block at the end of a chain of whole blocks. */
  lemma AddBlock(m: Mode, counter: nat, before: seq<Output>, o: Output, ended: bool)
    requires ChainOk(m, counter, before, false)
    requires o.input == (if before == [] then m.key else Compressed(before[|before| - 1]))
    requires o.counter == counter && o.flags == Flags(m.flags, before == [], ended, false)
    requires o.block.Data? && |o.block.bytes| == BLOCK_LEN && o.blockLen <= BLOCK_LEN
    requires forall k :: o.blockLen <= k < BLOCK_LEN ==> o.block.bytes[k] == 0
    requires (o.blockLen > 0 || before == []) && (o.blockLen == BLOCK_LEN || ended)
    ensures ChainOk(m, counter, before + [o], ended)
    ensures BlockBytes(before + [o]) == BlockBytes(before) + o.block.bytes[..o.blockLen]
  {
    hide BlockOk;
    var c := before + [o];
    assert c[..|c| - 1] == before;
    NewBlock(m, counter, before, o, ended);
    forall i: nat | i < |c| ensures BlockOk(m, counter, c, i, ended) {
      if i < |before| { OldBlock(m, counter, before, o, i, ended); }
    }
  }

  lemma NewBlock(m: Mode, counter: nat, before: seq<Output>, o: Output, ended: bool)
    requires o.input == (if before == [] then m.key else Compressed(before[|before| - 1]))
    requires o.counter == counter && o.flags == Flags(m.flags, before == [], ended, false)
    requires o.block.Data? && |o.block.bytes| == BLOCK_LEN && o.blockLen <= BLOCK_LEN
    requires forall k :: o.blockLen <= k < BLOCK_LEN ==> o.block.bytes[k] == 0
    requires (o.blockLen > 0 || before == []) && (o.blockLen == BLOCK_LEN || ended)
    ensures BlockOk(m, counter, before + [o], |before|, ended)
  {
  }

  lemma OldBlock(m: Mode, counter: nat, before: seq<Output>, o: Output, i: nat, ended: bool)
    requires i < |before| && BlockOk(m, counter, before, i, false)
    ensures BlockOk(m, counter, before + [o], i, ended)
  {
  }

  /** A chunk is its blocks in order, every one a compression of what the one before gave: the
      first alone carries the start flag, the last alone the end flag, none is a parent, only
      the last is padded, all carry the number of the chunk, and their bytes are the chunk. */
  ghost predicate ChunkOk(m: Mode, counter: nat, o: Output, chunk: Bytes) {
    var c := Chain(o);
    ChainOk(m, counter, c, true) && BlockBytes(c) == chunk
  }

  lemma ChunkBlocks(m: Mode, chunk: Bytes, counter: nat)
    requires m.key.Key?
    ensures ChunkOk(m, counter, ChunkOutput(m, chunk, counter), chunk)
    ensures |Chain(ChunkOutput(m, chunk, counter))| == BlocksBefore(|chunk|) + 1
  {
    hide ChainOk, BlockBytes;
    var blocks := BlocksBefore(|chunk|);
    var o := ChunkOutput(m, chunk, counter);
    var last := chunk[blocks * BLOCK_LEN..];
    CvBlocks(m, chunk, counter, blocks);
    AddBlock(m, counter, CvChain(ChunkCv(m, chunk, counter, blocks)), o, true);
    assert o.block.bytes[..o.blockLen] == last;
    assert chunk[..blocks * BLOCK_LEN] + last == chunk;
  }

  // ---------------------------------------------------------------------------- the tree

  /** The chunks of a tree from left to right, each given by its last block. */
  function Chunks(o: Output): seq<Output> {
    match o.block
    case Data(_) => [o]
    case Pair(left, right) => CvChunks(left) + CvChunks(right)
  }

  function CvChunks(cv: Cv): seq<Output> {
    if cv.Compressed? then Chunks(cv.node) else []
  }

  /** The message that a tree stands for. */
  function Message(o: Output): Bytes {
    match o.block
    case Data(_) => BlockBytes(Chain(o))
    case Pair(left, right) => CvMessage(left) + CvMessage(right)
  }

  function CvMessage(cv: Cv): Bytes {
    if cv.Compressed? then Message(cv.node) else []
  }

  /** Above the chunks there is nothing but parents: a whole block made of the values of two
      subtrees, compressed with the key, without a number and with the parent flag alone. */
  ghost predicate ParentsOk(m: Mode, o: Output) {
    match o.block
    case Data(_) => true
    case Pair(left, right) =>
      && o.input == m.key && o.blockLen == BLOCK_LEN && o.counter == 0
      && o.flags == Flags(m.flags, false, false, true)
      && left.Compressed? && right.Compressed? && ParentsOk(m, left.node) && ParentsOk(m, right.node)
  }

  function ChunkCount(length: nat): nat {
    if length <= CHUNK_LEN then 1 else (length + CHUNK_LEN - 1) / CHUNK_LEN
  }

  /** The chunk with the given number. */
  function ChunkAt(input: Bytes, i: nat): Bytes
    requires i < ChunkCount(|input|)
  {
    input[i * CHUNK_LEN..Min((i + 1) * CHUNK_LEN, |input|)]
  }

  /** The chunks are numbered from `counter` on, and each is the piece of the input that has
      its number. */
  ghost predicate ChunksOk(m: Mode, input: Bytes, counter: nat, chunks: seq<Output>) {
    && |chunks| == ChunkCount(|input|)
    && forall i: nat :: i < |chunks| ==> ChunkOk(m, counter + i, chunks[i], ChunkAt(input, i))
  }

  lemma {:induction false} TreeChunks(m: Mode, input: Bytes, counter: nat)
    requires m.key.Key?
    ensures var o := Tree(m, input, counter);
            ParentsOk(m, o) && Message(o) == input && ChunksOk(m, input, counter, Chunks(o))
    decreases |input|
  {
    hide ChunkOk, ChunkAt, ChunkCount, ChunksOk;
    if |input| <= CHUNK_LEN {
      OneChunk(m, input, counter);
    } else {
      var left := LeftLen(|input|);
      TreeChunks(m, input[..left], counter);
      TreeChunks(m, input[left..], counter + left / CHUNK_LEN);
      assert input[..left] + input[left..] == input;
      BothChunks(m, input, counter, left, Chunks(Tree(m, input[..left], counter)),
                 Chunks(Tree(m, input[left..], counter + left / CHUNK_LEN)));
    }
  }

  lemma OneChunk(m: Mode, input: Bytes, counter: nat)
    requires m.key.Key? && |input| <= CHUNK_LEN
    ensures var o := ChunkOutput(m, input, counter);
            ParentsOk(m, o) && Message(o) == input && ChunksOk(m, input, counter, Chunks(o))
  {
    ChunkBlocks(m, input, counter);
    assert ChunkAt(input, 0) == input;
  }

  lemma BothChunks(m: Mode, input: Bytes, counter: nat, left: nat, a: seq<Output>, b: seq<Output>)
    requires 0 < left < |input| && left % CHUNK_LEN == 0
    requires ChunksOk(m, input[..left], counter, a) && ChunksOk(m, input[left..], counter + left / CHUNK_LEN, b)
    ensures ChunksOk(m, input, counter, a + b)
  {
    hide ChunkOk;
    var n := left / CHUNK_LEN;
    assert |a| == n && |a + b| == ChunkCount(|input|);
    forall i: nat | i < |a + b| ensures ChunkOk(m, counter + i, (a + b)[i], ChunkAt(input, i)) {
      if i < n {
        assert ChunkAt(input[..left], i) == ChunkAt(input, i);
      } else {
        assert ChunkAt(input[left..], i - n) == ChunkAt(input, i);
      }
    }
  }

  /** Messages with the same tree are the same: hashes can only collide where the compression
      function does. */
  lemma TreeInjective(m: Mode, a: Bytes, b: Bytes, counter: nat)
    requires m.key.Key? && Tree(m, a, counter) == Tree(m, b, counter)
    ensures a == b
  {
    TreeChunks(m, a, counter);
    TreeChunks(m, b, counter);
  }

  // -------------------------------------------------------------------------- the output

  /** The first k blocks of the root's output, one after the other. */
  function Stream(xof: Xof, root: Output, k: nat): (s: Bytes)
    ensures |s| == 64 * k
  {
    if k == 0 then [] else Stream(xof, root, k - 1) + xof(root, k - 1)
  }

  lemma {:induction false} StreamInOrder(xof: Xof, root: Output, k: nat, n: nat)
    requires n < 64 * k
    ensures StreamByte(xof, root, n) == Stream(xof, root, k)[n]
    decreases k
  {
    if n < 64 * (k - 1) { StreamInOrder(xof, root, k - 1, n); }
  }
}
