/** The state of an unfinished chunk (src/ext/blake3/blake3.c:10-49, 111-146). */
module Blake3Chunk {
  import opened Base
  import opened Blake3Tree

  /** What follows in the chunk does not change the blocks compressed so far. */
  lemma {:induction false} ChunkCvPrefix(m: Mode, a: Bytes, b: Bytes, counter: nat, blocks: nat)
    requires blocks * BLOCK_LEN <= |a|
    ensures ChunkCv(m, a + b, counter, blocks) == ChunkCv(m, a, counter, blocks)
  {
    if blocks > 0 {
      ChunkCvPrefix(m, a, b, counter, blocks - 1);
      var at := (blocks - 1) * BLOCK_LEN;
      assert (a + b)[at..at + BLOCK_LEN] == a[at..at + BLOCK_LEN];
    }
  }

  /** What a chunk state has to hold after the given bytes, `blocks` of whose blocks have been
      compressed. */
  ghost predicate Holds(m: Mode, cv: Cv, counter: nat, buf: Bytes, bufLen: nat, blocks: nat, bytes: Bytes) {
    && |bytes| == blocks * BLOCK_LEN + bufLen && bufLen <= BLOCK_LEN
    && cv == ChunkCv(m, bytes, counter, blocks)
    && buf == Pad(bytes[blocks * BLOCK_LEN..])
  }

  function NextBlock(m: Mode, cv: Cv, counter: nat, blocks: nat, block: Bytes): Cv {
    Compressed(Output(cv, Data(block), BLOCK_LEN, counter, BlockFlags(m, blocks, false)))
  }

  /** A full buffer is compressed. */
  lemma BufferDone(m: Mode, cv: Cv, counter: nat, buf: Bytes, blocks: nat, bytes: Bytes)
    requires Holds(m, cv, counter, buf, BLOCK_LEN, blocks, bytes)
    ensures Holds(m, NextBlock(m, cv, counter, blocks, buf), counter, Pad([]), 0, blocks + 1, bytes)
  {
    var at := blocks * BLOCK_LEN;
    assert bytes[at..] == bytes[at..at + BLOCK_LEN] && Pad(bytes[at..]) == bytes[at..];
    assert bytes[at + BLOCK_LEN..] == [];
  }

  /** A block is compressed without going through the buffer. */
  lemma BlockDone(m: Mode, cv: Cv, counter: nat, buf: Bytes, blocks: nat, bytes: Bytes, block: Bytes)
    requires Holds(m, cv, counter, buf, 0, blocks, bytes) && |block| == BLOCK_LEN
    ensures Holds(m, NextBlock(m, cv, counter, blocks, block), counter, buf, 0, blocks + 1, bytes + block)
  {
    var at, all := blocks * BLOCK_LEN, bytes + block;
    ChunkCvPrefix(m, bytes, block, counter, blocks);
    assert all[at..at + BLOCK_LEN] == block;
    assert bytes[at..] == [] && all[at + BLOCK_LEN..] == [];
  }

  /** Bytes are appended to the buffer. */
  lemma BufferFilled(m: Mode, cv: Cv, counter: nat, buf: Bytes, bufLen: nat, blocks: nat, bytes: Bytes, more: Bytes)
    requires Holds(m, cv, counter, buf, bufLen, blocks, bytes) && bufLen + |more| <= BLOCK_LEN
    ensures |buf| == BLOCK_LEN
    ensures Holds(m, cv, counter, buf[..bufLen] + more + buf[bufLen + |more|..], bufLen + |more|, blocks,
        bytes + more)
  {
    var at := blocks * BLOCK_LEN;
    ChunkCvPrefix(m, bytes, more, counter, blocks);
    assert (bytes + more)[at..] == bytes[at..] + more;
  }

  class ChunkState {
    const m: Mode
    const buf: array<byte>
    var cv: Cv
    var counter: nat
    var bufLen: nat
    var blocks: nat
    ghost var bytes: Bytes

    ghost predicate Consistent()
      reads this, buf
    {
      buf.Length == BLOCK_LEN && Holds(m, cv, counter, buf[..], bufLen, blocks, bytes)
    }

    /** The last block of a chunk that has any bytes is kept in the buffer. */
    ghost predicate Valid()
      reads this, buf
    {
      Consistent() && |bytes| <= CHUNK_LEN && (bufLen > 0 || (blocks == 0 && bytes == []))
    }

    /** chunk_state_init */
    constructor (mode: Mode, chunkCounter: nat)
      ensures Valid() && fresh(buf) && m == mode && counter == chunkCounter && bytes == []
    {
      m := mode;
      cv, counter, bufLen, blocks := mode.key, chunkCounter, 0, 0;
      buf := new byte[BLOCK_LEN](_ => 0);
      bytes := [];
      new;
      assert buf[..] == Pad([]);
    }

    /** chunk_state_reset */
    method Reset(chunkCounter: nat)
      requires buf.Length == BLOCK_LEN
      modifies this, buf
      ensures Valid() && counter == chunkCounter && bytes == []
    {
      cv, counter, blocks := m.key, chunkCounter, 0;
      Clear();
      bufLen := 0;
      bytes := [];
    }

    /** An empty chunk becomes one further on. */
    method Skip(chunks: nat)
      requires Valid() && bytes == []
      modifies `counter
      ensures Valid() && counter == old(counter) + chunks
    {
      counter := counter + chunks;
    }

    /** memset(self->buf, 0, BLAKE3_BLOCK_LEN) */
    method Clear()
      requires buf.Length == BLOCK_LEN
      modifies buf
      ensures buf[..] == Pad([])
    {
      forall i | 0 <= i < BLOCK_LEN { buf[i] := 0; }
      assert buf[..] == Pad([]);
    }

    /** chunk_state_len */
    method Length() returns (n: nat)
      requires Valid()
      ensures n == |bytes|
    {
      n := BLOCK_LEN * blocks + bufLen;
    }

    /** chunk_state_fill_buf */
    method FillBuf(input: Bytes) returns (take: nat)
      requires Consistent()
      modifies `bufLen, `bytes, buf
      ensures Consistent() && take == Min(BLOCK_LEN - old(bufLen), |input|)
      ensures bytes == old(bytes) + input[..take] && bufLen == old(bufLen) + take
    {
      hide Holds;
      HoldsLength(m, cv, counter, buf[..], bufLen, blocks, bytes);
      take := BLOCK_LEN - bufLen;
      if take > |input| {
        take := |input|;
      }
      BufferFilled(m, cv, counter, buf[..], bufLen, blocks, bytes, input[..take]);
      forall i | 0 <= i < take { buf[bufLen + i] := input[i]; }
      assert buf[..] == old(buf[..])[..bufLen] + input[..take] + old(buf[..])[bufLen + take..];
      bufLen := bufLen + take;
      bytes := bytes + input[..take];
    }

    /** chunk_state_update */
    method Update(input: Bytes)
      requires Valid() && |bytes| + |input| <= CHUNK_LEN
      modifies this, buf
      ensures Valid() && bytes == old(bytes) + input && counter == old(counter)
    {
      hide Holds;
      HoldsLength(m, cv, counter, buf[..], bufLen, blocks, bytes);
      ghost var start := bytes;
      var at := 0;
      if bufLen > 0 {
        at := FillBuf(input);
        if at < |input| {
          CompressBuffer();
        }
      }
      var rest := WholeBlocks(input[at..]);
      HoldsLength(m, cv, counter, buf[..], bufLen, blocks, bytes);
      var take := FillBuf(rest);
      assert rest[..take] == rest;
      assert bytes == start + input by { assert input[..at] + input[at..] == input; }
    }

    /** The loop over whole blocks; the last one, whole or not, is left over. */
    method WholeBlocks(input: Bytes) returns (rest: Bytes)
      requires Consistent() && (input != [] ==> bufLen == 0)
      modifies `cv, `blocks, `bytes
      ensures Consistent() && bytes + rest == old(bytes) + input && |rest| <= BLOCK_LEN
      ensures input == [] ==> rest == [] && bytes == old(bytes) && blocks == old(blocks)
      ensures input != [] ==> rest != []
    {
      hide Holds;
      rest := input;
      while |rest| > BLOCK_LEN
        invariant Consistent() && bytes + rest == old(bytes) + input
        invariant input == [] ==> rest == [] && bytes == old(bytes) && blocks == old(blocks)
        invariant input != [] ==> rest != [] && bufLen == 0
      {
        CompressBlock(rest[..BLOCK_LEN]);
        assert rest[..BLOCK_LEN] + rest[BLOCK_LEN..] == rest;
        rest := rest[BLOCK_LEN..];
      }
    }

    method CompressBlock(block: Bytes)
      requires Consistent() && bufLen == 0 && |block| == BLOCK_LEN
      modifies `cv, `blocks, `bytes
      ensures Consistent() && bytes == old(bytes) + block
    {
      hide Holds;
      BlockDone(m, cv, counter, buf[..], blocks, bytes, block);
      cv := NextBlock(m, cv, counter, blocks, block);
      blocks := blocks + 1;
      bytes := bytes + block;
    }

    method CompressBuffer()
      requires Consistent() && bufLen == BLOCK_LEN
      modifies `cv, `blocks, `bufLen, buf
      ensures Consistent() && bufLen == 0
    {
      hide Holds;
      BufferDone(m, cv, counter, buf[..], blocks, bytes);
      cv := NextBlock(m, cv, counter, blocks, buf[..]);
      blocks := blocks + 1;
      bufLen := 0;
      Clear();
    }

    /** chunk_state_output: the output that the specification gives for the bytes. */
    method GetOutput() returns (o: Output)
      requires Valid()
      ensures o == ChunkOutput(m, bytes, counter)
    {
      o := Output(cv, Data(buf[..]), bufLen, counter, BlockFlags(m, blocks, true));
      LastBlock(|bytes|, blocks, bufLen);
    }
  }

  lemma HoldsLength(m: Mode, cv: Cv, counter: nat, buf: Bytes, bufLen: nat, blocks: nat, bytes: Bytes)
    requires Holds(m, cv, counter, buf, bufLen, blocks, bytes)
    ensures |bytes| == blocks * BLOCK_LEN + bufLen && bufLen <= BLOCK_LEN && |buf| == BLOCK_LEN
  {
  }

  lemma LastBlock(length: nat, blocks: nat, bufLen: nat)
    requires length == blocks * BLOCK_LEN + bufLen && bufLen <= BLOCK_LEN && (bufLen > 0 || blocks == 0)
    ensures BlocksBefore(length) == blocks
  {
  }
}
