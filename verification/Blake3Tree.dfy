/** The BLAKE3 tree hash (section 2.1 of the BLAKE3 specification), over an uninterpreted
    compression function: a chaining value is the term that says which compression it is
    the result of, so that equal terms are equal values whatever the function computes. */
module Blake3Tree {
  import opened Base

  const BLOCK_LEN := 64
  const CHUNK_LEN := 1024

  datatype Flags = Flags(mode: byte, start: bool, end: bool, parent: bool)

  /** A block of 64 bytes: message bytes padded with zeros, or two chaining values. */
  datatype Block = Data(bytes: Bytes) | Pair(left: Cv, right: Cv)

  datatype Cv = Key(words: seq<uint32>) | Compressed(node: Output)

  /** output_t: everything that a compression is applied to. */
  datatype Output = Output(input: Cv, block: Block, blockLen: nat, counter: nat, flags: Flags)

  /** What a hasher is initialised with: the key and the mode flags. */
  datatype Mode = Mode(key: Cv, flags: byte)

  // ------------------------------------------------------------------------------ chunks

  function Pad(bytes: Bytes): (block: Bytes)
    requires |bytes| <= BLOCK_LEN
    ensures |block| == BLOCK_LEN
  {
    bytes + seq(BLOCK_LEN - |bytes|, _ => 0)
  }

  function BlockFlags(m: Mode, blocks: nat, last: bool): Flags {
    Flags(m.flags, blocks == 0, last, false)
  }

  /** The chaining value after the first `blocks` whole blocks of a chunk. */
  function ChunkCv(m: Mode, chunk: Bytes, counter: nat, blocks: nat): Cv
    requires blocks * BLOCK_LEN <= |chunk|
  {
    if blocks == 0 then m.key
    else
      var at := (blocks - 1) * BLOCK_LEN;
      Compressed(Output(ChunkCv(m, chunk, counter, blocks - 1), Data(chunk[at..at + BLOCK_LEN]), BLOCK_LEN, counter,
                        BlockFlags(m, blocks - 1, false)))
  }

  /** The number of blocks before the last one, which is empty only in an empty chunk. */
  function BlocksBefore(length: nat): nat {
    if length == 0 then 0 else (length - 1) / BLOCK_LEN
  }

  function ChunkOutput(m: Mode, chunk: Bytes, counter: nat): Output {
    var blocks := BlocksBefore(|chunk|);
    var last := chunk[blocks * BLOCK_LEN..];
    Output(ChunkCv(m, chunk, counter, blocks), Data(Pad(last)), |last|, counter, BlockFlags(m, blocks, true))
  }

  // -------------------------------------------------------------------------------- tree

  predicate IsPow2(p: nat) {
    p == 1 || (p > 0 && p % 2 == 0 && IsPow2(p / 2))
  }

  /** round_down_to_power_of_2 */
  function Pow2Floor(n: nat): (p: nat)
    requires n > 0
    ensures IsPow2(p) && 0 < p <= n < 2 * p
  {
    if n == 1 then 1 else 2 * Pow2Floor(n / 2)
  }

  lemma {:induction false} Pow2FloorUnique(n: nat, p: nat)
    requires IsPow2(p) && 0 < p <= n < 2 * p
    ensures Pow2Floor(n) == p
  {
    if n > 1 { Pow2FloorUnique(n / 2, p / 2); }
  }

  /** left_len */
  function LeftLen(length: nat): (left: nat)
    requires length > CHUNK_LEN
    ensures 0 < left < length <= 2 * left && left % CHUNK_LEN == 0 && IsPow2(left / CHUNK_LEN)
  {
    Pow2Floor((length - 1) / CHUNK_LEN) * CHUNK_LEN
  }

  /** The left subtree is any power-of-two number of chunks that leaves something over, and
      no more than itself. */
  lemma LeftLenUnique(length: nat, chunks: nat)
    requires IsPow2(chunks) && chunks * CHUNK_LEN < length <= 2 * chunks * CHUNK_LEN
    ensures LeftLen(length) == chunks * CHUNK_LEN
  {
    Pow2FloorUnique((length - 1) / CHUNK_LEN, chunks);
  }

  function ParentOutput(m: Mode, left: Cv, right: Cv): Output {
    Output(m.key, Pair(left, right), BLOCK_LEN, 0, Flags(m.flags, false, false, true))
  }

  function Parent(m: Mode, left: Cv, right: Cv): Cv {
    Compressed(ParentOutput(m, left, right))
  }

  /** The root of the tree over the input, whose first chunk has number `counter`. */
  function Tree(m: Mode, input: Bytes, counter: nat): Output
    decreases |input|, 0
  {
    if |input| <= CHUNK_LEN then ChunkOutput(m, input, counter)
    else
      var left := LeftLen(|input|);
      ParentOutput(m, TreeCv(m, input[..left], counter), TreeCv(m, input[left..], counter + left / CHUNK_LEN))
  }

  function TreeCv(m: Mode, input: Bytes, counter: nat): Cv
    decreases |input|, 1
  {
    Compressed(Tree(m, input, counter))
  }

  /** A tree whose left part is known. */
  lemma TreeSplit(m: Mode, left: Bytes, right: Bytes, counter: nat, chunks: nat)
    requires IsPow2(chunks) && |left| == chunks * CHUNK_LEN && 0 < |right| <= |left|
    ensures Tree(m, left + right, counter)
            == ParentOutput(m, TreeCv(m, left, counter), TreeCv(m, right, counter + chunks))
  {
    var all := left + right;
    LeftLenUnique(|all|, chunks);
    assert all[..|left|] == left && all[|left|..] == right;
  }

  // ------------------------------------------------------------------------------ output

  /** Gives the 64 bytes of each block of a root's output. */
  type Xof = f: (Output, nat) -> Bytes | forall o, n :: |f(o, n)| == 64 witness (o, n) => seq(64, _ => 0)

  /** Byte n of the root's output. */
  function StreamByte(xof: Xof, root: Output, n: nat): byte {
    xof(root, n / 64)[n % 64]
  }

  /** output_root_bytes */
  method RootBytes(root: Output, seek: nat, length: nat, xof: Xof) returns (out: Bytes)
    ensures |out| == length && forall i :: 0 <= i < length ==> out[i] == StreamByte(xof, root, seek + i)
  {
    var counter: nat, offset: nat, left: nat := seek / 64, seek % 64, length;
    out := [];
    while left > 0
      invariant |out| + left == length && offset < 64
      invariant left > 0 ==> 64 * counter + offset == seek + |out|
      invariant forall i :: 0 <= i < |out| ==> out[i] == StreamByte(xof, root, seek + i)
    {
      var wide := xof(root, counter);
      var take: nat := if left > 64 - offset then 64 - offset else left;
      var next := out + wide[offset..offset + take];
      forall i | |out| <= i < |next| ensures next[i] == StreamByte(xof, root, seek + i) {
        SameBlock(seek + i, counter, offset + (i - |out|));
      }
      out := next;
      left := left - take;
      counter := counter + 1;
      offset := 0;
    }
  }

  lemma SameBlock(x: nat, q: nat, r: nat)
    requires x == 64 * q + r && r < 64
    ensures x / 64 == q && x % 64 == r
  {
  }
}
