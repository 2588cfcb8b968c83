/** Hashing a whole subtree at once (src/ext/blake3/blake3.c:153-360), for any power of two
    of chunks or parents hashed in parallel. */
module Blake3Subtree {
  import opened Base
  import opened Blake3Tree

  // ------------------------------------------------------- lists of chaining values

  /** A list of chaining values stands for the subtree over the input: either it is the
      subtree's own value, or a power-of-two number of values for the left half and no more
      than as many for the right half. */
  ghost predicate Represents(m: Mode, cvs: seq<Cv>, input: Bytes, counter: nat)
    decreases |input|
  {
    || cvs == [TreeCv(m, input, counter)]
    || (|input| > CHUNK_LEN && exists n: nat :: IsSplit(m, cvs, input, counter, n))
  }

  ghost predicate IsSplit(m: Mode, cvs: seq<Cv>, input: Bytes, counter: nat, n: nat)
    requires |input| > CHUNK_LEN
    decreases |input|, 0
  {
    var left := LeftLen(|input|);
    && 0 < n < |cvs| <= 2 * n && IsPow2(n)
    && Represents(m, cvs[..n], input[..left], counter)
    && Represents(m, cvs[n..], input[left..], counter + left / CHUNK_LEN)
  }

  /** One layer of parents; an odd value at the end is passed on. */
  function Pairs(m: Mode, cvs: seq<Cv>): (p: seq<Cv>)
    ensures |p| == (|cvs| + 1) / 2
  {
    if |cvs| < 2 then cvs else [Parent(m, cvs[0], cvs[1])] + Pairs(m, cvs[2..])
  }

  lemma {:induction false} PairsAppend(m: Mode, a: seq<Cv>, b: seq<Cv>)
    requires |a| % 2 == 0
    ensures Pairs(m, a + b) == Pairs(m, a) + Pairs(m, b)
    decreases |a|
  {
    if a == [] {
      assert a + b == b;
    } else {
      assert (a + b)[2..] == a[2..] + b;
      PairsAppend(m, a[2..], b);
    }
  }

  /** A layer of parents stands for the same subtree. */
  lemma {:induction false} PairsRepresent(m: Mode, cvs: seq<Cv>, input: Bytes, counter: nat)
    requires Represents(m, cvs, input, counter)
    ensures Represents(m, Pairs(m, cvs), input, counter)
    decreases |input|
  {
    hide TreeCv, IsSplit;
    if cvs != [TreeCv(m, input, counter)] {
      var n: nat :| IsSplit(m, cvs, input, counter, n);
      SplitPairs(m, cvs, input, counter, n);
    }
  }

  lemma {:induction false} SplitPairs(m: Mode, cvs: seq<Cv>, input: Bytes, counter: nat, n: nat)
    requires |input| > CHUNK_LEN && IsSplit(m, cvs, input, counter, n)
    ensures Represents(m, Pairs(m, cvs), input, counter)
    decreases |input|, 0
  {
    hide TreeCv, Represents;
    var left := LeftLen(|input|);
    var a, b := cvs[..n], cvs[n..];
    var right := counter + left / CHUNK_LEN;
    assert cvs == a + b;
    if n == 1 {
      assert a == [a[0]] && b == [b[0]];
      TwoAreChildren(m, cvs, input, counter, n);
      assert Pairs(m, cvs) == [TreeCv(m, input, counter)] by { TwoMakeParent(m, cvs, input, counter); }
      Whole(m, input, counter);
    } else {
      PairsAppend(m, a, b);
      PairsRepresent(m, a, input[..left], counter);
      PairsRepresent(m, b, input[left..], right);
      var c := Pairs(m, cvs);
      assert c[..n / 2] == Pairs(m, a) && c[n / 2..] == Pairs(m, b);
      assert IsSplit(m, c, input, counter, n / 2);
      SplitRepresents(m, c, input, counter, n / 2);
    }
  }

  lemma Whole(m: Mode, input: Bytes, counter: nat)
    ensures Represents(m, [TreeCv(m, input, counter)], input, counter)
  {
  }

  lemma SplitRepresents(m: Mode, cvs: seq<Cv>, input: Bytes, counter: nat, n: nat)
    requires |input| > CHUNK_LEN && IsSplit(m, cvs, input, counter, n)
    ensures Represents(m, cvs, input, counter)
  {
  }

  /** A single value can only be the subtree's own. */
  lemma OneIsWhole(m: Mode, cvs: seq<Cv>, input: Bytes, counter: nat)
    requires Represents(m, cvs, input, counter) && |cvs| == 1
    ensures cvs == [TreeCv(m, input, counter)]
  {
    hide TreeCv;
  }

  /** Two values are those of the root's children. */
  lemma TwoAreChildren(m: Mode, cvs: seq<Cv>, input: Bytes, counter: nat, n: nat)
    requires |input| > CHUNK_LEN && |cvs| == 2 && IsSplit(m, cvs, input, counter, n)
    ensures var left := LeftLen(|input|);
            cvs == [TreeCv(m, input[..left], counter), TreeCv(m, input[left..], counter + left / CHUNK_LEN)]
  {
    hide TreeCv, Represents;
    var left := LeftLen(|input|);
    OneIsWhole(m, cvs[..n], input[..left], counter);
    OneIsWhole(m, cvs[n..], input[left..], counter + left / CHUNK_LEN);
    assert cvs == cvs[..n] + cvs[n..];
  }

  lemma TwoMakeParent(m: Mode, cvs: seq<Cv>, input: Bytes, counter: nat)
    requires |input| > CHUNK_LEN
    requires var left := LeftLen(|input|);
             cvs == [TreeCv(m, input[..left], counter), TreeCv(m, input[left..], counter + left / CHUNK_LEN)]
    ensures Pairs(m, cvs) == [TreeCv(m, input, counter)]
  {
    assert cvs[2..] == [];
  }

  lemma TwoAreRootPair(m: Mode, cvs: seq<Cv>, input: Bytes, counter: nat)
    requires |input| > CHUNK_LEN && |cvs| == 2 && Represents(m, cvs, input, counter)
    ensures ParentOutput(m, cvs[0], cvs[1]) == Tree(m, input, counter)
    ensures var left := LeftLen(|input|);
            cvs == [TreeCv(m, input[..left], counter), TreeCv(m, input[left..], counter + left / CHUNK_LEN)]
  {
    hide TreeCv, IsSplit;
    var n: nat :| IsSplit(m, cvs, input, counter, n);
    TwoAreChildren(m, cvs, input, counter, n);
  }

  // ----------------------------------------------------------------- chunks in parallel

  /** The chunks' own values. */
  function ChunkCvs(m: Mode, input: Bytes, counter: nat): (cvs: seq<Cv>)
    decreases |input|
  {
    if |input| == 0 then []
    else if |input| <= CHUNK_LEN then [TreeCv(m, input, counter)]
    else [TreeCv(m, input[..CHUNK_LEN], counter)] + ChunkCvs(m, input[CHUNK_LEN..], counter + 1)
  }

  function Chunks(length: nat): nat {
    (length + CHUNK_LEN - 1) / CHUNK_LEN
  }

  lemma {:induction false} ChunkCount(m: Mode, input: Bytes, counter: nat)
    ensures |ChunkCvs(m, input, counter)| == Chunks(|input|)
    decreases |input|
  {
    hide TreeCv;
    if |input| > CHUNK_LEN { ChunkCount(m, input[CHUNK_LEN..], counter + 1); }
  }

  lemma {:induction false} ChunksAppend(m: Mode, a: Bytes, b: Bytes, counter: nat, n: nat)
    requires |a| == n * CHUNK_LEN
    ensures ChunkCvs(m, a + b, counter) == ChunkCvs(m, a, counter) + ChunkCvs(m, b, counter + n)
    decreases |a|
  {
    hide TreeCv;
    if n == 0 {
      assert a + b == b;
    } else {
      assert (a + b)[..CHUNK_LEN] == a[..CHUNK_LEN] && (a + b)[CHUNK_LEN..] == a[CHUNK_LEN..] + b;
      ChunksAppend(m, a[CHUNK_LEN..], b, counter + 1, n - 1);
      if n == 1 {
        assert a[..CHUNK_LEN] == a && a[CHUNK_LEN..] == [];
        if b == [] { assert a + b == a; }
      }
    }
  }

  lemma {:induction false} ChunksRepresent(m: Mode, input: Bytes, counter: nat)
    requires |input| > 0
    ensures Represents(m, ChunkCvs(m, input, counter), input, counter)
    decreases |input|
  {
    hide TreeCv, IsSplit;
    if |input| > CHUNK_LEN {
      var left := LeftLen(|input|);
      var n := left / CHUNK_LEN;
      assert input == input[..left] + input[left..];
      ChunksAppend(m, input[..left], input[left..], counter, n);
      ChunksRepresent(m, input[..left], counter);
      ChunksRepresent(m, input[left..], counter + n);
      ChunkCount(m, input[..left], counter);
      ChunkCount(m, input[left..], counter + n);
      JoinRepresent(m, ChunkCvs(m, input[..left], counter), ChunkCvs(m, input[left..], counter + n), input, counter);
    }
  }

  lemma JoinRepresent(m: Mode, a: seq<Cv>, b: seq<Cv>, input: Bytes, counter: nat)
    requires |input| > CHUNK_LEN && IsPow2(|a|) && 0 < |b| <= |a|
    requires var left := LeftLen(|input|);
             && Represents(m, a, input[..left], counter)
             && Represents(m, b, input[left..], counter + left / CHUNK_LEN)
    ensures Represents(m, a + b, input, counter)
  {
    hide TreeCv, Represents;
    var cvs := a + b;
    assert cvs[..|a|] == a && cvs[|a|..] == b;
    SplitRepresents(m, cvs, input, counter, |a|);
  }

  /** compress_chunks_parallel */
  method CompressChunks(m: Mode, input: Bytes, counter: nat) returns (cvs: seq<Cv>)
    ensures cvs == ChunkCvs(m, input, counter)
  {
    hide TreeCv, ChunkOutput;
    var at := 0;
    cvs := [];
    assert input[0..] == input;
    while |input| - at >= CHUNK_LEN
      invariant 0 <= at <= |input| && at == |cvs| * CHUNK_LEN
      invariant ChunkCvs(m, input, counter) == cvs + ChunkCvs(m, input[at..], counter + |cvs|)
    {
      NextChunk(m, input, at, counter + |cvs|);
      cvs := cvs + [Compressed(ChunkOutput(m, input[at..at + CHUNK_LEN], counter + |cvs|))];
      at := at + CHUNK_LEN;
    }
    if |input| > at {
      ChunkTree(m, input[at..], counter + |cvs|);
      cvs := cvs + [Compressed(ChunkOutput(m, input[at..], counter + |cvs|))];
    }
  }

  lemma ChunkTree(m: Mode, chunk: Bytes, counter: nat)
    requires |chunk| <= CHUNK_LEN
    ensures TreeCv(m, chunk, counter) == Compressed(ChunkOutput(m, chunk, counter))
  {
  }

  lemma NextChunk(m: Mode, input: Bytes, at: nat, counter: nat)
    requires at + CHUNK_LEN <= |input|
    ensures ChunkCvs(m, input[at..], counter)
            == [Compressed(ChunkOutput(m, input[at..at + CHUNK_LEN], counter))]
               + ChunkCvs(m, input[at + CHUNK_LEN..], counter + 1)
  {
    hide TreeCv, ChunkOutput;
    var rest := input[at..];
    assert rest[..CHUNK_LEN] == input[at..at + CHUNK_LEN] && rest[CHUNK_LEN..] == input[at + CHUNK_LEN..];
    ChunkTree(m, rest[..CHUNK_LEN], counter);
    if |rest| == CHUNK_LEN { assert rest == rest[..CHUNK_LEN] && rest[CHUNK_LEN..] == []; }
  }

  /** compress_parents_parallel */
  method CompressParents(m: Mode, cvs: seq<Cv>) returns (out: seq<Cv>)
    ensures out == Pairs(m, cvs)
  {
    out := [];
    assert cvs[0..] == cvs;
    while |cvs| - 2 * |out| >= 2
      invariant 2 * |out| <= |cvs| && Pairs(m, cvs) == out + Pairs(m, cvs[2 * |out|..])
    {
      assert cvs[2 * |out|..][2..] == cvs[2 * |out| + 2..];
      out := out + [Parent(m, cvs[2 * |out|], cvs[2 * |out| + 1])];
    }
    if |cvs| > 2 * |out| {
      out := out + [cvs[2 * |out|]];
    }
  }

  // ------------------------------------------------------------------- whole subtrees

  function AtLeast2(degree: nat): nat {
    if degree > 2 then degree else 2
  }

  /** How many values come back for a whole number of chunks that is a power of two. */
  function WideCount(chunks: nat, degree: nat): nat {
    if chunks <= AtLeast2(degree) then chunks else AtLeast2(degree)
  }

  /** What a list for `length` bytes may look like. */
  ghost predicate CountOk(length: nat, degree: nat, n: nat) {
    && 0 < n <= AtLeast2(degree) && (n == 1 <==> length <= CHUNK_LEN)
    && (length % CHUNK_LEN == 0 && IsPow2(length / CHUNK_LEN) ==> n == WideCount(length / CHUNK_LEN, degree))
  }

  /** blake3_compress_subtree_wide */
  method SubtreeWide(m: Mode, input: Bytes, counter: nat, degree: nat) returns (cvs: seq<Cv>)
    requires |input| > 0 && IsPow2(degree)
    ensures Represents(m, cvs, input, counter) && CountOk(|input|, degree, |cvs|)
    decreases |input|
  {
    hide Represents, TreeCv, CountOk, IsPow2, Chunks, ChunkCvs;
    if |input| <= degree * CHUNK_LEN {
      cvs := CompressChunks(m, input, counter);
      ChunksRepresent(m, input, counter);
      ChunkCount(m, input, counter);
      FewChunks(|input|, degree);
      return;
    }
    LeftAtLeast(|input|, degree);
    var leftLen := LeftLen(|input|);
    var left := SubtreeWide(m, input[..leftLen], counter, degree);
    var right := SubtreeWide(m, input[leftLen..], counter + leftLen / CHUNK_LEN, degree);
    WideCounts(|input|, degree, |left|, |right|);
    // the right half is written behind as many values as there is room for
    assert |left| == if leftLen > CHUNK_LEN && degree == 1 then 2 else degree;
    JoinRepresent(m, left, right, input, counter);
    if |left| == 1 {
      return left + right;
    }
    cvs := CompressParents(m, left + right);
    PairsRepresent(m, left + right, input, counter);
  }

  lemma FewChunks(length: nat, degree: nat)
    requires 0 < length <= degree * CHUNK_LEN
    ensures CountOk(length, degree, Chunks(length))
  {
  }

  lemma LeftAtLeast(length: nat, degree: nat)
    requires degree * CHUNK_LEN < length && IsPow2(degree)
    ensures length > CHUNK_LEN && LeftLen(length) / CHUNK_LEN >= degree > 0
  {
    FloorAtLeast((length - 1) / CHUNK_LEN, degree);
  }

  lemma {:induction false} FloorAtLeast(n: nat, p: nat)
    requires IsPow2(p) && 0 < p <= n
    ensures Pow2Floor(n) >= p
  {
    if n > 1 && p > 1 { FloorAtLeast(n / 2, p / 2); }
  }

  lemma SmallPowers()
    ensures IsPow2(1) && IsPow2(2)
  {
    assert IsPow2(1);
  }

  /** The counts of the two halves fit together. */
  lemma WideCounts(length: nat, degree: nat, left: nat, right: nat)
    requires IsPow2(degree) && degree * CHUNK_LEN < length && length > CHUNK_LEN
    requires CountOk(LeftLen(length), degree, left) && CountOk(length - LeftLen(length), degree, right)
    ensures IsPow2(left) && 0 < right <= left
    ensures left == if LeftLen(length) > CHUNK_LEN && degree == 1 then 2 else degree
    ensures CountOk(length, degree, if left == 1 then left + right else (left + right + 1) / 2)
  {
    hide IsPow2;
    LeftAtLeast(length, degree);
    SmallPowers();
    if length % CHUNK_LEN == 0 && IsPow2(length / CHUNK_LEN) {
      HalfLeft(length, length / CHUNK_LEN);
    }
  }

  lemma HalfLeft(length: nat, chunks: nat)
    requires length == chunks * CHUNK_LEN && length > CHUNK_LEN && IsPow2(chunks)
    ensures LeftLen(length) == length - LeftLen(length) && chunks == 2 * (LeftLen(length) / CHUNK_LEN)
  {
    LeftLenUnique(length, chunks / 2);
  }

  /** compress_subtree_to_parent_node: the chaining values of the root's two children, so
      that the subtree's root itself can still be the root of everything. */
  method SubtreeToParent(m: Mode, input: Bytes, counter: nat, degree: nat) returns (left: Cv, right: Cv)
    requires |input| > CHUNK_LEN && IsPow2(degree)
    ensures left == TreeCv(m, input[..LeftLen(|input|)], counter)
    ensures right == TreeCv(m, input[LeftLen(|input|)..], counter + LeftLen(|input|) / CHUNK_LEN)
    ensures ParentOutput(m, left, right) == Tree(m, input, counter)
  {
    hide Represents, TreeCv, Tree;
    var cvs := SubtreeWide(m, input, counter, degree);
    while |cvs| > 2
      invariant |cvs| >= 2 && Represents(m, cvs, input, counter)
    {
      PairsRepresent(m, cvs, input, counter);
      cvs := CompressParents(m, cvs);
    }
    TwoAreRootPair(m, cvs, input, counter);
    left, right := cvs[0], cvs[1];
  }
}
