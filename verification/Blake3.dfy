/** The incremental hasher (src/ext/blake3/blake3.c:404-611): however the input is cut into
    updates, the result is the tree hash of all of it. */
module Blake3 {
  import opened Base
  import opened Blake3Tree
  import opened Blake3Subtree
  import opened Blake3Stack
  import opened Blake3Chunk
  import Utilities

  const BLAKE3_MAX_DEPTH := 54

  // ------------------------------------------------------------------------ lazy merging

  /** The last subtree has been pushed but not merged yet. */
  ghost predicate IsLazy(sizes: seq<nat>, n: nat, q: nat, s: nat) {
    IsPow2(s) && n == (q + 1) * s && sizes == Binary(q, s) + [s]
  }

  ghost predicate Lazy(sizes: seq<nat>, n: nat) {
    exists q: nat, s: nat :: IsLazy(sizes, n, q, s)
  }

  lemma {:induction false} PopcountNext(n: nat)
    ensures Popcount(n + 1) <= Popcount(n) + 1
  {
    if n % 2 == 1 {
      PopcountNext(n / 2);
      assert (n + 1) / 2 == n / 2 + 1;
    } else {
      assert (n + 1) / 2 == n / 2;
    }
  }

  lemma LazyEven(sizes: seq<nat>, n: nat, q: nat, s: nat)
    requires IsLazy(sizes, n, q, s) && q % 2 == 0
    ensures sizes == Binary(n, 1) && |sizes| == Popcount(n)
  {
    hide Binary, Popcount, IsPow2;
    Carry(q, s);
    PopcountScale(q + 1, s);
    BinaryCount(q + 1, s);
  }

  lemma LazyOdd(sizes: seq<nat>, n: nat, q: nat, s: nat)
    requires IsLazy(sizes, n, q, s) && q % 2 == 1
    ensures var pre := Binary(q / 2, 2 * s);
            sizes == pre + [s, s] && IsLazy(pre + [2 * s], n, q / 2, 2 * s) && |sizes| > Popcount(n)
  {
    hide Binary, Popcount, IsPow2;
    Carry(q, s);
    Doubled(s);
    EvenTimes(q, s);
    PopcountScale(q / 2 + 1, 2 * s);
    BinaryCount(q / 2, 2 * s);
    PopcountNext(q / 2);
  }

  lemma EvenTimes(q: nat, s: nat)
    requires q % 2 == 1
    ensures (q + 1) * s == (q / 2 + 1) * (2 * s)
  {
    var h := q / 2;
    assert q + 1 == 2 * (h + 1);
    assert 2 * (h + 1) * s == (h + 1) * (2 * s);
  }

  /** As long as the stack is higher than the number of 1-bits, its two topmost subtrees have
      the same size. */
  lemma LazyMerge(sizes: seq<nat>, n: nat) returns (pre: seq<nat>, s: nat)
    requires Lazy(sizes, n) && |sizes| > Popcount(n)
    ensures IsPow2(s) && sizes == pre + [s, s] && Lazy(pre + [2 * s], n)
  {
    hide Binary, Popcount, IsPow2;
    var q: nat, t: nat :| IsLazy(sizes, n, q, t);
    if q % 2 == 0 { LazyEven(sizes, n, q, t); }
    LazyOdd(sizes, n, q, t);
    pre, s := Binary(q / 2, 2 * t), t;
  }

  /** As soon as it is not, one subtree per 1-bit is left. */
  lemma LazyDone(sizes: seq<nat>, n: nat)
    requires Lazy(sizes, n) && |sizes| <= Popcount(n)
    ensures sizes == Binary(n, 1)
  {
    hide Binary, Popcount, IsPow2, IsLazy;
    var q: nat, s: nat :| IsLazy(sizes, n, q, s);
    if q % 2 == 0 { LazyEven(sizes, n, q, s); } else { LazyOdd(sizes, n, q, s); }
  }

  lemma PushLazy(n: nat, s: nat)
    requires IsPow2(s) && s > 0 && Divides(s, n)
    ensures Lazy(Binary(n, 1) + [s], n + s)
  {
    hide Binary, IsPow2;
    var q := n / s;
    assert n == q * s;
    PopcountScale(q, s);
    assert (q + 1) * s == q * s + s;
    assert IsLazy(Binary(n, 1) + [s], n + s, q, s);
  }

  /** The input is shorter than 2^64 bytes, so the number of whole chunks needs 54 bits. */
  lemma StackFits(n: nat)
    requires n < Power(BLAKE3_MAX_DEPTH)
    ensures |Binary(n, 1)| == Popcount(n) <= BLAKE3_MAX_DEPTH
  {
    BinaryCount(n, 1);
    PopcountBound(n, BLAKE3_MAX_DEPTH);
  }

  // -------------------------------------------------------------------------- the hasher

  class Hasher {
    const m: Mode
    const degree: nat
    const chunk: ChunkState
    const cvStack: array<Cv>
    var cvStackLen: nat

    /** The whole chunks hashed so far, and the sizes of the subtrees on the stack. */
    ghost var hashed: Bytes
    ghost var sizes: seq<nat>

    /** Everything that has been fed. */
    ghost function Fed(): Bytes
      reads this, chunk
    {
      hashed + chunk.bytes
    }

    ghost predicate StackOk()
      reads this, cvStack
    {
      && cvStack.Length == BLAKE3_MAX_DEPTH + 1 && cvStackLen <= cvStack.Length
      && Stacked(m, cvStack[..cvStackLen], sizes, hashed, 0)
    }

    ghost predicate Base()
      reads this, cvStack, chunk, chunk.buf
    {
      StackOk() && chunk.Valid() && chunk.m == m && IsPow2(degree) && |hashed| == Span(chunk.counter)
    }

    /** The stack holds n chunks; everything is merged, or the last push is still to be. */
    ghost predicate Holding(n: nat)
      reads this, cvStack
    {
      StackOk() && |hashed| == Span(n) && (sizes == Binary(n, 1) || Lazy(sizes, n))
    }

    ghost predicate Valid()
      reads this, cvStack, chunk, chunk.buf
    {
      && Base()
      && if chunk.bytes != [] || chunk.counter == 0 then sizes == Binary(chunk.counter, 1)
         else Lazy(sizes, chunk.counter) && |sizes| >= 2
    }

    /** hasher_init_base */
    constructor (mode: Mode, simdDegree: nat)
      requires IsPow2(simdDegree)
      ensures Valid() && Fed() == [] && m == mode && fresh(chunk) && fresh(chunk.buf) && fresh(cvStack)
    {
      m, degree := mode, simdDegree;
      chunk := new ChunkState(mode, 0);
      cvStack := new Cv[BLAKE3_MAX_DEPTH + 1](_ => mode.key);
      cvStackLen := 0;
      hashed, sizes := [], [];
      new;
      assert cvStack[..0] == [];
    }

    /** hasher_merge_cv_stack */
    method MergeCvStack(n: nat)
      requires Holding(n)
      modifies `cvStackLen, `sizes, cvStack
      ensures Holding(n) && sizes == Binary(n, 1)
    {
      hide Lazy, Stacked, Binary, Popcount, IsPow2;
      var post := Popcount(n);
      BinaryCount(n, 1);
      StackHeight(m, cvStack[..cvStackLen], sizes, hashed);
      while cvStackLen > post
        invariant Holding(n) && |sizes| == cvStackLen
      {
        MergeTwo(n);
      }
      if sizes != Binary(n, 1) {
        LazyDone(sizes, n);
      }
    }

    method MergeTwo(ghost n: nat)
      requires StackOk() && |sizes| == cvStackLen > Popcount(n) && Lazy(sizes, n)
      modifies `cvStackLen, `sizes, cvStack
      ensures StackOk() && |sizes| == cvStackLen == old(cvStackLen) - 1 && Lazy(sizes, n)
    {
      hide Lazy, Stacked, Binary, Popcount, IsPow2;
      ghost var pre, s := LazyMerge(sizes, n);
      MergeTop(m, cvStack[..cvStackLen], pre, s, hashed, 0);
      var k := cvStackLen - 2;
      cvStack[k] := Parent(m, cvStack[k], cvStack[k + 1]);
      cvStackLen := cvStackLen - 1;
      sizes := pre + [2 * s];
      assert cvStack[..cvStackLen] == old(cvStack[..cvStackLen])[..k] + [cvStack[k]];
    }

    /** hasher_push_cv, for the subtree over the next s chunks after the first n. */
    method PushCv(cv: Cv, n: nat, ghost s: nat, ghost part: Bytes)
      requires Holding(n) && n < Power(BLAKE3_MAX_DEPTH)
      requires IsPow2(s) && s > 0 && Divides(s, n) && |part| == Span(s) && cv == TreeCv(m, part, n)
      modifies `cvStackLen, `sizes, `hashed, cvStack
      ensures Holding(n + s) && hashed == old(hashed) + part && Lazy(sizes, n + s)
      ensures n > 0 ==> |sizes| >= 2
    {
      hide Lazy, Stacked, Binary, Popcount, IsPow2, TreeCv, Divides, Power;
      MergeCvStack(n);
      StackFits(n);
      StackHeight(m, cvStack[..cvStackLen], sizes, hashed);
      ghost var before := cvStack[..cvStackLen];
      Pushed(m, before, n, hashed, cv, s, part);
      PopcountPositive(n);
      cvStack[cvStackLen] := cv;
      cvStackLen := cvStackLen + 1;
      sizes := sizes + [s];
      hashed := hashed + part;
      assert cvStack[..cvStackLen] == before + [cv];
    }

    /** The current chunk is full and more input follows: it is not the root. */
    method FinishChunk()
      requires Valid() && |chunk.bytes| == CHUNK_LEN && chunk.counter < Power(BLAKE3_MAX_DEPTH)
      modifies this, cvStack, chunk, chunk.buf
      ensures Base() && Holding(chunk.counter) && chunk.bytes == [] && Fed() == old(Fed())
    {
      hide Lazy, Stacked, Binary, Popcount, IsPow2, TreeCv, Divides, ChunkOutput, Holds, Power;
      var output := chunk.GetOutput();
      var n := chunk.counter;
      OneChunk(m, chunk.bytes, n);
      PushCv(Compressed(output), n, 1, chunk.bytes);
      chunk.Reset(n + 1);
    }

    /** The number of chunks in the largest whole subtree that the remaining input and the
        count so far allow. */
    method SubtreeChunks(rest: nat) returns (chunks: nat)
      requires rest > CHUNK_LEN
      ensures 0 < Span(chunks) <= rest && IsPow2(chunks) && chunks > 0 && Divides(chunks, chunk.counter)
    {
      hide IsPow2, Divides;
      var length := Pow2Floor(rest);
      WholeChunks(length, rest);
      while !Divides(length, Span(chunk.counter))
        invariant 0 < length <= rest && length % CHUNK_LEN == 0 && IsPow2(length / CHUNK_LEN)
        decreases length
      {
        Halve(length, chunk.counter);
        length := length / 2;
      }
      chunks := length / CHUNK_LEN;
      SpanDivides(chunk.counter, chunks);
    }

    /** One turn of the loop over whole subtrees. */
    method AbsorbSubtree(input: Bytes) returns (used: nat)
      requires Base() && Holding(chunk.counter) && chunk.bytes == []
      requires |input| > CHUNK_LEN && |hashed| + |input| < Span(Power(BLAKE3_MAX_DEPTH))
      modifies this, cvStack, chunk
      ensures Base() && Holding(chunk.counter) && Lazy(sizes, chunk.counter) && chunk.bytes == []
      ensures 0 < used <= |input| && Fed() == old(Fed()) + input[..used]
      ensures used == |input| ==> |sizes| >= 2
    {
      hide Lazy, Stacked, Binary, Popcount, IsPow2, TreeCv, Divides, ChunkOutput, Holds, Power;
      var chunks := SubtreeChunks(|input|);
      used := chunks * CHUNK_LEN;
      var n := chunk.counter;
      if used <= CHUNK_LEN {
        PushChunk(input[..used], n);
      } else {
        PushPair(input[..used], n, chunks);
      }
      chunk.Skip(chunks);
    }

    /** blake3_hasher_update, for less than 2^64 bytes in all. */
    method Update(input: Bytes)
      requires Valid() && |Fed()| + |input| < Span(Power(BLAKE3_MAX_DEPTH))
      modifies this, cvStack, chunk, chunk.buf
      ensures Valid() && Fed() == old(Fed()) + input
    {
      hide Lazy, Stacked, Binary, Popcount, IsPow2, Holds, Power;
      if |input| == 0 {
        return;
      }
      var rest := input;
      var length := chunk.Length();
      if length > 0 {
        rest := TopUp(input);
        if |rest| == 0 {
          return;
        }
      }
      rest := AbsorbSubtrees(rest);
      assert hashed + rest == old(Fed()) + input;
      if |rest| > 0 {
        chunk.Update(rest);
        MergeCvStack(chunk.counter);
      }
    }

    /** A chunk that has been begun is continued, and finished if more follows. */
    method TopUp(input: Bytes) returns (rest: Bytes)
      requires Valid() && chunk.bytes != [] && |Fed()| + |input| < Span(Power(BLAKE3_MAX_DEPTH)) && input != []
      modifies this, cvStack, chunk, chunk.buf
      ensures Fed() + rest == old(Fed()) + input && |rest| <= |input|
      ensures rest == [] ==> Valid()
      ensures rest != [] ==> Base() && Holding(chunk.counter) && chunk.bytes == []
    {
      hide Lazy, Stacked, Binary, Popcount, IsPow2, Holds, Power;
      var length := chunk.Length();
      var take: nat := if CHUNK_LEN - length > |input| then |input| else CHUNK_LEN - length;
      chunk.Update(input[..take]);
      rest := input[take..];
      assert Fed() + rest == old(Fed()) + input by { assert input == input[..take] + rest; }
      if |rest| > 0 {
        FinishChunk();
      }
    }

    /** The loop over whole subtrees. */
    method AbsorbSubtrees(input: Bytes) returns (rest: Bytes)
      requires Base() && Holding(chunk.counter) && chunk.bytes == [] && input != []
      requires |hashed| + |input| < Span(Power(BLAKE3_MAX_DEPTH))
      modifies this, cvStack, chunk
      ensures Base() && Holding(chunk.counter) && chunk.bytes == [] && Fed() + rest == old(Fed()) + input
      ensures |rest| <= CHUNK_LEN && (rest == [] ==> Lazy(sizes, chunk.counter) && |sizes| >= 2)
    {
      hide Lazy, Stacked, Binary, Popcount, IsPow2, Holds, Power;
      rest := input;
      while |rest| > CHUNK_LEN
        invariant Base() && Holding(chunk.counter) && chunk.bytes == [] && Fed() + rest == old(Fed()) + input
        invariant rest == [] ==> Lazy(sizes, chunk.counter) && |sizes| >= 2
        decreases |rest|
      {
        var used := AbsorbSubtree(rest);
        assert rest == rest[..used] + rest[used..];
        rest := rest[used..];
      }
    }

    /** blake3_hasher_finalize_seek: the root over everything that has been fed. */
    method Finalize() returns (root: Output)
      requires Valid()
      ensures root == Tree(m, Fed(), 0)
    {
      hide Lazy, Stacked, Binary, Popcount, IsPow2, Holds, Power, Tree, ChunkOutput, RollUp;
      StackHeight(m, cvStack[..cvStackLen], sizes, hashed);
      var length := chunk.Length();
      if cvStackLen == 0 {
        OnlyChunk(m, sizes, chunk.counter, hashed, chunk.bytes);
        root := chunk.GetOutput();
        return;
      }
      var remaining: nat;
      if length > 0 {
        remaining := cvStackLen;
        root := chunk.GetOutput();
        ChunkOnTop(m, cvStack[..cvStackLen], chunk.counter, hashed, chunk.bytes);
      } else {
        NoSizes();
        remaining := cvStackLen - 2;
        root := ParentOutput(m, cvStack[remaining], cvStack[remaining + 1]);
        PairOnTop(m, cvStack[..cvStackLen], sizes, chunk.counter, hashed);
        assert cvStack[..cvStackLen][..remaining] == cvStack[..remaining] && Fed() == hashed;
      }
      while remaining > 0
        invariant remaining <= cvStackLen && RollUp(m, cvStack[..remaining], root) == Tree(m, Fed(), 0)
      {
        remaining := remaining - 1;
        RollUpLast(m, cvStack[..remaining + 1], root);
        assert cvStack[..remaining + 1][..remaining] == cvStack[..remaining];
        root := ParentOutput(m, cvStack[remaining], Compressed(root));
      }
      NoRollUp(m, root);
      assert cvStack[..0] == [];
    }

    /** The same, down to the bytes. */
    method FinalizeSeek(seek: nat, length: nat, xof: Xof) returns (out: Bytes)
      requires Valid()
      ensures |out| == length && forall i :: 0 <= i < length ==> out[i] == StreamByte(xof, Tree(m, Fed(), 0),
          seek + i)
    {
      hide Lazy, Stacked, Binary, Popcount, IsPow2, Holds, Power, Tree;
      var root := Finalize();
      out := RootBytes(root, seek, length, xof);
    }

    /** A single chunk, hashed on its own. */
    method PushChunk(part: Bytes, n: nat)
      requires Holding(n) && |part| == CHUNK_LEN && n < Power(BLAKE3_MAX_DEPTH)
      modifies `cvStackLen, `sizes, `hashed, cvStack
      ensures Holding(n + 1) && Lazy(sizes, n + 1) && hashed == old(hashed) + part
    {
      hide Lazy, Stacked, Binary, Popcount, IsPow2, TreeCv, Divides, ChunkOutput, Holds, Power;
      var state := new ChunkState(m, n);
      state.Update(part);
      assert state.bytes == part;
      var output := state.GetOutput();
      OneChunk(m, part, n);
      PushCv(Compressed(output), n, 1, part);
    }

    /** A subtree of more than one chunk: its two halves are pushed one after the other. */
    method PushPair(part: Bytes, n: nat, chunks: nat)
      requires Holding(n) && IsPow2(degree)
      requires chunks > 1 && IsPow2(chunks) && Divides(chunks, n) && |part| == Span(chunks)
      requires n + chunks < Power(BLAKE3_MAX_DEPTH)
      modifies `cvStackLen, `sizes, `hashed, cvStack
      ensures Holding(n + chunks) && Lazy(sizes, n + chunks) && |sizes| >= 2 && hashed == old(hashed) + part
    {
      hide Lazy, Stacked, Binary, Popcount, IsPow2, TreeCv, Divides, Tree, Power;
      var left, right := SubtreeToParent(m, part, n, degree);
      ghost var half := Span(chunks / 2);
      Halves(chunks, n);
      assert part == part[..half] + part[half..];
      PushCv(left, n, chunks / 2, part[..half]);
      PushCv(right, n + chunks / 2, chunks / 2, part[half..]);
    }
  }

  function Concat(parts: seq<Bytes>): Bytes {
    if parts == [] then [] else Concat(parts[..|parts| - 1]) + parts[|parts| - 1]
  }

  /** However the input is cut into updates, and however many chunks are hashed at once, the
      result is the tree hash of all of it. */
  method Hash(m: Mode, degree: nat, parts: seq<Bytes>) returns (root: Output)
    requires IsPow2(degree) && |Concat(parts)| < Span(Power(BLAKE3_MAX_DEPTH))
    ensures root == Tree(m, Concat(parts), 0)
  {
    hide Tree, Hasher.Valid;
    var h := new Hasher(m, degree);
    var i := 0;
    assert parts[..0] == [];
    while i < |parts|
      invariant 0 <= i <= |parts| && h.Valid() && h.Fed() == Concat(parts[..i]) && h.m == m
      invariant fresh(h) && fresh(h.cvStack) && fresh(h.chunk) && fresh(h.chunk.buf)
    {
      assert parts[..i + 1][..i] == parts[..i];
      PrefixShorter(parts, i + 1);
      h.Update(parts[i]);
      i := i + 1;
    }
    assert parts[..i] == parts;
    root := h.Finalize();
  }

  lemma {:induction false} PrefixShorter(parts: seq<Bytes>, n: nat)
    requires n <= |parts|
    ensures |Concat(parts[..n])| <= |Concat(parts)|
  {
    if n < |parts| {
      var k := |parts| - 1;
      assert parts[..k][..n] == parts[..n];
      PrefixShorter(parts[..k], n);
    } else {
      assert parts[..n] == parts;
    }
  }

  lemma OnlyChunk(m: Mode, sizes: seq<nat>, n: nat, hashed: Bytes, bytes: Bytes)
    requires sizes == [] && |bytes| <= CHUNK_LEN && |hashed| == Span(n)
    requires n == 0 || sizes == Binary(n, 1)
    ensures n == 0 && hashed + bytes == bytes && Tree(m, bytes, 0) == ChunkOutput(m, bytes, 0)
  {
    BinaryTotal(n, 1);
  }

  /** Everything is merged and the unfinished chunk comes last. */
  lemma ChunkOnTop(m: Mode, stack: seq<Cv>, n: nat, data: Bytes, chunk: Bytes)
    requires Stacked(m, stack, Binary(n, 1), data, 0) && 0 < |chunk| <= CHUNK_LEN
    ensures RollUp(m, stack, ChunkOutput(m, chunk, n)) == Tree(m, data + chunk, 0)
  {
    hide Stacked, Binary, RollUp, ChunkOutput;
    BinaryTotal(n, 1);
    assert IsPow2(1);
    BinaryDescends(n, 1, |chunk|);
    RollUpIsTree(m, stack, Binary(n, 1), data, chunk, 0);
  }

  lemma NoSizes()
    ensures Binary(0, 1) == []
  {
  }

  /** No bytes are left over, and the two topmost subtrees have not been merged. */
  lemma PairOnTop(m: Mode, stack: seq<Cv>, sizes: seq<nat>, n: nat, data: Bytes)
    requires Stacked(m, stack, sizes, data, 0) && Lazy(sizes, n) && |sizes| >= 2
    ensures |stack| == |sizes|
    ensures var k := |stack| - 2; RollUp(m, stack[..k], ParentOutput(m, stack[k], stack[k + 1])) == Tree(m, data, 0)
  {
    hide Stacked, Binary, RollUp, IsPow2, Tree, ParentOutput;
    StackHeight(m, stack, sizes, data);
    var q: nat, s: nat :| IsLazy(sizes, n, q, s);
    TopTwo(m, stack, q, s, data);
  }

  lemma TopTwo(m: Mode, stack: seq<Cv>, q: nat, s: nat, data: Bytes)
    requires Stacked(m, stack, Binary(q, s) + [s], data, 0) && IsPow2(s) && |stack| >= 2
    ensures var k := |stack| - 2; RollUp(m, stack[..k], ParentOutput(m, stack[k], stack[k + 1])) == Tree(m, data, 0)
  {
    hide Stacked, Binary, RollUp, IsPow2, Tree, ParentOutput, Span, Total, Descending;
    var pre := Binary(q, s);
    StackHeight(m, stack, pre + [s], data);
    StackedSplit(m, stack, pre, [s], data, 0);
    var k, at := |stack| - 1, Span(Total(pre));
    var low, last := stack[..k], data[at..];
    LastStacked(m, stack[k..], s, last, Total(pre));
    BinaryDescends(q, s, Span(s));
    RollUpIsTree(m, low, pre, data[..at], last, 0);
    assert data == data[..at] + last;
    RollUpLast(m, low, Tree(m, last, Total(pre)));
    assert low[..k - 1] == stack[..k - 1] && low[k - 1] == stack[k - 1] && stack[k..][0] == stack[k];
  }

  lemma LastStacked(m: Mode, stack: seq<Cv>, s: nat, data: Bytes, counter: nat)
    requires Stacked(m, stack, [s], data, counter) && IsPow2(s)
    ensures |stack| == 1 && |data| == Span(s) > 0 && stack[0] == Compressed(Tree(m, data, counter))
  {
    hide Tree;
    assert [s][1..] == [];
    assert data[..Span(s)] == data;
  }

  lemma RollUpLast(m: Mode, stack: seq<Cv>, top: Output)
    requires stack != []
    ensures var n := |stack| - 1;
            RollUp(m, stack, top) == RollUp(m, stack[..n], ParentOutput(m, stack[n], Compressed(top)))
  {
  }

  lemma OneChunk(m: Mode, bytes: Bytes, n: nat)
    requires |bytes| == CHUNK_LEN
    ensures IsPow2(1) && Divides(1, n) && |bytes| == Span(1)
    ensures Compressed(ChunkOutput(m, bytes, n)) == TreeCv(m, bytes, n)
  {
  }

  /** The mask test of the source: length is a power of two, so no bit of the count is below
      it exactly if it divides the count. */
  predicate Divides(length: nat, count: nat)
    requires length > 0
  {
    count % length == 0
  }

  lemma MulLess(a: nat, b: nat, k: nat)
    requires k > 0 && a < b
    ensures a * k < b * k
  {
    assert b * k == a * k + (b - a) * k;
    Utilities.MulMono(b - a, k);
  }

  lemma MulCancel(a: nat, b: nat, k: nat)
    requires k > 0 && a * k == b * k
    ensures a == b
  {
    if a < b { MulLess(a, b, k); } else if b < a { MulLess(b, a, k); }
  }

  lemma DivExact(q: nat, k: nat)
    requires k > 0
    ensures (q * k) % k == 0 && (q * k) / k == q
  {
    var x := q * k;
    DivisibleBy(q, k);
    assert x == (x / k) * k + x % k;
    MulCancel(x / k, q, k);
  }

  lemma Halves(chunks: nat, n: nat)
    requires chunks > 1 && IsPow2(chunks) && Divides(chunks, n)
    ensures IsPow2(chunks / 2) && chunks == 2 * (chunks / 2)
    ensures Divides(chunks / 2, n) && Divides(chunks / 2, n + chunks / 2)
    ensures LeftLen(Span(chunks)) == Span(chunks / 2)
  {
    hide IsPow2, LeftLen;
    EvenPow2(chunks);
    HalfDivides(n, chunks / 2);
    HalfLeft(Span(chunks), chunks);
  }

  lemma EvenPow2(p: nat)
    requires p > 1 && IsPow2(p)
    ensures p == 2 * (p / 2) && IsPow2(p / 2)
  {
  }

  lemma HalfDivides(n: nat, h: nat)
    requires h > 0 && n % (2 * h) == 0
    ensures n % h == 0 && (n + h) % h == 0
  {
    var k := n / (2 * h);
    assert n == k * (2 * h) + n % (2 * h);
    assert k * (2 * h) == (2 * k) * h;
    DivisibleBy(2 * k, h);
    Utilities.ModShift(n, h);
  }

  lemma DivisibleBy(k: nat, h: nat)
    requires h > 0
    ensures (k * h) % h == 0
  {
    Utilities.ModMultiple(0, k, h);
  }

  lemma Halve(length: nat, n: nat)
    requires length > 0 && length % CHUNK_LEN == 0 && IsPow2(length / CHUNK_LEN) && !Divides(length, Span(n))
    ensures (length / 2) % CHUNK_LEN == 0 && IsPow2(length / 2 / CHUNK_LEN) && 0 < length / 2 < length
  {
    var c := length / CHUNK_LEN;
    if c == 1 {
      DivisibleBy(n, CHUNK_LEN);
    }
    assert length / 2 == (c / 2) * CHUNK_LEN;
  }

  lemma SpanDivides(n: nat, c: nat)
    requires c > 0 && Divides(Span(c), Span(n))
    ensures Divides(c, n)
  {
    var k := Span(n) / Span(c);
    assert Span(n) == k * Span(c);
    assert n == k * c;
    DivisibleBy(k, c);
  }

  lemma {:induction false} PopcountPositive(n: nat)
    ensures n > 0 ==> Popcount(n) > 0
  {
    if n > 1 { PopcountPositive(n / 2); }
  }

  lemma WholeChunks(length: nat, rest: nat)
    requires IsPow2(length) && length <= rest < 2 * length && rest > CHUNK_LEN
    ensures length % CHUNK_LEN == 0 && IsPow2(length / CHUNK_LEN)
  {
    assert IsPow2(CHUNK_LEN) by { SmallPow2(); }
    Multiples(length, CHUNK_LEN);
  }

  lemma SmallPow2()
    ensures IsPow2(CHUNK_LEN)
  {
    assert IsPow2(16) && IsPow2(32) && IsPow2(64) && IsPow2(128) && IsPow2(256) && IsPow2(512);
  }

  /** The larger of two powers of two is a multiple of the smaller. */
  lemma {:induction false} Multiples(p: nat, k: nat)
    requires IsPow2(p) && IsPow2(k) && 2 * p > k
    ensures k > 0 && p % k == 0 && IsPow2(p / k)
    decreases k
  {
    if k > 1 {
      EvenPow2(p);
      EvenPow2(k);
      hide IsPow2;
      Multiples(p / 2, k / 2);
      TwiceMultiple(p / 2, k / 2);
    }
  }

  lemma TwiceMultiple(a: nat, b: nat)
    requires b > 0 && a % b == 0
    ensures (2 * a) % (2 * b) == 0 && (2 * a) / (2 * b) == a / b
  {
    var q := a / b;
    assert a == q * b + a % b;
    assert 2 * (q * b) == q * (2 * b);
    DivExact(q, 2 * b);
  }

  lemma StackHeight(m: Mode, stack: seq<Cv>, sizes: seq<nat>, data: Bytes)
    requires Stacked(m, stack, sizes, data, 0)
    ensures |stack| == |sizes|
  {
  }

  lemma Pushed(m: Mode, stack: seq<Cv>, n: nat, data: Bytes, cv: Cv, s: nat, part: Bytes)
    requires Stacked(m, stack, Binary(n, 1), data, 0)
    requires IsPow2(s) && s > 0 && Divides(s, n) && |part| == Span(s) && cv == TreeCv(m, part, n)
    ensures Stacked(m, stack + [cv], Binary(n, 1) + [s], data + part, 0) && Lazy(Binary(n, 1) + [s], n + s)
  {
    hide Lazy, Stacked, Binary, IsPow2, TreeCv, Span, Divides;
    PushLazy(n, s);
    OneStacked(m, cv, s, part, n);
    BinaryTotal(n, 1);
    StackedAppend(m, stack, Binary(n, 1), data, 0, [cv], [s], part);
  }
}
