/** The stack of chaining values (src/ext/blake3/blake3.c:404-453, 569-611): which subtrees
    it holds, and how they roll up to the root. */
module Blake3Stack {
  import opened Base
  import opened Blake3Tree

  // ------------------------------------------------------------------ sizes of subtrees

  /** q * s chunks as subtrees of distinct sizes, the largest first: one for every 1-bit of
      q, in units of s. */
  function Binary(q: nat, s: nat): (sizes: seq<nat>)
    decreases q
  {
    if q == 0 then [] else Binary(q / 2, 2 * s) + (if q % 2 == 1 then [s] else [])
  }

  function Popcount(n: nat): nat {
    if n == 0 then 0 else n % 2 + Popcount(n / 2)
  }

  lemma {:induction false} BinaryCount(q: nat, s: nat)
    ensures |Binary(q, s)| == Popcount(q)
    decreases q
  {
    if q > 0 { BinaryCount(q / 2, 2 * s); }
  }

  /** Adding the next unit: without a carry it stays apart, with a carry the last two sizes
      are equal and make one of twice that size. */
  lemma Carry(q: nat, s: nat)
    ensures q % 2 == 0 ==> Binary(q, s) + [s] == Binary(q + 1, s)
    ensures q % 2 == 1 ==> Binary(q, s) + [s] == Binary(q / 2, 2 * s) + [s, s]
    ensures q % 2 == 1 ==> Binary(q + 1, s) == Binary(q / 2 + 1, 2 * s)
  {
    if q % 2 == 0 {
      assert (q + 1) / 2 == q / 2;
      if q == 0 { assert Binary(1, s) == Binary(0, 2 * s) + [s]; }
    } else {
      assert (q + 1) / 2 == q / 2 + 1;
      assert Binary(q, s) == Binary(q / 2, 2 * s) + [s];
    }
  }

  lemma {:induction false} PopcountScale(q: nat, s: nat)
    requires IsPow2(s)
    ensures Popcount(q * s) == Popcount(q) && Binary(q * s, 1) == Binary(q, s)
    decreases s
  {
    if s > 1 {
      var t := s / 2;
      PopcountScale(2 * q, t);
      TwiceHalf(q, s);
      DoubledBinary(q, t);
    }
  }

  lemma TwiceHalf(q: nat, s: nat)
    requires s % 2 == 0
    ensures q * s == 2 * q * (s / 2)
  {
    assert s == 2 * (s / 2);
  }

  lemma DoubledBinary(q: nat, t: nat)
    ensures Binary(2 * q, t) == Binary(q, 2 * t) && Popcount(2 * q) == Popcount(q)
  {
  }

  /** Counts below 2^depth have at most `depth` ones. */
  lemma {:induction false} PopcountBound(n: nat, depth: nat)
    requires n < Power(depth)
    ensures Popcount(n) <= depth
  {
    if n > 0 { PopcountBound(n / 2, depth - 1); }
  }

  function Power(k: nat): (p: nat)
    ensures p > 0
  {
    if k == 0 then 1 else 2 * Power(k - 1)
  }

  // ------------------------------------------------------------------------ the stack

  /** The bytes of n chunks. */
  function Span(n: nat): nat {
    n * CHUNK_LEN
  }

  /** Consecutive subtrees of the given sizes make up the data, and the stack holds their
      chaining values. */
  ghost predicate Stacked(m: Mode, stack: seq<Cv>, sizes: seq<nat>, data: Bytes, counter: nat)
    decreases |sizes|
  {
    && |stack| == |sizes|
    && if sizes == [] then data == []
       else
         var n := Span(sizes[0]);
         && n <= |data| && stack[0] == TreeCv(m, data[..n], counter)
         && Stacked(m, stack[1..], sizes[1..], data[n..], counter + sizes[0])
  }

  function Total(sizes: seq<nat>): nat {
    if sizes == [] then 0 else sizes[0] + Total(sizes[1..])
  }

  lemma {:induction false} TotalAppend(a: seq<nat>, b: seq<nat>)
    ensures Total(a + b) == Total(a) + Total(b)
    decreases |a|
  {
    if a == [] {
      assert a + b == b;
    } else {
      assert (a + b)[1..] == a[1..] + b;
      TotalAppend(a[1..], b);
    }
  }

  lemma {:induction false} BinaryTotal(q: nat, s: nat)
    ensures Total(Binary(q, s)) == q * s
    decreases q
  {
    if q > 0 {
      BinaryTotal(q / 2, 2 * s);
      HalvesOf(q, s);
      if q % 2 == 1 {
        TotalAppend(Binary(q / 2, 2 * s), [s]);
        assert Total([s]) == s by { assert [s][1..] == []; }
      } else {
        assert Binary(q, s) == Binary(q / 2, 2 * s);
      }
    }
  }

  lemma HalvesOf(q: nat, s: nat)
    ensures q * s == (q / 2) * (2 * s) + (if q % 2 == 1 then s else 0)
  {
    var h := q / 2;
    assert q == 2 * h + q % 2;
    if q % 2 == 1 { assert (2 * h + 1) * s == h * (2 * s) + s; } else { assert 2 * h * s == h * (2 * s); }
  }

  lemma {:induction false} StackedLength(m: Mode, stack: seq<Cv>, sizes: seq<nat>, data: Bytes, counter: nat)
    requires Stacked(m, stack, sizes, data, counter)
    ensures |data| == Span(Total(sizes))
    decreases |sizes|
  {
    hide TreeCv;
    if sizes != [] {
      StackedLength(m, stack[1..], sizes[1..], data[Span(sizes[0])..], counter + sizes[0]);
    }
  }

  /** Two stacks, one after the other. */
  lemma {:induction false} StackedAppend(m: Mode, st1: seq<Cv>, sz1: seq<nat>, d1: Bytes, counter: nat,
                                         st2: seq<Cv>, sz2: seq<nat>, d2: Bytes)
    requires Stacked(m, st1, sz1, d1, counter) && Stacked(m, st2, sz2, d2, counter + Total(sz1))
    ensures Stacked(m, st1 + st2, sz1 + sz2, d1 + d2, counter)
    decreases |sz1|
  {
    hide TreeCv, Span;
    if sz1 == [] {
      assert st1 + st2 == st2 && sz1 + sz2 == sz2 && d1 + d2 == d2;
    } else {
      var n := Span(sz1[0]);
      assert (st1 + st2)[1..] == st1[1..] + st2 && (sz1 + sz2)[1..] == sz1[1..] + sz2;
      assert (d1 + d2)[..n] == d1[..n] && (d1 + d2)[n..] == d1[n..] + d2;
      StackedAppend(m, st1[1..], sz1[1..], d1[n..], counter + sz1[0], st2, sz2, d2);
    }
  }

  /** A stack can be cut between any two subtrees. */
  lemma {:induction false} StackedSplit(m: Mode, stack: seq<Cv>, sz1: seq<nat>, sz2: seq<nat>, data: Bytes,
      counter: nat)
    requires Stacked(m, stack, sz1 + sz2, data, counter)
    ensures var n := Span(Total(sz1));
            && n <= |data| && |sz1| <= |stack|
            && Stacked(m, stack[..|sz1|], sz1, data[..n], counter)
            && Stacked(m, stack[|sz1|..], sz2, data[n..], counter + Total(sz1))
    decreases |sz1|
  {
    hide TreeCv;
    if sz1 == [] {
      assert sz1 + sz2 == sz2 && stack[0..] == stack && data[0..] == data;
    } else {
      var k := Span(sz1[0]);
      assert (sz1 + sz2)[1..] == sz1[1..] + sz2;
      StackedSplit(m, stack[1..], sz1[1..], sz2, data[k..], counter + sz1[0]);
      var rest := Span(Total(sz1[1..]));
      var n := Span(Total(sz1));
      assert data[..n][..k] == data[..k] && data[..n][k..] == data[k..][..rest] && data[k..][rest..] == data[n..];
      assert stack[..|sz1|][1..] == stack[1..][..|sz1| - 1] && stack[1..][|sz1| - 1..] == stack[|sz1|..];
    }
  }

  lemma OneStacked(m: Mode, cv: Cv, s: nat, data: Bytes, counter: nat)
    requires |data| == Span(s) && cv == TreeCv(m, data, counter)
    ensures Stacked(m, [cv], [s], data, counter)
  {
    hide TreeCv;
    assert data[..Span(s)] == data && data[Span(s)..] == [];
    assert [cv][1..] == [] && [s][1..] == [];
  }

  lemma TwoStacked(m: Mode, stack: seq<Cv>, s: nat, data: Bytes, counter: nat)
    requires Stacked(m, stack, [s, s], data, counter)
    ensures |stack| == 2 && |data| == 2 * Span(s)
    ensures stack[0] == TreeCv(m, data[..Span(s)], counter) && stack[1] == TreeCv(m, data[Span(s)..], counter + s)
  {
    hide TreeCv;
    var rest := data[Span(s)..];
    assert [s, s][1..] == [s] && [s][1..] == [];
    assert Stacked(m, stack[1..], [s], rest, counter + s);
    assert Stacked(m, stack[1..][1..], [], rest[Span(s)..], counter + s + s);
    assert rest[..Span(s)] == rest;
  }

  /** Merging two equal subtrees on top of the stack. */
  lemma MergeTop(m: Mode, stack: seq<Cv>, sizes: seq<nat>, s: nat, data: Bytes, counter: nat)
    requires IsPow2(s) && Stacked(m, stack, sizes + [s, s], data, counter)
    ensures |stack| == |sizes| + 2
    ensures var k := |sizes|;
            Stacked(m, stack[..k] + [Parent(m, stack[k], stack[k + 1])], sizes + [2 * s], data, counter)
  {
    hide TreeCv;
    var k, n := |sizes|, Span(Total(sizes));
    StackedSplit(m, stack, sizes, [s, s], data, counter);
    var top, last := stack[k..], data[n..];
    TwoStacked(m, top, s, last, counter + Total(sizes));
    var a, b := last[..Span(s)], last[Span(s)..];
    assert last == a + b;
    Merged(m, a, b, counter + Total(sizes), s);
    var cv := Parent(m, top[0], top[1]);
    OneStacked(m, cv, 2 * s, last, counter + Total(sizes));
    StackedAppend(m, stack[..k], sizes, data[..n], counter, [cv], [2 * s], last);
    assert data == data[..n] + last;
  }

  lemma Merged(m: Mode, a: Bytes, b: Bytes, counter: nat, s: nat)
    requires IsPow2(s) && |a| == |b| == Span(s)
    ensures Parent(m, TreeCv(m, a, counter), TreeCv(m, b, counter + s)) == TreeCv(m, a + b, counter)
  {
    TreeSplit(m, a, b, counter, s);
  }

  // ------------------------------------------------------------------- up to the root

  /** The subtrees are such that each is the left child of what it and everything after it
      form: a power of two, followed by something not larger. */
  ghost predicate Descending(sizes: seq<nat>, last: nat)
    decreases |sizes|
  {
    sizes == [] ||
    (IsPow2(sizes[0]) && Span(Total(sizes[1..])) + last <= Span(sizes[0]) && Descending(sizes[1..], last))
  }

  /** The stack rolled up from the top onto the root of what follows it. */
  function RollUp(m: Mode, stack: seq<Cv>, top: Output): Output
    decreases |stack|
  {
    if stack == [] then top
    else
      var n := |stack| - 1;
      RollUp(m, stack[..n], ParentOutput(m, stack[n], Compressed(top)))
  }

  lemma {:induction false} RollUpFirst(m: Mode, stack: seq<Cv>, top: Output)
    requires stack != []
    ensures RollUp(m, stack, top) == ParentOutput(m, stack[0], Compressed(RollUp(m, stack[1..], top)))
    decreases |stack|
  {
    var n := |stack| - 1;
    if n > 0 {
      var next := ParentOutput(m, stack[n], Compressed(top));
      RollUpFirst(m, stack[..n], next);
      assert stack[..n][1..] == stack[1..][..n - 1] && stack[1..][n - 1] == stack[n];
    } else {
      assert stack[1..] == [] && stack[..0] == [];
    }
  }

  /** Rolling up the stack onto the last part yields the tree over everything. */
  lemma {:induction false} RollUpIsTree(m: Mode, stack: seq<Cv>, sizes: seq<nat>, data: Bytes, last: Bytes,
      counter: nat)
    requires Stacked(m, stack, sizes, data, counter) && Descending(sizes, |last|) && |last| > 0
    ensures RollUp(m, stack, Tree(m, last, counter + Total(sizes))) == Tree(m, data + last, counter)
    decreases |sizes|
  {
    hide TreeCv, Tree, RollUp, Span, IsPow2, ParentOutput;
    var top := Tree(m, last, counter + Total(sizes));
    if sizes == [] {
      assert data + last == last;
      NoRollUp(m, top);
    } else {
      var n := Span(sizes[0]);
      var rest := data[n..];
      RollUpFirst(m, stack, top);
      assert counter + sizes[0] + Total(sizes[1..]) == counter + Total(sizes);
      RollUpIsTree(m, stack[1..], sizes[1..], rest, last, counter + sizes[0]);
      StackedLength(m, stack[1..], sizes[1..], rest, counter + sizes[0]);
      LeftOfAll(m, data[..n], rest + last, counter, sizes[0]);
      assert data[..n] + (rest + last) == data + last;
    }
  }

  lemma NoRollUp(m: Mode, top: Output)
    ensures RollUp(m, [], top) == top
  {
  }

  lemma LeftOfAll(m: Mode, left: Bytes, right: Bytes, counter: nat, s: nat)
    requires IsPow2(s) && |left| == Span(s) && 0 < |right| <= |left|
    ensures ParentOutput(m, TreeCv(m, left, counter), Compressed(Tree(m, right, counter + s))) == Tree(m,
        left + right, counter)
  {
    TreeSplit(m, left, right, counter, s);
  }

  lemma {:induction false} DescendingAppend(sizes: seq<nat>, t: nat, last: nat)
    requires Descending(sizes, Span(t) + last) && IsPow2(t) && last <= Span(t)
    ensures Descending(sizes + [t], last)
    decreases |sizes|
  {
    if sizes == [] {
      assert (sizes + [t])[1..] == [];
    } else {
      assert (sizes + [t])[1..] == sizes[1..] + [t];
      TotalAppend(sizes[1..], [t]);
      assert Total([t]) == t by { assert [t][1..] == []; }
      DescendingAppend(sizes[1..], t, last);
    }
  }

  /** Binary sizes are descending, with room for as much as one unit. */
  lemma {:induction false} BinaryDescends(q: nat, s: nat, last: nat)
    requires IsPow2(s) && last <= Span(s)
    ensures Descending(Binary(q, s), last)
    decreases q
  {
    if q > 0 {
      Doubled(s);
      if q % 2 == 1 {
        BinaryDescends(q / 2, 2 * s, Span(s) + last);
        DescendingAppend(Binary(q / 2, 2 * s), s, last);
      } else {
        BinaryDescends(q / 2, 2 * s, last);
        assert Binary(q, s) == Binary(q / 2, 2 * s);
      }
    }
  }

  lemma Doubled(s: nat)
    requires IsPow2(s)
    ensures IsPow2(2 * s) && Span(2 * s) == 2 * Span(s)
  {
  }
}
