/** The element buffer (src/element_buffer.c): an in-place allocator that stores byte
    strings as chains of fixed-size elements.  To its users it is a map from indices to
    byte strings. */
module ElementBuffers {
  import opened Base
  import opened Chains
  import opened Utilities

  // ------------------------------------------------------------------ free elements

  ghost function FirstIndices(n: nat): (s: set<uint16>)
    requires n <= 0x1_0000
    ensures |s| == n && forall e: uint16 :: e in s <==> e < n
  {
    if n == 0 then {} else FirstIndices(n - 1) + {(n - 1) as uint16}
  }

  lemma {:induction false} MembersAtMost(t: Chain, s: set<uint16>)
    requires forall e :: e in s ==> e in t
    ensures |s| <= |t|
  {
    if t == [] {
      assert s == {};
    } else {
      forall e | e in s - {t[0]} ensures e in t[1..] { }
      MembersAtMost(t[1..], s - {t[0]});
      assert |s - {t[0]}| >= |s| - 1;
    }
  }

  /** If every element is in a chain or on the list t, there are at most |t| free
      elements. */
  lemma ListCoversFree(count: nat, owners: Owners, t: Chain)
    requires count <= 0x1_0000 && forall e: uint16 :: e < count ==> e in owners || e in t
    ensures count <= |owners| + |t|
  {
    var all := FirstIndices(count);
    MembersAtMost(t, all - owners.Keys);
    SizeAtMost(all, owners.Keys);
  }

  lemma SizeAtMost(a: set<uint16>, b: set<uint16>)
    ensures |a| <= |b| + |a - b|
  {
    assert a == (a * b) + (a - b);
    assert b == (a * b) + (b - a);
  }

  /** Element i in cyclic order from start. */
  function Cyclic(start: nat, i: nat, count: nat): (e: nat)
    requires count > 0
    ensures e < count
  {
    (start + i) % count
  }

  ghost predicate NoneFree(pool: seq<Element>, start: nat, d: nat)
    requires |pool| > 0
  {
    forall j :: 0 <= j < d ==> !IsFree(pool[Cyclic(start, j, |pool|)])
  }

  /** Every element is met within one round. */
  lemma RoundMeetsAll(start: nat, e: nat, count: nat) returns (d: nat)
    requires start < count && e < count
    ensures d < count && Cyclic(start, d, count) == e
  {
    if e >= start {
      d := e - start;
      ModSmall(e, count);
    } else {
      d := e + count - start;
      ModShift(e, count);
      ModSmall(e, count);
    }
  }

  /** The indices t are free elements in cyclic order from t[0]: t[k] is d[k] steps on,
      and between two of them there is no free element. */
  ghost predicate Collected(pool: seq<Element>, t: seq<nat>, d: seq<nat>)
  {
    && |t| == |d| > 0 && d[0] == 0
    && (forall k :: 0 <= k < |t| ==> t[k] < |pool| && d[k] < |pool|)
    && (forall k :: 0 <= k < |t| ==> t[k] == Cyclic(t[0], d[k], |pool|) && IsFree(pool[t[k]]))
    && (forall j, k :: 0 <= j < k < |d| ==> d[j] < d[k])
    && (forall i :: 0 <= i <= d[|d| - 1] && IsFree(pool[Cyclic(t[0], i, |pool|)]) ==> i in d)
  }

  lemma CollectedFree(pool: seq<Element>, t: seq<nat>, d: seq<nat>)
    requires Collected(pool, t, d)
    ensures |t| > 0 && forall k :: 0 <= k < |t| ==> t[k] < |pool| && IsFree(pool[t[k]])
  {
  }

  lemma CollectFirst(pool: seq<Element>, first: nat)
    requires first < |pool| && IsFree(pool[first])
    ensures Collected(pool, [first], [0])
  {
    ModSmall(first, |pool|);
  }

  lemma CollectedDistinct(pool: seq<Element>, t: seq<nat>, d: seq<nat>)
    requires Collected(pool, t, d)
    ensures forall j, k :: 0 <= j < k < |t| ==> t[j] != t[k]
  {
    forall j, k | 0 <= j < k < |t| ensures t[j] != t[k] {
      if t[j] == t[k] {
        ModInjective(t[0] + d[j], t[0] + d[k], |pool|);
      }
    }
  }

  /** Steps counted from behind the last one collected, and from the first. */
  lemma AheadOfLast(pool: seq<Element>, t: seq<nat>, d: seq<nat>, i: nat)
    requires Collected(pool, t, d)
    ensures var start := Cyclic(t[|t| - 1], 1, |pool|);
            Cyclic(start, i, |pool|) == Cyclic(t[0], d[|d| - 1] + 1 + i, |pool|)
  {
    hide Cyclic, IsFree;
    CyclicOn(t[0], d[|d| - 1], i, |pool|);
  }

  lemma CyclicOn(first: nat, last: nat, i: nat, count: nat)
    requires count > 0
    ensures Cyclic(Cyclic(Cyclic(first, last, count), 1, count), i, count) == Cyclic(first, last + 1 + i, count)
  {
    hide Cyclic;
    CyclicAdd(first, last, 1, count);
    CyclicAdd(first, last + 1, i, count);
  }

  lemma CyclicAdd(start: nat, j: nat, k: nat, count: nat)
    requires count > 0
    ensures Cyclic(Cyclic(start, j, count), k, count) == Cyclic(start, j + k, count)
  {
    ModAdd(start + j, k, count);
  }

  /** One round on, the first free element itself is met. */
  lemma NotBeyondRound(pool: seq<Element>, t: seq<nat>, d: seq<nat>, j: nat)
    requires Collected(pool, t, d) && NoneFree(pool, Cyclic(t[|t| - 1], 1, |pool|), j)
    ensures d[|d| - 1] + 1 + j <= |pool| && Cyclic(t[0], |pool|, |pool|) == t[0]
  {
    var count, last := |pool|, d[|d| - 1];
    ModShift(t[0], count);
    ModSmall(t[0], count);
    AheadOfLast(pool, t, d, count - last - 1);
  }

  /** One more free element behind the last. */
  lemma CollectOne(pool: seq<Element>, t: seq<nat>, d: seq<nat>, step: nat, found: nat)
    requires Collected(pool, t, d) && d[|d| - 1] < step < |pool|
    requires found == Cyclic(t[0], step, |pool|) && found < |pool| && IsFree(pool[found])
    requires forall i :: d[|d| - 1] < i < step ==> !IsFree(pool[Cyclic(t[0], i, |pool|)])
    ensures Collected(pool, t + [found], d + [step])
  {
    hide Cyclic, IsFree;
  }

  /** The search for the next free element either finds one further on, or is back at
      the first, and then the list holds all free elements. */
  lemma CollectNext(pool: seq<Element>, t: seq<nat>, d: seq<nat>, j: nat, found: nat) returns (d': seq<nat>)
    requires Collected(pool, t, d)
    requires var start := Cyclic(t[|t| - 1], 1, |pool|);
             && j < |pool| && found == Cyclic(start, j, |pool|) && IsFree(pool[found])
             && NoneFree(pool, start, j)
    ensures found != t[0] ==> Collected(pool, t + [found], d')
    ensures found == t[0] ==> forall e :: 0 <= e < |pool| && IsFree(pool[e]) ==> e in t
  {
    hide Cyclic, IsFree;
    var last := d[|d| - 1];
    NotBeyondRound(pool, t, d, j);
    forall i | last < i < last + 1 + j ensures !IsFree(pool[Cyclic(t[0], i, |pool|)]) {
      AheadOfLast(pool, t, d, i - last - 1);
    }
    AheadOfLast(pool, t, d, j);
    d' := d + [last + 1 + j];
    if found == t[0] {
      AllCollected(pool, t, d, j);
    } else {
      CollectOne(pool, t, d, last + 1 + j, found);
    }
  }

  lemma SameDistinct(t: seq<nat>, c: Chain)
    requires |t| == |c| && (forall k :: 0 <= k < |t| ==> c[k] == t[k])
    requires forall j, k :: 0 <= j < k < |t| ==> t[j] != t[k]
    ensures Distinct(c)
  {
  }

  lemma AllCollected(pool: seq<Element>, t: seq<nat>, d: seq<nat>, j: nat)
    requires Collected(pool, t, d) && j < |pool| && d[|d| - 1] + 1 + j <= |pool|
    requires Cyclic(t[0], d[|d| - 1] + 1 + j, |pool|) == t[0]
    requires forall i :: d[|d| - 1] < i < d[|d| - 1] + 1 + j ==> !IsFree(pool[Cyclic(t[0], i, |pool|)])
    ensures forall e :: 0 <= e < |pool| && IsFree(pool[e]) ==> e in t
  {
    var count, last := |pool|, d[|d| - 1];
    if last + 1 + j < count {
      ModSmall(t[0], count);
      ModInjective(t[0], t[0] + last + 1 + j, count);
    }
    forall e | 0 <= e < count && IsFree(pool[e]) ensures e in t {
      var i := RoundMeetsAll(t[0], e, count);
      assert i in d;
    }
  }

  /** The most elements sky_element_buffer_store has room to collect. */
  const MAX_CHAIN := 42

  predicate IsFirst(e: Element, count: nat) {
    e.previous == EB_END_IDX && (e.next == EB_END_IDX || e.next < count)
  }

  predicate IsLast(e: Element, count: nat) {
    e.next == EB_END_IDX && (e.previous == EB_END_IDX || e.previous < count)
  }

  function Wiped(e: Element): Element {
    e.(previous := EB_NULL_IDX, next := EB_NULL_IDX)
  }

  lemma EmptyPool(pool: seq<Element>, usable: nat)
    requires |pool| <= EB_MAX_ELEMENT_COUNT && EB_LEN_BYTES <= usable
    requires forall e :: 0 <= e < |pool| ==> IsFree(pool[e]) && |pool[e].data| == usable
    ensures PoolOk(pool, usable, map[], map[], map[])
  {
  }

  /** memcpy of bytes to the start of a data section, or behind the length field. */
  function Overwrite(data: Bytes, at: nat, bytes: Bytes): Bytes
    requires at + |bytes| <= |data|
  {
    data[..at] + bytes + data[at + |bytes|..]
  }

  // ---------------------------------------------------------------- writing a chain

  lemma FirstPiece(payload: Bytes, usable: nat)
    requires |payload| < 0x1_0000 && usable >= EB_LEN_BYTES
    ensures Offset(0, usable) == 0
    ensures Piece(payload, 0, usable) ==
            [|payload| % 256, |payload| / 256] + payload[..Min(|payload|, usable - EB_LEN_BYTES)]
  {
    OffsetStep(0, usable);
  }

  lemma LaterPiece(payload: Bytes, k: nat, usable: nat)
    requires |payload| < 0x1_0000 && usable >= EB_LEN_BYTES && k > 0
    requires Offset(k, usable) <= |payload| + EB_LEN_BYTES
    ensures var from := Offset(k, usable) - EB_LEN_BYTES;
            0 <= from <= |payload| &&
            Piece(payload, k, usable) == payload[from..from + Min(usable, |payload| - from)]
  {
    OffsetStep(k, usable);
    OffsetMonotone(1, k, usable);
    OffsetStep(0, usable);
  }

  /** The k-th element of chain c is in place, with n elements written so far. */
  ghost predicate Placed(pool: seq<Element>, usable: nat, c: Chain, payload: Bytes, k: nat, n: nat)
    requires k < n <= |c|
  {
    && c[k] < |pool|
    && pool[c[k]].previous == PreviousOf(c, k)
    && pool[c[k]].next == NextOf(c, k, n)
    && ElementHolds(pool[c[k]], payload, k, usable)
  }

  /** The first n elements of chain c are in place and closed off behind the last. */
  ghost predicate Begun(pool: seq<Element>, usable: nat, c: Chain, payload: Bytes, n: nat)
    requires n <= |c|
  {
    forall k :: 0 <= k < n ==> Placed(pool, usable, c, payload, k, n)
  }

  lemma BegunAll(pool: seq<Element>, usable: nat, c: Chain, payload: Bytes)
    requires usable >= EB_LEN_BYTES && |c| == Requirement(|payload|, usable)
    requires Begun(pool, usable, c, payload, |c|)
    ensures ChainHolds(pool, usable, c, payload)
  {
    hide ElementHolds, NextOf, PreviousOf;
    forall k | 0 <= k < |c|
      ensures && c[k] < |pool| && pool[c[k]].next == NextOf(c, k, |c|) && pool[c[k]].previous == PreviousOf(c, k)
              && ElementHolds(pool[c[k]], payload, k, usable)
    {
      assert Placed(pool, usable, c, payload, k, |c|);
    }
  }

  lemma BegunFirst(pool: seq<Element>, usable: nat, c: Chain, payload: Bytes)
    requires |c| > 0 && c[0] < |pool|
    requires pool[c[0]].previous == pool[c[0]].next == EB_END_IDX && ElementHolds(pool[c[0]], payload, 0, usable)
    ensures Begun(pool, usable, c, payload, 1)
  {
  }

  lemma BegunMore(pool: seq<Element>, pool': seq<Element>, usable: nat, c: Chain, payload: Bytes, n: nat)
    requires 0 < n < |c| && |pool'| == |pool| && (forall k :: 0 <= k <= n ==> c[k] < |pool|)
    requires Begun(pool, usable, c, payload, n)
    requires forall k :: 0 <= k < n - 1 ==> pool'[c[k]] == pool[c[k]]
    requires pool'[c[n - 1]] == pool[c[n - 1]].(next := c[n])
    requires pool'[c[n]].previous == c[n - 1] && pool'[c[n]].next == EB_END_IDX
    requires ElementHolds(pool'[c[n]], payload, n, usable)
    ensures Begun(pool', usable, c, payload, n + 1)
  {
    hide ElementHolds;
    var m := n + 1;
    forall k | 0 <= k < m ensures Placed(pool', usable, c, payload, k, m) {
      if k < n {
        assert Placed(pool, usable, c, payload, k, n);
        SameData(pool[c[k]], pool'[c[k]], payload, k, usable);
      }
    }
  }

  lemma SameData(e: Element, e': Element, payload: Bytes, k: nat, usable: nat)
    requires ElementHolds(e, payload, k, usable) && e'.data == e.data
    ensures ElementHolds(e', payload, k, usable)
  {
  }

  lemma OverwriteStart(data: Bytes, bytes: Bytes)
    requires |bytes| <= |data|
    ensures |Overwrite(data, 0, bytes)| == |data| && bytes <= Overwrite(data, 0, bytes)
  {
  }

  lemma OverwriteTwice(data: Bytes, first: Bytes, second: Bytes)
    requires |first| + |second| <= |data|
    ensures Overwrite(Overwrite(data, 0, first), |first|, second) == Overwrite(data, 0, first + second)
  {
  }

  // ---------------------------------------------------------------- reading a chain

  lemma ChainSize(pool: seq<Element>, usable: nat, c: Chain, payload: Bytes)
    requires ChainHolds(pool, usable, c, payload)
    ensures usable >= EB_LEN_BYTES && |c| == Requirement(|payload|, usable)
  {
  }

  lemma StoredLength(pool: seq<Element>, usable: nat, c: Chain, payload: Bytes)
    requires ChainHolds(pool, usable, c, payload) && |c| > 0
    ensures c[0] < |pool| && |pool[c[0]].data| >= EB_LEN_BYTES
    ensures pool[c[0]].data[0] as int + 256 * pool[c[0]].data[1] as int == |payload|
  {
    var e := pool[c[0]];
    assert ElementHolds(e, payload, 0, usable);
    FirstPiece(payload, usable);
    assert e.data[0] == |payload| % 256 && e.data[1] == |payload| / 256;
  }

  /** The share of the payload in the k-th element, and the way there. */
  lemma ChainPiece(pool: seq<Element>, usable: nat, c: Chain, payload: Bytes, k: nat)
    requires ChainHolds(pool, usable, c, payload) && k < |c| && |pool| <= EB_MAX_ELEMENT_COUNT
    ensures usable >= EB_LEN_BYTES && |c| == Requirement(|payload|, usable)
    ensures c[k] < |pool| && |pool[c[k]].data| == usable
    ensures k == 0 ==> var n := Min(usable - EB_LEN_BYTES, |payload|);
                       pool[c[k]].data[EB_LEN_BYTES..EB_LEN_BYTES + n] == payload[..n]
    ensures k > 0 ==> c[k - 1] < |pool| && pool[c[k - 1]].next == c[k]
    ensures k > 0 ==> var from := Offset(k, usable) - EB_LEN_BYTES;
                      0 <= from <= |payload| && var n := Min(usable, |payload| - from);
                      pool[c[k]].data[..n] == payload[from..from + n]
  {
    var e := pool[c[k]];
    assert ElementHolds(e, payload, k, usable);
    if k == 0 {
      FirstPiece(payload, usable);
    } else {
      assert pool[c[k - 1]].next == NextOf(c, k - 1, |c|);
      LaterPiece(payload, k, usable);
    }
  }

  lemma ChainLinks(pool: seq<Element>, usable: nat, c: Chain, payload: Bytes, k: nat)
    requires ChainHolds(pool, usable, c, payload) && k < |c| && |pool| <= EB_MAX_ELEMENT_COUNT
    ensures c[k] < |pool|
    ensures IsLast(pool[c[k]], |pool|) <==> k == |c| - 1
    ensures k < |c| - 1 ==> pool[c[k]].next == c[k + 1]
  {
    hide ElementHolds;
  }

  class ElementBuffer {
    const pool: array<Element>
    const usable: nat
    var lastWriteIndex: uint16
    var freeElements: int

    ghost var chains: map<uint16, Chain>
    ghost var owners: Owners
    /** What users of the buffer see. */
    ghost var contents: map<uint16, Bytes>

    ghost predicate Valid()
      reads this, pool
    {
      && PoolOk(pool[..], usable, chains, owners, contents)
      && freeElements == pool.Length - |owners|
      && (pool.Length > 0 ==> lastWriteIndex < pool.Length)
    }

    constructor (usableElementSize: nat, elementCount: nat)
      requires EB_LEN_BYTES <= usableElementSize && elementCount <= EB_MAX_ELEMENT_COUNT
      ensures Valid() && fresh(pool)
      ensures pool.Length == elementCount && usable == usableElementSize
      ensures contents == map[] && freeElements == elementCount
    {
      usable := usableElementSize;
      var blank := Element(EB_NULL_IDX, EB_NULL_IDX, seq(usableElementSize, _ => 0));
      pool := new Element[elementCount](_ => blank);
      lastWriteIndex := 0;
      freeElements := elementCount;
      chains, owners, contents := map[], map[], map[];
    }

    /** sky_element_buffer_wipe */
    method Wipe()
      requires Valid()
      modifies this, pool
      ensures Valid() && contents == map[] && freeElements == pool.Length
    {
      hide PoolOk, IsFree;
      DataSized();
      WipeElements();
      lastWriteIndex := 0;
      freeElements := pool.Length;
      chains, owners, contents := map[], map[], map[];
      EmptyPool(pool[..], usable);
    }

    method WipeElements()
      requires forall e :: 0 <= e < pool.Length ==> |pool[e].data| == usable
      modifies pool
      ensures forall e :: 0 <= e < pool.Length ==> IsFree(pool[e]) && |pool[e].data| == usable
    {
      var i := 0;
      while i < pool.Length
        invariant 0 <= i <= pool.Length
        invariant forall e :: 0 <= e < pool.Length ==> |pool[e].data| == usable
        invariant forall e :: 0 <= e < i ==> IsFree(pool[e])
      {
        pool[i] := Wiped(pool[i]);
        i := i + 1;
      }
    }

    lemma StoredInPool(h: uint16)
      requires Valid() && h in contents
      ensures h < pool.Length
    {
      HeadOwned(pool[..], usable, chains, owners, contents, h);
    }

    lemma BelowNull()
      requires Valid()
      ensures pool.Length <= EB_MAX_ELEMENT_COUNT
    {
    }

    lemma DataSized()
      requires Valid()
      ensures pool.Length <= EB_MAX_ELEMENT_COUNT && EB_LEN_BYTES <= usable
      ensures forall e :: 0 <= e < pool.Length ==> |pool[e].data| == usable
    {
      forall e | 0 <= e < pool.Length ensures |pool[e].data| == usable {
        var i: uint16 := e;
        assert |pool[..][i].data| == usable;
      }
    }

    /** An element is marked free exactly if no chain owns it. */
    lemma FreeIffUnowned(e: uint16)
      requires Valid() && e < pool.Length
      ensures IsFree(pool[e]) <==> e !in owners
    {
      if e in owners {
        OwnedInPool(pool[..], usable, chains, owners, contents, e);
      }
    }

    /** The counter is the number of elements marked free. */
    lemma FreeCounterExact(free: set<uint16>)
      requires Valid() && (forall e: uint16 :: e in free <==> e < pool.Length && IsFree(pool[e]))
      ensures freeElements == |free|
    {
      hide PoolOk, IsFree;
      DataSized();
      var all := FirstIndices(pool.Length);
      forall e: uint16 | e < pool.Length ensures e in free <==> e !in owners { FreeIffUnowned(e); }
      forall e | e in owners ensures e < pool.Length {
        OwnedInPool(pool[..], usable, chains, owners, contents, e);
      }
      assert free == all - owners.Keys;
      assert all == free + owners.Keys;
    }

    /** Storing a payload of at most `length` bytes succeeds as long as no more than
        `packets` payloads of that size are stored in a buffer made for one more. */
    lemma RoomForOneMore(length: nat, packets: nat)
      requires Valid() && |contents| <= packets
      requires forall h :: h in contents ==> |contents[h]| <= length
      requires pool.Length >= (packets + 1) * Requirement(length, usable)
      ensures forall n: nat :: n <= length ==> Requirement(n, usable) <= freeElements
    {
      var r := Requirement(length, usable);
      ShortChains(length);
      hide PoolOk, Requirement;
      OwnersBound(chains, owners, r);
      MulGrows(|chains|, packets, r);
      MulStep(packets, r);
      forall n: nat | n <= length ensures Requirement(n, usable) <= freeElements {
        RequirementMonotone(n, length, usable);
      }
    }

    /** Payloads that need r elements each leave all others free. */
    lemma UsedExactly(r: nat)
      requires Valid() && usable > 0 && forall h :: h in contents ==> Requirement(|contents[h]|, usable) == r
      ensures freeElements == pool.Length - |contents| * r
    {
      EqualChains(r);
      hide PoolOk, Requirement;
      OwnersExact(chains, owners, r);
    }

    lemma EqualChains(r: nat)
      requires Valid() && usable > 0 && forall h :: h in contents ==> Requirement(|contents[h]|, usable) == r
      ensures |chains| == |contents| && freeElements == pool.Length - |owners|
      ensures forall h :: h in chains ==> ChainOwned(chains[h], h, owners) && |chains[h]| == r
      ensures forall e :: e in owners ==> OwnerOk(e, chains, owners)
    {
      hide ChainOwned, OwnerOk, Requirement;
      assert |chains.Keys| == |contents.Keys|;
      forall h | h in chains ensures |chains[h]| == r {
        ChainSize(pool[..], usable, chains[h], contents[h]);
      }
    }

    /** Nothing stored, everything free. */
    lemma EmptyMeansFree()
      requires Valid() && contents == map[]
      ensures freeElements == pool.Length
    {
      assert forall e :: e in owners ==> OwnerOk(e, chains, owners);
      assert owners == map[];
    }

    lemma ShortChains(length: nat)
      requires Valid() && forall h :: h in contents ==> |contents[h]| <= length
      ensures usable > 0 && |chains| == |contents|
      ensures forall h :: h in chains ==>
                ChainOwned(chains[h], h, owners) && |chains[h]| <= Requirement(length, usable)
      ensures forall e :: e in owners ==> OwnerOk(e, chains, owners)
    {
      hide ChainOwned, OwnerOk, Requirement;
      assert |chains.Keys| == |contents.Keys|;
      forall h | h in chains ensures |chains[h]| <= Requirement(length, usable) {
        assert ChainHolds(pool[..], usable, chains[h], contents[h]);
        RequirementMonotone(|contents[h]|, length, usable);
      }
    }

    /** It looks like the first of a chain exactly if a payload is stored there. */
    lemma FirstIffStored(e: uint16)
      requires Valid() && e < pool.Length
      ensures IsFirst(pool[e], pool.Length) <==> e in contents
    {
      if e in owners {
        OwnedInPool(pool[..], usable, chains, owners, contents, e);
      } else {
        NotHead(pool[..], usable, chains, owners, contents, e);
      }
    }

    /** element_buffer_get_next_free */
    method GetNextFree(start: uint16) returns (idx: int, ghost steps: nat)
      requires start < pool.Length <= EB_MAX_ELEMENT_COUNT
      ensures -1 <= idx < pool.Length
      ensures idx == -1 ==> forall e :: 0 <= e < pool.Length ==> !IsFree(pool[e])
      ensures idx >= 0 ==> && steps < pool.Length && idx == Cyclic(start, steps, pool.Length)
                           && IsFree(pool[idx]) && NoneFree(pool[..], start, steps)
    {
      var i := 0;
      while i < pool.Length
        invariant 0 <= i <= pool.Length
        invariant NoneFree(pool[..], start, i)
      {
        var e := PositiveModulo(start as int + i, pool.Length);
        if IsFree(pool[e]) {
          return e, i;
        }
        i := i + 1;
      }
      forall e | 0 <= e < pool.Length ensures !IsFree(pool[e]) {
        var d := RoundMeetsAll(start, e, pool.Length);
        assert pool[..][Cyclic(start, d, pool.Length)] == pool[e];
      }
      return -1, 0;
    }

    /** element_buffer_get_n_free: n distinct free elements, unless there are fewer. */
    method GetNFree(n: nat, start: uint16, tgt: array<uint16>) returns (ret: int)
      requires Valid() && start < pool.Length && 0 < n <= tgt.Length
      modifies tgt
      ensures ret == (if n <= freeElements then 0 else -1)
      ensures ret == 0 ==> Distinct(tgt[..n]) && forall k :: 0 <= k < n ==> tgt[k] < pool.Length && tgt[k] !in owners
    {
      hide PoolOk, Collected, NoneFree, IsFree, Distinct;
      DataSized();
      var idx0, _ := GetNextFree(start);
      if idx0 < 0 {
        NoMoreFree([], []);
        return -1;
      }
      tgt[0] := idx0;
      ghost var t, d;
      ret, t, d := CollectFree(n, tgt);
      if ret < 0 {
        NoMoreFree(t, tgt[..|t|]);
      } else {
        CollectedUnowned(t, d, tgt[..n]);
        EnoughFree(tgt[..n]);
      }
    }

    /** The loop of element_buffer_get_n_free, once the first index is known. */
    method CollectFree(n: nat, tgt: array<uint16>) returns (ret: int, ghost t: seq<nat>, ghost d: seq<nat>)
      requires 0 < n <= tgt.Length && tgt[0] < pool.Length <= EB_MAX_ELEMENT_COUNT && IsFree(pool[tgt[0]])
      modifies tgt
      ensures ret == 0 || (ret == -1 && |t| < n)
      ensures |t| <= n && forall k :: 0 <= k < |t| ==> tgt[k] == t[k]
      ensures ret == 0 ==> |t| == n && Collected(pool[..], t, d)
      ensures ret == -1 ==> forall e :: 0 <= e < pool.Length && IsFree(pool[e]) ==> e in t
    {
      hide Collected, NoneFree, IsFree;
      ghost var all := pool[..];
      var idx0 := tgt[0];
      var i := 1;
      t, d := [idx0], [0];
      CollectFirst(all, idx0);
      while i < n
        invariant 1 <= i <= n && |t| == i
        invariant forall k :: 0 <= k < i ==> tgt[k] == t[k]
        invariant t[0] == idx0 && Collected(all, t, d)
      {
        CollectedFree(all, t, d);
        var next := PositiveModulo(tgt[i - 1] as int + 1, pool.Length);
        var idx, steps := GetNextFree(next);
        assert idx >= 0 by { assert IsFree(all[t[0]]); }
        ghost var d' := CollectNext(all, t, d, steps, idx);
        if idx == idx0 as int {
          return -1, t, d;
        }
        t, d := t + [idx], d';
        tgt[i] := idx;
        i := i + 1;
      }
      return 0, t, d;
    }

    lemma CollectedUnowned(t: seq<nat>, d: seq<nat>, c: Chain)
      requires Valid() && Collected(pool[..], t, d) && |c| == |t| && forall k :: 0 <= k < |t| ==> c[k] == t[k]
      ensures Distinct(c) && forall k :: 0 <= k < |c| ==> c[k] < pool.Length && c[k] !in owners
    {
      hide PoolOk, Collected, Cyclic;
      CollectedDistinct(pool[..], t, d);
      CollectedFree(pool[..], t, d);
      SameDistinct(t, c);
      forall k | 0 <= k < |c| ensures c[k] < pool.Length && c[k] !in owners {
        assert IsFree(pool[..][t[k]]);
        FreeIffUnowned(c[k]);
      }
    }

    /** The part of sky_element_buffer_store that writes the payload into the elements
        it has acquired. */
    method WriteChain(payload: Bytes, idx: array<uint16>, n: nat)
      requires usable >= EB_LEN_BYTES && |payload| < 0x1_0000 && n == Requirement(|payload|, usable) <= idx.Length
      requires Distinct(idx[..n]) && forall k :: 0 <= k < n ==> idx[k] < pool.Length
      requires forall e :: 0 <= e < pool.Length ==> |pool[e].data| == usable
      modifies pool
      ensures ChainHolds(pool[..], usable, idx[..n], payload)
      ensures forall e: uint16 :: e < pool.Length && e !in idx[..n] ==> pool[e] == old(pool[e])
      ensures forall e :: 0 <= e < pool.Length ==> |pool[e].data| == usable
    {
      hide ChainHolds, Begun, ElementHolds, Piece, Overwrite, Offset, Requirement;
      ghost var c := idx[..n];
      RequirementExact(|payload|, usable);
      var cursor := WriteFirst(payload, idx[0]);
      BegunFirst(pool[..], usable, c, payload);
      var i := 1;
      OffsetStep(0, usable);
      while i < n
        invariant 1 <= i <= n && idx[..n] == c
        invariant Begun(pool[..], usable, c, payload, i)
        invariant cursor == Min(Offset(i, usable) - EB_LEN_BYTES, |payload|)
        invariant forall e: uint16 :: e < pool.Length && e !in c ==> pool[e] == old(pool[e])
        invariant forall e :: 0 <= e < pool.Length ==> |pool[e].data| == usable
      {
        OffsetMonotone(i, n - 1, usable);
        OffsetStep(i, usable);
        ghost var before := pool[..];
        cursor := WriteNext(payload, idx[i - 1], idx[i], cursor, i);
        BegunMore(before, pool[..], usable, c, payload, i);
        i := i + 1;
      }
      BegunAll(pool[..], usable, c, payload);
    }

    method WriteFirst(payload: Bytes, first: uint16) returns (cursor: nat)
      requires usable >= EB_LEN_BYTES && |payload| < 0x1_0000 && first < pool.Length && |pool[first].data| == usable
      modifies pool
      ensures forall e :: 0 <= e < pool.Length && e != first as int ==> pool[e] == old(pool[e])
      ensures pool[first].previous == pool[first].next == EB_END_IDX
      ensures ElementHolds(pool[first], payload, 0, usable) && |pool[first].data| == usable
      ensures cursor == Min(|payload|, usable - EB_LEN_BYTES)
    {
      var lengthBytes: Bytes := [|payload| % 256, |payload| / 256];
      cursor := Min(|payload|, usable - EB_LEN_BYTES);
      var data := Overwrite(pool[first].data, 0, lengthBytes);
      OverwriteTwice(pool[first].data, lengthBytes, payload[..cursor]);
      pool[first] := Element(EB_END_IDX, EB_END_IDX, Overwrite(data, EB_LEN_BYTES, payload[..cursor]));
      FirstPiece(payload, usable);
    }

    method WriteNext(payload: Bytes, last: uint16, e: uint16, cursor: nat, ghost k: nat) returns (cursor': nat)
      requires usable >= EB_LEN_BYTES && |payload| < 0x1_0000
      requires last < pool.Length && e < pool.Length && e != last && |pool[e].data| == usable
      requires k > 0 && Offset(k, usable) <= |payload| + EB_LEN_BYTES && cursor == Offset(k, usable) - EB_LEN_BYTES
      modifies pool
      ensures forall i :: 0 <= i < pool.Length && i != e as int && i != last as int ==> pool[i] == old(pool[i])
      ensures pool[last] == old(pool[last]).(next := e)
      ensures pool[e].previous == last && pool[e].next == EB_END_IDX
      ensures ElementHolds(pool[e], payload, k, usable) && |pool[e].data| == usable
      ensures cursor' == Min(cursor + usable, |payload|)
    {
      hide Offset, Piece;
      LaterPiece(payload, k, usable);
      var toCopy := Min(usable, |payload| - cursor);
      pool[last] := pool[last].(next := e);
      pool[e] := Element(last, EB_END_IDX, Overwrite(pool[e].data, 0, payload[cursor..cursor + toCopy]));
      OverwriteStart(old(pool[e].data), payload[cursor..cursor + toCopy]);
      cursor' := cursor + toCopy;
    }

    lemma NoMoreFree(t: seq<nat>, c: Chain)
      requires Valid() && |t| == |c| && forall k :: 0 <= k < |t| ==> c[k] == t[k]
      requires forall e :: 0 <= e < pool.Length && IsFree(pool[e]) ==> e in t
      ensures freeElements <= |c|
    {
      forall e: uint16 | e < pool.Length ensures e in owners || e in c {
        FreeIffUnowned(e);
        if e !in owners {
          var n: nat := e;
          assert n in t;
        }
      }
      ListCoversFree(pool.Length, owners, c);
    }

    lemma EnoughFree(c: Chain)
      requires Valid() && Distinct(c) && forall k :: 0 <= k < |c| ==> c[k] < pool.Length && c[k] !in owners
      ensures |c| <= freeElements
    {
      var o := Enrol(owners, 0, c, |c|);
      Enrolled(owners, 0, c, |c|);
      forall e | e in o ensures e < pool.Length {
        if e in owners {
          OwnedInPool(pool[..], usable, chains, owners, contents, e);
        }
      }
      assert o.Keys <= FirstIndices(pool.Length);
      assert FirstIndices(pool.Length) == o.Keys + (FirstIndices(pool.Length) - o.Keys);
    }

    // ------------------------------------------------------------- public operations

    /** sky_element_buffer_store: succeeds exactly if enough elements are free. */
    method Store(payload: Bytes) returns (ret: int)
      requires Valid() && |payload| < 0x1_0000 && Requirement(|payload|, usable) <= MAX_CHAIN
      modifies this, pool
      ensures Valid()
      ensures Requirement(|payload|, usable) > old(freeElements) ==>
                && ret == SKY_RET_EBUFFER_NO_SPACE
                && contents == old(contents) && freeElements == old(freeElements)
      ensures Requirement(|payload|, usable) <= old(freeElements) ==>
                && 0 <= ret < pool.Length && ret as uint16 !in old(contents)
                && contents == old(contents)[ret as uint16 := payload]
                && freeElements == old(freeElements) - Requirement(|payload|, usable)
    {
      hide PoolOk, ChainHolds, Distinct, Requirement;
      DataSized();
      RequirementExact(|payload|, usable);
      var n := Requirement(|payload|, usable);
      if n > freeElements {
        return SKY_RET_EBUFFER_NO_SPACE;
      }
      var indexes := new uint16[MAX_CHAIN];
      ret := GetNFree(n, lastWriteIndex, indexes);
      ghost var before := pool[..];
      WriteChain(payload, indexes, n);
      ghost var c := indexes[..n];
      AddChain(before, pool[..], usable, chains, owners, contents, c, payload);
      lastWriteIndex := indexes[n - 1];
      freeElements := freeElements - n;
      chains, owners, contents := chains[c[0] := c], Enrol(owners, c[0], c, n), contents[c[0] := payload];
      return indexes[0] as int;
    }

    /** The chain behind an index in use. */
    lemma ChainAt(h: uint16)
      requires Valid() && h in contents
      ensures h in chains && |chains[h]| > 0 && chains[h][0] == h
      ensures ChainHolds(pool[..], usable, chains[h], contents[h])
      ensures forall k :: 0 <= k < |chains[h]| ==> !IsFree(pool[chains[h][k]])
      ensures Distinct(chains[h])
    {
      OldChainInPool(pool[..], usable, chains, owners, contents, h);
      assert ChainOwned(chains[h], h, owners);
      forall k | 0 <= k < |chains[h]| ensures !IsFree(pool[chains[h][k]]) {
        OwnedInPool(pool[..], usable, chains, owners, contents, chains[h][k]);
      }
    }

    /** sky_element_buffer_get_data_length */
    method GetDataLength(idx: uint16) returns (ret: int)
      requires Valid() && idx < pool.Length
      ensures ret == if idx in contents then |contents[idx]| else SKY_RET_EBUFFER_INVALID_INDEX
    {
      hide PoolOk, ChainHolds, Distinct;
      FirstIffStored(idx);
      if !IsFirst(pool[idx], pool.Length) {
        return SKY_RET_EBUFFER_INVALID_INDEX;
      }
      ChainAt(idx);
      StoredLength(pool[..], usable, chains[idx], contents[idx]);
      ret := pool[idx].data[0] as int + 256 * pool[idx].data[1] as int;
    }

    /** sky_element_buffer_read.  The chain is never found corrupted. */
    method Read(idx: uint16, maxLen: nat) returns (ret: int, target: Bytes)
      requires Valid() && idx < pool.Length
      ensures idx !in contents ==> ret == SKY_RET_EBUFFER_INVALID_INDEX && target == []
      ensures idx in contents && |contents[idx]| > maxLen ==> ret == SKY_RET_EBUFFER_TOO_LONG_PAYLOAD && target == []
      ensures idx in contents && |contents[idx]| <= maxLen ==> ret == |contents[idx]| && target == contents[idx]
    {
      hide PoolOk, ChainHolds, Distinct, Requirement;
      ret := GetDataLength(idx);
      if ret < 0 {
        return ret, [];
      }
      if ret > maxLen {
        return SKY_RET_EBUFFER_TOO_LONG_PAYLOAD, [];
      }
      ChainAt(idx);
      DataSized();
      target := ReadChain(idx, ret, chains[idx], contents[idx]);
    }

    method ReadChain(idx: uint16, length: nat, ghost c: Chain, ghost payload: Bytes) returns (target: Bytes)
      requires ChainHolds(pool[..], usable, c, payload) && |c| > 0 && c[0] == idx && length == |payload|
      requires pool.Length <= EB_MAX_ELEMENT_COUNT
      requires forall k :: 0 <= k < |c| ==> c[k] < pool.Length && !IsFree(pool[c[k]])
      ensures target == payload
    {
      hide ChainHolds, Requirement, Offset;
      ChainPiece(pool[..], usable, c, payload, 0);
      var el := pool[idx];
      var cursor := Min(usable - EB_LEN_BYTES, length);
      target := el.data[EB_LEN_BYTES..EB_LEN_BYTES + cursor];
      var n := Requirement(length, usable);
      RequirementExact(length, usable);
      OffsetStep(0, usable);
      var i := 1;
      while i < n
        invariant 1 <= i <= n == |c|
        invariant el == pool[c[i - 1]]
        invariant 0 <= cursor <= length && cursor == Min(Offset(i, usable) - EB_LEN_BYTES, length)
        invariant target == payload[..cursor]
      {
        OffsetMonotone(i, n - 1, usable);
        OffsetStep(i, usable);
        ChainPiece(pool[..], usable, c, payload, i);
        el := pool[el.next];
        assert !IsFree(el);
        var toRead := Min(usable, length - cursor);
        assert payload[..cursor] + payload[cursor..cursor + toRead] == payload[..cursor + toRead];
        target := target + el.data[..toRead];
        cursor := cursor + toRead;
        i := i + 1;
      }
      assert payload[..length] == payload;
      ChainLinks(pool[..], usable, c, payload, n - 1);
      assert IsLast(el, pool.Length);
    }

    /** sky_element_buffer_delete */
    method Delete(idx: uint16) returns (ret: int)
      requires Valid() && idx < pool.Length
      modifies this, pool
      ensures Valid()
      ensures idx !in old(contents) ==>
                && ret == SKY_RET_EBUFFER_INVALID_INDEX
                && contents == old(contents) && freeElements == old(freeElements)
      ensures idx in old(contents) ==>
                && ret == 0 && contents == old(contents) - {idx}
                && freeElements == old(freeElements) + Requirement(|old(contents)[idx]|, usable)
    {
      hide PoolOk, ChainHolds, Distinct, Requirement, IsFree;
      FirstIffStored(idx);
      if !IsFirst(pool[idx], pool.Length) {
        return SKY_RET_EBUFFER_INVALID_INDEX;
      }
      ChainAt(idx);
      DataSized();
      ghost var before := pool[..];
      ghost var c := chains[idx];
      ChainSize(before, usable, c, contents[idx]);
      FreeChain(idx, c, contents[idx]);
      RemoveChain(before, pool[..], usable, chains, owners, contents, idx);
      chains, owners, contents := chains - {idx}, Released(owners, idx), contents - {idx};
      return 0;
    }

    /** The loop of sky_element_buffer_delete. */
    method FreeChain(idx: uint16, ghost c: Chain, ghost payload: Bytes)
      requires ChainHolds(pool[..], usable, c, payload) && |c| > 0 && c[0] == idx && Distinct(c)
      requires pool.Length <= EB_MAX_ELEMENT_COUNT && forall k :: 0 <= k < |c| ==> c[k] < pool.Length
      requires forall e :: 0 <= e < pool.Length ==> |pool[e].data| == usable
      modifies `freeElements, pool
      ensures freeElements == old(freeElements) + |c|
      ensures forall e: uint16 :: e < pool.Length ==>
                |pool[e].data| == usable && (if e in c then IsFree(pool[e]) else pool[e] == old(pool[e]))
    {
      hide ChainHolds;
      ghost var before := pool[..];
      var e := idx;
      ghost var i := 0;
      while true
        invariant 0 <= i < |c| && e == c[i] && freeElements == old(freeElements) + i
        invariant forall x: uint16 :: x < pool.Length ==>
                    |pool[x].data| == usable && (if x in c[..i] then IsFree(pool[x]) else pool[x] == before[x])
        decreases |c| - i
      {
        ChainLinks(before, usable, c, payload, i);
        assert c[i] !in c[..i];
        assert pool[e] == before[e];
        assert c[..i + 1] == c[..i] + [e];
        var next := pool[e].next;
        var last := IsLast(pool[e], pool.Length);
        pool[e] := Wiped(pool[e]);
        freeElements := freeElements + 1;
        i := i + 1;
        if last {
          assert c[..i] == c;
          break;
        }
        e := next;
      }
    }
  }
}
