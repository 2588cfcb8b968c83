/** The data structure behind the element buffer (src/element_buffer.c), on values: a
    pool of elements in which every stored payload is a doubly linked chain. */
module Chains {
  import opened Base

  const EB_MAX_ELEMENT_COUNT := 65530
  const EB_END_IDX: uint16 := 65531
  const EB_NULL_IDX: uint16 := 65532
  const EB_LEN_BYTES := 2

  datatype Element = Element(previous: uint16, next: uint16, data: Bytes)

  predicate IsFree(e: Element) {
    e.previous == EB_NULL_IDX && e.next == EB_NULL_IDX
  }

  /** sky_element_buffer_element_requirement_for */
  function Requirement(length: nat, usable: nat): nat
    requires usable > 0
  {
    (length + EB_LEN_BYTES + usable - 1) / usable
  }

  /** Where the k-th element's share of the stored bytes begins. */
  function Offset(k: nat, usable: nat): nat {
    k * usable
  }

  lemma OffsetStep(k: nat, usable: nat)
    ensures Offset(k + 1, usable) == Offset(k, usable) + usable
    ensures Offset(0, usable) == 0 && Offset(1, usable) == usable
  {
  }

  lemma OffsetMonotone(j: nat, k: nat, usable: nat)
    requires j <= k
    ensures Offset(j, usable) <= Offset(k, usable)
  {
  }

  /** The requirement is the least number of elements that hold all bytes. */
  lemma RequirementExact(length: nat, usable: nat)
    requires usable > 0
    ensures var n := Requirement(length, usable);
            n > 0 && Offset(n - 1, usable) < length + EB_LEN_BYTES <= Offset(n, usable)
  {
    var x := length + EB_LEN_BYTES + usable - 1;
    var n := x / usable;
    assert x == n * usable + x % usable;
    assert n > 0;
    assert (n - 1) * usable == n * usable - usable;
  }

  /** The bytes that a chain stores: the length of the payload in the byte order of a
      little-endian host, then the payload. */
  function Stored(payload: Bytes): Bytes
    requires |payload| < 0x1_0000
  {
    [|payload| % 256, |payload| / 256] + payload
  }

  function Piece(payload: Bytes, k: nat, usable: nat): Bytes
    requires |payload| < 0x1_0000 && Offset(k, usable) <= |payload| + EB_LEN_BYTES
  {
    OffsetMonotone(k, k + 1, usable);
    Stored(payload)[Offset(k, usable)..Min(Offset(k + 1, usable), |payload| + EB_LEN_BYTES)]
  }

  // ------------------------------------------------------------------------ chains

  /** The link behind the k-th of the first n elements of a chain. */
  function NextOf(c: seq<uint16>, k: nat, n: nat): uint16
    requires k < n <= |c|
  {
    if k + 1 < n then c[k + 1] else EB_END_IDX
  }

  function PreviousOf(c: seq<uint16>, k: nat): uint16
    requires k < |c|
  {
    if k == 0 then EB_END_IDX else c[k - 1]
  }

  ghost predicate ElementHolds(e: Element, payload: Bytes, k: nat, usable: nat) {
    && |payload| < 0x1_0000
    && Offset(k, usable) <= |payload| + EB_LEN_BYTES
    && |e.data| == usable
    && Piece(payload, k, usable) <= e.data
  }

  /** The elements c, in this order, form a chain that stores the payload. */
  ghost predicate ChainHolds(pool: seq<Element>, usable: nat, c: seq<uint16>, payload: Bytes) {
    && usable >= EB_LEN_BYTES
    && |c| == Requirement(|payload|, usable)
    && (forall k :: 0 <= k < |c| ==> c[k] < |pool|)
    && (forall k :: 0 <= k < |c| ==>
          && pool[c[k]].next == NextOf(c, k, |c|)
          && pool[c[k]].previous == PreviousOf(c, k)
          && ElementHolds(pool[c[k]], payload, k, usable))
  }

  type Chain = seq<uint16>
  /** Which chain an element belongs to, and at which place. */
  type Owners = map<uint16, (uint16, nat)>

  ghost predicate ChainOwned(c: Chain, h: uint16, owners: Owners) {
    && |c| > 0 && c[0] == h
    && forall k :: 0 <= k < |c| ==> c[k] in owners && owners[c[k]] == (h, k)
  }

  ghost predicate OwnerOk(e: uint16, chains: map<uint16, Chain>, owners: Owners)
    requires e in owners
  {
    var (h, k) := owners[e];
    h in chains && k < |chains[h]| && chains[h][k] == e
  }

  /** Every payload has its own chain, no element belongs to two chains or twice to
      one, and all other elements are marked free. */
  ghost predicate PoolOk(pool: seq<Element>, usable: nat, chains: map<uint16, Chain>, owners: Owners,
                         contents: map<uint16, Bytes>) {
    && usable >= EB_LEN_BYTES && |pool| <= EB_MAX_ELEMENT_COUNT
    && chains.Keys == contents.Keys
    && (forall h :: h in chains ==> ChainHolds(pool, usable, chains[h], contents[h]))
    && (forall h :: h in chains ==> ChainOwned(chains[h], h, owners))
    && (forall e :: e in owners ==> OwnerOk(e, chains, owners))
    && (forall e: uint16 :: e < |pool| && e !in owners ==> IsFree(pool[e]))
    && (forall e: uint16 :: e < |pool| ==> |pool[e].data| == usable)
  }

  lemma OwnedInPool(pool: seq<Element>, usable: nat, chains: map<uint16, Chain>, owners: Owners,
                    contents: map<uint16, Bytes>, e: uint16)
    requires PoolOk(pool, usable, chains, owners, contents) && e in owners
    ensures e < |pool| && !IsFree(pool[e])
    ensures pool[e].previous == EB_END_IDX <==> e in chains
    ensures e in chains ==> pool[e].next == EB_END_IDX || pool[e].next < |pool|
    ensures e !in chains ==> pool[e].previous < |pool|
  {
    var (h, k) := owners[e];
    assert OwnerOk(e, chains, owners);
    assert ChainHolds(pool, usable, chains[h], contents[h]) && ChainOwned(chains[h], h, owners);
    if e in chains {
      assert ChainOwned(chains[e], e, owners);
    }
  }

  lemma HeadOwned(pool: seq<Element>, usable: nat, chains: map<uint16, Chain>, owners: Owners,
                  contents: map<uint16, Bytes>, h: uint16)
    requires PoolOk(pool, usable, chains, owners, contents) && h in chains
    ensures h in owners && h < |pool|
  {
    assert ChainOwned(chains[h], h, owners);
    assert chains[h][0] in owners;
    OwnedInPool(pool, usable, chains, owners, contents, h);
  }

  // ------------------------------------------------------- adding a chain to owners

  ghost predicate Distinct(c: Chain) {
    forall i, j :: 0 <= i < j < |c| ==> c[i] != c[j]
  }

  ghost function Enrol(owners: Owners, h: uint16, c: Chain, n: nat): Owners
    requires n <= |c|
  {
    if n == 0 then owners else Enrol(owners, h, c, n - 1)[c[n - 1] := (h, n - 1)]
  }

  /** o is owners and the first n elements of chain c, headed by h. */
  ghost predicate Extends(o: Owners, owners: Owners, h: uint16, c: Chain, n: nat)
    requires n <= |c|
  {
    && |o| == |owners| + n
    && (forall e :: e in owners ==> e in o && o[e] == owners[e])
    && (forall k :: 0 <= k < n ==> c[k] in o && o[c[k]] == (h, k))
    && (forall e :: e in o && e !in owners ==> o[e].0 == h && o[e].1 < n && c[o[e].1] == e)
  }

  lemma {:induction false} Enrolled(owners: Owners, h: uint16, c: Chain, n: nat)
    requires n <= |c| && Distinct(c) && (forall k :: 0 <= k < |c| ==> c[k] !in owners)
    ensures Extends(Enrol(owners, h, c, n), owners, h, c, n)
  {
    hide Extends, Distinct;
    if n == 0 {
      EnrolNone(owners, h, c);
    } else {
      Enrolled(owners, h, c, n - 1);
      EnrolMore(Enrol(owners, h, c, n - 1), owners, h, c, n);
    }
  }

  lemma EnrolNone(owners: Owners, h: uint16, c: Chain)
    ensures Extends(owners, owners, h, c, 0)
  {
  }

  lemma EnrolMore(o: Owners, owners: Owners, h: uint16, c: Chain, n: nat)
    requires 0 < n <= |c| && Distinct(c) && (forall k :: 0 <= k < |c| ==> c[k] !in owners)
    requires Extends(o, owners, h, c, n - 1)
    ensures Extends(o[c[n - 1] := (h, n - 1)], owners, h, c, n)
  {
    hide Distinct;
    NotEnrolled(o, owners, h, c, n);
    EnrolOne(o, c[n - 1], h, n - 1);
    var o' := o[c[n - 1] := (h, n - 1)];
    forall k | 0 <= k < n ensures c[k] in o' && o'[c[k]] == (h, k) {
      if k < n - 1 {
        assert c[k] in o && o[c[k]] == (h, k);
      }
    }
  }

  lemma NotEnrolled(o: Owners, owners: Owners, h: uint16, c: Chain, n: nat)
    requires 0 < n <= |c| && Distinct(c) && c[n - 1] !in owners
    requires Extends(o, owners, h, c, n - 1)
    ensures c[n - 1] !in o
  {
  }

  lemma EnrolOne(o: Owners, x: uint16, h: uint16, k: nat)
    requires x !in o
    ensures |o[x := (h, k)]| == |o| + 1
  {
    assert o[x := (h, k)].Keys == o.Keys + {x};
  }

  /** A chain none of whose elements changed still stores its payload. */
  lemma ChainKept(pool: seq<Element>, pool': seq<Element>, usable: nat, c: Chain, payload: Bytes)
    requires ChainHolds(pool, usable, c, payload) && |pool'| == |pool|
    requires forall k :: 0 <= k < |c| ==> c[k] < |pool| && pool'[c[k]] == pool[c[k]]
    ensures ChainHolds(pool', usable, c, payload)
  {
    hide ElementHolds, NextOf, PreviousOf;
  }

  /** Writing a new chain into free elements. */
  lemma AddChain(pool: seq<Element>, pool': seq<Element>, usable: nat, chains: map<uint16, Chain>, owners: Owners,
                 contents: map<uint16, Bytes>, c: Chain, payload: Bytes)
    requires PoolOk(pool, usable, chains, owners, contents)
    requires |pool'| == |pool| && Distinct(c) && |c| > 0
    requires forall k :: 0 <= k < |c| ==> c[k] < |pool| && c[k] !in owners
    requires forall e: uint16 :: e < |pool| && e !in c ==> pool'[e] == pool[e]
    requires ChainHolds(pool', usable, c, payload)
    ensures PoolOk(pool', usable, chains[c[0] := c], Enrol(owners, c[0], c, |c|), contents[c[0] := payload])
    ensures |Enrol(owners, c[0], c, |c|)| == |owners| + |c|
    ensures c[0] !in contents
  {
    hide ChainHolds, Enrol, OwnerOk, ChainOwned;
    var h := c[0];
    var chains', contents', owners' := chains[h := c], contents[h := payload], Enrol(owners, h, c, |c|);
    Enrolled(owners, h, c, |c|);
    NotHead(pool, usable, chains, owners, contents, h);
    forall g | g in chains' ensures ChainHolds(pool', usable, chains'[g], contents'[g]) {
      if g != h {
        OldChainInPool(pool, usable, chains, owners, contents, g);
        ChainKept(pool, pool', usable, chains[g], contents[g]);
      }
    }
    AddOwners(chains, chains', owners, owners', h, c);
    AddChainData(pool, pool', usable, c, payload);
  }

  lemma NotHead(pool: seq<Element>, usable: nat, chains: map<uint16, Chain>, owners: Owners,
                contents: map<uint16, Bytes>, h: uint16)
    requires PoolOk(pool, usable, chains, owners, contents) && h !in owners
    ensures h !in chains
  {
    if h in chains {
      HeadOwned(pool, usable, chains, owners, contents, h);
    }
  }

  lemma OldChainInPool(pool: seq<Element>, usable: nat, chains: map<uint16, Chain>, owners: Owners,
                       contents: map<uint16, Bytes>, h: uint16)
    requires PoolOk(pool, usable, chains, owners, contents) && h in chains
    ensures forall k :: 0 <= k < |chains[h]| ==>
              chains[h][k] < |pool| && chains[h][k] in owners && owners[chains[h][k]] == (h, k)
  {
    assert ChainOwned(chains[h], h, owners) && ChainHolds(pool, usable, chains[h], contents[h]);
  }

  lemma AddOwners(chains: map<uint16, Chain>, chains': map<uint16, Chain>, owners: Owners, owners': Owners,
                  h: uint16, c: Chain)
    requires |c| > 0 && c[0] == h && h !in chains && chains' == chains[h := c]
    requires Extends(owners', owners, h, c, |c|)
    requires forall g :: g in chains ==> ChainOwned(chains[g], g, owners)
    requires forall e :: e in owners ==> OwnerOk(e, chains, owners)
    ensures forall g :: g in chains' ==> ChainOwned(chains'[g], g, owners')
    ensures forall e :: e in owners' ==> OwnerOk(e, chains', owners')
  {
    forall g | g in chains ensures ChainOwned(chains[g], g, owners') {
      assert ChainOwned(chains[g], g, owners);
    }
    forall e | e in owners' ensures OwnerOk(e, chains', owners') {
      if e in owners {
        assert OwnerOk(e, chains, owners);
      }
    }
  }

  lemma AddChainData(pool: seq<Element>, pool': seq<Element>, usable: nat, c: Chain, payload: Bytes)
    requires |pool'| == |pool| && ChainHolds(pool', usable, c, payload)
    requires forall e: uint16 :: e < |pool| ==> |pool[e].data| == usable
    requires forall e: uint16 :: e < |pool| && e !in c ==> pool'[e] == pool[e]
    ensures forall e: uint16 :: e < |pool| ==> |pool'[e].data| == usable
  {
  }

  // ------------------------------------------------------------- removing a chain

  ghost function Released(owners: Owners, h: uint16): Owners {
    map e | e in owners && owners[e].0 != h :: owners[e]
  }

  lemma RemoveChain(pool: seq<Element>, pool': seq<Element>, usable: nat, chains: map<uint16, Chain>, owners: Owners,
                    contents: map<uint16, Bytes>, h: uint16)
    requires PoolOk(pool, usable, chains, owners, contents) && h in chains && |pool'| == |pool|
    requires forall e: uint16 :: e < |pool| ==>
               |pool'[e].data| == usable && (if e in chains[h] then IsFree(pool'[e]) else pool'[e] == pool[e])
    ensures PoolOk(pool', usable, chains - {h}, Released(owners, h), contents - {h})
    ensures |Released(owners, h)| == |owners| - |chains[h]|
  {
    hide ChainHolds, OwnerOk, ChainOwned;
    var c := chains[h];
    var owners' := Released(owners, h);
    OldChainInPool(pool, usable, chains, owners, contents, h);
    forall g | g in chains - {h} ensures ChainHolds(pool', usable, chains[g], contents[g]) {
      OldChainInPool(pool, usable, chains, owners, contents, g);
      ChainKept(pool, pool', usable, chains[g], contents[g]);
    }
    RemoveOwners(chains, owners, h);
  }

  lemma RemoveOwners(chains: map<uint16, Chain>, owners: Owners, h: uint16)
    requires h in chains
    requires forall g :: g in chains ==> ChainOwned(chains[g], g, owners)
    requires forall e :: e in owners ==> OwnerOk(e, chains, owners)
    ensures var owners' := Released(owners, h);
            && (forall g :: g in chains - {h} ==> ChainOwned(chains[g], g, owners'))
            && (forall e :: e in owners' ==> OwnerOk(e, chains - {h}, owners'))
            && (forall e :: e in owners && e !in owners' ==> e in chains[h])
            && |owners'| == |owners| - |chains[h]|
  {
    var owners' := Released(owners, h);
    forall g | g in chains - {h} ensures ChainOwned(chains[g], g, owners') {
      assert ChainOwned(chains[g], g, owners);
    }
    forall e | e in owners' ensures OwnerOk(e, chains - {h}, owners') {
      assert OwnerOk(e, chains, owners);
    }
    forall e | e in owners && owners[e].0 == h ensures e in chains[h] {
      assert OwnerOk(e, chains, owners);
    }
    ReleasedSize(owners, h, chains[h]);
  }

  lemma ReleasedSize(owners: Owners, h: uint16, c: Chain)
    requires ChainOwned(c, h, owners)
    requires forall e :: e in owners && owners[e].0 == h ==> e in c
    ensures |Released(owners, h)| == |owners| - |c|
  {
    var r := Released(owners, h);
    assert Distinct(c);
    Enrolled(r, h, c, |c|);
    assert Enrol(r, h, c, |c|) == owners;
  }

  // ------------------------------------------------------------------- space in use

  lemma MulGrows(a: nat, b: nat, r: nat)
    requires a <= b
    ensures a * r <= b * r
  {
  }

  lemma RequirementMonotone(a: nat, b: nat, usable: nat)
    requires a <= b && usable > 0
    ensures Requirement(a, usable) <= Requirement(b, usable)
  {
    var m, n := Requirement(a, usable), Requirement(b, usable);
    RequirementExact(a, usable);
    RequirementExact(b, usable);
    if m > n {
      OffsetMonotone(n, m - 1, usable);
    }
  }

  /** Chains of at most r elements use at most r elements each. */
  lemma {:induction false} OwnersBound(chains: map<uint16, Chain>, owners: Owners, r: nat)
    requires forall g :: g in chains ==> ChainOwned(chains[g], g, owners) && |chains[g]| <= r
    requires forall e :: e in owners ==> OwnerOk(e, chains, owners)
    ensures |owners| <= |chains| * r
    decreases |chains|
  {
    if chains == map[] {
      NoOwners(owners, chains);
    } else {
      var h :| h in chains;
      DropOne(chains, chains - {h}, owners, Released(owners, h), h, r);
      OwnersBound(chains - {h}, Released(owners, h), r);
      OneLess(chains, h);
      BoundStep(|owners|, |Released(owners, h)|, |chains[h]|, |chains - {h}|, r);
    }
  }

  /** Chains of exactly r elements use exactly r elements each. */
  lemma {:induction false} OwnersExact(chains: map<uint16, Chain>, owners: Owners, r: nat)
    requires forall g :: g in chains ==> ChainOwned(chains[g], g, owners) && |chains[g]| == r
    requires forall e :: e in owners ==> OwnerOk(e, chains, owners)
    ensures |owners| == |chains| * r
    decreases |chains|
  {
    hide ChainOwned, OwnerOk;
    if chains == map[] {
      NoOwners(owners, chains);
    } else {
      var h :| h in chains;
      DropOne(chains, chains - {h}, owners, Released(owners, h), h, r);
      OwnersExact(chains - {h}, Released(owners, h), r);
      OneLess(chains, h);
      MulStep(|chains - {h}|, r);
    }
  }

  lemma DropOne(chains: map<uint16, Chain>, rest: map<uint16, Chain>, owners: Owners, owners': Owners, h: uint16,
      r: nat)
    requires forall g :: g in chains ==> ChainOwned(chains[g], g, owners) && |chains[g]| <= r
    requires forall e :: e in owners ==> OwnerOk(e, chains, owners)
    requires h in chains && rest == chains - {h} && owners' == Released(owners, h)
    ensures forall g :: g in rest ==> ChainOwned(rest[g], g, owners') && |rest[g]| <= r
    ensures forall e :: e in owners' ==> OwnerOk(e, rest, owners')
    ensures |owners| == |owners'| + |chains[h]|
  {
    hide ChainOwned, OwnerOk, Released;
    RemoveOwners(chains, owners, h);
  }

  lemma OneLess(chains: map<uint16, Chain>, h: uint16)
    requires h in chains
    ensures |chains - {h}| == |chains| - 1
  {
    assert (chains - {h}).Keys == chains.Keys - {h};
    assert |(chains - {h}).Keys| == |chains.Keys| - 1;
  }

  lemma BoundStep(total: nat, rest: nat, size: nat, n: nat, r: nat)
    requires total == rest + size && rest <= n * r && size <= r
    ensures total <= (n + 1) * r
  {
  }

  lemma MulStep(n: nat, r: nat)
    ensures (n + 1) * r == n * r + r
  {
  }

  lemma NoOwners(owners: Owners, chains: map<uint16, Chain>)
    requires chains == map[] && forall e :: e in owners ==> OwnerOk(e, chains, owners)
    ensures |owners| == 0
  {
    assert owners.Keys == {};
  }
}
