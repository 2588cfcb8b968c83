/** How a ring of items in memory represents packets at unbounded positions. */
module Slots {
  import opened Base
  import opened Chains
  import opened Utilities

  /** RingItem of src/skylink/sequence_ring.h. */
  datatype Item = Item(idx: uint16, sequence: byte)

  const VACANT := Item(EB_NULL_IDX, 0)

  /** index[n] is the element buffer index of the packet at position n, and position[i]
      the position of the packet stored there. */
  datatype Places = Places(index: map<nat, uint16>, position: map<uint16, nat>)

  const NOWHERE := Places(map[], map[])

  ghost predicate PlacesOk(p: Places) {
    && (forall n :: n in p.index ==> p.index[n] in p.position && p.position[p.index[n]] == n)
    && (forall i :: i in p.position ==> p.position[i] in p.index && p.index[p.position[i]] == i)
    && EB_NULL_IDX !in p.position
  }

  function Put(p: Places, n: nat, i: uint16): Places {
    Places(p.index[n := i], p.position[i := n])
  }

  function Take(p: Places, n: nat): Places
    requires n in p.index
  {
    Places(p.index - {n}, p.position - {p.index[n]})
  }

  lemma PutOk(p: Places, n: nat, i: uint16)
    requires PlacesOk(p) && n !in p.index && i !in p.position && i != EB_NULL_IDX
    ensures PlacesOk(Put(p, n, i)) && |Put(p, n, i).index| == |p.index| + 1
    ensures Put(p, n, i).position.Keys == p.position.Keys + {i}
  {
    PutSize(p.index, n, i);
  }

  lemma PutSize(index: map<nat, uint16>, n: nat, i: uint16)
    requires n !in index
    ensures |index[n := i]| == |index| + 1
  {
    assert index[n := i].Keys == index.Keys + {n};
  }

  lemma TakeOk(p: Places, n: nat)
    requires PlacesOk(p) && n in p.index
    ensures PlacesOk(Take(p, n)) && |Take(p, n).index| == |p.index| - 1
    ensures Take(p, n).position.Keys == p.position.Keys - {p.index[n]}
  {
    assert Take(p, n).index.Keys == p.index.Keys - {n};
    assert |Take(p, n).index.Keys| == |p.index.Keys| - 1;
  }

  // ------------------------------------------------------------------------- memory

  function Wrapped(idx: int, length: nat): (i: nat)
    requires length > 0
    ensures i < length
  {
    idx % length
  }

  /** ring_wrap */
  method RingWrap(idx: int, length: nat) returns (r: nat)
    requires length > 0
    ensures r == Wrapped(idx, length)
  {
    r := PositiveModulo(idx, length);
  }

  /** The ring index of position n. */
  function RingIndex(n: nat, length: nat): (i: nat)
    requires length > 0
    ensures i < length
  {
    Wrapped(n, length)
  }

  /** ring_wrap of an index plus an offset. */
  lemma IndexAdd(n: nat, k: nat, length: nat)
    requires length > 0
    ensures Wrapped(RingIndex(n, length) + k, length) == RingIndex(n + k, length)
  {
    ModAdd(n, k, length);
  }

  /** ring_wrap of the difference of two indices less than one round apart. */
  lemma IndexDistance(low: nat, high: nat, length: nat)
    requires low <= high < low + length
    ensures Wrapped(RingIndex(high, length) - RingIndex(low, length), length) == high - low
  {
    ModSub(high, low, length);
    ModSmall(high - low, length);
  }

  lemma IndexInjective(m: nat, n: nat, length: nat)
    requires m <= n < m + length && RingIndex(m, length) == RingIndex(n, length)
    ensures m == n
  {
    ModInjective(m, n, length);
  }

  lemma IndexRound(n: nat, length: nat)
    requires length > 0
    ensures RingIndex(n + length, length) == RingIndex(n, length)
  {
    ModShift(n, length);
  }

  /** The slot of position n, in a ring whose packets are at places p. */
  ghost predicate SlotOk(buff: seq<Item>, origin: byte, p: Places, n: nat)
    requires |buff| > 0
  {
    if n in p.index then buff[RingIndex(n, |buff|)] == Item(p.index[n], Seq8(origin, n))
    else buff[RingIndex(n, |buff|)].idx == EB_NULL_IDX
  }

  /** The ring stands for the window that starts at position `low`. */
  ghost predicate SlotsOk(buff: seq<Item>, origin: byte, low: nat, p: Places) {
    && |buff| > 0
    && PlacesOk(p)
    && (forall n :: n in p.index ==> low <= n < low + |buff|)
    && (forall n: nat :: low <= n < low + |buff| ==> SlotOk(buff, origin, p, n))
  }

  /** A packet enters a vacant slot of the window. */
  lemma PutSlot(buff: seq<Item>, buff': seq<Item>, origin: byte, low: nat, p: Places, p': Places, n: nat, i: uint16)
    requires SlotsOk(buff, origin, low, p) && low <= n < low + |buff| && n !in p.index
    requires i != EB_NULL_IDX && i !in p.position
    requires p' == Put(p, n, i) && buff' == buff[RingIndex(n, |buff|) := Item(i, Seq8(origin, n))]
    ensures SlotsOk(buff', origin, low, p') && |p'.index| == |p.index| + 1
  {
    hide PlacesOk, SlotOk, RingIndex;
    PutOk(p, n, i);
    forall m: nat | low <= m < low + |buff'| ensures SlotOk(buff', origin, p', m) {
      assert SlotOk(buff, origin, p, m);
      PutOne(buff, origin, low, p, n, i, m);
    }
  }

  lemma PutOne(buff: seq<Item>, origin: byte, low: nat, p: Places, n: nat, i: uint16, m: nat)
    requires |buff| > 0 && low <= n < low + |buff| && low <= m < low + |buff| && SlotOk(buff, origin, p, m)
    ensures SlotOk(buff[RingIndex(n, |buff|) := Item(i, Seq8(origin, n))], origin, Put(p, n, i), m)
  {
    hide RingIndex;
    if RingIndex(m, |buff|) == RingIndex(n, |buff|) {
      if m <= n { IndexInjective(m, n, |buff|); } else { IndexInjective(n, m, |buff|); }
    }
  }

  /** The packet at the start of the window leaves, and the window moves on. */
  lemma TakeSlot(buff: seq<Item>, buff': seq<Item>, origin: byte, low: nat, p: Places, p': Places)
    requires SlotsOk(buff, origin, low, p) && low in p.index
    requires p' == Take(p, low) && buff' == buff[RingIndex(low, |buff|) := VACANT]
    ensures SlotsOk(buff', origin, low + 1, p') && |p'.index| == |p.index| - 1
  {
    hide PlacesOk, SlotOk, RingIndex;
    TakeOk(p, low);
    forall m: nat | low + 1 <= m < low + 1 + |buff'| ensures SlotOk(buff', origin, p', m) {
      assert m < low + |buff| ==> SlotOk(buff, origin, p, m);
      TakeOne(buff, origin, low, p, m);
    }
  }

  lemma TakeOne(buff: seq<Item>, origin: byte, low: nat, p: Places, m: nat)
    requires |buff| > 0 && low < m <= low + |buff| && low in p.index && (low + |buff|) !in p.index
    requires m < low + |buff| ==> SlotOk(buff, origin, p, m)
    ensures SlotOk(buff[RingIndex(low, |buff|) := VACANT], origin, Take(p, low), m)
  {
    hide RingIndex;
    if m == low + |buff| {
      IndexRound(low, |buff|);
    } else if RingIndex(m, |buff|) == RingIndex(low, |buff|) {
      IndexInjective(low, m, |buff|);
    }
  }

  lemma SlotAt(buff: seq<Item>, origin: byte, low: nat, p: Places, n: nat)
    requires SlotsOk(buff, origin, low, p) && n in p.index
    ensures buff[RingIndex(n, |buff|)] == Item(p.index[n], Seq8(origin, n))
  {
    assert SlotOk(buff, origin, p, n);
  }

  lemma EmptySlots(buff: seq<Item>, origin: byte)
    requires |buff| > 0 && forall j :: 0 <= j < |buff| ==> buff[j].idx == EB_NULL_IDX
    ensures SlotsOk(buff, origin, 0, NOWHERE)
  {
  }

  lemma WrappedSmall(idx: nat, length: nat)
    requires idx < length
    ensures Wrapped(idx, length) == idx
  {
    ModSmall(idx, length);
  }

  lemma IndexZero(length: nat)
    requires length > 0
    ensures RingIndex(0, length) == 0
  {
    ModSmall(0, length);
  }

  // ----------------------------------------------------------------------- payloads

  /** Every packet of the ring is in the element buffer. */
  ghost predicate StoredIn(p: Places, contents: map<uint16, Bytes>) {
    PlacesOk(p) && p.position.Keys <= contents.Keys
  }

  ghost function Payloads(p: Places, contents: map<uint16, Bytes>): map<nat, Bytes>
    requires StoredIn(p, contents)
  {
    map n | n in p.index :: contents[p.index[n]]
  }

  /** One user of a shared element buffer went from indices `mine` to `mine'`: the
      buffer changed accordingly and everything else in it is as before. */
  ghost predicate OwnChange(contents: map<uint16, Bytes>, contents': map<uint16, Bytes>,
                            mine: set<uint16>, mine': set<uint16>) {
    && (forall i :: i in contents' <==> (i in contents && i !in mine) || i in mine')
    && (forall i :: i in contents && i !in mine ==> i !in mine' && contents'[i] == contents[i])
  }

  lemma PutPayload(p: Places, contents: map<uint16, Bytes>, n: nat, i: uint16, payload: Bytes)
    requires StoredIn(p, contents) && n !in p.index && i !in contents && i != EB_NULL_IDX
    ensures StoredIn(Put(p, n, i), contents[i := payload])
    ensures Payloads(Put(p, n, i), contents[i := payload]) == Payloads(p, contents)[n := payload]
    ensures OwnChange(contents, contents[i := payload], p.position.Keys, Put(p, n, i).position.Keys)
  {
    hide Payloads, OwnChange, PlacesOk, Put;
    PutOk(p, n, i);
    PutChange(contents, p.position.Keys, Put(p, n, i).position.Keys, i, payload);
    PutStored(p, Put(p, n, i), contents, contents[i := payload], n, i, payload);
  }

  lemma PutStored(p: Places, p': Places, contents: map<uint16, Bytes>, contents': map<uint16, Bytes>,
                  n: nat, i: uint16, payload: Bytes)
    requires StoredIn(p, contents) && n !in p.index && i !in contents && contents' == contents[i := payload]
    requires PlacesOk(p') && p' == Put(p, n, i)
    ensures StoredIn(p', contents') && Payloads(p', contents') == Payloads(p, contents)[n := payload]
  {
    forall m | m in p.index ensures contents'[p.index[m]] == contents[p.index[m]] { }
  }

  lemma PutChange(contents: map<uint16, Bytes>, mine: set<uint16>, mine': set<uint16>, i: uint16, payload: Bytes)
    requires mine <= contents.Keys && i !in contents && mine' == mine + {i}
    ensures OwnChange(contents, contents[i := payload], mine, mine')
  {
  }

  lemma TakePayload(p: Places, contents: map<uint16, Bytes>, n: nat)
    requires StoredIn(p, contents) && n in p.index
    ensures p.index[n] in contents && contents[p.index[n]] == Payloads(p, contents)[n]
    ensures StoredIn(Take(p, n), contents - {p.index[n]})
    ensures Payloads(Take(p, n), contents - {p.index[n]}) == Payloads(p, contents) - {n}
    ensures OwnChange(contents, contents - {p.index[n]}, p.position.Keys, Take(p, n).position.Keys)
  {
    TakeOk(p, n);
  }

  lemma PayloadsKept(p: Places, contents: map<uint16, Bytes>, contents': map<uint16, Bytes>)
    requires StoredIn(p, contents)
    requires forall i :: i in p.position ==> i in contents' && contents'[i] == contents[i]
    ensures StoredIn(p, contents') && Payloads(p, contents') == Payloads(p, contents)
  {
  }

  /** Packets are stored at every position in [low, high) and nowhere else. */
  ghost predicate FilledBetween(p: Places, low: nat, high: nat) {
    low <= high && forall n: nat :: n in p.index <==> low <= n < high
  }

  /** Their payloads in order. */
  ghost function Row(p: Places, contents: map<uint16, Bytes>, low: nat, high: nat): (r: seq<Bytes>)
    requires StoredIn(p, contents) && FilledBetween(p, low, high)
    ensures |r| == high - low
  {
    seq(high - low, k requires 0 <= k < high - low => contents[p.index[low + k]])
  }

  lemma RowAt(p: Places, contents: map<uint16, Bytes>, low: nat, high: nat, n: nat)
    requires StoredIn(p, contents) && FilledBetween(p, low, high) && low <= n < high
    ensures n in p.index && p.index[n] in contents && Row(p, contents, low, high)[n - low] == contents[p.index[n]]
  {
  }

  lemma RowPush(p: Places, contents: map<uint16, Bytes>, low: nat, high: nat, i: uint16, payload: Bytes)
    requires StoredIn(p, contents) && FilledBetween(p, low, high) && i !in contents && i != EB_NULL_IDX
    ensures high !in p.index && i !in p.position
    ensures StoredIn(Put(p, high, i), contents[i := payload]) && FilledBetween(Put(p, high, i), low, high + 1)
    ensures Row(Put(p, high, i), contents[i := payload], low, high + 1) == Row(p, contents, low, high) + [payload]
    ensures OwnChange(contents, contents[i := payload], p.position.Keys, Put(p, high, i).position.Keys)
  {
    PutPayload(p, contents, high, i, payload);
  }

  lemma RowDrop(p: Places, contents: map<uint16, Bytes>, low: nat, high: nat)
    requires StoredIn(p, contents) && FilledBetween(p, low, high) && low < high
    ensures low in p.index && p.index[low] in contents
    ensures var contents' := contents - {p.index[low]};
            && StoredIn(Take(p, low), contents') && FilledBetween(Take(p, low), low + 1, high)
            && Row(Take(p, low), contents', low + 1, high) == Row(p, contents, low, high)[1..]
            && OwnChange(contents, contents', p.position.Keys, Take(p, low).position.Keys)
  {
    TakePayload(p, contents, low);
  }

  lemma RowKept(p: Places, contents: map<uint16, Bytes>, contents': map<uint16, Bytes>, low: nat, high: nat)
    requires StoredIn(p, contents) && FilledBetween(p, low, high)
    requires forall i :: i in p.position ==> i in contents' && contents'[i] == contents[i]
    ensures StoredIn(p, contents') && Row(p, contents', low, high) == Row(p, contents, low, high)
  {
  }

  lemma NothingStored(contents: map<uint16, Bytes>)
    ensures StoredIn(NOWHERE, contents) && Payloads(NOWHERE, contents) == map[] && FilledBetween(NOWHERE, 0, 0)
  {
  }

  /** No change at all is a change of one's own. */
  lemma StoredKeys(p: Places, contents: map<uint16, Bytes>)
    requires StoredIn(p, contents)
    ensures p.position.Keys <= contents.Keys
    ensures OwnChange(contents, contents, p.position.Keys, p.position.Keys)
  {
  }
}
