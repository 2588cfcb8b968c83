/** The receive ring (src/sequence_ring.c:31-222) in memory. */
module RcvRings {
  import opened Base
  import opened Chains
  import opened Slots
  import opened RingSpec
  import opened ElementBuffers
  import WipeItems

  class RcvRing {
    const buff: array<Item>
    const horizonWidth: nat
    var head: nat
    var tail: nat
    var headSequence: byte
    var tailSequence: byte
    var storageCount: int

    /** Positions of the session: how many packets have been read, and how many have
        been received without a gap. */
    ghost var tailCount: nat
    ghost var headCount: nat
    ghost var origin: byte
    ghost var places: Places

    /** The abstract ring, given what the element buffer stores. */
    ghost function View(contents: map<uint16, Bytes>): RcvState
      reads this
      requires StoredIn(places, contents)
    {
      RcvState(buff.Length, horizonWidth, origin, tailCount, headCount, Payloads(places, contents))
    }

    /** The indices of the element buffer that belong to this ring. */
    ghost function Indices(): set<uint16>
      reads this
    {
      places.position.Keys
    }

    /** Memory and abstract ring agree. */
    ghost predicate Represents()
      reads this, buff
    {
      && buff.Length > 0
      && SlotsOk(buff[..], origin, tailCount, places)
      && head == RingIndex(headCount, buff.Length) && tail == RingIndex(tailCount, buff.Length)
      && headSequence == Seq8(origin, headCount) && tailSequence == Seq8(origin, tailCount)
      && storageCount == |places.index|
    }

    ghost predicate Valid(contents: map<uint16, Bytes>)
      reads this, buff
    {
      Represents() && StoredIn(places, contents) && RcvOk(View(contents))
    }

    /** An empty ring. */
    constructor (length: nat, horizon: nat, initialSequence: byte)
      requires 3 <= length && horizon + 3 <= length
      ensures fresh(buff) && Indices() == {}
      ensures Valid(map[]) && View(map[]) == RcvEmpty(length, Min(horizon, ARQ_MAXIMUM_HORIZON), initialSequence)
    {
      buff := new Item[length](_ => VACANT);
      horizonWidth := Min(horizon, ARQ_MAXIMUM_HORIZON);
      head, tail, storageCount := 0, 0, 0;
      headSequence, tailSequence := initialSequence, initialSequence;
      tailCount, headCount, origin, places := 0, 0, initialSequence, NOWHERE;
      new;
      hide RingIndex, Wrapped, SlotsOk, StoredIn, RcvOk, Payloads;
      EmptySlots(buff[..], origin);
      IndexZero(buff.Length);
      NothingStored(map[]);
      EmptyOk(buff.Length, horizonWidth, origin);
    }

    /** rcvRing_count_readable_packets */
    method CountReadable(ghost contents: map<uint16, Bytes>) returns (n: int)
      requires Valid(contents)
      ensures n == headCount - tailCount >= 0
    {
      n := RingWrap(head - tail, buff.Length);
      IndexDistance(tailCount, headCount, buff.Length);
    }

    /** Can the head move over the packet it is at? */
    method CanAdvance(ghost contents: map<uint16, Bytes>) returns (yes: bool)
      requires Represents() && StoredIn(places, contents) && RcvShape(View(contents))
      ensures yes <==> headCount in View(contents).held && !Choked(View(contents))
    {
      hide RingIndex, Wrapped, Seq8, Increment8, SlotsOk;
      HeadSlot(contents);
      if buff[head].idx == EB_NULL_IDX {
        return false;
      }
      var at := RingWrap(head + (horizonWidth + 1), buff.Length);
      Collision(buff.Length, headCount, tailCount, horizonWidth);
      return at != tail;
    }

    method StepHead()
      requires Represents()
      modifies `head, `headSequence, `headCount
      ensures Represents() && headCount == old(headCount) + 1
    {
      hide RingIndex, Wrapped, Seq8, Increment8, SlotsOk;
      head := RingWrap(head + 1, buff.Length);
      IndexAdd(headCount, 1, buff.Length);
      NextSequence(origin, headCount);
      headSequence := Increment8(headSequence);
      headCount := headCount + 1;
    }

    /** rcvRing_advance_head */
    method AdvanceHead(ghost contents: map<uint16, Bytes>) returns (advanced: int)
      requires Represents() && StoredIn(places, contents) && RcvShape(View(contents))
      modifies `head, `headSequence, `headCount
      ensures Valid(contents) && View(contents) == Advance(old(View(contents)))
      ensures advanced == headCount - old(headCount)
    {
      hide RingIndex, Wrapped, Seq8, Increment8, SlotsOk, RcvShape, RcvOk, Advance, StoredIn, Payloads, Choked,
          Represents;
      ghost var start := View(contents);
      advanced := 0;
      var more := CanAdvance(contents);
      while more
        invariant Represents() && StoredIn(places, contents) && RcvShape(View(contents))
        invariant more <==> headCount in View(contents).held && !Choked(View(contents))
        invariant View(contents) == start.(head := headCount) && Advance(View(contents)) == Advance(start)
        invariant advanced == headCount - old(headCount)
        decreases buff.Length - (headCount - tailCount)
      {
        AdvanceStep(View(contents));
        StepHead();
        advanced := advanced + 1;
        more := CanAdvance(contents);
      }
      AdvanceDone(View(contents));
    }

    /** rcvRing_push_rx_packet */
    method Push(eb: ElementBuffer, payload: Bytes, sequence: byte) returns (ret: int)
      requires eb.Valid() && Valid(eb.contents)
      requires |payload| < 0x1_0000 && Requirement(|payload|, eb.usable) <= MAX_CHAIN
      modifies this, buff, eb, eb.pool
      ensures eb.Valid() && Valid(eb.contents)
      ensures var room := Requirement(|payload|, eb.usable) <= old(eb.freeElements);
              (View(eb.contents), ret) == RcvPush(old(View(eb.contents)), payload, sequence, room)
      ensures OwnChange(old(eb.contents), eb.contents, old(Indices()), Indices())
    {
      hide RingIndex, Wrapped, Seq8, Increment8, SlotsOk, RcvOk, StoredIn, Payloads, OwnChange, PlacesOk, Advance,
          Requirement, ElementBuffer.Valid;
      ghost var before := View(eb.contents);
      StoredKeys(places, eb.contents);
      var diff := Sub8(sequence, headSequence);
      if diff > horizonWidth {
        return SKY_RET_RING_INVALID_SEQUENCE;
      }
      ghost var n := headCount + diff;
      WindowSlot(eb.contents, sequence);
      var at := RingWrap(head + diff, buff.Length);
      IndexAdd(headCount, diff, buff.Length);
      if buff[at].idx != EB_NULL_IDX {
        return SKY_RET_RING_PACKET_ALREADY_IN;
      }
      ret := Enter(eb, payload, sequence, at, n);
      if ret < 0 {
        return ret;
      }
      Entered(before, View(eb.contents), n, payload);
      ret := AdvanceHead(eb.contents);
    }

    /** The payload is stored and its item filled in. */
    method Enter(eb: ElementBuffer, payload: Bytes, sequence: byte, at: nat, ghost n: nat) returns (ret: int)
      requires eb.Valid() && Represents() && StoredIn(places, eb.contents)
      requires |payload| < 0x1_0000 && Requirement(|payload|, eb.usable) <= MAX_CHAIN
      requires tailCount <= n < tailCount + buff.Length && n !in places.index
      requires at == RingIndex(n, buff.Length) && sequence == Seq8(origin, n)
      modifies `places, `storageCount, buff, eb, eb.pool
      ensures eb.Valid() && Represents() && StoredIn(places, eb.contents)
      ensures Requirement(|payload|, eb.usable) > old(eb.freeElements) ==>
                ret == SKY_RET_EBUFFER_NO_SPACE && eb.contents == old(eb.contents) && places == old(places)
      ensures Requirement(|payload|, eb.usable) <= old(eb.freeElements) ==>
                ret >= 0 && Payloads(places, eb.contents) == old(Payloads(places, eb.contents))[n := payload]
      ensures OwnChange(old(eb.contents), eb.contents, old(Indices()), Indices())
    {
      hide RingIndex, Wrapped, Seq8, Increment8, SlotsOk, StoredIn, Payloads, OwnChange, PlacesOk, Requirement,
          ElementBuffer.Valid, Put;
      StoredKeys(places, eb.contents);
      ret := eb.Store(payload);
      if ret < 0 {
        return;
      }
      eb.BelowNull();
      EnterPlaces(places, old(eb.contents), n, ret, payload);
      PutSlot(buff[..], buff[..][at := Item(ret, sequence)], origin, tailCount, places, Put(places, n, ret), n, ret);
      buff[at] := Item(ret, sequence);
      places := Put(places, n, ret);
      storageCount := storageCount + 1;
    }

    /** rcvRing_read_next_received.  On success the code is SKY_RET_OK, not a length. */
    method Read(eb: ElementBuffer, maxLength: nat) returns (ret: int, target: Bytes)
      requires eb.Valid() && Valid(eb.contents)
      modifies this, buff, eb, eb.pool
      ensures eb.Valid() && Valid(eb.contents)
      ensures (View(eb.contents), ret, target) == RcvRead(old(View(eb.contents)), maxLength)
      ensures OwnChange(old(eb.contents), eb.contents, old(Indices()), Indices())
    {
      hide RingIndex, Wrapped, Seq8, Increment8, SlotsOk, RcvOk, StoredIn, Payloads, OwnChange, PlacesOk, Advance,
          Requirement, ElementBuffer.Valid, Represents, Take;
      ghost var before := View(eb.contents);
      var readable := CountReadable(eb.contents);
      StoredKeys(places, eb.contents);
      if readable == 0 {
        return SKY_RET_RING_EMPTY, [];
      }
      TailSlot(eb.contents);
      var idx := buff[tail].idx;
      eb.StoredInPool(idx);
      ret, target := eb.Read(idx, maxLength);
      if ret < 0 {
        return;
      }
      Leave(eb, idx);
      Left(before, View(eb.contents));
      var _ := AdvanceHead(eb.contents);
      ret := SKY_RET_OK;
    }

    /** The packet at the tail leaves the ring and the element buffer. */
    method Leave(eb: ElementBuffer, idx: uint16)
      requires eb.Valid() && Represents() && StoredIn(places, eb.contents) && tailCount in places.index
      requires idx == places.index[tailCount] && idx < eb.pool.Length
      modifies `places, `storageCount, `tail, `tailSequence, `tailCount, buff, eb, eb.pool
      ensures eb.Valid() && Represents() && StoredIn(places, eb.contents)
      ensures tailCount == old(tailCount) + 1
      ensures Payloads(places, eb.contents) == old(Payloads(places, eb.contents)) - {old(tailCount)}
      ensures OwnChange(old(eb.contents), eb.contents, old(Indices()), Indices())
    {
      hide StoredIn, Payloads, OwnChange, Requirement, ElementBuffer.Valid, Take, Represents;
      TakePayload(places, eb.contents, tailCount);
      var _ := eb.Delete(idx);
      DropTail();
    }

    /** The tail moves on and its slot becomes vacant. */
    method DropTail()
      requires Represents() && tailCount in places.index
      modifies `places, `storageCount, `tail, `tailSequence, `tailCount, buff
      ensures Represents() && tailCount == old(tailCount) + 1 && places == Take(old(places), old(tailCount))
    {
      hide RingIndex, Wrapped, Seq8, Increment8, SlotsOk, PlacesOk, Take;
      TakeSlot(buff[..], buff[..][tail := VACANT], origin, tailCount, places, Take(places, tailCount));
      IndexAdd(tailCount, 1, buff.Length);
      NextSequence(origin, tailCount);
      buff[tail] := VACANT;
      places := Take(places, tailCount);
      storageCount := storageCount - 1;
      tail := RingWrap(tail + 1, buff.Length);
      tailSequence := Increment8(tailSequence);
      tailCount := tailCount + 1;
    }

    /** The packet at the tail, if any can be read. */
    lemma TailSlot(contents: map<uint16, Bytes>)
      requires Valid(contents) && tailCount < headCount
      ensures tailCount in places.index && tailCount in View(contents).held && tail < buff.Length
      ensures buff[tail].idx == places.index[tailCount] && buff[tail].idx in contents
      ensures contents[buff[tail].idx] == View(contents).held[tailCount]
    {
      hide RingIndex, Wrapped;
      assert tailCount in View(contents).held;
      assert SlotOk(buff[..], origin, places, tailCount);
    }

    /** sky_rcv_ring_wipe: the ring frees everything it had in the element buffer. */
    method Wipe(eb: ElementBuffer, initialSequence: byte)
      requires eb.Valid() && Valid(eb.contents)
      modifies this, buff, eb, eb.pool
      ensures eb.Valid() && Valid(eb.contents) && Indices() == {}
      ensures eb.contents == old(eb.contents) - old(Indices())
      ensures View(eb.contents) == RcvEmpty(buff.Length, horizonWidth, initialSequence)
    {
      hide RingIndex, Wrapped, SlotsOk, Requirement, ElementBuffer.Valid, StoredIn, RcvOk, Payloads;
      RingShape(eb.contents);
      WipeItems.Wipe(buff, eb, origin, tailCount, places);
      head, tail, storageCount := 0, 0, 0;
      headSequence, tailSequence := initialSequence, initialSequence;
      tailCount, headCount, origin, places := 0, 0, initialSequence, NOWHERE;
      EmptySlots(buff[..], origin);
      IndexZero(buff.Length);
      NothingStored(eb.contents);
      EmptyOk(buff.Length, horizonWidth, origin);
    }

    lemma RingShape(contents: map<uint16, Bytes>)
      requires Valid(contents)
      ensures horizonWidth + 3 <= buff.Length && horizonWidth <= ARQ_MAXIMUM_HORIZON
    {
    }

    /** rcvRing_get_horizon_bitmap */
    method GetHorizonBitmap(ghost contents: map<uint16, Bytes>) returns (mask: seq<bool>)
      requires Valid(contents)
      ensures mask == Bitmap(View(contents))
    {
      hide RingIndex, Wrapped, Seq8, Increment8, SlotsOk;
      var scan := if horizonWidth < 16 then horizonWidth else 16;
      mask := seq(ARQ_MASK_BITS, _ => false);
      var i := 0;
      while i < scan
        invariant 0 <= i <= scan && |mask| == ARQ_MASK_BITS
        invariant forall k :: 0 <= k < ARQ_MASK_BITS ==> mask[k] == (k < i && MaskBit(View(contents), k))
      {
        var at := RingWrap(head + (1 + i), buff.Length);
        IndexAdd(headCount, 1 + i, buff.Length);
        HorizonSlot(contents, i);
        if buff[at].idx != EB_NULL_IDX {
          mask := mask[i := true];
        }
        i := i + 1;
      }
    }

    lemma HorizonSlot(contents: map<uint16, Bytes>, i: nat)
      requires Valid(contents) && i < horizonWidth
      ensures buff[RingIndex(headCount + 1 + i, buff.Length)].idx != EB_NULL_IDX <==> MaskBit(View(contents), i)
    {
      hide RingIndex, Wrapped;
      assert SlotOk(buff[..], origin, places, headCount + 1 + i);
      PlacedIndex(places, headCount + 1 + i);
    }

    /** rcvRing_get_sequence_sync_status */
    method GetSyncStatus(ghost contents: map<uint16, Bytes>, peerTx: byte) returns (ret: int)
      requires Valid(contents)
      ensures ret == SyncStatus(View(contents), peerTx)
    {
      if peerTx == headSequence {
        return SKY_RET_OK;
      }
      var offset := Sub8(peerTx, headSequence);
      if offset <= ARQ_MAXIMUM_HORIZON {
        return SKY_RET_RING_SEQUENCES_OUT_OF_SYNC;
      }
      return SKY_RET_RING_SEQUENCES_DETACHED;
    }

    /** The slot a sequence number inside the horizon selects. */
    lemma WindowSlot(contents: map<uint16, Bytes>, sequence: byte)
      requires Valid(contents) && Sub8(sequence, headSequence) <= horizonWidth
      ensures var n := headCount + Sub8(sequence, headSequence);
              && tailCount <= n < tailCount + buff.Length && sequence == Seq8(origin, n)
              && (buff[RingIndex(n, buff.Length)].idx != EB_NULL_IDX <==> n in places.index)
              && (n in places.index <==> n in View(contents).held)
    {
      hide RingIndex, Wrapped, Seq8, Increment8, PlacesOk;
      var n := headCount + Sub8(sequence, headSequence);
      assert SlotOk(buff[..], origin, places, n);
      SequenceAhead(origin, headCount, sequence);
      PlacedIndex(places, n);
    }

    /** The head slot is taken exactly if the packet there is held. */
    lemma HeadSlot(contents: map<uint16, Bytes>)
      requires Represents() && StoredIn(places, contents) && RcvShape(View(contents))
      ensures buff[RingIndex(headCount, buff.Length)].idx != EB_NULL_IDX <==> headCount in View(contents).held
    {
      assert SlotOk(buff[..], origin, places, headCount);
    }
  }

  /** sky_rcv_ring_create, which returns no ring for sizes that do not fit together. */
  method CreateRcvRing(length: int, horizon: int, initialSequence: byte) returns (ring: RcvRing?)
    ensures ring == null <==> length < 3 || horizon < 0 || length < horizon + 3
    ensures ring != null ==>
              && fresh(ring) && fresh(ring.buff) && ring.Indices() == {} && ring.Valid(map[])
              && ring.View(map[]) == RcvEmpty(length, Min(horizon, ARQ_MAXIMUM_HORIZON), initialSequence)
  {
    if length < 3 || horizon < 0 {
      return null;
    }
    if length < horizon + 3 {
      return null;
    }
    ring := new RcvRing(length, horizon, initialSequence);
  }

  lemma SequenceAhead(origin: byte, head: nat, sequence: byte)
    ensures Seq8(origin, head + Sub8(sequence, Seq8(origin, head))) == sequence
  {
  }

  lemma PlacedIndex(p: Places, n: nat)
    requires PlacesOk(p)
    ensures n in p.index ==> p.index[n] != EB_NULL_IDX
  {
  }

  lemma EnterPlaces(p: Places, contents: map<uint16, Bytes>, n: nat, i: uint16, payload: Bytes)
    requires StoredIn(p, contents) && n !in p.index && i !in contents && i != EB_NULL_IDX
    ensures i !in p.position
    ensures StoredIn(Put(p, n, i), contents[i := payload])
    ensures Payloads(Put(p, n, i), contents[i := payload]) == Payloads(p, contents)[n := payload]
    ensures OwnChange(contents, contents[i := payload], p.position.Keys, Put(p, n, i).position.Keys)
  {
    PutPayload(p, contents, n, i, payload);
  }

  lemma Entered(r: RcvState, r': RcvState, n: nat, payload: Bytes)
    requires RcvOk(r) && r.head <= n <= r.head + r.horizon && r' == r.(held := r.held[n := payload])
    ensures RcvShape(r')
  {
  }

  lemma EmptyOk(length: nat, horizon: nat, origin: byte)
    requires horizon + 3 <= length && horizon <= ARQ_MAXIMUM_HORIZON
    ensures RcvOk(RcvEmpty(length, horizon, origin))
  {
  }

  lemma Left(r: RcvState, r': RcvState)
    requires RcvOk(r) && r.tail < r.head && r' == r.(tail := r.tail + 1, held := r.held - {r.tail})
    ensures RcvShape(r')
  {
  }

  lemma AdvanceStep(r: RcvState)
    requires RcvShape(r) && r.head in r.held && !Choked(r)
    ensures RcvShape(r.(head := r.head + 1)) && Advance(r.(head := r.head + 1)) == Advance(r)
    ensures r.head - r.tail < r.length
  {
  }

  lemma AdvanceDone(r: RcvState)
    requires RcvShape(r) && (r.head !in r.held || Choked(r))
    ensures RcvOk(r) && Advance(r) == r
  {
  }

  lemma Collision(length: nat, head: nat, tail: nat, horizon: nat)
    requires length > 0 && tail <= head && head - tail + horizon + 1 <= length
    ensures Wrapped(RingIndex(head, length) + (horizon + 1), length) == RingIndex(tail, length) <==>
            head - tail + horizon + 1 == length
  {
    hide RingIndex, Wrapped;
    var at := head + horizon + 1;
    IndexAdd(head, horizon + 1, length);
    IndexRound(tail, length);
    if RingIndex(at, length) == RingIndex(tail, length) && at < tail + length {
      IndexInjective(tail, at, length);
    }
  }
}
