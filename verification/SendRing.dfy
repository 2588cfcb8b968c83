/** The send ring (src/sequence_ring.c:227-568) in memory. */
module SendRings {
  import opened Base
  import opened Chains
  import opened Slots
  import opened RingSpec
  import opened ElementBuffers
  import WipeItems

  class SendRing {
    const buff: array<Item>
    const resendList: array<byte>
    var head: nat
    var txHead: nat
    var tail: nat
    var headSequence: byte
    var txSequence: byte
    var tailSequence: byte
    var storageCount: int
    var resendCount: nat

    ghost var tailCount: nat
    ghost var txCount: nat
    ghost var headCount: nat
    ghost var origin: byte
    ghost var places: Places

    /** The abstract ring, given what the element buffer stores. */
    ghost function View(contents: map<uint16, Bytes>): SendState
      reads this, resendList
      requires FilledBetween(places, tailCount, headCount) && StoredIn(places, contents)
          && resendCount <= resendList.Length
    {
      SendState(buff.Length, origin, tailCount, txCount, headCount,
                Row(places, contents, tailCount, headCount), resendList[..resendCount])
    }

    ghost function Indices(): set<uint16>
      reads this
    {
      places.position.Keys
    }

    /** Memory and abstract ring agree. */
    ghost predicate Represents()
      reads this, buff
    {
      && 4 <= buff.Length <= 256 && resendList.Length == ARQ_RESEND_SCHEDULE_DEPTH
      && SlotsOk(buff[..], origin, tailCount, places)
      && FilledBetween(places, tailCount, headCount) && tailCount <= txCount <= headCount < tailCount + buff.Length
      && head == RingIndex(headCount, buff.Length)
      && txHead == RingIndex(txCount, buff.Length)
      && tail == RingIndex(tailCount, buff.Length)
      && headSequence == Seq8(origin, headCount)
      && txSequence == Seq8(origin, txCount)
      && tailSequence == Seq8(origin, tailCount)
      && storageCount == |places.index|
      && resendCount <= ARQ_RESEND_SCHEDULE_DEPTH
    }

    ghost predicate Valid(contents: map<uint16, Bytes>)
      reads this, buff, resendList
    {
      && Represents() && StoredIn(places, contents)
      && FilledBetween(places, tailCount, headCount) && resendCount <= resendList.Length
    }

    lemma ViewOk(contents: map<uint16, Bytes>)
      requires Valid(contents)
      ensures SendOk(View(contents))
    {
    }

    /** The abstract ring of a valid one. */
    ghost function Queue(contents: map<uint16, Bytes>): (s: SendState)
      reads this, buff, resendList
      requires Valid(contents)
      ensures SendOk(s) && s == View(contents)
    {
      ViewOk(contents);
      View(contents)
    }

    /** An empty ring. */
    constructor (length: nat, initialSequence: byte)
      requires 4 <= length <= 256
      ensures fresh(buff) && fresh(resendList) && Indices() == {}
      ensures Valid(map[]) && View(map[]) == SendEmpty(length, initialSequence)
    {
      buff := new Item[length](_ => VACANT);
      resendList := new byte[ARQ_RESEND_SCHEDULE_DEPTH](_ => 0);
      head, txHead, tail, storageCount, resendCount := 0, 0, 0, 0, 0;
      headSequence, txSequence, tailSequence := initialSequence, initialSequence, initialSequence;
      tailCount, txCount, headCount, origin, places := 0, 0, 0, initialSequence, NOWHERE;
      new;
      hide RingIndex, Wrapped, Seq8, Increment8, SlotsOk, StoredIn, Row;
      EmptySlots(buff[..], origin);
      IndexZero(buff.Length);
      NothingStored(map[]);
    }

    /** sendRing_is_full */
    method IsFull() returns (full: bool)
      requires Represents()
      ensures full <==> headCount + 1 == tailCount + buff.Length
    {
      hide RingIndex, Wrapped, Seq8, Increment8, SlotsOk;
      var a := RingWrap(head + 1, buff.Length);
      var b := RingWrap(tail, buff.Length);
      WrappedSmall(tail, buff.Length);
      IndexAdd(headCount, 1, buff.Length);
      NextSequence(origin, headCount);
      IndexRound(tailCount, buff.Length);
      if a == b && headCount + 1 < tailCount + buff.Length {
        IndexInjective(tailCount, headCount + 1, buff.Length);
      }
      return a == b;
    }

    /** sendRing_can_recall: ring distance against sequence distance. */
    method CanRecallSequence(sequence: byte, ghost contents: map<uint16, Bytes>) returns (yes: bool)
      requires Valid(contents)
      ensures yes <==> CanRecall(View(contents), sequence)
    {
      hide RingIndex, Wrapped, Seq8, Increment8, SlotsOk, StoredIn, Row;
      var ahead := RingWrap(txHead - tail, buff.Length);
      IndexDistance(tailCount, txCount, buff.Length);
      return Sub8(sequence, tailSequence) < ahead;
    }

    /** sendRing_get_recall_ring_index: the slot of the packet with that number. */
    method GetRecallIndex(sequence: byte, ghost contents: map<uint16, Bytes>) returns (ret: int)
      requires Valid(contents)
      ensures CanRecall(View(contents), sequence) ==>
                ret == RingIndex(RecallPosition(View(contents), sequence), buff.Length)
      ensures !CanRecall(View(contents), sequence) ==> ret == SKY_RET_RING_CANNOT_RECALL
    {
      hide RingIndex, Wrapped, Seq8, Increment8, SlotsOk, StoredIn, Row;
      var can := CanRecallSequence(sequence, contents);
      if !can {
        return SKY_RET_RING_CANNOT_RECALL;
      }
      var ahead := Sub8(sequence, tailSequence);
      ret := RingWrap(tail + ahead, buff.Length);
      IndexAdd(tailCount, ahead, buff.Length);
    }

    /** The item of a stored packet, and its payload. */
    lemma ItemAt(contents: map<uint16, Bytes>, n: nat)
      requires Valid(contents) && tailCount <= n < headCount
      ensures var item := buff[RingIndex(n, buff.Length)];
              && item.sequence == Seq8(origin, n)
              && item.idx in contents && contents[item.idx] == View(contents).data[n - tailCount]
              && item.idx == places.index[n]
    {
      hide RingIndex, Wrapped, Seq8, Increment8, Row, StoredIn, PlacesOk;
      RowAt(places, contents, tailCount, headCount, n);
      SlotAt(buff[..], origin, tailCount, places, n);
    }

    /** sendRing_push_packet_to_send */
    method Push(eb: ElementBuffer, payload: Bytes) returns (ret: int)
      requires eb.Valid() && Valid(eb.contents)
      requires |payload| < 0x1_0000 && Requirement(|payload|, eb.usable) <= MAX_CHAIN
      modifies this, buff, eb, eb.pool
      ensures eb.Valid() && Valid(eb.contents)
      ensures var room := Requirement(|payload|, eb.usable) <= old(eb.freeElements);
              (View(eb.contents), ret) == SendPush(old(View(eb.contents)), payload, room)
      ensures OwnChange(old(eb.contents), eb.contents, old(Indices()), Indices())
    {
      hide RingIndex, Wrapped, Seq8, Increment8, SlotsOk, StoredIn, OwnChange, Requirement, ElementBuffer.Valid,
          Put, Row, FilledBetween;
      StoredKeys(places, eb.contents);
      var full := IsFull();
      if full {
        return SKY_RET_RING_RING_FULL;
      }
      ret := eb.Store(payload);
      if ret < 0 {
        return;
      }
      eb.BelowNull();
      RowPush(places, old(eb.contents), tailCount, headCount, ret, payload);
      ret := Append(ret);
    }

    /** The item at the head is filled in and the head moves on. */
    method Append(idx: uint16) returns (sequence: byte)
      requires Represents() && headCount + 1 < tailCount + buff.Length
      requires idx != EB_NULL_IDX && idx !in places.position && headCount !in places.index
      requires FilledBetween(Put(places, headCount, idx), tailCount, headCount + 1)
      modifies `places, `storageCount, `head, `headSequence, `headCount, buff
      ensures Represents() && headCount == old(headCount) + 1 && places == Put(old(places), old(headCount), idx)
      ensures sequence == old(headSequence)
    {
      hide RingIndex, Wrapped, Seq8, Increment8, SlotsOk, Put, FilledBetween;
      PutSlot(buff[..], buff[..][head := Item(idx, headSequence)], origin, tailCount, places,
              Put(places, headCount, idx), headCount, idx);
      IndexAdd(headCount, 1, buff.Length);
      NextSequence(origin, headCount);
      buff[head] := Item(idx, headSequence);
      places := Put(places, headCount, idx);
      sequence := headSequence;
      storageCount := storageCount + 1;
      head := RingWrap(head + 1, buff.Length);
      headSequence := Increment8(headSequence);
      headCount := headCount + 1;
    }

    // -------------------------------------------------------------- retransmissions

    /** sendRing_schedule_resend */
    method Schedule(sequence: byte, ghost contents: map<uint16, Bytes>) returns (ret: int)
      requires Valid(contents)
      modifies `resendCount, resendList
      ensures Valid(contents)
      ensures (View(contents), ret) == ScheduleResend(old(View(contents)), sequence)
    {
      hide RingIndex, Wrapped, Seq8, SlotsOk, StoredIn, Row, CanRecall;
      if resendCount >= ARQ_RESEND_SCHEDULE_DEPTH {
        return SKY_RET_RING_RESEND_FULL;
      }
      var can := CanRecallSequence(sequence, contents);
      if !can {
        return SKY_RET_RING_CANNOT_RECALL;
      }
      var i := 0;
      while i < resendCount
        invariant 0 <= i <= resendCount
        invariant forall k :: 0 <= k < i ==> resendList[k] != sequence
      {
        if resendList[i] == sequence {
          return SKY_RET_OK;
        }
        i := i + 1;
      }
      resendList[resendCount] := sequence;
      resendCount := resendCount + 1;
      assert resendList[..resendCount] == old(resendList[..resendCount]) + [sequence];
      return SKY_RET_OK;
    }

    /** sendRing_schedule_resends_by_mask */
    method ScheduleMask(sequence: byte, mask: seq<bool>, ghost contents: map<uint16, Bytes>) returns (ret: int)
      requires Valid(contents) && |mask| == ARQ_MASK_BITS
      modifies `resendCount, resendList
      ensures Valid(contents)
      ensures (View(contents), ret) == ScheduleByMask(old(View(contents)), sequence, mask)
    {
      hide ScheduleResend, RingIndex, Wrapped, SlotsOk, Seq8, StoredIn, Row, FilledBetween;
      ghost var start := View(contents);
      ret := Schedule(sequence, contents);
      if ret != SKY_RET_OK {
        return;
      }
      var next: byte := (sequence + 1) % 256;
      var i := 0;
      while i < ARQ_MASK_BITS
        invariant 0 <= i <= ARQ_MASK_BITS && Valid(contents)
        invariant ScheduleByMask(start, sequence, mask) == ScheduleFromBit(View(contents), next, mask, i)
      {
        if !mask[i] {
          ret := Schedule(next, contents);
          if ret != SKY_RET_OK {
            return;
          }
        }
        next := (next + 1) % 256;
        i := i + 1;
      }
      return SKY_RET_OK;
    }

    /** sendRing_pop_resend_sequence.  The count is decremented before the shift, so the
        shift stops one entry early. */
    method PopResend() returns (sequence: byte)
      requires 0 < resendCount <= resendList.Length
      modifies `resendCount, resendList
      ensures sequence == old(resendList[0])
      ensures resendCount == old(resendCount) - 1
      ensures resendList[..resendCount] == Popped(old(resendList[..resendCount]))
    {
      sequence := resendList[0];
      resendCount := resendCount - 1;
      var i := 1;
      while i < resendCount
        invariant resendCount == old(resendCount) - 1 && 1 <= i && (i == 1 || i <= resendCount)
        invariant forall k :: 0 <= k < i - 1 ==> resendList[k] == old(resendList[k + 1])
        invariant forall k :: i - 1 <= k < resendList.Length ==> resendList[k] == old(resendList[k])
      {
        resendList[i - 1] := resendList[i];
        i := i + 1;
      }
    }

    // ------------------------------------------------------------------ transmission

    /** sendRing_count_packets_to_send */
    method Count(includeResend: bool, ghost contents: map<uint16, Bytes>) returns (n: int)
      requires Valid(contents)
      ensures n == CountToSend(View(contents), includeResend)
    {
      hide RingIndex, Wrapped, SlotsOk, StoredIn, Row, FilledBetween;
      n := RingWrap(head - txHead, buff.Length);
      IndexDistance(txCount, headCount, buff.Length);
      if includeResend {
        n := n + resendCount;
      }
    }

    /** sendRing_read_new_packet_to_tx_ */
    method ReadNewPacket(eb: ElementBuffer) returns (ret: int, sequence: byte, target: Bytes)
      requires eb.Valid() && Valid(eb.contents)
      modifies `txHead, `txSequence, `txCount
      ensures Valid(eb.contents)
      ensures TxRead(View(eb.contents), ret, sequence, target) == ReadNew(old(Queue(eb.contents)))
    {
      hide RingIndex, Wrapped, Seq8, Increment8, SlotsOk, StoredIn, Row, FilledBetween, ElementBuffer.Valid;
      ViewOk(eb.contents);
      var count := Count(false, eb.contents);
      if count == 0 {
        return SKY_RET_RING_EMPTY, 0, [];
      }
      ItemAt(eb.contents, txCount);
      var item := buff[txHead];
      eb.StoredInPool(item.idx);
      ret, target := eb.Read(item.idx, TX_READ_LIMIT);
      if ret < 0 {
        return ret, 0, [];
      }
      sequence := txSequence;
      txHead := RingWrap(txHead + 1, buff.Length);
      IndexAdd(txCount, 1, buff.Length);
      txSequence := Increment8(txSequence);
      NextSequence(origin, txCount);
      txCount := txCount + 1;
    }

    /** sendRing_read_recall_packet_to_tx_ */
    method ReadRecallPacket(eb: ElementBuffer) returns (ret: int, sequence: byte, target: Bytes)
      requires eb.Valid() && Valid(eb.contents) && resendCount > 0
      modifies `resendCount, resendList
      ensures Valid(eb.contents)
      ensures TxRead(View(eb.contents), ret, sequence, target) == ReadRecall(old(Queue(eb.contents)))
    {
      hide RingIndex, Wrapped, Seq8, SlotsOk, StoredIn, Row, FilledBetween, ElementBuffer.Valid, Popped;
      ViewOk(eb.contents);
      sequence := PopResend();
      var at := GetRecallIndex(sequence, eb.contents);
      if at < 0 {
        return SKY_RET_RING_CANNOT_RECALL, 0, [];
      }
      ItemAt(eb.contents, RecallPosition(View(eb.contents), sequence));
      var item := buff[at];
      eb.StoredInPool(item.idx);
      ret, target := eb.Read(item.idx, TX_READ_LIMIT);
      if ret < 0 {
        return ret, 0, [];
      }
    }

    /** sendRing_read_to_tx */
    method ReadNext(eb: ElementBuffer, includeResend: bool) returns (ret: int, sequence: byte, target: Bytes)
      requires eb.Valid() && Valid(eb.contents)
      modifies this, resendList
      ensures Valid(eb.contents) && Indices() == old(Indices())
      ensures TxRead(View(eb.contents), ret, sequence, target) == ReadToTx(old(Queue(eb.contents)), includeResend)
    {
      hide Represents, StoredIn, Row, FilledBetween, ElementBuffer.Valid, ReadNew, ReadRecall;
      ViewOk(eb.contents);
      CountOk();
      if includeResend && resendCount > 0 {
        ret, sequence, target := ReadRecallPacket(eb);
        if ret >= 0 {
          return;
        }
        ViewOk(eb.contents);
      }
      ret, sequence, target := ReadNewPacket(eb);
    }

    lemma CountOk()
      requires Represents()
      ensures resendCount <= resendList.Length
    {
    }

    /** sendRing_peek_next_tx_size_and_sequence */
    method PeekNext(eb: ElementBuffer, includeResend: bool) returns (ret: int, sequence: byte)
      requires eb.Valid() && Valid(eb.contents)
      ensures (ret, sequence) == Peek(Queue(eb.contents), includeResend)
    {
      hide RingIndex, Wrapped, Seq8, SlotsOk, StoredIn, Row, FilledBetween, ElementBuffer.Valid;
      ViewOk(eb.contents);
      var count := Count(includeResend, eb.contents);
      if count == 0 {
        return SKY_RET_RING_EMPTY, 0;
      }
      if includeResend && resendCount > 0 {
        var at := GetRecallIndex(resendList[0], eb.contents);
        if at >= 0 {
          ItemAt(eb.contents, RecallPosition(View(eb.contents), resendList[0]));
          var item := buff[at];
          eb.StoredInPool(item.idx);
          var length := eb.GetDataLength(item.idx);
          return length, item.sequence;
        }
      }
      var fresh_ := Count(false, eb.contents);
      if fresh_ == 0 {
        return SKY_RET_RING_EMPTY, 0;
      }
      ItemAt(eb.contents, txCount);
      var item := buff[txHead];
      eb.StoredInPool(item.idx);
      var length := eb.GetDataLength(item.idx);
      return length, item.sequence;
    }

    // --------------------------------------------------------------- acknowledgement

    /** sendRing_clean_tail_up_to */
    method CleanUpTo(eb: ElementBuffer, newTail: byte) returns (ret: int)
      requires eb.Valid() && Valid(eb.contents)
      modifies this, buff, eb, eb.pool
      ensures eb.Valid() && Valid(eb.contents)
      ensures (View(eb.contents), ret) == CleanTail(old(Queue(eb.contents)), newTail)
      ensures OwnChange(old(eb.contents), eb.contents, old(Indices()), Indices())
    {
      hide RingIndex, Wrapped, SlotsOk, StoredIn, Row, FilledBetween, ElementBuffer.Valid, OwnChange, Seq8, Sub8;
      ViewOk(eb.contents);
      StoredKeys(places, eb.contents);
      var sent := Sub8(txSequence, tailSequence);
      ExactDistance(origin, tailCount, txCount);
      var n := Sub8(newTail, tailSequence);
      if n > sent {
        return SKY_RET_RING_INVALID_ACKNOWLEDGE;
      }
      ret := CleanLoop(eb, newTail, n);
    }

    method CleanLoop(eb: ElementBuffer, newTail: byte, ghost n: nat) returns (cleared: int)
      requires eb.Valid() && Valid(eb.contents) && n == Sub8(newTail, tailSequence) <= txCount - tailCount
      modifies this, buff, eb, eb.pool
      ensures eb.Valid() && Valid(eb.contents) && cleared == n
      ensures var s := old(View(eb.contents)); View(eb.contents) == s.(tail := s.tail + n, data := s.data[n..])
      ensures OwnChange(old(eb.contents), eb.contents, old(Indices()), Indices())
    {
      hide RingIndex, Wrapped, SlotsOk, StoredIn, Row, FilledBetween, ElementBuffer.Valid, OwnChange, Seq8, Sub8;
      StoredKeys(places, eb.contents);
      ghost var start, before, mine := View(eb.contents), eb.contents, Indices();
      cleared := 0;
      ReachedTail(origin, start.tail, newTail, n, 0);
      assert start.data[0..] == start.data;
      while tailSequence != newTail
        invariant 0 <= cleared <= n && eb.Valid() && Valid(eb.contents)
        invariant View(eb.contents) == start.(tail := start.tail + cleared, data := start.data[cleared..])
        invariant OwnChange(before, eb.contents, mine, Indices())
        invariant tailSequence == newTail <==> cleared == n
        decreases n - cleared
      {
        ghost var c, i := eb.contents, Indices();
        DropOne(eb);
        ChangeTrans(before, c, eb.contents, mine, i, Indices());
        assert start.data[cleared..][1..] == start.data[cleared + 1..];
        cleared := cleared + 1;
        ReachedTail(origin, start.tail, newTail, n, cleared);
      }
    }

    /** One acknowledged packet leaves the ring and the element buffer. */
    method DropOne(eb: ElementBuffer)
      requires eb.Valid() && Valid(eb.contents) && tailCount < txCount
      modifies this, buff, eb, eb.pool
      ensures eb.Valid() && Valid(eb.contents)
      ensures var s := old(View(eb.contents)); View(eb.contents) == s.(tail := s.tail + 1, data := s.data[1..])
      ensures OwnChange(old(eb.contents), eb.contents, old(Indices()), Indices())
    {
      hide RingIndex, Wrapped, SlotsOk, StoredIn, Row, FilledBetween, ElementBuffer.Valid, OwnChange, Seq8, Take,
          Requirement;
      ItemAt(eb.contents, tailCount);
      RowDrop(places, eb.contents, tailCount, headCount);
      var idx := buff[tail].idx;
      eb.StoredInPool(idx);
      var _ := eb.Delete(idx);
      DropTail();
    }

    method DropTail()
      requires Represents() && tailCount < txCount && tailCount in places.index
      requires FilledBetween(Take(places, tailCount), tailCount + 1, headCount)
      modifies `places, `storageCount, `tail, `tailSequence, `tailCount, buff
      ensures Represents() && tailCount == old(tailCount) + 1 && places == Take(old(places), old(tailCount))
    {
      hide RingIndex, Wrapped, Seq8, Increment8, SlotsOk, Take, FilledBetween;
      TakeSlot(buff[..], buff[..][tail := VACANT], origin, tailCount, places, Take(places, tailCount));
      IndexAdd(tailCount, 1, buff.Length);
      NextSequence(origin, tailCount);
      buff[tail] := VACANT;
      places := Take(places, tailCount);
      storageCount := storageCount - 1;
      tail := RingWrap(tail + 1, buff.Length);
      tailSequence := Increment8(tailSequence);
      tailCount := tailCount + 1;
    }

    /** memset of the resend list */
    method ClearResendList()
      modifies resendList
    {
      var k := 0;
      while k < resendList.Length
        modifies resendList
      {
        resendList[k] := 0;
        k := k + 1;
      }
    }

    /** The counters of an empty ring. */
    method Reset(initialSequence: byte)
      requires 4 <= buff.Length <= 256 && resendList.Length == ARQ_RESEND_SCHEDULE_DEPTH
      requires forall j :: 0 <= j < buff.Length ==> buff[j] == VACANT
      modifies this
      ensures Represents() && places == NOWHERE && resendCount == 0
      ensures tailCount == txCount == headCount == 0 && origin == initialSequence
    {
      hide RingIndex, Wrapped, SlotsOk, FilledBetween, Seq8;
      EmptySlots(buff[..], initialSequence);
      IndexZero(buff.Length);
      NothingStored(map[]);
      FirstSequence(initialSequence);
      head, txHead, tail, storageCount, resendCount := 0, 0, 0, 0, 0;
      headSequence, txSequence, tailSequence := initialSequence, initialSequence, initialSequence;
      tailCount, txCount, headCount, origin, places := 0, 0, 0, initialSequence, NOWHERE;
    }

    /** sky_send_ring_wipe */
    method Wipe(eb: ElementBuffer, initialSequence: byte)
      requires eb.Valid() && Valid(eb.contents)
      modifies this, buff, resendList, eb, eb.pool
      ensures eb.Valid() && Valid(eb.contents) && Indices() == {}
      ensures eb.contents == old(eb.contents) - old(Indices())
      ensures View(eb.contents) == SendEmpty(buff.Length, initialSequence)
    {
      hide RingIndex, Wrapped, SlotsOk, Requirement, ElementBuffer.Valid, StoredIn, Row, FilledBetween;
      WipeItems.Wipe(buff, eb, origin, tailCount, places);
      ClearResendList();
      Reset(initialSequence);
      NothingStored(eb.contents);
    }
  }

  /** sky_send_ring_create, which returns no ring for fewer than four slots. */
  method CreateSendRing(length: int, initialSequence: byte) returns (ring: SendRing?)
    requires length <= 256
    ensures ring == null <==> length < 4
    ensures ring != null ==>
              && fresh(ring) && fresh(ring.buff) && fresh(ring.resendList) && ring.Indices() == {}
              && ring.Valid(map[]) && ring.View(map[]) == SendEmpty(length, initialSequence)
  {
    if length < 4 {
      return null;
    }
    ring := new SendRing(length, initialSequence);
  }

  /** The sequence number of the tail is the acknowledged one after n steps and not
      before. */
  lemma ReachedTail(origin: byte, tail: nat, newTail: byte, n: nat, k: nat)
    requires k <= n == Sub8(newTail, Seq8(origin, tail))
    ensures Seq8(origin, tail + k) == newTail <==> k == n
  {
  }

  lemma ExactDistance(origin: byte, low: nat, high: nat)
    requires low <= high < low + 256
    ensures Sub8(Seq8(origin, high), Seq8(origin, low)) == high - low
  {
    SequenceDistance(origin, low, high);
  }

  lemma ChangeTrans(c1: map<uint16, Bytes>, c2: map<uint16, Bytes>, c3: map<uint16, Bytes>,
                    i1: set<uint16>, i2: set<uint16>, i3: set<uint16>)
    requires OwnChange(c1, c2, i1, i2) && OwnChange(c2, c3, i2, i3)
    ensures OwnChange(c1, c3, i1, i3)
  {
  }
}
