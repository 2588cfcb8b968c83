/** The loop that sky_rcv_ring_wipe and sky_send_ring_wipe share: every payload of the
    ring is deleted and every item reset (src/sequence_ring.c:37-49, 233-242). */
module WipeItems {
  import opened Base
  import opened Chains
  import opened Slots
  import opened Utilities
  import opened ElementBuffers

  /** An occupied slot and the place of its packet determine each other. */
  lemma SlotOwner(buff: seq<Item>, origin: byte, low: nat, p: Places, j: nat)
    requires SlotsOk(buff, origin, low, p) && j < |buff|
    ensures var i := buff[j].idx;
            i != EB_NULL_IDX ==> i in p.position && RingIndex(p.position[i], |buff|) == j
  {
    hide RingIndex;
    var n := PositionOf(low, j, |buff|);
    assert SlotOk(buff, origin, p, n);
  }

  lemma PositionOf(low: nat, j: nat, length: nat) returns (n: nat)
    requires j < length
    ensures low <= n < low + length && RingIndex(n, length) == j
  {
    var base := low - low % length;
    n := base + j;
    assert base == (low / length) * length;
    ModMultiple(j, low / length, length);
    ModSmall(j, length);
    if n < low {
      n := n + length;
      ModShift(base + j, length);
    }
  }

  lemma OwnerSlot(buff: seq<Item>, origin: byte, low: nat, p: Places, i: uint16)
    requires SlotsOk(buff, origin, low, p) && i in p.position
    ensures buff[RingIndex(p.position[i], |buff|)].idx == i
  {
    hide RingIndex;
    assert SlotOk(buff, origin, p, p.position[i]);
  }

  /** What is left in the element buffer when the first j slots have been wiped. */
  ghost predicate WipedUpTo(before: map<uint16, Bytes>, after: map<uint16, Bytes>, p: Places, length: nat, j: nat)
    requires length > 0
  {
    && (forall i :: i in after ==> i in before && after[i] == before[i])
    && (forall i :: i in before ==> (i in after <==> i !in p.position || RingIndex(p.position[i], length) >= j))
  }

  lemma WipedOne(buff: seq<Item>, origin: byte, low: nat, p: Places, before: map<uint16, Bytes>,
                 after: map<uint16, Bytes>, j: nat)
    requires SlotsOk(buff, origin, low, p) && j < |buff| && p.position.Keys <= before.Keys
    requires WipedUpTo(before, after, p, |buff|, j)
    ensures var i := buff[j].idx;
            if i == EB_NULL_IDX then WipedUpTo(before, after, p, |buff|, j + 1)
            else i in after && WipedUpTo(before, after - {i}, p, |buff|, j + 1)
  {
    assert EB_NULL_IDX !in p.position;
    hide RingIndex, SlotsOk;
    SlotOwner(buff, origin, low, p, j);
    forall i | i in p.position ensures buff[RingIndex(p.position[i], |buff|)].idx == i {
      OwnerSlot(buff, origin, low, p, i);
    }
  }

  lemma WipedAll(before: map<uint16, Bytes>, after: map<uint16, Bytes>, p: Places, length: nat)
    requires length > 0 && WipedUpTo(before, after, p, length, length)
    ensures after == before - p.position.Keys
  {
  }

  method Wipe(buff: array<Item>, eb: ElementBuffer, ghost origin: byte, ghost low: nat, ghost p: Places)
    requires SlotsOk(buff[..], origin, low, p) && eb.Valid() && StoredIn(p, eb.contents)
    modifies buff, eb, eb.pool
    ensures eb.Valid() && eb.contents == old(eb.contents) - p.position.Keys
    ensures forall j :: 0 <= j < buff.Length ==> buff[j] == VACANT
  {
    hide RingIndex, SlotsOk, WipedUpTo, Requirement, ElementBuffer.Valid, StoredIn;
    ghost var items := buff[..];
    ghost var before := eb.contents;
    StartWipe(items, origin, low, p, before);
    var j := 0;
    while j < buff.Length
      invariant 0 <= j <= buff.Length
      invariant eb.Valid() && WipedUpTo(before, eb.contents, p, buff.Length, j)
      invariant forall k :: 0 <= k < j ==> buff[k] == VACANT
      invariant forall k :: j <= k < buff.Length ==> buff[k] == items[k]
    {
      WipedOne(items, origin, low, p, before, eb.contents, j);
      if buff[j].idx != EB_NULL_IDX {
        eb.StoredInPool(buff[j].idx);
        var _ := eb.Delete(buff[j].idx);
      }
      buff[j] := VACANT;
      j := j + 1;
    }
    WipedAll(before, eb.contents, p, buff.Length);
  }

  lemma StartWipe(buff: seq<Item>, origin: byte, low: nat, p: Places, before: map<uint16, Bytes>)
    requires SlotsOk(buff, origin, low, p) && StoredIn(p, before)
    ensures |buff| > 0 && p.position.Keys <= before.Keys && WipedUpTo(before, before, p, |buff|, 0)
  {
  }
}
