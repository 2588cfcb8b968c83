/** Selective repeat: what a retransmit request schedules, and what becomes of the
    schedule (src/sequence_ring.c:347-431). */
module Retransmit {
  import opened Base
  import opened RingSpec

  // ----------------------------------------------------------------- the request

  /** The sequence numbers of the packets in [from, to) that the receiver lacks. */
  function Lacking(r: RcvState, from: nat, to: nat): seq<byte>
    decreases to - from
  {
    if from >= to then []
    else (if from in r.held then [] else [Seq8(r.origin, from)]) + Lacking(r, from + 1, to)
  }

  function FirstSixteen(s: seq<byte>): seq<byte> {
    if |s| <= ARQ_RESEND_SCHEDULE_DEPTH then s else s[..ARQ_RESEND_SCHEDULE_DEPTH]
  }

  /** A sender and a receiver of the same session, the receiver waiting for the packet
      at its head. */
  ghost predicate Waiting(s: SendState, r: RcvState) {
    && SendOk(s) && RcvOk(r) && s.origin == r.origin
    && s.tail <= r.head <= s.tx
    && r.head !in r.held
    && forall n :: n in r.held ==> n < s.tx
  }

  /** All numbers on the list belong to packets in [head, next). */
  ghost predicate ListedBefore(list: seq<byte>, origin: byte, head: nat, next: nat) {
    forall q :: q in list ==> exists n :: head <= n < next && q == Seq8(origin, n)
  }

  lemma NotListed(list: seq<byte>, origin: byte, head: nat, next: nat)
    requires ListedBefore(list, origin, head, next) && head <= next <= head + 17
    ensures Seq8(origin, next) !in list
  {
  }

  lemma ListedMore(list: seq<byte>, origin: byte, head: nat, next: nat)
    requires ListedBefore(list, origin, head, next) && head <= next
    ensures ListedBefore(list, origin, head, next + 1)
    ensures ListedBefore(list + [Seq8(origin, next)], origin, head, next + 1)
  {
    hide Seq8;
  }

  /** What one bit of the mask does. */
  lemma OneBit(s: SendState, r: RcvState, i: nat)
    requires Waiting(s, r) && i < ARQ_MASK_BITS && r.head + 1 + i <= s.tx
    requires ListedBefore(s.resend, s.origin, r.head, r.head + 1 + i)
    ensures var n := r.head + 1 + i;
            var all := ScheduleFromBit(s, Seq8(s.origin, n), Bitmap(r), i).0;
            if n in r.held then all == ScheduleFromBit(s, Seq8(s.origin, n + 1), Bitmap(r), i + 1).0
            else if |s.resend| == ARQ_RESEND_SCHEDULE_DEPTH || n == s.tx then all == s
            else all == ScheduleFromBit(s.(resend := s.resend + [Seq8(s.origin, n)]),
                                        Seq8(s.origin, n + 1), Bitmap(r), i + 1).0
  {
    hide Seq8, ListedBefore, RcvOk, RecallPosition;
    var n := r.head + 1 + i;
    assert n in r.held <==> Bitmap(r)[i] by { HeldBit(r, i); }
    NextByte(s.origin, n);
    RecallAt(s, n);
    NotListed(s.resend, s.origin, r.head, n);
  }

  lemma HeldBit(r: RcvState, i: nat)
    requires RcvOk(r) && i < ARQ_MASK_BITS
    ensures r.head + 1 + i in r.held <==> Bitmap(r)[i]
  {
  }

  lemma NextByte(origin: byte, n: nat)
    ensures (Seq8(origin, n) as int + 1) % 256 == Seq8(origin, n + 1)
  {
  }

  lemma RecallAt(s: SendState, n: nat)
    requires SendOk(s) && s.tail <= n <= s.tx
    ensures RecallPosition(s, Seq8(s.origin, n)) == n
  {
    SequenceDistance(s.origin, s.tail, n);
  }

  lemma AllBits(s: SendState, r: RcvState)
    ensures ScheduleFromBit(s, Seq8(s.origin, r.head + 1 + ARQ_MASK_BITS), Bitmap(r), ARQ_MASK_BITS).0 == s
  {
  }

  lemma {:induction false} BitsSchedule(s: SendState, r: RcvState, i: nat)
    requires Waiting(s, r) && i <= ARQ_MASK_BITS && r.head + 1 + i <= s.tx
    requires ListedBefore(s.resend, s.origin, r.head, r.head + 1 + i)
    ensures ScheduleFromBit(s, Seq8(s.origin, r.head + 1 + i), Bitmap(r), i).0.resend
            == FirstSixteen(s.resend + Lacking(r, r.head + 1 + i, Min(s.tx, r.head + 17)))
    decreases ARQ_MASK_BITS - i
  {
    hide ScheduleFromBit, RcvOk, Bitmap, Seq8, ListedBefore, FirstSixteen, Lacking, CanRecall;
    var n := r.head + 1 + i;
    var to := Min(s.tx, r.head + 17);
    LackingStep(r, n, to, s.resend);
    if i == ARQ_MASK_BITS {
      AllBits(s, r);
    } else {
      OneBit(s, r, i);
      ListedMore(s.resend, s.origin, r.head, n);
      if n in r.held {
        BitsSchedule(s, r, i + 1);
      } else if |s.resend| < ARQ_RESEND_SCHEDULE_DEPTH && n < s.tx {
        BitsSchedule(s.(resend := s.resend + [Seq8(s.origin, n)]), r, i + 1);
      }
    }
  }

  lemma LackingStep(r: RcvState, n: nat, to: nat, list: seq<byte>)
    requires |list| <= ARQ_RESEND_SCHEDULE_DEPTH
    ensures n >= to ==> FirstSixteen(list + Lacking(r, n, to)) == list
    ensures |list| == ARQ_RESEND_SCHEDULE_DEPTH ==> FirstSixteen(list + Lacking(r, n, to)) == list
    ensures n < to && n in r.held ==> Lacking(r, n, to) == Lacking(r, n + 1, to)
    ensures n < to && n !in r.held ==>
              list + Lacking(r, n, to) == list + [Seq8(r.origin, n)] + Lacking(r, n + 1, to)
  {
  }

  /** A request made of the receiver's head and its horizon bitmap, served with an
      empty list, schedules exactly the first 16 packets the receiver lacks among
      those already sent and no further than 17 from its head, in order. */
  lemma RequestIsExact(s: SendState, r: RcvState)
    requires Waiting(s, r) && s.resend == []
    ensures ScheduleByMask(s, Seq8(r.origin, r.head), Bitmap(r)).0.resend
            == FirstSixteen(Lacking(r, r.head, Min(s.tx, r.head + 17)))
  {
    hide ScheduleFromBit, Bitmap, RcvOk, ScheduleByMask, Seq8;
    var q := Seq8(r.origin, r.head);
    FirstEntry(s, r.head, Bitmap(r));
    if r.head < s.tx {
      var to := Min(s.tx, r.head + 17);
      ListedMore([], s.origin, r.head, r.head);
      assert [] + [q] == [q];
      BitsSchedule(s.(resend := [q]), r, 0);
      assert Lacking(r, r.head, to) == [q] + Lacking(r, r.head + 1, to);
    }
  }

  lemma FirstEntry(s: SendState, n: nat, mask: seq<bool>)
    requires SendOk(s) && s.tail <= n <= s.tx && s.resend == []
    ensures var q := Seq8(s.origin, n);
            ScheduleByMask(s, q, mask).0 ==
            if n == s.tx then s else ScheduleFromBit(s.(resend := [q]), Seq8(s.origin, n + 1), mask, 0).0
  {
    hide ScheduleFromBit, Seq8, RecallPosition;
    RecallAt(s, n);
    NextByte(s.origin, n);
    assert s.resend + [Seq8(s.origin, n)] == [Seq8(s.origin, n)];
  }

  // -------------------------------------------------------------- the resend list

  /** The sequence numbers that repeated pops deliver. */
  function Drain(list: seq<byte>): seq<byte>
    decreases |list|
  {
    if list == [] then [] else [list[0]] + Drain(Popped(list))
  }

  /** A list of two or more loses its last entry and delivers the one before it
      twice. */
  lemma {:induction false} DrainRepeats(list: seq<byte>)
    requires |list| >= 2
    ensures Drain(list) == list[..|list| - 1] + [list[|list| - 2]]
    decreases |list|
  {
    var n := |list|;
    var rest := Popped(list);
    assert Drain(list) == [list[0]] + Drain(rest);
    if n == 2 {
      DrainOne(rest);
    } else {
      hide Drain;
      DrainRepeats(rest);
      assert rest[..n - 2] == list[1..n - 1];
      assert rest[n - 3] == list[n - 2];
      assert list[..n - 1] == [list[0]] + list[1..n - 1];
    }
  }

  lemma DrainOne(list: seq<byte>)
    requires |list| == 1
    ensures Drain(list) == list
  {
    assert Popped(list) == [];
  }

  /** The list is served first in, first out exactly if it has at most one entry or
      ends with the same entry twice. */
  lemma FifoOnlyIfShort(list: seq<byte>)
    ensures Drain(list) == list <==> |list| <= 1 || list[|list| - 1] == list[|list| - 2]
  {
    hide Drain;
    if |list| >= 2 {
      DrainRepeats(list);
      var n := |list| - 1;
      assert list == list[..n] + [list[n]];
      assert Drain(list)[n] == list[n - 1];
    } else if |list| == 1 {
      DrainOne(list);
    } else {
      DrainNone();
    }
  }

  lemma DrainNone()
    ensures Drain([]) == []
  {
  }

  // ------------------------------------------------------------------ counts and repeats

  ghost predicate NoRepeats(list: seq<byte>) {
    forall i, j :: 0 <= i < j < |list| ==> list[i] != list[j]
  }

  lemma OneRepeat(s: SendState, sequence: byte)
    requires NoRepeats(s.resend)
    ensures NoRepeats(ScheduleResend(s, sequence).0.resend)
  {
  }

  /** However often a packet is asked for, it is on the list once. */
  lemma AskedOnce(s: SendState, sequence: byte, mask: seq<bool>)
    requires NoRepeats(s.resend)
    ensures NoRepeats(ScheduleByMask(s, sequence, mask).0.resend)
  {
    hide ScheduleResend, ScheduleFromBit, NoRepeats;
    OneRepeat(s, sequence);
    BitsOnce(ScheduleResend(s, sequence).0, (sequence + 1) % 256, mask, 0);
  }

  lemma {:induction false} BitsOnce(s: SendState, sequence: byte, mask: seq<bool>, i: nat)
    requires NoRepeats(s.resend) && i <= |mask|
    ensures NoRepeats(ScheduleFromBit(s, sequence, mask, i).0.resend)
    decreases |mask| - i
  {
    hide ScheduleResend, NoRepeats;
    if i < |mask| {
      OneRepeat(s, sequence);
      BitsOnce(if mask[i] then s else ScheduleResend(s, sequence).0, (sequence + 1) % 256, mask, i + 1);
    }
  }

  /** Every read with resends takes one from the count, and one more if it finds that the
      first resend has been acknowledged and sends a new packet instead. */
  lemma ReadsCount(s: SendState)
    requires SendOk(s) && (forall p :: p in s.data ==> |p| <= TX_READ_LIMIT) && CountToSend(s, true) > 0
    ensures CountToSend(s, true) - CountToSend(ReadToTx(s, true).state, true) ==
            if s.resend != [] && !CanRecall(s, s.resend[0]) && s.tx < s.head then 2 else 1
  {
    hide Seq8, RecallPosition;
    assert s.tx < s.head ==> s.data[s.tx - s.tail] in s.data;
    if s.resend != [] && CanRecall(s, s.resend[0]) {
      assert s.data[RecallPosition(s, s.resend[0]) - s.tail] in s.data by { RecallInside(s, s.resend[0]); }
    }
  }

  lemma RecallInside(s: SendState, sequence: byte)
    ensures s.tail <= RecallPosition(s, sequence)
  {
  }
}
