/** The abstract behaviour of the two ARQ sequence rings (src/sequence_ring.c).

    A ring in memory knows a packet only by its slot (modulo the ring length) and
    by its sequence number (modulo 256).  Here a packet is known by its unbounded
    position in the session: 0 for the first packet after a wipe, then 1, 2, ... */
module RingSpec {
  import opened Base

  // ---------------------------------------------------------------- receive ring

  /** `held` maps the position of every stored packet to its payload.  Positions
      below `tail` have been read, positions in [tail, head) are readable, and
      [head, head + horizon] is the window of packets that may still arrive. */
  datatype RcvState = RcvState(
    length: nat, horizon: nat, origin: byte, tail: nat, head: nat, held: map<nat, Bytes>)

  /** The distance from tail to the end of the horizon has used up the ring. */
  predicate Choked(r: RcvState) {
    r.head - r.tail + r.horizon + 1 == r.length
  }

  /** Everything the receive ring guarantees except that the head is as far
      forward as it can be. */
  ghost predicate RcvShape(r: RcvState) {
    && r.horizon + 3 <= r.length
    && r.horizon <= ARQ_MAXIMUM_HORIZON
    && r.tail <= r.head
    && r.head - r.tail + r.horizon + 1 <= r.length
    && (forall n :: n in r.held ==> r.tail <= n <= r.head + r.horizon)
    && (forall n :: r.tail <= n < r.head ==> n in r.held)
  }

  ghost predicate RcvOk(r: RcvState) {
    RcvShape(r) && (r.head in r.held ==> Choked(r))
  }

  function RcvEmpty(length: nat, horizon: nat, origin: byte): RcvState {
    RcvState(length, horizon, origin, 0, 0, map[])
  }

  /** rcvRing_advance_head: the head moves over stored packets until it meets a
      hole or the horizon meets the tail. */
  function Advance(r: RcvState): (a: RcvState)
    requires RcvShape(r)
    ensures RcvOk(a)
    ensures r.head <= a.head && a == r.(head := a.head)
    decreases r.length - (r.head - r.tail)
  {
    if r.head !in r.held || Choked(r) then r else Advance(r.(head := r.head + 1))
  }

  /** rcvRing_push_rx_packet.  `room` says whether the element buffer can store the
      payload. */
  function RcvPush(r: RcvState, payload: Bytes, sequence: byte, room: bool): (a: (RcvState, int))
    requires RcvOk(r)
    ensures RcvOk(a.0) && a.0 == r.(head := a.0.head, held := a.0.held)
  {
    var diff := Sub8(sequence, Seq8(r.origin, r.head));
    if diff > r.horizon then (r, SKY_RET_RING_INVALID_SEQUENCE)
    else if r.head + diff in r.held then (r, SKY_RET_RING_PACKET_ALREADY_IN)
    else if !room then (r, SKY_RET_EBUFFER_NO_SPACE)
    else
      var a := Advance(r.(held := r.held[r.head + diff := payload]));
      (a, a.head - r.head)
  }

  /** rcvRing_read_next_received: the new state, the return code and the payload. */
  function RcvRead(r: RcvState, maxLength: nat): (a: (RcvState, int, Bytes))
    requires RcvOk(r)
    ensures RcvOk(a.0) && a.0 == r.(tail := a.0.tail, head := a.0.head, held := a.0.held)
    ensures r.head == r.tail ==> a.0 == r && a.1 != SKY_RET_OK
  {
    if r.head == r.tail then (r, SKY_RET_RING_EMPTY, [])
    else if |r.held[r.tail]| > maxLength then (r, SKY_RET_EBUFFER_TOO_LONG_PAYLOAD, [])
    else
      (Advance(r.(tail := r.tail + 1, held := r.held - {r.tail})), SKY_RET_OK, r.held[r.tail])
  }

  /** Bit i of the retransmit mask (rcvRing_get_horizon_bitmap). */
  predicate MaskBit(r: RcvState, i: nat) {
    i < r.horizon && r.head + 1 + i in r.held
  }

  function Bitmap(r: RcvState): (m: seq<bool>)
    ensures |m| == ARQ_MASK_BITS
  {
    seq(ARQ_MASK_BITS, i requires 0 <= i => MaskBit(r, i))
  }

  /** rcvRing_get_sequence_sync_status */
  function SyncStatus(r: RcvState, peerTx: byte): int {
    var head := Seq8(r.origin, r.head);
    if peerTx == head then SKY_RET_OK
    else if Sub8(peerTx, head) <= ARQ_MAXIMUM_HORIZON then SKY_RET_RING_SEQUENCES_OUT_OF_SYNC
    else SKY_RET_RING_SEQUENCES_DETACHED
  }

  // ------------------------------------------------------------------- send ring

  /** Payloads in [tail, head) are stored, those in [tail, tx) have been sent at
      least once and not been acknowledged. */
  datatype SendState = SendState(
    length: nat, origin: byte, tail: nat, tx: nat, head: nat, data: seq<Bytes>, resend: seq<byte>)

  ghost predicate SendOk(s: SendState) {
    && 4 <= s.length <= 256
    && s.tail <= s.tx <= s.head < s.tail + s.length
    && |s.data| == s.head - s.tail
    && |s.resend| <= ARQ_RESEND_SCHEDULE_DEPTH
  }

  function SendEmpty(length: nat, origin: byte): SendState {
    SendState(length, origin, 0, 0, 0, [], [])
  }

  function SendPush(s: SendState, payload: Bytes, room: bool): (SendState, int)
  {
    if s.head + 1 == s.tail + s.length then (s, SKY_RET_RING_RING_FULL)
    else if !room then (s, SKY_RET_EBUFFER_NO_SPACE)
    else (s.(head := s.head + 1, data := s.data + [payload]), Seq8(s.origin, s.head))
  }

  /** The position sendRing_get_recall_ring_index takes a sequence number for. */
  function RecallPosition(s: SendState, sequence: byte): nat {
    s.tail + Sub8(sequence, Seq8(s.origin, s.tail))
  }

  predicate CanRecall(s: SendState, sequence: byte) {
    RecallPosition(s, sequence) < s.tx
  }

  function ScheduleResend(s: SendState, sequence: byte): (r: (SendState, int))
    ensures SendOk(s) ==> SendOk(r.0)
    ensures r.0 == s.(resend := r.0.resend)
  {
    if |s.resend| >= ARQ_RESEND_SCHEDULE_DEPTH then (s, SKY_RET_RING_RESEND_FULL)
    else if !CanRecall(s, sequence) then (s, SKY_RET_RING_CANNOT_RECALL)
    else if sequence in s.resend then (s, SKY_RET_OK)
    else (s.(resend := s.resend + [sequence]), SKY_RET_OK)
  }

  /** The loop of sendRing_schedule_resends_by_mask from bit i on; `sequence`
      belongs to bit i. */
  function ScheduleFromBit(s: SendState, sequence: byte, mask: seq<bool>, i: nat): (r: (SendState, int))
    requires i <= |mask|
    ensures SendOk(s) ==> SendOk(r.0)
    ensures r.0 == s.(resend := r.0.resend)
    decreases |mask| - i
  {
    if i == |mask| then (s, SKY_RET_OK)
    else if mask[i] then ScheduleFromBit(s, (sequence + 1) % 256, mask, i + 1)
    else
      var (t, ret) := ScheduleResend(s, sequence);
      if ret != SKY_RET_OK then (t, ret) else ScheduleFromBit(t, (sequence + 1) % 256, mask, i + 1)
  }

  function ScheduleByMask(s: SendState, sequence: byte, mask: seq<bool>): (r: (SendState, int))
    ensures SendOk(s) ==> SendOk(r.0)
    ensures r.0 == s.(resend := r.0.resend)
  {
    var (t, ret) := ScheduleResend(s, sequence);
    if ret != SKY_RET_OK then (t, ret) else ScheduleFromBit(t, (sequence + 1) % 256, mask, 0)
  }

  function CountToSend(s: SendState, includeResend: bool): int {
    s.head - s.tx + (if includeResend then |s.resend| else 0)
  }

  /** What the resend list is after sendRing_pop_resend_sequence: the shift stops
      one entry early, so the last entry is lost and the one before it repeats. */
  function Popped(list: seq<byte>): seq<byte>
    requires list != []
  {
    var n := |list|;
    if n == 1 then [] else list[1..n - 1] + [list[n - 2]]
  }

  /** The largest payload sendRing_read_to_tx copies out. */
  const TX_READ_LIMIT := SKY_PAYLOAD_MAX_LEN + 100

  datatype TxRead = TxRead(state: SendState, ret: int, sequence: byte, payload: Bytes)

  function ReadNew(s: SendState): TxRead
    requires SendOk(s)
  {
    if s.head == s.tx then TxRead(s, SKY_RET_RING_EMPTY, 0, [])
    else
      var p := s.data[s.tx - s.tail];
      if |p| > TX_READ_LIMIT then TxRead(s, SKY_RET_EBUFFER_TOO_LONG_PAYLOAD, 0, [])
      else TxRead(s.(tx := s.tx + 1), |p|, Seq8(s.origin, s.tx), p)
  }

  function ReadRecall(s: SendState): TxRead
    requires SendOk(s) && s.resend != []
  {
    var t := s.(resend := Popped(s.resend));
    if !CanRecall(s, s.resend[0]) then TxRead(t, SKY_RET_RING_CANNOT_RECALL, 0, [])
    else
      var p := s.data[RecallPosition(s, s.resend[0]) - s.tail];
      if |p| > TX_READ_LIMIT then TxRead(t, SKY_RET_EBUFFER_TOO_LONG_PAYLOAD, 0, [])
      else TxRead(t, |p|, s.resend[0], p)
  }

  /** sendRing_read_to_tx */
  function ReadToTx(s: SendState, includeResend: bool): TxRead
    requires SendOk(s)
  {
    if includeResend && s.resend != [] then
      var r := ReadRecall(s);
      if r.ret >= 0 then r else ReadNew(r.state)
    else ReadNew(s)
  }

  /** sendRing_peek_next_tx_size_and_sequence: length or error, and the sequence. */
  function Peek(s: SendState, includeResend: bool): (int, byte)
    requires SendOk(s)
  {
    if CountToSend(s, includeResend) == 0 then (SKY_RET_RING_EMPTY, 0)
    else if includeResend && s.resend != [] && CanRecall(s, s.resend[0]) then
      var n := RecallPosition(s, s.resend[0]);
      (|s.data[n - s.tail]|, Seq8(s.origin, n))
    else if CountToSend(s, false) == 0 then (SKY_RET_RING_EMPTY, 0)
    else (|s.data[s.tx - s.tail]|, Seq8(s.origin, s.tx))
  }

  /** sendRing_clean_tail_up_to */
  function CleanTail(s: SendState, newTail: byte): (r: (SendState, int))
    requires SendOk(s)
    ensures SendOk(r.0)
  {
    var n := Sub8(newTail, Seq8(s.origin, s.tail));
    if n > s.tx - s.tail then (s, SKY_RET_RING_INVALID_ACKNOWLEDGE)
    else (s.(tail := s.tail + n, data := s.data[n..]), n)
  }

  // ------------------------------------------------------------------ properties

  /** The 8-bit distance is the true distance as long as that is below 256. */
  lemma SequenceDistance(origin: byte, low: nat, high: nat)
    ensures Sub8(Seq8(origin, high), Seq8(origin, low)) == (high - low) % 256
  {
  }

  /** A sequence number that can be recalled denotes exactly one packet in memory,
      one that has been sent and carries that very number. */
  lemma RecallIsExact(s: SendState, sequence: byte, n: nat)
    requires SendOk(s) && s.tail <= n < s.tx
    ensures RecallPosition(s, sequence) == n <==> Seq8(s.origin, n) == sequence
    ensures Seq8(s.origin, n) == sequence ==> CanRecall(s, sequence)
  {
    SequenceDistance(s.origin, s.tail, n);
  }

  lemma RecalledSequence(s: SendState, sequence: byte)
    ensures Seq8(s.origin, RecallPosition(s, sequence)) == sequence
  {
  }
}
