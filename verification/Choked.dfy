/** The element buffer is made for one packet less per ring than there are slots, but a
    choked receive ring has a packet in every slot (src/reliable_vc.c:71-75,
    src/sequence_ring.c:99-118).  So the buffer can run out while a ring has a slot free. */
module ChokedRing {
  import opened Base
  import opened Chains
  import opened RingSpec
  import opened ChannelSpec
  import opened VirtualChannels

  // ------------------------------------------------------------------- the receive ring

  ghost function Stack(payload: Bytes, k: nat): (m: map<nat, Bytes>)
    ensures |m| == k && (forall n: nat :: n in m <==> n < k) && forall n :: n in m ==> m[n] == payload
  {
    if k == 0 then map[]
    else
      var m := Stack(payload, k - 1);
      assert m[k - 1 := payload].Keys == m.Keys + {k - 1};
      m[k - 1 := payload]
  }

  function Copies(payload: Bytes, n: nat): (s: seq<Bytes>)
    ensures |s| == n && forall p :: p in s ==> p == payload
  {
    if n == 0 then [] else Copies(payload, n - 1) + [payload]
  }

  /** The ring when k packets have arrived in order and none has been read. */
  ghost function Arrived(payload: Bytes, length: nat, horizon: nat, k: nat): RcvState
    requires horizon < length
  {
    RcvState(length, horizon, 0, 0, Min(k, length - horizon - 1), Stack(payload, k))
  }

  lemma ArrivedOk(payload: Bytes, length: nat, horizon: nat, k: nat)
    requires horizon + 3 <= length && horizon <= ARQ_MAXIMUM_HORIZON && k <= length
    ensures RcvOk(Arrived(payload, length, horizon, k))
  {
  }

  /** Packet after packet is accepted until every slot is taken. */
  lemma NextArrives(payload: Bytes, length: nat, horizon: nat, k: nat)
    requires horizon + 3 <= length && horizon <= ARQ_MAXIMUM_HORIZON && k < length
    ensures RcvOk(Arrived(payload, length, horizon, k))
    ensures RcvPush(Arrived(payload, length, horizon, k), payload, Seq8(0, k), true).0
            == Arrived(payload, length, horizon, k + 1)
  {
    hide RcvOk, Advance, Seq8, Sub8, Stack;
    ArrivedOk(payload, length, horizon, k);
    var r := Arrived(payload, length, horizon, k);
    SequenceDistance(0, r.head, k);
    HeadMoves(payload, length, horizon, k);
  }

  lemma HeadMoves(payload: Bytes, length: nat, horizon: nat, k: nat)
    requires horizon + 3 <= length && horizon <= ARQ_MAXIMUM_HORIZON && k < length
    ensures var r := Arrived(payload, length, horizon, k);
            var s := r.(held := r.held[k := payload]);
            RcvShape(s) && Advance(s) == Arrived(payload, length, horizon, k + 1)
  {
    ArrivedOk(payload, length, horizon, k + 1);
    var r, next := Arrived(payload, length, horizon, k), Arrived(payload, length, horizon, k + 1);
    assert r.held[k := payload] == next.held;
    hide Stack;
    assert Advance(next) == next;
  }

  // -------------------------------------------------------------------------- the channel

  /** A channel all of whose packets are maximal. */
  ghost predicate Loaded(c: Channel, payload: Bytes, k: nat, n: nat)
    requires c.rcv.horizon < c.rcv.length
  {
    && c.rcv == Arrived(payload, c.rcv.length, c.rcv.horizon, k)
    && c.snd == SendState(c.snd.length, 0, 0, 0, n, Copies(payload, n), [])
  }

  lemma LoadedSpacious(c: Channel, payload: Bytes, k: nat, n: nat)
    requires |payload| == SKY_PAYLOAD_MAX_LEN && c.rcv.horizon < c.rcv.length && Loaded(c, payload, k, n)
    requires k + n < c.rcv.length + c.snd.length - 2
    ensures Spacious(c)
  {
  }

  /** One more packet is received. */
  method ReceiveOne(vc: VirtualChannel, payload: Bytes, k: nat)
    requires vc.Valid() && k < vc.View().rcv.length && vc.View().rcv.horizon < vc.View().rcv.length
    requires |payload| == SKY_PAYLOAD_MAX_LEN && Loaded(vc.View(), payload, k, 0)
    modifies vc.Footprint()
    ensures vc.Valid() && vc.View().rcv.horizon < vc.View().rcv.length && Loaded(vc.View(), payload, k + 1, 0)
    ensures vc.View().rcv.length == old(vc.View().rcv.length) && vc.View().snd.length == old(vc.View().snd.length)
  {
    hide VirtualChannel.Rings, VirtualChannel.View, VirtualChannel.Room, Spacious, RcvPush, Arrived, Seq8;
    ChannelSizes(vc.View());
    LoadedSpacious(vc.View(), payload, k, 0);
    vc.Usable();
    vc.RoomWhenSpacious(|payload|);
    NextArrives(payload, vc.View().rcv.length, vc.View().rcv.horizon, k);
    var _ := vc.PushRxPacket(payload, Seq8(0, k), 0);
  }

  /** One more packet is queued. */
  method QueueOne(vc: VirtualChannel, payload: Bytes, ghost k: nat, ghost n: nat) returns (ret: int)
    requires vc.Valid() && vc.View().rcv.horizon < vc.View().rcv.length
    requires |payload| == SKY_PAYLOAD_MAX_LEN && Loaded(vc.View(), payload, k, n)
    requires n + 1 < vc.View().snd.length && k + n <= vc.View().rcv.length + vc.View().snd.length - 2
    modifies vc.Footprint()
    ensures vc.Valid() && vc.View().rcv.horizon < vc.View().rcv.length
    ensures vc.View().rcv.length == old(vc.View().rcv.length) && vc.View().snd.length == old(vc.View().snd.length)
    ensures k + n < vc.View().rcv.length + vc.View().snd.length - 2 ==> ret >= 0 && Loaded(vc.View(), payload, k, n + 1)
    ensures k + n == vc.View().rcv.length + vc.View().snd.length - 2 ==>
              ret == SKY_RET_EBUFFER_NO_SPACE && Loaded(vc.View(), payload, k, n)
  {
    hide VirtualChannel.Rings, VirtualChannel.View, VirtualChannel.Room, Requirement, Arrived, Seq8;
    vc.Usable();
    LoadedMaximal(vc.View(), payload, k, n, vc.elementBuffer.usable);
    vc.RoomExact(|payload|);
    ret := vc.PushPacketToSend(payload);
  }

  lemma LoadedMaximal(c: Channel, payload: Bytes, k: nat, n: nat, usable: nat)
    requires |payload| == SKY_PAYLOAD_MAX_LEN && c.rcv.horizon < c.rcv.length && Loaded(c, payload, k, n) && usable > 0
    ensures MaximalOnly(c, usable) && NeedsMaximum(|payload|, usable) && |c.rcv.held| == k && |c.snd.data| == n
  {
    hide Requirement;
  }

  lemma ChannelSizes(c: Channel)
    requires ChannelOk(c)
    ensures c.rcv.horizon + 3 <= c.rcv.length && c.rcv.horizon <= ARQ_MAXIMUM_HORIZON && 4 <= c.snd.length
  {
  }

  /** In every configuration: a new channel receives a packet for every slot of its receive
      ring and queues as many as its send ring has slots, less two.  Then the receive ring is
      choked and full, one slot of the send ring is free, and the next payload is refused for
      want of space. */
  method RefusedThoughFree(rcvRingLen: int, horizonWidth: nat, sendRingLen: int, usableElementSize: int, payload: Bytes)
    returns (vc: VirtualChannel, ret: int)
    requires |payload| == SKY_PAYLOAD_MAX_LEN
    ensures vc.Valid() && ret == SKY_RET_EBUFFER_NO_SPACE
    ensures Choked(vc.View().rcv) && |vc.View().rcv.held| == vc.View().rcv.length
    ensures |vc.View().snd.data| == vc.View().snd.length - 2
  {
    hide VirtualChannel.Rings, VirtualChannel.View, Created, Loaded, PoolLength;
    vc := new VirtualChannel(rcvRingLen, horizonWidth, sendRingLen, usableElementSize);
    CreatedEmpty(Limited(rcvRingLen, 6, 250), horizonWidth, Limited(sendRingLen, 6, 250), payload);
    ret := Overfill(vc, payload);
  }

  method Overfill(vc: VirtualChannel, payload: Bytes) returns (ret: int)
    requires vc.Valid() && |payload| == SKY_PAYLOAD_MAX_LEN && vc.View().rcv.horizon < vc.View().rcv.length
    requires Loaded(vc.View(), payload, 0, 0)
    modifies vc.Footprint()
    ensures vc.Valid() && ret == SKY_RET_EBUFFER_NO_SPACE
    ensures Choked(vc.View().rcv) && |vc.View().rcv.held| == vc.View().rcv.length
    ensures |vc.View().snd.data| == vc.View().snd.length - 2
  {
    hide VirtualChannel.Rings, VirtualChannel.View;
    ChannelSizes(vc.View());
    ghost var rcvLen, sndLen := vc.View().rcv.length, vc.View().snd.length;
    ReceiveAll(vc, payload);
    QueueMost(vc, payload);
    ret := QueueOne(vc, payload, rcvLen, sndLen - 2);
  }

  method ReceiveAll(vc: VirtualChannel, payload: Bytes)
    requires vc.Valid() && |payload| == SKY_PAYLOAD_MAX_LEN && vc.View().rcv.horizon < vc.View().rcv.length
    requires Loaded(vc.View(), payload, 0, 0)
    modifies vc.Footprint()
    ensures vc.Valid() && vc.View().rcv.horizon < vc.View().rcv.length
    ensures vc.View().rcv.length == old(vc.View().rcv.length) && vc.View().snd.length == old(vc.View().snd.length)
    ensures Loaded(vc.View(), payload, vc.View().rcv.length, 0)
  {
    hide VirtualChannel.Rings, VirtualChannel.View, ChannelOk, Loaded;
    RingSizes(vc);
    var k := 0;
    while k < vc.rcvRing.buff.Length
      invariant 0 <= k <= vc.rcvRing.buff.Length
      invariant vc.Valid() && vc.View().rcv.length == vc.rcvRing.buff.Length == old(vc.View().rcv.length)
      invariant vc.View().snd.length == old(vc.View().snd.length)
      invariant vc.View().rcv.horizon < vc.View().rcv.length && Loaded(vc.View(), payload, k, 0)
    {
      ReceiveOne(vc, payload, k);
      k := k + 1;
    }
  }

  method QueueMost(vc: VirtualChannel, payload: Bytes)
    requires vc.Valid() && |payload| == SKY_PAYLOAD_MAX_LEN && vc.View().rcv.horizon < vc.View().rcv.length
    requires Loaded(vc.View(), payload, vc.View().rcv.length, 0)
    modifies vc.Footprint()
    ensures vc.Valid() && vc.View().rcv.horizon < vc.View().rcv.length
    ensures vc.View().rcv.length == old(vc.View().rcv.length) && vc.View().snd.length == old(vc.View().snd.length)
    ensures vc.View().snd.length >= 2 && Loaded(vc.View(), payload, vc.View().rcv.length, vc.View().snd.length - 2)
  {
    hide VirtualChannel.Rings, VirtualChannel.View, ChannelOk, Loaded;
    ChannelSizes(vc.View());
    RingSizes(vc);
    ghost var full := vc.View().rcv.length;
    var n := 0;
    while n < vc.sendRing.buff.Length - 2
      invariant 0 <= n <= vc.sendRing.buff.Length - 2
      invariant vc.Valid() && vc.View().rcv.length == full == old(vc.View().rcv.length)
      invariant vc.View().snd.length == vc.sendRing.buff.Length == old(vc.View().snd.length)
      invariant vc.View().rcv.horizon < vc.View().rcv.length && Loaded(vc.View(), payload, full, n)
    {
      var _ := QueueOne(vc, payload, full, n);
      n := n + 1;
    }
  }

  lemma RingSizes(vc: VirtualChannel)
    requires vc.Valid()
    ensures vc.View().rcv.length == vc.rcvRing.buff.Length && vc.View().snd.length == vc.sendRing.buff.Length
  {
  }

  /** A channel as it is created is loaded with nothing. */
  lemma CreatedEmpty(rcvLen: nat, horizonWidth: nat, sndLen: nat, payload: Bytes)
    requires 3 <= rcvLen
    ensures var c := Created(rcvLen, horizonWidth, sndLen);
            c.rcv.horizon < c.rcv.length && Loaded(c, payload, 0, 0)
  {
  }
}
