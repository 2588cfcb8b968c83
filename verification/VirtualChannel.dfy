/** A virtual channel (src/reliable_vc.c): two rings that share one element buffer, and
    the ARQ state around them. */
module VirtualChannels {
  import opened Base
  import opened Chains
  import opened Slots
  import opened RingSpec
  import opened ChannelSpec
  import opened ElementBuffers
  import opened RcvRings
  import opened SendRings
  import opened WipeItems

  /** The two rings own everything in the element buffer, and nothing twice. */
  ghost predicate Shared(contents: map<uint16, Bytes>, mine: set<uint16>, other: set<uint16>) {
    mine !! other && contents.Keys == mine + other
  }

  lemma SharedKept(c: map<uint16, Bytes>, c': map<uint16, Bytes>, mine: set<uint16>, mine': set<uint16>,
      other: set<uint16>)
    requires Shared(c, mine, other) && OwnChange(c, c', mine, mine')
    ensures Shared(c', mine', other) && Shared(c', other, mine')
    ensures forall i :: i in other ==> i in c' && c'[i] == c[i]
  {
  }

  lemma RcvKept(rcv: RcvRing, c: map<uint16, Bytes>, c': map<uint16, Bytes>)
    requires rcv.Valid(c) && forall i :: i in rcv.Indices() ==> i in c' && c'[i] == c[i]
    ensures rcv.Valid(c') && rcv.View(c') == rcv.View(c)
  {
    hide RcvOk, RcvRing.Represents, StoredIn, Payloads;
    PayloadsKept(rcv.places, c, c');
  }

  lemma SndKept(snd: SendRing, c: map<uint16, Bytes>, c': map<uint16, Bytes>)
    requires snd.Valid(c) && forall i :: i in snd.Indices() ==> i in c' && c'[i] == c[i]
    ensures snd.Valid(c') && snd.View(c') == snd.View(c)
  {
    hide SendRing.Represents, StoredIn, Row, FilledBetween;
    RowKept(snd.places, c, c', snd.tailCount, snd.headCount);
  }

  lemma FitsChain(length: nat, usable: nat)
    requires length <= SKY_FRAME_MAX_LEN && 12 <= usable
    ensures 0 < Requirement(length, usable) <= MAX_CHAIN
  {
    hide Requirement;
    RequirementExact(length, usable);
    var n := Requirement(length, usable);
    TwelveEach(n - 1, usable);
  }

  lemma TwelveEach(k: nat, usable: nat)
    requires 12 <= usable
    ensures 12 * k <= Offset(k, usable)
  {
  }

  /** Configuration values outside their range are replaced by 32. */
  function Limited(value: int, low: nat, high: nat): nat
    requires low <= 32 <= high
  {
    if value < low || value > high then 32 else value
  }

  /** compute_required_element_count for payloads of the maximal length */
  function PoolLength(slots: nat, usable: nat): nat
    requires usable > 0
  {
    slots * Requirement(SKY_PAYLOAD_MAX_LEN, usable)
  }

  lemma PoolSize(slots: nat, usable: nat)
    requires slots <= 498 && 12 <= usable
    ensures PoolLength(slots, usable) <= EB_MAX_ELEMENT_COUNT
  {
    FitsChain(SKY_PAYLOAD_MAX_LEN, usable);
    MulGrows(slots, 498, Requirement(SKY_PAYLOAD_MAX_LEN, usable));
  }

  function Created(rcvLen: nat, horizonWidth: nat, sndLen: nat): Channel
    requires 3 <= rcvLen
  {
    Channel(RcvEmpty(rcvLen, Min(Min(horizonWidth, rcvLen - 3), ARQ_MAXIMUM_HORIZON), 0), SendEmpty(sndLen, 0),
            Off, 0, 0, false, 0, 0, 0, 0)
  }

  /** What a new channel has of its configuration: lengths within the limits are kept and
      others become 32, and the horizon is as wide as configured unless the ring or the limit
      of 64 is too small.  It is in the state of a disconnected channel. */
  lemma CreatedWithin(rcvRingLen: int, horizonWidth: nat, sendRingLen: int)
    ensures var c := Created(Limited(rcvRingLen, 6, 250), horizonWidth, Limited(sendRingLen, 6, 250));
            && c == WipeToOff(c) && ChannelOk(c)
            && c.rcv.length == (if 6 <= rcvRingLen <= 250 then rcvRingLen else 32)
            && c.snd.length == (if 6 <= sendRingLen <= 250 then sendRingLen else 32)
            && c.rcv.horizon <= horizonWidth && c.rcv.horizon <= 64 && c.rcv.horizon + 3 <= c.rcv.length
            && (c.rcv.horizon == horizonWidth || c.rcv.horizon == 64 || c.rcv.horizon + 3 == c.rcv.length)
  {
  }

  class VirtualChannel {
    const elementBuffer: ElementBuffer
    const sendRing: SendRing
    const rcvRing: RcvRing
    var arq: Arq
    var handshakeSend: byte
    var session: uint32
    var needRecall: bool
    var lastTx: int
    var lastRx: int
    var lastCtrl: int
    var unconfirmed: int

    ghost function Footprint(): set<object> {
      {this, elementBuffer, elementBuffer.pool, sendRing, sendRing.buff, sendRing.resendList, rcvRing, rcvRing.buff}
    }

    /** The rings, each valid in its own right, share the element buffer. */
    ghost predicate Rings()
      reads this, elementBuffer, elementBuffer.pool, sendRing, sendRing.buff, sendRing.resendList, rcvRing,
          rcvRing.buff
    {
      && sendRing.buff != rcvRing.buff && 12 <= elementBuffer.usable
      && rcvRing.buff.Length + sendRing.buff.Length >= 2
      && elementBuffer.pool.Length == PoolLength(rcvRing.buff.Length + sendRing.buff.Length - 2, elementBuffer.usable)
      && elementBuffer.Valid()
      && rcvRing.Valid(elementBuffer.contents) && sendRing.Valid(elementBuffer.contents)
      && Shared(elementBuffer.contents, sendRing.Indices(), rcvRing.Indices())
    }

    ghost function View(): Channel
      reads this, elementBuffer, elementBuffer.pool, sendRing, sendRing.buff, sendRing.resendList, rcvRing,
          rcvRing.buff
      requires Rings()
    {
      Channel(rcvRing.View(elementBuffer.contents), sendRing.View(elementBuffer.contents),
              arq, handshakeSend, session, needRecall, lastTx, lastRx, lastCtrl, unconfirmed)
    }

    ghost predicate Valid()
      reads this, elementBuffer, elementBuffer.pool, sendRing, sendRing.buff, sendRing.resendList, rcvRing,
          rcvRing.buff
    {
      Rings() && ChannelOk(View())
    }

    /** Does the element buffer have room for a payload of this length? */
    ghost predicate Room(length: nat)
      reads this, elementBuffer, elementBuffer.pool, sendRing, sendRing.buff, sendRing.resendList, rcvRing,
          rcvRing.buff
      requires elementBuffer.usable > 0
    {
      Requirement(length, elementBuffer.usable) <= elementBuffer.freeElements
    }

    /** sky_vc_create: out-of-range configuration values are replaced by defaults, and the
        element buffer is made for rcvLen + sndLen - 2 payloads of the maximal length. */
    constructor (rcvRingLen: int, horizonWidth: int, sendRingLen: int, usableElementSize: int)
      requires horizonWidth >= 0
      ensures Valid() && fresh(elementBuffer) && fresh(elementBuffer.pool) && fresh(sendRing) && fresh(rcvRing)
      ensures fresh(sendRing.buff) && fresh(sendRing.resendList) && fresh(rcvRing.buff)
      ensures View() == Created(Limited(rcvRingLen, 6, 250), horizonWidth, Limited(sendRingLen, 6, 250))
      ensures elementBuffer.contents == map[] && elementBuffer.usable == Limited(usableElementSize, 12, 500)
      ensures elementBuffer.pool.Length ==
              PoolLength(Limited(rcvRingLen, 6, 250) + Limited(sendRingLen, 6, 250) - 2, elementBuffer.usable)
    {
      hide Requirement, PoolLength, ElementBuffer.Valid, RcvRing.Represents, SendRing.Represents, StoredIn,
          FilledBetween, Row, Payloads, RcvOk, SendOk;
      var rcvLen := Limited(rcvRingLen, 6, 250);
      var horizon := Min(horizonWidth, rcvLen - 3);
      var sndLen := Limited(sendRingLen, 6, 250);
      var usable := Limited(usableElementSize, 12, 500);
      var count := PoolLength(rcvLen + sndLen - 2, usable);
      PoolSize(rcvLen + sndLen - 2, usable);
      sendRing := new SendRing(sndLen, 0);
      rcvRing := new RcvRing(rcvLen, horizon, 0);
      elementBuffer := new ElementBuffer(usable, count);
      arq, handshakeSend, session, needRecall := Off, 0, 0, false;
      lastTx, lastRx, lastCtrl, unconfirmed := 0, 0, 0, 0;
      new;
      sendRing.ViewOk(map[]);
    }

    // ---------------------------------------------------------------------- the rings

    /** The send ring has changed, and with it its own part of the element buffer. */
    twostate lemma SendSideChanged()
      requires old(Valid())
      requires unchanged(this) && unchanged(rcvRing, rcvRing.buff)
      requires elementBuffer.Valid() && sendRing.Valid(elementBuffer.contents)
      requires OwnChange(old(elementBuffer.contents), elementBuffer.contents, old(sendRing.Indices()),
          sendRing.Indices())
      requires forall p :: p in sendRing.View(elementBuffer.contents).data ==> |p| <= SKY_PAYLOAD_MAX_LEN
      ensures Valid() && View() == old(View()).(snd := sendRing.View(elementBuffer.contents))
    {
      hide ElementBuffer.Valid, RcvRing.Represents, SendRing.Represents, StoredIn, FilledBetween, Row, Payloads,
          PoolLength, Requirement, OwnChange, Shared, RcvOk, SendOk;
      SharedKept(old(elementBuffer.contents), elementBuffer.contents, old(sendRing.Indices()), sendRing.Indices(),
          rcvRing.Indices());
      RcvKept(rcvRing, old(elementBuffer.contents), elementBuffer.contents);
      sendRing.ViewOk(elementBuffer.contents);
    }

    twostate lemma RcvSideChanged()
      requires old(Valid())
      requires unchanged(this) && unchanged(sendRing, sendRing.buff, sendRing.resendList)
      requires elementBuffer.Valid() && rcvRing.Valid(elementBuffer.contents)
      requires OwnChange(old(elementBuffer.contents), elementBuffer.contents, old(rcvRing.Indices()),
          rcvRing.Indices())
      ensures Valid() && View() == old(View()).(rcv := rcvRing.View(elementBuffer.contents))
    {
      hide ElementBuffer.Valid, RcvRing.Represents, SendRing.Represents, StoredIn, FilledBetween, Row, Payloads,
          PoolLength, Requirement, OwnChange, Shared, RcvOk, SendOk;
      SharedSwap(old(elementBuffer.contents), sendRing.Indices(), old(rcvRing.Indices()));
      SharedKept(old(elementBuffer.contents), elementBuffer.contents, old(rcvRing.Indices()), rcvRing.Indices(),
          sendRing.Indices());
      SndKept(sendRing, old(elementBuffer.contents), elementBuffer.contents);
    }

    /** Only the channel's own fields have changed. */
    twostate lemma FieldsChanged()
      requires old(Valid())
      requires unchanged(elementBuffer, elementBuffer.pool, sendRing, sendRing.buff, sendRing.resendList, rcvRing,
          rcvRing.buff)
      ensures Valid()
      ensures View() == Channel(old(View()).rcv, old(View()).snd, arq, handshakeSend, session, needRecall,
                                lastTx, lastRx, lastCtrl, unconfirmed)
    {
      hide ElementBuffer.Valid, RcvRing.Represents, SendRing.Represents, StoredIn, FilledBetween, Row, Payloads,
          PoolLength, Requirement, OwnChange, Shared, RcvOk, SendOk;
    }

    lemma ViewFields()
      requires Valid()
      ensures View() == Channel(View().rcv, View().snd, arq, handshakeSend, session, needRecall,
                                lastTx, lastRx, lastCtrl, unconfirmed)
    {
    }

    /** sky_vc_push_packet_to_send */
    method PushPacketToSend(payload: Bytes) returns (ret: int)
      requires Valid()
      modifies Footprint()
      ensures Valid()
      ensures (View(), ret) == PushPacket(old(View()), payload, old(Room(|payload|)))
    {
      hide ElementBuffer.Valid, RcvRing.Represents, SendRing.Represents, StoredIn, FilledBetween, Row, Payloads,
          PoolLength, Requirement, OwnChange, Shared, RcvOk, SendOk;
      if |payload| > SKY_PAYLOAD_MAX_LEN {
        return SKY_RET_TOO_LONG_PAYLOAD;
      }
      FitsChain(|payload|, elementBuffer.usable);
      ret := sendRing.Push(elementBuffer, payload);
      SendSideChanged();
    }

    /** sky_vc_read_next_received */
    method ReadNextReceived(maxLength: nat) returns (ret: int, target: Bytes)
      requires Valid()
      modifies Footprint()
      ensures Valid()
      ensures (View(), ret, target) == ReadPacket(old(View()), maxLength)
    {
      hide ElementBuffer.Valid, RcvRing.Represents, SendRing.Represents, StoredIn, FilledBetween, Row, Payloads,
          PoolLength, Requirement, OwnChange, Shared, RcvOk, SendOk, RcvRead;
      ret, target := rcvRing.Read(elementBuffer, maxLength);
      RcvSideChanged();
    }

    /** rcvRing_push_rx_packet on the channel's ring */
    method Receive(payload: Bytes, sequence: byte) returns (ret: int)
      requires Valid() && |payload| <= SKY_FRAME_MAX_LEN
      modifies rcvRing, rcvRing.buff, elementBuffer, elementBuffer.pool
      ensures Valid()
      ensures var (r, n) := RcvPush(old(View()).rcv, payload, sequence, old(Room(|payload|)));
              View() == old(View()).(rcv := r) && ret == n
    {
      hide ElementBuffer.Valid, RcvRing.Represents, SendRing.Represents, StoredIn, FilledBetween, Row, Payloads,
          PoolLength, Requirement, OwnChange, Shared, RcvOk, SendOk, RcvPush;
      FitsChain(|payload|, elementBuffer.usable);
      ret := rcvRing.Push(elementBuffer, payload, sequence);
      RcvSideChanged();
    }

    /** sendRing_clean_tail_up_to on the channel's ring */
    method Acknowledge(newTail: byte) returns (ret: int)
      requires Valid()
      modifies sendRing, sendRing.buff, elementBuffer, elementBuffer.pool
      ensures Valid()
      ensures var (s, n) := CleanTail(old(View()).snd, newTail); View() == old(View()).(snd := s) && ret == n
    {
      hide ElementBuffer.Valid, RcvRing.Represents, SendRing.Represents, StoredIn, FilledBetween, Row, Payloads,
          PoolLength, Requirement, OwnChange, Shared, RcvOk, SendOk;
      ret := sendRing.CleanUpTo(elementBuffer, newTail);
      SendSideChanged();
    }

    /** sendRing_read_to_tx on the channel's ring */
    method Transmit(includeResend: bool) returns (ret: int, sequence: byte, target: Bytes)
      requires Valid()
      modifies sendRing, sendRing.resendList
      ensures Valid()
      ensures TxRead(View().snd, ret, sequence, target) == ReadToTx(old(View()).snd, includeResend)
      ensures View() == old(View()).(snd := View().snd)
    {
      hide ElementBuffer.Valid, RcvRing.Represents, SendRing.Represents, StoredIn, FilledBetween, Row, Payloads,
          PoolLength, Requirement, OwnChange, Shared, RcvOk, SendOk;
      ReadKeepsData(View().snd, includeResend);
      ret, sequence, target := sendRing.ReadNext(elementBuffer, includeResend);
      StoredKeys(sendRing.places, elementBuffer.contents);
      SendSideChanged();
    }

    method CountPackets(includeResend: bool) returns (n: int)
      requires Valid()
      ensures n == CountToSend(View().snd, includeResend)
    {
      hide ElementBuffer.Valid, RcvRing.Represents, SendRing.Represents, StoredIn, FilledBetween, Row, Payloads,
          PoolLength, Requirement, OwnChange, Shared, RcvOk, SendOk;
      n := sendRing.Count(includeResend, elementBuffer.contents);
    }

    method PeekPacket(includeResend: bool) returns (size: int, sequence: byte)
      requires Valid()
      ensures (size, sequence) == Peek(View().snd, includeResend)
    {
      hide ElementBuffer.Valid, RcvRing.Represents, SendRing.Represents, StoredIn, FilledBetween, Row, Payloads,
          PoolLength, Requirement, OwnChange, Shared, RcvOk, SendOk, Peek;
      size, sequence := sendRing.PeekNext(elementBuffer, includeResend);
    }

    method HorizonMask() returns (mask: seq<bool>)
      requires Valid()
      ensures mask == Bitmap(View().rcv)
    {
      hide ElementBuffer.Valid, RcvRing.Represents, SendRing.Represents, StoredIn, FilledBetween, Row, Payloads,
          PoolLength, Requirement, OwnChange, Shared, RcvOk, SendOk;
      mask := rcvRing.GetHorizonBitmap(elementBuffer.contents);
    }

    method SyncWith(peerTx: byte) returns (sync: int)
      requires Valid()
      ensures sync == SyncStatus(View().rcv, peerTx)
    {
      hide ElementBuffer.Valid, RcvRing.Represents, SendRing.Represents, StoredIn, FilledBetween, Row, Payloads,
          PoolLength, Requirement, OwnChange, Shared, RcvOk, SendOk;
      sync := rcvRing.GetSyncStatus(elementBuffer.contents, peerTx);
    }

    // ---------------------------------------------------------------------- lifecycle

    method WipeBuffer()
      requires Valid() && elementBuffer.contents == map[]
      modifies elementBuffer, elementBuffer.pool
      ensures Valid() && View() == old(View())
      ensures elementBuffer.contents == map[] && elementBuffer.freeElements == elementBuffer.pool.Length
    {
      hide ElementBuffer.Valid, RcvRing.Represents, SendRing.Represents, StoredIn, FilledBetween, Row, Payloads,
          PoolLength, Requirement, OwnChange, Shared, RcvOk, SendOk;
      elementBuffer.Wipe();
    }

    /** sky_rcv_ring_wipe on the channel's ring */
    method WipeRcv()
      requires Valid()
      modifies rcvRing, rcvRing.buff, elementBuffer, elementBuffer.pool
      ensures Valid() && rcvRing.Indices() == {}
      ensures View() == old(View()).(rcv := RcvEmpty(old(View()).rcv.length, old(View()).rcv.horizon, 0))
    {
      hide ElementBuffer.Valid, RcvRing.Represents, SendRing.Represents, StoredIn, FilledBetween, Row, Payloads,
          PoolLength, Requirement, OwnChange, Shared, RcvOk, SendOk;
      rcvRing.Wipe(elementBuffer, 0);
      WipeIsOwn(old(elementBuffer.contents), elementBuffer.contents, old(rcvRing.Indices()));
      RcvSideChanged();
    }

    /** sky_send_ring_wipe on the channel's ring */
    method WipeSnd()
      requires Valid()
      modifies sendRing, sendRing.buff, sendRing.resendList, elementBuffer, elementBuffer.pool
      ensures Valid() && sendRing.Indices() == {}
      ensures View() == old(View()).(snd := SendEmpty(old(View()).snd.length, 0))
    {
      hide ElementBuffer.Valid, RcvRing.Represents, SendRing.Represents, StoredIn, FilledBetween, Row, Payloads,
          PoolLength, Requirement, OwnChange, Shared, RcvOk, SendOk;
      sendRing.Wipe(elementBuffer, 0);
      WipeIsOwn(old(elementBuffer.contents), elementBuffer.contents, old(sendRing.Indices()));
      SendSideChanged();
    }

    /** Two empty rings leave nothing in the element buffer. */
    lemma NothingStoredLeft()
      requires Valid() && sendRing.Indices() == {} && rcvRing.Indices() == {}
      ensures elementBuffer.contents == map[] && elementBuffer.freeElements == elementBuffer.pool.Length
    {
      hide ElementBuffer.Valid, RcvRing.Represents, SendRing.Represents, StoredIn, FilledBetween, Row, Payloads,
          PoolLength, RcvOk, SendOk;
      elementBuffer.EmptyMeansFree();
    }

    /** sky_vc_wipe_to_arq_off_state */
    method WipeToArqOff()
      requires Valid()
      modifies Footprint()
      ensures Valid() && View() == WipeToOff(old(View()))
      ensures elementBuffer.contents == map[] && elementBuffer.freeElements == elementBuffer.pool.Length
    {
      hide VirtualChannel.Rings, VirtualChannel.View, ChannelOk, OwnChange, Requirement;
      WipeSnd();
      WipeRcv();
      NothingStoredLeft();
      WipeBuffer();
      label Wiped:
      needRecall, arq, session, lastTx, lastRx, lastCtrl := false, Off, 0, 0, 0, 0;
      unconfirmed, handshakeSend := 0, 0;
      FieldsChanged@Wiped();
    }

    /** sky_vc_wipe_to_arq_init_state, also sky_vc_arq_connect.  The session identifier is
        the tick time. */
    method WipeToArqInit(now: uint32)
      requires Valid()
      modifies Footprint()
      ensures Valid() && View() == WipeToInit(old(View()), now, now)
      ensures elementBuffer.contents == map[] && elementBuffer.freeElements == elementBuffer.pool.Length
    {
      hide VirtualChannel.Rings, VirtualChannel.View, ChannelOk, OwnChange, Requirement;
      WipeRcv();
      WipeSnd();
      NothingStoredLeft();
      label Wiped:
      needRecall, arq, session, lastTx, lastRx, lastCtrl := false, InInit, now, now, now, 0;
      unconfirmed, handshakeSend := 0, 0;
      FieldsChanged@Wiped();
    }

    /** sky_vc_wipe_to_arq_on_state */
    method WipeToArqOn(identifier: uint32, now: int)
      requires Valid()
      modifies Footprint()
      ensures Valid() && View() == WipeToOn(old(View()), identifier, now)
      ensures elementBuffer.contents == map[] && elementBuffer.freeElements == elementBuffer.pool.Length
    {
      hide VirtualChannel.Rings, VirtualChannel.View, ChannelOk, OwnChange, Requirement;
      WipeRcv();
      WipeSnd();
      NothingStoredLeft();
      label Wiped:
      needRecall, arq, session, lastTx, lastRx, lastCtrl := false, On, identifier, now, now, 0;
      unconfirmed, handshakeSend := 0, 1;
      FieldsChanged@Wiped();
    }

    /** sky_vc_check_timeouts */
    method CheckArqTimeouts(now: int, timeout: int)
      requires Valid()
      modifies Footprint()
      ensures Valid() && View() == CheckTimeouts(old(View()), now, timeout)
    {
      hide ElementBuffer.Valid, RcvRing.Represents, SendRing.Represents, StoredIn, FilledBetween, Row, Payloads,
          PoolLength, Requirement, OwnChange, Shared, RcvOk, SendOk, TicksSince;
      if arq == Off {
        return;
      }
      if TicksSince(now, lastTx) > timeout || TicksSince(now, lastRx) > timeout {
        WipeToArqOff();
      }
    }

    // --------------------------------------------------------------------------- send

    /** sky_vc_content_to_send */
    method HasContentToSend(cfg: ArqConfig, now: int, sent: nat) returns (yes: bool)
      requires Valid()
      ensures yes == ContentToSend(View(), cfg, now, sent)
    {
      hide VirtualChannel.Rings, VirtualChannel.View, TicksSince, Bitmap;
      ViewFields();
      match arq
      case Off =>
        var n := CountPackets(false);
        return n > 0;
      case InInit =>
        return sent < cfg.idleFramesPerWindow;
      case On =>
        var n := CountPackets(true);
        if n > 0 {
          return true;
        }
        var mask := HorizonMask();
        if sent < cfg.idleFramesPerWindow && (true in mask || needRecall) {
          return true;
        }
        if handshakeSend > 0 {
          return true;
        }
        return sent < cfg.idleFramesPerWindow && IdleDue(cfg, now);
    }

    function IdleDue(cfg: ArqConfig, now: int): bool
      reads this
    {
      || TicksSince(now, lastCtrl) > cfg.idleFrameThreshold
      || TicksSince(now, lastTx) > cfg.idleFrameThreshold
      || TicksSince(now, lastRx) > cfg.idleFrameThreshold
      || unconfirmed > 0
    }

    /** sky_vc_read_packet_for_tx_monotonic */
    method TransmitMonotonic() returns (ret: int, target: Bytes)
      requires Valid()
      modifies sendRing, sendRing.buff, sendRing.resendList, elementBuffer, elementBuffer.pool
      ensures Valid()
      ensures (View(), ret, target) == SentMonotonic(old(View()))
    {
      hide ElementBuffer.Valid, RcvRing.Represents, SendRing.Represents, StoredIn, FilledBetween, Row, Payloads,
          PoolLength, Requirement, OwnChange, Shared, RcvOk, SendOk, ReadNew, Seq8;
      var sequence;
      ret, sequence, target := Transmit(false);
      if ret < 0 {
        return;
      }
      TxSequence();
      var _ := Acknowledge(sendRing.txSequence);
    }

    lemma TxSequence()
      requires Valid()
      ensures sendRing.txSequence == Seq8(View().snd.origin, View().snd.tx)
      ensures rcvRing.headSequence == Seq8(View().rcv.origin, View().rcv.head)
    {
      hide ElementBuffer.Valid, StoredIn, Row, Payloads, PoolLength, OwnChange, Shared, RcvOk, SendOk, Seq8;
    }

    /** sky_vc_fill_frame.  `length` is what the frame holds already. */
    method FillTransmitFrame(cfg: ArqConfig, length: nat, now: int, sent: nat) returns (ret: int, frame: Frame)
      requires Valid()
      modifies Footprint()
      ensures Valid() && Filled(View(), ret, frame) == FillFrame(old(View()), cfg, length, now, sent)
    {
      hide ElementBuffer.Valid, RcvRing.Represents, SendRing.Represents, StoredIn, FilledBetween, Row, Payloads,
          PoolLength, Requirement, OwnChange, Shared, RcvOk, SendOk, FillOff, FillOn, Swap32;
      match arq
      case Off =>
        ret, frame := FillWhenOff();
      case InInit =>
        if sent < cfg.idleFramesPerWindow {
          return 1, EMPTY_FRAME.(handshake := Some(Handshake(ARQ_STATE_IN_INIT, Swap32(session))));
        }
        return 0, EMPTY_FRAME;
      case On =>
        ret, frame := FillWhenOn(cfg, length, now, sent);
    }

    method FillWhenOff() returns (ret: int, frame: Frame)
      requires Valid()
      modifies Footprint()
      ensures Valid() && Filled(View(), ret, frame) == FillOff(old(View()))
    {
      hide VirtualChannel.Rings, VirtualChannel.View, Seq8, CleanTail;
      var size, _ := PeekPacket(false);
      if size > 0 {
        PeekedRead(View().snd);
        var _, target := TransmitMonotonic();
        return 1, EMPTY_FRAME.(payload := Some(target));
      }
      return 0, EMPTY_FRAME;
    }

    method FillWhenOn(cfg: ArqConfig, length: nat, now: int, sent: nat) returns (ret: int, frame: Frame)
      requires Valid()
      modifies Footprint()
      ensures Valid() && Filled(View(), ret, frame) == FillOn(old(View()), cfg, length, now, sent)
    {
      hide VirtualChannel.Rings, VirtualChannel.View, Peek, ReadToTx, FillExtensions;
      ret, frame := FillHeaders(cfg, now, sent);
      var n := CountPackets(true);
      if n > 0 {
        var size, sequence := PeekPacket(true);
        if size < 0 {
          return size, frame;
        }
        if size + ARQ_SEQUENCE_SIZE <= SpaceLeft(length + ExtensionsSize(frame)) {
          frame := frame.(sequence := Some(sequence));
          var _, _, target := Transmit(true);
          return 1, frame.(payload := Some(target));
        }
        var _, _, _ := Transmit(true);
        return SKY_RET_NO_SPACE_FOR_PAYLOAD, frame;
      }
    }

    /** The handshake, request and control extensions of an ARQ frame. */
    method FillHeaders(cfg: ArqConfig, now: int, sent: nat) returns (ret: int, frame: Frame)
      requires Valid()
      modifies this
      ensures Valid() && Filled(View(), ret, frame) == FillExtensions(old(View()), cfg, now, sent)
    {
      hide VirtualChannel.Rings, VirtualChannel.View, ChannelOk, TicksSince, Bitmap, Seq8, Swap32;
      TxSequence();
      ViewFields();
      var mask := HorizonMask();
      var n := CountPackets(true);
      ret, frame := 0, EMPTY_FRAME;
      if handshakeSend > 0 {
        frame := frame.(handshake := Some(Handshake(ARQ_STATE_ON, Swap32(session))));
        handshakeSend := handshakeSend - 1;
        ret := 1;
      }
      if sent < cfg.idleFramesPerWindow && (true in mask || needRecall) {
        frame := frame.(request := Some(Request(rcvRing.headSequence, mask)));
        needRecall := false;
        ret := 1;
      }
      if (sent < cfg.idleFramesPerWindow && IdleDue(cfg, now)) || n > 0 {
        frame := frame.(ctrl := Some(Control(sendRing.txSequence, rcvRing.headSequence)));
        lastCtrl, unconfirmed := now, 0;
        ret := 1;
      }
      FieldsChanged();
    }

    // ------------------------------------------------------------------------ receive

    /** sky_vc_handle_handshake */
    method HandlePeerHandshake(h: Handshake, now: int)
      requires Valid()
      modifies Footprint()
      ensures Valid() && View() == HandleHandshake(old(View()), h, now)
    {
      hide ElementBuffer.Valid, RcvRing.Represents, SendRing.Represents, StoredIn, FilledBetween, Row, Payloads,
          PoolLength, Requirement, OwnChange, Shared, RcvOk, SendOk;
      match arq
      case Off =>
        WipeToArqOn(h.identifier, now);
      case InInit =>
        if h.identifier == session {
          arq, handshakeSend := On, 0;
        } else if h.identifier > session {
          WipeToArqOn(h.identifier, now);
        }
      case On =>
        if h.identifier == session {
          handshakeSend := if h.peerState == ARQ_STATE_IN_INIT then 1 else 0;
        } else {
          WipeToArqOn(h.identifier, now);
        }
    }

    /** sky_vc_update_tx_sync */
    method UpdateTxSync(peerRx: byte, now: int)
      requires Valid()
      modifies Footprint()
      ensures Valid()
      ensures var (s, cleared) := CleanTail(old(View()).snd, peerRx);
              var seen := cleared > 0 || Seq8(s.origin, s.tx) == peerRx;
              View() == old(View()).(snd := s, lastTx := if seen then now else old(View()).lastTx)
    {
      hide VirtualChannel.Rings, VirtualChannel.View, ChannelOk, Seq8, CleanTail;
      var cleared := Acknowledge(peerRx);
      TxSequence();
      ViewFields();
      label Cleared:
      if cleared > 0 {
        lastTx := now;
      }
      if sendRing.txSequence == peerRx {
        lastTx := now;
      }
      FieldsChanged@Cleared();
    }

    /** sky_vc_update_rx_sync */
    method UpdateRxSync(peerTx: byte, now: int)
      requires Valid()
      modifies this
      ensures Valid()
      ensures var c := old(View()); var sync := SyncStatus(c.rcv, peerTx);
              View() == if sync == SKY_RET_OK then c.(lastRx := now, needRecall := false)
                        else if sync == SKY_RET_RING_SEQUENCES_OUT_OF_SYNC then c.(needRecall := true)
                        else c
    {
      hide VirtualChannel.Rings, VirtualChannel.View, ChannelOk, SyncStatus;
      ViewFields();
      var sync := SyncWith(peerTx);
      if sync == SKY_RET_OK {
        lastRx, needRecall := now, false;
      } else if sync == SKY_RET_RING_SEQUENCES_OUT_OF_SYNC {
        needRecall := true;
      }
      FieldsChanged();
    }

    /** The control extension of a received frame. */
    method HandlePeerControl(ctrl: Control, now: int)
      requires Valid()
      modifies Footprint()
      ensures Valid() && View() == HandleControl(old(View()), ctrl, now)
    {
      hide VirtualChannel.Rings, VirtualChannel.View, ChannelOk, Seq8, CleanTail, SyncStatus;
      UpdateTxSync(ctrl.rx, now);
      UpdateRxSync(ctrl.tx, now);
    }

    /** sky_vc_push_rx_packet */
    method PushRxPacket(payload: Bytes, sequence: byte, now: int) returns (ret: int)
      requires Valid() && |payload| <= SKY_FRAME_MAX_LEN
      modifies Footprint()
      ensures Valid() && View() == HandleData(old(View()), payload, sequence, now, old(Room(|payload|)))
      ensures ret == RcvPush(old(View()).rcv, payload, sequence, old(Room(|payload|))).1
    {
      hide ElementBuffer.Valid, RcvRing.Represents, SendRing.Represents, StoredIn, FilledBetween, Row, Payloads,
          PoolLength, Requirement, OwnChange, Shared, RcvOk, SendOk, RcvPush;
      ret := Receive(payload, sequence);
      if ret > 0 {
        lastRx := now;
      }
      unconfirmed := Increment16(unconfirmed);
    }

    method ScheduleRequested(q: Request)
      requires Valid() && |q.mask| == ARQ_MASK_BITS
      modifies sendRing, sendRing.resendList
      ensures Valid() && View() == HandleRequest(old(View()), q)
    {
      hide ElementBuffer.Valid, RcvRing.Represents, SendRing.Represents, StoredIn, FilledBetween, Row, Payloads,
          PoolLength, Requirement, OwnChange, Shared, RcvOk, SendOk;
      var _ := sendRing.ScheduleMask(q.sequence, q.mask, elementBuffer.contents);
      StoredKeys(sendRing.places, elementBuffer.contents);
      SendSideChanged();
    }

    /** The ARQ_STATE_ON branch of sky_vc_process_frame. */
    method ProcessWhenOn(f: Frame, now: int) returns (ret: int, ghost room: bool)
      requires Valid() && PayloadLength(f) <= SKY_FRAME_MAX_LEN
      requires f.request.Some? ==> |f.request.value.mask| == ARQ_MASK_BITS
      modifies Footprint()
      ensures Valid() && (View(), ret) == ProcessOn(old(View()), f, now, room)
      ensures Spacious(old(View())) && PayloadLength(f) <= SKY_PAYLOAD_MAX_LEN ==> room
    {
      hide VirtualChannel.Rings, VirtualChannel.View, VirtualChannel.Room, ChannelOk, HandleControl, HandleData,
          HandleRequest, Spacious;
      if f.ctrl.Some? {
        ControlKeepsSpace(View(), f.ctrl.value, now);
        HandlePeerControl(f.ctrl.value, now);
      }
      Usable();
      room := Room(PayloadLength(f));
      RoomWhenSpacious(PayloadLength(f));
      if PayloadLength(f) > 0 {
        if f.sequence.None? {
          return -1, room;
        }
        var _ := PushRxPacket(f.payload.value, f.sequence.value, now);
      }
      if f.request.Some? {
        ScheduleRequested(f.request.value);
      }
      ret := 0;
    }

    /** sky_vc_process_frame.  The payload finds room in the element buffer whenever fewer
        packets are held than it was made for and none is longer than it was made for. */
    method ProcessReceivedFrame(f: Frame, now: int) returns (ret: int, ghost room: bool)
      requires Valid() && PayloadLength(f) <= SKY_FRAME_MAX_LEN
      requires f.request.Some? ==> |f.request.value.mask| == ARQ_MASK_BITS
      modifies Footprint()
      ensures Valid() && (View(), ret) == ProcessFrame(old(View()), f, now, room)
      ensures Spacious(old(View())) && PayloadLength(f) <= SKY_PAYLOAD_MAX_LEN ==> room
    {
      hide VirtualChannel.Rings, VirtualChannel.View, VirtualChannel.Room, ChannelOk, HandleHandshake, ProcessOn,
          RcvPush, Seq8, Spacious;
      if f.handshake.Some? {
        HandshakeKeepsSpace(View(), f.handshake.value, now);
        HandlePeerHandshake(f.handshake.value, now);
      }
      ViewFields();
      ret := 0;
      match arq
      case Off =>
        Usable();
        room := Room(PayloadLength(f));
        RoomWhenSpacious(PayloadLength(f));
        if PayloadLength(f) > 0 {
          TxSequence();
          var _ := Receive(f.payload.value, rcvRing.headSequence);
        }
      case InInit =>
        room := true;
      case On =>
        ret, room := ProcessWhenOn(f, now);
    }

    // ------------------------------------------------------- what the element buffer holds

    lemma Usable()
      requires Valid()
      ensures elementBuffer.usable > 0
    {
    }

    /** The packets of the two rings are exactly what the element buffer stores ... */
    lemma BufferHoldsPackets()
      requires Valid()
      ensures |elementBuffer.contents| == |View().rcv.held| + |View().snd.data|
      ensures forall i :: i in elementBuffer.contents ==>
                || elementBuffer.contents[i] in View().rcv.held.Values
                || elementBuffer.contents[i] in View().snd.data
    {
      hide ElementBuffer.Valid, SlotsOk, PoolLength, RingIndex, Seq8, RcvOk, SendOk, StoredIn, Payloads, Row,
          FilledBetween;
      var c := elementBuffer.contents;
      assert |c.Keys| == |sendRing.Indices()| + |rcvRing.Indices()|;
      RowHolds(sendRing.places, c, sendRing.tailCount, sendRing.headCount);
      PayloadsHold(rcvRing.places, c);
    }

    /** ... and its indices are in one-to-one correspondence with the occupied slots. */
    lemma BufferHoldsRings()
      requires Valid()
      ensures OnePerSlot(elementBuffer.contents.Keys, rcvRing.buff[..], sendRing.buff[..])
    {
      hide ElementBuffer.Valid, PoolLength, RingIndex, Seq8, RcvOk, SendOk, Payloads, Row, FilledBetween, SlotsOk,
          Shared, SlotPerIndex, OnePerSlot;
      RingSlots(rcvRing.buff[..], rcvRing.origin, rcvRing.tailCount, rcvRing.places);
      RingSlots(sendRing.buff[..], sendRing.origin, sendRing.tailCount, sendRing.places);
      TwoRings(elementBuffer.contents, rcvRing.buff[..], rcvRing.Indices(), sendRing.buff[..], sendRing.Indices());
    }

    /** "Storing succeeds": a channel that holds fewer than rcvLen + sndLen - 2 packets of at
        most 181 bytes has room for one more. */
    lemma RoomWhenSpacious(length: nat)
      requires Valid() && elementBuffer.usable > 0
      ensures Spacious(View()) && length <= SKY_PAYLOAD_MAX_LEN ==> Room(length)
    {
      hide ElementBuffer.Valid, RcvRing.Valid, SendRing.Valid, Shared, Requirement;
      BufferHoldsPackets();
      if Spacious(View()) && length <= SKY_PAYLOAD_MAX_LEN {
        assert forall h :: h in elementBuffer.contents ==> |elementBuffer.contents[h]| <= SKY_PAYLOAD_MAX_LEN;
        elementBuffer.RoomForOneMore(SKY_PAYLOAD_MAX_LEN, View().rcv.length + View().snd.length - 3);
      }
    }

    /** For payloads that need as many elements as a maximal one the bound is exact. */
    lemma RoomExact(length: nat)
      requires Valid() && elementBuffer.usable > 0 && MaximalOnly(View(), elementBuffer.usable)
      requires NeedsMaximum(length, elementBuffer.usable)
      ensures Room(length) <==> |View().rcv.held| + |View().snd.data| < View().rcv.length + View().snd.length - 2
    {
      hide ElementBuffer.Valid, RcvRing.Valid, SendRing.Valid, Shared, Requirement;
      BufferHoldsPackets();
      var slots, n := View().rcv.length + View().snd.length - 2, |elementBuffer.contents|;
      var r := Requirement(SKY_PAYLOAD_MAX_LEN, elementBuffer.usable);
      FitsChain(SKY_PAYLOAD_MAX_LEN, elementBuffer.usable);
      forall h | h in elementBuffer.contents
        ensures Requirement(|elementBuffer.contents[h]|, elementBuffer.usable) == r
      {
        assert NeedsMaximum(|elementBuffer.contents[h]|, elementBuffer.usable);
      }
      elementBuffer.UsedExactly(r);
      RoomLeft(slots, n, r);
    }
  }

  ghost predicate NeedsMaximum(length: nat, usable: nat)
    requires usable > 0
  {
    Requirement(length, usable) == Requirement(SKY_PAYLOAD_MAX_LEN, usable)
  }

  ghost predicate MaximalOnly(c: Channel, usable: nat)
    requires usable > 0
  {
    && (forall n :: n in c.rcv.held ==> NeedsMaximum(|c.rcv.held[n]|, usable))
    && (forall p :: p in c.snd.data ==> NeedsMaximum(|p|, usable))
  }

  lemma RoomLeft(slots: nat, n: nat, r: nat)
    requires r > 0
    ensures r <= slots * r - n * r <==> n < slots
  {
    if n < slots {
      MulGrows(n + 1, slots, r);
      MulStep(n, r);
    } else {
      MulGrows(slots, n, r);
    }
  }

  /** Every index is in exactly one slot of exactly one ring, and every occupied slot refers
      to one of the indices. */
  ghost predicate OnePerSlot(indices: set<uint16>, rcv: seq<Item>, snd: seq<Item>) {
    && (forall j :: 0 <= j < |rcv| && rcv[j].idx != EB_NULL_IDX ==> rcv[j].idx in indices)
    && (forall j :: 0 <= j < |snd| && snd[j].idx != EB_NULL_IDX ==> snd[j].idx in indices)
    && (forall i :: i in indices ==>
          (exists j :: 0 <= j < |rcv| && rcv[j].idx == i) || (exists j :: 0 <= j < |snd| && snd[j].idx == i))
    && (forall j, k :: 0 <= j < |rcv| && 0 <= k < |snd| && rcv[j].idx == snd[k].idx ==> rcv[j].idx == EB_NULL_IDX)
    && OccupiedOnce(rcv) && OccupiedOnce(snd)
  }

  ghost predicate OccupiedOnce(buff: seq<Item>) {
    forall j, k :: 0 <= j < k < |buff| && buff[j].idx == buff[k].idx ==> buff[j].idx == EB_NULL_IDX
  }

  /** The occupied slots of one ring refer to its indices, one each. */
  ghost predicate SlotPerIndex(buff: seq<Item>, indices: set<uint16>) {
    && OccupiedOnce(buff) && EB_NULL_IDX !in indices
    && (forall j :: 0 <= j < |buff| && buff[j].idx != EB_NULL_IDX ==> buff[j].idx in indices)
    && (forall i :: i in indices ==> exists j :: 0 <= j < |buff| && buff[j].idx == i)
  }

  lemma TwoRings(contents: map<uint16, Bytes>, rcv: seq<Item>, rcvOwn: set<uint16>, snd: seq<Item>, sndOwn: set<uint16>)
    requires Shared(contents, sndOwn, rcvOwn) && SlotPerIndex(rcv, rcvOwn) && SlotPerIndex(snd, sndOwn)
    ensures OnePerSlot(contents.Keys, rcv, snd)
  {
  }

  lemma RingSlots(buff: seq<Item>, origin: byte, low: nat, p: Places)
    requires SlotsOk(buff, origin, low, p)
    ensures SlotPerIndex(buff, p.position.Keys)
  {
    assert EB_NULL_IDX !in p.position.Keys;
    hide SlotsOk, RingIndex;
    forall j | 0 <= j < |buff| && buff[j].idx != EB_NULL_IDX
      ensures buff[j].idx in p.position && RingIndex(p.position[buff[j].idx], |buff|) == j
    {
      SlotOwner(buff, origin, low, p, j);
    }
    forall i | i in p.position ensures exists j :: 0 <= j < |buff| && buff[j].idx == i {
      assert |buff| > 0 by { SlotsExist(buff, origin, low, p); }
      OwnerSlot(buff, origin, low, p, i);
    }
  }

  lemma SlotsExist(buff: seq<Item>, origin: byte, low: nat, p: Places)
    requires SlotsOk(buff, origin, low, p)
    ensures |buff| > 0
  {
  }

  /** Fewer packets are held than the element buffer was made for, all of ordinary length. */
  ghost predicate Spacious(c: Channel) {
    && |c.rcv.held| + |c.snd.data| < c.rcv.length + c.snd.length - 2
    && (forall n :: n in c.rcv.held ==> |c.rcv.held[n]| <= SKY_PAYLOAD_MAX_LEN)
    && (forall p :: p in c.snd.data ==> |p| <= SKY_PAYLOAD_MAX_LEN)
  }

  lemma ControlKeepsSpace(c: Channel, ctrl: Control, now: int)
    requires ChannelOk(c)
    ensures Spacious(c) ==> Spacious(HandleControl(c, ctrl, now))
  {
  }

  lemma HandshakeKeepsSpace(c: Channel, h: Handshake, now: int)
    requires ChannelOk(c)
    ensures Spacious(c) ==> Spacious(HandleHandshake(c, h, now))
  {
  }

  lemma {:induction false} PlacesPaired(p: Places)
    requires PlacesOk(p)
    ensures |p.position.Keys| == |p.index|
    decreases |p.index|
  {
    if n :| n in p.index {
      TakeOk(p, n);
      PlacesPaired(Take(p, n));
      assert p.position.Keys == Take(p, n).position.Keys + {p.index[n]};
    } else {
      assert p.position == map[];
    }
  }

  lemma {:induction false} FilledSize(p: Places, low: nat, high: nat)
    requires PlacesOk(p) && FilledBetween(p, low, high)
    ensures |p.index| == high - low
    decreases high - low
  {
    if low < high {
      TakeOk(p, low);
      FilledSize(Take(p, low), low + 1, high);
    } else {
      assert p.index == map[];
    }
  }

  lemma RowHolds(p: Places, c: map<uint16, Bytes>, low: nat, high: nat)
    requires StoredIn(p, c) && FilledBetween(p, low, high)
    ensures |p.position.Keys| == |Row(p, c, low, high)|
    ensures forall i :: i in p.position ==> i in c && c[i] in Row(p, c, low, high)
  {
    PlacesPaired(p);
    FilledSize(p, low, high);
    forall i | i in p.position ensures i in c && c[i] in Row(p, c, low, high) {
      RowAt(p, c, low, high, p.position[i]);
    }
  }

  lemma PayloadsHold(p: Places, c: map<uint16, Bytes>)
    requires StoredIn(p, c)
    ensures |p.position.Keys| == |Payloads(p, c)|
    ensures forall i :: i in p.position ==> i in c && c[i] in Payloads(p, c).Values
  {
    PlacesPaired(p);
    assert Payloads(p, c).Keys == p.index.Keys;
    assert |Payloads(p, c).Keys| == |p.index.Keys|;
    forall i | i in p.position ensures i in c && c[i] in Payloads(p, c).Values {
      assert Payloads(p, c)[p.position[i]] == c[i];
    }
  }

  /** The next new packet is read, and everything that has been sent leaves the ring. */
  ghost function SentMonotonic(c: Channel): (Channel, int, Bytes)
    requires ChannelOk(c)
  {
    var r := ReadNew(c.snd);
    var s := if r.ret < 0 then r.state else CleanTail(r.state, Seq8(r.state.origin, r.state.tx)).0;
    (c.(snd := s), r.ret, r.payload)
  }

  lemma PeekedRead(s: SendState)
    requires SendOk(s) && (forall p :: p in s.data ==> |p| <= SKY_PAYLOAD_MAX_LEN) && Peek(s, false).0 >= 0
    ensures ReadNew(s).ret >= 0
  {
    PeekMatchesRead(s, false);
  }

  lemma ReadKeepsData(s: SendState, includeResend: bool)
    requires SendOk(s)
    ensures ReadToTx(s, includeResend).state.data == s.data
  {
  }

  lemma WipeIsOwn(c: map<uint16, Bytes>, c': map<uint16, Bytes>, mine: set<uint16>)
    requires c' == c - mine
    ensures OwnChange(c, c', mine, {})
  {
  }

  lemma SharedSwap(c: map<uint16, Bytes>, mine: set<uint16>, other: set<uint16>)
    requires Shared(c, mine, other)
    ensures Shared(c, other, mine)
  {
  }
}
