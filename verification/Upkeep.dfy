/** What keeps a session going: when a channel has something to transmit, what it announces,
    and which frames put off its timeout (src/reliable_vc.c:156-179, 240-262, 289-320,
    326-381, 432-508). */
module Upkeep {
  import opened Base
  import opened RingSpec
  import opened ChannelSpec
  import opened Frames
  import opened Session
  import opened Aliasing
  import EmptyPayloads
  import Muteness

  // --------------------------------------------------------------------- what is sent

  /** A channel is asked to fill a frame exactly when it will: it then writes a frame or
      reports an error.  The one exception is an empty payload at the front of the queue
      while ARQ is off. */
  lemma ContentExact(c: Channel, cfg: ArqConfig, length: nat, now: int, sent: nat)
    requires ChannelOk(c) && length <= MAX_START
    ensures ContentToSend(c, cfg, now, sent) <==>
              FillFrame(c, cfg, length, now, sent).ret != 0 || (c.arq.Off? && EmptyPayloads.Blocked(c.snd))
  {
    hide Bitmap, Seq8, Swap32, TicksSince, CleanTail, RcvOk, RecallPosition;
    PayloadFits(c, c.snd);
    Muteness.PeekFails(c.snd);
    EmptyPayloads.OffFillsNothing(c);
  }

  /** A packet is missing below one that is held. */
  ghost predicate Gap(r: RcvState) {
    exists n :: n in r.held && r.head < n <= r.head + r.horizon && n <= r.head + ARQ_MASK_BITS
  }

  /** Nothing has been announced, acknowledged or received for longer than the threshold. */
  predicate Quiet(c: Channel, cfg: ArqConfig, now: int) {
    exists tick :: tick in {c.lastCtrl, c.lastTx, c.lastRx} && TicksSince(now, tick) > cfg.idleFrameThreshold
  }

  /** In each of its first frames of a window a connected channel asks for what it misses and
      acknowledges what it has received; with something to send it does so in every frame. */
  lemma Announces(c: Channel, cfg: ArqConfig, length: nat, now: int, sent: nat)
    requires ChannelOk(c) && c.arq.On?
    ensures var f := FillFrame(c, cfg, length, now, sent).frame;
            && (f.handshake.Some? <==> c.handshakeSend > 0)
            && (f.request.Some? <==> sent < cfg.idleFramesPerWindow && (Gap(c.rcv) || c.needRecall))
            && (f.ctrl.Some? <==>
                (sent < cfg.idleFramesPerWindow && (Quiet(c, cfg, now) || c.unconfirmed > 0)) ||
                c.snd.tx < c.snd.head || c.snd.resend != [])
  {
    hide Seq8, Swap32, TicksSince, RecallPosition, Peek, ReadToTx, Bitmap;
    GapInMask(c.rcv);
    QuietTicks(c, cfg, now);
  }

  lemma QuietTicks(c: Channel, cfg: ArqConfig, now: int)
    ensures Quiet(c, cfg, now) || c.unconfirmed > 0 <==> IdleFrameDue(c, cfg, now)
  {
    hide TicksSince;
    var ticks := {c.lastCtrl, c.lastTx, c.lastRx};
    assert c.lastCtrl in ticks && c.lastTx in ticks && c.lastRx in ticks;
  }

  lemma GapInMask(r: RcvState)
    ensures true in Bitmap(r) <==> Gap(r)
  {
    var m := Bitmap(r);
    if Gap(r) {
      var n :| n in r.held && r.head < n <= r.head + r.horizon && n <= r.head + ARQ_MASK_BITS;
      assert m[n - r.head - 1];
    }
    if true in m {
      var i :| 0 <= i < |m| && m[i];
      assert r.head + 1 + i in r.held;
    }
  }

  // -------------------------------------------------------------------------- timeouts

  /** A channel that is not OFF is wiped if and only if more than `timeout` ticks have passed
      since one of the two ticks; it is in the state of a disconnected channel then. */
  lemma TimeoutExact(c: Channel, now: int, timeout: int)
    requires !c.arq.Off?
    ensures var d := CheckTimeouts(c, now, timeout);
            && (d.arq.Off? <==> TicksSince(now, c.lastTx) > timeout || TicksSince(now, c.lastRx) > timeout)
            && d == (if d.arq.Off? then WipeToOff(c) else c)
  {
  }

  /** Starting to connect and entering a session start the time anew. */
  lemma EnteringRenews(c: Channel, now: int, identifier: uint32, later: int, timeout: int)
    ensures CheckTimeouts(WipeToOn(c, identifier, now), later, timeout).arq.On? <==> TicksSince(later, now) <= timeout
    ensures CheckTimeouts(WipeToInit(c, now, identifier), later, timeout).arq.InInit? <==>
              TicksSince(later, now) <= timeout
  {
    hide TicksSince;
  }

  /** Neither leaving a session nor entering one leaves a trace of what was before. */
  lemma NoTrace(c: Channel, d: Channel, now: int, identifier: uint32)
    requires c.rcv.length == d.rcv.length && c.rcv.horizon == d.rcv.horizon && c.snd.length == d.snd.length
    ensures WipeToOff(c) == WipeToOff(d)
    ensures WipeToInit(c, now, identifier) == WipeToInit(d, now, identifier)
    ensures WipeToOn(c, identifier, now) == WipeToOn(d, identifier, now)
  {
  }

  /** A frame of the session reaches a connected peer: what its control and its packet do to
      the ticks, in terms of the true counters. */
  ghost predicate Renews(c: Channel, d: Channel, f: Flight, now: int) {
    && d.lastTx == (if f.frame.ctrl.Some? && (f.stamp.rx > c.snd.tail || f.stamp.rx == c.snd.tx) then now
                    else c.lastTx)
    && d.lastRx == (if (f.frame.ctrl.Some? && f.stamp.tx == c.rcv.head) || d.rcv.head > c.rcv.head then now
                    else c.lastRx)
    && d.needRecall == (if f.frame.ctrl.None? || f.stamp.tx > c.rcv.head + ARQ_MAXIMUM_HORIZON then c.needRecall
                        else f.stamp.tx > c.rcv.head)
    && d.unconfirmed == (if PayloadLength(f.frame) > 0 then Increment16(c.unconfirmed) else c.unconfirmed)
  }

  /** The peer's counters in the frame are those of its stamp. */
  ghost predicate Truthful(c: Channel, f: Flight) {
    && f.frame.handshake.None? && SendOk(c.snd) && c.snd.origin == c.rcv.origin == 0
    && c.snd.tail <= f.stamp.rx <= c.snd.tx && c.rcv.head <= f.stamp.tx < c.rcv.head + 256
    && (f.frame.ctrl.Some? ==> f.frame.ctrl.value == Control(Seq8(0, f.stamp.tx), Seq8(0, f.stamp.rx)))
    && (PayloadLength(f.frame) > 0 ==> f.frame.sequence.Some?)
  }

  lemma SameNumber(a: byte, b: byte)
    ensures Sub8(a, b) == 0 <==> a == b
  {
  }

  lemma Distance(low: nat, high: nat)
    requires low <= high < low + 256
    ensures Sub8(Seq8(0, high), Seq8(0, low)) == high - low
  {
    SequenceDistance(0, low, high);
  }

  lemma AckCounts(s: SendState, rx: nat)
    requires SendOk(s) && s.origin == 0 && s.tail <= rx <= s.tx
    ensures CleanTail(s, Seq8(0, rx)).1 == rx - s.tail
    ensures var t := CleanTail(s, Seq8(0, rx)).0; t.origin == 0 && t.tx == s.tx
    ensures Seq8(0, s.tx) == Seq8(0, rx) <==> rx == s.tx
  {
    hide Seq8, Sub8;
    Distance(s.tail, rx);
    Distance(rx, s.tx);
    SameNumber(Seq8(0, s.tx), Seq8(0, rx));
  }

  lemma VerdictCounts(r: RcvState, tx: nat)
    requires r.origin == 0 && r.head <= tx < r.head + 256
    ensures SyncStatus(r, Seq8(0, tx)) == (if tx == r.head then SKY_RET_OK
                                           else if tx <= r.head + ARQ_MAXIMUM_HORIZON
                                           then SKY_RET_RING_SEQUENCES_OUT_OF_SYNC
                                           else SKY_RET_RING_SEQUENCES_DETACHED)
  {
    hide Seq8, Sub8;
    Distance(r.head, tx);
    SameNumber(Seq8(0, tx), Seq8(0, r.head));
  }

  lemma ControlRenews(c: Channel, f: Flight, now: int)
    requires ChannelOk(c) && Truthful(c, f) && f.frame.ctrl.Some?
    ensures var d := HandleControl(c, f.frame.ctrl.value, now);
            && d.lastTx == (if f.stamp.rx > c.snd.tail || f.stamp.rx == c.snd.tx then now else c.lastTx)
            && d.lastRx == (if f.stamp.tx == c.rcv.head then now else c.lastRx)
            && d.needRecall == (if f.stamp.tx > c.rcv.head + ARQ_MAXIMUM_HORIZON then c.needRecall
                                else f.stamp.tx > c.rcv.head)
            && d.unconfirmed == c.unconfirmed
  {
    hide RcvOk, CleanTail, SyncStatus, Seq8;
    AckCounts(c.snd, f.stamp.rx);
    VerdictCounts(c.rcv, f.stamp.tx);
  }

  lemma FrameRenews(c: Channel, f: Flight, now: int, room: bool)
    requires ChannelOk(c) && c.arq.On? && Truthful(c, f)
    ensures Renews(c, ProcessFrame(c, f.frame, now, room).0, f, now)
  {
    hide ScheduleByMask, Seq8, Sub8, RcvPush, HandleControl, SendOk, RcvOk;
    if f.frame.ctrl.Some? { ControlRenews(c, f, now); }
    var c1 := if f.frame.ctrl.Some? then HandleControl(c, f.frame.ctrl.value, now) else c;
    if PayloadLength(f.frame) > 0 {
      PushReturns(c.rcv, f.frame.payload.value, f.frame.sequence.value, room);
    }
  }

  lemma PushReturns(r: RcvState, payload: Bytes, sequence: byte, room: bool)
    requires RcvOk(r)
    ensures var (t, ret) := RcvPush(r, payload, sequence, room); ret > 0 <==> t.head > r.head
  {
    hide Advance, Seq8, Sub8;
  }

  lemma FlowTruthful(e: nat, c: Channel, r: RcvState, s: SendState, in_: seq<Bytes>, out: seq<Bytes>, got: seq<Bytes>,
                     link: seq<Flight>, back: seq<Flight>)
    requires link != [] && link[0].stamp.epoch == e && link[0].frame.handshake.None?
    requires Sink(e, c.rcv, in_, got, link, s.length) && Source(e, c.snd, r, out, back, link) && SendOk(s)
    ensures Truthful(c, link[0])
  {
    assert FlightOk(link[0], c.rcv, in_, s.length) && AckOk(link[0], c.snd, r);
  }

  /** In every run: which frames put off the timeouts of a connected peer, and which make it
      ask for what it misses.  A control puts off the one for sending if and only if it
      acknowledges something new or everything sent; the one for receiving is put off if and
      only if nothing sent is missing or the packet that was waited for has come. */
  lemma Renewals(start: Sys, s: Sys, now: int, room: bool)
    requires Reachable(start, s) && Fits(s.a, s.b) && Fits(s.b, s.a) && s.a.epoch == s.b.epoch
    requires PeerOk(s.a) && PeerOk(s.b)
    ensures s.b.ch.arq.On? && s.ab != [] && s.ab[0].frame.handshake.None? ==>
              Renews(s.b.ch, Next(s, Deliver(true, now, room)).b.ch, s.ab[0], now)
    ensures s.a.ch.arq.On? && s.ba != [] && s.ba[0].frame.handshake.None? ==>
              Renews(s.a.ch, Next(s, Deliver(false, now, room)).a.ch, s.ba[0], now)
  {
    hide Reachable, Swap32, Openings, Sink, Source, Renews, Truthful, ProcessFrame;
    ReachableInv(start, s);
    var e := s.b.epoch;
    if s.b.ch.arq.On? && s.ab != [] && s.ab[0].frame.handshake.None? {
      FlowTruthful(e, s.b.ch, s.a.ch.rcv, s.a.ch.snd, s.a.pushed[e], s.b.pushed[e], s.b.got, s.ab, s.ba);
      FrameRenews(s.b.ch, s.ab[0], now, room);
    }
    if s.a.ch.arq.On? && s.ba != [] && s.ba[0].frame.handshake.None? {
      FlowTruthful(e, s.a.ch, s.b.ch.rcv, s.b.ch.snd, s.b.pushed[e], s.a.pushed[e], s.a.got, s.ba, s.ab);
      FrameRenews(s.a.ch, s.ba[0], now, room);
    }
  }

  /** Nothing is delivered to this side and nobody connects. */
  ghost predicate Deaf(events: seq<Event>, atA: bool) {
    forall e :: e in events ==> !e.Connect? && !(e.Deliver? && e.toB != atA)
  }

  ghost predicate SameTicks(c: Channel, d: Channel) {
    d.arq == c.arq && d.lastTx == c.lastTx && d.lastRx == c.lastRx
  }

  lemma SendTicks(p: Peer, cfg: ArqConfig, length: nat, now: int, sent: nat)
    requires PeerOk(p)
    ensures SameTicks(p.ch, PeerSend(p, cfg, length, now, sent).0.ch)
  {
    hide RcvOk, Bitmap, Seq8, TicksSince, Peek, ReadToTx, Swap32, CleanTail;
  }

  lemma StepTicks(s: Sys, e: Event, atA: bool)
    requires PeerOk(s.a) && PeerOk(s.b) && Enabled(s, e) && Deaf([e], atA)
    ensures var t := Next(s, e); if atA then SameTicks(s.a.ch, t.a.ch) else SameTicks(s.b.ch, t.b.ch)
  {
    hide ChannelOk, PeerReceive, PeerSend, RcvRead;
    assert e in [e];
    if e.Send? { SendTicks(if e.fromA then s.a else s.b, e.cfg, e.length, e.now, e.sent); }
  }

  lemma {:induction false} RunTicks(s: Sys, events: seq<Event>, t: Sys, atA: bool)
    requires PeerOk(s.a) && PeerOk(s.b) && Deaf(events, atA) && Run(s, events) == Some(t)
    ensures if atA then SameTicks(s.a.ch, t.a.ch) else SameTicks(s.b.ch, t.b.ch)
    decreases |events|
  {
    hide PeerOk, Next;
    if events != [] {
      var e := events[0];
      assert e in events && Deaf([e], atA);
      StepOk(s, e);
      StepTicks(s, e, atA);
      RunTicks(Next(s, e), events[1..], t, atA);
    }
  }

  /** Whatever a side queues, reads and transmits, if it receives nothing it times out
      exactly when the ticks it had at the last reception are too old. */
  lemma SilenceTimesOut(s: Sys, events: seq<Event>, t: Sys, now: int, timeout: int)
    requires PeerOk(s.a) && PeerOk(s.b) && Run(s, events) == Some(t)
    ensures Deaf(events, true) && !s.a.ch.arq.Off? ==>
              (CheckTimeouts(t.a.ch, now, timeout).arq.Off? <==>
               TicksSince(now, s.a.ch.lastTx) > timeout || TicksSince(now, s.a.ch.lastRx) > timeout)
    ensures Deaf(events, false) && !s.b.ch.arq.Off? ==>
              (CheckTimeouts(t.b.ch, now, timeout).arq.Off? <==>
               TicksSince(now, s.b.ch.lastTx) > timeout || TicksSince(now, s.b.ch.lastRx) > timeout)
  {
    hide PeerOk, Run, Deaf, TicksSince;
    if Deaf(events, true) { RunTicks(s, events, t, true); }
    if Deaf(events, false) { RunTicks(s, events, t, false); }
  }

  // ------------------------------------------------------------------- what is reported

  /** Queueing reports the first reason to refuse a payload, and otherwise the number the
      packet will carry. */
  lemma PushReports(c: Channel, payload: Bytes, room: bool)
    requires ChannelOk(c)
    ensures var (d, ret) := PushPacket(c, payload, room);
            && (ret == SKY_RET_TOO_LONG_PAYLOAD <==> |payload| > SKY_PAYLOAD_MAX_LEN)
            && (ret == SKY_RET_RING_RING_FULL <==>
                |payload| <= SKY_PAYLOAD_MAX_LEN && |c.snd.data| == c.snd.length - 1)
            && (ret == SKY_RET_EBUFFER_NO_SPACE <==>
                |payload| <= SKY_PAYLOAD_MAX_LEN && |c.snd.data| < c.snd.length - 1 && !room)
            && (ret < 0 ==> d == c)
            && (ret >= 0 ==>
                  d.snd.data == c.snd.data + [payload] &&
                  Peek(d.snd.(tx := c.snd.head, resend := []), true) == (|payload|, ret as byte))
  {
  }

  /** Reading reports an empty ring, a packet too long for the reader, which stays, or hands over
      the packet that has waited longest. */
  lemma ReadReports(c: Channel, max: nat)
    requires ChannelOk(c)
    ensures var (d, ret, p) := ReadPacket(c, max);
            && (ret == SKY_RET_RING_EMPTY <==> c.rcv.tail == c.rcv.head)
            && (ret == SKY_RET_EBUFFER_TOO_LONG_PAYLOAD <==>
                c.rcv.tail < c.rcv.head && |c.rcv.held[c.rcv.tail]| > max)
            && (ret == SKY_RET_OK <==> c.rcv.tail < c.rcv.head && |c.rcv.held[c.rcv.tail]| <= max)
            && (ret == SKY_RET_OK ==> p == c.rcv.held[c.rcv.tail] && d.rcv.held == c.rcv.held - {c.rcv.tail})
            && (ret != SKY_RET_OK ==> d == c)
  {
    hide Advance;
  }

  /** An acknowledgement is accepted if and only if it is the number of a packet sent and not
      acknowledged, or of the one to be sent next. */
  lemma AckReports(s: SendState, ack: byte)
    requires SendOk(s)
    ensures var (t, ret) := CleanTail(s, ack);
            && (ret >= 0 <==> exists n :: s.tail <= n <= s.tx && Seq8(s.origin, n) == ack)
            && (ret < 0 ==> ret == SKY_RET_RING_INVALID_ACKNOWLEDGE && t == s)
            && (ret >= 0 ==> t.tail == s.tail + ret)
  {
    hide Seq8, Sub8;
    var n := s.tail + Sub8(ack, Seq8(s.origin, s.tail));
    assert Seq8(s.origin, n) == ack by { RecalledSequence(s, ack); }
    if exists n :: s.tail <= n <= s.tx && Seq8(s.origin, n) == ack {
      var k :| s.tail <= k <= s.tx && Seq8(s.origin, k) == ack;
      SequenceDistance(s.origin, s.tail, k);
    }
  }

  /** The counter of unconfirmed packets is a 16-bit one. */
  lemma CounterWidth(x: int)
    requires -0x8000 <= x <= 0x7fff
    ensures -0x8000 <= Increment16(x) <= 0x7fff && (Increment16(x) - (x + 1)) % 0x1_0000 == 0
  {
  }

  /** What becomes of packet n when it reaches a receiver that may have it or not: it is kept
      exactly if it lies in the horizon, is not there yet and finds room. */
  ghost predicate Taken(r: RcvState, f: Frame, n: nat, room: bool) {
    RcvOk(r) &&
    (PayloadLength(f) > 0 && f.sequence.Some? ==>
       var (t, ret) := RcvPush(r, f.payload.value, f.sequence.value, room);
       && (ret == SKY_RET_RING_INVALID_SEQUENCE <==> n < r.head || n > r.head + r.horizon)
       && (ret == SKY_RET_RING_PACKET_ALREADY_IN <==> r.head <= n <= r.head + r.horizon && n in r.held)
       && (ret == SKY_RET_EBUFFER_NO_SPACE <==> r.head <= n <= r.head + r.horizon && n !in r.held && !room)
       && t.held == (if ret >= 0 then r.held[n := f.payload.value] else r.held)
       && (ret >= 0 ==> t.head == r.head + ret))
  }

  lemma FlightTaken(f: Flight, r: RcvState, pushed: seq<Bytes>, window: nat, room: bool)
    requires RcvOk(r) && r.origin == 0 && FlightOk(f, r, pushed, window) && window + r.horizon <= 256
    ensures Taken(r, f.frame, f.stamp.number, room)
  {
    hide Advance, Seq8, Sub8;
    if PayloadLength(f.frame) > 0 {
      var q := f.frame.sequence.value;
      var diff := Sub8(q, Seq8(0, r.head));
      if diff <= r.horizon {
        NoAlias(f, r, pushed, window);
      } else if r.head <= f.stamp.number <= r.head + r.horizon {
        Distance(r.head, f.stamp.number);
      }
    }
  }

  /** In every run, in both directions of a common session. */
  lemma PacketsTaken(start: Sys, s: Sys, i: nat, room: bool)
    requires Reachable(start, s) && s.b.ch.arq.On? && s.a.epoch == s.b.epoch
    ensures Fits(s.a, s.b) && i < |s.ab| && s.ab[i].stamp.epoch == s.b.epoch ==>
              Taken(s.b.ch.rcv, s.ab[i].frame, s.ab[i].stamp.number, room)
    ensures Fits(s.b, s.a) && s.a.ch.arq.On? && i < |s.ba| && s.ba[i].stamp.epoch == s.a.epoch ==>
              Taken(s.a.ch.rcv, s.ba[i].frame, s.ba[i].stamp.number, room)
  {
    hide Reachable, Swap32, Openings, LinkOk, Source, Taken, FlightOk;
    ReachableInv(start, s);
    var e := s.b.epoch;
    if Fits(s.a, s.b) && i < |s.ab| && s.ab[i].stamp.epoch == e {
      FlightTaken(s.ab[i], s.b.ch.rcv, s.a.pushed[e], s.a.ch.snd.length, room);
    }
    if Fits(s.b, s.a) && s.a.ch.arq.On? && i < |s.ba| && s.ba[i].stamp.epoch == e {
      FlightTaken(s.ba[i], s.a.ch.rcv, s.b.pushed[e], s.b.ch.snd.length, room);
    }
  }

  /** A frame is reported as malformed if and only if it brings a payload without a number to
      a channel that is connected once the handshake has been seen. */
  lemma MalformedExact(c: Channel, f: Frame, now: int, room: bool)
    requires ChannelOk(c)
    ensures var (d, ret) := ProcessFrame(c, f, now, room);
            && (ret == 0 || ret == -1)
            && (ret == -1 <==> AfterHandshake(c, f, now).arq.On? && PayloadLength(f) > 0 && f.sequence.None?)
            && (ret == -1 ==> d.rcv == AfterHandshake(c, f, now).rcv)
  {
    hide RcvPush, HandleControl, HandleData, HandleRequest, AfterHandshake;
  }
}
