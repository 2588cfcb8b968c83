/** What the handshakes in the air and the pending answers say about a session, in every run
    (src/reliable_vc.c:438-450, 516-570).

    The responder only ever answers, so an initiator that is ON has nothing to answer.  And
    openings come first on their link, so that a responder which has one before it has
    received nothing but openings yet. */
module Handshakes {
  import opened Base
  import opened RingSpec
  import opened ChannelSpec
  import opened Session

  /** The frame holds nothing but an opening, or no handshake at all. */
  predicate OpensOnly(f: Frame) {
    f.handshake.Some? ==> f.handshake.value.peerState == ARQ_STATE_IN_INIT && Bare(f)
  }

  predicate AnswersOnly(f: Frame) {
    f.handshake.Some? ==> f.handshake.value.peerState == ARQ_STATE_ON
  }

  predicate Before(f: Flight, opening: Flight) {
    f.stamp.epoch == opening.stamp.epoch && opening.frame.handshake.Some?
  }

  /** The frames before an opening of the same session hold nothing but openings. */
  ghost predicate OpeningsFirst(link: seq<Flight>) {
    forall i, j :: 0 <= i < j < |link| && Before(link[i], link[j]) ==> Bare(link[i].frame)
  }

  /** `a` may still open the session of `b`, or an opening of it is still in the air. */
  ghost predicate OpeningLeft(s: Sys) {
    || (s.a.ch.arq.InInit? && s.a.epoch == s.b.epoch)
    || exists f :: f in s.ab && f.stamp.epoch == s.b.epoch && f.frame.handshake.Some?
  }

  /** A send ring with an answer pending: if the first resend is out of reach, there is
      room for another packet. */
  ghost predicate Answerable(s: SendState) {
    s.tx < s.length && (s.tail == 0 ==> forall q :: q in s.resend ==> CanRecall(s, q))
  }

  ghost predicate Calls(s: Sys) {
    && (forall f :: f in s.ab ==> OpensOnly(f.frame))
    && OpeningsFirst(s.ab)
    && (s.a.ch.arq.InInit? ==> forall f :: f in s.ab && f.stamp.epoch == s.a.epoch ==> Bare(f.frame))
  }

  ghost predicate Answers(s: Sys) {
    && (forall f :: f in s.ba ==> AnswersOnly(f.frame))
    && (s.a.ch.arq.On? ==> s.a.ch.handshakeSend == 0)
    && s.b.ch.handshakeSend <= 1
    && (s.b.ch.arq.On? && OpeningLeft(s) ==> s.b.ch.snd.tail == 0 && s.b.ch.snd.resend == [])
    && (s.b.ch.arq.On? && s.b.ch.handshakeSend > 0 ==> Answerable(s.b.ch.snd))
  }

  // ------------------------------------------------------------------------- channels

  lemma KeepsNoAnswer(c: Channel, f: Frame, now: int, room: bool)
    requires ChannelOk(c)
    ensures ProcessOn(c, f, now, room).0.handshakeSend == c.handshakeSend
  {
    hide RcvPush, CleanTail, SyncStatus, ScheduleByMask;
  }

  /** What a connected peer says about handshakes. */
  lemma OnSends(p: Peer, cfg: ArqConfig, length: nat, now: int, sent: nat)
    requires PeerOk(p) && p.ch.arq.On?
    ensures var (q, out) := PeerSend(p, cfg, length, now, sent);
            && q.ch.handshakeSend == (if p.ch.handshakeSend > 0 then p.ch.handshakeSend - 1 else 0)
            && (p.ch.snd.resend == [] ==> q.ch.snd.resend == [])
            && forall f :: f in out ==>
                 && AnswersOnly(f.frame)
                 && (f.frame.handshake.Some? <==> p.ch.handshakeSend > 0)
  {
    hide Bitmap, TicksSince, CanRecall, Swap32, Seq8;
  }

  /** An opening frame does nothing to the rings of a peer that knows the session. */
  lemma BareKnown(c: Channel, f: Frame, now: int, room: bool)
    requires ChannelOk(c) && c.arq.On? && Bare(f) && !Adopts(c, f)
    ensures var d := ProcessFrame(c, f, now, room).0; d.arq.On? && d.snd == c.snd && d.rcv == c.rcv
    ensures f.handshake.None? ==> ProcessFrame(c, f, now, room).0 == c
    ensures f.handshake.Some? ==>
              ProcessFrame(c, f, now, room).0 ==
              c.(handshakeSend := if f.handshake.value.peerState == ARQ_STATE_IN_INIT then 1 else 0)
  {
  }

  /** A frame without a handshake leaves the pending answer possible. */
  lemma KeepsAnswerable(c: Channel, f: Frame, now: int, room: bool)
    requires ChannelOk(c) && Answerable(c.snd)
    ensures Answerable(ProcessOn(c, f, now, room).0.snd)
  {
    hide RcvPush, SyncStatus, CanRecall, ScheduleByMask, CleanTail;
    var c1 := if f.ctrl.Some? then HandleControl(c, f.ctrl.value, now) else c;
    if f.ctrl.Some? { CleanAnswerable(c.snd, f.ctrl.value.rx); }
    if f.request.Some? { RequestAnswerable(c1.snd, f.request.value.sequence, f.request.value.mask); }
  }

  lemma CleanAnswerable(s: SendState, ack: byte)
    requires SendOk(s) && Answerable(s)
    ensures Answerable(CleanTail(s, ack).0)
  {
    var t := CleanTail(s, ack).0;
    if t.tail == 0 {
      assert t == s by { assert s.data[0..] == s.data; }
    }
  }

  lemma RequestAnswerable(s: SendState, sequence: byte, mask: seq<bool>)
    requires Answerable(s)
    ensures Answerable(ScheduleByMask(s, sequence, mask).0)
  {
    hide ScheduleFromBit;
    var (t, ret) := ScheduleResend(s, sequence);
    BitsAnswerable(t, (sequence + 1) % 256, mask, 0);
  }

  lemma {:induction false} BitsAnswerable(s: SendState, sequence: byte, mask: seq<bool>, i: nat)
    requires Answerable(s) && i <= |mask|
    ensures Answerable(ScheduleFromBit(s, sequence, mask, i).0)
    decreases |mask| - i
  {
    if i < |mask| {
      var t := if mask[i] then s else ScheduleResend(s, sequence).0;
      BitsAnswerable(t, (sequence + 1) % 256, mask, i + 1);
    }
  }

  // ---------------------------------------------------------------------------- steps

  lemma SendFromA(s: Sys, cfg: ArqConfig, length: nat, now: int, sent: nat)
    requires Inv(s) && Calls(s) && Answers(s)
    ensures var t := Next(s, Send(true, cfg, length, now, sent)); Calls(t) && Answers(t)
  {
    hide PeerSend, Links, FlowToA, FlowToB, Describes, ChannelOk, Swap32, Answerable;
    var (q, out) := PeerSend(s.a, cfg, length, now, sent);
    if s.a.ch.arq.Off? {
      SendOffEffect(s.a, cfg, length, now, sent);
    } else {
      SendEffect(s.a, cfg, length, now, sent);
      if s.a.ch.arq.On? { OnSends(s.a, cfg, length, now, sent); } else { InitSends(s.a, cfg, length, now, sent); }
    }
  }

  lemma InitSends(p: Peer, cfg: ArqConfig, length: nat, now: int, sent: nat)
    requires PeerOk(p) && p.ch.arq.InInit?
    ensures forall f :: f in PeerSend(p, cfg, length, now, sent).1 ==> OpensOnly(f.frame)
  {
    hide Swap32;
  }

  lemma SendFromB(s: Sys, cfg: ArqConfig, length: nat, now: int, sent: nat)
    requires Inv(s) && Calls(s) && Answers(s)
    ensures var t := Next(s, Send(false, cfg, length, now, sent)); Calls(t) && Answers(t)
  {
    hide PeerSend, Links, FlowToA, FlowToB, Describes, ChannelOk, Swap32, Answerable;
    if s.b.ch.arq.Off? {
      SendOffEffect(s.b, cfg, length, now, sent);
    } else {
      SendEffect(s.b, cfg, length, now, sent);
      OnSends(s.b, cfg, length, now, sent);
    }
  }

  lemma DeliverToA(s: Sys, now: int, room: bool)
    requires Inv(s) && Calls(s) && Answers(s) && s.ba != []
    ensures var t := Next(s, Deliver(false, now, room)); Calls(t) && Answers(t)
  {
    hide Links, FlowToA, FlowToB, ChannelOk, Swap32, Answerable, ProcessOn;
    var f := s.ba[0].frame;
    assert s.ba[0] in s.ba;
    if s.a.ch.arq.Off? {
      NoHandshakeOutside(s);
    } else {
      NothingAdopted(s);
      var d := AfterHandshake(s.a.ch, f, now);
      if d.arq.On? {
        KeepsNoAnswer(d, f, now, room);
        ProcessOnEffect(d, f, now, room);
      }
    }
  }

  lemma NoHandshakeOutside(s: Sys)
    requires Inv(s) && s.ba != [] && s.a.ch.arq.Off?
    ensures s.ba[0].frame.handshake.None?
  {
    hide FlowToA, FlowToB, Swap32, Openings;
    LinkTail(s.ba, 0, s.b.epoch, s.ids, false);
  }

  /** The first frame for `b`: what it holds if it is of a later session, or if an opening of
      the session of `b` is left behind it. */
  lemma FirstForB(s: Sys)
    requires Inv(s) && Calls(s) && s.ab != []
    ensures s.b.epoch <= s.ab[0].stamp.epoch && (s.b.epoch < s.ab[0].stamp.epoch ==> Bare(s.ab[0].frame))
    ensures Adopts(s.b.ch, s.ab[0].frame) <==>
              s.ab[0].frame.handshake.Some? && s.b.epoch < s.ab[0].stamp.epoch
    ensures !s.b.ch.arq.InInit?
    ensures OpeningLeft(s.(ab := s.ab[1..])) ==> s.b.epoch < s.ab[0].stamp.epoch || Bare(s.ab[0].frame)
  {
    hide FlowToA, FlowToB, Swap32;
    LinkTail(s.ab, s.b.epoch, s.a.epoch, s.ids, true);
    assert s.ab[0] in s.ab;
    if 0 < s.b.epoch {
      SwapIsInvolution(s.ids[s.b.epoch - 1]);
      SwapIsInvolution(s.ids[s.ab[0].stamp.epoch - 1]);
    }
  }

  lemma DeliverToB(s: Sys, now: int, room: bool)
    requires Inv(s) && Calls(s) && Answers(s) && s.ab != [] && PeerOk(s.a) && PeerOk(s.b)
    ensures var t := Next(s, Deliver(true, now, room)); Calls(t) && Answers(t)
  {
    hide Inv, ProcessFrame, PeerOk, Adopts, Answerable;
    var t := Next(s, Deliver(true, now, room));
    assert s.ab[0] in s.ab;
    FirstForB(s);
    assert Calls(t) by { hide OpeningLeft, Answers; }
    if Adopts(s.b.ch, s.ab[0].frame) {
      AdoptAnswers(s.b, s.ab[0], now, room);
    } else {
      KnownAnswers(s.b, s.ab[0], now, room);
    }
  }

  lemma AdoptAnswers(p: Peer, f: Flight, now: int, room: bool)
    requires PeerOk(p) && Adopts(p.ch, f.frame) && Bare(f.frame)
    ensures var c := PeerReceive(p, f, now, room).ch;
            c.handshakeSend == 1 && c.snd.tail == 0 && c.snd.resend == [] && Answerable(c.snd)
  {
    hide ProcessFrame;
    BareAdopted(p.ch, f.frame, now, room);
  }

  lemma KnownAnswers(p: Peer, f: Flight, now: int, room: bool)
    requires PeerOk(p) && !Adopts(p.ch, f.frame) && OpensOnly(f.frame) && p.ch.handshakeSend <= 1
    requires !p.ch.arq.InInit?
    requires p.ch.arq.On? && f.frame.handshake.Some? ==> p.ch.snd.tail == 0 && p.ch.snd.resend == []
    requires p.ch.arq.On? && p.ch.handshakeSend > 0 ==> Answerable(p.ch.snd)
    ensures var q := PeerReceive(p, f, now, room);
            && q.epoch == p.epoch && q.ch.handshakeSend <= 1
            && (p.ch.arq.On? <==> q.ch.arq.On?)
            && (p.ch.arq.On? && Bare(f.frame) ==> q.ch.snd == p.ch.snd)
            && (q.ch.arq.On? && q.ch.handshakeSend > 0 ==> Answerable(q.ch.snd))
  {
    hide ProcessOn, CanRecall;
    if p.ch.arq.On? {
      if Bare(f.frame) {
        BareKnown(p.ch, f.frame, now, room);
      } else {
        ProcessOnEffect(p.ch, f.frame, now, room);
        KeepsNoAnswer(p.ch, f.frame, now, room);
        if p.ch.handshakeSend > 0 { KeepsAnswerable(p.ch, f.frame, now, room); }
      }
    }
  }

  /** The application queues or reads a payload. */
  lemma Uses(s: Sys, e: Event)
    requires Calls(s) && Answers(s) && PeerOk(s.a) && PeerOk(s.b) && (e.Push? || e.Read?)
    ensures Calls(Next(s, e)) && Answers(Next(s, e))
  {
    hide ChannelOk, RcvRead, OpensOnly, AnswersOnly, OpeningsFirst, Sub8, Seq8;
  }

  lemma Loses(s: Sys, toB: bool, i: nat)
    requires Calls(s) && Answers(s) && PeerOk(s.a) && PeerOk(s.b) && Enabled(s, Lose(toB, i))
    ensures var t := Next(s, Lose(toB, i)); Calls(t) && Answers(t)
  {
    hide PeerOk, OpensOnly, AnswersOnly, Bare, Before, Answerable;
  }

  lemma Connects(s: Sys, now: int, id: uint32)
    requires Inv(s) && Calls(s) && Answers(s) && Enabled(s, Connect(now, id)) && PeerOk(s.a) && PeerOk(s.b)
    ensures var t := Next(s, Connect(now, id)); Calls(t) && Answers(t)
  {
    hide PeerOk, FlowToA, FlowToB, Openings, Swap32, Answerable, Bare;
  }

  lemma StepHands(s: Sys, e: Event)
    requires Inv(s) && Calls(s) && Answers(s) && Enabled(s, e) && PeerOk(s.a) && PeerOk(s.b)
    ensures Calls(Next(s, e)) && Answers(Next(s, e))
  {
    hide Inv, Next, PeerOk, Calls, Answers;
    match e
    case Connect(now, id) => Connects(s, now, id);
    case Send(fromA, cfg, length, now, sent) =>
      if fromA { SendFromA(s, cfg, length, now, sent); } else { SendFromB(s, cfg, length, now, sent); }
    case Deliver(toB, now, room) =>
      if toB { DeliverToB(s, now, room); } else { DeliverToA(s, now, room); }
    case Lose(toB, i) => Loses(s, toB, i);
    case _ => Uses(s, e);
  }

  lemma {:induction false} RunHands(s: Sys, events: seq<Event>)
    requires Inv(s) && Calls(s) && Answers(s) && PeerOk(s.a) && PeerOk(s.b)
    ensures Run(s, events).Some? ==> var t := Run(s, events).value; Calls(t) && Answers(t)
    decreases |events|
  {
    hide Inv, Next, PeerOk, Calls, Answers;
    if events != [] && Enabled(s, events[0]) {
      StepOk(s, events[0]);
      StepKeeps(s, events[0]);
      StepHands(s, events[0]);
      RunHands(Next(s, events[0]), events[1..]);
    }
  }

  /** In every run. */
  lemma HandshakeOrder(start: Sys, s: Sys)
    requires Reachable(start, s)
    ensures Calls(s) && Answers(s)
  {
    hide Inv, Next;
    var events :| Run(start, events) == Some(s);
    StartInv(start);
    RunHands(start, events);
  }
}
