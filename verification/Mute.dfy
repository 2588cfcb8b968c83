/** When filling a frame fails (src/reliable_vc.c:470-508).

    If the first scheduled resend has been acknowledged meanwhile and nothing new is
    queued, peek reports an empty ring, sky_vc_fill_frame returns that error after it has
    already consumed the pending handshake answer, request and control, and the stale
    entry stays where it is.  So the channel is mute from then on: no packets, no
    acknowledgements, no requests and no handshake answers, until the application queues
    another payload or another session begins. */
module Muteness {
  import opened Base
  import opened RingSpec
  import opened ChannelSpec
  import opened Frames
  import opened Session
  import opened Aliasing

  /** Something is scheduled, nothing is new, and the first resend is out of reach. */
  ghost predicate Mute(c: Channel) {
    && c.arq.On? && c.snd.tx == c.snd.head
    && c.snd.resend != [] && !CanRecall(c.snd, c.snd.resend[0])
  }

  // --------------------------------------------------------------------- filling fails

  /** Filling a frame fails if and only if the channel is mute, and it stays so. */
  lemma FillFailsIffMute(c: Channel, cfg: ArqConfig, length: nat, now: int, sent: nat)
    requires ChannelOk(c) && length <= MAX_START
    ensures var f := FillFrame(c, cfg, length, now, sent);
            && (f.ret < 0 <==> Mute(c))
            && (Mute(c) ==>
                  && f.ret == SKY_RET_RING_EMPTY && Mute(f.channel)
                  && f.channel.snd == c.snd && f.channel.rcv == c.rcv)
  {
    hide Bitmap, Seq8, Swap32, TicksSince, CleanTail, RcvOk, SendOk, RecallPosition;
    PayloadFits(c, c.snd);
    PeekFails(c.snd);
  }

  /** Yet it has spent what it was about to announce. */
  lemma MuteSpends(c: Channel, cfg: ArqConfig, length: nat, now: int, sent: nat)
    requires ChannelOk(c) && Mute(c)
    ensures var d := FillFrame(c, cfg, length, now, sent).channel;
            && d.unconfirmed == 0 && d.lastCtrl == now
            && d.handshakeSend == (if c.handshakeSend > 0 then c.handshakeSend - 1 else 0)
            && (sent < cfg.idleFramesPerWindow ==> !d.needRecall)
  {
    hide Bitmap, Seq8, Swap32, TicksSince, RcvOk, SendOk, RecallPosition;
    PeekFails(c.snd);
  }

  lemma PeekFails(s: SendState)
    requires SendOk(s)
    ensures CountToSend(s, true) > 0 ==>
              (Peek(s, true).0 < 0 <==> s.tx == s.head && s.resend != [] && !CanRecall(s, s.resend[0]))
    ensures Peek(s, true).0 < 0 ==> Peek(s, true).0 == SKY_RET_RING_EMPTY
  {
    hide Seq8, RecallPosition;
  }

  // ------------------------------------------------------------ nothing received helps

  /** An acknowledgement does not bring a number back into reach. */
  lemma TailKeepsMute(s: SendState, ack: byte)
    requires SendOk(s) && s.tx == s.head && s.resend != [] && !CanRecall(s, s.resend[0])
    ensures var t := CleanTail(s, ack).0;
            t.tx == t.head && t.resend == s.resend && !CanRecall(t, t.resend[0])
  {
    var t := CleanTail(s, ack).0;
    assert s.tail <= t.tail <= s.tx <= RecallPosition(s, s.resend[0]);
    SameNumber(s.origin, s.resend[0], s.tail, t.tail);
  }

  /** As long as the tail does not pass it, a number denotes the same position. */
  lemma SameNumber(origin: byte, q: byte, low: nat, high: nat)
    requires low <= high <= low + Sub8(q, Seq8(origin, low))
    ensures high + Sub8(q, Seq8(origin, high)) == low + Sub8(q, Seq8(origin, low))
  {
  }

  /** A request only adds numbers behind the first. */
  lemma RequestKeepsFirst(s: SendState, sequence: byte, mask: seq<bool>)
    ensures s.resend <= ScheduleByMask(s, sequence, mask).0.resend
  {
    hide CanRecall, ScheduleFromBit;
    var (t, ret) := ScheduleResend(s, sequence);
    BitsAppend(t, (sequence + 1) % 256, mask, 0);
  }

  lemma {:induction false} BitsAppend(s: SendState, sequence: byte, mask: seq<bool>, i: nat)
    requires i <= |mask|
    ensures s.resend <= ScheduleFromBit(s, sequence, mask, i).0.resend
    decreases |mask| - i
  {
    hide CanRecall;
    if i < |mask| {
      var t := if mask[i] then s else ScheduleResend(s, sequence).0;
      BitsAppend(t, (sequence + 1) % 256, mask, i + 1);
    }
  }

  /** No frame of the session ends it. */
  lemma ProcessKeepsMute(c: Channel, f: Frame, now: int, room: bool)
    requires ChannelOk(c) && Mute(c) && !Adopts(c, f)
    ensures Mute(ProcessFrame(c, f, now, room).0)
  {
    hide CanRecall, ScheduleByMask, CleanTail, RcvPush, SyncStatus, SendOk, RcvOk;
    var d := AfterHandshake(c, f, now);
    if f.ctrl.Some? {
      TailKeepsMute(d.snd, f.ctrl.value.rx);
    }
    var e := if f.ctrl.Some? then HandleControl(d, f.ctrl.value, now) else d;
    if f.request.Some? {
      RequestKeepsFirst(e.snd, f.request.value.sequence, f.request.value.mask);
    }
    SameRecall(e.snd, ProcessFrame(c, f, now, room).0.snd);
  }

  lemma SameRecall(s: SendState, t: SendState)
    requires t == s.(resend := t.resend) && s.resend != [] && s.resend <= t.resend
    ensures CanRecall(t, t.resend[0]) <==> CanRecall(s, s.resend[0])
  {
  }

  // ------------------------------------------------------------------------- whole runs

  /** The application of this side queues nothing and nobody connects. */
  ghost predicate Idle(events: seq<Event>, atA: bool) {
    forall e :: e in events ==> IdleEvent(e, atA)
  }

  predicate IdleEvent(e: Event, atA: bool) {
    match e
    case Connect(_, _) => false
    case Push(side, _, _) => side != atA
    case Send(side, _, length, _, _) => side == atA ==> length <= MAX_START
    case _ => true
  }

  /** The peer is mute, and no frame of its own joined the link. */
  ghost predicate Silent(p: Peer, before: seq<Flight>, after: seq<Flight>) {
    Mute(p.ch) && forall f :: f in after ==> f in before
  }

  lemma MuteSend(p: Peer, cfg: ArqConfig, length: nat, now: int, sent: nat)
    requires PeerOk(p) && Mute(p.ch) && length <= MAX_START
    ensures var (q, out) := PeerSend(p, cfg, length, now, sent); Mute(q.ch) && out == []
  {
    hide Mute, FillFrame;
    FillFailsIffMute(p.ch, cfg, length, now, sent);
  }

  lemma MuteRead(p: Peer, max: nat)
    requires PeerOk(p) && Mute(p.ch)
    ensures Mute(PeerRead(p, max).ch)
  {
    hide CanRecall, RcvRead;
  }

  lemma MuteReceive(p: Peer, f: Flight, now: int, room: bool)
    requires PeerOk(p) && Mute(p.ch) && !Adopts(p.ch, f.frame)
    ensures Mute(PeerReceive(p, f, now, room).ch)
  {
    hide Mute, ProcessFrame, Adopts;
    ProcessKeepsMute(p.ch, f.frame, now, room);
  }

  /** One step of an idle run, on the initiator's side ... */
  lemma StepSilentA(s: Sys, e: Event)
    requires PeerOk(s.a) && PeerOk(s.b) && Enabled(s, e) && IdleEvent(e, true) && Mute(s.a.ch)
    requires s.ba != [] ==> !Adopts(s.a.ch, s.ba[0].frame)
    ensures Silent(Next(s, e).a, s.ab, Next(s, e).ab)
  {
    hide Mute, PeerOk, PeerPush, PeerRead, PeerSend, PeerReceive, Adopts;
    match e
    case Push(_, _, _) =>
    case Read(atA, max) => if atA { MuteRead(s.a, max); }
    case Send(fromA, cfg, length, now, sent) => if fromA { MuteSend(s.a, cfg, length, now, sent); }
    case Deliver(toB, now, room) => if !toB { MuteReceive(s.a, s.ba[0], now, room); }
    case Lose(_, _) =>
  }

  /** ... and on the responder's. */
  lemma StepSilentB(s: Sys, e: Event)
    requires PeerOk(s.a) && PeerOk(s.b) && Enabled(s, e) && IdleEvent(e, false) && Mute(s.b.ch)
    requires s.ab != [] ==> !Adopts(s.b.ch, s.ab[0].frame)
    ensures Silent(Next(s, e).b, s.ba, Next(s, e).ba)
  {
    hide Mute, PeerOk, PeerPush, PeerRead, PeerSend, PeerReceive, Adopts;
    match e
    case Push(_, _, _) =>
    case Read(atA, max) => if !atA { MuteRead(s.b, max); }
    case Send(fromA, cfg, length, now, sent) => if !fromA { MuteSend(s.b, cfg, length, now, sent); }
    case Deliver(toB, now, room) => if toB { MuteReceive(s.b, s.ab[0], now, room); }
    case Lose(_, _) =>
  }

  /** From a mute state on, however long the run, nothing more of that side goes on the air
      until its application queues a payload or a connection is started. */
  lemma SilentForever(start: Sys, s: Sys, events: seq<Event>, t: Sys)
    requires Reachable(start, s) && PeerOk(s.a) && PeerOk(s.b) && Run(s, events) == Some(t)
    ensures Mute(s.a.ch) && Idle(events, true) ==> Silent(t.a, s.ab, t.ab)
    ensures Mute(s.b.ch) && s.a.epoch == s.b.epoch && Idle(events, false) ==> Silent(t.b, s.ba, t.ba)
  {
    hide Reachable, Inv, Run, PeerOk, Mute, Silent, Idle;
    ReachableInv(start, s);
    if Mute(s.a.ch) && Idle(events, true) { RunSilentA(s, events, t); }
    if Mute(s.b.ch) && s.a.epoch == s.b.epoch && Idle(events, false) { RunSilentB(s, events, t); }
  }

  /** A mute channel is in a session. */
  lemma MuteInSession(s: Sys)
    requires Inv(s)
    ensures Mute(s.a.ch) ==> 0 < s.a.epoch
    ensures Mute(s.b.ch) ==> 0 < s.b.epoch
  {
    hide Swap32, Openings, LinkOk, FlowToA, FlowToB, CanRecall;
  }

  lemma {:induction false} RunSilentA(s: Sys, events: seq<Event>, t: Sys)
    requires Inv(s) && PeerOk(s.a) && PeerOk(s.b) && Run(s, events) == Some(t)
    requires Mute(s.a.ch) && Idle(events, true)
    ensures Silent(t.a, s.ab, t.ab)
    decreases |events|
  {
    hide Inv, Next, PeerOk, Mute, Adopts, IdleEvent;
    if events != [] {
      assert events[0] in events;
      var u := Next(s, events[0]);
      StepOk(s, events[0]);
      StepKeeps(s, events[0]);
      MuteInSession(s);
      NothingAdopted(s);
      StepSilentA(s, events[0]);
      RunSilentA(u, events[1..], t);
    }
  }

  lemma {:induction false} RunSilentB(s: Sys, events: seq<Event>, t: Sys)
    requires Inv(s) && PeerOk(s.a) && PeerOk(s.b) && Run(s, events) == Some(t)
    requires Mute(s.b.ch) && s.a.epoch == s.b.epoch && Idle(events, false)
    ensures Silent(t.b, s.ba, t.ba)
    decreases |events|
  {
    hide Inv, Next, PeerOk, Mute, Adopts, IdleEvent;
    if events != [] {
      assert events[0] in events;
      var e, u := events[0], Next(s, events[0]);
      StepOk(s, e);
      StepKeeps(s, e);
      MuteInSession(s);
      NothingAdopted(s);
      StepSilentB(s, e);
      assert u.a.epoch == u.b.epoch by {
        assert !e.Connect? by { NoConnect(e, false); }
        StepPersists(s, e);
      }
      RunSilentB(u, events[1..], t);
    }
  }

  lemma NoConnect(e: Event, atA: bool)
    requires IdleEvent(e, atA)
    ensures !e.Connect?
  {
  }

  /** One accepted payload ends it. */
  lemma PushUnmutes(c: Channel, payload: Bytes, room: bool)
    requires ChannelOk(c)
    ensures var (d, ret) := PushPacket(c, payload, room); ret >= 0 ==> !Mute(d)
  {
  }

  // ------------------------------------------------------------ a packet never arrives

  /** The receiver in a common session still waits for a packet that has been sent. */
  ghost predicate Lacks(receiver: Peer, sender: Peer) {
    && receiver.epoch == sender.epoch && receiver.ch.arq.On?
    && receiver.ch.rcv.head !in receiver.ch.rcv.held && receiver.ch.rcv.head < sender.ch.snd.tx
  }

  /** The same head, and what it waits for has not come. */
  ghost predicate Waits(p: Peer, q: Peer) {
    q.ch.rcv.head == p.ch.rcv.head && (p.ch.rcv.head !in p.ch.rcv.held ==> q.ch.rcv.head !in q.ch.rcv.held)
  }

  lemma ReadWaits(p: Peer, max: nat)
    requires PeerOk(p) && p.ch.rcv.head !in p.ch.rcv.held
    ensures Waits(p, PeerRead(p, max))
  {
  }

  lemma SendWaits(p: Peer, cfg: ArqConfig, length: nat, now: int, sent: nat)
    requires PeerOk(p)
    ensures Waits(p, PeerSend(p, cfg, length, now, sent).0)
  {
    hide PeerSend, Describes, ChannelOk;
    if p.ch.arq.Off? { SendOffEffect(p, cfg, length, now, sent); } else { SendEffect(p, cfg, length, now, sent); }
  }

  /** A step in which nothing reaches the peer and nobody connects. */
  lemma StepWaits(s: Sys, e: Event)
    requires PeerOk(s.a) && PeerOk(s.b) && Enabled(s, e) && !e.Connect?
    ensures s.ab == [] && s.b.ch.rcv.head !in s.b.ch.rcv.held ==> Waits(s.b, Next(s, e).b)
    ensures s.ba == [] && s.a.ch.rcv.head !in s.a.ch.rcv.held ==> Waits(s.a, Next(s, e).a)
  {
    hide PeerOk, PeerRead, PeerSend, PeerReceive;
    match e
    case Read(atA, max) =>
      var p := if atA then s.a else s.b;
      if p.ch.rcv.head !in p.ch.rcv.held { ReadWaits(p, max); }
    case Send(fromA, cfg, length, now, sent) => SendWaits(if fromA then s.a else s.b, cfg, length, now, sent);
    case _ =>
  }

  lemma {:induction false} RunWaitsB(s: Sys, events: seq<Event>, t: Sys)
    requires Inv(s) && PeerOk(s.a) && PeerOk(s.b) && Run(s, events) == Some(t)
    requires Mute(s.a.ch) && s.ab == [] && Idle(events, true) && s.b.ch.rcv.head !in s.b.ch.rcv.held
    ensures Waits(s.b, t.b)
    decreases |events|
  {
    hide Inv, Next, PeerOk, Mute, Adopts, IdleEvent;
    if events != [] {
      var e := events[0];
      assert e in events && !e.Connect? by { NoConnect(e, true); }
      StepOk(s, e);
      StepKeeps(s, e);
      MuteInSession(s);
      NothingAdopted(s);
      StepSilentA(s, e);
      StepWaits(s, e);
      assert Next(s, e).ab == [] by { FirstIn(Next(s, e).ab); }
      RunWaitsB(Next(s, e), events[1..], t);
    }
  }

  lemma FirstIn(link: seq<Flight>)
    ensures link != [] ==> link[0] in link
  {
  }

  lemma {:induction false} RunWaitsA(s: Sys, events: seq<Event>, t: Sys)
    requires Inv(s) && PeerOk(s.a) && PeerOk(s.b) && Run(s, events) == Some(t)
    requires Mute(s.b.ch) && s.a.epoch == s.b.epoch && s.ba == [] && Idle(events, false)
    requires s.a.ch.rcv.head !in s.a.ch.rcv.held
    ensures Waits(s.a, t.a)
    decreases |events|
  {
    hide Inv, Next, PeerOk, Mute, Adopts, IdleEvent;
    if events != [] {
      var e := events[0];
      assert e in events && !e.Connect? by { NoConnect(e, false); }
      StepOk(s, e);
      StepKeeps(s, e);
      MuteInSession(s);
      NothingAdopted(s);
      StepSilentB(s, e);
      StepWaits(s, e);
      assert Next(s, e).ba == [] by { FirstIn(Next(s, e).ba); }
      assert Next(s, e).a.epoch == Next(s, e).b.epoch by { StepPersists(s, e); }
      RunWaitsA(Next(s, e), events[1..], t);
    }
  }

  /** What the peer of a mute side lacks when the air is empty never arrives, however long
      the run, until that side's application queues a payload or a connection is started. */
  lemma NeverArrives(start: Sys, s: Sys, events: seq<Event>, t: Sys)
    requires Reachable(start, s) && PeerOk(s.a) && PeerOk(s.b) && Run(s, events) == Some(t)
    ensures Mute(s.a.ch) && s.ab == [] && Lacks(s.b, s.a) && Idle(events, true) ==>
              t.b.ch.rcv.head == s.b.ch.rcv.head && Lacks(t.b, t.a)
    ensures Mute(s.b.ch) && s.ba == [] && Lacks(s.a, s.b) && Idle(events, false) ==>
              t.a.ch.rcv.head == s.a.ch.rcv.head && Lacks(t.a, t.b)
  {
    hide Reachable, Inv, Run, PeerOk, Mute, IdleEvent;
    ReachableInv(start, s);
    if Mute(s.a.ch) && s.ab == [] && Lacks(s.b, s.a) && Idle(events, true) {
      RunWaitsB(s, events, t);
      LackingPersists(start, s, events, t, true);
    }
    if Mute(s.b.ch) && s.ba == [] && Lacks(s.a, s.b) && Idle(events, false) {
      RunWaitsA(s, events, t);
      LackingPersists(start, s, events, t, false);
    }
  }

  lemma LackingPersists(start: Sys, s: Sys, events: seq<Event>, t: Sys, atA: bool)
    requires Reachable(start, s) && PeerOk(s.a) && PeerOk(s.b) && Run(s, events) == Some(t)
    requires s.a.epoch == s.b.epoch && (s.a.ch.arq.On? || s.b.ch.arq.On?) && Idle(events, atA)
    ensures KeepsSession(s.a, t.a) && KeepsSession(s.b, t.b)
  {
    hide Reachable, Inv, Run, PeerOk, IdleEvent, KeepsSession;
    ReachableInv(start, s);
    InSession(s);
    forall e | e in events ensures !e.Connect? { NoConnect(e, atA); }
    SessionPersists(start, s, events, t);
  }

  lemma InSession(s: Sys)
    requires Inv(s) && s.a.epoch == s.b.epoch && (s.a.ch.arq.On? || s.b.ch.arq.On?)
    ensures 0 < s.a.epoch
  {
    hide Swap32, Links, FlowToA, FlowToB, PeerOk;
  }

  // --------------------------------------------------------------------- it does happen

  /** Packets 0 and 2 are lost and asked for.  When 0 is sent again, the list forgets 2
      instead of 0, and the acknowledgement of 0 and 1 puts 0 out of reach. */
  lemma StaleResend(s: Sys) returns (t: Sys)
    requires Stream(s, 0, 0, map[]) && s.ba == [] && s.a.ch.snd.resend == [] && s.b.ch.rcv.horizon > 0
    requires s.b.ch.unconfirmed == 0
    ensures Reaches(s, t) && Mute(t.a.ch) && t.ab == [] && Lacks(t.b, t.a)
  {
    hide Reaches, PeerReceive, PeerSend, Sender, Lacks, Mute, RcvOk, SendOk;
    var s1 := FirstLost(s);
    SenderOk(s1.a, 2, 0);
    var s2, _ := OneSent(s1, 2, 0);
    SenderOk(s2.a, 3, 0);
    ReachTrans(s, s1, s2);
    var s3 := ReachStep(s, s2, Lose(true, 0));
    assert s3.ab == [];
    t := AskedAndForgotten(s, s3);
  }

  lemma AskedAndForgotten(s: Sys, u: Sys) returns (t: Sys)
    requires Reaches(s, u) && Sender(u.a, 3, 0) && u.a.ch.snd.resend == [] && u.ab == [] && u.ba == []
    requires Calm(u.b) && u.b.ch.snd == SendEmpty(u.b.ch.snd.length, 0) && u.b.epoch == 1
    requires u.b.ch.rcv.horizon > 0 && u.b.ch.unconfirmed == 1
    requires u.b.ch.rcv == RcvState(u.b.ch.rcv.length, u.b.ch.rcv.horizon, 0, 0, 0, map[1 := PACKET])
    ensures Reaches(s, t) && Mute(t.a.ch) && t.ab == [] && Lacks(t.b, t.a)
  {
    hide Reaches, PeerReceive, PeerSend, Asking, Acking, ScheduleByMask, Mute;
    var b1, f := Ask(u.b);
    var s1 := ReachStep(s, u, Send(false, CFG, HEADER_LENGTH, 0, 0));
    assert s1.ba == [f];
    TakeRequest(s1.a, f, 0, Bitmap(u.b.ch.rcv));
    ZeroAndTwo(s1.a.ch.snd, u.b.ch.rcv);
    var s2 := ReachStep(s, s1, Deliver(false, 0, true));
    assert s2.ba == [] && forall p :: p in s2.a.ch.snd.data ==> p == PACKET;
    t := ZeroAgain(s, s2);
  }

  lemma ZeroAgain(s: Sys, u: Sys) returns (t: Sys)
    requires Reaches(s, u) && Calm(u.a) && u.a.epoch == 1 && u.a.ch.rcv.head == 0 && u.ab == [] && u.ba == []
    requires u.a.ch.snd.tail == 0 && u.a.ch.snd.tx == u.a.ch.snd.head == 3 && u.a.ch.snd.resend == [0, 2]
    requires AllPackets(u.a.ch.snd.data)
    requires Calm(u.b) && u.b.ch.snd == SendEmpty(u.b.ch.snd.length, 0) && u.b.epoch == 1
    requires 0 <= u.b.ch.unconfirmed <= 1
    requires u.b.ch.rcv == RcvState(u.b.ch.rcv.length, u.b.ch.rcv.horizon, 0, 0, 0, map[1 := PACKET])
    ensures Reaches(s, t) && Mute(t.a.ch) && t.ab == [] && Lacks(t.b, t.a)
  {
    hide Reaches, PeerSend, Mute, RcvOk;
    assert u.a.ch.snd.data[0] in u.a.ch.snd.data;
    var a, g := SendPacket(u.a);
    var v := ReachStep(s, u, Send(true, CFG, HEADER_LENGTH, 0, 1));
    assert v.ab == [g] && v.a == a;
    t := Acknowledges(s, v, g);
  }

  lemma Acknowledges(s: Sys, u: Sys, g: Flight) returns (t: Sys)
    requires Reaches(s, u) && Calm(u.a) && u.a.epoch == 1 && u.ab == [g] && u.ba == []
    requires u.a.ch.snd.tail == 0 && u.a.ch.snd.tx == u.a.ch.snd.head == 3 && u.a.ch.snd.resend == [0]
    requires g.frame == DataFrame(0, 3, 0)
    requires Calm(u.b) && u.b.ch.snd == SendEmpty(u.b.ch.snd.length, 0) && u.b.epoch == 1
    requires 0 <= u.b.ch.unconfirmed <= 1
    requires u.b.ch.rcv == RcvState(u.b.ch.rcv.length, u.b.ch.rcv.horizon, 0, 0, 0, map[1 := PACKET])
    ensures Reaches(s, t) && Mute(t.a.ch) && t.ab == [] && Lacks(t.b, t.a)
  {
    hide Reaches, PeerReceive, PeerSend, Acking, Mute, RcvPush;
    TakePacket(u.b, g, 0, 3);
    GapClosed(u.b.ch.rcv);
    var v := ReachStep(s, u, Deliver(true, 0, true));
    assert v.ab == [];
    var b, f := SendAck(v.b);
    var w := ReachStep(s, v, Send(false, CFG, HEADER_LENGTH, 0, 0));
    assert w.ba == [f] && w.b == b;
    OutOfReach(w.a, f);
    t := ReachStep(s, w, Deliver(false, 0, true));
  }

  lemma ZeroAndTwo(snd: SendState, r: RcvState)
    requires SendOk(snd) && snd.origin == 0 && snd.tail == 0 && snd.tx == 3 && snd.resend == []
    requires r.head == 0 && r.held == map[1 := PACKET] && r.horizon > 0
    ensures ScheduleByMask(snd, 0, Bitmap(r)).0 == snd.(resend := [0, 2])
  {
    var m := Bitmap(r);
    assert m[0] && !m[1] && !m[2];
    var t, u := snd.(resend := [0]), snd.(resend := [0, 2]);
    assert snd.resend + [0] == [0] && [0] + [2] == [0, 2];
    assert ScheduleResend(snd, 0) == (t, SKY_RET_OK);
    assert ScheduleResend(t, 2) == (u, SKY_RET_OK);
    assert ScheduleResend(u, 3) == (u, SKY_RET_RING_CANNOT_RECALL);
    assert ScheduleFromBit(u, 3, m, 2) == (u, SKY_RET_RING_CANNOT_RECALL);
    assert ScheduleFromBit(t, 2, m, 1) == ScheduleFromBit(u, 3, m, 2);
    assert ScheduleFromBit(t, 1, m, 0) == ScheduleFromBit(t, 2, m, 1);
  }

  /** The acknowledgement of 0 and 1 while 0 is scheduled. */
  lemma OutOfReach(p: Peer, f: Flight)
    requires Calm(p) && Acking(f.frame, 2) && p.ch.snd.tail == 0 && p.ch.snd.tx == p.ch.snd.head == 3
    requires p.ch.snd.resend == [0]
    ensures var q := PeerReceive(p, f, 0, true); q == p.(ch := q.ch) && Mute(q.ch) && q.ch.snd.tx == 3
  {
    hide ScheduleByMask;
    var c := HandleControl(p.ch, f.frame.ctrl.value, 0);
    assert c.snd == p.ch.snd.(tail := 2, data := p.ch.snd.data[2..]);
    if f.frame.request.Some? {
      RequestKeepsFirst(c.snd, f.frame.request.value.sequence, f.frame.request.value.mask);
    }
  }

  /** From every start state a mute state is reachable on either side whose peer has a
      horizon, with a packet missing there. */
  lemma MuteReachable(start: Sys)
    requires Start(start)
    ensures start.b.ch.rcv.horizon > 0 ==>
              exists s :: Reachable(start, s) && Mute(s.a.ch) && s.ab == [] && Lacks(s.b, s.a)
    ensures start.a.ch.rcv.horizon > 0 ==>
              exists s :: Reachable(start, s) && Mute(s.b.ch) && s.ba == [] && Lacks(s.a, s.b)
  {
    hide Reaches, Stream, Reachable, Mute, Lacks;
    var s0, s1 := Connected(start);
    StreamOpen(s1, 0, 0, map[]);
    StreamOpen(Flip(s1), 0, 0, map[]);
    if start.b.ch.rcv.horizon > 0 {
      var t := StaleResend(s1);
      ReachTrans(s0, s1, t);
      ReachesReachable(start, t);
    }
    if start.a.ch.rcv.horizon > 0 {
      var t := StaleResend(Flip(s1));
      FlipReaches(Flip(s1), t);
      assert Flip(Flip(s1)) == s1;
      ReachTrans(s0, s1, Flip(t));
      ReachesReachable(start, Flip(t));
    }
  }
}
