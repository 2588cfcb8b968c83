/** One side leaves the session by itself: sky_vc_arq_disconnect or a timeout wipes it to
    the OFF state (src/reliable_vc.c:94-110, 156-179) without telling the other. */
module Quitting {
  import opened Base
  import opened RingSpec
  import opened ChannelSpec
  import opened Session
  import opened Aliasing
  import opened Handshakes

  /** The responder quits.  Session 0 is again the time outside sessions. */
  function QuitB(s: Sys): Sys {
    s.(b := Peer(WipeToOff(s.b.ch), 0, s.b.pushed[0 := []], []))
  }

  /** The initiator quits. */
  function QuitA(s: Sys): Sys {
    Flip(QuitB(Flip(s)))
  }

  lemma QuitOk(p: Peer)
    requires PeerOk(p)
    ensures ChannelOk(WipeToOff(p.ch))
  {
  }

  // -------------------------------------------------------------- when order survives

  ghost predicate NoHandshakes(link: seq<Flight>) {
    forall f :: f in link ==> f.frame.handshake.None?
  }

  /** A frame that means nothing to a connected peer. */
  predicate Meaningless(f: Frame) {
    f.handshake.None? && f.request.None? && f.ctrl.None? && f.sequence.None?
  }

  /** A handshake that only repeats what the peer knows. */
  predicate Known(f: Frame, session: uint32) {
    f.handshake.Some? ==> f.handshake.value == Handshake(ARQ_STATE_ON, session)
  }

  /** `a` is left alone in session e, `b` is OFF, and no handshake is on the way to it. */
  ghost predicate Alone(s: Sys, e: nat) {
    && PeerOk(s.a) && PeerOk(s.b)
    && s.a.ch.arq.On? && s.a.epoch == e > 0 && s.a.ch.handshakeSend == 0
    && s.b.ch.arq.Off? && s.b.epoch == 0 && e in s.b.pushed
    && NoHandshakes(s.ab)
    && (forall f :: f in s.ba ==> Known(f.frame, s.a.ch.session))
    && (forall f :: f in s.ba ==> f.stamp.epoch == e || Meaningless(f.frame))
    && (Fits(s.b, s.a) ==> Sink(e, s.a.ch.rcv, s.b.pushed[e], s.a.got, s.ba, s.b.ch.snd.length))
  }

  lemma AloneInOrder(s: Sys, e: nat)
    requires Alone(s, e)
    ensures InOrder(s.b, s.a) && (Fits(s.b, s.a) ==> InOrder(s.a, s.b))
  {
  }

  lemma AlonePush(s: Sys, e: nat, atA: bool, payload: Bytes, room: bool)
    requires Alone(s, e)
    ensures Alone(Next(s, Push(atA, payload, room)), e)
  {
    hide Sink;
  }

  lemma AloneRead(s: Sys, e: nat, atA: bool, max: nat)
    requires Alone(s, e)
    ensures Alone(Next(s, Read(atA, max)), e)
  {
    hide Sink, RcvRead;
    if atA && Fits(s.b, s.a) {
      SinkRead(e, s.a.ch.rcv, s.b.pushed[e], s.a.got, s.ba, s.b.ch.snd.length, max);
    }
  }

  lemma AloneSendA(s: Sys, e: nat, cfg: ArqConfig, length: nat, now: int, sent: nat)
    requires Alone(s, e)
    ensures Alone(Next(s, Send(true, cfg, length, now, sent)), e)
  {
    hide Sink, PeerSend, Describes, ChannelOk;
    SendEffect(s.a, cfg, length, now, sent);
    OnSends(s.a, cfg, length, now, sent);
  }

  lemma AloneSendB(s: Sys, e: nat, cfg: ArqConfig, length: nat, now: int, sent: nat)
    requires Alone(s, e)
    ensures Alone(Next(s, Send(false, cfg, length, now, sent)), e)
  {
    hide Sink, PeerSend, ChannelOk;
    SendOffEffect(s.b, cfg, length, now, sent);
    OffFrames(s.b, cfg, length, now, sent);
    var out := PeerSend(s.b, cfg, length, now, sent).1;
    if Fits(s.b, s.a) {
      SinkOther(e, s.a.ch.rcv, s.b.pushed[e], s.a.got, s.ba, s.b.ch.snd.length, out);
    }
  }

  lemma OffFrames(p: Peer, cfg: ArqConfig, length: nat, now: int, sent: nat)
    requires PeerOk(p) && p.ch.arq.Off?
    ensures forall f :: f in PeerSend(p, cfg, length, now, sent).1 ==> Meaningless(f.frame)
  {
    hide CleanTail, Seq8;
  }

  lemma AloneDeliverB(s: Sys, e: nat, now: int, room: bool)
    requires Alone(s, e) && s.ab != []
    ensures Alone(Next(s, Deliver(true, now, room)), e)
  {
    hide Sink, RcvPush;
    assert s.ab[0] in s.ab;
    assert s.ab[0].frame.handshake.None?;
  }

  lemma AloneDeliverA(s: Sys, e: nat, now: int, room: bool)
    requires Alone(s, e) && s.ba != []
    ensures Alone(Next(s, Deliver(false, now, room)), e)
  {
    hide Sink, ProcessOn, Thinned, RcvPush, SendOk, RcvOk;
    var f, c := s.ba[0], s.a.ch;
    assert f in s.ba;
    assert AfterHandshake(c, f.frame, now) == c;
    ProcessOnEffect(c, f.frame, now, room);
    KeepsNoAnswer(c, f.frame, now, room);
    ThinnedTail(s.ba);
    if Fits(s.b, s.a) {
      SinkThinned(e, c.rcv, s.b.pushed[e], s.a.got, s.ba, s.b.ch.snd.length, s.ba[1..]);
      if PayloadLength(f.frame) > 0 && f.stamp.epoch == e {
        SinkSequence(e, c.rcv, s.b.pushed[e], s.a.got, s.ba, s.b.ch.snd.length);
        SinkReceive(e, c.rcv, s.b.pushed[e], s.a.got, s.ba, s.b.ch.snd.length, room);
      }
    }
  }

  lemma AloneLose(s: Sys, e: nat, toB: bool, i: nat)
    requires Alone(s, e) && Enabled(s, Lose(toB, i))
    ensures Alone(Next(s, Lose(toB, i)), e)
  {
    hide Sink, Thinned;
    if !toB {
      ThinnedWithout(s.ba, i);
      if Fits(s.b, s.a) {
        SinkThinned(e, s.a.ch.rcv, s.b.pushed[e], s.a.got, s.ba, s.b.ch.snd.length, Without(s.ba, i));
      }
    }
  }

  lemma AloneStep(s: Sys, e: nat, ev: Event)
    requires Alone(s, e) && Enabled(s, ev) && !ev.Connect? && PeerOk(s.a) && PeerOk(s.b)
    ensures Alone(Next(s, ev), e)
  {
    hide Alone, Next, PeerOk;
    match ev
    case Push(atA, payload, room) => AlonePush(s, e, atA, payload, room);
    case Read(atA, max) => AloneRead(s, e, atA, max);
    case Send(fromA, cfg, length, now, sent) =>
      if fromA { AloneSendA(s, e, cfg, length, now, sent); } else { AloneSendB(s, e, cfg, length, now, sent); }
    case Deliver(toB, now, room) =>
      if toB { AloneDeliverB(s, e, now, room); } else { AloneDeliverA(s, e, now, room); }
    case Lose(toB, i) => AloneLose(s, e, toB, i);
  }

  lemma {:induction false} AloneRun(s: Sys, e: nat, events: seq<Event>)
    requires Alone(s, e) && PeerOk(s.a) && PeerOk(s.b) && Talk(events)
    ensures Run(s, events).Some? ==> Alone(Run(s, events).value, e)
    decreases |events|
  {
    hide Alone, Next, PeerOk;
    if events != [] && Enabled(s, events[0]) {
      assert events[0] in events;
      StepOk(s, events[0]);
      AloneStep(s, e, events[0]);
      AloneRun(Next(s, events[0]), e, events[1..]);
    }
  }

  lemma AloneReaches(s: Sys, e: nat, t: Sys)
    requires Alone(s, e) && Reaches(s, t)
    ensures Alone(t, e)
  {
    hide Alone, Run, PeerOk;
    var events :| Talk(events) && Run(s, events) == Some(t);
    AloneRun(s, e, events);
  }

  lemma LeavesAlone(s: Sys)
    requires Inv(s) && Calls(s) && Answers(s) && 0 < s.b.epoch == s.a.epoch && NoHandshakes(s.ab)
    ensures s.a.ch.arq.On? ==> Alone(QuitB(s), s.a.epoch)
    ensures NoHandshakes(s.ba) && s.b.ch.handshakeSend == 0 ==> Alone(Flip(QuitA(s)), s.b.epoch)
  {
    hide Sink, Source, Swap32, Openings, Bare, OpeningLeft, Answerable, ChannelOk;
    QuitOk(s.a);
    QuitOk(s.b);
  }

  /** If one side quits and no handshake can reach it any more, order survives in every run
      up to the next connect: the one that is left has read, and will read, a prefix of what
      was queued for it.  Answers of a responder that quits do no harm. */
  lemma QuitSurvives(start: Sys, s: Sys, t: Sys)
    requires Reachable(start, s) && 0 < s.b.epoch == s.a.epoch && NoHandshakes(s.ab)
    ensures s.a.ch.arq.On? && Reaches(QuitB(s), t) ==>
              InOrder(t.b, t.a) && (Fits(t.b, t.a) ==> InOrder(t.a, t.b))
    ensures NoHandshakes(s.ba) && s.b.ch.handshakeSend == 0 && Reaches(QuitA(s), t) ==>
              InOrder(t.a, t.b) && (Fits(t.a, t.b) ==> InOrder(t.b, t.a))
  {
    hide Reachable, Reaches, Inv, Alone, InOrder, QuitB, QuitA, Fits, NoHandshakes, Calls, Answers;
    ReachableInv(start, s);
    HandshakeOrder(start, s);
    LeavesAlone(s);
    if s.a.ch.arq.On? && Reaches(QuitB(s), t) {
      AloneReaches(QuitB(s), s.a.epoch, t);
      AloneInOrder(t, s.a.epoch);
    }
    if NoHandshakes(s.ba) && s.b.ch.handshakeSend == 0 && Reaches(QuitA(s), t) {
      FlipReaches(QuitA(s), t);
      AloneReaches(Flip(QuitA(s)), s.b.epoch, Flip(t));
      AloneInOrder(Flip(t), s.b.epoch);
    }
  }

  // ------------------------------------------------------------------ and when it fails

  /** A connected peer with nothing to send again. */
  ghost predicate Talking(p: Peer) {
    PeerOk(p) && p.ch.arq.On? && p.ch.snd.origin == 0 && p.ch.rcv.origin == 0 && p.ch.snd.resend == []
  }

  /** A frame with the packet that the sender is at. */
  lemma SendNext(p: Peer) returns (q: Peer, f: Flight)
    requires Talking(p) && p.ch.snd.tx < p.ch.snd.head
    ensures PeerSend(p, CFG, HEADER_LENGTH, 0, 1) == (q, [f])
    ensures Talking(q) && q == p.(ch := q.ch) && q.ch.rcv == p.ch.rcv && q.ch.session == p.ch.session
    ensures q.ch.snd == p.ch.snd.(tx := p.ch.snd.tx + 1)
    ensures f.frame.sequence == Some(Seq8(0, p.ch.snd.tx))
    ensures f.frame.payload == Some(p.ch.snd.data[p.ch.snd.tx - p.ch.snd.tail])
    ensures f.frame.request.None? && f.frame.ctrl == Some(Control(Seq8(0, p.ch.snd.tx), Seq8(0, p.ch.rcv.head)))
    ensures Known(f.frame, Swap32(p.ch.session))
  {
    hide Bitmap, TicksSince, Seq8, Swap32;
    var s := p.ch.snd;
    assert s.data[s.tx - s.tail] in s.data;
    q, f := PeerSend(p, CFG, HEADER_LENGTH, 0, 1).0, PeerSend(p, CFG, HEADER_LENGTH, 0, 1).1[0];
  }

  /** It is received by a peer that has sent nothing itself. */
  lemma TakeNext(p: Peer, f: Flight, q: byte, payload: Bytes)
    requires Talking(p) && p.ch.snd == SendEmpty(p.ch.snd.length, 0)
    requires f.frame.sequence == Some(q) && f.frame.payload == Some(payload) && payload != []
    requires f.frame.request.None? && f.frame.ctrl.Some? && f.frame.ctrl.value.rx == 0 && Known(f.frame, p.ch.session)
    ensures var r := PeerReceive(p, f, 0, true);
            && Talking(r) && r == p.(ch := r.ch) && r.ch.snd == p.ch.snd && r.ch.session == p.ch.session
            && r.ch.rcv == RcvPush(p.ch.rcv, payload, q, true).0
  {
    hide RcvPush;
    var d := AfterHandshake(p.ch, f.frame, 0);
    assert CleanTail(d.snd, 0).0 == d.snd;
  }

  const OPENING := EMPTY_FRAME.(handshake := Some(Handshake(ARQ_STATE_IN_INIT, Swap32(1))))

  /** `a` has read exactly what it got, and has sent nothing. */
  ghost predicate Listening(p: Peer, n: nat) {
    && Talking(p) && p.epoch == 1 && p.ch.session == 1 && p.ch.snd == SendEmpty(p.ch.snd.length, 0)
    && p.ch.rcv == RcvState(p.ch.rcv.length, p.ch.rcv.horizon, 0, n, n, map[])
  }

  /** `b` has sent the payloads it queued and has received nothing. */
  ghost predicate Speaking(p: Peer, sent: seq<Bytes>) {
    && Talking(p) && p.epoch == 1 && p.ch.session == Swap32(1) && p.pushed[1] == sent
    && p.ch.snd == SendState(p.ch.snd.length, 0, 0, |sent|, |sent|, sent, [])
    && p.ch.rcv == RcvEmpty(p.ch.rcv.length, p.ch.rcv.horizon, 0)
  }

  /** A session is opened while a second copy of the opening is still in the air. */
  lemma OpenedTwice(start: Sys) returns (s0: Sys, s: Sys)
    requires Start(start)
    ensures s0 == Next(start, Connect(0, 1)) && Reaches(s0, s)
    ensures Listening(s.a, 0) && s.a.got == [] && Speaking(s.b, []) && s.ba == []
    ensures |s.ab| == 1 && s.ab[0].frame == OPENING && s.ab[0].stamp.epoch == 1
  {
    hide Reaches, TicksSince, Swap32;
    s0 := Next(start, Connect(0, 1));
    StepOk(start, Connect(0, 1));
    ReachSelf(s0);
    var s1 := OpeningSent(s0, s0);
    var s2 := OpeningSent(s0, s1);
    var s3 := ReachStep(s0, s2, Deliver(true, 0, true));
    s := AnsweredOnce(start, s0, s3);
  }

  lemma OpeningSent(s0: Sys, s: Sys) returns (t: Sys)
    requires Reaches(s0, s) && PeerOk(s.a) && PeerOk(s.b) && s.a.ch.arq.InInit? && s.a.ch.session == 1 && s.a.epoch == 1
    ensures Reaches(s0, t) && PeerOk(t.a) && PeerOk(t.b) && |t.ab| == |s.ab| + 1 && t == s.(ab := t.ab)
    ensures t.ab[..|s.ab|] == s.ab && t.ab[|s.ab|].frame == OPENING && t.ab[|s.ab|].stamp.epoch == 1
  {
    hide Reaches, TicksSince, Swap32, PeerOk;
    t := ReachStep(s0, s, Send(true, CFG, HEADER_LENGTH, 0, 0));
  }

  lemma AnsweredOnce(start: Sys, s0: Sys, s3: Sys) returns (s: Sys)
    requires Start(start) && Reaches(s0, s3) && PeerOk(s3.a) && PeerOk(s3.b)
    requires s3.a.ch == WipeToInit(start.a.ch, 0, 1) && s3.a.epoch == 1 && s3.a.got == []
    requires s3.b.ch == WipeToOn(start.b.ch, Swap32(1), 0) && s3.b.epoch == 1 && s3.b.pushed[1] == []
    requires |s3.ab| == 1 && s3.ab[0].frame == OPENING && s3.ab[0].stamp.epoch == 1 && s3.ba == []
    ensures Reaches(s0, s)
    ensures Listening(s.a, 0) && s.a.got == [] && Speaking(s.b, []) && s.ba == [] && s.ab == s3.ab
  {
    hide Reaches, TicksSince, Swap32;
    SwapIsInvolution(1);
    assert TicksSince(0, 0) == 0 by { TicksZero(); }
    var s4 := ReachStep(s0, s3, Send(false, CFG, HEADER_LENGTH, 0, 0));
    assert s4.ba[0].frame == EMPTY_FRAME.(handshake := Some(Handshake(ARQ_STATE_ON, 1)));
    s := ReachStep(s0, s4, Deliver(false, 0, true));
  }

  /** `b` queues and sends one payload. */
  lemma Speak(s0: Sys, s: Sys, sent: seq<Bytes>, x: Bytes) returns (t: Sys, f: Flight)
    requires Reaches(s0, s) && Speaking(s.b, sent) && PeerOk(s.a) && |sent| < 3 && 0 < |x| <= SKY_PAYLOAD_MAX_LEN
    ensures Reaches(s0, t) && t == s.(b := t.b, ba := s.ba + [f]) && Speaking(t.b, sent + [x])
    ensures f.frame.sequence == Some(Seq8(0, |sent|)) && f.frame.payload == Some(x)
    ensures f.frame.request.None? && f.frame.ctrl.Some? && f.frame.ctrl.value.rx == 0 && Known(f.frame, 1)
  {
    hide Reaches, PeerSend, Swap32, Seq8;
    SwapIsInvolution(1);
    var u := ReachStep(s0, s, Push(false, x, true));
    assert u.b.ch.snd == SendState(s.b.ch.snd.length, 0, 0, |sent|, |sent| + 1, sent + [x], []);
    var q;
    q, f := SendNext(u.b);
    assert Seq8(0, 0) == 0 by { FirstSequence(0); }
    t := ReachStep(s0, u, Send(false, CFG, HEADER_LENGTH, 0, 1));
  }

  /** The packet `a` is waiting for arrives and is read. */
  lemma Hear(s0: Sys, s: Sys, n: nat, x: Bytes) returns (t: Sys)
    requires Reaches(s0, s) && Listening(s.a, n) && PeerOk(s.b) && n < 200
    requires s.ba != [] && s.ba[0].frame.sequence == Some(Seq8(0, n)) && s.ba[0].frame.payload == Some(x)
    requires 0 < |x| <= SKY_PAYLOAD_MAX_LEN && Known(s.ba[0].frame, 1)
    requires s.ba[0].frame.request.None? && s.ba[0].frame.ctrl.Some? && s.ba[0].frame.ctrl.value.rx == 0
    ensures Reaches(s0, t) && t == s.(a := t.a, ba := s.ba[1..]) && Listening(t.a, n + 1) && t.a.got == s.a.got + [x]
  {
    hide Reaches, PeerReceive;
    TakeNext(s.a, s.ba[0], Seq8(0, n), x);
    var u := ReachStep(s0, s, Deliver(false, 0, true));
    OneArrives(s.a.ch.rcv, n, x);
    t := ReachStep(s0, u, Read(true, SKY_PAYLOAD_MAX_LEN));
    assert t.a.ch.rcv.held == map[];
  }

  lemma OneArrives(r: RcvState, n: nat, x: Bytes)
    requires RcvOk(r) && r == RcvState(r.length, r.horizon, 0, n, n, map[])
    ensures RcvPush(r, x, Seq8(0, n), true).0 == r.(head := n + 1, held := map[n := x])
  {
    var r1 := r.(held := map[n := x]);
    var r2 := r1.(head := n + 1);
    SequenceDistance(0, n, n);
    assert r.held[n := x] == map[n := x];
    assert Advance(r2) == r2;
    assert Advance(r1) == Advance(r2);
  }

  /** A packet from before the one `a` is waiting for is refused. */
  lemma Refuse(s0: Sys, s: Sys, x: Bytes) returns (t: Sys)
    requires Reaches(s0, s) && Listening(s.a, 1) && PeerOk(s.b)
    requires s.ba != [] && s.ba[0].frame.sequence == Some(Seq8(0, 0)) && s.ba[0].frame.payload == Some(x)
    requires x != [] && Known(s.ba[0].frame, 1)
    requires s.ba[0].frame.request.None? && s.ba[0].frame.ctrl.Some? && s.ba[0].frame.ctrl.value.rx == 0
    ensures Reaches(s0, t) && t == s.(a := t.a, ba := s.ba[1..]) && Listening(t.a, 1) && t.a.got == s.a.got
  {
    hide Reaches, PeerReceive;
    TakeNext(s.a, s.ba[0], Seq8(0, 0), x);
    t := ReachStep(s0, s, Deliver(false, 0, true));
  }

  /** The responder quits and the second copy of the opening takes it back into the session. */
  lemma ReEnter(s: Sys) returns (t: Sys)
    requires PeerOk(s.a) && Speaking(s.b, [[1]]) && |s.ab| == 1 && s.ab[0].frame == OPENING && s.ab[0].stamp.epoch == 1
    ensures Reaches(QuitB(s), t) && t == s.(b := t.b, ab := []) && Speaking(t.b, [])
  {
    hide Reaches, Swap32;
    var u := QuitB(s);
    ReachSelf(u);
    t := ReachStep(u, u, Deliver(true, 0, true));
    assert t.ab == [];
  }

  /** With a handshake still in the air it does fail, from every start state: the responder
      has queued [1], quits, is taken back into the same session with empty rings, and queues
      [2] and [3]; the initiator reads [1] and then [3]. */
  lemma QuitBreaksOrder(start: Sys) returns (s: Sys, t: Sys)
    requires Start(start)
    ensures Reachable(start, s) && Reaches(QuitB(s), t)
    ensures s.b.epoch == t.b.epoch == t.a.epoch == 1 && s.b.ch.session == t.b.ch.session && t.a.ch.arq.On?
    ensures 1 in s.b.pushed && s.b.pushed[1] == [[1]] && 1 in t.b.pushed && t.b.pushed[1] == [[2], [3]]
    ensures t.a.got == [[1], [3]]
  {
    hide Reaches, Reachable, Speaking, Listening, QuitB, Next, Known, PeerOk, ChannelOk, Start;
    var s0, s1 := OpenedTwice(start);
    SpeakingOk(s1.b, []);
    ListeningOk(s1.a, 0);
    var s2, f1 := Speak(s0, s1, [], [1]);
    assert s2.ba == [f1];
    SpeakingOk(s2.b, [] + [[1]]);
    s := Hear(s0, s2, 0, [1]);
    assert [] + [[1]] == [[1]];
    ReachesReachable(start, s);
    ListeningOk(s.a, 1);
    var t1 := ReEnter(s);
    t := AfterReEntry(QuitB(s), t1);
    SpeakingOk(s.b, [[1]]);
    SpeakingOk(t.b, [[2], [3]]);
    ListeningOk(t.a, 2);
  }

  lemma AfterReEntry(u: Sys, t1: Sys) returns (t: Sys)
    requires Reaches(u, t1) && Listening(t1.a, 1) && t1.a.got == [[1]] && Speaking(t1.b, []) && t1.ba == []
    ensures Reaches(u, t) && Listening(t.a, 2) && t.a.got == [[1], [3]] && Speaking(t.b, [[2], [3]])
  {
    hide Reaches, Speaking, Listening, Known;
    ListeningOk(t1.a, 1);
    var t2, f2 := Speak(u, t1, [], [2]);
    var t3, f3 := Speak(u, t2, [] + [[2]], [3]);
    assert t3.ba == [f2, f3] && [] + [[2]] + [[3]] == [[2], [3]];
    SpeakingOk(t3.b, [[2], [3]]);
    var t4 := Refuse(u, t3, [2]);
    assert t4.ba == [f3];
    t := Hear(u, t4, 1, [3]);
  }

  lemma SpeakingOk(p: Peer, sent: seq<Bytes>)
    requires Speaking(p, sent)
    ensures PeerOk(p) && p.epoch == 1 && 1 in p.pushed && p.pushed[1] == sent && p.ch.session == Swap32(1)
  {
  }

  lemma ListeningOk(p: Peer, n: nat)
    requires Listening(p, n)
    ensures PeerOk(p) && p.epoch == 1 && p.ch.arq.On?
  {
  }
}
