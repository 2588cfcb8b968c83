/** Why a send ring of L slots and a receive horizon of H packets need L + H <= 256.

    With a longer pair there is a run, built step by step below, in which one lost
    frame and one late retransmit request make the receiving application read 257
    packets although only 256 were ever queued.  Together with
    Session.InOrderDelivery this makes L + H <= 256 the exact condition. */
module Aliasing {
  import opened Base
  import opened RingSpec
  import opened ChannelSpec
  import opened Session

  const CFG := ArqConfig(1, 1000)
  const HEADER_LENGTH := 20
  const PACKET: Bytes := [1]

  // ------------------------------------------------------------------ reachability

  /** A run from s to t in which nobody connects. */
  ghost predicate Reaches(s: Sys, t: Sys) {
    && PeerOk(s.a) && PeerOk(s.b)
    && exists events :: Talk(events) && Run(s, events) == Some(t)
  }

  ghost predicate Talk(events: seq<Event>) {
    forall e :: e in events ==> !e.Connect?
  }

  lemma ReachSelf(s: Sys)
    requires PeerOk(s.a) && PeerOk(s.b)
    ensures Reaches(s, s)
  {
    assert Run(s, []) == Some(s);
  }

  lemma {:induction false} RunAppend(s: Sys, xs: seq<Event>, ys: seq<Event>)
    requires PeerOk(s.a) && PeerOk(s.b) && Run(s, xs).Some?
    ensures PeerOk(Run(s, xs).value.a) && PeerOk(Run(s, xs).value.b)
    ensures Run(s, xs + ys) == Run(Run(s, xs).value, ys)
    decreases |xs|
  {
    hide Next, PeerOk;
    if xs == [] {
      assert xs + ys == ys;
    } else {
      StepOk(s, xs[0]);
      RunAppend(Next(s, xs[0]), xs[1..], ys);
      assert (xs + ys)[1..] == xs[1..] + ys;
    }
  }

  lemma ReachTrans(s: Sys, t: Sys, u: Sys)
    requires Reaches(s, t) && Reaches(t, u)
    ensures Reaches(s, u)
  {
    hide PeerOk, Run;
    var xs :| Talk(xs) && Run(s, xs) == Some(t);
    var ys :| Talk(ys) && Run(t, ys) == Some(u);
    RunAppend(s, xs, ys);
    assert Talk(xs + ys);
  }

  lemma ReachStep(s: Sys, t: Sys, e: Event) returns (u: Sys)
    requires Reaches(s, t) && PeerOk(t.a) && PeerOk(t.b) && Enabled(t, e) && !e.Connect?
    ensures u == Next(t, e) && Reaches(s, u) && PeerOk(u.a) && PeerOk(u.b)
  {
    hide PeerOk, Next;
    u := Next(t, e);
    StepOk(t, e);
    assert [e][1..] == [];
    assert Run(u, []) == Some(u);
    assert Talk([e]) && Run(t, [e]) == Some(u);
    ReachTrans(s, t, u);
  }

  /** The same system seen from the other side; only connecting tells them apart. */
  function Flip(s: Sys): Sys {
    Sys(s.b, s.a, s.ba, s.ab, s.ids)
  }

  function FlipEvent(e: Event): Event {
    match e
    case Connect(_, _) => e
    case Push(atA, p, room) => Push(!atA, p, room)
    case Read(atA, max) => Read(!atA, max)
    case Send(fromA, cfg, length, now, sent) => Send(!fromA, cfg, length, now, sent)
    case Deliver(toB, now, room) => Deliver(!toB, now, room)
    case Lose(toB, i) => Lose(!toB, i)
  }

  lemma {:induction false} FlipRun(s: Sys, events: seq<Event>) returns (flipped: seq<Event>)
    requires PeerOk(s.a) && PeerOk(s.b) && Talk(events) && Run(s, events).Some?
    ensures Talk(flipped) && Run(Flip(s), flipped) == Some(Flip(Run(s, events).value))
    decreases |events|
  {
    hide PeerOk, PeerSend, PeerReceive, PeerPush, PeerRead;
    if events == [] {
      flipped := [];
    } else {
      var e := events[0];
      StepOk(s, e);
      assert Next(Flip(s), FlipEvent(e)) == Flip(Next(s, e));
      var rest := FlipRun(Next(s, e), events[1..]);
      flipped := [FlipEvent(e)] + rest;
      assert flipped[1..] == rest;
    }
  }

  lemma FlipReaches(s: Sys, t: Sys)
    requires Reaches(s, t)
    ensures Reaches(Flip(s), Flip(t))
  {
    hide PeerOk, Run;
    var events :| Talk(events) && Run(s, events) == Some(t);
    var flipped := FlipRun(s, events);
  }

  // ------------------------------------------------------------- single peer steps

  /** The frame that carries packet n, sent when `tx` was the first unsent packet. */
  function DataFrame(n: nat, tx: nat, rx: nat): Frame {
    Frame(None, None, Some(Control(Seq8(0, tx), Seq8(0, rx))), Some(Seq8(0, n)), Some(PACKET))
  }

  /** A connected peer in the middle of a session, with no handshake to answer. */
  ghost predicate Calm(p: Peer) {
    && PeerOk(p) && p.ch.arq.On? && p.ch.handshakeSend == 0
    && p.ch.snd.origin == 0 && p.ch.rcv.origin == 0
  }

  lemma SendPacket(p: Peer) returns (q: Peer, f: Flight)
    requires Calm(p)
    requires var s := p.ch.snd; var n := NextNumber(s); n < s.head && s.data[n - s.tail] == PACKET
    ensures PeerSend(p, CFG, HEADER_LENGTH, 0, 1) == (q, [f])
    ensures var s := p.ch.snd; var n := NextNumber(s);
            && q == p.(ch := q.ch) && Calm(q) && q.ch.rcv == p.ch.rcv && q.ch.needRecall == p.ch.needRecall
            && q.ch.snd == s.(tx := if n == s.tx then n + 1 else s.tx,
                              resend := if s.resend == [] then [] else Popped(s.resend))
            && f.frame == DataFrame(n, s.tx, p.ch.rcv.head)
            && f.stamp.epoch == p.epoch
  {
    hide Bitmap, TicksSince;
    var s := p.ch.snd;
    var n := NextNumber(s);
    var fe := FillExtensions(p.ch, CFG, 0, 1);
    assert fe.frame == EMPTY_FRAME.(ctrl := Some(Control(Seq8(0, s.tx), Seq8(0, p.ch.rcv.head))));
    AddPayloadEffect(fe, HEADER_LENGTH);
    if s.resend != [] {
      RecalledSequence(s, s.resend[0]);
    }
    q, f := PeerSend(p, CFG, HEADER_LENGTH, 0, 1).0, PeerSend(p, CFG, HEADER_LENGTH, 0, 1).1[0];
  }

  /** A data frame that acknowledges nothing new reaches a connected peer. */
  lemma TakePacket(p: Peer, f: Flight, n: nat, tx: nat)
    requires Calm(p) && f.frame == DataFrame(n, tx, p.ch.snd.tail)
    ensures var q := PeerReceive(p, f, 0, true);
            && q == p.(ch := q.ch) && Calm(q)
            && q.ch.snd == p.ch.snd
            && q.ch.rcv == RcvPush(p.ch.rcv, PACKET, Seq8(0, n), true).0
            && q.ch.unconfirmed == Increment16(p.ch.unconfirmed)
  {
    hide RcvPush;
  }

  // ------------------------------------------------------------------ steady stream

  ghost predicate AllPackets(data: seq<Bytes>) {
    forall p :: p in data ==> p == PACKET
  }

  /** Retransmissions still on the list that no longer have any effect. */
  ghost predicate DeadResends(s: SendState) {
    forall q :: q in s.resend ==> RecallPosition(s, q) >= 256
  }

  /** n packets queued and sent, those from `low` on not acknowledged. */
  ghost predicate Sender(p: Peer, n: nat, low: nat) {
    && Calm(p) && p.epoch == 1
    && low <= n <= 256
    && p.ch.snd == SendState(p.ch.snd.length, 0, low, n, n, p.ch.snd.data, p.ch.snd.resend)
    && AllPackets(p.ch.snd.data) && DeadResends(p.ch.snd)
    && p.ch.rcv.head == 0
    && |p.pushed[1]| == n
  }

  /** n packets queued, sent, received and read.  The receiver may hold `junk` ahead of
      its head. */
  ghost predicate Stream(s: Sys, n: nat, low: nat, junk: map<nat, Bytes>) {
    && Sender(s.a, n, low)
    && Calm(s.b) && s.b.epoch == 1
    && s.b.ch.snd == SendEmpty(s.b.ch.snd.length, 0)
    && s.b.ch.rcv == RcvState(s.b.ch.rcv.length, s.b.ch.rcv.horizon, 0, n, n, junk)
    && |s.b.got| == n
    && s.ab == []
    && 0 <= s.b.ch.unconfirmed <= n + 2
  }

  ghost predicate SameShape(s: Sys, t: Sys) {
    && t.a.ch.snd.length == s.a.ch.snd.length
    && t.b.ch.rcv.length == s.b.ch.rcv.length && t.b.ch.rcv.horizon == s.b.ch.rcv.horizon
    && t.ba == s.ba
  }

  lemma PoppedWithin(list: seq<byte>)
    requires list != []
    ensures forall q :: q in Popped(list) ==> q in list
  {
  }

  /** One more packet is queued and sent. */
  lemma OneSent(s: Sys, n: nat, low: nat) returns (t: Sys, f: Flight)
    requires Sender(s.a, n, low) && PeerOk(s.b) && s.ab == [] && n < 256 && n + 1 < low + s.a.ch.snd.length
    ensures Reaches(s, t) && SameShape(s, t) && t.b == s.b && t.ab == [f]
    ensures f.frame == DataFrame(n, n, 0) && Sender(t.a, n + 1, low)
    ensures s.a.ch.snd.resend == [] ==> t.a.ch.snd.resend == []
  {
    hide Reaches, PeerSend, PeerReceive;
    ReachSelf(s);
    var u := ReachStep(s, s, Push(true, PACKET, true));
    assert u.a.ch.snd.resend == s.a.ch.snd.resend;
    if s.a.ch.snd.resend != [] {
      assert s.a.ch.snd.resend[0] in s.a.ch.snd.resend;
      PoppedWithin(u.a.ch.snd.resend);
    }
    assert NextNumber(u.a.ch.snd) == n;
    var q;
    q, f := SendPacket(u.a);
    t := ReachStep(s, u, Send(true, CFG, HEADER_LENGTH, 0, 1));
    assert t.a == q && t.ab == [f];
  }

  /** ... makes it to the receive ring of `b` ... */
  lemma OneDelivered(s: Sys, n: nat, low: nat, junk: map<nat, Bytes>) returns (t: Sys)
    requires Stream(s, n, low, junk) && n < 256 && n + 1 < low + s.a.ch.snd.length && n !in junk
    ensures Reaches(s, t) && SameShape(s, t) && Sender(t.a, n + 1, low)
    ensures && t.b == s.b.(ch := t.b.ch)
            && Calm(t.b) && t.b.ch.snd == s.b.ch.snd
            && t.b.ch.rcv == Advance(s.b.ch.rcv.(held := junk[n := PACKET]))
            && t.ab == []
            && t.b.ch.unconfirmed == s.b.ch.unconfirmed + 1
    ensures s.a.ch.snd.resend == [] ==> t.a.ch.snd.resend == []
  {
    hide Reaches, PeerReceive, Advance, DeadResends;
    var u, f := OneSent(s, n, low);
    t := ReachStep(s, u, Deliver(true, 0, true));
    TakePacket(u.b, f, n, n);
    SequenceDistance(0, n, n);
  }

  /** ... and is read there. */
  lemma OneRead(s: Sys, n: nat, low: nat, junk: map<nat, Bytes>) returns (t: Sys)
    requires Stream(s, n, low, junk) && n < 256 && n + 1 < low + s.a.ch.snd.length
    requires n !in junk && n + 1 !in junk
    ensures Reaches(s, t) && SameShape(s, t) && Stream(t, n + 1, low, junk)
    ensures s.a.ch.snd.resend == [] ==> t.a.ch.snd.resend == []
  {
    hide Reaches;
    var u := OneDelivered(s, n, low, junk);
    assert u.b.ch.rcv.head == n + 1;
    t := ReachStep(s, u, Read(false, SKY_PAYLOAD_MAX_LEN));
    assert t.b.ch.rcv.held == junk;
  }

  lemma {:induction false} ManyRead(s: Sys, n: nat, m: nat, low: nat, junk: map<nat, Bytes>) returns (t: Sys)
    requires Stream(s, n, low, junk) && n <= m <= 256 && m < low + s.a.ch.snd.length
    requires forall i :: n <= i <= m ==> i !in junk
    ensures Reaches(s, t) && SameShape(s, t) && Stream(t, m, low, junk)
    ensures s.a.ch.snd.resend == [] ==> t.a.ch.snd.resend == []
    decreases m - n
  {
    hide Reaches, Stream;
    if n == m {
      StreamOk(s, n, low, junk);
      ReachSelf(s);
      t := s;
    } else {
      var u := OneRead(s, n, low, junk);
      t := ManyRead(u, n + 1, m, low, junk);
      ReachTrans(s, u, t);
    }
  }

  lemma StreamOk(s: Sys, n: nat, low: nat, junk: map<nat, Bytes>)
    requires Stream(s, n, low, junk)
    ensures PeerOk(s.a) && PeerOk(s.b) && SameShape(s, s)
  {
  }

  // -------------------------------------------------------------------- connecting

  /** Both directions of a fresh session are at their start. */
  lemma Connected(start: Sys) returns (s: Sys, t: Sys)
    requires Start(start)
    ensures s == Next(start, Connect(0, 1)) && Reaches(s, t)
    ensures SameShape(start, t) && Stream(t, 0, 0, map[]) && t.a.ch.snd.resend == []
    ensures SameShape(Flip(start), Flip(t)) && Stream(Flip(t), 0, 0, map[]) && t.b.ch.snd.resend == []
    ensures t.a.ch.unconfirmed == t.b.ch.unconfirmed == 0
  {
    hide Reaches, TicksSince, Swap32;
    s := Next(start, Connect(0, 1));
    StepOk(start, Connect(0, 1));
    ReachSelf(s);
    var s2 := ReachStep(s, s, Send(true, CFG, HEADER_LENGTH, 0, 0));
    var s3 := ReachStep(s, s2, Deliver(true, 0, true));
    assert s3.b.ch == WipeToOn(start.b.ch, Swap32(1), 0);
    t := Answered(start, s, s3);
  }

  lemma Answered(start: Sys, s: Sys, s3: Sys) returns (t: Sys)
    requires Start(start) && Reaches(s, s3) && PeerOk(s3.a) && PeerOk(s3.b)
    requires s3.a.ch == WipeToInit(start.a.ch, 0, 1) && s3.a.epoch == 1 && s3.a.pushed[1] == [] && s3.a.got == []
    requires s3.b.ch == WipeToOn(start.b.ch, Swap32(1), 0) && s3.b.epoch == 1 && s3.b.pushed[1] == []
        && s3.b.got == []
    requires s3.ab == [] && s3.ba == []
    ensures Reaches(s, t)
    ensures SameShape(start, t) && Stream(t, 0, 0, map[]) && t.a.ch.snd.resend == []
    ensures SameShape(Flip(start), Flip(t)) && Stream(Flip(t), 0, 0, map[]) && t.b.ch.snd.resend == []
    ensures t.a.ch.unconfirmed == t.b.ch.unconfirmed == 0
  {
    hide Reaches, TicksSince, Swap32;
    SwapIsInvolution(1);
    assert TicksSince(0, 0) == 0 by { TicksZero(); }
    var s4 := ReachStep(s, s3, Send(false, CFG, HEADER_LENGTH, 0, 0));
    assert s4.ba[0].frame == EMPTY_FRAME.(handshake := Some(Handshake(ARQ_STATE_ON, 1)));
    t := ReachStep(s, s4, Deliver(false, 0, true));
  }

  lemma TicksZero()
    ensures TicksSince(0, 0) == 0
  {
  }

  // ------------------------------------------------- a lost packet and two requests

  /** A frame without payload that asks for packets from `head` on and acknowledges
      `rx`, if anything. */
  ghost predicate Asking(f: Frame, head: nat, mask: seq<bool>, rx: nat) {
    && f == EMPTY_FRAME.(request := Some(Request(Seq8(0, head), mask)), ctrl := f.ctrl)
    && (f.ctrl.Some? ==> f.ctrl.value.rx == Seq8(0, rx))
  }

  /** A peer with nothing to send asks for what is missing below a packet it holds. */
  lemma Ask(p: Peer) returns (q: Peer, f: Flight)
    requires Calm(p) && p.ch.snd == SendEmpty(p.ch.snd.length, 0)
    requires p.ch.rcv.head + 1 in p.ch.rcv.held && p.ch.rcv.horizon > 0
    ensures PeerSend(p, CFG, HEADER_LENGTH, 0, 0) == (q, [f])
    ensures q == p.(ch := q.ch) && Calm(q) && q.ch.rcv == p.ch.rcv && q.ch.snd == p.ch.snd
    ensures 0 <= p.ch.unconfirmed ==> 0 <= q.ch.unconfirmed <= p.ch.unconfirmed
    ensures Asking(f.frame, p.ch.rcv.head, Bitmap(p.ch.rcv), p.ch.rcv.head)
    ensures f.stamp.epoch == p.epoch
  {
    hide TicksSince;
    assert Bitmap(p.ch.rcv)[0];
    q, f := PeerSend(p, CFG, HEADER_LENGTH, 0, 0).0, PeerSend(p, CFG, HEADER_LENGTH, 0, 0).1[0];
  }

  lemma TakeRequest(p: Peer, f: Flight, head: nat, mask: seq<bool>)
    requires Calm(p) && Asking(f.frame, head, mask, p.ch.snd.tail)
    ensures var q := PeerReceive(p, f, 0, true);
            && q == p.(ch := q.ch) && Calm(q) && q.ch.rcv == p.ch.rcv
            && q.ch.snd == ScheduleByMask(p.ch.snd, Seq8(0, head), mask).0
  {
    hide ScheduleByMask;
    SequenceDistance(0, p.ch.snd.tail, p.ch.snd.tail);
  }

  /** Packet 0 is lost and packet 1 arrives. */
  lemma FirstLost(s: Sys) returns (t: Sys)
    requires Stream(s, 0, 0, map[]) && s.ba == [] && s.a.ch.snd.resend == [] && s.b.ch.rcv.horizon > 0
    ensures Reaches(s, t) && SameShape(s, t) && Sender(t.a, 2, 0) && t.a.ch.snd.resend == [] && t.ab == []
    ensures && t.b == s.b.(ch := t.b.ch) && Calm(t.b) && t.b.ch.snd == s.b.ch.snd
            && t.b.ch.rcv == s.b.ch.rcv.(held := map[1 := PACKET])
            && t.b.ch.unconfirmed == s.b.ch.unconfirmed + 1
  {
    hide Reaches, PeerReceive, DeadResends, Sender;
    SenderOk(s.a, 0, 0);
    var u, _ := OneSent(s, 0, 0);
    SenderOk(u.a, 1, 0);
    var v := ReachStep(s, u, Lose(true, 0));
    assert v.ab == [];
    var w, f := OneSent(v, 1, 0);
    ReachTrans(s, v, w);
    SenderOk(w.a, 2, 0);
    t := ReachStep(s, w, Deliver(true, 0, true));
    TakePacket(w.b, f, 1, 1);
    assert t.b.ch.rcv.held == map[1 := PACKET];
  }

  lemma SenderOk(p: Peer, n: nat, low: nat)
    requires Sender(p, n, low)
    ensures PeerOk(p) && Calm(p) && p.ch.snd.length >= 4
  {
  }

  /** b asks twice for packet 0; only the first request gets through for now, and
      packet 0 is sent again. */
  lemma TwoRequests(s: Sys) returns (t: Sys, f: Flight)
    requires Sender(s.a, 2, 0) && s.a.ch.snd.resend == [] && s.ab == [] && s.ba == []
    requires Calm(s.b) && s.b.ch.snd == SendEmpty(s.b.ch.snd.length, 0) && s.b.epoch == 1 && s.b.got == []
    requires s.b.ch.rcv.horizon > 0 && s.b.ch.unconfirmed == 1
    requires s.b.ch.rcv == RcvState(s.b.ch.rcv.length, s.b.ch.rcv.horizon, 0, 0, 0, map[1 := PACKET])
    ensures Reaches(s, t) && t.ba == [f] && Asking(f.frame, 0, Bitmap(s.b.ch.rcv), 0)
    ensures SameShape(s.(ba := [f]), t) && Stream(t, 2, 0, map[]) && t.a.ch.snd.resend == []
    ensures 0 < t.b.ch.unconfirmed
  {
    hide Reaches, PeerReceive, PeerSend, DeadResends, Asking, Sender;
    SenderOk(s.a, 2, 0);
    ReachSelf(s);
    var b1, f1 := Ask(s.b);
    var s1 := ReachStep(s, s, Send(false, CFG, HEADER_LENGTH, 0, 0));
    var b2;
    b2, f := Ask(b1);
    var s2 := ReachStep(s, s1, Send(false, CFG, HEADER_LENGTH, 0, 0));
    assert s2.ba == [f1, f] && s2.b == b2;
    t := Resent(s, s2, f1, f);
  }

  lemma Resent(s: Sys, s2: Sys, f1: Flight, f: Flight) returns (t: Sys)
    requires Sender(s2.a, 2, 0) && s2.a.ch.snd.resend == [] && s2.ab == [] && s2.ba == [f1, f]
    requires Calm(s2.b) && s2.b.ch.snd == SendEmpty(s2.b.ch.snd.length, 0) && s2.b.epoch == 1 && s2.b.got == []
    requires s2.b.ch.rcv.horizon > 0 && 0 <= s2.b.ch.unconfirmed <= 1
    requires s2.b.ch.rcv == RcvState(s2.b.ch.rcv.length, s2.b.ch.rcv.horizon, 0, 0, 0, map[1 := PACKET])
    requires Asking(f1.frame, 0, Bitmap(s2.b.ch.rcv), 0) && Reaches(s, s2)
    ensures Reaches(s, t) && SameShape(s2.(ba := [f]), t) && Stream(t, 2, 0, map[]) && t.a.ch.snd.resend == []
    ensures 0 < t.b.ch.unconfirmed
  {
    hide Reaches, PeerReceive, PeerSend, Asking, ScheduleByMask, Advance;
    TakeRequest(s2.a, f1, 0, Bitmap(s2.b.ch.rcv));
    var s3 := ReachStep(s, s2, Deliver(false, 0, true));
    OnlyFirst(s2.a.ch.snd, s2.b.ch.rcv);
    assert s3.a.ch.snd.resend == [0];
    assert s3.a.ch.snd.data[0] in s2.a.ch.snd.data;
    var a4, g := SendPacket(s3.a);
    var s4 := ReachStep(s, s3, Send(true, CFG, HEADER_LENGTH, 0, 1));
    assert s4.ab == [g] && s4.a == a4;
    TakePacket(s4.b, g, 0, 2);
    var s5 := ReachStep(s, s4, Deliver(true, 0, true));
    GapClosed(s2.b.ch.rcv);
    t := BothRead(s, s5);
  }

  lemma OnlyFirst(snd: SendState, r: RcvState)
    requires SendOk(snd) && snd.origin == 0 && snd.tail == 0 && snd.tx == 2 && snd.resend == []
    requires r.head == 0 && r.held == map[1 := PACKET] && r.horizon > 0
    ensures ScheduleByMask(snd, 0, Bitmap(r)).0 == snd.(resend := [0])
  {
    var m := Bitmap(r);
    assert m[0] && !m[1];
    var t := snd.(resend := [0]);
    assert snd.resend + [0] == [0];
    assert ScheduleResend(snd, 0) == (t, SKY_RET_OK);
    assert ScheduleResend(t, 2) == (t, SKY_RET_RING_CANNOT_RECALL);
    assert ScheduleFromBit(t, 2, m, 1) == (t, SKY_RET_RING_CANNOT_RECALL);
    assert ScheduleFromBit(t, 1, m, 0) == ScheduleFromBit(t, 2, m, 1);
  }

  /** When packet 0 joins packet 1, both become readable. */
  lemma GapClosed(r: RcvState)
    requires RcvOk(r) && r.tail == r.head == 0 && r.held == map[1 := PACKET] && r.origin == 0
    ensures RcvPush(r, PACKET, 0, true).0 == r.(head := 2, held := map[0 := PACKET, 1 := PACKET])
  {
    var r0 := r.(held := r.held[0 := PACKET]);
    var r1, r2 := r0.(head := 1), r0.(head := 2);
    assert Advance(r2) == r2;
    assert Advance(r1) == Advance(r2);
    assert Advance(r0) == Advance(r1);
  }

  /** Two packets in the receive ring are read. */
  lemma BothRead(s: Sys, u: Sys) returns (t: Sys)
    requires Reaches(s, u) && Sender(u.a, 2, 0) && u.ab == []
    requires Calm(u.b) && u.b.ch.snd == SendEmpty(u.b.ch.snd.length, 0) && u.b.epoch == 1 && u.b.got == []
    requires 0 <= u.b.ch.unconfirmed <= 2
    requires u.b.ch.rcv == RcvState(u.b.ch.rcv.length, u.b.ch.rcv.horizon, 0, 0, 2, map[0 := PACKET, 1 := PACKET])
    ensures Reaches(s, t) && SameShape(u, t) && Stream(t, 2, 0, map[]) && t.a == u.a
    ensures t.b.ch.unconfirmed == u.b.ch.unconfirmed
  {
    hide Reaches, Sender;
    SenderOk(u.a, 2, 0);
    var v := ReachStep(s, u, Read(false, SKY_PAYLOAD_MAX_LEN));
    assert v.b.ch.rcv == u.b.ch.rcv.(tail := 1, held := map[1 := PACKET]);
    t := ReachStep(s, v, Read(false, SKY_PAYLOAD_MAX_LEN));
    assert t.b.ch.rcv.held == map[];
  }

  // ------------------------------------------------------ the late request is served

  /** Scheduling by mask only ever adds the sequence numbers the mask covers, and adds
      them at the end. */
  lemma {:induction false} ScheduledWithin(s: SendState, sequence: byte, mask: seq<bool>, i: nat)
    requires i <= |mask| <= 256
    ensures var r := ScheduleFromBit(s, sequence, mask, i).0.resend;
            && s.resend <= r
            && forall q :: q in r ==> q in s.resend || Sub8(q, sequence) < |mask| - i
    decreases |mask| - i
  {
    hide CanRecall;
    if i < |mask| {
      var (t, ret) := if mask[i] then (s, SKY_RET_OK) else ScheduleResend(s, sequence);
      var next: byte := (sequence + 1) % 256;
      ScheduledWithin(t, next, mask, i + 1);
      var r := if ret == SKY_RET_OK then ScheduleFromBit(t, next, mask, i + 1).0.resend else t.resend;
      assert ScheduleFromBit(s, sequence, mask, i).0.resend == r;
      forall q | q in r ensures q in s.resend || Sub8(q, sequence) < |mask| - i {
        NextDistance(q, sequence, |mask| - i);
      }
    }
  }

  lemma NextDistance(q: byte, sequence: byte, n: nat)
    requires 0 < n <= 256
    ensures Sub8(q, (sequence + 1) % 256) < n - 1 ==> Sub8(q, sequence) < n
    ensures Sub8(sequence, sequence) == 0
  {
  }

  lemma ReplayList(s: SendState, mask: seq<bool>)
    requires SendOk(s) && s.origin == 0 && s.tail == 0 < s.tx && s.resend == [] && |mask| == 16
    ensures var r := ScheduleByMask(s, 0, mask).0.resend;
            r != [] && r[0] == 0 && forall q :: q in r ==> q <= 16
  {
    var t := s.(resend := [0]);
    assert s.resend + [0] == [0];
    assert ScheduleResend(s, 0) == (t, SKY_RET_OK);
    ScheduledWithin(t, 1, mask, 0);
  }

  /** Packet 0 arrives once more and is taken for packet 256. */
  lemma Replay(s: Sys, f: Flight, mask: seq<bool>) returns (t: Sys)
    requires s.a.ch.snd.length > 0 && Stream(s, s.a.ch.snd.length - 1, 0, map[])
    requires s.a.ch.snd.length + s.b.ch.rcv.horizon > 256 && |mask| == 16
    requires s.ba == [f] && Asking(f.frame, 0, mask, 0) && s.a.ch.snd.resend == []
    ensures Reaches(s, t) && SameShape(s.(ba := []), t) && t.ab == []
    ensures var n := s.a.ch.snd.length - 1;
            && t.a == s.a.(ch := t.a.ch) && Calm(t.a) && t.a.ch.rcv == s.a.ch.rcv
            && t.a.ch.snd == s.a.ch.snd.(resend := t.a.ch.snd.resend)
            && (forall q :: q in t.a.ch.snd.resend ==> q <= 16)
            && t.b == s.b.(ch := t.b.ch) && Calm(t.b) && t.b.ch.snd == s.b.ch.snd
            && t.b.ch.rcv == s.b.ch.rcv.(held := map[256 := PACKET])
            && t.b.ch.unconfirmed == s.b.ch.unconfirmed + 1
  {
    hide Reaches, PeerReceive, PeerSend, Asking, ScheduleByMask;
    var n := s.a.ch.snd.length - 1;
    ReachSelf(s);
    TakeRequest(s.a, f, 0, mask);
    var s1 := ReachStep(s, s, Deliver(false, 0, true));
    ReplayList(s.a.ch.snd, mask);
    PoppedWithin(s1.a.ch.snd.resend);
    assert s.a.ch.snd.data[0] in s.a.ch.snd.data;
    assert NextNumber(s1.a.ch.snd) == 0;
    var a2, g := SendPacket(s1.a);
    var s2 := ReachStep(s, s1, Send(true, CFG, HEADER_LENGTH, 0, 1));
    assert s2.ab == [g] && s2.a == a2;
    TakePacket(s2.b, g, 0, n);
    t := ReachStep(s, s2, Deliver(true, 0, true));
    TakenFor256(s.b.ch.rcv, n);
  }

  lemma TakenFor256(r: RcvState, n: nat)
    requires RcvOk(r) && r.origin == 0 && r.tail == r.head == n && r.held == map[] && 192 <= n < 256
    requires n + 1 + r.horizon > 256
    ensures RcvPush(r, PACKET, 0, true).0 == r.(held := map[256 := PACKET])
  {
  }

  // ---------------------------------------------------------------- acknowledgement

  /** A frame that acknowledges everything before n and holds no packet. */
  ghost predicate Acking(f: Frame, n: nat) {
    && f == EMPTY_FRAME.(request := f.request, ctrl := f.ctrl)
    && f.ctrl.Some? && f.ctrl.value.rx == Seq8(0, n)
    && (f.request.Some? ==> f.request.value.sequence == Seq8(0, n))
  }

  lemma SendAck(p: Peer) returns (q: Peer, f: Flight)
    requires Calm(p) && p.ch.snd == SendEmpty(p.ch.snd.length, 0) && p.ch.unconfirmed > 0
    ensures PeerSend(p, CFG, HEADER_LENGTH, 0, 0) == (q, [f])
    ensures q == p.(ch := q.ch) && Calm(q) && q.ch.rcv == p.ch.rcv && q.ch.snd == p.ch.snd && q.ch.unconfirmed == 0
    ensures Acking(f.frame, p.ch.rcv.head)
  {
    hide TicksSince, Bitmap;
    q, f := PeerSend(p, CFG, HEADER_LENGTH, 0, 0).0, PeerSend(p, CFG, HEADER_LENGTH, 0, 0).1[0];
  }

  lemma TakeAck(p: Peer, f: Flight, n: nat)
    requires Calm(p) && Acking(f.frame, n) && n < 256
    requires p.ch.snd.tail == 0 && p.ch.snd.tx == p.ch.snd.head == n
    ensures var q := PeerReceive(p, f, 0, true);
            && q == p.(ch := q.ch) && Calm(q) && q.ch.rcv == p.ch.rcv
            && q.ch.snd == p.ch.snd.(tail := n, data := [])
  {
    var c := HandleControl(p.ch, f.frame.ctrl.value, 0);
    SequenceDistance(0, 0, n);
    SequenceDistance(0, n, n);
    assert c.snd == p.ch.snd.(tail := n, data := []);
  }

  lemma Acknowledged(s: Sys, n: nat, junk: map<nat, Bytes>) returns (t: Sys)
    requires Calm(s.a) && s.a.epoch == 1 && s.a.ch.rcv.head == 0 && |s.a.pushed[1]| == n && 192 <= n < 256
    requires s.a.ch.snd.tail == 0 && s.a.ch.snd.tx == s.a.ch.snd.head == n
    requires forall q :: q in s.a.ch.snd.resend ==> q <= 16
    requires Calm(s.b) && s.b.epoch == 1 && s.b.ch.snd == SendEmpty(s.b.ch.snd.length, 0) && |s.b.got| == n
    requires s.b.ch.rcv == RcvState(s.b.ch.rcv.length, s.b.ch.rcv.horizon, 0, n, n, junk)
    requires 0 < s.b.ch.unconfirmed && s.ab == [] && s.ba == []
    ensures Reaches(s, t) && SameShape(s, t) && Stream(t, n, n, junk)
  {
    hide Reaches, PeerReceive, PeerSend, Acking, DeadResends, ChannelOk;
    ReachSelf(s);
    var b1, f := SendAck(s.b);
    var s1 := ReachStep(s, s, Send(false, CFG, HEADER_LENGTH, 0, 0));
    assert s1.ba == [f] && s1.b == b1;
    TakeAck(s1.a, f, n);
    t := ReachStep(s, s1, Deliver(false, 0, true));
    assert t.ba == [];
    StaleNumbers(t.a.ch.snd, n);
  }

  /** Numbers up to 16 lie behind a tail of 192 or more, so they denote later packets. */
  lemma StaleNumbers(s: SendState, n: nat)
    requires s.origin == 0 && s.tail == n && 192 <= n < 256 && forall q :: q in s.resend ==> q <= 16
    ensures DeadResends(s)
  {
    forall q | q in s.resend ensures RecallPosition(s, q) >= 256 { }
  }

  // ------------------------------------------------------------------------ finale

  /** The last of 256 packets arrives and completes the row up to the false one. */
  lemma Finale(s: Sys) returns (t: Sys)
    requires s.a.ch.snd.length > 0 && Stream(s, 255, s.a.ch.snd.length - 1, map[256 := PACKET])
    ensures Reaches(s, t) && t.b.ch.arq.On? && t.b.epoch == 1
    ensures 1 in t.a.pushed && |t.a.pushed[1]| == 256 && |t.b.got| == 257
  {
    hide Reaches;
    var u := OneDelivered(s, 255, s.a.ch.snd.length - 1, map[256 := PACKET]);
    var r := s.b.ch.rcv.(held := map[256 := PACKET][255 := PACKET]);
    LastTwo(r);
    var v := ReachStep(s, u, Read(false, SKY_PAYLOAD_MAX_LEN));
    assert v.b.ch.rcv.tail == 256 && v.b.ch.rcv.head >= 257 && |v.b.got| == 256;
    t := ReachStep(s, v, Read(false, SKY_PAYLOAD_MAX_LEN));
  }

  lemma LastTwo(r: RcvState)
    requires RcvShape(r) && r.tail == r.head == 255 && r.held == map[256 := PACKET][255 := PACKET]
    ensures Advance(r) == r.(head := 257)
  {
    var r1, r2 := r.(head := 256), r.(head := 257);
    assert Advance(r2) == r2;
    assert Advance(r1) == Advance(r2);
    assert Advance(r) == Advance(r1);
  }

  /** From the start of a session on, `b` can be made to read more than `a` queued. */
  lemma TooMuch(s: Sys) returns (t: Sys)
    requires Stream(s, 0, 0, map[]) && s.ba == [] && s.a.ch.snd.resend == [] && s.b.ch.unconfirmed == 0
    requires s.a.ch.snd.length + s.b.ch.rcv.horizon > 256
    ensures Reaches(s, t) && !InOrder(t.b, t.a)
  {
    hide Reaches, Stream, RcvOk, SendOk;
    StreamOk(s, 0, 0, map[]);
    LongEnough(s);
    var s1 := LostAndAsked(s);
    var s2 := ManyRead(s1, 2, s.a.ch.snd.length - 1, 0, map[]);
    t := Overrun(s2, s1.ba[0]);
    ReachTrans(s, s1, s2);
    ReachTrans(s, s2, t);
  }

  /** A ring pair that is too long for 8-bit sequence numbers can deliver more than
      was sent, in either direction. */
  lemma LongRingsBreakOrder(start: Sys)
    requires Start(start)
    ensures !Fits(start.a, start.b) ==> exists s :: Reachable(start, s) && !InOrder(s.b, s.a)
    ensures !Fits(start.b, start.a) ==> exists s :: Reachable(start, s) && !InOrder(s.a, s.b)
  {
    hide Reaches, Stream, Reachable;
    var s0, s1 := Connected(start);
    StreamOpen(s1, 0, 0, map[]);
    StreamOpen(Flip(s1), 0, 0, map[]);
    if !Fits(start.a, start.b) {
      var t := TooMuch(s1);
      ReachTrans(s0, s1, t);
      ReachesReachable(start, t);
    }
    if !Fits(start.b, start.a) {
      var t := TooMuch(Flip(s1));
      FlipReaches(Flip(s1), t);
      assert Flip(Flip(s1)) == s1;
      ReachTrans(s0, s1, Flip(t));
      ReachesReachable(start, Flip(t));
    }
  }

  lemma StreamOpen(s: Sys, n: nat, low: nat, junk: map<nat, Bytes>)
    requires Stream(s, n, low, junk)
    ensures s.ab == []
  {
  }

  /** In-order delivery from one side to the other holds in all runs exactly if that
      side's send ring and the other's horizon fit. */
  lemma ExactCondition(start: Sys)
    requires Start(start)
    ensures Fits(start.a, start.b) <==> forall s :: Reachable(start, s) ==> InOrder(s.b, s.a)
    ensures Fits(start.b, start.a) <==> forall s :: Reachable(start, s) ==> InOrder(s.a, s.b)
  {
    hide Reachable, InOrder;
    LongRingsBreakOrder(start);
    forall s | Reachable(start, s)
      ensures Fits(start.a, start.b) ==> InOrder(s.b, s.a)
      ensures Fits(start.b, start.a) ==> InOrder(s.a, s.b)
    {
      ShapeReachable(start, s);
      InOrderDelivery(start, s);
    }
  }

  lemma LongEnough(s: Sys)
    requires PeerOk(s.a) && PeerOk(s.b) && s.a.ch.snd.length + s.b.ch.rcv.horizon > 256
    ensures 193 <= s.a.ch.snd.length <= 256 && 0 < s.b.ch.rcv.horizon
  {
  }

  lemma ReachesReachable(start: Sys, t: Sys)
    requires Start(start) && Reaches(Next(start, Connect(0, 1)), t)
    ensures Reachable(start, t)
  {
    hide Next;
    var events :| Run(Next(start, Connect(0, 1)), events) == Some(t);
    var all := [Connect(0, 1)] + events;
    assert all[1..] == events;
    assert Run(start, all) == Some(t);
  }

  /** No step changes the size of a ring. */
  lemma {:induction false} RunShape(s: Sys, events: seq<Event>)
    requires PeerOk(s.a) && PeerOk(s.b) && Run(s, events).Some?
    ensures var t := Run(s, events).value;
            (Fits(t.a, t.b) <==> Fits(s.a, s.b)) && (Fits(t.b, t.a) <==> Fits(s.b, s.a))
    decreases |events|
  {
    hide PeerOk, Next, Fits;
    if events != [] {
      StepOk(s, events[0]);
      StepShape(s, events[0]);
      RunShape(Next(s, events[0]), events[1..]);
    }
  }

  lemma StepShape(s: Sys, e: Event)
    requires PeerOk(s.a) && PeerOk(s.b) && Enabled(s, e)
    ensures var t := Next(s, e);
            (Fits(t.a, t.b) <==> Fits(s.a, s.b)) && (Fits(t.b, t.a) <==> Fits(s.b, s.a))
  {
    hide FillFrame, ProcessFrame, PeerSend, RcvRead;
    match e
    case Send(fromA, cfg, length, now, sent) =>
      var p := if fromA then s.a else s.b;
      if p.ch.arq.Off? { SendOffEffect(p, cfg, length, now, sent); } else { SendEffect(p, cfg, length, now, sent); }
    case Deliver(toB, now, room) =>
      if toB {
        ChannelKeeps(s.b.ch, s.ab[0].frame, now, room);
      } else {
        ChannelKeeps(s.a.ch, s.ba[0].frame, now, room);
      }
    case _ =>
  }

  lemma ShapeReachable(start: Sys, s: Sys)
    requires Reachable(start, s)
    ensures (Fits(s.a, s.b) <==> Fits(start.a, start.b)) && (Fits(s.b, s.a) <==> Fits(start.b, start.a))
  {
    hide Run, Fits;
    var events :| Run(start, events) == Some(s);
    RunShape(start, events);
  }

  lemma LostAndAsked(s: Sys) returns (t: Sys)
    requires Stream(s, 0, 0, map[]) && s.ba == [] && s.a.ch.snd.resend == [] && s.b.ch.rcv.horizon > 0
    requires s.b.ch.unconfirmed == 0
    ensures Reaches(s, t) && Stream(t, 2, 0, map[]) && SameShape(s.(ba := t.ba), t) && t.a.ch.snd.resend == []
    ensures |t.ba| == 1 && 0 < t.b.ch.unconfirmed
    ensures exists mask :: |mask| == 16 && Asking(t.ba[0].frame, 0, mask, 0)
  {
    hide Reaches;
    var u := FirstLost(s);
    var f;
    t, f := TwoRequests(u);
    ReachTrans(s, u, t);
    assert |Bitmap(u.b.ch.rcv)| == 16;
  }

  lemma Overrun(s: Sys, f: Flight) returns (t: Sys)
    requires var L := s.a.ch.snd.length; 193 <= L <= 256 && L + s.b.ch.rcv.horizon > 256 && Stream(s, L - 1, 0, map[])
    requires s.a.ch.snd.resend == []
    requires s.ba == [f] && exists mask :: |mask| == 16 && Asking(f.frame, 0, mask, 0)
    ensures Reaches(s, t) && t.b.ch.arq.On? && !InOrder(t.b, t.a)
  {
    hide Reaches, Asking;
    var L := s.a.ch.snd.length;
    var mask :| |mask| == 16 && Asking(f.frame, 0, mask, 0);
    var u := Replay(s, f, mask);
    var v := Acknowledged(u, L - 1, map[256 := PACKET]);
    var w := ManyRead(v, L - 1, 255, L - 1, map[256 := PACKET]);
    t := Finale(w);
    ReachTrans(s, u, v);
    ReachTrans(s, v, w);
    ReachTrans(s, w, t);
  }
}
