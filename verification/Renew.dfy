/** A side that has quit comes back into a session in which the other has heard nothing yet:
    everything goes on as in a session that has just been opened. */
module Renewal {
  import opened Base
  import opened RingSpec
  import opened ChannelSpec
  import opened Session
  import opened Aliasing
  import opened Handshakes
  import opened Quitting

  /** A packet that a receiver which has received nothing yet takes in. */
  predicate Arrives(f: Frame, horizon: nat) {
    PayloadLength(f) > 0 && f.sequence.Some? && f.sequence.value <= horizon
  }

  /** Nothing has been received in this session, and nothing on the link will be. */
  ghost predicate Unheard(p: Peer, link: seq<Flight>) {
    && p.ch.rcv.head == 0 && p.ch.rcv.held == map[]
    && forall f :: f in link ==> !Arrives(f.frame, p.ch.rcv.horizon)
  }

  /** `a` is in session e; `b` has left it or has come back, and every handshake is of this
      session. */
  ghost predicate Parted(s: Sys, e: nat) {
    && PeerOk(s.a) && PeerOk(s.b) && e in s.b.pushed
    && s.a.ch.arq.On? && s.a.epoch == e > 0
    && ((s.b.ch.arq.Off? && s.b.epoch == 0) ||
        (s.b.ch.arq.On? && s.b.epoch == e && s.b.ch.session == Swap32(s.a.ch.session)))
    && (forall f :: f in s.ab ==> f.stamp.epoch == e && Carries(f.frame, Swap32(s.a.ch.session)))
    && (forall f :: f in s.ba ==> Carries(f.frame, s.a.ch.session))
  }

  predicate Carries(f: Frame, id: uint32) {
    f.handshake.Some? ==> f.handshake.value.identifier == id
  }

  lemma PartedIds(s: Sys, e: nat)
    requires Parted(s, e)
    ensures Swap32(Swap32(s.a.ch.session)) == s.a.ch.session
    ensures s.ba != [] ==> !Adopts(s.a.ch, s.ba[0].frame)
    ensures s.ab != [] && s.b.ch.arq.On? ==> !Adopts(s.b.ch, s.ab[0].frame)
  {
    hide Swap32, PeerOk;
    SwapIsInvolution(s.a.ch.session);
    if s.ba != [] { assert s.ba[0] in s.ba; }
    if s.ab != [] { assert s.ab[0] in s.ab; }
  }

  /** Coming back: empty rings, whatever else the frame holds. */
  lemma ComesBack(p: Peer, f: Flight, now: int, room: bool)
    requires PeerOk(p) && p.ch.arq.Off? && f.frame.handshake.Some?
    ensures var q := PeerReceive(p, f, now, room);
            && PeerOk(q) && q.ch.arq.On? && q.ch.session == f.frame.handshake.value.identifier
            && q.ch.snd == SendEmpty(p.ch.snd.length, 0) && q.ch.rcv.origin == 0
            && q.epoch == f.stamp.epoch && q.pushed == p.pushed[q.epoch := []]
  {
    hide RcvPush, ProcessOn, ScheduleByMask;
    var c := WipeToOn(p.ch, f.frame.handshake.value.identifier, now);
    var d := ProcessOn(c, f.frame, now, room).0;
    ProcessOnEffect(c, f.frame, now, room);
    NothingToResend(c, f.frame, now, room);
  }

  lemma NothingToResend(c: Channel, f: Frame, now: int, room: bool)
    requires ChannelOk(c) && c.snd == SendEmpty(c.snd.length, 0)
    ensures ProcessOn(c, f, now, room).0.snd == c.snd
  {
    hide RcvPush, SyncStatus, ScheduleFromBit;
    if f.ctrl.Some? {
      assert CleanTail(c.snd, f.ctrl.value.rx).0 == c.snd;
    }
  }

  // ---------------------------------------------------------------- nothing was heard

  /** The send ring of `b` as far as session e is concerned, and what it has queued there. */
  function Line(p: Peer): SendState {
    if p.ch.arq.Off? then SendEmpty(p.ch.snd.length, 0) else p.ch.snd
  }

  function Queue(p: Peer, e: nat): seq<Bytes>
    requires e in p.pushed
  {
    if p.ch.arq.Off? then [] else p.pushed[e]
  }

  /** The first k frames bring nothing, the others are of session e. */
  ghost predicate Split(link: seq<Flight>, k: nat, horizon: nat, e: nat) {
    && k <= |link|
    && (forall i :: 0 <= i < k ==> !Arrives(link[i].frame, horizon))
    && (forall i :: k <= i < |link| ==> link[i].stamp.epoch == e)
  }

  /** The first k frames for `a` are from before `b` came back and bring nothing; from there
      on everything is as in a session that has just been opened. */
  ghost predicate Renewed(s: Sys, e: nat, k: nat) {
    && Parted(s, e) && Split(s.ba, k, s.a.ch.rcv.horizon, e) && (s.b.ch.arq.Off? ==> k == |s.ba|)
    && (k > 0 ==> s.a.ch.rcv.head == 0 && s.a.ch.rcv.held == map[])
    && Flow(e, Line(s.b), s.a.ch.rcv, Queue(s.b, e), s.a.got, s.ba[k..], s.ab)
  }

  lemma RenewedPush(s: Sys, e: nat, k: nat, atA: bool, payload: Bytes, room: bool)
    requires Renewed(s, e, k)
    ensures Renewed(Next(s, Push(atA, payload, room)), e, k)
  {
    hide Flow, Swap32, Arrives, Carries;
    if !atA && s.b.ch.arq.On? {
      FlowPush(e, s.b.ch.snd, s.a.ch.rcv, s.b.pushed[e], s.a.got, s.ba[k..], s.ab, payload, room);
    }
  }

  lemma RenewedRead(s: Sys, e: nat, k: nat, atA: bool, max: nat)
    requires Renewed(s, e, k)
    ensures Renewed(Next(s, Read(atA, max)), e, k)
  {
    hide Flow, Swap32, Arrives, Carries, RcvRead;
    if atA {
      FlowRead(e, Line(s.b), s.a.ch.rcv, Queue(s.b, e), s.a.got, s.ba[k..], s.ab, max);
    }
  }

  lemma RenewedSendA(s: Sys, e: nat, k: nat, cfg: ArqConfig, length: nat, now: int, sent: nat)
    requires Renewed(s, e, k)
    ensures Renewed(Next(s, Send(true, cfg, length, now, sent)), e, k)
  {
    hide Flow, Swap32, Arrives, PeerSend, Describes, ChannelOk;
    SendEffect(s.a, cfg, length, now, sent);
    var out := PeerSend(s.a, cfg, length, now, sent).1;
    FlowSentAck(e, Line(s.b), s.a.ch.rcv, Queue(s.b, e), s.a.got, s.ba[k..], s.ab, out);
  }

  lemma RenewedSendOff(s: Sys, e: nat, k: nat, cfg: ArqConfig, length: nat, now: int, sent: nat)
    requires Renewed(s, e, k) && s.b.ch.arq.Off?
    ensures var t := Next(s, Send(false, cfg, length, now, sent)); Renewed(t, e, |t.ba|)
  {
    hide Flow, Swap32, PeerSend, ChannelOk;
    SendOffEffect(s.b, cfg, length, now, sent);
    OffFrames(s.b, cfg, length, now, sent);
    NothingHeld(e, Line(s.b), s.a.ch.rcv, s.a.got, s.ba[k..], s.ab);
    var t := Next(s, Send(false, cfg, length, now, sent));
    assert t.ba[|t.ba|..] == s.ba[k..];
  }

  lemma RenewedSendOn(s: Sys, e: nat, k: nat, cfg: ArqConfig, length: nat, now: int, sent: nat)
    requires Renewed(s, e, k) && s.b.ch.arq.On?
    ensures Renewed(Next(s, Send(false, cfg, length, now, sent)), e, k)
  {
    hide Flow, Swap32, PeerSend, Describes, ChannelOk, Arrives;
    var (q, out) := PeerSend(s.b, cfg, length, now, sent);
    PartedIds(s, e);
    SendEffect(s.b, cfg, length, now, sent);
    RingsOk(q);
    FlowSentData(e, s.b.ch.snd, q.ch.snd, s.a.ch.rcv, s.b.pushed[e], s.a.got, s.ba[k..], s.ab, out);
    assert (s.ba + out)[k..] == s.ba[k..] + out;
  }

  lemma NothingHeld(e: nat, s: SendState, r: RcvState, got: seq<Bytes>, data: seq<Flight>, acks: seq<Flight>)
    requires Flow(e, s, r, [], got, data, acks)
    ensures r.head == 0 && r.held == map[]
  {
    hide FlightOk, AckOk;
  }

  lemma RenewedDeliverB(s: Sys, e: nat, k: nat, now: int, room: bool)
    requires Renewed(s, e, k) && s.ab != []
    ensures Renewed(Next(s, Deliver(true, now, room)), e, k)
  {
    hide Flow, Swap32, Arrives, PeerReceive, Thinned, ChannelOk;
    var f := s.ab[0];
    assert f in s.ab;
    PartedIds(s, e);
    if s.b.ch.arq.On? {
      KnownReceived(s.b, f, now, room);
      var t := PeerReceive(s.b, f, now, room).ch.snd;
      assert SendOk(t) by { RingsOk(PeerReceive(s.b, f, now, room)); }
      FlowAcknowledged(e, s.b.ch.snd, t, s.a.ch.rcv, s.b.pushed[e], s.a.got, s.ba[k..], s.ab);
    } else {
      ThinnedTail(s.ab);
      ThinnedSelf(s.ba[k..]);
      FlowThinned(e, Line(s.b), s.a.ch.rcv, [], s.a.got, s.ba[k..], s.ab, s.ba[k..], s.ab[1..]);
      if f.frame.handshake.Some? { ComesBack(s.b, f, now, room); } else { OffReceived(s.b, f, now, room); }
    }
  }

  lemma RingsOk(p: Peer)
    requires PeerOk(p)
    ensures SendOk(p.ch.snd) && RcvOk(p.ch.rcv)
  {
  }

  /** A frame of the session reaches a connected peer. */
  lemma KnownReceived(p: Peer, f: Flight, now: int, room: bool)
    requires PeerOk(p) && p.ch.arq.On? && !Adopts(p.ch, f.frame)
    ensures var q := PeerReceive(p, f, now, room);
            && PeerOk(q) && q == p.(ch := q.ch) && q.ch.arq.On? && q.ch.session == p.ch.session
            && q.ch.rcv == (if PayloadLength(f.frame) > 0 && f.frame.sequence.Some?
                            then RcvPush(p.ch.rcv, f.frame.payload.value, f.frame.sequence.value, room).0
                            else p.ch.rcv)
            && q.ch.snd == (if f.frame.ctrl.Some? then CleanTail(p.ch.snd, f.frame.ctrl.value.rx).0 else p.ch.snd)
                           .(resend := q.ch.snd.resend)
  {
    hide ProcessOn, RcvPush, CleanTail;
    var c := AfterHandshake(p.ch, f.frame, now);
    assert c == p.ch.(handshakeSend := c.handshakeSend);
    ProcessOnEffect(c, f.frame, now, room);
  }

  lemma OffReceived(p: Peer, f: Flight, now: int, room: bool)
    requires PeerOk(p) && p.ch.arq.Off? && f.frame.handshake.None?
    ensures var q := PeerReceive(p, f, now, room);
            PeerOk(q) && q == p.(ch := q.ch) && q.ch == p.ch.(rcv := q.ch.rcv)
  {
    hide RcvPush;
  }

  lemma RenewedDeliverA(s: Sys, e: nat, k: nat, now: int, room: bool)
    requires Renewed(s, e, k) && s.ba != []
    ensures Renewed(Next(s, Deliver(false, now, room)), e, if k > 0 then k - 1 else 0)
  {
    hide Flow, Swap32, PeerReceive, ProcessOn, RcvPush, Arrives;
    var f, c := s.ba[0], s.a.ch;
    assert f in s.ba;
    PartedIds(s, e);
    KnownReceived(s.a, f, now, room);
    if k > 0 {
      FlowOrigin(e, Line(s.b), c.rcv, Queue(s.b, e), s.a.got, s.ba[k..], s.ab);
      NotTaken(c.rcv, f.frame, room);
      assert s.ba[1..][k - 1..] == s.ba[k..];
    } else {
      assert s.ba[0..] == s.ba;
      ProcessOnEffect(c, f.frame, now, room);
      FlowReceiveData(e, c, now, room, s.ba, s.ab, Line(s.b), Queue(s.b, e), s.a.got);
    }
  }

  lemma FlowOrigin(e: nat, s: SendState, r: RcvState, pushed: seq<Bytes>, got: seq<Bytes>,
                   data: seq<Flight>, acks: seq<Flight>)
    requires Flow(e, s, r, pushed, got, data, acks)
    ensures r.origin == 0 && r.tail == |got| && got <= pushed
  {
    hide FlightOk, AckOk;
  }

  /** What has not arrived is refused. */
  lemma NotTaken(r: RcvState, f: Frame, room: bool)
    requires RcvOk(r) && r.origin == 0 && r.head == 0 && !Arrives(f, r.horizon)
    ensures PayloadLength(f) > 0 && f.sequence.Some? ==>
              RcvPush(r, f.payload.value, f.sequence.value, room).0 == r
  {
  }

  lemma RenewedLoseB(s: Sys, e: nat, k: nat, i: nat)
    requires Renewed(s, e, k) && i < |s.ab|
    ensures Renewed(Next(s, Lose(true, i)), e, k)
  {
    hide Flow, Swap32, PeerOk, Arrives, Carries, Thinned;
    ThinnedSelf(s.ba[k..]);
    ThinnedWithout(s.ab, i);
    FlowThinned(e, Line(s.b), s.a.ch.rcv, Queue(s.b, e), s.a.got, s.ba[k..], s.ab, s.ba[k..], Without(s.ab, i));
  }

  lemma LostBehind(link: seq<Flight>, k: nat, i: nat, horizon: nat, e: nat)
    requires Split(link, k, horizon, e) && i < |link|
    ensures Split(Without(link, i), if i < k then k - 1 else k, horizon, e)
    ensures i < k ==> Without(link, i)[k - 1..] == link[k..]
    ensures k <= i ==> Without(link, i)[k..] == Without(link[k..], i - k)
  {
  }

  lemma RenewedLoseA(s: Sys, e: nat, k: nat, i: nat)
    requires Renewed(s, e, k) && i < |s.ba|
    ensures Renewed(Next(s, Lose(false, i)), e, if i < k then k - 1 else k)
  {
    hide Flow, Swap32, PeerOk, Arrives, Carries, Thinned;
    var data, link := s.ba[k..], Without(s.ba, i);
    LostBehind(s.ba, k, i, s.a.ch.rcv.horizon, e);
    if i >= k {
      ThinnedWithout(data, i - k);
      ThinnedSelf(s.ab);
      FlowThinned(e, Line(s.b), s.a.ch.rcv, Queue(s.b, e), s.a.got, data, s.ab, link[k..], s.ab);
    }
  }

  lemma FlowThinned(e: nat, s: SendState, r: RcvState, pushed: seq<Bytes>, got: seq<Bytes>,
                    data: seq<Flight>, acks: seq<Flight>, data': seq<Flight>, acks': seq<Flight>)
    requires Flow(e, s, r, pushed, got, data, acks) && Thinned(data, data') && Thinned(acks, acks')
    ensures Flow(e, s, r, pushed, got, data', acks')
  {
    hide Sink, Source, Thinned;
    SinkThinned(e, r, pushed, got, data, s.length, data');
    SourceThinned(e, s, r, pushed, data, acks, data', acks');
  }

  lemma RenewedStep(s: Sys, e: nat, k: nat, ev: Event) returns (l: nat)
    requires Renewed(s, e, k) && Enabled(s, ev) && !ev.Connect? && PeerOk(s.a) && PeerOk(s.b)
    ensures Renewed(Next(s, ev), e, l)
  {
    hide Renewed, Next, PeerOk;
    match ev
    case Push(atA, payload, room) => l := k; RenewedPush(s, e, k, atA, payload, room);
    case Read(atA, max) => l := k; RenewedRead(s, e, k, atA, max);
    case Send(fromA, cfg, length, now, sent) =>
      if fromA {
        l := k;
        RenewedSendA(s, e, k, cfg, length, now, sent);
      } else if s.b.ch.arq.Off? {
        l := |Next(s, ev).ba|;
        RenewedSendOff(s, e, k, cfg, length, now, sent);
      } else {
        l := k;
        RenewedBack(s, e, k);
        RenewedSendOn(s, e, k, cfg, length, now, sent);
      }
    case Deliver(toB, now, room) =>
      if toB {
        l := k;
        RenewedDeliverB(s, e, k, now, room);
      } else {
        l := if k > 0 then k - 1 else 0;
        RenewedDeliverA(s, e, k, now, room);
      }
    case Lose(toB, i) =>
      l := if !toB && i < k then k - 1 else k;
      if toB { RenewedLoseB(s, e, k, i); } else { RenewedLoseA(s, e, k, i); }
  }

  lemma RenewedBack(s: Sys, e: nat, k: nat)
    requires Renewed(s, e, k) && !s.b.ch.arq.Off?
    ensures s.b.ch.arq.On?
  {
    hide Flow, Swap32, PeerOk;
  }

  lemma {:induction false} RenewedRun(s: Sys, e: nat, k: nat, events: seq<Event>, t: Sys)
    requires Renewed(s, e, k) && PeerOk(s.a) && PeerOk(s.b) && Talk(events) && Run(s, events) == Some(t)
    ensures InOrder(t.a, t.b)
    decreases |events|
  {
    hide Renewed, Next, PeerOk, InOrder;
    if events == [] {
      RenewedInOrder(t, e, k);
    } else {
      assert events[0] in events;
      StepOk(s, events[0]);
      var l := RenewedStep(s, e, k, events[0]);
      RenewedRun(Next(s, events[0]), e, l, events[1..], t);
    }
  }

  lemma RenewedInOrder(s: Sys, e: nat, k: nat)
    requires Renewed(s, e, k)
    ensures InOrder(s.a, s.b)
  {
    hide Flow, PeerOk;
    FlowOrigin(e, Line(s.b), s.a.ch.rcv, Queue(s.b, e), s.a.got, s.ba[k..], s.ab);
  }
}
