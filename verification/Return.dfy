/** Exactly when order survives that one side quits an established session.

    The side that quits can only come back by a handshake that is still in the air or that
    the other side will still send.  It then starts again with empty rings in the same
    session.  That does harm if and only if the side that stayed has heard, or is about to
    hear, a packet from before. */
module Returning {
  import opened Base
  import opened RingSpec
  import opened ChannelSpec
  import opened Session
  import opened Aliasing
  import opened Handshakes
  import opened Quitting
  import opened Renewal
  import Muteness

  // --------------------------------------------------------------- something was heard

  /** `b` has left.  As long as `a` waits for the first packet, all it holds and all that
      arrives still fits into the send ring of `b`. */
  ghost predicate Left(s: Sys, e: nat) {
    && Parted(s, e) && s.b.ch.arq.Off?
    && s.a.ch.rcv.origin == 0 && s.a.ch.rcv.tail == |s.a.got|
    && (s.a.ch.rcv.head == 0 ==>
          && (forall n :: n in s.a.ch.rcv.held ==> n + 1 < s.b.ch.snd.length)
          && (forall f :: f in s.ba && Arrives(f.frame, s.a.ch.rcv.horizon) ==>
                f.frame.sequence.value + 1 < s.b.ch.snd.length))
  }

  /** The first i frames of a link are lost. */
  lemma {:induction false} LoseAhead(s: Sys, toB: bool, i: nat) returns (t: Sys)
    requires PeerOk(s.a) && PeerOk(s.b) && i <= |if toB then s.ab else s.ba|
    ensures Reaches(s, t) && t == if toB then s.(ab := s.ab[i..]) else s.(ba := s.ba[i..])
    decreases i
  {
    hide Reaches, PeerOk;
    ReachSelf(s);
    t := s;
    if i > 0 {
      var u := ReachStep(s, s, Lose(toB, 0));
      t := LoseAhead(u, toB, i - 1);
      ReachTrans(s, u, t);
    }
  }

  /** Something is readable, so it is read. */
  lemma ReadFirst(s: Sys, e: nat) returns (t: Sys)
    requires Left(s, e) && s.a.ch.rcv.head > 0
    ensures Reaches(s, t) && Left(t, e) && t.a.got != [] && t == s.(a := t.a)
  {
    hide Reaches, Swap32, Carries, Advance, SendOk;
    ReachSelf(s);
    t := s;
    if s.a.got == [] {
      t := ReachStep(s, s, Read(true, |s.a.ch.rcv.held[0]|));
    }
  }

  /** `b` comes back. */
  lemma Return(s: Sys, e: nat, i: nat) returns (t: Sys)
    requires Left(s, e) && i < |s.ab| && s.ab[i].frame.handshake.Some?
    ensures Reaches(s, t) && t == s.(ab := s.ab[i + 1..], b := t.b) && Parted(t, e)
    ensures t.b.ch.arq.On? && t.b.ch.snd == SendEmpty(s.b.ch.snd.length, 0) && t.b.ch.rcv.origin == 0
    ensures t.b.pushed[e] == []
  {
    hide Reaches, Swap32, PeerReceive, PeerOk;
    var u := LoseAhead(s, true, i);
    assert u.ab[0] == s.ab[i] && s.ab[i] in s.ab;
    ComesBack(s.b, s.ab[i], 0, true);
    t := ReachStep(s, u, Deliver(true, 0, true));
    assert t.ab == s.ab[i + 1..];
  }

  /** `b` is back and has sent n packets; `a` has read them, but holds a packet k from before. */
  ghost predicate Facing(s: Sys, e: nat, n: nat, k: nat) {
    && Parted(s, e) && s.ba == []
    && s.a.ch.rcv.origin == 0 && s.a.ch.rcv.tail == s.a.ch.rcv.head == n == |s.a.got|
    && s.b.ch.arq.On? && Talking(s.b) && |s.b.pushed[e]| == n
    && s.b.ch.snd == SendState(s.b.ch.snd.length, 0, 0, n, n, s.b.ch.snd.data, [])
    && k in s.a.ch.rcv.held && n < k && k + 1 < s.b.ch.snd.length
  }

  /** `b` sends one more ... */
  lemma OneMoreSent(s: Sys, e: nat, n: nat, k: nat) returns (t: Sys, f: Flight)
    requires Facing(s, e, n, k)
    ensures Reaches(s, t) && PeerOk(t.a) && PeerOk(t.b) && t == s.(b := t.b, ba := [f])
    ensures t.b == s.b.(ch := t.b.ch, pushed := t.b.pushed) && t.b.ch.session == s.b.ch.session
    ensures t.b.ch.arq.On? && Talking(t.b) && e in t.b.pushed && |t.b.pushed[e]| == n + 1
    ensures t.b.ch.snd == SendState(s.b.ch.snd.length, 0, 0, n + 1, n + 1, t.b.ch.snd.data, [])
    ensures f.frame.sequence == Some(Seq8(0, n)) && f.frame.payload == Some(PACKET)
    ensures Carries(f.frame, Swap32(s.b.ch.session))
  {
    hide Reaches, Swap32, Seq8, PeerSend;
    ReachSelf(s);
    var u := ReachStep(s, s, Push(false, PACKET, true));
    var q;
    q, f := SendNext(u.b);
    t := ReachStep(s, u, Send(false, CFG, HEADER_LENGTH, 0, 1));
    assert t.ba == [f];
  }

  /** ... and `a` receives it. */
  lemma OneMore(s: Sys, e: nat, n: nat, k: nat) returns (t: Sys)
    requires Facing(s, e, n, k)
    ensures Reaches(s, t) && Parted(t, e) && t.ba == [] && t.a.got == s.a.got
    ensures t.a.ch.rcv == RcvPush(s.a.ch.rcv, PACKET, Seq8(0, n), true).0
    ensures t.b.ch.arq.On? && Talking(t.b) && |t.b.pushed[e]| == n + 1 && t.b.ch.snd.length == s.b.ch.snd.length
    ensures t.b.ch.snd == SendState(t.b.ch.snd.length, 0, 0, n + 1, n + 1, t.b.ch.snd.data, [])
  {
    hide Reaches, Swap32, Seq8, PeerReceive, RcvPush, CleanTail, PeerOk, Talking;
    var u, f := OneMoreSent(s, e, n, k);
    PartedIds(s, e);
    assert !Adopts(u.a.ch, f.frame);
    KnownReceived(u.a, f, 0, true);
    t := ReachStep(s, u, Deliver(false, 0, true));
  }

  /** The packet a receiver is waiting for makes it go on, over the next one if it has it. */
  lemma GoesOn(r: RcvState, n: nat)
    requires RcvOk(r) && r.origin == 0 && r.tail == r.head == n
    ensures var t := RcvPush(r, PACKET, Seq8(0, n), true).0;
            && t == r.(head := t.head, held := r.held[n := PACKET]) && n < t.head
            && (n + 1 in r.held <==> n + 1 < t.head)
  {
    SequenceDistance(0, n, n);
    var r1 := r.(held := r.held[n := PACKET]);
    assert Advance(r1) == Advance(r1.(head := n + 1));
  }

  /** The packet at the tail is read. */
  lemma ReadsNext(s: Sys, t: Sys, e: nat) returns (u: Sys)
    requires Reaches(s, t) && Parted(t, e) && t.a.ch.rcv.tail < t.a.ch.rcv.head
    ensures Reaches(s, u) && Parted(u, e) && u == t.(a := u.a) && |u.a.got| == |t.a.got| + 1
    ensures var r, r' := t.a.ch.rcv, u.a.ch.rcv;
            && r'.length == r.length && r'.horizon == r.horizon && r'.origin == r.origin
            && r'.tail == r.tail + 1 && r'.held == r.held - {r.tail} && r.head <= r'.head
            && (r.head !in r.held ==> r'.head == r.head)
  {
    hide Reaches, Swap32, Carries, SendOk;
    u := ReachStep(s, t, Read(true, |t.a.ch.rcv.held[t.a.ch.rcv.tail]|));
  }

  /** Packet by packet `b` fills the gap, and then `a` reads what `b` has not queued. */
  lemma {:induction false} FillGap(s: Sys, e: nat, n: nat, k: nat) returns (t: Sys)
    requires Facing(s, e, n, k)
    ensures Reaches(s, t) && !InOrder(t.a, t.b)
    decreases k - n
  {
    hide Reaches, Swap32, Talking, RcvPush, PeerOk, Carries;
    var u := OneMore(s, e, n, k);
    RingsOk(s.a);
    GoesOn(s.a.ch.rcv, n);
    var v := ReadsNext(s, u, e);
    if n + 1 in s.a.ch.rcv.held {
      t := ReadsNext(s, v, e);
    } else {
      t := FillGap(v, e, n + 1, k);
      ReachTrans(s, v, t);
    }
  }

  /** A packet that arrives is received first. */
  lemma ReceiveOld(s: Sys, e: nat, j: nat) returns (t: Sys)
    requires Left(s, e) && s.a.ch.rcv.head == 0 && s.a.ch.rcv.held == map[]
    requires j < |s.ba| && Arrives(s.ba[j].frame, s.a.ch.rcv.horizon)
    ensures Reaches(s, t) && Left(t, e) && t.ab == s.ab && t.b == s.b
    ensures t.a.ch.rcv.head > 0 || t.a.ch.rcv.held != map[]
  {
    hide Reaches, Swap32, PeerReceive, RcvPush, CleanTail;
    var u := LoseAhead(s, false, j);
    var f, r := s.ba[j], s.a.ch.rcv;
    assert u.ba[0] == f && f in s.ba;
    PartedIds(u, e);
    KnownReceived(u.a, f, 0, true);
    TakenIn(r, f.frame);
    t := ReachStep(s, u, Deliver(false, 0, true));
    assert t.ba == s.ba[j + 1..];
  }

  lemma TakenIn(r: RcvState, f: Frame)
    requires RcvOk(r) && r.origin == 0 && r.head == 0 && r.held == map[] && Arrives(f, r.horizon)
    ensures var t := RcvPush(r, f.payload.value, f.sequence.value, true).0;
            && t == r.(head := t.head, held := map[f.sequence.value as nat := f.payload.value])
            && t.held != map[] && (t.head == 0 || t.head == 1)
  {
    hide Advance, Seq8, Sub8;
    var q: nat := f.sequence.value;
    var r1 := r.(held := map[q := f.payload.value]);
    assert r.held[q := f.payload.value] == r1.held && q in r1.held;
    assert Sub8(f.sequence.value, Seq8(0, 0)) == q by { FromZero(f.sequence.value); }
    AdvanceOne(r1, q);
  }

  lemma FromZero(q: byte)
    ensures Sub8(q, Seq8(0, 0)) == q
  {
  }

  lemma AdvanceOne(r: RcvState, q: nat)
    requires RcvShape(r) && r.head == 0 && r.held.Keys == {q}
    ensures Advance(r).head <= 1
  {
    if q == 0 && !Choked(r) {
      assert Advance(r) == Advance(r.(head := 1));
    }
  }

  /** With a handshake on its way to `b`, what `a` has heard does harm. */
  lemma Comeback(s: Sys, e: nat, i: nat) returns (t: Sys)
    requires Left(s, e) && i < |s.ab| && s.ab[i].frame.handshake.Some? && !Unheard(s.a, s.ba)
    ensures Reaches(s, t) && !InOrder(t.a, t.b)
  {
    hide Reaches, Swap32, Arrives, Parted, RcvOk;
    var u := s;
    LeftOk(s, e);
    ReachSelf(s);
    if s.a.ch.rcv.head == 0 && s.a.ch.rcv.held == map[] {
      var f :| f in s.ba && Arrives(f.frame, s.a.ch.rcv.horizon);
      var j :| 0 <= j < |s.ba| && s.ba[j] == f;
      u := ReceiveOld(s, e, j);
    }
    t := HeardBefore(u, e, i);
    ReachTrans(s, u, t);
  }

  lemma LeftOk(s: Sys, e: nat)
    requires Left(s, e)
    ensures PeerOk(s.a) && PeerOk(s.b) && s.a.ch.arq.On? && s.a.epoch == e && e in s.b.pushed
  {
    hide PeerOk;
  }

  lemma HeardBefore(s: Sys, e: nat, i: nat) returns (t: Sys)
    requires Left(s, e) && i < |s.ab| && s.ab[i].frame.handshake.Some?
    requires s.a.ch.rcv.head > 0 || s.a.ch.rcv.held != map[]
    ensures Reaches(s, t) && !InOrder(t.a, t.b)
  {
    hide Reaches, Swap32, Arrives, Carries, PeerOk;
    if s.a.ch.rcv.head > 0 {
      var u := ReadFirst(s, e);
      t := Return(u, e, i);
      ReachTrans(s, u, t);
    } else {
      var k :| k in s.a.ch.rcv.held;
      var u := LoseAhead(s, false, |s.ba|);
      assert u.ba == [];
      var v := Return(u, e, i);
      GapFirst(v, e, k);
      t := FillGap(v, e, 0, k);
      ReachTrans(s, u, v);
      ReachTrans(s, v, t);
    }
  }

  lemma GapFirst(s: Sys, e: nat, k: nat)
    requires Parted(s, e) && s.ba == [] && s.a.ch.rcv.origin == 0 && s.a.ch.rcv.head == 0
    requires s.a.ch.rcv.tail == |s.a.got| && k in s.a.ch.rcv.held && k + 1 < s.b.ch.snd.length
    requires s.b.ch.arq.On? && s.b.ch.snd == SendEmpty(s.b.ch.snd.length, 0) && s.b.ch.rcv.origin == 0
    requires s.b.pushed[e] == []
    ensures Facing(s, e, 0, k)
  {
    hide Swap32, Carries, ChannelOk, RcvOk;
    FirstMissing(s.a);
  }

  lemma FirstMissing(p: Peer)
    requires PeerOk(p) && p.ch.rcv.head == 0
    ensures 0 !in p.ch.rcv.held && p.ch.rcv.tail == 0
  {
    hide SendOk;
  }

  // ------------------------------------------------------------------ pending answers

  /** `a` sends the answer it owes. */
  lemma AnswerSent(s: Sys, e: nat) returns (t: Sys)
    requires Left(s, e) && s.a.ch.handshakeSend > 0 && Answerable(s.a.ch.snd) && !Unheard(s.a, s.ba)
    ensures Reaches(s, t) && Left(t, e) && !Unheard(t.a, t.ba)
    ensures |t.ab| > 0 && t.ab[|t.ab| - 1].frame.handshake.Some?
  {
    hide Reaches, Swap32, PeerSend, Arrives, Describes, ChannelOk;
    var u := Unmuted(s, e);
    OnSends(u.a, CFG, HEADER_LENGTH, 0, 1);
    SendEffect(u.a, CFG, HEADER_LENGTH, 0, 1);
    Heard(u.a);
    t := ReachStep(s, u, Send(true, CFG, HEADER_LENGTH, 0, 1));
    var out := PeerSend(u.a, CFG, HEADER_LENGTH, 0, 1).1;
    assert t.ab == u.ab + [out[0]] && out[0] in out;
  }

  lemma Unmuted(s: Sys, e: nat) returns (t: Sys)
    requires Left(s, e) && s.a.ch.handshakeSend > 0 && Answerable(s.a.ch.snd)
    ensures Reaches(s, t) && Left(t, e) && t == s.(a := t.a) && t.a.ch.rcv == s.a.ch.rcv
    ensures t.a.ch.handshakeSend > 0 && !Muteness.Mute(t.a.ch)
  {
    hide Reaches, Swap32, Arrives, Carries;
    ReachSelf(s);
    t := s;
    if Muteness.Mute(s.a.ch) {
      assert s.a.ch.snd.resend[0] in s.a.ch.snd.resend;
      t := ReachStep(s, s, Push(true, PACKET, true));
    }
  }

  lemma Heard(p: Peer)
    requires PeerOk(p) && !Muteness.Mute(p.ch)
    ensures |PeerSend(p, CFG, HEADER_LENGTH, 0, 1).1| == 1
  {
    hide FillFrame, Muteness.Mute;
    Muteness.FillFailsIffMute(p.ch, CFG, HEADER_LENGTH, 0, 1);
  }

  /** `a` receives an opening and owes an answer. */
  lemma CallTaken(s: Sys, e: nat, i: nat) returns (t: Sys)
    requires Left(s, e) && i < |s.ba| && s.a.ch.snd.tail == 0 && s.a.ch.snd.resend == [] && !Unheard(s.a, s.ba)
    requires s.ba[i].frame.handshake.Some? && OpensOnly(s.ba[i].frame)
    requires forall j :: 0 <= j < i ==> Bare(s.ba[j].frame)
    ensures Reaches(s, t) && Left(t, e) && !Unheard(t.a, t.ba)
    ensures t.a.ch.handshakeSend > 0 && Answerable(t.a.ch.snd)
  {
    hide Reaches, Swap32, PeerReceive, Carries;
    var u := LoseAhead(s, false, i);
    var f := s.ba[i];
    assert u.ba[0] == f && f in s.ba;
    PartedIds(u, e);
    CallHeard(u.a, f);
    t := ReachStep(s, u, Deliver(false, 0, true));
    assert t.ba == s.ba[i + 1..];
    if s.a.ch.rcv.head == 0 && s.a.ch.rcv.held == map[] {
      var g :| g in s.ba && Arrives(g.frame, s.a.ch.rcv.horizon);
      var j :| 0 <= j < |s.ba| && s.ba[j] == g;
      assert j > i;
      assert g == t.ba[j - i - 1];
    }
  }

  lemma CallHeard(p: Peer, f: Flight)
    requires PeerOk(p) && p.ch.arq.On? && !Adopts(p.ch, f.frame) && OpensOnly(f.frame) && f.frame.handshake.Some?
    requires p.ch.snd.tail == 0 && p.ch.snd.resend == []
    ensures var q := PeerReceive(p, f, 0, true);
            q == p.(ch := p.ch.(handshakeSend := 1)) && PeerOk(q) && Answerable(q.ch.snd)
  {
    hide ProcessFrame;
    BareKnown(p.ch, f.frame, 0, true);
  }

  // ----------------------------------------------------------------- exact condition

  /** What the flow of an established session says about the side that stays. */
  lemma FlowLeft(e: nat, s: SendState, r: RcvState, pushed: seq<Bytes>, got: seq<Bytes>,
                 data: seq<Flight>, acks: seq<Flight>)
    requires Flow(e, s, r, pushed, got, data, acks) && forall f :: f in data ==> f.stamp.epoch == e
    ensures r.origin == 0 && r.tail == |got|
    ensures r.head == 0 ==> forall n :: n in r.held ==> n + 1 < s.length
    ensures r.head == 0 ==>
              forall f :: f in data && Arrives(f.frame, r.horizon) ==> f.frame.sequence.value + 1 < s.length
  {
    hide AckOk;
  }

  /** If it has heard nothing, the session may as well start again. */
  lemma FlowAgain(e: nat, s: SendState, r: RcvState, pushed: seq<Bytes>, got: seq<Bytes>,
                  data: seq<Flight>, acks: seq<Flight>)
    requires Flow(e, s, r, pushed, got, data, acks) && r.head == 0 && r.held == map[]
    ensures Flow(e, SendEmpty(s.length, 0), r, [], got, [], acks)
  {
    hide FlightOk;
    forall i | 0 <= i < |acks| && acks[i].stamp.epoch == e ensures AckOk(acks[i], SendEmpty(s.length, 0), r) {
      assert AckOk(acks[i], s, r);
    }
  }

  lemma QuitLeavesA(s: Sys)
    requires Inv(s) && s.a.ch.arq.On? && Fits(s.b, s.a)
    ensures Left(QuitB(s), s.a.epoch)
    ensures Unheard(s.a, s.ba) ==> Renewed(QuitB(s), s.a.epoch, |s.ba|)
  {
    hide Sink, Source, Swap32, Openings, Arrives, ChannelOk;
    var e := s.a.epoch;
    QuitOk(s.b);
    FlowLeft(e, s.b.ch.snd, s.a.ch.rcv, s.b.pushed[e], s.a.got, s.ba, s.ab);
    if Unheard(s.a, s.ba) {
      FlowAgain(e, s.b.ch.snd, s.a.ch.rcv, s.b.pushed[e], s.a.got, s.ba, s.ab);
      assert s.ba[|s.ba|..] == [];
    }
  }

  lemma QuitLeavesB(s: Sys)
    requires Inv(s) && s.a.ch.arq.On? && Fits(s.a, s.b)
    ensures Left(Flip(QuitA(s)), s.b.epoch)
    ensures Unheard(s.b, s.ab) ==> Renewed(Flip(QuitA(s)), s.b.epoch, |s.ab|)
  {
    hide Sink, Source, Swap32, Openings, Arrives, ChannelOk;
    var e := s.a.epoch;
    QuitOk(s.a);
    SwapIsInvolution(s.a.ch.session);
    FlowLeft(e, s.a.ch.snd, s.b.ch.rcv, s.a.pushed[e], s.b.got, s.ab, s.ba);
    if Unheard(s.b, s.ab) {
      FlowAgain(e, s.a.ch.snd, s.b.ch.rcv, s.a.pushed[e], s.b.got, s.ab, s.ba);
      assert s.ab[|s.ab|..] == [];
    }
  }

  /** A run exists in which `a` reads what `b` has not queued, if `b` quits and a handshake
      is on its way to it. */
  lemma QuitHarmsA(s: Sys) returns (t: Sys)
    requires Inv(s) && s.a.ch.arq.On? && Fits(s.b, s.a) && !NoHandshakes(s.ab) && !Unheard(s.a, s.ba)
    ensures Reaches(QuitB(s), t) && !InOrder(t.a, t.b)
  {
    hide Inv, Left, Unheard, InOrder, Reaches, Renewed, Fits;
    QuitLeavesA(s);
    SameLinks(s);
    var f :| f in s.ab && f.frame.handshake.Some?;
    var i :| 0 <= i < |s.ab| && s.ab[i] == f;
    t := Comeback(QuitB(s), s.a.epoch, i);
  }

  lemma SameLinks(s: Sys)
    ensures var u := QuitB(s); u.a == s.a && u.ab == s.ab && u.ba == s.ba
    ensures var u := Flip(QuitA(s)); u.a == s.b && u.ab == s.ba && u.ba == s.ab
  {
  }

  /** Likewise if `a` quits: `b` may still have to answer an opening. */
  lemma QuitHarmsB(s: Sys) returns (t: Sys)
    requires Inv(s) && Calls(s) && Answers(s) && s.a.ch.arq.On? && s.b.ch.arq.On? && Fits(s.a, s.b)
    requires !NoHandshakes(s.ab) || !NoHandshakes(s.ba) || s.b.ch.handshakeSend != 0
    requires !Unheard(s.b, s.ab)
    ensures Reaches(Flip(QuitA(s)), t) && !InOrder(t.a, t.b)
  {
    hide Inv, Left, Unheard, InOrder, Reaches, Renewed, Fits, OpensOnly, Answerable, Calls;
    var e, u := s.b.epoch, Flip(QuitA(s));
    QuitLeavesB(s);
    SameLinks(s);
    if !NoHandshakes(s.ba) {
      var f :| f in s.ba && f.frame.handshake.Some?;
      var i :| 0 <= i < |s.ba| && s.ba[i] == f;
      t := Comeback(u, e, i);
    } else if s.b.ch.handshakeSend != 0 {
      t := AnswerHarms(u, e);
    } else {
      var f :| f in s.ab && f.frame.handshake.Some?;
      var i :| 0 <= i < |s.ab| && s.ab[i] == f;
      CallsFirst(s, i);
      var v := CallTaken(u, e, i);
      t := AnswerHarms(v, e);
      ReachTrans(u, v, t);
    }
  }

  lemma CallsFirst(s: Sys, i: nat)
    requires Inv(s) && Calls(s) && Answers(s) && s.a.ch.arq.On? && s.b.ch.arq.On?
    requires i < |s.ab| && s.ab[i].frame.handshake.Some?
    ensures OpensOnly(s.ab[i].frame) && s.b.ch.snd.tail == 0 && s.b.ch.snd.resend == []
    ensures forall j :: 0 <= j < i ==> Bare(s.ab[j].frame)
  {
    hide FlowToA, FlowToB, Swap32, Answerable, OpensOnly, Bare, PeerOk, Openings;
    assert s.ab[i] in s.ab;
    assert s.ab[i].stamp.epoch == s.b.epoch;
    forall j | 0 <= j < i ensures Bare(s.ab[j].frame) {
      assert Before(s.ab[j], s.ab[i]);
    }
  }

  lemma AnswerHarms(s: Sys, e: nat) returns (t: Sys)
    requires Left(s, e) && s.a.ch.handshakeSend > 0 && Answerable(s.a.ch.snd) && !Unheard(s.a, s.ba)
    ensures Reaches(s, t) && !InOrder(t.a, t.b)
  {
    hide Left, Unheard, InOrder, Reaches, Answerable;
    var u := AnswerSent(s, e);
    t := Comeback(u, e, |u.ab| - 1);
    ReachTrans(s, u, t);
  }

  lemma SurvivesUnheard(s: Sys, e: nat, k: nat, t: Sys)
    requires Renewed(s, e, k) && Reaches(s, t)
    ensures InOrder(t.a, t.b)
  {
    hide Renewed, Run, PeerOk, InOrder;
    var events :| Talk(events) && Run(s, events) == Some(t);
    RenewedRun(s, e, k, events, t);
  }

  lemma ShapeReaches(s: Sys, t: Sys)
    requires Reaches(s, t)
    ensures (Fits(t.a, t.b) <==> Fits(s.a, s.b)) && (Fits(t.b, t.a) <==> Fits(s.b, s.a))
  {
    hide Run, Fits, PeerOk;
    var events :| Talk(events) && Run(s, events) == Some(t);
    RunShape(s, events);
  }

  /** The responder quits an established session: the initiator reads, in every run up to the
      next connect, a prefix of what was queued for it if and only if no opening is on its way
      to the responder or the initiator has heard nothing yet. */
  lemma ResponderQuits(start: Sys, s: Sys)
    requires Reachable(start, s) && s.a.ch.arq.On? && Fits(s.b, s.a)
    ensures (forall t :: Reaches(QuitB(s), t) ==> InOrder(t.a, t.b)) <==>
              NoHandshakes(s.ab) || Unheard(s.a, s.ba)
    ensures NoHandshakes(s.ab) ==> forall t :: Reaches(QuitB(s), t) ==> InOrder(t.b, t.a)
  {
    hide Inv, Reachable, Reaches, InOrder, Unheard, NoHandshakes, Renewed, Left, Swap32, Fits;
    ReachableInv(start, s);
    SessionAgreement(start, s);
    Epochs(s);
    if NoHandshakes(s.ab) || Unheard(s.a, s.ba) {
      forall t | Reaches(QuitB(s), t) ensures InOrder(t.a, t.b) && (NoHandshakes(s.ab) ==> InOrder(t.b, t.a)) {
        if NoHandshakes(s.ab) {
          QuitSurvives(start, s, t);
          ShapeReaches(QuitB(s), t);
          QuitFits(s);
        } else {
          QuitLeavesA(s);
          SurvivesUnheard(QuitB(s), s.a.epoch, |s.ba|, t);
        }
      }
    } else {
      var t := QuitHarmsA(s);
    }
  }

  lemma Epochs(s: Sys)
    requires Inv(s) && s.a.ch.arq.On?
    ensures 0 < s.a.epoch == s.b.epoch
  {
    hide Links, FlowToA, FlowToB, PeerOk, Swap32;
  }

  lemma QuitFits(s: Sys)
    ensures Fits(QuitB(s).b, QuitB(s).a) <==> Fits(s.b, s.a)
    ensures Fits(QuitA(s).a, QuitA(s).b) <==> Fits(s.a, s.b)
  {
  }

  /** The initiator quits: likewise for what the responder reads, and it must not owe an
      answer nor have an opening before it. */
  lemma InitiatorQuits(start: Sys, s: Sys)
    requires Reachable(start, s) && s.a.ch.arq.On? && Fits(s.a, s.b)
    ensures (forall t :: Reaches(QuitA(s), t) ==> InOrder(t.b, t.a)) <==>
              (NoHandshakes(s.ab) && NoHandshakes(s.ba) && s.b.ch.handshakeSend == 0) || Unheard(s.b, s.ab)
    ensures NoHandshakes(s.ab) && NoHandshakes(s.ba) && s.b.ch.handshakeSend == 0 ==>
              forall t :: Reaches(QuitA(s), t) ==> InOrder(t.a, t.b)
  {
    hide Inv, Reachable, Reaches, InOrder, Unheard, NoHandshakes, Renewed, Left, Swap32, Fits, Calls, Answers, QuitA;
    ReachableInv(start, s);
    HandshakeOrder(start, s);
    SessionAgreement(start, s);
    Epochs(s);
    var u := Flip(QuitA(s));
    var quiet := NoHandshakes(s.ab) && NoHandshakes(s.ba) && s.b.ch.handshakeSend == 0;
    if quiet || Unheard(s.b, s.ab) {
      forall t | Reaches(QuitA(s), t) ensures InOrder(t.b, t.a) && (quiet ==> InOrder(t.a, t.b)) {
        if quiet {
          QuitSurvives(start, s, t);
          ShapeReaches(QuitA(s), t);
          QuitFits(s);
        } else {
          QuitLeavesB(s);
          FlipReaches(QuitA(s), t);
          SurvivesUnheard(u, s.b.epoch, |s.ab|, Flip(t));
        }
      }
    } else {
      var t := QuitHarmsB(s);
      FlipReaches(u, t);
      assert Flip(u) == QuitA(s);
      assert Reaches(QuitA(s), Flip(t));
    }
  }
}
