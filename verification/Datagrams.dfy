/** Two channels that never connect.  With ARQ off a channel is an unreliable datagram service
    (src/reliable_vc.c:214-237, 281-287, 391-418, 587-592): packets may be lost, but what is
    read is what was queued, in the order in which it was queued. */
module Datagrams {
  import opened Base
  import opened RingSpec
  import opened ChannelSpec
  import opened Session
  import opened Aliasing
  import opened Quitting

  // ----------------------------------------------------------------------- one channel

  /** The packets in the receive ring form a row that starts at the tail.  The last of them
      stands at the head, rather than before it, if the ring is choked. */
  function RowEnd(r: RcvState): nat {
    if r.head in r.held then r.head + 1 else r.head
  }

  ghost predicate Row(r: RcvState) {
    RcvOk(r) && forall n :: n in r.held ==> n < RowEnd(r)
  }

  function Stored(r: RcvState): seq<Bytes>
    requires Row(r)
  {
    seq(RowEnd(r) - r.tail, i requires 0 <= i < RowEnd(r) - r.tail => r.held[r.tail + i])
  }

  /** The receive ring has taken a packet that it has not yet been able to pass. */
  predicate Clogged(r: RcvState) {
    r.head in r.held
  }

  /** The head moves over at most one packet. */
  lemma RowAdvance(r: RcvState)
    requires RcvShape(r) && forall n :: n in r.held ==> n <= r.head
    ensures Row(Advance(r)) && RowEnd(Advance(r)) == RowEnd(r)
  {
    if r.head in r.held && !Choked(r) {
      assert Advance(r) == Advance(r.(head := r.head + 1));
    }
  }

  lemma RowPush(r: RcvState, payload: Bytes, room: bool)
    requires Row(r)
    ensures var t := RcvPush(r, payload, Seq8(r.origin, r.head), room).0;
            && Row(t)
            && (if !Clogged(r) && room then Stored(t) == Stored(r) + [payload] else t == r)
  {
    hide Advance, RcvOk, Seq8, Sub8;
    SequenceDistance(r.origin, r.head, r.head);
    if !Clogged(r) && room {
      var r1 := r.(held := r.held[r.head := payload]);
      RowShape(r, r1);
      RowAdvance(r1);
      assert Stored(Advance(r1)) == Stored(r) + [payload];
    }
  }

  lemma RowShape(r: RcvState, r1: RcvState)
    requires Row(r)
    ensures r1 == r.(held := r1.held) && r1.held.Keys == r.held.Keys + {r.head} ==> RcvShape(r1)
    ensures r.tail < r.head && r1 == r.(tail := r.tail + 1, held := r.held - {r.tail}) ==> RcvShape(r1)
    ensures r.tail <= RowEnd(r) && (r.tail == RowEnd(r) <==> r.tail == r.head)
    ensures forall n :: r.tail <= n < RowEnd(r) ==> n in r.held
    ensures forall n :: n in r.held ==> n <= r.head
    ensures RowEnd(r.(tail := r.tail + 1, held := r.held - {r.tail})) == RowEnd(r) || r.tail == r.head
  {
  }

  lemma RowRead(r: RcvState, max: nat)
    requires Row(r)
    ensures var (t, ret, p) := RcvRead(r, max);
            && Row(t)
            && (ret == SKY_RET_OK <==> Stored(r) != [] && |Stored(r)[0]| <= max)
            && (if ret == SKY_RET_OK then Stored(r) == [p] + Stored(t) else t == r)
  {
    hide Advance, RcvOk, RcvShape, Choked, RowEnd;
    var r1 := r.(tail := r.tail + 1, held := r.held - {r.tail});
    RowShape(r, r1);
    if r.tail < r.head && |r.held[r.tail]| <= max {
      RowAdvance(r1);
      StoredRest(r, Advance(r1));
    }
  }

  lemma StoredRest(r: RcvState, t: RcvState)
    requires Row(r) && Row(t) && RowEnd(t) == RowEnd(r) && t.tail == r.tail + 1 && t.held == r.held - {r.tail}
    ensures r.tail in r.held && Stored(r) == [r.held[r.tail]] + Stored(t)
  {
    hide RcvShape, Choked, RowEnd;
    RowShape(r, r);
    RowShape(t, t);
  }

  /** A frame with a payload reaches a channel whose ARQ is off: the payload goes behind all
      that is stored, unless there is no room for it. */
  lemma OffReceives(c: Channel, f: Frame, now: int, room: bool)
    requires ChannelOk(c) && c.arq.Off? && f.handshake.None? && Row(c.rcv)
    ensures var (d, ret) := ProcessFrame(c, f, now, room);
            && d == c.(rcv := d.rcv) && Row(d.rcv) && ret == 0
            && Stored(d.rcv) == (if PayloadLength(f) > 0 && !Clogged(c.rcv) && room
                                 then Stored(c.rcv) + [f.payload.value] else Stored(c.rcv))
  {
    hide RcvPush, Seq8;
    if PayloadLength(f) > 0 { RowPush(c.rcv, f.payload.value, room); }
  }

  /** All that is in the send ring is unsent. */
  ghost predicate Unsent(s: SendState) {
    SendOk(s) && s.tail == s.tx
  }

  /** A channel whose ARQ is off fills a frame with the first packet queued, which leaves the
      ring, unless that is empty. */
  lemma OffSends(c: Channel, cfg: ArqConfig, length: nat, now: int, sent: nat)
    requires ChannelOk(c) && c.arq.Off? && Unsent(c.snd)
    ensures var f := FillFrame(c, cfg, length, now, sent);
            && f.channel == c.(snd := f.channel.snd) && Unsent(f.channel.snd)
            && (if c.snd.data != [] && c.snd.data[0] != []
                then f.ret == 1 && f.frame == EMPTY_FRAME.(payload := Some(c.snd.data[0]))
                     && c.snd.data == [c.snd.data[0]] + f.channel.snd.data
                else f.ret == 0 && f.frame == EMPTY_FRAME && f.channel == c)
  {
    hide Seq8, Sub8, RcvOk, CleanTail;
    var s := c.snd;
    if s.tx < s.head {
      assert s.data[0] in s.data;
      DropsFirst(s.(tx := s.tx + 1));
    }
  }

  lemma DropsFirst(s: SendState)
    requires SendOk(s) && s.tx == s.tail + 1
    ensures CleanTail(s, Seq8(s.origin, s.tx)).0 == s.(tail := s.tx, data := s.data[1..])
  {
    hide Seq8, Sub8;
    SequenceDistance(s.origin, s.tail, s.tx);
  }

  /** A packet is refused as one too many if and only if length - 1 packets are unsent. */
  lemma OffPushes(c: Channel, payload: Bytes, room: bool)
    requires ChannelOk(c) && Unsent(c.snd) && |payload| <= SKY_PAYLOAD_MAX_LEN
    ensures var (d, ret) := PushPacket(c, payload, room);
            && d == c.(snd := d.snd) && Unsent(d.snd)
            && (ret == SKY_RET_RING_RING_FULL <==> |c.snd.data| == c.snd.length - 1)
            && (ret >= 0 <==> |c.snd.data| < c.snd.length - 1 && room)
            && d.snd.data == if ret >= 0 then c.snd.data + [payload] else c.snd.data
  {
  }

  // ---------------------------------------------------------------------- two channels

  function Carried(f: Flight): seq<Bytes> {
    if f.frame.payload.Some? then [f.frame.payload.value] else []
  }

  function Payloads(link: seq<Flight>): seq<Bytes> {
    if link == [] then [] else Carried(link[0]) + Payloads(link[1..])
  }

  lemma {:induction false} PayloadsAppend(xs: seq<Flight>, ys: seq<Flight>)
    ensures Payloads(xs + ys) == Payloads(xs) + Payloads(ys)
  {
    hide Carried;
    if xs == [] {
      assert xs + ys == ys;
    } else {
      PayloadsAppend(xs[1..], ys);
      assert (xs + ys)[1..] == xs[1..] + ys && (xs + ys)[0] == xs[0];
    }
  }

  /** Frames of a side that is not connected. */
  ghost predicate Plain(link: seq<Flight>) {
    forall f :: f in link ==> Meaningless(f.frame) && (f.frame.payload.Some? ==> f.frame.payload.value != [])
  }

  /** `a` sends datagrams to `b`. */
  ghost predicate Unconnected(s: Sys) {
    && PeerOk(s.a) && PeerOk(s.b)
    && s.a.ch.arq.Off? && s.b.ch.arq.Off? && s.a.epoch == s.b.epoch == 0
    && Unsent(s.a.ch.snd) && Unsent(s.b.ch.snd) && Row(s.a.ch.rcv) && Row(s.b.ch.rcv)
    && Plain(s.ab) && Plain(s.ba)
  }

  /** All that was queued at `a` and not lost: read by `b`, stored there, in the air and
      still queued. */
  function Known(s: Sys): seq<Bytes>
    requires Row(s.b.ch.rcv)
  {
    s.b.got + Stored(s.b.ch.rcv) + Payloads(s.ab) + s.a.ch.snd.data
  }

  /** The step loses a packet on its way to `b`. */
  predicate Drops(s: Sys, e: Event) {
    match e
    case Lose(toB, i) => toB && i < |s.ab| && s.ab[i].frame.payload.Some?
    case Deliver(toB, _, room) =>
      toB && s.ab != [] && s.ab[0].frame.payload.Some? && (Clogged(s.b.ch.rcv) || !room)
    case _ => false
  }

  /** What the step adds to the queue of `a`. */
  function Added(s: Sys, e: Event): seq<Bytes> {
    if e.Push? && e.atA && PushPacket(s.a.ch, e.payload, e.room).1 >= 0 then [e.payload] else []
  }

  /** What one step does. */
  ghost predicate Moves(s: Sys, e: Event, t: Sys)
    requires Unconnected(s)
  {
    && Unconnected(t)
    && t.a.pushed == s.a.pushed[0 := s.a.pushed[0] + Added(s, e)]
    && (!Drops(s, e) ==> Known(t) == Known(s) + Added(s, e))
    && (Drops(s, e) ==> Added(s, e) == [] && Thinned(Known(s), Known(t)))
  }

  lemma SamePushed(s: Sys)
    requires Unconnected(s)
    ensures s.a.pushed == s.a.pushed[0 := s.a.pushed[0] + []]
  {
    assert s.a.pushed[0] + [] == s.a.pushed[0];
  }

  lemma PushMoves(s: Sys, atA: bool, payload: Bytes, room: bool)
    requires Unconnected(s)
    ensures Moves(s, Push(atA, payload, room), Next(s, Push(atA, payload, room)))
  {
    hide Row, ChannelOk, Plain, Thinned, Stored, Payloads, Unsent, PushPacket, SendPush;
    SamePushed(s);
    var p := if atA then s.a else s.b;
    PushOk(p, payload, room);
    PushQueues(p, payload, room);
    var t := Next(s, Push(atA, payload, room));
    assert Known(t) == Known(s) + Added(s, Push(atA, payload, room));
  }

  lemma PushQueues(p: Peer, payload: Bytes, room: bool)
    requires PeerOk(p) && Unsent(p.ch.snd)
    ensures var q := PeerPush(p, payload, room);
            && Unsent(q.ch.snd)
            && (if PushPacket(p.ch, payload, room).1 >= 0
                then q.ch.snd.data == p.ch.snd.data + [payload]
                     && q.pushed == p.pushed[p.epoch := p.pushed[p.epoch] + [payload]]
                else q.ch.snd.data == p.ch.snd.data && q.pushed == p.pushed)
  {
    hide ChannelOk;
  }

  lemma ReadMoves(s: Sys, atA: bool, max: nat)
    requires Unconnected(s)
    ensures Moves(s, Read(atA, max), Next(s, Read(atA, max)))
  {
    hide Row, Stored, SendOk, RcvOk, RcvRead, Plain, Thinned, Unsent;
    SamePushed(s);
    var p := if atA then s.a else s.b;
    RowRead(p.ch.rcv, max);
    var t := Next(s, Read(atA, max));
    assert Known(t) == Known(s) + [];
  }

  /** Sending, receiving and losing keep both sides unconnected ... */
  lemma SendStays(s: Sys, fromA: bool, cfg: ArqConfig, length: nat, now: int, sent: nat)
    requires Unconnected(s)
    ensures Unconnected(Next(s, Send(fromA, cfg, length, now, sent)))
  {
    hide Row, ChannelOk, FillFrame, Unsent, Meaningless;
    var p := if fromA then s.a else s.b;
    OffSends(p.ch, cfg, length, now, sent);
    SendOffEffect(p, cfg, length, now, sent);
    OffFrames(p, cfg, length, now, sent);
  }

  lemma DeliverStays(s: Sys, toB: bool, now: int, room: bool)
    requires Unconnected(s) && Enabled(s, Deliver(toB, now, room))
    ensures Unconnected(Next(s, Deliver(toB, now, room)))
  {
    hide Row, ChannelOk, ProcessFrame, Unsent;
    var p, f := if toB then s.b else s.a, if toB then s.ab[0] else s.ba[0];
    assert f in if toB then s.ab else s.ba;
    OffReceives(p.ch, f.frame, now, room);
    ChannelKeeps(p.ch, f.frame, now, room);
  }

  lemma LoseStays(s: Sys, toB: bool, i: nat)
    requires Unconnected(s) && Enabled(s, Lose(toB, i))
    ensures Unconnected(Next(s, Lose(toB, i)))
  {
    hide Row, PeerOk, Unsent, Meaningless;
  }

  /** ... and move packets on. */
  lemma SendMoves(s: Sys, cfg: ArqConfig, length: nat, now: int, sent: nat)
    requires Unconnected(s)
    ensures Known(Next(s, Send(true, cfg, length, now, sent))) == Known(s)
  {
    hide Row, Stored, ChannelOk, FillFrame, Plain, Payloads;
    OffSends(s.a.ch, cfg, length, now, sent);
    SendOffEffect(s.a, cfg, length, now, sent);
    var (q, out) := PeerSend(s.a, cfg, length, now, sent);
    PayloadsAppend(s.ab, out);
    assert |out| == 1;
    PayloadsOne(out);
    Passed(s.b.got + Stored(s.b.ch.rcv), Payloads(s.ab), Carried(out[0]), q.ch.snd.data, []);
  }

  lemma PayloadsOne(link: seq<Flight>)
    requires |link| == 1
    ensures Payloads(link) == Carried(link[0])
  {
    assert link[1..] == [];
    assert Payloads([]) == [];
  }

  lemma DeliverMoves(s: Sys, now: int, room: bool)
    requires Unconnected(s) && s.ab != [] && Unconnected(Next(s, Deliver(true, now, room)))
    ensures var t := Next(s, Deliver(true, now, room));
            if Drops(s, Deliver(true, now, room)) then Thinned(Known(s), Known(t)) else Known(t) == Known(s)
  {
    hide Row, Stored, ChannelOk, ProcessFrame, Thinned, Meaningless;
    var f := s.ab[0];
    assert f in s.ab;
    assert f.frame.handshake.None? by { PlainFrame(f.frame); }
    OffReceives(s.b.ch, f.frame, now, room);
    Passed(s.b.got, Stored(s.b.ch.rcv), Carried(f), Payloads(s.ab[1..]), s.a.ch.snd.data);
  }

  /** A packet goes from the air to the receiver, or disappears. */
  lemma Passed(got: seq<Bytes>, stored: seq<Bytes>, x: seq<Bytes>, rest: seq<Bytes>, queue: seq<Bytes>)
    requires |x| <= 1
    ensures got + (stored + x) + rest + queue == got + stored + (x + rest) + queue
    ensures x == [] ==> got + stored + rest + queue == got + stored + (x + rest) + queue
    ensures x != [] ==> Thinned(got + stored + (x + rest) + queue, got + stored + rest + queue)
  {
    hide Thinned;
    if x != [] {
      OneDropped(got + stored, x[0], rest + queue);
      assert got + stored + (x + rest) + queue == got + stored + [x[0]] + (rest + queue);
      assert got + stored + rest + queue == got + stored + (rest + queue);
    }
  }

  lemma PlainFrame(f: Frame)
    requires Meaningless(f)
    ensures f.handshake.None?
  {
  }

  lemma OneDropped(xs: seq<Bytes>, x: Bytes, ys: seq<Bytes>)
    ensures Thinned(xs + [x] + ys, xs + ys)
  {
    hide Thinned;
    ThinnedWithout(xs + [x] + ys, |xs|);
    assert Without(xs + [x] + ys, |xs|) == xs + ys;
  }

  lemma LoseMoves(s: Sys, i: nat)
    requires Unconnected(s) && i < |s.ab| && Unconnected(Next(s, Lose(true, i)))
    ensures var t := Next(s, Lose(true, i));
            if Drops(s, Lose(true, i)) then Thinned(Known(s), Known(t)) else Known(t) == Known(s)
  {
    hide Stored, Thinned, Payloads, Row, PeerOk, Plain, Unsent;
    var before, after := s.ab[..i], s.ab[i + 1..];
    PayloadsWithout(s.ab, i);
    var front, queue := s.b.got + Stored(s.b.ch.rcv), s.a.ch.snd.data;
    if s.ab[i].frame.payload.Some? {
      var x := s.ab[i].frame.payload.value;
      OneDropped(front + Payloads(before), x, Payloads(after) + queue);
      assert Known(s) == front + Payloads(before) + [x] + (Payloads(after) + queue);
      assert front + (Payloads(before) + Payloads(after)) + queue ==
        front + Payloads(before) + (Payloads(after) + queue);
    }
  }

  lemma PayloadsWithout(link: seq<Flight>, i: nat)
    requires i < |link|
    ensures Payloads(Without(link, i)) == Payloads(link[..i]) + Payloads(link[i + 1..])
    ensures Payloads(link) == Payloads(link[..i]) + Carried(link[i]) + Payloads(link[i + 1..])
  {
    PayloadsAppend(link[..i], link[i + 1..]);
    PayloadsAppend(link[..i], link[i..]);
    assert link == link[..i] + link[i..] && link[i..][1..] == link[i + 1..];
  }

  /** What happens at the sending side of the other direction is of no concern. */
  lemma OtherMoves(s: Sys, e: Event)
    requires Unconnected(s) && Enabled(s, e) && Unconnected(Next(s, e))
    requires match e case Send(fromA, _, _, _, _) => !fromA case Deliver(toB, _, _) => !toB case Lose(toB, _) => !toB
             case _ => false
    ensures Known(Next(s, e)) == Known(s) && Next(s, e).a.pushed == s.a.pushed
  {
    hide Row, Stored, ChannelOk, Plain, FillFrame, ProcessFrame;
    match e
    case Send(_, cfg, length, now, sent) =>
      SendOffEffect(s.b, cfg, length, now, sent);
    case Deliver(_, now, room) =>
      assert s.ba[0].frame.handshake.None? by { FirstPlain(s.ba); }
      OffReceives(s.a.ch, s.ba[0].frame, now, room);
    case Lose(_, _) =>
  }

  lemma FirstPlain(link: seq<Flight>)
    requires Plain(link) && link != []
    ensures link[0].frame.handshake.None?
  {
    assert link[0] in link;
  }

  lemma StepMoves(s: Sys, e: Event)
    requires Unconnected(s) && Enabled(s, e) && !e.Connect?
    ensures Moves(s, e, Next(s, e))
  {
    hide Unconnected, Known, Thinned, PeerPush, PeerRead, PeerSend, PeerReceive;
    UnconnectedOk(s);
    match e
    case Push(atA, payload, room) => PushMoves(s, atA, payload, room);
    case Read(atA, max) => ReadMoves(s, atA, max);
    case Send(fromA, cfg, length, now, sent) =>
      SendStays(s, fromA, cfg, length, now, sent);
      SamePushed(s);
      if fromA {
        SendMoves(s, cfg, length, now, sent);
        SendOffEffect(s.a, cfg, length, now, sent);
      } else {
        OtherMoves(s, e);
      }
    case Deliver(toB, now, room) =>
      DeliverStays(s, toB, now, room);
      SamePushed(s);
      if toB { DeliverMoves(s, now, room); } else { OtherMoves(s, e); }
    case Lose(toB, i) =>
      LoseStays(s, toB, i);
      SamePushed(s);
      if toB { LoseMoves(s, i); } else { OtherMoves(s, e); }
  }

  lemma UnconnectedOk(s: Sys)
    requires Unconnected(s)
    ensures PeerOk(s.a) && PeerOk(s.b) && s.a.ch.arq.Off? && s.b.ch.arq.Off? && 0 in s.a.pushed
  {
    hide ChannelOk, Plain, Row, Unsent;
  }

  // ------------------------------------------------------------------------------ runs

  lemma ThinnedTrans<T>(xs: seq<T>, ys: seq<T>, zs: seq<T>)
    requires Thinned(xs, ys) && Thinned(ys, zs)
    ensures Thinned(xs, zs)
  {
    var k :| ThinnedBy(xs, ys, k);
    var l :| ThinnedBy(ys, zs, l);
    assert ThinnedBy(xs, zs, seq(|l|, i requires 0 <= i < |l| => k[l[i]]));
  }

  lemma ThinnedOne<T>(xs: seq<T>, ys: seq<T>, x: T)
    requires Thinned(xs, ys)
    ensures Thinned(xs + [x], ys + [x])
  {
    var k: seq<nat> :| ThinnedBy(xs, ys, k);
    var l: seq<nat> := k + [|xs|];
    forall i | 0 <= i < |l| ensures l[i] < |xs + [x]| && (ys + [x])[i] == (xs + [x])[l[i]] {
      if i < |k| { assert ys[i] == xs[k[i]]; }
    }
    assert ThinnedBy(xs + [x], ys + [x], l);
  }

  lemma ThinnedMore<T>(xs: seq<T>, ys: seq<T>, more: seq<T>)
    requires Thinned(xs, ys) && |more| <= 1
    ensures Thinned(xs + more, ys + more)
  {
    hide Thinned;
    if more == [] {
      assert xs + more == xs && ys + more == ys;
    } else {
      assert more == [more[0]];
      ThinnedOne(xs, ys, more[0]);
    }
  }

  lemma ThinnedPrefix<T>(xs: seq<T>, ys: seq<T>, zs: seq<T>)
    requires Thinned(xs, ys + zs)
    ensures Thinned(xs, ys)
  {
    var k :| ThinnedBy(xs, ys + zs, k);
    assert ThinnedBy(xs, ys, k[..|ys|]);
  }

  /** What is known of the packets queued is, in order, a part of them. */
  ghost predicate Ordered(s: Sys) {
    Unconnected(s) && Thinned(s.a.pushed[0], Known(s))
  }

  lemma StepOrdered(s: Sys, e: Event)
    requires Ordered(s) && Enabled(s, e) && !e.Connect? && PeerOk(s.a) && PeerOk(s.b)
    ensures Ordered(Next(s, e))
  {
    hide Stored, Payloads, Row, Plain, Unsent, Thinned, Next, PeerOk, Drops, PushPacket, Known;
    UnconnectedOk(s);
    StepMoves(s, e);
    ThinnedMore(s.a.pushed[0], Known(s), Added(s, e));
    if Drops(s, e) {
      assert s.a.pushed[0] + [] == s.a.pushed[0];
      ThinnedTrans(s.a.pushed[0], Known(s), Known(Next(s, e)));
    }
  }

  lemma {:induction false} RunOrdered(s: Sys, events: seq<Event>, t: Sys)
    requires Ordered(s) && PeerOk(s.a) && PeerOk(s.b) && Talk(events) && Run(s, events) == Some(t)
    ensures Ordered(t)
    decreases |events|
  {
    hide Ordered, Next, PeerOk;
    if events != [] {
      assert events[0] in events;
      StepOk(s, events[0]);
      StepOrdered(s, events[0]);
      RunOrdered(Next(s, events[0]), events[1..], t);
    }
  }

  lemma StartOrdered(s: Sys)
    requires Start(s)
    ensures Ordered(s) && Known(s) == s.a.pushed[0]
  {
    assert Known(s) == [];
    ThinnedSelf<Bytes>([]);
  }

  lemma GotOrdered(s: Sys)
    requires Ordered(s)
    ensures s.a.ch.arq.Off? && s.b.ch.arq.Off? && 0 in s.a.pushed && Thinned(s.a.pushed[0], s.b.got)
  {
    hide Thinned, Stored, Payloads, Row, Plain, Unsent, ChannelOk;
    var rest := Stored(s.b.ch.rcv) + Payloads(s.ab) + s.a.ch.snd.data;
    assert Known(s) == s.b.got + rest;
    ThinnedPrefix(s.a.pushed[0], s.b.got, rest);
  }

  /** As long as nobody connects, what either side has read is, in order and without
      duplicates, a part of what the other side queued. */
  lemma DatagramsInOrder(start: Sys, t: Sys)
    requires Start(start) && Reaches(start, t)
    ensures t.a.ch.arq.Off? && t.b.ch.arq.Off? && 0 in t.a.pushed && 0 in t.b.pushed
    ensures Thinned(t.a.pushed[0], t.b.got) && Thinned(t.b.pushed[0], t.a.got)
  {
    hide Run, Ordered, PeerOk, Thinned;
    OrderedFrom(start, t);
    FlipReaches(start, t);
    StartFlip(start);
    OrderedFrom(Flip(start), Flip(t));
    GotOrdered(t);
    GotOrdered(Flip(t));
  }

  lemma StartFlip(s: Sys)
    requires Start(s)
    ensures Start(Flip(s))
  {
    hide ChannelOk;
  }

  lemma OrderedFrom(start: Sys, t: Sys)
    requires Start(start) && Reaches(start, t)
    ensures Ordered(t)
  {
    hide Run, Ordered, PeerOk, Start;
    StartOrdered(start);
    var events :| Talk(events) && Run(start, events) == Some(t);
    RunOrdered(start, events, t);
  }

  /** No packet for `b` is lost on the way or meets a receiver without room. */
  ghost predicate Lossless(s: Sys, events: seq<Event>)
    requires PeerOk(s.a) && PeerOk(s.b)
    decreases |events|
  {
    events != [] && Enabled(s, events[0]) ==>
      !Drops(s, events[0]) && (StepOk(s, events[0]); Lossless(Next(s, events[0]), events[1..]))
  }

  lemma {:induction false} RunComplete(s: Sys, events: seq<Event>, t: Sys)
    requires Unconnected(s) && PeerOk(s.a) && PeerOk(s.b) && Talk(events) && Run(s, events) == Some(t)
    requires Lossless(s, events) && Known(s) == s.a.pushed[0]
    ensures Unconnected(t) && Known(t) == t.a.pushed[0]
    decreases |events|
  {
    hide Unconnected, Known, Next, PeerOk, Thinned, Drops;
    if events != [] {
      assert events[0] in events;
      StepOk(s, events[0]);
      StepMoves(s, events[0]);
      RunComplete(Next(s, events[0]), events[1..], t);
    }
  }

  /** Without such losses nothing is missing: what has been read, what is stored, what is in
      the air and what is unsent are together exactly what was queued, in this order. */
  lemma DatagramsComplete(start: Sys, events: seq<Event>, t: Sys)
    requires Start(start) && PeerOk(start.a) && PeerOk(start.b) && Talk(events) && Run(start, events) == Some(t)
    requires Lossless(start, events)
    ensures Row(t.b.ch.rcv) && 0 in t.a.pushed
    ensures t.a.pushed[0] == t.b.got + Stored(t.b.ch.rcv) + Payloads(t.ab) + t.a.ch.snd.data
  {
    hide Run, Lossless, Stored, Payloads, ChannelOk;
    StartOrdered(start);
    RunComplete(start, events, t);
  }

  /** A payload is refused for want of a slot if and only if length - 1 packets are unsent. */
  lemma RefusedOnlyIfUnsent(start: Sys, t: Sys, payload: Bytes, room: bool)
    requires Start(start) && Reaches(start, t) && |payload| <= SKY_PAYLOAD_MAX_LEN
    ensures PushPacket(t.a.ch, payload, room).1 == SKY_RET_RING_RING_FULL <==>
              t.a.ch.snd.head - t.a.ch.snd.tx == t.a.ch.snd.length - 1
  {
    hide Reaches, Thinned, Known, Plain, Row;
    OrderedFrom(start, t);
    OffPushes(t.a.ch, payload, room);
  }
}
