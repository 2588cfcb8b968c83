/** What becomes of an empty payload.  It can be queued, but sky_vc_process_frame takes a
    payload of no bytes for none (src/reliable_vc.c:589, 616), and sky_vc_fill_frame does
    the same while ARQ is off (src/reliable_vc.c:400). */
module EmptyPayloads {
  import opened Base
  import opened RingSpec
  import opened ChannelSpec
  import opened Session

  // ------------------------------------------------------------------ while ARQ is on

  ghost predicate NoneHeld(r: RcvState) {
    forall n :: n in r.held ==> r.held[n] != []
  }

  ghost predicate NoneEmpty(p: Peer) {
    [] !in p.got && NoneHeld(p.ch.rcv)
  }

  lemma PushNonempty(r: RcvState, payload: Bytes, sequence: byte, room: bool)
    requires RcvOk(r) && NoneHeld(r) && payload != []
    ensures NoneHeld(RcvPush(r, payload, sequence, room).0)
  {
    hide Advance, RcvOk;
  }

  lemma ReadNonempty(p: Peer, max: nat)
    requires PeerOk(p) && NoneEmpty(p)
    ensures NoneEmpty(PeerRead(p, max))
  {
    hide Advance;
    var r := p.ch.rcv;
    assert r.tail < r.head ==> r.tail in r.held && r.held[r.tail] != [];
  }

  lemma SendNonempty(p: Peer, cfg: ArqConfig, length: nat, now: int, sent: nat)
    requires PeerOk(p) && NoneEmpty(p)
    ensures NoneEmpty(PeerSend(p, cfg, length, now, sent).0)
  {
    hide PeerSend, Describes, ChannelOk;
    if p.ch.arq.Off? { SendOffEffect(p, cfg, length, now, sent); } else { SendEffect(p, cfg, length, now, sent); }
  }

  lemma ReceiveNonempty(p: Peer, f: Flight, now: int, room: bool)
    requires PeerOk(p) && NoneEmpty(p)
    ensures NoneEmpty(PeerReceive(p, f, now, room))
  {
    hide ProcessOn, RcvPush, RcvOk, SendOk;
    var d := AfterHandshake(p.ch, f.frame, now);
    assert NoneHeld(d.rcv);
    if PayloadLength(f.frame) > 0 {
      forall q: byte ensures NoneHeld(RcvPush(d.rcv, f.frame.payload.value, q, room).0) {
        PushNonempty(d.rcv, f.frame.payload.value, q, room);
      }
    }
    if d.arq.On? {
      ProcessOnEffect(d, f.frame, now, room);
    }
  }

  /** No step lets an empty payload into a receive ring or to an application. */
  lemma StepNonempty(s: Sys, e: Event)
    requires PeerOk(s.a) && PeerOk(s.b) && Enabled(s, e) && NoneEmpty(s.a) && NoneEmpty(s.b)
    ensures NoneEmpty(Next(s, e).a) && NoneEmpty(Next(s, e).b)
  {
    hide PeerOk, PeerRead, PeerSend, PeerReceive, NoneEmpty;
    match e
    case Connect(now, id) => ConnectNonempty(s.a, |s.ids| + 1, now, id);
    case Push(atA, payload, room) => QueueNonempty(if atA then s.a else s.b, payload, room);
    case Read(atA, max) => ReadNonempty(if atA then s.a else s.b, max);
    case Send(fromA, cfg, length, now, sent) => SendNonempty(if fromA then s.a else s.b, cfg, length, now, sent);
    case Deliver(toB, now, room) =>
      ReceiveNonempty(if toB then s.b else s.a, if toB then s.ab[0] else s.ba[0], now, room);
    case Lose(_, _) =>
  }

  lemma ConnectNonempty(p: Peer, epoch: nat, now: int, id: uint32)
    ensures NoneEmpty(PeerConnect(p, epoch, now, id))
  {
  }

  lemma QueueNonempty(p: Peer, payload: Bytes, room: bool)
    requires PeerOk(p) && NoneEmpty(p)
    ensures NoneEmpty(PeerPush(p, payload, room))
  {
  }

  lemma {:induction false} RunNonempty(s: Sys, events: seq<Event>)
    requires PeerOk(s.a) && PeerOk(s.b) && NoneEmpty(s.a) && NoneEmpty(s.b)
    ensures Run(s, events).Some? ==> var t := Run(s, events).value; NoneEmpty(t.a) && NoneEmpty(t.b)
    decreases |events|
  {
    hide PeerOk, Next, NoneEmpty;
    if events != [] && Enabled(s, events[0]) {
      StepOk(s, events[0]);
      StepNonempty(s, events[0]);
      RunNonempty(Next(s, events[0]), events[1..]);
    }
  }

  /** In every run: no receive ring ever holds an empty payload, and no application ever
      reads one. */
  lemma NeverDelivered(start: Sys, s: Sys)
    requires Reachable(start, s)
    ensures NoneEmpty(s.a) && NoneEmpty(s.b)
  {
    var events :| Run(start, events) == Some(s);
    RunNonempty(start, events);
  }

  /** What has passed the head of the receiver is what was queued. */
  lemma PassedHead(e: nat, r: RcvState, pushed: seq<Bytes>, got: seq<Bytes>, data: seq<Flight>, window: nat, n: nat)
    requires Sink(e, r, pushed, got, data, window) && n < r.head
    requires [] !in got && NoneHeld(r)
    ensures n < |pushed| && pushed[n] != []
  {
    if n < r.tail {
      assert got[n] == pushed[n] && got[n] in got;
    } else {
      assert n in r.held && r.held[n] == pushed[n];
    }
  }

  /** An empty payload stops its direction for the rest of the session: the receiver's head
      never passes the first one queued, so nothing behind it is ever read. */
  ghost predicate StopsAtEmpty(p: Peer, other: Peer) {
    p.epoch in p.pushed &&
    forall n :: 0 <= n < |p.pushed[p.epoch]| && p.pushed[p.epoch][n] == [] ==>
      other.ch.rcv.head <= n && |other.got| <= n
  }

  lemma EmptyStops(start: Sys, s: Sys)
    requires Reachable(start, s)
    requires s.b.ch.arq.On? && s.a.epoch == s.b.epoch
    ensures Fits(s.a, s.b) ==> StopsAtEmpty(s.a, s.b)
    ensures Fits(s.b, s.a) ==> StopsAtEmpty(s.b, s.a)
  {
    hide Reachable, Swap32, LinkOk, Openings, Sink, Source;
    NeverDelivered(start, s);
    ReachableInv(start, s);
    var k := s.b.epoch;
    if Fits(s.a, s.b) {
      HeadStops(k, s.b.ch.rcv, s.a.pushed[k], s.b.got, s.ab, s.a.ch.snd.length);
    }
    if Fits(s.b, s.a) {
      HeadStops(k, s.a.ch.rcv, s.b.pushed[k], s.a.got, s.ba, s.b.ch.snd.length);
    }
  }

  lemma HeadStops(e: nat, r: RcvState, pushed: seq<Bytes>, got: seq<Bytes>, data: seq<Flight>, window: nat)
    requires Sink(e, r, pushed, got, data, window) && [] !in got && NoneHeld(r)
    ensures forall n :: 0 <= n < |pushed| && pushed[n] == [] ==> r.head <= n && |got| <= n
  {
    forall n | 0 <= n < |pushed| && pushed[n] == [] ensures r.head <= n && |got| <= n {
      if n < r.head { PassedHead(e, r, pushed, got, data, window, n); }
    }
  }

  // ----------------------------------------------------------------- while ARQ is off

  /** The next payload to send is an empty one. */
  ghost predicate Blocked(s: SendState)
    requires SendOk(s)
  {
    s.tx < s.head && s.data[s.tx - s.tail] == []
  }

  /** While ARQ is off a fill does nothing if and only if nothing unsent is queued or the
      first unsent payload is empty. */
  lemma OffFillsNothing(c: Channel)
    requires ChannelOk(c)
    ensures FillOff(c).channel == c && FillOff(c).ret == 0 <==> c.snd.tx == c.snd.head || Blocked(c.snd)
  {
    hide Seq8;
    var s := c.snd;
    if s.tx < s.head {
      assert s.data[s.tx - s.tail] in s.data;
    }
  }

  /** Queueing more behind it changes nothing. */
  lemma StaysBlocked(c: Channel, payload: Bytes, room: bool)
    requires ChannelOk(c) && Blocked(c.snd)
    ensures var d := PushPacket(c, payload, room).0; ChannelOk(d) && Blocked(d.snd)
  {
  }
}
