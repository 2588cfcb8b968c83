/** Two peers joined by two lossy FIFO radio links, as a state machine.

    Peer `a` is the only side that starts connections, each with an identifier
    larger than the one before; peer `b` answers.  Every step runs the channel
    functions of ChannelSpec.  Steps by which one side leaves the session (timeout and
    disconnect) are not part of these runs; Quitting treats them. */
module Session {
  import opened Base
  import opened RingSpec
  import opened ChannelSpec

  /** History of a frame, for stating invariants.  No channel reads it: a step consults
      it only to update the history fields of a Peer.
      `epoch` is the sender's session; `tail`, `tx` and `rx` are the sender's
      unacknowledged tail, first unsent packet and contiguous receive head when the
      frame was filled; `next` is its first unsent packet afterwards; `number` is
      the position of the packet it carries. */
  datatype Stamp = Stamp(epoch: nat, tail: nat, tx: nat, next: nat, rx: nat, number: nat)

  datatype Flight = Flight(frame: Frame, stamp: Stamp)

  /** `pushed[e]` lists the payloads the application handed over in session e and
      the ring accepted; `got` those it read in the current session.  Session 0 is
      the time before the first connection. */
  datatype Peer = Peer(ch: Channel, epoch: nat, pushed: map<nat, seq<Bytes>>, got: seq<Bytes>)

  /** ids[e - 1] is the identifier of session e. */
  datatype Sys = Sys(a: Peer, b: Peer, ab: seq<Flight>, ba: seq<Flight>, ids: seq<uint32>)

  datatype Event =
    | Connect(now: int, identifier: uint32)
    | Push(atA: bool, payload: Bytes, room: bool)
    | Read(atA: bool, maxLength: nat)
    | Send(fromA: bool, cfg: ArqConfig, length: nat, now: int, sent: nat)
    | Deliver(toB: bool, now: int, room: bool)
    | Lose(toB: bool, index: nat)

  // ----------------------------------------------------------------------- steps

  ghost predicate PeerOk(p: Peer) {
    ChannelOk(p.ch) && p.epoch in p.pushed
  }

  function PeerPush(p: Peer, payload: Bytes, room: bool): Peer
    requires p.epoch in p.pushed
  {
    var (c, ret) := PushPacket(p.ch, payload, room);
    if ret < 0 then p.(ch := c)
    else p.(ch := c, pushed := p.pushed[p.epoch := p.pushed[p.epoch] + [payload]])
  }

  function PeerRead(p: Peer, maxLength: nat): Peer
    requires PeerOk(p)
  {
    var (c, ret, payload) := ReadPacket(p.ch, maxLength);
    p.(ch := c, got := if ret == SKY_RET_OK then p.got + [payload] else p.got)
  }

  /** The position of the packet that the next frame will carry. */
  function NextNumber(s: SendState): nat {
    if s.resend != [] && CanRecall(s, s.resend[0]) then RecallPosition(s, s.resend[0]) else s.tx
  }

  /** A filled frame goes on the air unless filling reported an error. */
  function PeerSend(p: Peer, cfg: ArqConfig, length: nat, now: int, sent: nat): (Peer, seq<Flight>)
    requires PeerOk(p)
  {
    var f := FillFrame(p.ch, cfg, length, now, sent);
    var stamp := Stamp(p.epoch, p.ch.snd.tail, p.ch.snd.tx, f.channel.snd.tx, p.ch.rcv.head, NextNumber(p.ch.snd));
    (p.(ch := f.channel), if f.ret >= 0 then [Flight(f.frame, stamp)] else [])
  }

  /** Does processing the frame wipe the rings and enter another session? */
  predicate Adopts(c: Channel, f: Frame) {
    && f.handshake.Some?
    && var id := f.handshake.value.identifier;
       match c.arq
       case Off => true
       case InInit => id > c.session
       case On => id != c.session
  }

  function PeerReceive(p: Peer, f: Flight, now: int, room: bool): Peer
    requires PeerOk(p)
  {
    var c := ProcessFrame(p.ch, f.frame, now, room).0;
    if Adopts(p.ch, f.frame) then
      Peer(c, f.stamp.epoch, p.pushed[f.stamp.epoch := []], [])
    else p.(ch := c)
  }

  function PeerConnect(p: Peer, epoch: nat, now: int, identifier: uint32): Peer {
    Peer(WipeToInit(p.ch, now, identifier), epoch, p.pushed[epoch := []], [])
  }

  predicate Enabled(s: Sys, e: Event) {
    match e
    case Connect(_, id) => s.ids == [] || id > s.ids[|s.ids| - 1]
    case Deliver(toB, _, _) => (if toB then s.ab else s.ba) != []
    case Lose(toB, i) => i < |if toB then s.ab else s.ba|
    case _ => true
  }

  function Without<T>(link: seq<T>, i: nat): seq<T>
    requires i < |link|
  {
    link[..i] + link[i + 1..]
  }

  function Next(s: Sys, e: Event): Sys
    requires PeerOk(s.a) && PeerOk(s.b) && Enabled(s, e)
  {
    match e
    case Connect(now, id) => s.(a := PeerConnect(s.a, |s.ids| + 1, now, id), ids := s.ids + [id])
    case Push(atA, p, room) =>
      if atA then s.(a := PeerPush(s.a, p, room)) else s.(b := PeerPush(s.b, p, room))
    case Read(atA, max) =>
      if atA then s.(a := PeerRead(s.a, max)) else s.(b := PeerRead(s.b, max))
    case Send(fromA, cfg, length, now, sent) =>
      if fromA then
        var (p, out) := PeerSend(s.a, cfg, length, now, sent); s.(a := p, ab := s.ab + out)
      else
        var (p, out) := PeerSend(s.b, cfg, length, now, sent); s.(b := p, ba := s.ba + out)
    case Deliver(toB, now, room) =>
      if toB then s.(b := PeerReceive(s.b, s.ab[0], now, room), ab := s.ab[1..])
      else s.(a := PeerReceive(s.a, s.ba[0], now, room), ba := s.ba[1..])
    case Lose(toB, i) =>
      if toB then s.(ab := Without(s.ab, i)) else s.(ba := Without(s.ba, i))
  }

  // ------------------------------------------------------- one direction of flow

  /** What a frame of session e promises the receiver `r` of its data, where
      `pushed` is everything the sender's application ever queued in that session
      and `window` the length of its send ring. */
  ghost predicate FlightOk(f: Flight, r: RcvState, pushed: seq<Bytes>, window: nat) {
    && f.stamp.tail <= r.head <= f.stamp.tx <= f.stamp.next <= |pushed|
    && f.stamp.next < f.stamp.tail + window
    && (forall n :: n in r.held ==> n < f.stamp.tx)
    && (f.frame.ctrl.Some? ==> f.frame.ctrl.value.tx == Seq8(0, f.stamp.tx))
    && (PayloadLength(f.frame) > 0 ==>
          && f.frame.sequence == Some(Seq8(0, f.stamp.number))
          && f.stamp.tail <= f.stamp.number < f.stamp.next
          && f.frame.payload.value == pushed[f.stamp.number])
  }

  /** The receiving half: what has been read is a prefix of what was pushed, what is
      held is stored under its true position, and the frames still in the air are in
      order. */
  ghost predicate Sink(e: nat, r: RcvState, pushed: seq<Bytes>, got: seq<Bytes>, data: seq<Flight>, window: nat) {
    && RcvOk(r) && r.origin == 0 && window + r.horizon <= 256
    && r.tail == |got| && got <= pushed
    && r.head <= |pushed|
    && (forall n :: n in r.held ==> n < |pushed| && r.held[n] == pushed[n])
    && (forall i :: 0 <= i < |data| && data[i].stamp.epoch == e ==> FlightOk(data[i], r, pushed, window))
    && (forall i, j :: 0 <= i < j < |data| && data[i].stamp.epoch == e && data[j].stamp.epoch == e
          ==> data[i].stamp.next <= data[j].stamp.tx)
  }

  ghost predicate AckOk(f: Flight, s: SendState, r: RcvState) {
    && s.tail <= f.stamp.rx <= r.head
    && (f.frame.ctrl.Some? ==> f.frame.ctrl.value.rx == Seq8(0, f.stamp.rx))
  }

  /** The sending half: the send ring stores everything from its tail on, its tail
      has not passed the receiver's head, and the acknowledgements in the air come
      in order. */
  ghost predicate Source(e: nat, s: SendState, r: RcvState, pushed: seq<Bytes>, data: seq<Flight>,
      acks: seq<Flight>) {
    && SendOk(s) && s.origin == 0
    && s.head == |pushed| && s.data == pushed[s.tail..]
    && s.tail <= r.head <= s.tx
    && (forall n :: n in r.held ==> n < s.tx)
    && (forall i :: 0 <= i < |data| && data[i].stamp.epoch == e
          ==> data[i].stamp.next <= s.tx && data[i].stamp.tail <= s.tail)
    && (forall i :: 0 <= i < |acks| && acks[i].stamp.epoch == e ==> AckOk(acks[i], s, r))
    && (forall i, j :: 0 <= i < j < |acks| && acks[i].stamp.epoch == e && acks[j].stamp.epoch == e
          ==> acks[i].stamp.rx <= acks[j].stamp.rx)
  }

  // ---------------------------------------------------------- effects of a channel

  /** What the ON branch of frame processing does to the two rings. */
  lemma ProcessOnEffect(c: Channel, f: Frame, now: int, room: bool)
    requires ChannelOk(c)
    ensures var d := ProcessOn(c, f, now, room).0;
            && ChannelOk(d)
            && d.arq == c.arq && d.session == c.session
            && d.rcv == (if PayloadLength(f) > 0 && f.sequence.Some?
                         then RcvPush(c.rcv, f.payload.value, f.sequence.value, room).0 else c.rcv)
            && d.snd == (if f.ctrl.Some? then CleanTail(c.snd, f.ctrl.value.rx).0 else c.snd)
                        .(resend := d.snd.resend)
  {
    hide RcvPush, CleanTail, SyncStatus, ScheduleByMask, SendOk, RcvOk;
  }

  /** What the ON branch of frame filling takes from the send ring: the frame gets
      the packet at NextNumber together with its sequence number, or nothing. */
  lemma AddPayloadEffect(f: Filled, length: nat)
    requires ChannelOk(f.channel) && f.frame.payload.None?
    ensures var g := AddPayload(f, length);
            var s, t, n := f.channel.snd, g.channel.snd, NextNumber(f.channel.snd);
            && g.channel == f.channel.(snd := t)
            && SendOk(t) && s.tx <= t.tx && t == s.(tx := t.tx, resend := t.resend)
            && g.frame == f.frame.(sequence := g.frame.sequence, payload := g.frame.payload)
            && (g.frame.payload.Some? ==>
                  && s.tail <= n < t.tx
                  && g.frame.sequence == Some(Seq8(s.origin, n))
                  && g.frame.payload.value == s.data[n - s.tail])
  {
    hide Peek, ReadToTx, NextNumber, CountToSend;
    ReadEffect(f.channel.snd);
  }

  /** What is read, and what was announced by peeking. */
  lemma ReadEffect(s: SendState)
    requires SendOk(s) && forall p :: p in s.data ==> |p| <= SKY_PAYLOAD_MAX_LEN
    ensures var r := ReadToTx(s, true);
            var (size, sequence) := Peek(s, true);
            var t, n := r.state, NextNumber(s);
            && SendOk(t) && s.tx <= t.tx && t == s.(tx := t.tx, resend := t.resend)
            && (size >= 0 ==>
                  && s.tail <= n < t.tx && sequence == Seq8(s.origin, n)
                  && r.payload == s.data[n - s.tail])
  {
    hide Seq8, RecallPosition;
    if s.tx < s.head {
      assert s.data[s.tx - s.tail] in s.data;
    }
    if s.resend != [] && CanRecall(s, s.resend[0]) {
      RecallAhead(s, s.resend[0]);
      assert s.data[RecallPosition(s, s.resend[0]) - s.tail] in s.data;
    }
  }

  lemma RecallAhead(s: SendState, sequence: byte)
    ensures s.tail <= RecallPosition(s, sequence)
  {
  }

  lemma FillExtensionsEffect(c: Channel, cfg: ArqConfig, now: int, sent: nat)
    ensures var f := FillExtensions(c, cfg, now, sent).frame;
            && (f.handshake.Some? ==> f.handshake.value == Handshake(ARQ_STATE_ON, Swap32(c.session)))
            && (f.ctrl.Some? ==> f.ctrl.value == Control(Seq8(c.snd.origin, c.snd.tx), Seq8(c.rcv.origin,
                c.rcv.head)))
  {
  }

  // ------------------------------------------------------------ keeping the flow

  /** An 8-bit sequence number that passes the horizon check denotes exactly the
      packet that was sent, neither an older nor a newer one. */
  lemma NoAlias(f: Flight, r: RcvState, pushed: seq<Bytes>, window: nat)
    requires FlightOk(f, r, pushed, window) && window + r.horizon <= 256 && PayloadLength(f.frame) > 0
    requires Sub8(f.frame.sequence.value, Seq8(0, r.head)) <= r.horizon
    ensures r.head + Sub8(f.frame.sequence.value, Seq8(0, r.head)) == f.stamp.number
  {
    SequenceDistance(0, r.head, f.stamp.number);
  }

  /** Receiving the first frame of the link keeps the receiving half. */
  lemma SinkReceive(e: nat, r: RcvState, pushed: seq<Bytes>, got: seq<Bytes>, data: seq<Flight>, window: nat,
      room: bool)
    requires Sink(e, r, pushed, got, data, window)
    requires data != [] && data[0].stamp.epoch == e && PayloadLength(data[0].frame) > 0
    ensures var f := data[0];
            var t := RcvPush(r, f.frame.payload.value, f.frame.sequence.value, room).0;
            && Sink(e, t, pushed, got, data[1..], window)
            && r.head <= t.head <= f.stamp.next
            && (forall n :: n in t.held ==> n < f.stamp.next)
  {
    var f := data[0];
    var q := f.frame.sequence.value;
    var t := RcvPush(r, f.frame.payload.value, q, room).0;
    if t != r {
      NoAlias(f, r, pushed, window);
      assert t.head > 0 ==> t.head - 1 in t.held || t.head == t.tail;
      assert t.head <= f.stamp.next;
    }
    forall i | 0 <= i < |data| - 1 && data[1..][i].stamp.epoch == e
      ensures FlightOk(data[1..][i], t, pushed, window)
    {
      assert FlightOk(data[i + 1], r, pushed, window);
      assert data[0].stamp.next <= data[i + 1].stamp.tx;
    }
  }

  /** Any frames may disappear from a link, in particular the first. */
  ghost predicate Thinned<T>(before: seq<T>, after: seq<T>) {
    exists keep: seq<nat> :: ThinnedBy(before, after, keep)
  }

  ghost predicate ThinnedBy<T>(before: seq<T>, after: seq<T>, keep: seq<nat>) {
    && |keep| == |after|
    && (forall i :: 0 <= i < |keep| ==> keep[i] < |before| && after[i] == before[keep[i]])
    && (forall i, j :: 0 <= i < j < |keep| ==> keep[i] < keep[j])
  }

  lemma SinkThinned(e: nat, r: RcvState, pushed: seq<Bytes>, got: seq<Bytes>, data: seq<Flight>, window: nat,
      after: seq<Flight>)
    requires Sink(e, r, pushed, got, data, window) && Thinned(data, after)
    ensures Sink(e, r, pushed, got, after, window)
  {
  }

  lemma SourceThinned(e: nat, s: SendState, r: RcvState, pushed: seq<Bytes>,
                      data: seq<Flight>, acks: seq<Flight>, data': seq<Flight>, acks': seq<Flight>)
    requires Source(e, s, r, pushed, data, acks) && Thinned(data, data') && Thinned(acks, acks')
    ensures Source(e, s, r, pushed, data', acks')
  {
  }

  lemma ThinnedSelf<T>(link: seq<T>)
    ensures Thinned(link, link)
  {
    assert ThinnedBy(link, link, seq(|link|, i requires 0 <= i => i));
  }

  lemma ThinnedWithout<T>(link: seq<T>, i: nat)
    requires i < |link|
    ensures Thinned(link, Without(link, i))
  {
    assert ThinnedBy(link, Without(link, i), seq(|link| - 1, k requires 0 <= k => if k < i then k else k + 1));
  }

  lemma ThinnedTail<T>(link: seq<T>)
    requires link != []
    ensures Thinned(link, link[1..])
  {
    assert Without(link, 0) == link[1..];
    ThinnedWithout(link, 0);
  }

  /** An acknowledgement moves the tail exactly to the head the receiver had when it
      sent it. */
  lemma AckExact(f: Flight, s: SendState, r: RcvState)
    requires SendOk(s) && s.origin == 0 && AckOk(f, s, r) && r.head <= s.tx && f.frame.ctrl.Some?
    ensures CleanTail(s, f.frame.ctrl.value.rx).0 ==
            s.(tail := f.stamp.rx, data := s.data[f.stamp.rx - s.tail..])
  {
    SequenceDistance(0, s.tail, f.stamp.rx);
  }

  lemma SourceAck(e: nat, s: SendState, r: RcvState, pushed: seq<Bytes>, data: seq<Flight>, acks: seq<Flight>)
    requires Source(e, s, r, pushed, data, acks)
    requires acks != [] && acks[0].stamp.epoch == e && acks[0].frame.ctrl.Some?
    ensures Source(e, CleanTail(s, acks[0].frame.ctrl.value.rx).0, r, pushed, data, acks[1..])
  {
    var t := CleanTail(s, acks[0].frame.ctrl.value.rx).0;
    AckExact(acks[0], s, r);
    assert t.data == pushed[t.tail..];
    forall i | 0 <= i < |acks| - 1 && acks[1..][i].stamp.epoch == e
      ensures AckOk(acks[1..][i], t, r)
    {
      assert AckOk(acks[i + 1], s, r);
      assert acks[0].stamp.rx <= acks[i + 1].stamp.rx;
    }
  }

  /** The sending half survives progress of the receiver. */
  lemma SourceReceiver(e: nat, s: SendState, r: RcvState, t: RcvState, pushed: seq<Bytes>,
                       data: seq<Flight>, acks: seq<Flight>)
    requires Source(e, s, r, pushed, data, acks)
    requires r.head <= t.head <= s.tx && (forall n :: n in t.held ==> n < s.tx)
    ensures Source(e, s, t, pushed, data, acks)
  {
    forall i | 0 <= i < |acks| && acks[i].stamp.epoch == e ensures AckOk(acks[i], s, t) {
      assert AckOk(acks[i], s, r);
    }
  }

  ghost predicate Flow(e: nat, s: SendState, r: RcvState, pushed: seq<Bytes>, got: seq<Bytes>,
                       data: seq<Flight>, acks: seq<Flight>) {
    Sink(e, r, pushed, got, data, s.length) && Source(e, s, r, pushed, data, acks)
  }

  /** A frame of the current session reaches a connected peer: the packets that flow
      towards it ... */
  lemma FlowReceiveData(e: nat, c: Channel, now: int, room: bool, link: seq<Flight>, reverse: seq<Flight>,
                        s: SendState, pushed: seq<Bytes>, got: seq<Bytes>)
    requires ChannelOk(c) && link != [] && link[0].stamp.epoch == e
    requires Flow(e, s, c.rcv, pushed, got, link, reverse)
    ensures var d := ProcessOn(c, link[0].frame, now, room).0;
            Flow(e, s, d.rcv, pushed, got, link[1..], reverse)
  {
    var f := link[0].frame;
    var d := ProcessOn(c, f, now, room).0;
    ProcessOnEffect(c, f, now, room);
    ThinnedTail(link);
    ThinnedSelf(reverse);
    if PayloadLength(f) > 0 {
      SinkReceive(e, c.rcv, pushed, got, link, s.length, room);
      SourceReceiver(e, s, c.rcv, d.rcv, pushed, link, reverse);
      SourceThinned(e, s, d.rcv, pushed, link, reverse, link[1..], reverse);
    } else {
      SinkThinned(e, c.rcv, pushed, got, link, s.length, link[1..]);
      SourceThinned(e, s, c.rcv, pushed, link, reverse, link[1..], reverse);
    }
  }

  /** ... and those that flow away from it. */
  lemma FlowReceiveAck(e: nat, c: Channel, now: int, room: bool, link: seq<Flight>, reverse: seq<Flight>,
                       r: RcvState, pushed: seq<Bytes>, got: seq<Bytes>)
    requires ChannelOk(c) && link != [] && link[0].stamp.epoch == e
    requires Flow(e, c.snd, r, pushed, got, reverse, link)
    ensures var d := ProcessOn(c, link[0].frame, now, room).0;
            Flow(e, d.snd, r, pushed, got, reverse, link[1..])
  {
    var d := ProcessOn(c, link[0].frame, now, room).0;
    ProcessOnEffect(c, link[0].frame, now, room);
    FlowAcknowledged(e, c.snd, d.snd, r, pushed, got, reverse, link);
  }

  lemma FlowAcknowledged(e: nat, s: SendState, t: SendState, r: RcvState, pushed: seq<Bytes>, got: seq<Bytes>,
                         data: seq<Flight>, acks: seq<Flight>)
    requires Flow(e, s, r, pushed, got, data, acks) && acks != [] && acks[0].stamp.epoch == e
    requires var f := acks[0].frame;
             t == (if f.ctrl.Some? then CleanTail(s, f.ctrl.value.rx).0 else s).(resend := t.resend)
    requires SendOk(t)
    ensures Flow(e, t, r, pushed, got, data, acks[1..])
  {
    ThinnedTail(acks);
    ThinnedSelf(data);
    if acks[0].frame.ctrl.Some? {
      SourceAck(e, s, r, pushed, data, acks);
      SourceResend(e, CleanTail(s, acks[0].frame.ctrl.value.rx).0, t, r, pushed, data, acks[1..]);
    } else {
      SourceThinned(e, s, r, pushed, data, acks, data, acks[1..]);
      SourceResend(e, s, t, r, pushed, data, acks[1..]);
    }
  }

  /** Nothing but SendOk depends on the resend list. */
  lemma SourceResend(e: nat, s: SendState, t: SendState, r: RcvState, pushed: seq<Bytes>,
                     data: seq<Flight>, acks: seq<Flight>)
    requires Source(e, s, r, pushed, data, acks) && SendOk(t) && t == s.(resend := t.resend)
    ensures Source(e, t, r, pushed, data, acks)
  {
    forall i | 0 <= i < |acks| && acks[i].stamp.epoch == e ensures AckOk(acks[i], t, r) {
      assert AckOk(acks[i], s, r);
    }
  }

  /** A frame that says what the sender `s` would say about its data. */
  ghost predicate Describes(f: Flight, s: SendState, next: nat)
    requires SendOk(s)
  {
    && f.stamp.tail == s.tail && f.stamp.tx == s.tx && f.stamp.next == next
    && (f.frame.ctrl.Some? ==> f.frame.ctrl.value.tx == Seq8(s.origin, s.tx))
    && (PayloadLength(f.frame) > 0 ==>
          && s.tail <= f.stamp.number < next <= s.head
          && f.frame.sequence == Some(Seq8(s.origin, f.stamp.number))
          && f.frame.payload.value == s.data[f.stamp.number - s.tail])
  }

  /** The sender adds a frame to the link ... */
  lemma FlowSentData(e: nat, s: SendState, t: SendState, r: RcvState, pushed: seq<Bytes>, got: seq<Bytes>,
                     data: seq<Flight>, acks: seq<Flight>, out: seq<Flight>)
    requires Flow(e, s, r, pushed, got, data, acks) && |out| <= 1
    requires SendOk(t) && s.tx <= t.tx && t == s.(tx := t.tx, resend := t.resend)
    requires forall f :: f in out ==> f.stamp.epoch == e && Describes(f, s, t.tx)
    ensures Flow(e, t, r, pushed, got, data + out, acks)
  {
  }

  /** ... and the receiver one to the other. */
  lemma FlowSentAck(e: nat, s: SendState, r: RcvState, pushed: seq<Bytes>, got: seq<Bytes>,
                    data: seq<Flight>, acks: seq<Flight>, out: seq<Flight>)
    requires Flow(e, s, r, pushed, got, data, acks) && |out| <= 1
    requires forall f :: f in out ==>
               && f.stamp.epoch == e && f.stamp.rx == r.head
               && (f.frame.ctrl.Some? ==> f.frame.ctrl.value.rx == Seq8(r.origin, r.head))
    ensures Flow(e, s, r, pushed, got, data, acks + out)
  {
    hide FlightOk;
  }

  /** Frames of another session. */
  lemma SinkOther(e: nat, r: RcvState, pushed: seq<Bytes>, got: seq<Bytes>, data: seq<Flight>, window: nat,
                  out: seq<Flight>)
    requires Sink(e, r, pushed, got, data, window) && forall f :: f in out ==> f.stamp.epoch != e
    ensures Sink(e, r, pushed, got, data + out, window)
  {
  }

  /** The application queues one more payload. */
  lemma FlowPush(e: nat, s: SendState, r: RcvState, pushed: seq<Bytes>, got: seq<Bytes>,
                 data: seq<Flight>, acks: seq<Flight>, payload: Bytes, room: bool)
    requires Flow(e, s, r, pushed, got, data, acks)
    ensures var (t, ret) := SendPush(s, payload, room);
            Flow(e, t, r, if ret < 0 then pushed else pushed + [payload], got, data, acks)
  {
    var (t, ret) := SendPush(s, payload, room);
    if ret >= 0 {
      var more := pushed + [payload];
      forall i | 0 <= i < |data| && data[i].stamp.epoch == e ensures FlightOk(data[i], r, more, s.length) {
        assert FlightOk(data[i], r, pushed, s.length);
      }
      forall i | 0 <= i < |acks| && acks[i].stamp.epoch == e ensures AckOk(acks[i], t, r) {
        assert AckOk(acks[i], s, r);
      }
      assert t.data == more[t.tail..];
    }
  }

  /** The application reads one packet. */
  lemma SinkRead(e: nat, r: RcvState, pushed: seq<Bytes>, got: seq<Bytes>, data: seq<Flight>, window: nat, max: nat)
    requires Sink(e, r, pushed, got, data, window)
    ensures var (t, ret, p) := RcvRead(r, max);
            && Sink(e, t, pushed, if ret == SKY_RET_OK then got + [p] else got, data, window)
            && r.head <= t.head
            && (forall n :: n in t.held ==> n in r.held)
            && (t.head == r.head || t.head - 1 in r.held)
  {
    var (t, ret, p) := RcvRead(r, max);
    if ret == SKY_RET_OK {
      assert t.head == r.head || t.head - 1 in t.held;
      assert got + [p] <= pushed;
      forall i | 0 <= i < |data| && data[i].stamp.epoch == e ensures FlightOk(data[i], t, pushed, window) {
        assert FlightOk(data[i], r, pushed, window);
      }
    }
  }

  lemma FlowRead(e: nat, s: SendState, r: RcvState, pushed: seq<Bytes>, got: seq<Bytes>,
                 data: seq<Flight>, acks: seq<Flight>, max: nat)
    requires Flow(e, s, r, pushed, got, data, acks)
    ensures var (t, ret, p) := RcvRead(r, max);
            Flow(e, s, t, pushed, if ret == SKY_RET_OK then got + [p] else got, data, acks)
  {
    SinkRead(e, r, pushed, got, data, s.length, max);
    SourceReceiver(e, s, r, RcvRead(r, max).0, pushed, data, acks);
  }

  // ------------------------------------------------------------------- invariant

  /** The frames of a link come in session order, and handshakes carry the identifier
      of their session, byte-swapped on the way out of `a` and once more on the way
      out of `b`. */
  ghost predicate LinkOk(link: seq<Flight>, low: nat, high: nat, ids: seq<uint32>, swapped: bool)
    requires high <= |ids|
  {
    && (forall i :: 0 <= i < |link| ==> low <= link[i].stamp.epoch <= high)
    && (forall i, j :: 0 <= i < j < |link| ==> link[i].stamp.epoch <= link[j].stamp.epoch)
    && (forall i :: 0 <= i < |link| && link[i].frame.handshake.Some? ==>
          && link[i].stamp.epoch > 0
          && link[i].frame.handshake.value.identifier == WireId(ids, link[i].stamp.epoch, swapped))
  }

  function WireId(ids: seq<uint32>, e: nat, swapped: bool): uint32
    requires 0 < e <= |ids|
  {
    if swapped then Swap32(ids[e - 1]) else ids[e - 1]
  }

  /** A frame that holds nothing but, perhaps, a handshake. */
  predicate Bare(f: Frame) {
    f == EMPTY_FRAME.(handshake := f.handshake)
  }

  /** A bare frame from a sender whose session has not moved yet. */
  ghost predicate Opening(f: Flight) {
    Bare(f.frame) && f.stamp == Stamp(f.stamp.epoch, 0, 0, 0, 0, f.stamp.number)
  }

  /** All frames of sessions after `e` are opening frames. */
  ghost predicate Openings(link: seq<Flight>, e: nat) {
    forall i :: 0 <= i < |link| && link[i].stamp.epoch > e ==> Opening(link[i])
  }

  /** The sender's ring and the receiver's horizon are short enough for 8-bit sequence
      numbers. */
  ghost predicate Fits(sender: Peer, receiver: Peer) {
    sender.ch.snd.length + receiver.ch.rcv.horizon <= 256
  }

  /** Session bookkeeping of the two peers. */
  ghost predicate Sessions(s: Sys) {
    && PeerOk(s.a) && PeerOk(s.b)
    && (forall i, j :: 0 <= i < j < |s.ids| ==> s.ids[i] < s.ids[j])
    && s.a.epoch == |s.ids| && (forall e: nat :: e <= s.a.epoch ==> e in s.a.pushed)
    && (s.a.epoch == 0 <==> s.a.ch.arq.Off?)
    && (s.a.epoch > 0 ==> s.a.ch.session == s.ids[s.a.epoch - 1])
    && s.b.epoch <= s.a.epoch
    && (s.b.epoch == 0 <==> s.b.ch.arq.Off?)
    && !s.b.ch.arq.InInit?
    && (s.b.epoch > 0 ==> s.b.ch.session == Swap32(s.ids[s.b.epoch - 1]))
    && (s.a.ch.arq.On? ==> s.b.epoch == s.a.epoch)
  }

  ghost predicate Links(s: Sys)
    requires Sessions(s)
  {
    && LinkOk(s.ab, s.b.epoch, s.a.epoch, s.ids, true)
    && LinkOk(s.ba, if s.a.ch.arq.On? then s.a.epoch else 0, s.b.epoch, s.ids, false)
    && Openings(s.ab, s.b.epoch)
  }

  /** Nothing has happened yet in the session of this peer but queueing. */
  ghost predicate Fresh(p: Peer) {
    && p.epoch in p.pushed
    && p.ch.rcv == RcvEmpty(p.ch.rcv.length, p.ch.rcv.horizon, 0)
    && p.got == []
    && p.ch.snd.origin == 0 && p.ch.snd.tail == p.ch.snd.tx == 0
    && p.ch.snd.data == p.pushed[p.epoch]
  }

  ghost predicate FlowToB(s: Sys) {
    Fits(s.a, s.b) && s.b.epoch > 0 ==>
      && s.b.epoch in s.a.pushed
      && Sink(s.b.epoch, s.b.ch.rcv, s.a.pushed[s.b.epoch], s.b.got, s.ab, s.a.ch.snd.length)
      && (s.b.epoch == s.a.epoch ==>
            Source(s.b.epoch, s.a.ch.snd, s.b.ch.rcv, s.a.pushed[s.b.epoch], s.ab, s.ba))
  }

  ghost predicate FlowToA(s: Sys) {
    Fits(s.b, s.a) && 0 < s.b.epoch == s.a.epoch ==>
      && s.b.epoch in s.b.pushed
      && Flow(s.b.epoch, s.b.ch.snd, s.a.ch.rcv, s.b.pushed[s.b.epoch], s.a.got, s.ba, s.ab)
  }

  ghost predicate Inv(s: Sys) {
    && Sessions(s) && Links(s)
    && (s.b.epoch < s.a.epoch ==> Fresh(s.a))
    && FlowToB(s) && FlowToA(s)
  }

  // ------------------------------------------------------------------------ steps

  /** The part of the channel functions that the session bookkeeping relies on. */
  lemma ChannelKeeps(c: Channel, f: Frame, now: int, room: bool)
    requires ChannelOk(c)
    ensures var d := ProcessFrame(c, f, now, room).0;
            && ChannelOk(d)
            && d.snd.length == c.snd.length && d.rcv.length == c.rcv.length && d.rcv.horizon == c.rcv.horizon
            && (!Adopts(c, f) ==> d.session == c.session)
            && (Adopts(c, f) ==> d.arq.On? && d.session == f.handshake.value.identifier)
            && (Adopts(c, f) || d.arq == c.arq ||
                (c.arq.InInit? && d.arq.On? && f.handshake.Some? && f.handshake.value.identifier == c.session))
  {
    var d := AfterHandshake(c, f, now);
    if d.arq.On? {
      ProcessOnEffect(d, f, now, room);
    }
  }

  lemma LinkNewId(link: seq<Flight>, low: nat, high: nat, ids: seq<uint32>, swapped: bool, lower: nat, higher: nat,
      id: uint32)
    requires high <= |ids| && LinkOk(link, low, high, ids, swapped)
    requires lower <= low && high <= higher <= |ids| + 1
    ensures LinkOk(link, lower, higher, ids + [id], swapped)
  {
    hide Swap32;
  }

  lemma ConnectSessions(s: Sys, now: int, id: uint32)
    requires Sessions(s) && Enabled(s, Connect(now, id))
    ensures Sessions(Next(s, Connect(now, id)))
  {
    hide Swap32;
  }

  lemma ConnectKeeps(s: Sys, now: int, id: uint32)
    requires Inv(s) && Enabled(s, Connect(now, id))
    ensures Inv(Next(s, Connect(now, id)))
  {
    hide Sink, Source, LinkOk, Openings, Swap32, ChannelOk;
    var k := |s.ids|;
    ConnectSessions(s, now, id);
    LinkNewId(s.ab, s.b.epoch, k, s.ids, true, s.b.epoch, k + 1, id);
    LinkNewId(s.ba, if s.a.ch.arq.On? then k else 0, s.b.epoch, s.ids, false, 0, s.b.epoch, id);
  }

  lemma PushOk(p: Peer, payload: Bytes, room: bool)
    requires PeerOk(p)
    ensures var q := PeerPush(p, payload, room);
            && PeerOk(q) && q.ch.rcv == p.ch.rcv && q.ch.snd.length == p.ch.snd.length && q.got == p.got
            && q.epoch == p.epoch && q.ch.arq == p.ch.arq && q.ch.session == p.ch.session
            && (forall e :: e in p.pushed ==> e in q.pushed)
            && (Fresh(p) ==> Fresh(q))
  {
  }

  lemma PushKeeps(s: Sys, atA: bool, payload: Bytes, room: bool)
    requires Inv(s)
    ensures Inv(Next(s, Push(atA, payload, room)))
  {
    hide Sink, Source, LinkOk, Openings, Swap32, SendPush;
    var k := s.b.epoch;
    PushOk(if atA then s.a else s.b, payload, room);
    if 0 < k == s.a.epoch {
      if atA && Fits(s.a, s.b) {
        FlowPush(k, s.a.ch.snd, s.b.ch.rcv, s.a.pushed[k], s.b.got, s.ab, s.ba, payload, room);
      } else if !atA && Fits(s.b, s.a) {
        FlowPush(k, s.b.ch.snd, s.a.ch.rcv, s.b.pushed[k], s.a.got, s.ba, s.ab, payload, room);
      }
    }
  }

  lemma ReadKeeps(s: Sys, atA: bool, max: nat)
    requires Inv(s)
    ensures Inv(Next(s, Read(atA, max)))
  {
    hide Sink, Source, LinkOk, Openings, Swap32, RcvRead, FlowToA, FlowToB, RcvOk;
    var t := Next(s, Read(atA, max));
    if atA { ReadAtAFlows(s, max); } else { ReadAtBFlows(s, max); }
  }

  lemma ReadAtAFlows(s: Sys, max: nat)
    requires PeerOk(s.a) && PeerOk(s.b) && FlowToA(s) && FlowToB(s)
    ensures FlowToA(Next(s, Read(true, max))) && FlowToB(Next(s, Read(true, max)))
  {
    hide Sink, Source, RcvRead, SendOk;
    var k := s.b.epoch;
    if 0 < k == s.a.epoch && Fits(s.b, s.a) {
      FlowRead(k, s.b.ch.snd, s.a.ch.rcv, s.b.pushed[k], s.a.got, s.ba, s.ab, max);
    }
  }

  lemma ReadAtBFlows(s: Sys, max: nat)
    requires PeerOk(s.a) && PeerOk(s.b) && FlowToA(s) && FlowToB(s)
    ensures FlowToA(Next(s, Read(false, max))) && FlowToB(Next(s, Read(false, max)))
  {
    hide Sink, Source, RcvRead, SendOk;
    var k := s.b.epoch;
    if k > 0 && Fits(s.a, s.b) {
      SinkRead(k, s.b.ch.rcv, s.a.pushed[k], s.b.got, s.ab, s.a.ch.snd.length, max);
      if k == s.a.epoch {
        FlowRead(k, s.a.ch.snd, s.b.ch.rcv, s.a.pushed[k], s.b.got, s.ab, s.ba, max);
      }
    }
  }

  /** What a peer outside the OFF state puts on the air. */
  lemma SendEffect(p: Peer, cfg: ArqConfig, length: nat, now: int, sent: nat)
    requires PeerOk(p) && !p.ch.arq.Off?
    ensures var (q, out) := PeerSend(p, cfg, length, now, sent);
            var s, t := p.ch.snd, q.ch.snd;
            && ChannelOk(q.ch) && q == p.(ch := q.ch)
            && q.ch.rcv == p.ch.rcv && q.ch.arq == p.ch.arq && q.ch.session == p.ch.session
            && s.tx <= t.tx && t == s.(tx := t.tx, resend := t.resend)
            && (p.ch.arq.InInit? ==> q == p)
            && |out| <= 1
            && (forall f :: f in out ==>
                  && f.stamp.epoch == p.epoch && f.stamp.rx == p.ch.rcv.head
                  && Describes(f, s, t.tx)
                  && (f.frame.ctrl.Some? ==> f.frame.ctrl.value.rx == Seq8(p.ch.rcv.origin, p.ch.rcv.head))
                  && (f.frame.handshake.Some? ==> f.frame.handshake.value.identifier == Swap32(p.ch.session))
                  && (p.ch.arq.InInit? ==> Bare(f.frame)))
  {
    hide FillExtensions, AddPayload, NextNumber, Swap32, Seq8;
    if p.ch.arq.On? {
      var f := FillExtensions(p.ch, cfg, now, sent);
      FillExtensionsEffect(p.ch, cfg, now, sent);
      AddPayloadEffect(f, length);
    }
  }

  lemma SendOffEffect(p: Peer, cfg: ArqConfig, length: nat, now: int, sent: nat)
    requires PeerOk(p) && p.ch.arq.Off?
    ensures var (q, out) := PeerSend(p, cfg, length, now, sent);
            && ChannelOk(q.ch) && q == p.(ch := q.ch)
            && q.ch == p.ch.(snd := q.ch.snd) && q.ch.snd.length == p.ch.snd.length
            && |out| <= 1
            && (forall f :: f in out ==> f.stamp.epoch == p.epoch && f.frame.handshake.None?)
  {
    var s := p.ch.snd;
    if s.tx < s.head {
      assert s.data[s.tx - s.tail] in s.data;
    }
  }

  lemma LinkGrows(link: seq<Flight>, low: nat, high: nat, ids: seq<uint32>, swapped: bool, f: Flight)
    requires high <= |ids| && LinkOk(link, low, high, ids, swapped)
    requires f.stamp.epoch == high && low <= high
    requires f.frame.handshake.Some? ==>
               high > 0 && f.frame.handshake.value.identifier == WireId(ids, high, swapped)
    ensures LinkOk(link + [f], low, high, ids, swapped)
  {
  }

  lemma LinkThinned(link: seq<Flight>, low: nat, high: nat, ids: seq<uint32>, swapped: bool, after: seq<Flight>)
    requires high <= |ids| && LinkOk(link, low, high, ids, swapped) && Thinned(link, after)
    ensures LinkOk(after, low, high, ids, swapped)
  {
  }

  /** What follows the first frame of a link is at least as new. */
  lemma LinkTail(link: seq<Flight>, low: nat, high: nat, ids: seq<uint32>, swapped: bool)
    requires high <= |ids| && LinkOk(link, low, high, ids, swapped) && link != []
    ensures low <= link[0].stamp.epoch <= high
    ensures LinkOk(link[1..], link[0].stamp.epoch, high, ids, swapped)
    ensures LinkOk(link[1..], low, high, ids, swapped)
    ensures link[0].frame.handshake.Some? ==>
              link[0].stamp.epoch > 0 &&
              link[0].frame.handshake.value.identifier == WireId(ids, link[0].stamp.epoch, swapped)
  {
  }

  lemma LinkHigher(link: seq<Flight>, low: nat, high: nat, ids: seq<uint32>, swapped: bool, higher: nat)
    requires high <= higher <= |ids| && LinkOk(link, low, high, ids, swapped)
    ensures LinkOk(link, low, higher, ids, swapped)
  {
  }

  lemma OpeningsThinned(link: seq<Flight>, e: nat, after: seq<Flight>)
    requires Openings(link, e) && Thinned(link, after)
    ensures Openings(after, e)
  {
  }

  /** What a link becomes when its sender adds at most one frame of its session. */
  lemma LinkSent(link: seq<Flight>, low: nat, high: nat, ids: seq<uint32>, swapped: bool, out: seq<Flight>)
    requires low <= high <= |ids| && LinkOk(link, low, high, ids, swapped) && |out| <= 1
    requires forall f :: f in out ==>
               && f.stamp.epoch == high
               && (f.frame.handshake.Some? ==>
                     high > 0 && f.frame.handshake.value.identifier == WireId(ids, high, swapped))
    ensures LinkOk(link + out, low, high, ids, swapped)
  {
    if out == [] {
      assert link + out == link;
    } else {
      assert out[0] in out;
      LinkGrows(link, low, high, ids, swapped, out[0]);
      assert link + out == link + [out[0]];
    }
  }

  lemma OpeningsSent(link: seq<Flight>, e: nat, p: Peer, out: seq<Flight>)
    requires Openings(link, e) && |out| <= 1 && SendOk(p.ch.snd)
    requires forall f :: f in out ==> f.stamp.epoch == p.epoch
    requires e < p.epoch ==>
               && Fresh(p)
               && (forall f :: f in out ==>
                     f.stamp.rx == p.ch.rcv.head && Describes(f, p.ch.snd, p.ch.snd.tx) && Bare(f.frame))
    ensures Openings(link + out, e)
  {
    if out != [] {
      assert out[0] in out;
    }
  }

  lemma SendFromAKeeps(s: Sys, cfg: ArqConfig, length: nat, now: int, sent: nat)
    requires Inv(s)
    ensures Inv(Next(s, Send(true, cfg, length, now, sent)))
  {
    hide Sink, Source, LinkOk, Openings, Describes, FillFrame, PeerSend, Swap32;
    var t := Next(s, Send(true, cfg, length, now, sent));
    var (q, out) := PeerSend(s.a, cfg, length, now, sent);
    if s.a.ch.arq.Off? {
      SendOffEffect(s.a, cfg, length, now, sent);
    } else {
      SendEffect(s.a, cfg, length, now, sent);
      SendFromAFlows(s, t, q, out);
    }
    LinkSent(s.ab, s.b.epoch, s.a.epoch, s.ids, true, out);
    OpeningsSent(s.ab, s.b.epoch, s.a, out);
  }

  lemma SendFromAFlows(s: Sys, t: Sys, q: Peer, out: seq<Flight>)
    requires FlowToA(s) && FlowToB(s) && s.b.epoch <= s.a.epoch && s.a.epoch > 0
    requires |out| <= 1 && t == s.(a := q, ab := s.ab + out)
    requires q == s.a.(ch := q.ch) && q.ch.rcv == s.a.ch.rcv
    requires SendOk(s.a.ch.snd) && SendOk(q.ch.snd) && s.a.ch.snd.tx <= q.ch.snd.tx
    requires q.ch.snd == s.a.ch.snd.(tx := q.ch.snd.tx, resend := q.ch.snd.resend)
    requires s.b.epoch < s.a.epoch ==> q.ch.snd == s.a.ch.snd
    requires forall f :: f in out ==>
               && f.stamp.epoch == s.a.epoch && f.stamp.rx == s.a.ch.rcv.head
               && Describes(f, s.a.ch.snd, q.ch.snd.tx)
               && (f.frame.ctrl.Some? ==> f.frame.ctrl.value.rx == Seq8(s.a.ch.rcv.origin, s.a.ch.rcv.head))
    ensures FlowToA(t) && FlowToB(t)
  {
    hide Sink, Source, Describes, SendOk, Seq8;
    var k := s.b.epoch;
    if Fits(s.b, s.a) && 0 < k == s.a.epoch {
      FlowSentAck(k, s.b.ch.snd, s.a.ch.rcv, s.b.pushed[k], s.a.got, s.ba, s.ab, out);
    }
    if Fits(s.a, s.b) && 0 < k {
      if k == s.a.epoch {
        FlowSentData(k, s.a.ch.snd, q.ch.snd, s.b.ch.rcv, s.a.pushed[k], s.b.got, s.ab, s.ba, out);
      } else {
        SinkOther(k, s.b.ch.rcv, s.a.pushed[k], s.b.got, s.ab, s.a.ch.snd.length, out);
      }
    }
  }

  lemma SendFromBKeeps(s: Sys, cfg: ArqConfig, length: nat, now: int, sent: nat)
    requires Inv(s)
    ensures Inv(Next(s, Send(false, cfg, length, now, sent)))
  {
    hide Sink, Source, LinkOk, Openings, Describes, FillFrame, PeerSend, Swap32;
    var t := Next(s, Send(false, cfg, length, now, sent));
    var (q, out) := PeerSend(s.b, cfg, length, now, sent);
    if s.b.ch.arq.Off? {
      SendOffEffect(s.b, cfg, length, now, sent);
    } else {
      SendEffect(s.b, cfg, length, now, sent);
      SwapIsInvolution(s.ids[s.b.epoch - 1]);
      SendFromBFlows(s, t, q, out);
    }
    LinkSent(s.ba, if s.a.ch.arq.On? then s.a.epoch else 0, s.b.epoch, s.ids, false, out);
  }

  lemma SendFromBFlows(s: Sys, t: Sys, q: Peer, out: seq<Flight>)
    requires FlowToA(s) && FlowToB(s) && s.b.epoch <= s.a.epoch && s.b.epoch > 0
    requires |out| <= 1 && t == s.(b := q, ba := s.ba + out)
    requires q == s.b.(ch := q.ch) && q.ch.rcv == s.b.ch.rcv
    requires SendOk(s.b.ch.snd) && SendOk(q.ch.snd) && s.b.ch.snd.tx <= q.ch.snd.tx
    requires q.ch.snd == s.b.ch.snd.(tx := q.ch.snd.tx, resend := q.ch.snd.resend)
    requires forall f :: f in out ==>
               && f.stamp.epoch == s.b.epoch && f.stamp.rx == s.b.ch.rcv.head
               && Describes(f, s.b.ch.snd, q.ch.snd.tx)
               && (f.frame.ctrl.Some? ==> f.frame.ctrl.value.rx == Seq8(s.b.ch.rcv.origin, s.b.ch.rcv.head))
    ensures FlowToA(t) && FlowToB(t)
  {
    hide Sink, Source, Describes, SendOk, Seq8;
    var k := s.b.epoch;
    if k == s.a.epoch {
      if Fits(s.b, s.a) {
        FlowSentData(k, s.b.ch.snd, q.ch.snd, s.a.ch.rcv, s.b.pushed[k], s.a.got, s.ba, s.ab, out);
      }
      if Fits(s.a, s.b) {
        FlowSentAck(k, s.a.ch.snd, s.b.ch.rcv, s.a.pushed[k], s.b.got, s.ab, s.ba, out);
      }
    }
  }

  lemma LoseKeeps(s: Sys, toB: bool, i: nat)
    requires Inv(s) && Enabled(s, Lose(toB, i))
    ensures Inv(Next(s, Lose(toB, i)))
  {
    hide Sink, Source, LinkOk, Openings, Thinned;
    var t := Next(s, Lose(toB, i));
    ThinnedSelf(s.ab);
    ThinnedSelf(s.ba);
    if toB {
      ThinnedWithout(s.ab, i);
      LinkThinned(s.ab, s.b.epoch, s.a.epoch, s.ids, true, t.ab);
      OpeningsThinned(s.ab, s.b.epoch, t.ab);
    } else {
      ThinnedWithout(s.ba, i);
      LinkThinned(s.ba, if s.a.ch.arq.On? then s.a.epoch else 0, s.b.epoch, s.ids, false, t.ba);
    }
    FlowsThinned(s, t);
  }

  lemma FlowsThinned(s: Sys, t: Sys)
    requires FlowToA(s) && FlowToB(s)
    requires t == s.(ab := t.ab, ba := t.ba) && Thinned(s.ab, t.ab) && Thinned(s.ba, t.ba)
    ensures FlowToA(t) && FlowToB(t)
  {
    hide Sink, Source, Thinned;
    var k := s.b.epoch;
    if k > 0 && Fits(s.a, s.b) {
      SinkThinned(k, s.b.ch.rcv, s.a.pushed[k], s.b.got, s.ab, s.a.ch.snd.length, t.ab);
      if k == s.a.epoch {
        SourceThinned(k, s.a.ch.snd, s.b.ch.rcv, s.a.pushed[k], s.ab, s.ba, t.ab, t.ba);
      }
    }
    if 0 < k == s.a.epoch && Fits(s.b, s.a) {
      SinkThinned(k, s.a.ch.rcv, s.b.pushed[k], s.a.got, s.ba, s.b.ch.snd.length, t.ba);
      SourceThinned(k, s.b.ch.snd, s.a.ch.rcv, s.b.pushed[k], s.ba, s.ab, t.ba, t.ab);
    }
  }

  /** A frame reaches `b` inside its current session. */
  lemma DeliverToBFlows(s: Sys, t: Sys, c: Channel, now: int, room: bool)
    requires FlowToA(s) && FlowToB(s) && s.ab != [] && s.ab[0].stamp.epoch == s.b.epoch > 0
    requires ChannelOk(c) && c.rcv == s.b.ch.rcv && c.snd == s.b.ch.snd
    requires s.b.epoch <= s.a.epoch
    requires t == s.(ab := s.ab[1..], b := s.b.(ch := ProcessOn(c, s.ab[0].frame, now, room).0))
    ensures FlowToA(t) && FlowToB(t)
  {
    hide Sink, Source, ProcessOn, FlightOk, ChannelOk, Thinned;
    var k := s.b.epoch;
    var f := s.ab[0].frame;
    ProcessOnEffect(c, f, now, room);
    if Fits(s.b, s.a) && k == s.a.epoch {
      FlowReceiveAck(k, c, now, room, s.ab, s.ba, s.a.ch.rcv, s.b.pushed[k], s.a.got);
    }
    if Fits(s.a, s.b) {
      if k == s.a.epoch {
        FlowReceiveData(k, c, now, room, s.ab, s.ba, s.a.ch.snd, s.a.pushed[k], s.b.got);
      } else if PayloadLength(f) > 0 {
        SinkReceive(k, c.rcv, s.a.pushed[k], s.b.got, s.ab, s.a.ch.snd.length, room);
        SinkSequence(k, c.rcv, s.a.pushed[k], s.b.got, s.ab, s.a.ch.snd.length);
      } else {
        ThinnedTail(s.ab);
        SinkThinned(k, c.rcv, s.a.pushed[k], s.b.got, s.ab, s.a.ch.snd.length, s.ab[1..]);
      }
    }
  }

  lemma SinkSequence(e: nat, r: RcvState, pushed: seq<Bytes>, got: seq<Bytes>, data: seq<Flight>, window: nat)
    requires Sink(e, r, pushed, got, data, window) && data != [] && data[0].stamp.epoch == e
    requires PayloadLength(data[0].frame) > 0
    ensures data[0].frame.sequence.Some?
  {
    assert FlightOk(data[0], r, pushed, window);
  }

  lemma DeliverToBSame(s: Sys, now: int, room: bool)
    requires Inv(s) && s.ab != [] && s.ab[0].stamp.epoch == s.b.epoch > 0
    ensures Inv(Next(s, Deliver(true, now, room)))
  {
    hide Sink, Source, ProcessOn, ChannelOk, Swap32;
    var t := Next(s, Deliver(true, now, room));
    var f := s.ab[0].frame;
    var c := AfterHandshake(s.b.ch, f, now);
    assert !Adopts(s.b.ch, f);
    assert c.rcv == s.b.ch.rcv && c.snd == s.b.ch.snd && c.arq.On?;
    ProcessOnEffect(c, f, now, room);
    assert Sessions(t) && Links(t);
    DeliverToBFlows(s, t, c, now, room);
  }

  /** Both rings of `b` are wiped when it enters a newer session, at a time when `a`
      has sent nothing but handshakes in it. */
  lemma DeliverToBAdopt(s: Sys, now: int, room: bool)
    requires Inv(s) && s.ab != [] && s.ab[0].stamp.epoch > s.b.epoch && s.ab[0].frame.handshake.Some?
    ensures Inv(Next(s, Deliver(true, now, room)))
  {
    hide Sink, Source, ChannelOk, LinkOk, Thinned, Swap32;
    var t := Next(s, Deliver(true, now, room));
    var f := s.ab[0];
    var e := f.stamp.epoch;
    assert Opening(f);
    LinkTail(s.ab, s.b.epoch, s.a.epoch, s.ids, true);
    LinkHigher(s.ba, 0, s.b.epoch, s.ids, false, e);
    AdoptSessions(s, t, f, now, room);
    AdoptFlows(s, t, e);
  }

  lemma AdoptSessions(s: Sys, t: Sys, f: Flight, now: int, room: bool)
    requires Sessions(s) && s.b.epoch < f.stamp.epoch <= s.a.epoch && Opening(f)
    requires f.frame.handshake.Some? && f.frame.handshake.value.identifier == Swap32(s.ids[f.stamp.epoch - 1])
    requires t == s.(ab := t.ab, b := PeerReceive(s.b, f, now, room))
    ensures Sessions(t) && t.b == Peer(WipeToOn(s.b.ch, f.frame.handshake.value.identifier, now),
                                       f.stamp.epoch, s.b.pushed[f.stamp.epoch := []], [])
  {
    hide Swap32, ProcessFrame, ChannelOk, Adopts;
    NewerAdopted(s, f);
    BareAdopted(s.b.ch, f.frame, now, room);
  }

  lemma NewerAdopted(s: Sys, f: Flight)
    requires Sessions(s) && s.b.epoch < f.stamp.epoch <= s.a.epoch
    requires f.frame.handshake.Some? && f.frame.handshake.value.identifier == Swap32(s.ids[f.stamp.epoch - 1])
    ensures Adopts(s.b.ch, f.frame)
  {
    hide Swap32, PeerOk;
    SwapIsInvolution(s.ids[f.stamp.epoch - 1]);
    if s.b.epoch > 0 {
      SwapIsInvolution(s.ids[s.b.epoch - 1]);
    }
  }

  /** Adopting a session by a frame with nothing else in it. */
  lemma BareAdopted(c: Channel, f: Frame, now: int, room: bool)
    requires ChannelOk(c) && Adopts(c, f) && Bare(f)
    ensures ProcessFrame(c, f, now, room).0 == WipeToOn(c, f.handshake.value.identifier, now)
    ensures ChannelOk(WipeToOn(c, f.handshake.value.identifier, now))
  {
  }

  lemma AdoptFlows(s: Sys, t: Sys, e: nat)
    requires ChannelOk(s.a.ch) && ChannelOk(s.b.ch)
    requires s.b.epoch < e <= s.a.epoch && Fresh(s.a) && (forall i: nat :: i <= s.a.epoch ==> i in s.a.pushed)
    requires s.ab != []
    requires Openings(s.ab, s.b.epoch) && s.b.epoch <= |s.ids| && LinkOk(s.ba, 0, s.b.epoch, s.ids, false)
    requires t == s.(ab := s.ab[1..], b := t.b) && t.b.epoch == e && t.b.got == []
        && t.b.pushed == s.b.pushed[e := []]
    requires t.b.ch.rcv == RcvEmpty(s.b.ch.rcv.length, s.b.ch.rcv.horizon, 0)
    requires t.b.ch.snd == SendEmpty(s.b.ch.snd.length, 0)
    ensures FlowToA(t) && FlowToB(t)
  {
    hide Sink, Source;
    if Fits(s.a, s.b) {
      FreshSink(e, t.b.ch.rcv, s.a.pushed[e], t.ab, s.a.ch.snd.length);
      if e == s.a.epoch { FreshSource(e, s.a.ch.snd, t.b.ch.rcv, s.a.pushed[e], t.ab, t.ba); }
    }
    if Fits(s.b, s.a) && e == s.a.epoch {
      FreshSink(e, s.a.ch.rcv, [], t.ba, s.b.ch.snd.length);
      FreshSource(e, t.b.ch.snd, s.a.ch.rcv, [], t.ba, t.ab);
    }
  }

  /** Both halves of a session that has just begun. */
  lemma FreshSink(e: nat, r: RcvState, pushed: seq<Bytes>, data: seq<Flight>, window: nat)
    requires r == RcvEmpty(r.length, r.horizon, 0) && r.horizon + 3 <= r.length && r.horizon <= ARQ_MAXIMUM_HORIZON
    requires window + r.horizon <= 256 && window > 0
    requires forall i :: 0 <= i < |data| && data[i].stamp.epoch == e ==> Opening(data[i])
    ensures Sink(e, r, pushed, [], data, window)
  {
  }

  lemma FreshSource(e: nat, s: SendState, r: RcvState, pushed: seq<Bytes>, data: seq<Flight>, acks: seq<Flight>)
    requires SendOk(s) && s.origin == 0 && s.tail == s.tx == 0 && s.data == pushed
    requires r == RcvEmpty(r.length, r.horizon, 0)
    requires forall i :: 0 <= i < |data| && data[i].stamp.epoch == e ==> Opening(data[i])
    requires forall i :: 0 <= i < |acks| && acks[i].stamp.epoch == e ==> Opening(acks[i])
    ensures Source(e, s, r, pushed, data, acks)
  {
  }


  /** Any other frame that reaches `b`: one from before the first session, or an
      empty one from a session it has not entered. */
  lemma DeliverToBOther(s: Sys, now: int, room: bool)
    requires Inv(s) && s.ab != []
    requires s.ab[0].stamp.epoch == s.b.epoch == 0 || (s.ab[0].stamp.epoch > s.b.epoch
        && s.ab[0].frame.handshake.None?)
    ensures Inv(Next(s, Deliver(true, now, room)))
  {
    hide Sink, Source, LinkOk, Thinned, Swap32;
    var t := Next(s, Deliver(true, now, room));
    LinkTail(s.ab, s.b.epoch, s.a.epoch, s.ids, true);
    ThinnedTail(s.ab);
    ThinnedSelf(s.ba);
    if s.b.epoch == 0 {
      assert s.ab[0].frame.handshake.None?;
      assert t.b == s.b.(ch := t.b.ch) && ChannelOk(t.b.ch);
    } else {
      assert Opening(s.ab[0]);
      assert t.b == s.b;
      FlowsThinned(s, t);
    }
  }

  lemma DeliverToBKeeps(s: Sys, now: int, room: bool)
    requires Inv(s) && s.ab != []
    ensures Inv(Next(s, Deliver(true, now, room)))
  {
    hide Sink, Source, LinkOk, Openings, Swap32, FlowToA, FlowToB, ProcessFrame;
    LinkTail(s.ab, s.b.epoch, s.a.epoch, s.ids, true);
    if s.ab[0].stamp.epoch == s.b.epoch > 0 {
      DeliverToBSame(s, now, room);
    } else if s.ab[0].stamp.epoch > s.b.epoch && s.ab[0].frame.handshake.Some? {
      DeliverToBAdopt(s, now, room);
    } else {
      DeliverToBOther(s, now, room);
    }
  }

  /** A frame that `a` does not take in: before the first session, or while it waits
      for the answer to its own handshake. */
  lemma DeliverToAOther(s: Sys, now: int, room: bool)
    requires Inv(s) && s.ba != [] && !s.a.ch.arq.On?
    requires s.a.ch.arq.Off? || s.ba[0].stamp.epoch < s.a.epoch || s.ba[0].frame.handshake.None?
    ensures Inv(Next(s, Deliver(false, now, room)))
  {
    hide Sink, Source, LinkOk, Thinned, Swap32;
    var t := Next(s, Deliver(false, now, room));
    LinkTail(s.ba, 0, s.b.epoch, s.ids, false);
    ThinnedTail(s.ba);
    ThinnedSelf(s.ab);
    if s.a.ch.arq.Off? {
      assert s.ba[0].frame.handshake.None?;
      assert t.a == s.a.(ch := t.a.ch) && ChannelOk(t.a.ch);
    } else {
      assert t.a == s.a;
      FlowsThinned(s, t);
    }
  }

  lemma DeliverToAFlows(s: Sys, t: Sys, c: Channel, now: int, room: bool)
    requires FlowToA(s) && FlowToB(s) && s.ba != [] && s.ba[0].stamp.epoch == s.b.epoch == s.a.epoch > 0
    requires ChannelOk(c) && c.rcv == s.a.ch.rcv && c.snd == s.a.ch.snd
    requires t == s.(ba := s.ba[1..], a := s.a.(ch := ProcessOn(c, s.ba[0].frame, now, room).0))
    ensures FlowToA(t) && FlowToB(t)
  {
    hide Sink, Source, ProcessOn, FlightOk, ChannelOk;
    var k := s.b.epoch;
    ProcessOnEffect(c, s.ba[0].frame, now, room);
    if Fits(s.b, s.a) {
      FlowReceiveData(k, c, now, room, s.ba, s.ab, s.b.ch.snd, s.b.pushed[k], s.a.got);
    }
    if Fits(s.a, s.b) {
      FlowReceiveAck(k, c, now, room, s.ba, s.ab, s.b.ch.rcv, s.a.pushed[k], s.b.got);
    }
  }

  /** A frame of the current session reaches `a`, connected or connecting it. */
  lemma DeliverToASame(s: Sys, now: int, room: bool)
    requires Inv(s) && s.ba != [] && s.ba[0].stamp.epoch == s.a.epoch > 0
    requires s.a.ch.arq.On? || s.ba[0].frame.handshake.Some?
    ensures Inv(Next(s, Deliver(false, now, room)))
  {
    hide Sink, Source, ProcessOn, ChannelOk, Swap32, LinkOk, Openings;
    var t := Next(s, Deliver(false, now, room));
    var f := s.ba[0].frame;
    var c := AfterHandshake(s.a.ch, f, now);
    LinkTail(s.ba, if s.a.ch.arq.On? then s.a.epoch else 0, s.b.epoch, s.ids, false);
    assert !Adopts(s.a.ch, f);
    assert c.rcv == s.a.ch.rcv && c.snd == s.a.ch.snd && c.arq.On?;
    ProcessOnEffect(c, f, now, room);
    DeliverToAFlows(s, t, c, now, room);
  }

  lemma DeliverToAKeeps(s: Sys, now: int, room: bool)
    requires Inv(s) && s.ba != []
    ensures Inv(Next(s, Deliver(false, now, room)))
  {
    hide Sink, Source, LinkOk, Openings, Swap32, FlowToA, FlowToB, ProcessFrame;
    LinkTail(s.ba, if s.a.ch.arq.On? then s.a.epoch else 0, s.b.epoch, s.ids, false);
    if s.ba[0].stamp.epoch == s.a.epoch > 0 && (s.a.ch.arq.On? || s.ba[0].frame.handshake.Some?) {
      DeliverToASame(s, now, room);
    } else {
      DeliverToAOther(s, now, room);
    }
  }

  /** Every step keeps the invariant. */
  lemma StepKeeps(s: Sys, e: Event)
    requires Inv(s) && Enabled(s, e)
    ensures Inv(Next(s, e))
  {
    hide Inv, Next;
    match e
    case Connect(now, id) => ConnectKeeps(s, now, id);
    case Push(atA, p, room) => PushKeeps(s, atA, p, room);
    case Read(atA, max) => ReadKeeps(s, atA, max);
    case Send(fromA, cfg, length, now, sent) =>
      if fromA { SendFromAKeeps(s, cfg, length, now, sent); } else { SendFromBKeeps(s, cfg, length, now, sent); }
    case Deliver(toB, now, room) =>
      if toB { DeliverToBKeeps(s, now, room); } else { DeliverToAKeeps(s, now, room); }
    case Lose(toB, i) => LoseKeeps(s, toB, i);
  }

  // ------------------------------------------------------------------------- runs

  /** Whatever arrives, a step leaves both channels well formed. */
  lemma StepOk(s: Sys, e: Event)
    requires PeerOk(s.a) && PeerOk(s.b) && Enabled(s, e)
    ensures PeerOk(Next(s, e).a) && PeerOk(Next(s, e).b)
  {
    hide FillFrame, ProcessFrame, PeerSend, RcvRead;
    match e
    case Send(fromA, cfg, length, now, sent) =>
      var p := if fromA then s.a else s.b;
      if p.ch.arq.Off? { SendOffEffect(p, cfg, length, now, sent); } else { SendEffect(p, cfg, length, now, sent); }
    case Deliver(toB, now, room) =>
      if toB {
        ChannelKeeps(s.b.ch, s.ab[0].frame, now, room);
      } else {
        ChannelKeeps(s.a.ch, s.ba[0].frame, now, room);
      }
    case _ =>
  }

  /** The state after a run, or None if some step was not possible. */
  ghost function Run(s: Sys, events: seq<Event>): Option<Sys>
    requires PeerOk(s.a) && PeerOk(s.b)
    decreases |events|
  {
    if events == [] then Some(s)
    else if !Enabled(s, events[0]) then None
    else StepOk(s, events[0]); Run(Next(s, events[0]), events[1..])
  }

  /** Two channels as sky_vc_create leaves them, with nothing in the air. */
  ghost predicate Start(s: Sys) {
    && ChannelOk(s.a.ch) && s.a.ch == WipeToOff(s.a.ch)
    && ChannelOk(s.b.ch) && s.b.ch == WipeToOff(s.b.ch)
    && s.a == Peer(s.a.ch, 0, map[0 := []], []) && s.b == Peer(s.b.ch, 0, map[0 := []], [])
    && s.ab == [] && s.ba == [] && s.ids == []
  }

  ghost predicate Reachable(start: Sys, s: Sys) {
    Start(start) && exists events :: Run(start, events) == Some(s)
  }

  lemma {:induction false} RunKeeps(s: Sys, events: seq<Event>)
    requires Inv(s)
    ensures Run(s, events).Some? ==> Inv(Run(s, events).value)
    decreases |events|
  {
    hide Next, Links, FlowToA, FlowToB, Swap32;
    if events != [] && Enabled(s, events[0]) {
      StepKeeps(s, events[0]);
      RunKeeps(Next(s, events[0]), events[1..]);
    }
  }

  lemma StartInv(s: Sys)
    requires Start(s)
    ensures Inv(s)
  {
    hide Swap32, Sink, Source;
  }

  lemma ReachableInv(start: Sys, s: Sys)
    requires Reachable(start, s)
    ensures Inv(s)
  {
    hide Inv, Next;
    var events :| Run(start, events) == Some(s);
    StartInv(start);
    RunKeeps(start, events);
  }

  /** A peer whose channel has rings of the given sizes, as sky_vc_create leaves it. */
  function FreshPeer(rcvLen: nat, horizon: nat, sndLen: nat): Peer {
    Peer(Channel(RcvEmpty(rcvLen, horizon, 0), SendEmpty(sndLen, 0), Off, 0, 0, false, 0, 0, 0, 0), 0, map[0 := []], [])
  }

  /** There is a start state for every pair of ring sizes, and it is reachable from itself. */
  lemma CanStart(rcvA: nat, horizonA: nat, sndA: nat, rcvB: nat, horizonB: nat, sndB: nat)
    requires horizonA + 3 <= rcvA && horizonA <= ARQ_MAXIMUM_HORIZON && 4 <= sndA <= 256
    requires horizonB + 3 <= rcvB && horizonB <= ARQ_MAXIMUM_HORIZON && 4 <= sndB <= 256
    ensures var s := Sys(FreshPeer(rcvA, horizonA, sndA), FreshPeer(rcvB, horizonB, sndB), [], [], []);
            Start(s) && Reachable(s, s)
  {
    var s := Sys(FreshPeer(rcvA, horizonA, sndA), FreshPeer(rcvB, horizonB, sndB), [], [], []);
    assert Run(s, []) == Some(s);
  }

  // --------------------------------------------------------------------- theorems

  /** What a connected peer has read in its session is a prefix of what the other
      side queued in the same session: in order, without gaps or duplicates. */
  ghost predicate InOrder(p: Peer, other: Peer) {
    p.ch.arq.On? ==> p.epoch in other.pushed && p.got <= other.pushed[p.epoch]
  }

  lemma InOrderDelivery(start: Sys, s: Sys)
    requires Reachable(start, s)
    ensures Fits(s.a, s.b) ==> InOrder(s.b, s.a)
    ensures Fits(s.b, s.a) ==> InOrder(s.a, s.b)
  {
    hide Reachable, Swap32, LinkOk, Openings;
    ReachableInv(start, s);
  }

  /** The sender has not dropped anything the receiver may still need: its tail is not
      past the receiver's head, and every packet from there on is in its ring. */
  ghost predicate StillHeld(p: Peer, other: Peer) {
    p.ch.snd.tail <= other.ch.rcv.head <= p.ch.snd.tx &&
    p.epoch in p.pushed && |p.pushed[p.epoch]| == p.ch.snd.head &&
    |p.ch.snd.data| == p.ch.snd.head - p.ch.snd.tail &&
    forall n :: other.ch.rcv.head <= n < p.ch.snd.head ==>
      p.ch.snd.data[n - p.ch.snd.tail] == p.pushed[p.epoch][n]
  }

  lemma NothingLost(start: Sys, s: Sys)
    requires Reachable(start, s)
    requires s.b.ch.arq.On? && s.a.epoch == s.b.epoch
    ensures Fits(s.a, s.b) ==> StillHeld(s.a, s.b)
    ensures Fits(s.b, s.a) ==> StillHeld(s.b, s.a)
  {
    hide Reachable, Swap32, LinkOk, Openings;
    ReachableInv(start, s);
  }

  /** The receiver's verdict on a control extension is about the true counters: "in
      sync" exactly if nothing the peer had sent by then is missing, "out of sync" if
      up to 64 packets are, and "detached" only beyond that. */
  ghost predicate VerdictIsTrue(r: RcvState, f: Flight) {
    f.frame.ctrl.Some? ==>
      var verdict := SyncStatus(r, f.frame.ctrl.value.tx);
      && r.head <= f.stamp.tx
      && (verdict == SKY_RET_OK <==> f.stamp.tx == r.head)
      && (verdict == SKY_RET_RING_SEQUENCES_DETACHED <==> f.stamp.tx > r.head + ARQ_MAXIMUM_HORIZON)
  }

  lemma SinkVerdict(e: nat, r: RcvState, pushed: seq<Bytes>, got: seq<Bytes>, data: seq<Flight>, window: nat, i: nat)
    requires Sink(e, r, pushed, got, data, window) && i < |data| && data[i].stamp.epoch == e
    ensures VerdictIsTrue(r, data[i]) && data[i].stamp.tx < r.head + window
  {
    assert FlightOk(data[i], r, pushed, window);
    SequenceDistance(0, r.head, data[i].stamp.tx);
  }

  /** For every frame in the air towards a connected peer; with a send ring of at most
      65 slots the peer is never reported detached. */
  lemma SyncVerdicts(start: Sys, s: Sys, i: nat)
    requires Reachable(start, s)
    ensures Fits(s.a, s.b) && s.b.ch.arq.On? && i < |s.ab| && s.ab[i].stamp.epoch == s.b.epoch ==>
              && VerdictIsTrue(s.b.ch.rcv, s.ab[i])
              && (s.a.ch.snd.length <= 65 && s.ab[i].frame.ctrl.Some? ==>
                    SyncStatus(s.b.ch.rcv, s.ab[i].frame.ctrl.value.tx) != SKY_RET_RING_SEQUENCES_DETACHED)
    ensures Fits(s.b, s.a) && s.a.ch.arq.On? && i < |s.ba| ==>
              && VerdictIsTrue(s.a.ch.rcv, s.ba[i])
              && (s.b.ch.snd.length <= 65 && s.ba[i].frame.ctrl.Some? ==>
                    SyncStatus(s.a.ch.rcv, s.ba[i].frame.ctrl.value.tx) != SKY_RET_RING_SEQUENCES_DETACHED)
  {
    hide Reachable, Swap32, Openings, Sink, Source, SyncStatus;
    ReachableInv(start, s);
    var k := s.b.epoch;
    if Fits(s.a, s.b) && s.b.ch.arq.On? && i < |s.ab| && s.ab[i].stamp.epoch == k {
      SinkVerdict(k, s.b.ch.rcv, s.a.pushed[k], s.b.got, s.ab, s.a.ch.snd.length, i);
    }
    if Fits(s.b, s.a) && s.a.ch.arq.On? && i < |s.ba| {
      SinkVerdict(k, s.a.ch.rcv, s.b.pushed[k], s.a.got, s.ba, s.b.ch.snd.length, i);
    }
  }

  /** A connected initiator has a connected peer that holds the byte-swapped
      identifier of the very same session. */
  lemma SessionAgreement(start: Sys, s: Sys)
    requires Reachable(start, s) && s.a.ch.arq.On?
    ensures s.b.ch.arq.On? && s.b.epoch == s.a.epoch
    ensures s.b.ch.session == Swap32(s.a.ch.session) && s.a.ch.session == Swap32(s.b.ch.session)
  {
    hide Reachable, Swap32, LinkOk, Openings, Sink, Source, FlowToA, FlowToB;
    ReachableInv(start, s);
    SwapIsInvolution(s.a.ch.session);
  }

  /** The peer is still in its session: its rings have not been wiped, so counters and
      histories only grew. */
  ghost predicate KeepsSession(p: Peer, q: Peer) {
    && q.epoch == p.epoch && q.ch.session == p.ch.session && (p.ch.arq.On? ==> q.ch.arq.On?)
    && p.epoch in p.pushed && p.epoch in q.pushed
    && p.pushed[p.epoch] <= q.pushed[p.epoch] && p.got <= q.got
    && p.ch.rcv.tail <= q.ch.rcv.tail && p.ch.rcv.head <= q.ch.rcv.head
    && p.ch.snd.tail <= q.ch.snd.tail && p.ch.snd.tx <= q.ch.snd.tx && p.ch.snd.head <= q.ch.snd.head
  }

  lemma KeepsTrans(p: Peer, q: Peer, r: Peer)
    requires KeepsSession(p, q) && KeepsSession(q, r)
    ensures KeepsSession(p, r)
  {
  }

  lemma PushKept(p: Peer, payload: Bytes, room: bool)
    requires PeerOk(p)
    ensures KeepsSession(p, PeerPush(p, payload, room))
  {
  }

  lemma ReadKept(p: Peer, max: nat)
    requires PeerOk(p)
    ensures KeepsSession(p, PeerRead(p, max))
  {
  }

  lemma SendKept(p: Peer, cfg: ArqConfig, length: nat, now: int, sent: nat)
    requires PeerOk(p) && !p.ch.arq.Off?
    ensures KeepsSession(p, PeerSend(p, cfg, length, now, sent).0)
  {
    hide PeerSend, Describes, ChannelOk;
    SendEffect(p, cfg, length, now, sent);
  }

  lemma ReceiveKept(p: Peer, f: Flight, now: int, room: bool)
    requires PeerOk(p) && !p.ch.arq.Off? && !Adopts(p.ch, f.frame)
    ensures KeepsSession(p, PeerReceive(p, f, now, room))
  {
    hide ProcessOn, Advance;
    var d := AfterHandshake(p.ch, f.frame, now);
    ProcessOnEffect(d, f.frame, now, room);
  }

  /** In its current session a peer adopts nothing: `a` from connecting on, `b` from the
      moment it is in the same session as `a`. */
  lemma NothingAdopted(s: Sys)
    requires Inv(s)
    ensures 0 < s.a.epoch && s.ba != [] ==> !Adopts(s.a.ch, s.ba[0].frame)
    ensures 0 < s.b.epoch == s.a.epoch && s.ab != [] ==> !Adopts(s.b.ch, s.ab[0].frame)
  {
    hide Swap32, Openings, Sink, Source, FlowToA, FlowToB, LinkOk;
    if s.ba != [] {
      LinkTail(s.ba, if s.a.ch.arq.On? then s.a.epoch else 0, s.b.epoch, s.ids, false);
    }
    if s.ab != [] {
      LinkTail(s.ab, s.b.epoch, s.a.epoch, s.ids, true);
    }
  }

  lemma SessionStates(s: Sys)
    requires Inv(s)
    ensures PeerOk(s.a) && PeerOk(s.b)
    ensures 0 < s.a.epoch ==> !s.a.ch.arq.Off?
    ensures 0 < s.b.epoch ==> s.b.ch.arq.On?
  {
    hide Swap32, Openings, Sink, Source, FlowToA, FlowToB, LinkOk;
  }

  /** What one step other than a connect leaves alone. */
  ghost predicate Persists(s: Sys, t: Sys) {
    && (0 < s.a.epoch ==> KeepsSession(s.a, t.a))
    && (0 < s.b.epoch == s.a.epoch ==> KeepsSession(s.b, t.b))
  }

  lemma StepPersists(s: Sys, e: Event)
    requires Inv(s) && Enabled(s, e) && !e.Connect? && PeerOk(s.a) && PeerOk(s.b)
    ensures Persists(s, Next(s, e))
  {
    hide Inv, PeerOk, PeerPush, PeerRead, PeerSend, PeerReceive, Adopts, KeepsSession;
    SessionStates(s);
    NothingAdopted(s);
    PeerKept(s.a);
    PeerKept(s.b);
    match e
    case Push(atA, payload, room) => PushKept(if atA then s.a else s.b, payload, room);
    case Read(atA, max) => ReadKept(if atA then s.a else s.b, max);
    case Send(fromA, cfg, length, now, sent) =>
      var p := if fromA then s.a else s.b;
      if !p.ch.arq.Off? { SendKept(p, cfg, length, now, sent); }
    case Deliver(toB, now, room) =>
      var p, f := if toB then s.b else s.a, if toB then s.ab[0] else s.ba[0];
      if !p.ch.arq.Off? && !Adopts(p.ch, f.frame) { ReceiveKept(p, f, now, room); }
    case Lose(_, _) =>
  }

  lemma PeerKept(p: Peer)
    requires PeerOk(p)
    ensures KeepsSession(p, p)
  {
  }

  /** Until the next connect no step wipes the initiator, and none wipes the responder from
      the moment it has adopted the session on, whether or not the initiator is ON yet. */
  lemma SessionPersists(start: Sys, s: Sys, events: seq<Event>, t: Sys)
    requires Reachable(start, s) && PeerOk(s.a) && PeerOk(s.b)
    requires (forall e :: e in events ==> !e.Connect?) && Run(s, events) == Some(t)
    ensures Persists(s, t)
  {
    hide Reachable, Inv, Persists, Run, PeerOk;
    ReachableInv(start, s);
    RunPersists(s, events, t);
  }

  lemma {:induction false} RunPersists(s: Sys, events: seq<Event>, t: Sys)
    requires Inv(s) && PeerOk(s.a) && PeerOk(s.b)
    requires (forall e :: e in events ==> !e.Connect?) && Run(s, events) == Some(t)
    ensures Persists(s, t)
    decreases |events|
  {
    hide Inv, Next, PeerOk, KeepsSession;
    if events == [] {
      PeerKept(s.a);
      PeerKept(s.b);
    } else {
      var u := Next(s, events[0]);
      StepOk(s, events[0]);
      StepKeeps(s, events[0]);
      StepPersists(s, events[0]);
      RunPersists(u, events[1..], t);
      SameSession(s, u, t);
    }
  }

  lemma SameSession(s: Sys, u: Sys, t: Sys)
    requires Persists(s, u) && Persists(u, t)
    ensures Persists(s, t)
  {
    if 0 < s.a.epoch { KeepsTrans(s.a, u.a, t.a); }
    if 0 < s.b.epoch == s.a.epoch { KeepsTrans(s.b, u.b, t.b); }
  }
}
