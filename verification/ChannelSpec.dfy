/** The abstract behaviour of one virtual channel (src/reliable_vc.c): handshake,
    acknowledgement, retransmit requests, frame filling and frame processing. */
module ChannelSpec {
  import opened Base
  import opened RingSpec

  // ---------------------------------------------------------------------- frames

  datatype Handshake = Handshake(peerState: byte, identifier: uint32)
  datatype Request = Request(sequence: byte, mask: seq<bool>)
  datatype Control = Control(tx: byte, rx: byte)

  /** The parts of a frame a virtual channel writes and reads. */
  datatype Frame = Frame(
    handshake: Option<Handshake>,
    request: Option<Request>,
    ctrl: Option<Control>,
    sequence: Option<byte>,
    payload: Option<Bytes>)

  const EMPTY_FRAME := Frame(None, None, None, None, None)

  /** Bytes that each extension occupies: the type/length byte and its body. */
  const ARQ_SEQUENCE_SIZE := 2
  const ARQ_CTRL_SIZE := 3
  const ARQ_REQUEST_SIZE := 4
  const ARQ_HANDSHAKE_SIZE := 6

  function OptionSize<T>(o: Option<T>, size: nat): nat {
    if o.Some? then size else 0
  }

  function ExtensionsSize(f: Frame): nat {
    OptionSize(f.handshake, ARQ_HANDSHAKE_SIZE) + OptionSize(f.request, ARQ_REQUEST_SIZE) +
    OptionSize(f.ctrl, ARQ_CTRL_SIZE) + OptionSize(f.sequence, ARQ_SEQUENCE_SIZE)
  }

  function FrameSize(f: Frame): nat {
    ExtensionsSize(f) + (if f.payload.Some? then |f.payload.value| else 0)
  }

  /** sky_frame_get_space_left for a frame of `length` bytes. */
  function SpaceLeft(length: nat): int {
    RS_MSGLEN - (length + SKY_HMAC_LENGTH)
  }

  /** sky_hton32 on a little-endian host. */
  function Swap32(x: uint32): uint32 {
    (x % 256) * 0x100_0000 + (x / 256 % 256) * 0x1_0000 + (x / 0x1_0000 % 256) * 256 + x / 0x100_0000
  }

  // --------------------------------------------------------------------- channel

  datatype Arq = Off | InInit | On

  datatype Channel = Channel(
    rcv: RcvState,
    snd: SendState,
    arq: Arq,
    handshakeSend: byte,
    session: uint32,
    needRecall: bool,
    lastTx: int,
    lastRx: int,
    lastCtrl: int,
    unconfirmed: int)

  ghost predicate ChannelOk(c: Channel) {
    && RcvOk(c.rcv)
    && SendOk(c.snd)
    && (forall p :: p in c.snd.data ==> |p| <= SKY_PAYLOAD_MAX_LEN)
  }

  /** SkyARQConfig fields that frame filling reads. */
  datatype ArqConfig = ArqConfig(idleFramesPerWindow: int, idleFrameThreshold: int)

  function TicksSince(now: int, then_: int): int {
    (now - then_) % MOD_TIME_TICKS
  }

  /** Increment of an int16_t counter. */
  function Increment16(x: int): int {
    if x == 0x7fff then -0x8000 else x + 1
  }

  function WipedRings(c: Channel): Channel {
    c.(rcv := RcvEmpty(c.rcv.length, c.rcv.horizon, 0),
       snd := SendEmpty(c.snd.length, 0),
       needRecall := false,
       lastCtrl := 0,
       unconfirmed := 0)
  }

  function WipeToOff(c: Channel): Channel {
    WipedRings(c).(arq := Off, session := 0, lastTx := 0, lastRx := 0, handshakeSend := 0)
  }

  function WipeToInit(c: Channel, now: int, identifier: uint32): Channel {
    WipedRings(c).(arq := InInit, session := identifier, lastTx := now, lastRx := now, handshakeSend := 0)
  }

  function WipeToOn(c: Channel, identifier: uint32, now: int): Channel {
    WipedRings(c).(arq := On, session := identifier, lastTx := now, lastRx := now, handshakeSend := 1)
  }

  // ------------------------------------------------------------------------ send

  function PushPacket(c: Channel, payload: Bytes, room: bool): (Channel, int) {
    if |payload| > SKY_PAYLOAD_MAX_LEN then (c, SKY_RET_TOO_LONG_PAYLOAD)
    else var (s, ret) := SendPush(c.snd, payload, room); (c.(snd := s), ret)
  }

  function IdleFrameDue(c: Channel, cfg: ArqConfig, now: int): bool {
    || TicksSince(now, c.lastCtrl) > cfg.idleFrameThreshold
    || TicksSince(now, c.lastTx) > cfg.idleFrameThreshold
    || TicksSince(now, c.lastRx) > cfg.idleFrameThreshold
    || c.unconfirmed > 0
  }

  /** sky_vc_content_to_send */
  predicate ContentToSend(c: Channel, cfg: ArqConfig, now: int, sent: nat) {
    var window := sent < cfg.idleFramesPerWindow;
    match c.arq
    case Off => CountToSend(c.snd, false) > 0
    case InInit => window
    case On =>
      || CountToSend(c.snd, true) > 0
      || (window && (true in Bitmap(c.rcv) || c.needRecall))
      || c.handshakeSend > 0
      || (window && IdleFrameDue(c, cfg, now))
  }

  /** The outcome of filling a frame; a frame is transmitted iff ret >= 0. */
  datatype Filled = Filled(channel: Channel, ret: int, frame: Frame)

  function AddHandshake(f: Filled): Filled {
    if f.channel.handshakeSend > 0 then
      Filled(f.channel.(handshakeSend := f.channel.handshakeSend - 1), 1,
             f.frame.(handshake := Some(Handshake(ARQ_STATE_ON, Swap32(f.channel.session)))))
    else f
  }

  function AddRequest(f: Filled, window: bool): Filled {
    var mask := Bitmap(f.channel.rcv);
    if window && (true in mask || f.channel.needRecall) then
      Filled(f.channel.(needRecall := false), 1,
             f.frame.(request := Some(Request(Seq8(f.channel.rcv.origin, f.channel.rcv.head), mask))))
    else f
  }

  function AddControl(f: Filled, cfg: ArqConfig, now: int, window: bool): Filled {
    var c := f.channel;
    if (window && IdleFrameDue(c, cfg, now)) || CountToSend(c.snd, true) > 0 then
      Filled(c.(lastCtrl := now, unconfirmed := 0), 1,
             f.frame.(ctrl := Some(Control(Seq8(c.snd.origin, c.snd.tx), Seq8(c.rcv.origin, c.rcv.head)))))
    else f
  }

  /** `length` is what the frame held before the channel started to fill it. */
  function AddPayload(f: Filled, length: nat): Filled
    requires ChannelOk(f.channel)
  {
    var c := f.channel;
    if CountToSend(c.snd, true) == 0 then f
    else
      var (size, sequence) := Peek(c.snd, true);
      if size < 0 then f.(ret := size)
      else
        var r := ReadToTx(c.snd, true);
        if size + ARQ_SEQUENCE_SIZE <= SpaceLeft(length + ExtensionsSize(f.frame)) then
          Filled(c.(snd := r.state), 1, f.frame.(sequence := Some(sequence), payload := Some(r.payload)))
        else Filled(c.(snd := r.state), SKY_RET_NO_SPACE_FOR_PAYLOAD, f.frame)
  }

  /** The extensions that come before the packet's own sequence extension. */
  function FillExtensions(c: Channel, cfg: ArqConfig, now: int, sent: nat): (f: Filled)
    ensures f.channel.snd == c.snd && f.channel.rcv == c.rcv
    ensures f.channel.arq == c.arq && f.channel.session == c.session
    ensures f.frame.sequence.None? && f.frame.payload.None?
  {
    var window := sent < cfg.idleFramesPerWindow;
    AddControl(AddRequest(AddHandshake(Filled(c, 0, EMPTY_FRAME)), window), cfg, now, window)
  }

  function FillOn(c: Channel, cfg: ArqConfig, length: nat, now: int, sent: nat): Filled
    requires ChannelOk(c)
  {
    AddPayload(FillExtensions(c, cfg, now, sent), length)
  }

  function FillOff(c: Channel): Filled
    requires ChannelOk(c)
  {
    if Peek(c.snd, false).0 > 0 then
      var r := ReadNew(c.snd);
      assert c.snd.data[c.snd.tx - c.snd.tail] in c.snd.data;
      var s := CleanTail(r.state, Seq8(r.state.origin, r.state.tx)).0;
      Filled(c.(snd := s), 1, EMPTY_FRAME.(payload := Some(r.payload)))
    else Filled(c, 0, EMPTY_FRAME)
  }

  /** sky_vc_fill_frame */
  function FillFrame(c: Channel, cfg: ArqConfig, length: nat, now: int, sent: nat): Filled
    requires ChannelOk(c)
  {
    match c.arq
    case Off => FillOff(c)
    case InInit =>
      if sent < cfg.idleFramesPerWindow then
        Filled(c, 1, EMPTY_FRAME.(handshake := Some(Handshake(ARQ_STATE_IN_INIT, Swap32(c.session)))))
      else Filled(c, 0, EMPTY_FRAME)
    case On => FillOn(c, cfg, length, now, sent)
  }

  // --------------------------------------------------------------------- receive

  function ReadPacket(c: Channel, maxLength: nat): (Channel, int, Bytes)
    requires ChannelOk(c)
  {
    var (r, ret, p) := RcvRead(c.rcv, maxLength); (c.(rcv := r), ret, p)
  }

  /** sky_vc_handle_handshake */
  function HandleHandshake(c: Channel, h: Handshake, now: int): Channel {
    match c.arq
    case Off => WipeToOn(c, h.identifier, now)
    case InInit =>
      if h.identifier == c.session then c.(arq := On, handshakeSend := 0)
      else if h.identifier > c.session then WipeToOn(c, h.identifier, now)
      else c
    case On =>
      if h.identifier == c.session then
        c.(handshakeSend := if h.peerState == ARQ_STATE_IN_INIT then 1 else 0)
      else WipeToOn(c, h.identifier, now)
  }

  /** sky_vc_update_tx_sync followed by sky_vc_update_rx_sync */
  function HandleControl(c: Channel, ctrl: Control, now: int): (d: Channel)
    requires ChannelOk(c)
    ensures ChannelOk(d)
    ensures d.snd == CleanTail(c.snd, ctrl.rx).0 && d.rcv == c.rcv && d.arq == c.arq && d.session == c.session
  {
    var (s, cleared) := CleanTail(c.snd, ctrl.rx);
    var c1 := c.(snd := s,
                 lastTx := if cleared > 0 || Seq8(s.origin, s.tx) == ctrl.rx then now else c.lastTx);
    var sync := SyncStatus(c.rcv, ctrl.tx);
    if sync == SKY_RET_OK then c1.(lastRx := now, needRecall := false)
    else if sync == SKY_RET_RING_SEQUENCES_OUT_OF_SYNC then c1.(needRecall := true)
    else c1
  }

  /** sky_vc_push_rx_packet */
  function HandleData(c: Channel, payload: Bytes, sequence: byte, now: int, room: bool): (d: Channel)
    requires ChannelOk(c)
    ensures ChannelOk(d)
    ensures d.snd == c.snd && d.arq == c.arq && d.session == c.session
    ensures d.rcv == RcvPush(c.rcv, payload, sequence, room).0
  {
    var (r, ret) := RcvPush(c.rcv, payload, sequence, room);
    c.(rcv := r, lastRx := if ret > 0 then now else c.lastRx, unconfirmed := Increment16(c.unconfirmed))
  }

  function HandleRequest(c: Channel, q: Request): (d: Channel)
    requires ChannelOk(c)
    ensures ChannelOk(d)
    ensures d == c.(snd := c.snd.(resend := d.snd.resend))
  {
    c.(snd := ScheduleByMask(c.snd, q.sequence, q.mask).0)
  }

  function PayloadLength(f: Frame): nat {
    if f.payload.Some? then |f.payload.value| else 0
  }

  /** The ARQ_STATE_ON branch of sky_vc_process_frame. */
  function ProcessOn(c: Channel, f: Frame, now: int, room: bool): (Channel, int)
    requires ChannelOk(c)
  {
    var c1 := if f.ctrl.Some? then HandleControl(c, f.ctrl.value, now) else c;
    if PayloadLength(f) > 0 && f.sequence.None? then (c1, -1)
    else
      var c2 :=
        if PayloadLength(f) > 0 then HandleData(c1, f.payload.value, f.sequence.value, now, room) else c1;
      (if f.request.Some? then HandleRequest(c2, f.request.value) else c2, 0)
  }

  function AfterHandshake(c: Channel, f: Frame, now: int): (d: Channel)
    requires ChannelOk(c)
    ensures ChannelOk(d)
  {
    if f.handshake.Some? then HandleHandshake(c, f.handshake.value, now) else c
  }

  /** sky_vc_process_frame */
  function ProcessFrame(c: Channel, f: Frame, now: int, room: bool): (Channel, int)
    requires ChannelOk(c)
  {
    var d := AfterHandshake(c, f, now);
    match d.arq
    case Off =>
      if PayloadLength(f) > 0 then
        (d.(rcv := RcvPush(d.rcv, f.payload.value, Seq8(d.rcv.origin, d.rcv.head), room).0), 0)
      else (d, 0)
    case InInit => (d, 0)
    case On => ProcessOn(d, f, now, room)
  }

  /** sky_vc_check_timeouts */
  function CheckTimeouts(c: Channel, now: int, timeout: int): Channel {
    if c.arq.Off? then c
    else if TicksSince(now, c.lastTx) > timeout || TicksSince(now, c.lastRx) > timeout then WipeToOff(c)
    else c
  }

  // ------------------------------------------------------------------ properties

  lemma SwapReversesBytes(a: byte, b: byte, c: byte, d: byte)
    ensures Swap32(a + b * 0x100 + c * 0x1_0000 + d * 0x100_0000)
            == d + c * 0x100 + b * 0x1_0000 + a * 0x100_0000
  {
    var x := a + b * 0x100 + c * 0x1_0000 + d * 0x100_0000;
    assert x / 0x100_0000 == d;
    assert x / 0x1_0000 == c + d * 256;
    assert x / 0x100 == b + c * 256 + d * 0x1_0000;
    assert (x / 0x1_0000) % 256 == c;
    assert x % 256 == a;
    assert (x / 256) % 256 == b by {
      assert x / 256 == b + 256 * (c + d * 256);
    }
  }

  lemma SwapIsInvolution(x: uint32)
    ensures Swap32(Swap32(x)) == x
  {
    var q := x / 0x100;
    var r := q / 0x100;
    var a, b, c, d := x % 256, q % 256, r % 256, r / 256;
    SwapReversesBytes(a, b, c, d);
    SwapReversesBytes(d, c, b, a);
  }

  /** The sequence number and length announced by peek are those of the packet that
      the following read delivers, so a frame's sequence extension always matches
      its payload. */
  lemma PeekMatchesRead(s: SendState, includeResend: bool)
    requires SendOk(s) && (forall p :: p in s.data ==> |p| <= TX_READ_LIMIT)
    ensures var (size, sequence) := Peek(s, includeResend);
            var r := ReadToTx(s, includeResend);
            size >= 0 ==> r.ret == size == |r.payload| && r.sequence == sequence
  {
    if s.tx < s.head {
      assert s.data[s.tx - s.tail] in s.data;
    }
    if s.resend != [] && CanRecall(s, s.resend[0]) {
      RecalledSequence(s, s.resend[0]);
      assert s.data[RecallPosition(s, s.resend[0]) - s.tail] in s.data;
    }
  }
}
