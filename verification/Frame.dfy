/** Building and parsing radio frames (src/frame.c, src/skylink_tx.c:126-224). */
module Frames {
  import opened Base
  import opened RingSpec
  import opened ChannelSpec
  import opened Extensions
  import Utilities

  const SKY_MAX_IDENTITY_LEN := 7

  /** sizeof(SkyStaticHeader): 7 where the compiler gives the unpacked inner bit-field a
      whole unsigned int. */
  const STATIC_HEADER_MAX := 7

  class TransmitFrame {
    const raw: array<byte>
    var length: nat
    var extensionLength: nat
    var hasPayload: bool

    ghost predicate Valid()
      reads this
    {
      length <= raw.Length == SKY_FRAME_MAX_LEN + 6 && extensionLength <= length
    }

    ghost function Contents(): Bytes
      reads this, raw
      requires Valid()
    {
      raw[..length]
    }

    /** The start of sky_tx: version byte, identity and static header. */
    constructor (identity: Bytes, header: Bytes)
      requires |identity| <= SKY_MAX_IDENTITY_LEN && |header| <= STATIC_HEADER_MAX
      ensures Valid() && fresh(raw) && !hasPayload && extensionLength == 0
      ensures Contents() == [0x60 + |identity|] + identity + header
    {
      var start := [0x60 + |identity|] + identity + header;
      raw := new byte[SKY_FRAME_MAX_LEN + 6](i => if 0 <= i < |start| then start[i] else 0);
      length := |start|;
      extensionLength, hasPayload := 0, false;
      new;
      assert raw[..length] == start;
    }

    /** The bytes are written at the cursor, which moves on. */
    method Write(bytes: Bytes)
      requires Valid() && length + |bytes| <= raw.Length
      modifies `length, raw
      ensures Valid() && Contents() == old(Contents()) + bytes
    {
      forall i | 0 <= i < |bytes| { raw[length + i] := bytes[i]; }
      length := length + |bytes|;
    }

    /** The six sky_frame_add_extension functions, whose assertions are the preconditions. */
    method AddExtension(e: Extension)
      requires Valid() && !hasPayload && length + |Encode(e)| <= SKY_PAYLOAD_MAX_LEN
      requires !e.TddControl? && !e.HmacReset? ==> length + |Encode(e)| < SKY_PAYLOAD_MAX_LEN
      modifies this, raw
      ensures Valid() && Contents() == old(Contents()) + Encode(e)
      ensures extensionLength == old(extensionLength) + |Encode(e)| && !hasPayload
    {
      hide Encode;
      Write(Encode(e));
      extensionLength := extensionLength + |Encode(e)|;
    }

    /** sky_frame_extend_with_payload */
    method ExtendWithPayload(payload: Bytes) returns (ret: int)
      requires Valid() && !hasPayload
      modifies this, raw
      ensures Valid() && extensionLength == old(extensionLength)
      ensures |payload| > SpaceLeft(old(length)) ==>
                ret == SKY_RET_NO_SPACE_FOR_PAYLOAD && Contents() == old(Contents()) && !hasPayload
      ensures |payload| <= SpaceLeft(old(length)) ==>
                ret == SKY_RET_OK && Contents() == old(Contents()) + payload && hasPayload
    {
      if SpaceLeft(length) < |payload| {
        return SKY_RET_NO_SPACE_FOR_PAYLOAD;
      }
      Write(payload);
      hasPayload := true;
      return SKY_RET_OK;
    }
  }

  /** sky_frame_parse_extension_headers, for a frame whose static header ends at `start` and
      announces extensionLength bytes of extensions. */
  method ParseExtensionHeaders(raw: Bytes, start: nat, extensionLength: nat) returns (ret: int, found: Found)
    ensures start + extensionLength > |raw| ==> ret == SKY_RET_INVALID_EXT_LENGTH && found == map[]
    ensures start + extensionLength <= |raw| ==>
              (ret, found) == ParseFrom(raw, start, start + extensionLength, map[]) && FoundOk(raw, found)
  {
    var cursor, end := start, start + extensionLength;
    found := map[];
    if end > |raw| {
      return SKY_RET_INVALID_EXT_LENGTH, found;
    }
    ParseFinds(raw, start, end, map[]);
    while cursor < end
      invariant ParseFrom(raw, start, end, map[]) == ParseFrom(raw, cursor, end, found)
      decreases |raw| - cursor
    {
      var ext := cursor;
      var t, size := raw[ext] % 16, raw[ext] / 16;
      cursor := cursor + 1 + size;
      if cursor > |raw| {
        return SKY_RET_INVALID_EXT_LENGTH, found;
      }
      if t >= 6 {
        return SKY_RET_INVALID_EXT_TYPE, found;
      }
      if t in found {
        return SKY_RET_REDUNDANT_EXTENSIONS, found;
      }
      if size != BodySize(t) {
        return SKY_RET_INVALID_EXT_LENGTH, found;
      }
      found := found[t := ext];
    }
    ret := SKY_RET_OK;
  }

  // ---------------------------------------------------------------- a channel's frames

  /** The retransmit mask as the 16-bit integer in which bit i stands for packet i. */
  function MaskValue(bits: seq<bool>): (x: nat)
    ensures |bits| <= 16 ==> x < 0x1_0000
  {
    MaskRange(bits);
    MaskSum(bits)
  }

  function MaskSum(bits: seq<bool>): nat {
    if bits == [] then 0 else (if bits[0] then 1 else 0) + 2 * MaskSum(bits[1..])
  }

  function Power2(n: nat): (p: nat)
    ensures p > 0
  {
    if n == 0 then 1 else 2 * Power2(n - 1)
  }

  lemma {:induction false} MaskBelow(bits: seq<bool>)
    ensures MaskSum(bits) < Power2(|bits|)
  {
    if bits != [] { MaskBelow(bits[1..]); }
  }

  lemma MaskRange(bits: seq<bool>)
    ensures |bits| <= 16 ==> MaskSum(bits) < 0x1_0000
  {
    MaskBelow(bits);
    if |bits| <= 16 {
      PowerMonotone(|bits|, 16);
      assert Power2(4) == 16 && Power2(8) == 256 && Power2(12) == 4096 && Power2(16) == 0x1_0000;
    }
  }

  lemma {:induction false} PowerMonotone(m: nat, n: nat)
    requires m <= n
    ensures Power2(m) <= Power2(n)
  {
    if m < n { PowerMonotone(m, n - 1); }
  }

  function MaskBits(x: nat, n: nat): (bits: seq<bool>)
    ensures |bits| == n
  {
    if n == 0 then [] else [x % 2 == 1] + MaskBits(x / 2, n - 1)
  }

  /** Bit i of the integer is bit i of the mask. */
  lemma {:induction false} MaskBitAt(bits: seq<bool>, i: nat)
    requires i < |bits|
    ensures MaskSum(bits) / Power2(i) % 2 == 1 <==> bits[i]
  {
    var rest := MaskSum(bits[1..]);
    if i > 0 {
      MaskBitAt(bits[1..], i - 1);
      HalfFirst(MaskSum(bits), rest, Power2(i - 1));
    }
  }

  lemma HalfFirst(x: nat, half: nat, p: nat)
    requires x / 2 == half && p > 0
    ensures x / (2 * p) == half / p
  {
    var q, r := half / p, half % p;
    assert x == 2 * (q * p + r) + x % 2 && half == q * p + r;
    assert 2 * (q * p) == q * (2 * p);
    Utilities.QuotientIs(x, q, 2 * r + x % 2, 2 * p);
  }

  lemma {:induction false} MaskRoundTrip(bits: seq<bool>)
    ensures MaskBits(MaskSum(bits), |bits|) == bits
  {
    if bits != [] {
      MaskRoundTrip(bits[1..]);
      assert bits == [bits[0]] + bits[1..];
    }
  }

  function OptionExt(o: Option<Extension>): seq<Extension> {
    if o.Some? then [o.value] else []
  }

  predicate MaskOk(f: Frame) {
    f.request.Some? ==> |f.request.value.mask| == ARQ_MASK_BITS
  }

  function HandshakeExt(f: Frame): Option<Extension> {
    if f.handshake.Some? then Some(ArqHandshake(f.handshake.value.peerState,
        Swap32(f.handshake.value.identifier))) else None
  }

  function RequestExt(f: Frame): Option<Extension>
  {
    if f.request.Some? && |f.request.value.mask| <= 16 then
      Some(ArqRequest(f.request.value.sequence, MaskValue(f.request.value.mask)))
    else None
  }

  function CtrlExt(f: Frame): Option<Extension> {
    if f.ctrl.Some? then Some(ArqCtrl(f.ctrl.value.tx, f.ctrl.value.rx)) else None
  }

  function SequenceExt(f: Frame): Option<Extension> {
    if f.sequence.Some? then Some(ArqSequence(f.sequence.value)) else None
  }

  /** The extensions in the order in which sky_tx and sky_vc_fill_frame write them.  The
      abstract frame holds a handshake's identifier as the receiver will read it. */
  function FrameExtensions(f: Frame, tdd: Extension, reset: Option<Extension>): seq<Extension> {
    [tdd] + OptionExt(reset) + OptionExt(HandshakeExt(f)) + OptionExt(RequestExt(f)) + OptionExt(CtrlExt(f)) +
    OptionExt(SequenceExt(f))
  }

  /** What sky_rx hands to sky_vc_process_frame. */
  function ParsedFrame(raw: Bytes, found: Found, payload: Option<Bytes>): Frame
    requires FoundOk(raw, found)
  {
    Frame(
      if 3 in found then
        var e := ReadAt(raw, found, 3).value; Some(Handshake(e.peerState, e.identifier))
      else None,
      if 1 in found then
        var e := ReadAt(raw, found, 1).value; Some(Request(e.start, MaskBits(e.mask, ARQ_MASK_BITS)))
      else None,
      if 2 in found then var e := ReadAt(raw, found, 2).value; Some(Control(e.tx, e.rx)) else None,
      if 0 in found then Some(ReadAt(raw, found, 0).value.sequence) else None,
      payload)
  }

  /** The bytes of a frame whose identity and static header are `start`. */
  function FrameBytes(start: Bytes, f: Frame, tdd: Extension, reset: Option<Extension>): Bytes {
    start + EncodeAll(FrameExtensions(f, tdd, reset)) + (if f.payload.Some? then f.payload.value else [])
  }

  ghost predicate Disjoint(es: seq<Extension>, types: set<nat>) {
    DistinctTypes(es) && Types(es) <= types
  }

  lemma AppendDistinct(es: seq<Extension>, o: Option<Extension>, types: set<nat>, t: nat)
    requires Disjoint(es, types) && t !in types && (o.Some? ==> TypeOf(o.value) == t)
    ensures Disjoint(es + OptionExt(o), types + {t})
  {
    hide TypeOf;
    var es' := es + OptionExt(o);
    forall k | 0 <= k < |es'| ensures TypeOf(es'[k]) in types + {t} {
      assert k < |es| ==> TypeOf(es[k]) in Types(es);
    }
    forall i, j | 0 <= i < j < |es'| ensures TypeOf(es'[i]) != TypeOf(es'[j]) {
      assert i < |es| && TypeOf(es[i]) in Types(es);
    }
  }

  lemma FrameTypesDistinct(f: Frame, tdd: Extension, reset: Option<Extension>)
    requires tdd.TddControl? && (reset.Some? ==> reset.value.HmacReset?)
    ensures DistinctTypes(FrameExtensions(f, tdd, reset))
  {
    hide Disjoint, OptionExt;
    var e0 := [tdd];
    assert Disjoint(e0, {4}) by { OneDisjoint(tdd); }
    AppendDistinct(e0, reset, {4}, 5);
    var e1 := e0 + OptionExt(reset);
    AppendDistinct(e1, HandshakeExt(f), {4} + {5}, 3);
    var e2 := e1 + OptionExt(HandshakeExt(f));
    AppendDistinct(e2, RequestExt(f), {4} + {5} + {3}, 1);
    var e3 := e2 + OptionExt(RequestExt(f));
    AppendDistinct(e3, CtrlExt(f), {4} + {5} + {3} + {1}, 2);
    var e4 := e3 + OptionExt(CtrlExt(f));
    AppendDistinct(e4, SequenceExt(f), {4} + {5} + {3} + {1} + {2}, 0);
    DisjointDistinct(e4 + OptionExt(SequenceExt(f)), {4} + {5} + {3} + {1} + {2} + {0});
  }

  lemma OneDisjoint(e: Extension)
    ensures Disjoint([e], {TypeOf(e)})
  {
  }

  lemma DisjointDistinct(es: seq<Extension>, types: set<nat>)
    requires Disjoint(es, types)
    ensures DistinctTypes(es)
  {
  }

  /** The extension of one type in a list of distinct ones. */
  ghost predicate TheOne(es: seq<Extension>, t: nat, o: Option<Extension>) {
    if o.Some? then o.value in es && TypeOf(o.value) == t else t !in Types(es)
  }

  lemma AppendOne(es: seq<Extension>, o: Option<Extension>, t: nat, types: set<nat>,
                  options: map<nat, Option<Extension>>, options': map<nat, Option<Extension>>)
    requires Types(es) <= types && t !in types && options.Keys == types && (o.Some? ==> TypeOf(o.value) == t)
    requires options' == options[t := o] && forall u :: u in options ==> TheOne(es, u, options[u])
    ensures Types(es + OptionExt(o)) <= types + {t}
    ensures forall u :: u in options' ==> TheOne(es + OptionExt(o), u, options'[u])
  {
    hide TypeOf;
    var es' := es + OptionExt(o);
    assert Types(es') == Types(es) + Types(OptionExt(o)) by {
      assert forall k :: 0 <= k < |es| ==> es'[k] == es[k];
      assert forall k :: 0 <= k < |OptionExt(o)| ==> es'[|es| + k] == OptionExt(o)[k];
    }
  }

  lemma FrameHas(f: Frame, tdd: Extension, reset: Option<Extension>)
    requires tdd.TddControl? && (reset.Some? ==> reset.value.HmacReset?)
    ensures var es := FrameExtensions(f, tdd, reset);
            && TheOne(es, 4, Some(tdd)) && TheOne(es, 5, reset) && TheOne(es, 3, HandshakeExt(f))
            && TheOne(es, 1, RequestExt(f)) && TheOne(es, 2, CtrlExt(f)) && TheOne(es, 0, SequenceExt(f))
  {
    hide Swap32, MaskValue, OptionExt, TheOne, Types;
    var e0, m0 := [tdd], map[4 := Some(tdd)];
    assert TheOne(e0, 4, Some(tdd)) && Types(e0) <= {4} by { OneOnly(tdd); }
    var m1 := m0[5 := reset];
    AppendOne(e0, reset, 5, {4}, m0, m1);
    var e1, m2 := e0 + OptionExt(reset), m1[3 := HandshakeExt(f)];
    AppendOne(e1, HandshakeExt(f), 3, {4} + {5}, m1, m2);
    var e2, m3 := e1 + OptionExt(HandshakeExt(f)), m2[1 := RequestExt(f)];
    AppendOne(e2, RequestExt(f), 1, {4} + {5} + {3}, m2, m3);
    var e3, m4 := e2 + OptionExt(RequestExt(f)), m3[2 := CtrlExt(f)];
    AppendOne(e3, CtrlExt(f), 2, {4} + {5} + {3} + {1}, m3, m4);
    var e4, m5 := e3 + OptionExt(CtrlExt(f)), m4[0 := SequenceExt(f)];
    AppendOne(e4, SequenceExt(f), 0, {4} + {5} + {3} + {1} + {2}, m4, m5);
    assert 0 in m5 && 1 in m5 && 2 in m5 && 3 in m5 && 4 in m5 && 5 in m5;
  }

  lemma OneOnly(e: Extension)
    ensures TheOne([e], TypeOf(e), Some(e)) && Types([e]) <= {TypeOf(e)}
  {
  }

  lemma ReadTheOne(raw: Bytes, es: seq<Extension>, found: Found, t: nat, o: Option<Extension>)
    requires FoundOk(raw, found) && TheOne(es, t, o)
    requires forall k :: 0 <= k < |es| ==> ReadAt(raw, found, TypeOf(es[k])) == Some(AsReceived(es[k]))
    requires forall t: nat :: t !in Types(es) ==> ReadAt(raw, found, t) == None
    ensures ReadAt(raw, found, t) == if o.Some? then Some(AsReceived(o.value)) else None
  {
    hide FoundOk, ReadAt, AsReceived, Types;
  }

  /** What the receiver of these bytes finds between `start` and `end`, and behind. */
  ghost predicate ReadsBack(raw: Bytes, start: nat, end: nat, f: Frame, tdd: Extension, reset: Option<Extension>) {
    start <= end <= |raw| &&
    var (ret, found) := ParseFrom(raw, start, end, map[]);
    && ret == SKY_RET_OK && FoundOk(raw, found)
    && ParsedFrame(raw, found, if f.payload.Some? then Some(raw[end..]) else None) == f
    && ReadAt(raw, found, 4) == Some(tdd) && ReadAt(raw, found, 5) == reset
  }

  /** A frame that a channel fills is, byte for byte, a frame from which the peer's channel
      reads exactly the same handshake, request, control, sequence and payload. */
  lemma WireRoundTrip(start: Bytes, f: Frame, tdd: Extension, reset: Option<Extension>)
    requires tdd.TddControl? && (reset.Some? ==> reset.value.HmacReset?) && MaskOk(f)
    ensures ReadsBack(FrameBytes(start, f, tdd, reset), |start|,
                      |start| + |EncodeAll(FrameExtensions(f, tdd, reset))|, f, tdd, reset)
  {
    hide FrameExtensions, EncodeAll, ParseFrom, Swap32, TypeOf, FoundOk, ReadAt, HandshakeExt, RequestExt, CtrlExt,
        SequenceExt, MaskValue, MaskBits, TheOne, Types, ParsedFrame;
    var es := FrameExtensions(f, tdd, reset);
    var raw := FrameBytes(start, f, tdd, reset);
    var end := |start| + |EncodeAll(es)|;
    assert raw[|start|..end] == EncodeAll(es);
    assert f.payload.Some? ==> raw[end..] == f.payload.value;
    FrameTypesDistinct(f, tdd, reset);
    RoundTrip(raw, |start|, es);
    var found := ParseFrom(raw, |start|, end, map[]).1;
    AllRead(raw, es, found, f, tdd, reset);
    FieldsBack(raw, found, f);
  }

  lemma AllRead(raw: Bytes, es: seq<Extension>, found: Found, f: Frame, tdd: Extension, reset: Option<Extension>)
    requires FoundOk(raw, found) && tdd.TddControl? && (reset.Some? ==> reset.value.HmacReset?)
    requires es == FrameExtensions(f, tdd, reset)
    requires forall k :: 0 <= k < |es| ==> ReadAt(raw, found, TypeOf(es[k])) == Some(AsReceived(es[k]))
    requires forall t: nat :: t !in Types(es) ==> ReadAt(raw, found, t) == None
    ensures ReadAt(raw, found, 0) == ReceivedExt(SequenceExt(f))
    ensures ReadAt(raw, found, 1) == ReceivedExt(RequestExt(f))
    ensures ReadAt(raw, found, 2) == ReceivedExt(CtrlExt(f))
    ensures ReadAt(raw, found, 3) == ReceivedExt(HandshakeExt(f))
    ensures ReadAt(raw, found, 4) == Some(tdd) && ReadAt(raw, found, 5) == reset
  {
    hide FrameExtensions, TypeOf, FoundOk, ReadAt, HandshakeExt, RequestExt, CtrlExt, SequenceExt, TheOne, Types,
        Swap32;
    FrameHas(f, tdd, reset);
    ReadTheOne(raw, es, found, 0, SequenceExt(f));
    ReadTheOne(raw, es, found, 1, RequestExt(f));
    ReadTheOne(raw, es, found, 2, CtrlExt(f));
    ReadTheOne(raw, es, found, 3, HandshakeExt(f));
    ReadTheOne(raw, es, found, 4, Some(tdd));
    ReadTheOne(raw, es, found, 5, reset);
  }

  function ReceivedExt(o: Option<Extension>): Option<Extension> {
    if o.Some? then Some(AsReceived(o.value)) else None
  }

  lemma FieldsBack(raw: Bytes, found: Found, f: Frame)
    requires MaskOk(f) && FoundOk(raw, found)
    requires ReadAt(raw, found, 0) == ReceivedExt(SequenceExt(f))
        && ReadAt(raw, found, 1) == ReceivedExt(RequestExt(f))
    requires ReadAt(raw, found, 2) == ReceivedExt(CtrlExt(f)) && ReadAt(raw, found, 3) == ReceivedExt(HandshakeExt(f))
    ensures ParsedFrame(raw, found, f.payload) == f
  {
    hide Swap32, Decode, FoundOk, MaskBits, MaskSum;
    if f.handshake.Some? {
      SwapIsInvolution(f.handshake.value.identifier);
    }
    if f.request.Some? {
      MaskRoundTrip(f.request.value.mask);
    }
  }

  // ----------------------------------------------------------------------- frame sizes

  /** What sky_tx writes before the channel: version byte, identity, static header, TDD
      control and HMAC sequence reset. */
  const MAX_START := 1 + SKY_MAX_IDENTITY_LEN + STATIC_HEADER_MAX + 5 + 3

  /** The payload limit of 181 bytes is small enough that no packet is ever discarded as too
      large, and every frame with its authentication fits one Reed-Solomon message. */
  lemma NothingTooLarge(c: Channel, cfg: ArqConfig, start: nat, now: int, sent: nat)
    requires ChannelOk(c) && start <= MAX_START
    ensures var f := FillFrame(c, cfg, start, now, sent);
            && f.ret != SKY_RET_NO_SPACE_FOR_PAYLOAD
            && start + FrameSize(f.frame) + SKY_HMAC_LENGTH <= RS_MSGLEN
  {
    hide Bitmap, Seq8, Sub8, Swap32, TicksSince, CleanTail, SendOk, RcvOk;
    PayloadFits(c, c.snd);
  }

  lemma PayloadFits(c: Channel, s: SendState)
    requires ChannelOk(c) && s == c.snd
    ensures forall resend :: Peek(s, resend).0 <= SKY_PAYLOAD_MAX_LEN
    ensures forall resend :: Peek(s, resend).0 >= 0 ==> |ReadToTx(s, resend).payload| <= SKY_PAYLOAD_MAX_LEN
    ensures forall resend :: Peek(s, resend).0 < 0 ==> Peek(s, resend).0 == SKY_RET_RING_EMPTY
  {
    assert s.tx < s.head ==> s.data[s.tx - s.tail] in s.data;
    forall resend: bool
      ensures Peek(s, resend).0 <= SKY_PAYLOAD_MAX_LEN
      ensures Peek(s, resend).0 >= 0 ==> |ReadToTx(s, resend).payload| <= SKY_PAYLOAD_MAX_LEN
      ensures Peek(s, resend).0 < 0 ==> Peek(s, resend).0 == SKY_RET_RING_EMPTY
    {
      PeekMatchesRead(s, resend);
      if s.resend != [] && CanRecall(s, s.resend[0]) {
        assert s.data[RecallPosition(s, s.resend[0]) - s.tail] in s.data;
      }
    }
  }

  // ------------------------------------------------------------------ room for the parity

  /** The shortest start: no identity, a static header of six bytes, TDD control. */
  const MIN_START := 1 + 6 + 5

  /** The length of the packet the channel would send next, or an error. */
  function NextLength(c: Channel): int
    requires ChannelOk(c)
  {
    Peek(c.snd, c.arq.On?).0
  }

  /** What a connected channel adds to a packet: its sequence and control extensions, and the
      answer and request that are due. */
  function Overhead(c: Channel, cfg: ArqConfig, sent: nat): nat {
    if !c.arq.On? then 0
    else
      ARQ_SEQUENCE_SIZE + ARQ_CTRL_SIZE + (if c.handshakeSend > 0 then ARQ_HANDSHAKE_SIZE else 0) +
      (if sent < cfg.idleFramesPerWindow && (true in Bitmap(c.rcv) || c.needRecall) then ARQ_REQUEST_SIZE else 0)
  }

  /** In a frame of any length a connected channel transmits its next packet if and only if it
      fits together with all extensions and the authentication; otherwise it is discarded. */
  lemma SpaceExact(c: Channel, cfg: ArqConfig, start: nat, now: int, sent: nat)
    requires ChannelOk(c) && c.arq.On? && NextLength(c) >= 0
    ensures var f := FillFrame(c, cfg, start, now, sent);
            && (f.ret == 1 <==> start + Overhead(c, cfg, sent) + NextLength(c) + SKY_HMAC_LENGTH <= RS_MSGLEN)
            && (f.ret == 1 <==> f.frame.payload.Some?)
            && (f.ret != 1 ==> f.ret == SKY_RET_NO_SPACE_FOR_PAYLOAD)
            && f.channel.snd == ReadToTx(c.snd, true).state
  {
    hide Bitmap, Seq8, Swap32, TicksSince, CleanTail, RcvOk, RecallPosition;
    PayloadFits(c, c.snd);
    PeekMatchesRead(c.snd, true);
  }

  /** A packet goes out in a frame to which the parity can be added if and only if the frame
      has at most 197 bytes, `auth` of which are authentication. */
  lemma ParityExact(c: Channel, cfg: ArqConfig, start: nat, now: int, sent: nat, auth: nat)
    requires ChannelOk(c) && !c.arq.InInit? && start <= MAX_START && NextLength(c) > 0
    ensures var f := FillFrame(c, cfg, start, now, sent);
            && f.ret == 1
            && (ParityFits(start + FrameSize(f.frame) + auth) <==>
                start + Overhead(c, cfg, sent) + NextLength(c) + auth <= 197)
  {
    hide Bitmap, Seq8, Swap32, TicksSince, CleanTail, RcvOk, RecallPosition;
    PayloadFits(c, c.snd);
    PeekMatchesRead(c.snd, c.arq.On?);
  }

  /** sky_vc_push_packet_to_send takes payloads of up to 181 bytes, but a connected channel
      cannot transmit the longest: whatever stands before it, its frame has no room for the
      parity. */
  lemma LongestPayload(c: Channel, payload: Bytes, cfg: ArqConfig, start: nat, now: int, sent: nat)
    requires ChannelOk(c) && c.arq.On? && CountToSend(c.snd, true) == 0 && c.snd.head + 1 < c.snd.tail + c.snd.length
    requires |payload| == SKY_PAYLOAD_MAX_LEN && MIN_START <= start <= MAX_START
    ensures var (d, ret) := PushPacket(c, payload, true);
            && ret >= 0 && ChannelOk(d)
            && var f := FillFrame(d, cfg, start, now, sent);
               f.ret == 1 && f.frame.payload == Some(payload) && !ParityFits(start + FrameSize(f.frame))
  {
    hide Bitmap, Seq8, Swap32, TicksSince, RcvOk, RecallPosition;
    var d := PushPacket(c, payload, true).0;
    assert ChannelOk(d);
    ParityExact(d, cfg, start, now, sent, 0);
  }
}
