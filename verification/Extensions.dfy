/** Extension headers of a frame (src/frame.c, src/skylink/frame.h). */
module Extensions {
  import opened Base
  import opened ChannelSpec

  const SKY_RET_INVALID_EXT_LENGTH := -6
  const SKY_RET_REDUNDANT_EXTENSIONS := -7
  const SKY_RET_INVALID_EXT_TYPE := -43

  datatype Extension =
    | ArqSequence(sequence: byte)
    | ArqRequest(start: byte, mask: uint16)
    | ArqCtrl(tx: byte, rx: byte)
    | ArqHandshake(peerState: byte, identifier: uint32)
    | TddControl(window: uint16, remaining: uint16)
    | HmacReset(hmac: uint16)

  function TypeOf(e: Extension): (t: nat)
    ensures t < 6
  {
    match e
    case ArqSequence(_) => 0
    case ArqRequest(_, _) => 1
    case ArqCtrl(_, _) => 2
    case ArqHandshake(_, _) => 3
    case TddControl(_, _) => 4
    case HmacReset(_) => 5
  }

  /** sizeof of the extension's body */
  function BodySize(t: nat): nat
    requires t < 6
  {
    [1, 3, 2, 5, 4, 2][t]
  }

  // ------------------------------------------------------------------------ byte order

  /** sky_hton16 on a little-endian host */
  function Swap16(x: uint16): uint16 {
    (x % 256) * 256 + x / 256
  }

  /** How a little-endian host stores an integer. */
  function Le16(x: uint16): Bytes {
    [x % 256, x / 256]
  }

  function Le32(x: uint32): Bytes {
    [x % 256, x / 256 % 256, x / 0x1_0000 % 256, x / 0x100_0000]
  }

  function FromLe16(b: Bytes): uint16
    requires |b| == 2
  {
    b[0] as int + 256 * b[1] as int
  }

  function FromLe32(b: Bytes): uint32
    requires |b| == 4
  {
    b[0] as int + 256 * b[1] as int + 0x1_0000 * b[2] as int + 0x100_0000 * b[3] as int
  }

  lemma Le16RoundTrip(x: uint16)
    ensures FromLe16(Le16(x)) == x && Swap16(Swap16(x)) == x
  {
  }

  lemma Le32RoundTrip(x: uint32)
    ensures FromLe32(Le32(x)) == x
  {
    var q := x / 256;
    var r := q / 256;
    assert r == x / 0x1_0000 && r / 256 == x / 0x100_0000;
    assert x == q * 256 + x % 256 && q == r * 256 + q % 256 && r == (r / 256) * 256 + r % 256;
  }

  // --------------------------------------------------------------- writing and reading

  function Body(e: Extension): (b: Bytes)
    ensures |b| == BodySize(TypeOf(e))
  {
    match e
    case ArqSequence(s) => [s]
    case ArqRequest(s, m) => [s] + Le16(Swap16(m))
    case ArqCtrl(tx, rx) => [tx, rx]
    case ArqHandshake(p, id) => [p] + Le32(Swap32(id))
    case TddControl(w, r) => Le16(Swap16(w)) + Le16(Swap16(r))
    case HmacReset(s) => Le16(Swap16(s))
  }

  /** The type in the low and the body's length in the high half of a byte. */
  function Tag(e: Extension): byte {
    TypeOf(e) + 16 * BodySize(TypeOf(e))
  }

  function Encode(e: Extension): (b: Bytes)
    ensures |b| == 1 + BodySize(TypeOf(e))
  {
    [Tag(e)] + Body(e)
  }

  function EncodeAll(es: seq<Extension>): Bytes {
    if es == [] then [] else EncodeAll(es[..|es| - 1]) + Encode(es[|es| - 1])
  }

  /** An integer in `n` bytes in network byte order, the highest byte first. */
  function Network(x: nat, n: nat): (b: Bytes)
    ensures |b| == n
  {
    if n == 0 then [] else Network(x / 256, n - 1) + [x % 256]
  }

  lemma Network16(x: uint16)
    ensures Le16(Swap16(x)) == Network(x, 2)
  {
    assert Network(x, 2) == Network(x / 256, 1) + [x % 256];
    assert Network(x / 256, 1) == Network(x / 256 / 256, 0) + [x / 256 % 256];
  }

  lemma Network32(x: uint32)
    ensures Le32(Swap32(x)) == Network(x, 4)
  {
    var q, r, s := x / 256, x / 256 / 256, x / 256 / 256 / 256;
    var a, b, c, d := x % 256, q % 256, r % 256, s;
    SwapReversesBytes(a, b, c, d);
    Le32Parts(d, c, b, a);
    assert Network(x, 4) == Network(q, 3) + [a] && Network(q, 3) == Network(r, 2) + [b];
    assert Network(r, 2) == Network(s, 1) + [c] && Network(s, 1) == Network(s / 256, 0) + [s % 256];
    assert s % 256 == s;
  }

  lemma Le32Parts(a: byte, b: byte, c: byte, d: byte)
    ensures Le32(a + b * 0x100 + c * 0x1_0000 + d * 0x100_0000) == [a, b, c, d]
  {
    var x := a + b * 0x100 + c * 0x1_0000 + d * 0x100_0000;
    assert x / 0x100_0000 == d;
    assert x / 0x1_0000 == c + d * 256;
    assert x / 0x100 == b + c * 256 + d * 0x1_0000;
  }

  /** The extensions byte by byte: the length of the body and the type in one byte, then the
      fields in their order, each with its highest byte first. */
  lemma OnTheWire(e: Extension)
    ensures Encode(e) == match e
                         case ArqSequence(s) => [0x10, s]
                         case ArqRequest(s, mask) => [0x31, s] + Network(mask, 2)
                         case ArqCtrl(tx, rx) => [0x22, tx, rx]
                         case ArqHandshake(p, id) => [0x53, p] + Network(id, 4)
                         case TddControl(w, r) => [0x44] + Network(w, 2) + Network(r, 2)
                         case HmacReset(s) => [0x25] + Network(s, 2)
  {
    hide Le16, Le32, Swap16, Swap32, Network;
    match e
    case ArqSequence(_) =>
    case ArqCtrl(_, _) =>
    case ArqRequest(_, mask) => Network16(mask);
    case ArqHandshake(_, id) => Network32(id);
    case TddControl(w, r) =>
      Network16(w);
      Network16(r);
    case HmacReset(s) => Network16(s);
  }

  /** What the receiver reads from the body of an extension of type t.  It converts every
      field to host order except the handshake's identifier. */
  function Decode(t: nat, b: Bytes): Extension
    requires t < 6 && |b| == BodySize(t)
  {
    match t
    case 0 => ArqSequence(b[0])
    case 1 => ArqRequest(b[0], Swap16(FromLe16(b[1..])))
    case 2 => ArqCtrl(b[0], b[1])
    case 3 => ArqHandshake(b[0], FromLe32(b[1..]))
    case 4 => TddControl(Swap16(FromLe16(b[..2])), Swap16(FromLe16(b[2..])))
    case 5 => HmacReset(Swap16(FromLe16(b)))
  }

  function AsReceived(e: Extension): Extension {
    if e.ArqHandshake? then e.(identifier := Swap32(e.identifier)) else e
  }

  lemma DecodeBody(e: Extension)
    ensures Decode(TypeOf(e), Body(e)) == AsReceived(e)
  {
    hide Swap16, Swap32, Le16, Le32, FromLe16, FromLe32;
    match e
    case ArqSequence(_) =>
    case ArqCtrl(_, _) =>
    case ArqRequest(s, m) =>
      WriteRead16(m);
      assert Body(e)[1..] == Le16(Swap16(m));
    case ArqHandshake(p, id) =>
      Le32RoundTrip(Swap32(id));
      assert Body(e)[1..] == Le32(Swap32(id));
    case TddControl(w, r) =>
      WriteRead16(w);
      WriteRead16(r);
      assert Body(e)[..2] == Le16(Swap16(w)) && Body(e)[2..] == Le16(Swap16(r)) by { Le16Size(Swap16(w)); }
    case HmacReset(s) =>
      WriteRead16(s);
  }

  lemma Le16Size(x: uint16)
    ensures |Le16(x)| == 2
  {
  }

  lemma WriteRead16(x: uint16)
    ensures |Le16(Swap16(x))| == 2 && Swap16(FromLe16(Le16(Swap16(x)))) == x
  {
    Le16RoundTrip(Swap16(x));
    Le16RoundTrip(x);
  }

  // -------------------------------------------------------------------------- parsing

  /** The parsed extensions: for every type that was found, where it starts. */
  type Found = map<nat, nat>

  /** The loop of sky_frame_parse_extension_headers. */
  function ParseFrom(raw: Bytes, cursor: nat, end: nat, found: Found): (r: (int, Found))
    requires end <= |raw|
    decreases |raw| - cursor
  {
    if cursor >= end then (SKY_RET_OK, found)
    else
      var t, size := raw[cursor] % 16, raw[cursor] / 16;
      if cursor + 1 + size > |raw| then (SKY_RET_INVALID_EXT_LENGTH, found)
      else if t >= 6 then (SKY_RET_INVALID_EXT_TYPE, found)
      else if t in found then (SKY_RET_REDUNDANT_EXTENSIONS, found)
      else if size != BodySize(t) then (SKY_RET_INVALID_EXT_LENGTH, found)
      else ParseFrom(raw, cursor + 1 + size, end, found[t := cursor])
  }

  /** Every extension that was found is inside the frame, well formed. */
  ghost predicate FoundOk(raw: Bytes, found: Found) {
    forall t :: t in found ==>
      t < 6 && found[t] + 1 + BodySize(t) <= |raw| && raw[found[t]] == t + 16 * BodySize(t)
  }

  lemma {:induction false} ParseFinds(raw: Bytes, cursor: nat, end: nat, found: Found)
    requires end <= |raw| && FoundOk(raw, found)
    ensures FoundOk(raw, ParseFrom(raw, cursor, end, found).1)
    decreases |raw| - cursor
  {
    if cursor < end {
      var t, size := raw[cursor] % 16, raw[cursor] / 16;
      if cursor + 1 + size <= |raw| && t < 6 && t !in found && size == BodySize(t) {
        ParseFinds(raw, cursor + 1 + size, end, found[t := cursor]);
      }
    }
  }

  /** A well-formed extension of a type not found yet stands at the cursor. */
  predicate Acceptable(raw: Bytes, cursor: nat, found: Found) {
    cursor < |raw| &&
    var t, size := raw[cursor] % 16, raw[cursor] / 16;
    t < 6 && t !in found && size == BodySize(t) && cursor + 1 + size <= |raw|
  }

  /** Acceptable extensions, one right behind the other, lead from the cursor to p. */
  ghost predicate Leads(raw: Bytes, cursor: nat, found: Found, p: nat, all: Found)
    decreases |raw| - cursor
  {
    if cursor == p then all == found
    else
      Acceptable(raw, cursor, found) &&
      Leads(raw, cursor + 1 + raw[cursor] / 16, found[raw[cursor] % 16 := cursor], p, all)
  }

  /** Parsing stops at the first place that is behind the announced end or holds no acceptable
      extension, and tells which of the two it is, and what is wrong: a body that does not
      fit, an unknown type, a type for the second time, or a wrong length, in this order. */
  lemma {:induction false} ParseVerdict(raw: Bytes, cursor: nat, end: nat, found: Found) returns (p: nat)
    requires end <= |raw|
    ensures var (ret, all) := ParseFrom(raw, cursor, end, found);
            && Leads(raw, cursor, found, p, all)
            && (p < end ==> !Acceptable(raw, p, all))
            && ret == (if p >= end then SKY_RET_OK
                       else if p + 1 + raw[p] / 16 > |raw| then SKY_RET_INVALID_EXT_LENGTH
                       else if raw[p] % 16 >= 6 then SKY_RET_INVALID_EXT_TYPE
                       else if raw[p] % 16 in all then SKY_RET_REDUNDANT_EXTENSIONS
                       else SKY_RET_INVALID_EXT_LENGTH)
    decreases |raw| - cursor
  {
    hide BodySize;
    p := cursor;
    if cursor < end && Acceptable(raw, cursor, found) {
      p := ParseVerdict(raw, cursor + 1 + raw[cursor] / 16, end, found[raw[cursor] % 16 := cursor]);
      LeadsAhead(raw, cursor + 1 + raw[cursor] / 16, found[raw[cursor] % 16 := cursor], p,
                 ParseFrom(raw, cursor, end, found).1);
    }
  }

  lemma {:induction false} LeadsAhead(raw: Bytes, cursor: nat, found: Found, p: nat, all: Found)
    requires Leads(raw, cursor, found, p, all)
    ensures cursor <= p
    decreases |raw| - cursor
  {
    if cursor != p {
      LeadsAhead(raw, cursor + 1 + raw[cursor] / 16, found[raw[cursor] % 16 := cursor], p, all);
    }
  }

  /** The extension of type t, as the receiver reads it. */
  function ReadAt(raw: Bytes, found: Found, t: nat): Option<Extension>
    requires FoundOk(raw, found)
  {
    if t in found then Some(Decode(t, raw[found[t] + 1..found[t] + 1 + BodySize(t)])) else None
  }

  // ------------------------------------------------------------------------ round trip

  ghost predicate DistinctTypes(es: seq<Extension>) {
    forall i, j :: 0 <= i < j < |es| ==> TypeOf(es[i]) != TypeOf(es[j])
  }

  /** Where extension i begins in what is written at position `at`. */
  function Position(es: seq<Extension>, at: nat, i: nat): nat
    requires i <= |es|
  {
    at + |EncodeAll(es[..i])|
  }

  /** The frame holds the extensions from position `at` on. */
  ghost predicate Written(raw: Bytes, at: nat, es: seq<Extension>) {
    at + |EncodeAll(es)| <= |raw| && raw[at..at + |EncodeAll(es)|] == EncodeAll(es)
  }

  lemma {:induction false} EncodedPrefix(es: seq<Extension>, i: nat)
    requires i <= |es|
    ensures EncodeAll(es[..i]) <= EncodeAll(es)
  {
    hide Encode;
    if i < |es| {
      var n := |es| - 1;
      assert es[..n][..i] == es[..i];
      EncodedPrefix(es[..n], i);
    } else {
      assert es[..i] == es;
    }
  }

  lemma EncodedAt(es: seq<Extension>, i: nat)
    requires i < |es|
    ensures var p := |EncodeAll(es[..i])|;
            && p + |Encode(es[i])| == |EncodeAll(es[..i + 1])| <= |EncodeAll(es)|
            && forall j :: 0 <= j < |Encode(es[i])| ==> EncodeAll(es)[p + j] == Encode(es[i])[j]
  {
    hide Encode;
    var next := es[..i + 1];
    assert next[..i] == es[..i];
    EncodedPrefix(es, i + 1);
    assert EncodeAll(next) == EncodeAll(es[..i]) + Encode(es[i]);
  }

  /** The same in the frame that the extensions have been written to at position `at`. */
  lemma WrittenAt(raw: Bytes, at: nat, es: seq<Extension>, i: nat)
    requires i < |es|
    requires Written(raw, at, es)
    ensures var p := Position(es, at, i);
            && p + 1 + BodySize(TypeOf(es[i])) == Position(es, at, i + 1) <= at + |EncodeAll(es)|
            && raw[p] == Tag(es[i])
            && raw[p + 1..p + 1 + BodySize(TypeOf(es[i]))] == Body(es[i])
  {
    hide EncodeAll, Body, Tag, TypeOf, BodySize;
    EncodedAt(es, i);
    var p, n := Position(es, at, i), BodySize(TypeOf(es[i]));
    forall j | 0 <= j < 1 + n ensures raw[p + j] == Encode(es[i])[j] {
      assert raw[p + j] == raw[at..at + |EncodeAll(es)|][p - at + j];
    }
    var zero := 0;
    assert raw[p + zero] == Encode(es[i])[zero];
    forall j | 0 <= j < n ensures raw[p + 1..p + 1 + n][j] == Body(es[i])[j] {
      assert raw[p + (1 + j)] == Encode(es[i])[1 + j];
    }
  }

  lemma TagParts(e: Extension)
    ensures Tag(e) % 16 == TypeOf(e) && Tag(e) / 16 == BodySize(TypeOf(e))
  {
  }

  /** What has been found when the first i extensions have been parsed. */
  ghost predicate FoundFirst(es: seq<Extension>, at: nat, i: nat, found: Found)
    requires i <= |es|
  {
    && (forall k :: 0 <= k < i ==> TypeOf(es[k]) in found && found[TypeOf(es[k])] == Position(es, at, k))
    && (forall t :: t in found ==> exists k :: 0 <= k < i && TypeOf(es[k]) == t)
  }

  /** One turn of the loop: extension i is found at its position. */
  ghost predicate Turn(raw: Bytes, at: nat, es: seq<Extension>, i: nat, found: Found)
    requires i < |es| && Written(raw, at, es)
  {
    var t, p, next, end := TypeOf(es[i]), Position(es, at, i), Position(es, at, i + 1), at + |EncodeAll(es)|;
    FoundFirst(es, at, i + 1, found[t := p]) &&
    ParseFrom(raw, p, end, found) == ParseFrom(raw, next, end, found[t := p])
  }

  lemma OneParsed(raw: Bytes, at: nat, es: seq<Extension>, i: nat, found: Found)
    requires DistinctTypes(es) && i < |es| && FoundFirst(es, at, i, found)
    requires Written(raw, at, es)
    ensures Turn(raw, at, es, i, found)
  {
    hide EncodeAll, Body, Tag, TypeOf, BodySize, Position, FoundFirst, DistinctTypes, ParseFrom;
    WrittenAt(raw, at, es, i);
    TagParts(es[i]);
    NotYetFound(es, at, i, found);
    FoundNext(es, at, i, found);
    ParseOne(raw, Position(es, at, i), at + |EncodeAll(es)|, found);
  }

  lemma ParseOne(raw: Bytes, cursor: nat, end: nat, found: Found)
    requires cursor < end <= |raw|
    requires var t, size := raw[cursor] % 16, raw[cursor] / 16;
             cursor + 1 + size <= |raw| && t < 6 && t !in found && size == BodySize(t)
    ensures var t, size := raw[cursor] % 16, raw[cursor] / 16;
            ParseFrom(raw, cursor, end, found) == ParseFrom(raw, cursor + 1 + size, end, found[t := cursor])
  {
    hide BodySize;
  }

  lemma NotYetFound(es: seq<Extension>, at: nat, i: nat, found: Found)
    requires DistinctTypes(es) && i < |es| && FoundFirst(es, at, i, found)
    ensures TypeOf(es[i]) !in found
  {
    hide TypeOf, Position;
  }

  lemma FoundNext(es: seq<Extension>, at: nat, i: nat, found: Found)
    requires DistinctTypes(es) && i < |es| && FoundFirst(es, at, i, found) && TypeOf(es[i]) !in found
    ensures FoundFirst(es, at, i + 1, found[TypeOf(es[i]) := Position(es, at, i)])
  {
    hide TypeOf, Position;
  }

  lemma PositionIs(es: seq<Extension>, at: nat, i: nat)
    requires i <= |es|
    ensures Position(es, at, i) == at + |EncodeAll(es[..i])|
  {
  }

  lemma {:induction false} ParseEncoded(raw: Bytes, at: nat, es: seq<Extension>, i: nat, found: Found)
    requires DistinctTypes(es) && i <= |es| && FoundFirst(es, at, i, found)
    requires Written(raw, at, es)
    ensures var (ret, all) := ParseFrom(raw, Position(es, at, i), at + |EncodeAll(es)|, found);
            ret == SKY_RET_OK && FoundFirst(es, at, |es|, all)
    decreases |es| - i
  {
    hide FoundFirst, DistinctTypes, TypeOf, Position, EncodeAll;
    PositionIs(es, at, i);
    if i < |es| {
      OneParsed(raw, at, es, i, found);
      ParseEncoded(raw, at, es, i + 1, found[TypeOf(es[i]) := Position(es, at, i)]);
    } else {
      assert es[..i] == es;
    }
  }

  /** Any selection and order of distinct extensions parses back to the same fields, and
      nothing else is found. */
  lemma RoundTrip(raw: Bytes, at: nat, es: seq<Extension>)
    requires DistinctTypes(es)
    requires Written(raw, at, es)
    ensures var (ret, found) := ParseFrom(raw, at, at + |EncodeAll(es)|, map[]);
            && ret == SKY_RET_OK && FoundOk(raw, found)
            && (forall k :: 0 <= k < |es| ==> ReadAt(raw, found, TypeOf(es[k])) == Some(AsReceived(es[k])))
            && (forall t: nat :: t !in Types(es) ==> ReadAt(raw, found, t) == None)
  {
    hide EncodeAll, Body, Tag, TypeOf, BodySize, AsReceived, ParseFrom, DistinctTypes, FoundOk;
    StartsAt(es, at);
    NothingFound(raw, es, at);
    var end := at + |EncodeAll(es)|;
    ParseEncoded(raw, at, es, 0, map[]);
    ParseFinds(raw, at, end, map[]);
    var found := ParseFrom(raw, at, end, map[]).1;
    forall k | 0 <= k < |es| ensures ReadAt(raw, found, TypeOf(es[k])) == Some(AsReceived(es[k])) {
      ReadBack(raw, at, es, k, found);
    }
    forall t: nat | t !in Types(es) ensures ReadAt(raw, found, t) == None {
      assert t !in found;
    }
  }

  ghost function Types(es: seq<Extension>): set<nat> {
    set k | 0 <= k < |es| :: TypeOf(es[k])
  }

  lemma StartsAt(es: seq<Extension>, at: nat)
    ensures Position(es, at, 0) == at
  {
  }

  lemma NothingFound(raw: Bytes, es: seq<Extension>, at: nat)
    ensures FoundFirst(es, at, 0, map[]) && FoundOk(raw, map[])
  {
  }

  lemma ReadBack(raw: Bytes, at: nat, es: seq<Extension>, k: nat, found: Found)
    requires k < |es| && FoundOk(raw, found) && TypeOf(es[k]) in found && found[TypeOf(es[k])] == Position(es, at, k)
    requires Written(raw, at, es)
    ensures ReadAt(raw, found, TypeOf(es[k])) == Some(AsReceived(es[k]))
  {
    hide EncodeAll, Decode, AsReceived, Body, TypeOf, BodySize, Position, FoundOk;
    WrittenAt(raw, at, es, k);
    DecodeBody(es[k]);
  }
}
