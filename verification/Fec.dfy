/** Forward error correction of a frame (src/fec.c), with the loops of the Reed-Solomon
    encoder and decoder (src/ext/libfec/encode_rs.h:33-58, decode_rs.h:81-108). */
module Fec {
  import opened Base
  import opened GaloisField
  import opened ReedSolomon
  import opened RsCodec

  const SKY_RET_RS_FAILED := -12
  const SKY_RET_RS_INVALID_LENGTH := -13

  /** The pseudo-random sequence of section 10.4.1 of CCSDS 131.0-B-3. */
  const WHITENING: seq<seq<bv8>> := [
    [0xff, 0x48, 0x0e, 0xc0, 0x9a, 0x0d, 0x70, 0xbc, 0x8e, 0x2c, 0x93, 0xad, 0xa7, 0xb7, 0x46, 0xce],
    [0x5a, 0x97, 0x7d, 0xcc, 0x32, 0xa2, 0xbf, 0x3e, 0x0a, 0x10, 0xf1, 0x88, 0x94, 0xcd, 0xea, 0xb1],
    [0xfe, 0x90, 0x1d, 0x81, 0x34, 0x1a, 0xe1, 0x79, 0x1c, 0x59, 0x27, 0x5b, 0x4f, 0x6e, 0x8d, 0x9c],
    [0xb5, 0x2e, 0xfb, 0x98, 0x65, 0x45, 0x7e, 0x7c, 0x14, 0x21, 0xe3, 0x11, 0x29, 0x9b, 0xd5, 0x63],
    [0xfd, 0x20, 0x3b, 0x02, 0x68, 0x35, 0xc2, 0xf2, 0x38, 0xb2, 0x4e, 0xb6, 0x9e, 0xdd, 0x1b, 0x39],
    [0x6a, 0x5d, 0xf7, 0x30, 0xca, 0x8a, 0xfc, 0xf8, 0x28, 0x43, 0xc6, 0x22, 0x53, 0x37, 0xaa, 0xc7],
    [0xfa, 0x40, 0x76, 0x04, 0xd0, 0x6b, 0x85, 0xe4, 0x71, 0x64, 0x9d, 0x6d, 0x3d, 0xba, 0x36, 0x72],
    [0xd4, 0xbb, 0xee, 0x61, 0x95, 0x15, 0xf9, 0xf0, 0x50, 0x87, 0x8c, 0x44, 0xa6, 0x6f, 0x55, 0x8f],
    [0xf4, 0x80, 0xec, 0x09, 0xa0, 0xd7, 0x0b, 0xc8, 0xe2, 0xc9, 0x3a, 0xda, 0x7b, 0x74, 0x6c, 0xe5],
    [0xa9, 0x77, 0xdc, 0xc3, 0x2a, 0x2b, 0xf3, 0xe0, 0xa1, 0x0f, 0x18, 0x89, 0x4c, 0xde, 0xab, 0x1f],
    [0xe9, 0x01, 0xd8, 0x13, 0x41, 0xae, 0x17, 0x91, 0xc5, 0x92, 0x75, 0xb4, 0xf6, 0xe8, 0xd9, 0xcb],
    [0x52, 0xef, 0xb9, 0x86, 0x54, 0x57, 0xe7, 0xc1, 0x42, 0x1e, 0x31, 0x12, 0x99, 0xbd, 0x56, 0x3f],
    [0xd2, 0x03, 0xb0, 0x26, 0x83, 0x5c, 0x2f, 0x23, 0x8b, 0x24, 0xeb, 0x69, 0xed, 0xd1, 0xb3, 0x96],
    [0xa5, 0xdf, 0x73, 0x0c, 0xa8, 0xaf, 0xcf, 0x82, 0x84, 0x3c, 0x62, 0x25, 0x33, 0x7a, 0xac, 0x7f],
    [0xa4, 0x07, 0x60, 0x4d, 0x06, 0xb8, 0x5e, 0x47, 0x16, 0x49, 0xd6, 0xd3, 0xdb, 0xa3, 0x67, 0x2d],
    [0x4b, 0xbe, 0xe6, 0x19, 0x51, 0x5f, 0x9f, 0x05, 0x08, 0x78, 0xc4, 0x4a, 0x66, 0xf5, 0x58, 0xff]]

  function Whitening(i: nat): bv8
    requires i < 256
  {
    WHITENING[i / 16][i % 16]
  }

  function Whitened(w: seq<bv8>): (r: seq<bv8>)
    ensures |r| == |w|
  {
    seq(|w|, i requires 0 <= i < |w| => Add(w[i], Whitening(i % 256)))
  }

  lemma WhitenedTwice(w: seq<bv8>)
    ensures Whitened(Whitened(w)) == w
  {
    hide Add, Whitening;
    forall i | 0 <= i < |w| ensures Whitened(Whitened(w))[i] == w[i] {
      AddAssoc(w[i], Whitening(i % 256), Whitening(i % 256));
      AddZero(Whitening(i % 256));
      AddZero(w[i]);
    }
  }

  // --------------------------------------------------------------------- specification

  /** The part of the decoder behind the zero-syndrome exit: from a word that is not a code
      word to the number of symbols corrected (or -1) and the resulting word. */
  type Repair = r: seq<bv8> -> (int, seq<bv8>) | forall w :: |r(w).1| == |w| witness w => (-1, w)

  /** decode_rs_8 */
  ghost function Decoded(w: seq<bv8>, repair: Repair): (r: (int, seq<bv8>))
    ensures |r.1| == |w|
  {
    if |w| > NN || |w| < NN - 222 then (-1, w) else if Codeword(w) then (0, w) else repair(w)
  }

  /** sky_fec_encode */
  function FecEncoded(m: seq<bv8>): (int, seq<bv8>) {
    if |m| > RS_MSGLEN then (SKY_RET_RS_INVALID_LENGTH, m) else (SKY_RET_OK, Whitened(m + Parity(m)))
  }

  /** sky_fec_decode */
  ghost function FecDecoded(w: seq<bv8>, repair: Repair): (int, seq<bv8>) {
    if |w| < RS_PARITYS || |w| > RS_MSGLEN + RS_PARITYS then (SKY_RET_RS_INVALID_LENGTH, w)
    else
      var (count, v) := Decoded(Whitened(w), repair);
      if count < 0 then (SKY_RET_RS_FAILED, v) else (SKY_RET_OK, v[..|v| - RS_PARITYS])
  }

  /** Decoding restores every frame that can be encoded, except the empty one. */
  lemma DecodeRestores(m: seq<bv8>, repair: Repair)
    requires |m| <= RS_MSGLEN
    ensures FecDecoded(FecEncoded(m).1, repair) == (SKY_RET_OK, m) <==> |m| >= 1
  {
    hide Parity, Whitened, Codeword;
    WhitenedTwice(m + Parity(m));
    EncodedIsCodeword(m);
    assert (m + Parity(m))[..|m|] == m;
  }

  // ------------------------------------------------------------------------ the encoder

  /** The parity symbols behind the first `at` bytes of the frame. */
  ghost function Register(raw: array<bv8>, at: nat): seq<bv8>
    reads raw
    requires at + NROOTS <= raw.Length
  {
    raw[at..at + NROOTS]
  }

  /** The inner loop: the feedback times the generator is added to the register. */
  method AddFeedback(raw: array<bv8>, at: nat, feedback: nat, ghost f: bv8)
    requires at + NROOTS <= raw.Length && f != 0 && feedback == IndexOf(f)
    modifies raw
    ensures FeedbackAdded(old(Register(raw, at)), Register(raw, at), f)
    ensures forall k :: 0 <= k < raw.Length && !(at < k < at + NROOTS) ==> raw[k] == old(raw[k])
  {
    hide Add, Times, AlphaTo, IndexOf, Gen;
    for j := 1 to NROOTS
      invariant forall k :: 0 <= k < raw.Length ==>
                  raw[k] == if at < k < at + j then Add(old(raw[k]), Times(f, Gen(NROOTS - (k - at))))
                      else old(raw[k])
    {
      TableMultiplies(f, Gen(NROOTS - j));
      var m := Mod255(feedback + Gen(NROOTS - j));
      raw[at + j] := Add(raw[at + j], AlphaTo(m));
    }
  }

  /** The shift at the end of a turn. */
  method ShiftIn(raw: array<bv8>, at: nat, last: bv8)
    requires at + NROOTS <= raw.Length
    modifies raw
    ensures Register(raw, at) == old(Register(raw, at))[1..] + [last]
    ensures forall k :: 0 <= k < raw.Length && !(at <= k < at + NROOTS) ==> raw[k] == old(raw[k])
  {
    forall k | 0 <= k < NROOTS - 1 { raw[at + k] := raw[at + k + 1]; }
    raw[at + NROOTS - 1] := last;
  }

  /** The register with the feedback added, before the shift. */
  ghost predicate FeedbackAdded(p: seq<bv8>, q: seq<bv8>, f: bv8) {
    && |p| == |q| == NROOTS
    && forall k :: 0 < k < NROOTS ==> q[k] == Add(p[k], Times(f, Gen(NROOTS - k)))
  }

  lemma ShiftedStep(p: seq<bv8>, q: seq<bv8>, d: bv8)
    requires |p| == NROOTS && FeedbackAdded(p, q, Add(d, p[0]))
    ensures q[1..] + [Times(Add(d, p[0]), Gen(0))] == Step(p, d)
  {
    hide Add, Times, Gen, Step;
    forall k | 0 <= k < NROOTS ensures (q[1..] + [Times(Add(d, p[0]), Gen(0))])[k] == Step(p, d)[k] {
      StepAt(p, d, k);
    }
  }

  lemma NoFeedback(p: seq<bv8>)
    requires |p| == NROOTS
    ensures FeedbackAdded(p, p, 0)
  {
    hide Add, Times, Gen;
    forall k | 0 < k < NROOTS ensures p[k] == Add(p[k], Times(0, Gen(NROOTS - k))) {
      TimesZero(Gen(NROOTS - k));
      AddZero(p[k]);
    }
  }

  /** One turn of the outer loop. */
  method EncodeSymbol(raw: array<bv8>, at: nat, d: bv8)
    requires at + NROOTS <= raw.Length
    modifies raw
    ensures Register(raw, at) == Step(old(Register(raw, at)), d)
    ensures forall k :: 0 <= k < raw.Length && !(at <= k < at + NROOTS) ==> raw[k] == old(raw[k])
  {
    hide Add, Times, AlphaTo, IndexOf, Gen, Step, FeedbackAdded;
    ghost var p := Register(raw, at);
    var f := Add(d, raw[at]);
    var feedback := IndexOf(f);
    LogIsA0(f);
    var last: bv8 := 0;
    if feedback != A0 {
      AddFeedback(raw, at, feedback, f);
      TableMultiplies(f, Gen(0));
      var m := Mod255(feedback + Gen(0));
      last := AlphaTo(m);
    } else {
      NoFeedback(p);
      TimesZero(Gen(0));
    }
    ShiftedStep(p, Register(raw, at), d);
    ShiftIn(raw, at, last);
  }

  lemma LogIsA0(f: bv8)
    ensures IndexOf(f) == A0 <==> f == 0
  {
    hide IndexOf, Times;
    if f == 0 { ZeroHasNoLog(); } else { IndexIsLog(f); }
  }

  lemma StepAt(p: seq<bv8>, d: bv8, k: nat)
    requires |p| == NROOTS && k < NROOTS
    ensures Step(p, d)[k] == Add(if k < NROOTS - 1 then p[k + 1] else 0, Times(Add(d, p[0]), Gen(NROOTS - 1 - k)))
    ensures k == NROOTS - 1 ==> Step(p, d)[k] == Times(Add(d, p[0]), Gen(0))
  {
    hide Add, Times, Gen;
    AddZero(Times(Add(d, p[0]), Gen(0)));
  }

  /** encode_rs_8: the data are the first `at` bytes of raw, the parity the 32 that follow. */
  method EncodeRs(raw: array<bv8>, at: nat)
    requires at + NROOTS <= raw.Length
    modifies raw
    ensures raw[..at] == old(raw[..at]) && Register(raw, at) == Parity(old(raw[..at]))
    ensures forall k :: at + NROOTS <= k < raw.Length ==> raw[k] == old(raw[k])
  {
    hide Step;
    forall k | 0 <= k < NROOTS { raw[at + k] := 0; }
    ghost var data := old(raw[..at]);
    assert Register(raw, at) == Parity(data[..0]);
    for i := 0 to at
      invariant raw[..at] == data && Register(raw, at) == Parity(data[..i])
      invariant forall k :: at + NROOTS <= k < raw.Length ==> raw[k] == old(raw[k])
    {
      assert data[..i + 1][..i] == data[..i] && raw[i] == data[i];
      EncodeSymbol(raw, at, raw[i]);
    }
    assert data[..at] == data;
  }

  // ------------------------------------------------------------------------ the decoder

  /** The syndromes of a word, symbol by symbol. */
  method Syndromes(w: seq<bv8>) returns (s: array<bv8>)
    requires |w| > 0
    ensures fresh(s) && s.Length == NROOTS && forall i :: 0 <= i < NROOTS ==> s[i] == Syndrome(w, i)
  {
    hide Add, Times, Horner, AlphaTo, IndexOf, Root;
    s := new bv8[NROOTS](_ => w[0]);
    forall i | 0 <= i < NROOTS ensures s[i] == Horner(0, w[..1], Root(i)) { FirstSymbol(w, Root(i)); }
    for j := 1 to |w|
      invariant forall i :: 0 <= i < NROOTS ==> s[i] == Horner(0, w[..j], Root(i))
    {
      NextSymbol(s, w, j);
    }
    assert w[..|w|] == w;
  }

  method NextSymbol(s: array<bv8>, w: seq<bv8>, j: nat)
    requires s.Length == NROOTS && 0 < j < |w| && forall i :: 0 <= i < NROOTS ==> s[i] == Horner(0, w[..j], Root(i))
    modifies s
    ensures forall i :: 0 <= i < NROOTS ==> s[i] == Horner(0, w[..j + 1], Root(i))
  {
    hide Add, Times, Horner, AlphaTo, IndexOf, Root;
    for i := 0 to NROOTS
      invariant forall k :: 0 <= k < NROOTS ==> s[k] == Horner(0, w[..if k < i then j + 1 else j], Root(k))
    {
      HornerPrefix(w, j, Root(i));
      if s[i] == 0 {
        TimesZero(Root(i));
        AddZero(w[j]);
        s[i] := w[j];
      } else {
        TableMultiplies(s[i], Root(i));
        AddComm(Times(s[i], Root(i)), w[j]);
        var m := Mod255(IndexOf(s[i]) + Root(i));
        s[i] := Add(w[j], AlphaTo(m));
      }
    }
  }

  lemma FirstSymbol(w: seq<bv8>, e: nat)
    requires |w| > 0
    ensures Horner(0, w[..1], e) == w[0]
  {
    hide Add, Times;
    HornerZero(w[..1], e);
  }

  /** The loop that gathers the syndromes. */
  method AnyError(s: array<bv8>) returns (error: bool)
    requires s.Length == NROOTS
    ensures error <==> exists i :: 0 <= i < NROOTS && s[i] != 0
  {
    hide Or;
    var e: bv8 := 0;
    for i := 0 to NROOTS
      invariant e == 0 <==> forall k :: 0 <= k < i ==> s[k] == 0
    {
      OrZero(e, s[i]);
      e := Or(e, s[i]);
    }
    return e != 0;
  }

  function Or(a: bv8, b: bv8): bv8 {
    a | b
  }

  /** decode_rs_8; `repair` stands for what follows the zero-syndrome exit. */
  method DecodeRs(raw: array<bv8>, length: nat, repair: Repair) returns (count: int)
    requires length <= raw.Length
    modifies raw
    ensures (count, raw[..length]) == Decoded(old(raw[..length]), repair)
    ensures forall k :: length <= k < raw.Length ==> raw[k] == old(raw[k])
  {
    hide Syndrome;
    var pad := NN - length;
    if pad < 0 || pad > 222 {
      return -1;
    }
    var s := Syndromes(raw[..length]);
    var error := AnyError(s);
    if !error {
      return 0;
    }
    var (n, v) := repair(raw[..length]);
    forall k | 0 <= k < length { raw[k] := v[k]; }
    assert raw[..length] == v;
    return n;
  }

  lemma OrZero(a: bv8, b: bv8)
    ensures Or(a, b) == 0 <==> a == 0 && b == 0
  {
  }

  // ------------------------------------------------------------------------- the frame

  class FecFrame {
    const raw: array<bv8>
    var length: nat

    constructor (capacity: nat, data: seq<bv8>)
      requires |data| <= capacity
      ensures Valid() && fresh(raw) && raw.Length == capacity && Contents() == data
    {
      raw := new bv8[capacity](i => if 0 <= i < |data| then data[i] else 0);
      length := |data|;
      new;
      assert raw[..length] == data;
    }

    ghost predicate Valid()
      reads this
    {
      length <= raw.Length
    }

    ghost function Contents(): seq<bv8>
      reads this, raw
      requires Valid()
    {
      raw[..length]
    }

    method Whiten()
      requires Valid()
      modifies raw
      ensures Valid() && Contents() == Whitened(old(Contents()))
    {
      hide Add, Whitening;
      ghost var w := Contents();
      for i := 0 to length
        invariant forall k :: 0 <= k < length ==> raw[k] == if k < i then Whitened(w)[k] else w[k]
      {
        raw[i] := Add(raw[i], Whitening(i % 256));
      }
      assert Contents() == Whitened(w);
    }

    /** sky_fec_encode.  It writes the parity behind the frame without a test. */
    method Encode() returns (ret: int)
      requires Valid() && (length <= RS_MSGLEN ==> length + RS_PARITYS <= raw.Length)
      modifies this, raw
      ensures Valid() && (ret, Contents()) == FecEncoded(old(Contents()))
    {
      hide Parity, Whitened;
      if length > RS_MSGLEN {
        return SKY_RET_RS_INVALID_LENGTH;
      }
      ghost var m := Contents();
      EncodeRs(raw, length);
      length := length + RS_PARITYS;
      assert Contents() == m + Parity(m);
      Whiten();
      return SKY_RET_OK;
    }

    /** The part of sky_tx_with_fec behind sky_tx: the assertion, which aborts the program if
        it fails, and the encoding.  In the source's buffer it fails for frames of more than
        197 bytes. */
    method EncodeForTransmit() returns (aborted: bool, ret: int)
      requires Valid() && raw.Length == SKY_FRAME_RAW_LEN
      modifies this, raw
      ensures Valid() && (aborted <==> old(length) > 197) && (aborted <==> !ParityFits(old(length)))
      ensures aborted ==> Contents() == old(Contents())
      ensures !aborted ==> (ret, Contents()) == FecEncoded(old(Contents())) && ret == SKY_RET_OK
    {
      hide Parity, Whitened;
      aborted := !ParityFits(length);
      ret := SKY_RET_OK;
      if !aborted {
        ret := Encode();
      }
    }

    /** sky_fec_decode */
    method Decode(repair: Repair) returns (ret: int)
      requires Valid()
      modifies this, raw
      ensures Valid() && (ret, Contents()) == FecDecoded(old(Contents()), repair)
    {
      hide Decoded, Whitened;
      if length < RS_PARITYS || length > RS_MSGLEN + RS_PARITYS {
        return SKY_RET_RS_INVALID_LENGTH;
      }
      Whiten();
      var count := DecodeRs(raw, length, repair);
      if count < 0 {
        return SKY_RET_RS_FAILED;
      }
      ghost var v := Contents();
      length := length - RS_PARITYS;
      assert Contents() == v[..|v| - RS_PARITYS];
      return SKY_RET_OK;
    }
  }
}
