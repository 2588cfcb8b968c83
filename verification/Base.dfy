/** Types, constants and return codes shared by every part of the model
    (src/skylink/skylink.h, src/skylink/frame.h, src/skylink/sequence_ring.h). */
module Base {

  type byte = x: int | 0 <= x < 256
  type Bytes = seq<byte>
  type uint16 = x: int | 0 <= x < 0x1_0000
  type uint32 = x: int | 0 <= x < 0x1_0000_0000

  datatype Option<+T> = None | Some(value: T)

  // ARQ state flags as they travel in a handshake
  const ARQ_STATE_IN_INIT: byte := 1
  const ARQ_STATE_ON: byte := 2

  const ARQ_RESEND_SCHEDULE_DEPTH := 16
  const ARQ_MAXIMUM_HORIZON := 64
  const ARQ_MASK_BITS := 16
  const SKY_PAYLOAD_MAX_LEN := 181
  const SKY_FRAME_MAX_LEN := 223
  const SKY_FRAME_RAW_LEN := SKY_FRAME_MAX_LEN + 6
  const SKY_HMAC_LENGTH := 4
  const RS_MSGLEN := 223
  const RS_PARITYS := 32
  const MOD_TIME_TICKS := 16777216

  const SKY_RET_OK := 0
  const SKY_RET_NO_SPACE_FOR_PAYLOAD := -40
  const SKY_RET_RING_EMPTY := -50
  const SKY_RET_RING_INVALID_SEQUENCE := -51
  const SKY_RET_RING_RING_FULL := -54
  const SKY_RET_RING_PACKET_ALREADY_IN := -55
  const SKY_RET_RING_CANNOT_RECALL := -56
  const SKY_RET_RING_RESEND_FULL := -57
  const SKY_RET_RING_INVALID_ACKNOWLEDGE := -58
  const SKY_RET_RING_SEQUENCES_DETACHED := -59
  const SKY_RET_RING_SEQUENCES_OUT_OF_SYNC := -60
  const SKY_RET_TOO_LONG_PAYLOAD := -61
  const SKY_RET_EBUFFER_INVALID_INDEX := -110
  const SKY_RET_EBUFFER_NO_SPACE := -112
  const SKY_RET_EBUFFER_TOO_LONG_PAYLOAD := -113

  /** What sky_tx_with_fec asserts of a frame: the raw buffer has room for the parity. */
  predicate ParityFits(length: nat) {
    length + RS_PARITYS <= SKY_FRAME_RAW_LEN
  }

  function Min(a: int, b: int): int {
    if a <= b then a else b
  }

  /** The 8-bit sequence number that the n-th packet of a session carries when
      the session started at sequence `origin`. */
  function Seq8(origin: byte, n: nat): byte {
    (origin + n) % 256
  }

  /** Increment of a sky_arq_sequence_t, which overflows naturally. */
  function Increment8(x: byte): byte {
    (x + 1) % 256
  }

  lemma FirstSequence(origin: byte)
    ensures Seq8(origin, 0) == origin
  {
  }

  lemma NextSequence(origin: byte, n: nat)
    ensures Increment8(Seq8(origin, n)) == Seq8(origin, n + 1)
  {
  }

  /** Unsigned 8-bit subtraction, as C computes it for sky_arq_sequence_t. */
  function Sub8(a: byte, b: byte): byte {
    (a - b) % 256
  }
}
