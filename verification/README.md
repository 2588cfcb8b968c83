# Skylink in Dafny

A model of the Skylink protocol library and proofs about it. Skylink is a link-layer protocol
for small satellites: virtual channels with optional automatic repeat request (ARQ), a
time-division medium access layer, BLAKE3 for authentication, and Reed-Solomon and CRC codes.

`dafny verify dfyconfig.toml` checks everything.

## What is modelled

**The ARQ virtual channel.** `RingSpec` and `ChannelSpec` describe the rings and the channel as
values in which a packet is known by its unbounded position in the session. `Session` puts two
such channels and two lossy FIFO links together and proves what holds in every run: in-order
delivery, no loss of packets still needed, truth of the sync verdicts, agreement on the session.
`Aliasing` shows that the condition on ring sizes is exact, `Muteness` and `EmptyPayloads` when a
channel falls silent or stops, `Datagrams` what is delivered while ARQ is off, `Upkeep` what keeps a
session going. `Handshakes`, `Quitting`, `Renewal` and `Returning` find the exact condition under
which order survives that one side leaves an established session. The code itself, which knows
packets only by ring slot and 8-bit sequence number and stores payloads as linked chains in one
shared pool, is modelled in memory: `ElementBuffer` (over `Chains`), `RcvRing`, `SendRing` (over
`Slots` and `WipeItems`) and `VirtualChannel` are classes whose methods are proved to do to their
abstract view what the functions of `RingSpec` and `ChannelSpec` do. `Extensions` and `Frame` carry
the abstract frames to bytes and back.

**Medium access.** `MacSpec` and `Mac` (the class), `Tdd` (window limits and fairness over runs),
`Windows` (how use changes the own window, and idle frames), `Collision` (two half-duplex peers with
clocks of their own that wrap around), `Drift` (a lost announcement of a new window length).

**BLAKE3.** `Blake3Tree` is the recursive tree hash of section 2.1 of the BLAKE3 specification,
`Blake3Message` reads it back into the message and its blocks, `Blake3Chunk`, `Blake3Subtree`,
`Blake3Stack` and `Blake3` are the incremental hasher. The compression function is a free
constructor: a chaining value is the term that records what was compressed. Equal terms are equal
values under every compression function.

**Codes.** `GaloisField`, `ReedSolomon`, `RsCodec`, `RsDistance`, `Fec` and `Whitening` for the
(255,223) code of section 4 of CCSDS 131.0-B-3, `Crc` for the CRC-32 of section 8 of RFC 1952.

## Where the code departs from its comments

The model follows the code.

- `sky_vc_create` accepts ring sizes with which in-order delivery fails (send ring plus horizon
  above 256): `Aliasing.ExactCondition`.
- The resend list is not a queue: the shift in `sendRing_pop_resend_sequence` stops one entry early
  (src/sequence_ring.c:423-427), see `Retransmit.DrainRepeats`.
- If the first scheduled resend has been acknowledged and nothing new is queued, peek reports
  "empty" (src/sequence_ring.c:514-529) and `sky_vc_fill_frame`, against its comment, returns that
  error after it has consumed the pending answer, request and control. The stale entry stays, so the
  channel is mute: it sends nothing at all until its application queues another payload, even if its
  peer lacks a packet. See `Muteness.FillFailsIffMute` for the exact condition,
  `Muteness.SilentForever`, `Muteness.NeverArrives` and `Muteness.MuteReachable`.
- A packet longer than the reader's buffer stays in the receive ring
  (src/sequence_ring.c:134-136), and a successful read returns 0, not a length (line 149).
- A handshake's identifier is swapped to network order by the sender and not swapped back by the
  receiver (src/frame.c:112, src/reliable_vc.c:580), so the peers hold byte-swapped identifiers.
- An empty payload can be queued, but is never delivered while ARQ is on, stops everything behind it
  for the rest of the session, and blocks the queue while ARQ is off: `EmptyPayloads.EmptyStops`,
  `EmptyPayloads.OffFillsNothing`.
- A side that disconnects or times out can be taken back into the same session by a handshake still
  in the air, and then packets are skipped: `Quitting.QuitBreaksOrder`. The exact conditions are
  `Returning.ResponderQuits` and `Returning.InitiatorQuits`.
- A choked receive ring can hold as many packets as it has slots, one more than the element buffer
  is made for (src/reliable_vc.c:72). `RoomExact` is the exact condition for room, and
  `ChokedRing.RefusedThoughFree` a channel that refuses a payload although a slot is free.
- 2^24 is in general not a multiple of the TDD cycle, so the phase jumps when a count of cycles gets
  as old as a round of the clock: `Collision.WrapAroundJumps`.
- `decode_rs_8` refuses a pad of 223, so an empty frame can be encoded but not decoded:
  `Fec.DecodeRestores`.
- The raw buffer of a frame has 229 bytes (src/skylink/frame.h:60), so only frames of at most 197
  bytes have room for the parity, and the assertion in `sky_tx_with_fec` (src/skylink_tx.c:233) fails
  for longer ones. A connected channel makes such a frame for every payload of the maximal 181 bytes:
  `Frames.LongestPayload`; `Frames.ParityExact` is the exact condition.

## Model

| member | source | states |
|---|---|---|
| `Session.InOrderDelivery` | src/reliable_vc.c:388-647 | In every run of two channels over a lossy FIFO link, what a connected peer has read is a prefix of what the other side queued in the same session, in each direction whose send ring and horizon fit (sum at most 256) |
| `Aliasing.ExactCondition` | src/sequence_ring.c:153-182 | The condition is exact: in-order delivery holds in all runs from a start state if and only if send ring length plus horizon is at most 256, for each direction separately |
| `Aliasing.LongRingsBreakOrder` | src/sequence_ring.c:153-182 | For every longer pair of rings there is a run after which the receiver has read more packets than were queued |
| `Session.NothingLost` | src/sequence_ring.c:541-567 | In every run the sender's tail is not past the receiver's head, and every packet not yet accepted there is still in the sender's ring with the payload that was queued |
| `Session.SyncVerdicts` | src/sequence_ring.c:208-221 | In every run an in-sync verdict means equality of the true counters, a detached verdict means more than 64 packets are missing, and with a send ring of at most 65 slots it never occurs |
| `Session.SessionAgreement` | src/reliable_vc.c:516-570 | Whenever the initiator is ON, so is the responder, in the same session, with the byte-swapped identifier |
| `Session.SessionPersists` | src/reliable_vc.c:516-647 | In every run without a new connect, the initiator is not wiped from its connect on and the responder not from adopting the session on, whether or not the initiator is ON yet: epoch and identifier stay, and all counters, what was queued and what was read only grow |
| `Session.StepKeeps` | src/reliable_vc.c:388-647 | Every push, read, connect, send, delivery and loss keeps the invariant of the two-peer system |
| `Muteness.FillFailsIffMute` | src/reliable_vc.c:388-513 | Filling a frame returns an error if and only if the channel is ON, nothing new is queued and the first scheduled resend cannot be recalled; rings and muteness are then unchanged |
| `Muteness.MuteSpends` | src/reliable_vc.c:438-477 | The failing fill has already consumed the pending handshake answer, request and control |
| `Muteness.ProcessKeepsMute` | src/reliable_vc.c:573-647 | No frame ends muteness unless it begins another session |
| `Muteness.SilentForever` | src/reliable_vc.c:388-647 | From a mute state on, in every run, that side puts nothing more on the air until its application queues a payload or a connection is started |
| `Muteness.PushUnmutes` | src/reliable_vc.c:199-204 | An accepted payload ends muteness |
| `Muteness.NeverArrives` | src/reliable_vc.c:388-513 | If a side is mute, its link is empty and its peer still waits for a packet it has sent, the peer's head stays where it is in every run until the mute side queues a payload or a connection is started |
| `Muteness.MuteReachable` | src/sequence_ring.c:413-431 | Such a state, mute and with a packet missing at the peer, is reachable from every start state, on either side whose peer has a horizon |
| `EmptyPayloads.NeverDelivered` | src/reliable_vc.c:612-629 | In every run no receive ring holds and no application reads an empty payload |
| `EmptyPayloads.EmptyStops` | src/reliable_vc.c:612-629 | In every run the receiver's head and what it has read never pass the first empty payload queued in the session |
| `EmptyPayloads.OffFillsNothing` | src/reliable_vc.c:391-418 | While ARQ is off a fill does nothing if and only if nothing unsent is queued or the first unsent payload is empty |
| `EmptyPayloads.StaysBlocked` | src/reliable_vc.c:391-418 | Queueing more behind an empty payload does not unblock the queue |
| `Datagrams.DatagramsInOrder` | src/reliable_vc.c:391-418 | With ARQ off on both sides, in every run over lossy links, what either side has read is an order-preserving part without duplicates of what the other side queued |
| `Datagrams.DatagramsComplete` | src/reliable_vc.c:587-592 | If no packet is lost on the way or meets a receiver without room, what was read, stored, in the air and unsent are together exactly what was queued, in this order |
| `Datagrams.RefusedOnlyIfUnsent` | src/reliable_vc.c:214-237 | While nobody connects, a payload is refused for want of a slot if and only if length - 1 packets are unsent |
| `Datagrams.OffSends` | src/reliable_vc.c:391-418 | With ARQ off the first packet queued goes out and leaves the ring, unless it is empty |
| `Datagrams.OffReceives` | src/reliable_vc.c:281-285 | With ARQ off a received payload goes behind all that is stored, if there is room and the ring is not clogged |
| `Upkeep.ContentExact` | src/reliable_vc.c:326-381 | There is content to send if and only if the next fill writes a frame or reports an error, except for an empty payload at the front while ARQ is off |
| `Upkeep.Announces` | src/reliable_vc.c:438-468 | A connected channel's frame answers iff an answer is due, asks iff the window allows it and a packet is missing or was reported missing, and acknowledges iff it has something to send or the window allows it and a packet is unconfirmed or one of three ticks is too old |
| `Upkeep.Renewals` | src/reliable_vc.c:240-314 | In every run: a frame of the session puts off the sending timeout iff it acknowledges something new or everything sent, puts off the receiving timeout iff nothing sent is missing or the head advances, and sets or clears the need to ask by the true counters |
| `Upkeep.SilenceTimesOut` | src/reliable_vc.c:156-179 | In every run in which a side receives nothing it times out exactly when the ticks of its last reception are too old, whatever it queues, reads and sends |
| `Upkeep.TimeoutExact` | src/reliable_vc.c:162-179 | A channel that is not OFF is wiped iff more than the timeout has passed since one of the two ticks, and is left alone otherwise |
| `Upkeep.EnteringRenews` | src/reliable_vc.c:113-150 | After connecting or entering a session at a tick, the channel survives a check iff no more than the timeout has passed since then |
| `Upkeep.NoTrace` | src/reliable_vc.c:94-150 | After a wipe nothing depends on what the channel was before, except the sizes of its rings |
| `Upkeep.PacketsTaken` | src/sequence_ring.c:153-182 | In every run packet n is kept iff it lies between head and head plus horizon, is not held and finds room, and each refusal has its own code |
| `Upkeep.PushReports` | src/reliable_vc.c:199-204 | Each refusal of a payload has its own code and leaves the channel alone; otherwise the number the packet will carry is returned |
| `Upkeep.ReadReports` | src/sequence_ring.c:124-150 | Reading reports an empty ring, a packet too long for the reader, which stays, or hands over the oldest packet |
| `Upkeep.AckReports` | src/sequence_ring.c:541-567 | An acknowledgement is accepted iff it is the number of a packet in [tail, tx] |
| `Upkeep.MalformedExact` | src/reliable_vc.c:612-624 | A frame is reported as malformed iff it brings a payload without a number to a channel that is ON after its handshake |
| `Returning.ResponderQuits` | src/reliable_vc.c:94-110 | The responder disconnects or times out in an established session: in every run up to the next connect what the initiator reads stays a prefix of what was queued, if and only if no handshake is on its way to the responder, or the initiator has received nothing and no packet on its way will be accepted; without such a handshake order survives in the other direction too |
| `Returning.InitiatorQuits` | src/reliable_vc.c:94-110 | The initiator disconnects or times out: likewise for what the responder reads, if and only if no handshake is in the air in either direction and no answer is pending at the responder, or the responder has received nothing and will accept nothing on its way |
| `Handshakes.HandshakeOrder` | src/reliable_vc.c:438-450 | In every run the responder's handshakes all say ON and the initiator's all say IN_INIT and stand alone, a connected initiator owes no answer, openings come before everything else of their session, and an answer pending at the responder can still be sent |
| `Renewal.RenewedRun` | src/reliable_vc.c:516-570 | If the side that stayed has heard nothing, the other may quit and come back: in every run what is read is a prefix of what was queued since |
| `Quitting.QuitSurvives` | src/reliable_vc.c:156-179 | If one side quits and no handshake can reach it any more, order survives in every run up to the next connect, also while the initiator still waits for its answer; answers of a responder that quits do no harm |
| `Quitting.QuitBreaksOrder` | src/reliable_vc.c:516-570 | With a second copy of the opening handshake in the air it fails, from every start state: [1], [2], [3] are queued and [1], [3] are read |
| `Session.CanStart` | src/reliable_vc.c:45-80 | There is a start state for every admissible pair of ring sizes |
| `Session.NoAlias` | src/sequence_ring.c:153-182 | A sequence number that passes the horizon check denotes exactly the packet that was sent |
| `Session.AckExact` | src/sequence_ring.c:541-567 | An acknowledgement moves the tail exactly to the head the receiver had when it sent it |
| `Retransmit.RequestIsExact` | src/sequence_ring.c:347-390 | A request built from an unchoked receiver's head and bitmap, served with an empty resend list, schedules exactly the first 16 packets the receiver lacks in [head, min(tx, head + 17)), in order |
| `Retransmit.DrainRepeats` | src/sequence_ring.c:413-431 | Popping a resend list of two or more entries delivers all but the last, and the last but one twice |
| `Retransmit.FifoOnlyIfShort` | src/sequence_ring.c:413-431 | The list is served first in, first out if and only if it has at most one entry or its last two entries are equal |
| `Retransmit.AskedOnce` | src/sequence_ring.c:347-390 | However often a packet is asked for, it is on the list once |
| `Retransmit.ReadsCount` | src/sequence_ring.c:404-504 | Every read takes one from the number of packets to send, and two if it passes over a stale resend to a new packet |
| `RingSpec.RecallIsExact` | src/sequence_ring.c:289-318 | Among the packets sent and not acknowledged, a sequence number recalls a position if and only if that packet carries it |
| `ChannelSpec.PeekMatchesRead` | src/sequence_ring.c:434-537 | A non-negative peek announces the length and the sequence number of the packet that the next read delivers |
| `RingSpec.Advance` | src/sequence_ring.c:99-118 | Advancing the head terminates and keeps readable + horizon + 1 <= length, with the head slot empty unless the ring is choked |
| `ElementBuffers.ElementBuffer.Store` | src/element_buffer.c:343-405 | Stores the bytes at a new index and nothing else changes, or reports no space if and only if fewer elements are free than the payload needs; chains stay disjoint and acyclic |
| `ElementBuffers.ElementBuffer.Read` | src/element_buffer.c:425-472 | Returns exactly the stored bytes, or the error for an unused index or a short target; the chain is never found corrupted, neither by a free element nor at its end |
| `ElementBuffers.ElementBuffer.Delete` | src/element_buffer.c:477-508 | Frees exactly the chain of that index; all other entries are unchanged and the free counter grows by the chain's length |
| `ElementBuffers.ElementBuffer.Wipe` | src/element_buffer.c:319-329 | Leaves nothing stored and every element free |
| `ElementBuffers.ElementBuffer.GetDataLength` | src/element_buffer.c:409-421 | The length of the stored payload, or the error for an unused index |
| `ElementBuffers.ElementBuffer.GetNextFree` | src/element_buffer.c:159-175 | The first free element in cyclic order, or -1 if and only if none is free |
| `ElementBuffers.ElementBuffer.GetNFree` | src/element_buffer.c:178-204 | Collects n distinct free elements if and only if that many are free |
| `ElementBuffers.ElementBuffer.FreeCounterExact` | src/element_buffer.c:343-508 | free_elements is the number of elements marked free |
| `ElementBuffers.ElementBuffer.RoomForOneMore` | src/element_buffer.c:335-340 | A buffer with room for n + 1 payloads of a length that holds at most n such payloads has room for another |
| `Chains.RequirementExact` | src/element_buffer.c:269-275 | The element requirement is the least number of elements that holds the length field and the payload |
| `RcvRings.CreateRcvRing` | src/sequence_ring.c:60-83 | No ring for sizes that do not fit together, else an empty one with the horizon limited to 64 |
| `RcvRings.RcvRing.Push` | src/sequence_ring.c:153-182 | The ring in memory, with wrapped indices and 8-bit sequences, does what the ring with unbounded positions does, and changes only its own part of the element buffer |
| `RcvRings.RcvRing.Read` | src/sequence_ring.c:124-150 | Likewise; success returns 0 and the packet leaves ring and buffer |
| `RcvRings.RcvRing.AdvanceHead` | src/sequence_ring.c:99-118 | The loop refines the recursive advance and returns how far the head moved |
| `RcvRings.RcvRing.CountReadable` | src/sequence_ring.c:93-96 | The wrapped index difference is the true number of readable packets |
| `RcvRings.RcvRing.GetHorizonBitmap` | src/sequence_ring.c:185-202 | Bit i is set if and only if packet head + 1 + i is held inside the horizon |
| `RcvRings.RcvRing.GetSyncStatus` | src/sequence_ring.c:208-221 | The verdict on the peer's counter |
| `RcvRings.RcvRing.Wipe` | src/sequence_ring.c:34-57 | Deletes exactly this ring's payloads and empties the ring |
| `SendRings.CreateSendRing` | src/sequence_ring.c:257-272 | No ring for fewer than four slots, else an empty one |
| `SendRings.SendRing.Push` | src/sequence_ring.c:321-344 | Appends a packet unless ring or buffer is full, refining the unbounded ring |
| `SendRings.SendRing.CanRecallSequence` | src/sequence_ring.c:289-302 | True if and only if the number belongs to a packet sent and not acknowledged |
| `SendRings.SendRing.GetRecallIndex` | src/sequence_ring.c:306-318 | The ring index of the packet with that sequence number |
| `SendRings.SendRing.Schedule` | src/sequence_ring.c:347-366 | Adds a sequence number once, if it can be recalled and the list is not full |
| `SendRings.SendRing.ScheduleMask` | src/sequence_ring.c:369-390 | Schedules the packets a request's mask leaves open, stopping at the first failure |
| `SendRings.SendRing.PopResend` | src/sequence_ring.c:413-431 | Returns the first entry; the list becomes what the shift up to the decremented count leaves |
| `SendRings.SendRing.Count` | src/sequence_ring.c:404-410 | The number of packets waiting, with or without scheduled resends |
| `SendRings.SendRing.ReadNext` | src/sequence_ring.c:434-504 | Delivers the first scheduled resend that can still be recalled, else the next new packet |
| `SendRings.SendRing.PeekNext` | src/sequence_ring.c:507-537 | Length and sequence number of the next packet, or empty |
| `SendRings.SendRing.CleanUpTo` | src/sequence_ring.c:541-567 | Deletes exactly the acknowledged packets, or refuses an acknowledgement beyond what was sent |
| `SendRings.SendRing.IsFull` | src/sequence_ring.c:282-285 | One slot is always left empty |
| `SendRings.SendRing.Wipe` | src/sequence_ring.c:230-254 | Deletes exactly this ring's payloads and empties ring and resend list |
| `WipeItems.Wipe` | src/sequence_ring.c:34-57 | The shared loop of both wipes deletes the payload of every occupied slot |
| `VirtualChannels.VirtualChannel.constructor` | src/reliable_vc.c:45-80 | Out-of-range settings become 32, and the element buffer is made for rcv + snd - 2 maximal payloads |
| `VirtualChannels.CreatedWithin` | src/reliable_vc.c:45-80 | Ring lengths within the limits are kept and others become 32, the horizon is the configured one cut to the ring and to 64, and the new channel is in the disconnected state |
| `VirtualChannels.VirtualChannel.PushPacketToSend` | src/reliable_vc.c:199-204 | The channel in memory refines the abstract push, for the room the buffer has |
| `VirtualChannels.VirtualChannel.ReadNextReceived` | src/reliable_vc.c:275-278 | Refines the abstract read |
| `VirtualChannels.VirtualChannel.WipeToArqOff` | src/reliable_vc.c:94-110 | Both rings empty, ARQ off, and every element of the buffer free |
| `VirtualChannels.VirtualChannel.WipeToArqInit` | src/reliable_vc.c:113-128 | The same with ARQ handshaking and the tick time as identifier |
| `VirtualChannels.VirtualChannel.WipeToArqOn` | src/reliable_vc.c:131-146 | The same with ARQ on and an answer pending |
| `VirtualChannels.VirtualChannel.CheckArqTimeouts` | src/reliable_vc.c:165-179 | Wipes to off if and only if one of the two ages exceeds the timeout |
| `VirtualChannels.VirtualChannel.HasContentToSend` | src/reliable_vc.c:326-381 | Decides exactly as the abstract channel does |
| `VirtualChannels.VirtualChannel.FillTransmitFrame` | src/reliable_vc.c:388-513 | Writes the handshake, request, control, sequence and payload that the abstract channel writes, and leaves the same channel behind |
| `VirtualChannels.VirtualChannel.TransmitMonotonic` | src/reliable_vc.c:228-236 | Reads the next new packet and drops it from the ring |
| `VirtualChannels.VirtualChannel.UpdateTxSync` | src/reliable_vc.c:240-252 | Acknowledges and notes the time of progress |
| `VirtualChannels.VirtualChannel.UpdateRxSync` | src/reliable_vc.c:302-316 | Acts on the verdict about the peer's counter |
| `VirtualChannels.VirtualChannel.HandlePeerHandshake` | src/reliable_vc.c:516-570 | The handshake state machine |
| `VirtualChannels.VirtualChannel.PushRxPacket` | src/reliable_vc.c:289-299 | Takes in a received packet, refining the abstract channel |
| `VirtualChannels.VirtualChannel.ProcessReceivedFrame` | src/reliable_vc.c:573-647 | Processes a parsed frame as the abstract channel does; the payload finds room whenever fewer than rcv + snd - 2 packets of at most 181 bytes are held |
| `VirtualChannels.VirtualChannel.BufferHoldsRings` | src/reliable_vc.c:33-146 | The indices stored in the buffer and the occupied slots of the two rings are in one-to-one correspondence |
| `VirtualChannels.VirtualChannel.BufferHoldsPackets` | src/reliable_vc.c:33-146 | As many payloads are stored as packets are held, and each is one of theirs |
| `VirtualChannels.VirtualChannel.RoomWhenSpacious` | src/reliable_vc.c:71-75 | Fewer than rcv + snd - 2 packets of at most 181 bytes held: one more of at most 181 bytes can be stored |
| `VirtualChannels.VirtualChannel.RoomExact` | src/reliable_vc.c:71-75 | For payloads that need as many elements as a maximal one there is room if and only if fewer than rcv + snd - 2 packets are held |
| `ChokedRing.RefusedThoughFree` | src/reliable_vc.c:71-75 | In every configuration a choked receive ring can hold a packet in every slot, and then a payload is refused for want of space although the send ring has a free slot |
| `Extensions.RoundTrip` | src/frame.c:195-295 | Any selection and order of distinct extensions parses back to the same fields (the handshake identifier byte-swapped), and nothing else is found |
| `Extensions.ParseFinds` | src/frame.c:195-295 | Whatever the bytes, every extension found lies inside the frame and has its proper length |
| `Extensions.OnTheWire` | src/frame.c:36-163 | The bytes of each of the six extensions: length and type, then the fields in network order |
| `Extensions.ParseVerdict` | src/frame.c:195-250 | Parsing stops at the first place behind the announced end or without an acceptable extension, and the code tells which of four faults is there, in the order of the source |
| `Frames.ParseExtensionHeaders` | src/frame.c:195-295 | The loop computes the recursive parse, including its four error cases |
| `Frames.TransmitFrame.AddExtension` | src/frame.c:36-163 | Appends exactly the extension's bytes and accounts for them |
| `Frames.TransmitFrame.ExtendWithPayload` | src/frame.c:172-188 | Appends the payload if and only if it fits |
| `Frames.TransmitFrame.constructor` | src/skylink_tx.c:165-180 | Version byte, identity and static header |
| `Frames.WireRoundTrip` | src/frame.c:36-163 | A frame that a channel fills, written to bytes, parses back to the same handshake, request, control, sequence, payload, TDD fields and HMAC sequence |
| `Frames.NothingTooLarge` | src/reliable_vc.c:471-508 | With identity and static header of at most 7 bytes each, no frame exceeds 223 bytes with its authentication and no packet is discarded as too large |
| `Frames.SpaceExact` | src/reliable_vc.c:478-505 | For a start of any length: the packet is sent iff it fits with all extensions and the authentication, and discarded otherwise |
| `Frames.MaskBitAt` | src/sequence_ring.c:185-202 | Bit i of the transmitted mask is bit i of the bitmap |
| `Frames.ParityExact` | src/skylink_tx.c:227-241 | A channel's frame with a packet has room for the parity in the 229-byte buffer if and only if start, due extensions, packet and authentication have at most 197 bytes together |
| `Frames.LongestPayload` | src/skylink_tx.c:233-233 | A payload of 181 bytes is accepted by a connected channel, and the next fill returns a frame for which the assertion fails, whatever identity and header precede it |
| `ChannelSpec.SwapIsInvolution` | src/utilities.c:96-103 | Swapping the bytes of an identifier twice restores it |
| `Macs.SkyMac.constructor` | src/mac.c:42-86 | Limits the configuration and starts with minimal windows |
| `Macs.SkyMac.TimeToOwn` | src/mac.c:136-147 | The loop-based modulo yields the distance to the next own window |
| `Macs.SkyMac.OwnWindowRemaining` | src/mac.c:154-161 | Own window length minus the phase of the cycle |
| `Macs.SkyMac.PeerWindowRemaining` | src/mac.c:164-169 | The same for the believed peer window |
| `Macs.SkyMac.MayTransmit` | src/mac.c:172-176 | Open if and only if the phase is inside the own window |
| `Macs.SkyMac.Update` | src/mac.c:184-230 | The new belief: clamped window, later of implied and minimal start, counters cleared |
| `Macs.SkyMac.Expand` | src/mac.c:107-118 | Longer window within the limit, cycle restarted; the window limits are kept |
| `Macs.SkyMac.Shrink` | src/mac.c:122-133 | Shorter window within the limit, cycle restarted; the window limits are kept |
| `Macs.SkyMac.Reset` | src/mac.c:233-241 | Minimal window, cycle restarted |
| `Macs.SkyMac.Shift` | src/mac.c:99-103 | Start of the cycle moved back |
| `Macs.SkyMac.SenseCarrier` | src/mac.c:248-259 | Puts the own window off if it is close |
| `Macs.SkyMac.NeedsIdleFrame` | src/mac.c:262-275 | Decides on idle frames |
| `Macs.SkyMac.FrameFields` | src/mac.c:278-288 | The 16-bit fields of the TDD extension |
| `Macs.SkyMac.TrackTddState` | src/skylink_tx.c:21-71 | The window adjustment and the frame counters of one call |
| `Windows.UseDecides` | src/skylink_tx.c:21-72 | Over any sequence of own windows: after k windows used throughout the own window has grown by (k - 1) / period increments, and after k others it has shrunk by as many, within the limits |
| `Windows.WindowCounts` | src/skylink_tx.c:21-72 | One whole own window, from the first attempt to the one that finds it closed, counts up iff there was something to transmit at every attempt, and applies the change that is due when it opens |
| `Windows.IdleFrames` | src/mac.c:262-275 | In a window without content a side that has heard of its peer within the timeout sends exactly the configured number of idle frames, or one per attempt if there are fewer, all on channel 0 |
| `Windows.NoIdleFrames` | src/mac.c:269-271 | Beyond the timeout none is sent |
| `Windows.FramesCounted` | src/skylink_tx.c:214-216 | In a window the counters grow by the number of frames made, per channel and in all, modulo 2^16 |
| `Windows.BeliefStartsAnew` | src/mac.c:184-230 | A belief starts the counts and the timeout anew and takes the admissible window length nearest to the one announced |
| `Windows.FieldsAnnounced` | src/mac.c:278-288 | A frame announces the true remainder while the window is open and one tick otherwise |
| `Windows.ShiftIsEarlier` | src/mac.c:99-103 | After a shift by k everything happens |k| ticks earlier |
| `Windows.ResetOpens` | src/mac.c:233-241 | After a reset a window of the minimal length opens at once |
| `Windows.CreatedIsSilent` | src/mac.c:66-86 | A new side sends no idle frames for 2^24 - 300000 ticks |
| `Windows.SanitizedExact` | src/mac.c:41-64 | Every configured value within its limits is kept, others become the nearest admissible one or the default |
| `Macs.SkyMac.Pick` | src/skylink_tx.c:100-123 | The first wanting channel in round-robin order, channel 0 for an idle frame, or none |
| `Macs.SkyMac.BeginTransmit` | src/skylink_tx.c:126-154 | The decisions of sky_tx before a frame is built |
| `Macs.SkyMac.EndTransmit` | src/skylink_tx.c:214-216 | The counters after a frame has been made |
| `Tdd.Run` | src/mac.c:42-259 | In every state reachable by transmissions, belief updates, carrier sensing, resets and shifts both windows are within [min, max] |
| `Tdd.EveryChannelServed` | src/skylink_tx.c:89-123 | Among any four consecutive transmissions of any run there is one of every channel that wanted to send at each of them |
| `Tdd.OnlyInOwnWindow` | src/skylink_tx.c:126-154 | A frame is produced if and only if the own window is open and a channel wants to send or an idle frame is due |
| `Collision.NeverBothSend` | src/mac.c:154-230 | After a TDD extension is processed with a lateness of at most the gap, the two peers never both may send, at any later tick before either count is 2^24 ticks old |
| `Collision.LatenessExact` | src/mac.c:154-230 | Exact condition: from processing on, over a whole cycle or more within one round of both counts, the two never both may send if and only if the lateness modulo the cycle is at most the gap or at least the cycle less the tail |
| `Collision.NeverBothIffApart` | src/mac.c:154-176 | Over any time of at least a cycle two periodic windows are never both open if and only if they are apart |
| `Collision.QuietRuns` | src/mac.c:107-230 | In no state of any run of exchanged frames, with windows expanded and shrunk as the frames announce, each frame no later than the gap, may both peers send |
| `Collision.QuietInFlight` | src/mac.c:107-133 | While a frame that announces a new window length is on its way, the resized sender and the receiver with the old belief never both may send |
| `Drift.LostAnnouncement` | src/mac.c:107-133 | If the frame that announces a new window length is lost, the peers stay quiet through n cycles as long as n times the change fits into the time left beside the other window; the bound is exact unless the window shrinks by more than the length of the other |
| `Collision.PeerWindowSeen` | src/mac.c:164-169 | The receiver's picture of the sender's window is the sender's own, delayed by exactly the lateness |
| `Collision.CarrierPutsOff` | src/mac.c:248-259 | After carrier sensing the own window is the larger of its old distance and the carrier-sense setting away |
| `Collision.RestartOpensWindow` | src/mac.c:107-133 | Expanding, shrinking and resetting open a full own window at once |
| `Collision.WrapAroundJumps` | src/mac.c:22-31 | The remaining window agrees with the unwrapped cycle at every tick of the second round of the clock if and only if the cycle divides 2^24 |
| `Collision.AfterRounds` | src/mac.c:22-31 | After k rounds of the clock the cycle is counted from k rounds later |
| `Collision.QuietPastWrap` | src/mac.c:22-31 | At any age of the two counts the peers are quiet over a cycle or more if and only if their windows, moved on by the rounds passed, are apart |
| `Utilities.PositiveModulo` | src/utilities.c:131-145 | The loops and the truncating division compute the mathematical remainder |
| `Blake3.Hash` | src/ext/blake3/blake3.c:455-611 | For any sequence of updates and any power-of-two SIMD degree the root is that of the recursive tree over the concatenated input |
| `Blake3.Hasher.constructor` | src/ext/blake3/blake3.c:362-367 | Nothing fed, empty stack |
| `Blake3.Hasher.Update` | src/ext/blake3/blake3.c:455-562 | Appends to what has been fed and keeps the stack invariant: one entry per merged power-of-two subtree, at most 55 entries |
| `Blake3.Hasher.Finalize` | src/ext/blake3/blake3.c:569-611 | The root of the tree over everything fed |
| `Blake3.Hasher.FinalizeSeek` | src/ext/blake3/blake3.c:569-611 | The bytes of the root's output from any position |
| `Blake3.Hasher.MergeCvStack` | src/ext/blake3/blake3.c:404-413 | Merging down to the population count leaves one subtree per 1-bit of the chunk count, all complete |
| `Blake3.Hasher.PushCv` | src/ext/blake3/blake3.c:447-453 | The stack holds the old chunks and the new subtree, unmerged |
| `Blake3.Hasher.SubtreeChunks` | src/ext/blake3/blake3.c:504-523 | The subtree length is a power-of-two number of chunks that fits the input and divides the count so far |
| `Blake3.Hasher.PushPair` | src/ext/blake3/blake3.c:536-546 | Both halves of a subtree are pushed, each at its own count |
| `Blake3.LazyMerge` | src/ext/blake3/blake3.c:390-413 | While the stack is higher than the population count, the two topmost subtrees have equal size and their merge keeps the invariant |
| `Blake3Stack.RollUpIsTree` | src/ext/blake3/blake3.c:592-610 | Rolling the stack up onto the last part gives the root of the tree over everything |
| `Blake3Subtree.SubtreeToParent` | src/ext/blake3/blake3.c:333-360 | For every input longer than a chunk and every power-of-two degree: exactly the chaining values of the root's two children |
| `Blake3Subtree.SubtreeWide` | src/ext/blake3/blake3.c:264-321 | The list returned stands for the subtree, has at least two and at most max(degree, 2) entries, and min(chunks, that) for a power of two |
| `Blake3Subtree.CompressChunks` | src/ext/blake3/blake3.c:168-205 | The chaining value of every chunk, the last possibly partial |
| `Blake3Subtree.CompressParents` | src/ext/blake3/blake3.c:212-245 | One layer of parents, an odd value passed on |
| `Blake3Subtree.PairsRepresent` | src/ext/blake3/blake3.c:212-245 | A layer of parents stands for the same subtree |
| `Blake3Tree.LeftLenUnique` | src/ext/blake3/blake3.c:157-162 | left_len is the only power-of-two number of chunks that leaves something and no more than itself over |
| `Blake3Chunk.ChunkState.Update` | src/ext/blake3/blake3.c:112-140 | Absorbs the bytes; the last block stays in the buffer |
| `Blake3Chunk.ChunkState.GetOutput` | src/ext/blake3/blake3.c:142-147 | The output the specification gives for the bytes absorbed |
| `Blake3Tree.RootBytes` | src/ext/blake3/blake3.c:89-110 | Byte i of the result is byte seek + i of the root's output stream |
| `Blake3Message.TreeChunks` | src/ext/blake3/blake3.c:142-166 | For every input: above the chunks there are only parents, left before right, with the key, number 0 and the parent flag alone; the chunks are the pieces of the input in order, numbered one by one; and the bytes in the blocks are the input |
| `Blake3Message.ChunkBlocks` | src/ext/blake3/blake3.c:46-146 | The compressions of a chunk form a chain from the key in which the first alone has the start flag, the last alone the end flag, all carry the number of the chunk, only the last is padded, and whose bytes are the chunk |
| `Blake3Message.TreeInjective` | src/ext/blake3/blake3.c:255-350 | Different messages have different trees, so hashes collide only where the compression function does |
| `Blake3Message.StreamInOrder` | src/ext/blake3/blake3.c:87-109 | The output is the root's blocks 0, 1, 2, ... one after the other |
| `Fec.DecodeRestores` | src/fec.c:65-132 | Decoding an encoded frame of at most 223 bytes restores it if and only if it is not empty |
| `Fec.FecFrame.Encode` | src/fec.c:112-132 | Frames of more than 223 bytes are refused, others get parity and whitening, in a buffer with room for them |
| `Fec.FecFrame.EncodeForTransmit` | src/skylink_tx.c:233-236 | In the source's buffer the assertion fails if and only if the frame has more than 197 bytes, and all other frames are encoded |
| `Fec.FecFrame.Decode` | src/fec.c:65-108 | Whitening removed, code words returned without parity, the rest left to the corrector |
| `Fec.EncodeRs` | src/ext/libfec/encode_rs.h:33-58 | The table-driven shift register computes the parity of the data and changes nothing else |
| `Fec.DecodeRs` | src/ext/libfec/decode_rs.h:81-108 | Returns 0 and leaves the word alone if and only if its length is accepted and all 32 syndromes are zero, up to the corrector's answer |
| `Fec.Syndromes` | src/ext/libfec/decode_rs.h:81-94 | The nested loops evaluate the word at all 32 roots |
| `RsCodec.EncodedIsCodeword` | src/ext/libfec/encode_rs.h:33-58 | All 32 syndromes of every message followed by its parity are zero |
| `RsCodec.CodewordIffEncoded` | src/ext/libfec/decode_rs.h:81-108 | All syndromes of data and 32 more symbols are zero if and only if those symbols are the encoder's parity |
| `RsDistance.ErrorsDetected` | src/ext/libfec/decode_rs.h:81-108 | No code word of up to 255 symbols becomes another one by 1 to 32 wrong symbols (minimum distance 33) |
| `ReedSolomon.GeneratorRoots` | src/ext/libfec/ccsds_tab.c:42-46 | The tabulated generator polynomial vanishes at alpha^(11 (112 + i)) for i from 0 to 31 |
| `GaloisField.TablesMultiply` | src/ext/libfec/ccsds_tab.c:4-40 | Adding the logarithms of two nonzero elements modulo 255 through the two tables gives their shift-and-add product in GF(256) |
| `GaloisField.TableMultiplies` | src/ext/libfec/ccsds_tab.c:4-40 | Adding k to the logarithm multiplies by the k-th power of alpha |
| `GaloisField.AlphaIsPower` | src/ext/libfec/ccsds_tab.c:4-21 | Entry i of the first table is the i-th power of alpha |
| `GaloisField.IndexIsLog` | src/ext/libfec/ccsds_tab.c:23-40 | The second table holds the logarithm of every nonzero element |
| `GaloisField.Primitive` | src/ext/libfec/ccsds_tab.c:4-21 | No power of alpha before the 255th is 1 |
| `GaloisField.Mod255` | src/ext/libfec/fixed.h:10-16 | The folding loop computes the true remainder modulo 255 |
| `Fec.WhitenedTwice` | src/fec.c:78-80 | Whitening is its own inverse |
| `Whitening.TableIsSequence` | src/fec.c:23-60 | Entry i of the table is byte i of the sequence of a register with h(x) = x^8 + x^7 + x^5 + x^3 + 1 that starts with all ones |
| `Whitening.OnAir` | src/fec.c:112-132 | An encoded frame without this sequence is a code word that begins with the frame |
| `Crc.Crc32` | src/crc.c:88-97 | The table-driven loop computes the bit-serial reflected CRC-32 of every byte string |
| `Crc.TableIsRight` | src/crc.c:19-85 | Each of the 256 entries is eight bit-serial steps of its index |
| `Crc.BurstDetected` | src/crc.c:88-97 | Messages of equal length that differ only within four consecutive bytes never share a checksum; in particular a single wrong byte is always noticed |
| `Crc.Residue` | src/crc.c:88-97 | A message followed by its checksum, lowest byte first, leaves the register at 0xDEBB20E3 whatever the message |
| `Crc.LeadingZeros` | src/crc.c:88-97 | Up to four zero bytes in front of a message always change its checksum |
| `Crc.CrcFrame.Extend` | src/crc.c:100-113 | Appends the checksum in network byte order, or refuses a frame without room for it |
| `Crc.CrcFrame.Check` | src/crc.c:116-143 | Succeeds if and only if the frame is some data followed by its checksum, and then leaves exactly the data |

## Left out

- Session.InOrderDelivery: runs contain neither timeouts nor disconnects, and one fixed side initiates with strictly increasing identifiers; the same holds for the other run theorems of `Session`. `Returning` treats a single disconnect or timeout of an established session, up to the next connect.
- Liveness: nothing is claimed about packets eventually arriving.
- The HMAC layer: the keyed hash, the sequence window and the sequence reset on reception. Its extension is written and parsed, and `wants` in the round-robin model includes a pending HMAC sequence.
- The BLAKE3 compression rounds and SIMD dispatch: `blake3_hash_many` is taken to hash each of its inputs, and population counts, powers of two and the divisibility mask (src/ext/blake3/blake3.c:521) are modelled as arithmetic on unbounded integers.
- Error correction behind the zero-syndrome exit of the Reed-Solomon decoder (Berlekamp-Massey, Chien search, Forney): a parameter of the decoder model.
- Golay coding of the length field, the Python parser, the software modem, diagnostics, malloc and free.
- 32-bit overflow: tick arithmetic and ring indices are unbounded integers. 8-bit sequence numbers, 16-bit counters and TDD fields, 32-bit identifiers and checksums, and 24-bit tick time are modelled with their widths.
- Big-endian hosts: byte order is that of a little-endian host.
- The bit layout of the static header: its bytes are opaque, and flags and extension length are fields of the frame.
- Run-time changes of the configuration.
- Macs.SkyMac.constructor: not for configurations with empty windows or negative gaps, tails or increments; with a cycle of no ticks the loops of `positive_modulo` would not end.
- Fec.FecFrame.Encode: requires room for the parity of frames of at most 223 bytes; called without the assertion of `sky_tx_with_fec`, the source writes past its 229-byte buffer for those of more than 197.
- SendRings.CreateSendRing: at most 256 slots, so that 8-bit sequence numbers tell the packets of the ring apart; a channel never makes one longer than 250.
- ElementBuffers.ElementBuffer.Store: for payloads of at most 42 elements, the size of the source's index array; a channel's payloads need at most 19.
- Blake3.Hasher.Update: requires fewer than 2^64 bytes in all, the width of the source's counters.
- Collision.QuietRuns: a frame is sent and processed as one step, and one that announces another window length is processed before the old window would have closed. `Drift` treats the loss of such a frame.
