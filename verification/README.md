# Verified models of nanopb and of BoringSSL's handshake transport

The card game of this repository ships two libraries whose sources hold protocols. This project models four
parts of them in Dafny and proves what they are for. Line references are relative to the root of the
repository.

**DTLS handshake transport** (`d1_both.cc`, `d1_pkt.cc`, `dtls_record.cc`, `dtls_method.cc`). Sender, network and receiver.
The sender cuts a flight of handshake messages into fragments that fill packets up to the MTU, can be
interrupted by the transport at any packet, and can start over at another MTU. The receiver merges fragments
with a bitmask in a ring of seven slots; below it are record parsing, a 64-bit replay window and epochs.
`DtlsFragment`, `DtlsRing` and `DtlsIncoming` are the receiver, `DtlsWindow`, `DtlsRecord` and `DtlsReadSide`
its record layer, `DtlsWriter`, `DtlsWriteSide`, `DtlsFlight`, `DtlsPacket` and `DtlsSender` the sender. `DtlsOpen`
says what comes out of a packet, `DtlsArrive` that what was packed gets through, `DtlsKeyChange` how a flight is sent
that spans a change of the keys. `DtlsRun`
puts both ends into one system, with a network of fragments that loses, duplicates and reorders; `DtlsWire` is
that system down to the datagrams, with packets as the sender fills them, records as the receiver opens them and keys
that change on both sides, and every run of it is one of `DtlsRun`.

**nanopb** (`pb_common.c`, `pb_encode.c`, `pb_decode.c`). Descriptor-driven encoder and decoder of Protocol
Buffers. `PbSchema` and `PbWire` are messages and wire formats, `PbEncode` and `PbDecode` what is written and
how it is read, as functions; `PbIter`, `PbOStream`, `PbIStream`, `PbSeen` and `PbDecoder` are the stream
and iterator objects of the code, proved against those functions; `PbRoundTrip` (round trip and merging), `PbFaithful`,
`PbMerge`, `PbEnd`, `PbSkip` (readers that lack fields) and `PbLimits` (what is refused) hold the main theorems.

**TLS byte paths** (`s3_pkt.cc`, `s3_both.cc`, `ssl_buffer.cc`, `ssl3_choose_cipher`). `TlsOutput` is the
write side with its write buffer and pending flight, and `TlsOutputRun` its runs; `TlsInput` is the framing of
handshake messages over arbitrary records, and `TlsFraming` joins both ends; `TlsBuffer` is the buffer with its
16-bit offset, `TlsCipher` the choice of a cipher.

**TLS 1.0 to 1.2 handshakes** (`handshake_client.cc`, `handshake_server.cc`, `handshake.cc`). `HsClient` and
`HsServer` say what a turn in each state does, and what holds of each side against any peer; `HsClientLoop` and
`HsServerLoop` are the handshake objects with a method for every state and the loop over them, proved against
that; `HsClientChecks` and `HsServerChecks` say which turns are refused, and that none was in a handshake that is
done. `HsMessages` is the script of messages that both sides follow; `HsClientPlace` and `HsServerPlace` show for
every state that it follows the script; `HsRun` is the system of both over a reliable channel.

Objects whose methods update their fields are classes: message buffers, ring, window, counters, sender,
streams, iterator, write and read side, handshakes. Each of their methods is proved against a function of the old state,
and the theorems are about these functions. Ciphers are given as functions: `Aead` is a pair of functions for
sealing and opening with an overhead, which need not be correct, except where the theorem says so. Signatures
and MACs are what they are computed over.

What the proofs found, beside what holds:

- A field without has_ flag that has a default other than zero does not survive: zero is not sent
  (`PbFaithful.SingularWithDefaultIsLost`), and `PbFaithful.SameMessageIff` says exactly which messages do.
- The number of required fields must not be a positive multiple of 32 and must be below 64: otherwise the
  shift at `pb_decode.c:947` and the access to the bitmap have no defined result. `PbSchema.CountDefined` is that
  condition.
- A key that is cut off, or too long with nothing behind it, ends the message without an error
  (`pb_decode.c:251-275`), though `pb_decode.h` promises that for the end of the message only. That happens exactly
  on one to five bytes with the top bit set behind whole fields (`PbEnd.EndsBehindIff`); `PbEnd.TruncatedKeys`
  shows it on one byte 0x80 and on five of them.
- Handshake number `handshake_read_seq + 7` is neither ignored nor accepted: it ends the connection
  (`DtlsRing.EighthIsRefused`).
- After a packet that could not be made the position in the flight has moved on, although nothing was sent, exactly
  if something could be sealed at the old one (`DtlsPacket.FailedSealLosesPosition`, and `DtlsPacket.PositionIsLost`
  with a counter near its end); only a failed write restores it.
- Replay and reuse of sequence numbers are excluded only while the 16-bit epoch has not come around
  (`DtlsRecord.WrapAllowsReplay`), and sealing with a 48-bit counter that has come around repeats a pair
  (`DtlsWriter.NoPairTwice`).
- A partial write of a buffer keeps the rest exactly if the 16-bit offset and the length together are no more than
  65536 (`TlsBuffer.KeptIff`); whether a full buffer of the greatest capacity survives one depends on how its memory
  is aligned (`TlsBuffer.ConsumeFullBuffer`).
- A record that cannot be sealed behind a flight takes the flight with it: `TlsOutput.Output.DoWrite` says
  exactly when, and `TlsOutputRun.LostFlight` is such a call. Over whole runs in which flight and record fit the
  buffer that is the only way to lose order (`TlsOutputRun.Run`).
- A usable cipher in a last group that is not closed is passed over (`TlsCipher.OpenGroupIsPassedOver`);
  `TlsCipher.NothingIffNoneUsable` needs the last group closed, which is what `internal.h:1775-1808` asks for.

## Model

| member | source | states |
|---|---|---|
| DtlsWire.ReleasedIsPrefix | CardsGame/Pods/BoringSSL/ssl/d1_both.cc:305-840 | down to the datagrams: for every run of adding messages, filling packets at any MTU, interruptions, starting over, key changes on both sides, and packets that are lost, duplicated and reordered and opened record by record, under ciphers that open what they sealed and with fewer than 65536 messages: the messages released are a prefix of those added, byte for byte as hashed |
| DtlsWire.StepMatches | CardsGame/Pods/BoringSSL/ssl/d1_both.cc:523-840 | every step of that system is a number of steps of the one on fragments: what a packet carries are fragments that were sent, and what is opened from it is handed to the ring |
| DtlsWire.ReadKnown | CardsGame/Pods/BoringSSL/ssl/dtls_record.cc:177-265 | whatever is left of a packet that was sent: the next record is opened to a plaintext that was sealed, of its type, or not accepted, and what is left again is whole records of that packet |
| DtlsWire.PacketIsKnown | CardsGame/Pods/BoringSSL/ssl/d1_both.cc:739-780 | a packet is a row of records, each sealed with the keys of its epoch from a fragment of the flight |
| DtlsRun.ReleasedIsPrefix | CardsGame/Pods/BoringSSL/ssl/d1_both.cc:305-455 | for every run of adding messages, sending any fragments of them, and a network that loses, duplicates and reorders, with fewer than 65536 messages: the messages released are a prefix of those added, each byte for byte in the single-fragment form that was hashed |
| DtlsRun.RunIsFaithful | CardsGame/Pods/BoringSSL/ssl/d1_both.cc:274-455 | every state of every run keeps the ring valid, every buffered message in agreement with what was added under its number, and what was released equal to what was added |
| DtlsRun.CurrentIsRaw | CardsGame/Pods/BoringSSL/ssl/d1_both.cc:424-440 | a complete current message has the number that is next and equals the single-fragment form of the message that was added under it |
| DtlsRun.PartsAreUnited | CardsGame/Pods/BoringSSL/ssl/d1_both.cc:336-411 | parts of a message inside the window (in epoch 1, of the current message) are all accepted, in any order and however they overlap, and the known bytes afterwards are exactly the union of what was known and what arrived |
| DtlsRun.ReleasedWhenCovered | CardsGame/Pods/BoringSSL/ssl/d1_both.cc:264-268 | the current message can be released, in whatever epoch its parts come, if and only if something arrived and the parts cover the whole message |
| DtlsFragment.ParseBack | CardsGame/Pods/BoringSSL/ssl/d1_both.cc:479-493 | a fragment header and body that are written are parsed back unchanged, whatever follows them |
| DtlsFragment.ParsedIsFragment | CardsGame/Pods/BoringSSL/ssl/d1_both.cc:479-493 | what is parsed is what was written: header, body and rest put together again are the record, byte for byte |
| DtlsFragment.AllMarkedIff | CardsGame/Pods/BoringSSL/ssl/d1_both.cc:235-259 | the scan over the bitmask (whole bytes, then the low bits of the last one) succeeds if and only if every byte of the message is covered |
| DtlsFragment.HmFragment.constructor | CardsGame/Pods/BoringSSL/ssl/d1_both.cc:156-208 | a new message holds its header in the buffer and covers nothing; an empty message is complete at once |
| DtlsFragment.HmFragment.Mark | CardsGame/Pods/BoringSSL/ssl/d1_both.cc:220-260 | adds exactly the marked range to the covered bytes; the bitmask shows exactly the covered bytes (bits above the length stay clear) and is dropped exactly when all are covered |
| DtlsFragment.HmFragment.MarkBits | CardsGame/Pods/BoringSSL/ssl/d1_both.cc:233-246 | the three cases of setting bits (same byte, first and last byte, the bytes between) together set exactly the range and no other bit |
| Bits.BitRangeAt | CardsGame/Pods/BoringSSL/ssl/d1_both.cc:212-214 | `bit_range` has exactly the bits from start to below end set |
| DtlsFragment.HmFragment.Add | CardsGame/Pods/BoringSSL/ssl/d1_both.cc:403-411 | copying a fragment in and marking it merges exactly its bytes into the message |
| DtlsFragment.HmFragment.CompleteIsRaw | CardsGame/Pods/BoringSSL/ssl/d1_both.cc:424-440 | the buffer of a complete message is its single-fragment form |
| DtlsRing.SlotIsOwn | CardsGame/Pods/BoringSSL/ssl/d1_both.cc:274-303 | wherever a fragment is accepted its slot holds the message of its own number, type and length, so the assertion on the number always holds |
| DtlsRing.EighthIsRefused | CardsGame/Pods/BoringSSL/ssl/d1_both.cc:394-407 | number seven behind the current one ends the connection although it passes the ignore test; greater or older ones are ignored; inside the window a free slot takes it |
| DtlsRing.FragmentOutcome | CardsGame/Pods/BoringSSL/ssl/d1_both.cc:375-411 | a fragment is an error if and only if it does not lie inside its message, the message is longer than allowed, in epoch 1 it is not of the current message, its number is seven behind the current one, or parts under its number with another type or length are held; otherwise it is merged into its slot if its number is one of the next seven, and nothing else changes |
| DtlsRing.FragmentByFragment | CardsGame/Pods/BoringSSL/ssl/d1_both.cc:375-421 | the fragments of a record are taken one after the other; the first bad one ends the connection and leaves what was taken before it |
| DtlsRing.AdvanceKeepsRing | CardsGame/Pods/BoringSSL/ssl/d1_both.cc:442-455 | releasing keeps the ring invariant, also where the 16-bit number wraps: all slots are then empty |
| DtlsIncoming.Incoming.GetIncomingMessage | CardsGame/Pods/BoringSSL/ssl/d1_both.cc:274-303 | gives the message in the slot of the number, or makes one there, or refuses when type or length differ or the number is not in the window |
| DtlsIncoming.Incoming.TakeFragment | CardsGame/Pods/BoringSSL/ssl/d1_both.cc:375-412 | one fragment changes the ring as the specification says: refused, ignored, or merged |
| DtlsIncoming.Incoming.ReadFragments | CardsGame/Pods/BoringSSL/ssl/d1_both.cc:375-412 | the loop over a record takes its fragments one after the other and stops at the first that is refused |
| DtlsIncoming.Incoming.ReadMessage | CardsGame/Pods/BoringSSL/ssl/d1_both.cc:305-422 | what a record does: handshake records go to the ring, ChangeCipherSpec is flagged only before encryption, application data is dropped only after it, anything else is an error |
| DtlsIncoming.Incoming.IsCurrentComplete | CardsGame/Pods/BoringSSL/ssl/d1_both.cc:264-268 | tells whether the message whose turn it is is complete |
| DtlsIncoming.Incoming.GetMessage | CardsGame/Pods/BoringSSL/ssl/d1_both.cc:424-440 | found exactly when the current message is complete, with its type, body and single-fragment form; it counts as being processed then |
| DtlsIncoming.Incoming.NextMessage | CardsGame/Pods/BoringSSL/ssl/d1_both.cc:442-455 | frees the slot of the current message, counts the number up modulo 65536, and marks a complete flight as answered |
| DtlsIncoming.Incoming.HasIncoming | CardsGame/Pods/BoringSSL/ssl/d1_both.cc:464-477 | true exactly when some slot other than the one being processed is in use |
| DtlsWindow.RecordIsExact | CardsGame/Pods/BoringSSL/ssl/dtls_record.cc:155-175 | recording a number adds exactly it to the set the bitmap stands for, whether or not the window slides, and however far |
| DtlsWindow.DiscardIff | CardsGame/Pods/BoringSSL/ssl/dtls_record.cc:140-150 | a number is discarded if and only if it was recorded, or 64 or more below the greatest one recorded |
| DtlsWindow.WindowRefinesSet | CardsGame/Pods/BoringSSL/ssl/dtls_record.cc:140-175 | after any sequence of numbers the test refines the set of numbers recorded |
| DtlsReadSide.ToU64BE | CardsGame/Pods/BoringSSL/ssl/dtls_record.cc:128-136 | the shift-and-or loop computes the big-endian number, below 2^64 |
| DtlsReadSide.ReadSide.ShouldDiscard | CardsGame/Pods/BoringSSL/ssl/dtls_record.cc:140-150 | computes the test on the 64-bit map |
| DtlsReadSide.ReadSide.RecordNumber | CardsGame/Pods/BoringSSL/ssl/dtls_record.cc:155-175 | shifts and sets the 64-bit map as specified |
| DtlsReadSide.ReadSide.OpenRecord | CardsGame/Pods/BoringSSL/ssl/dtls_record.cc:177-265 | the result, the bytes consumed and the new window are those of `OpenRecord`, of which the following say what is accepted, what is consumed and what comes out of a packet |
| DtlsOpen.AcceptedIff | CardsGame/Pods/BoringSSL/ssl/dtls_record.cc:177-265 | on the bytes of a packet: its first record is accepted if and only if thirteen bytes of header and a body of at most 16704 bytes are there, the version is acceptable (by its first byte 0xfe as long as there are no keys), the epoch is the read epoch, the 64-bit number is neither recorded nor 64 behind, and the body opens to at most 16384 bytes; a longer plaintext is the error |
| DtlsOpen.ParsedIsRecord | CardsGame/Pods/BoringSSL/ssl/dtls_record.cc:183-197 | what is parsed is what was written: header, body and rest put together again are the packet, byte for byte |
| DtlsOpen.RecordIsConsumed | CardsGame/Pods/BoringSSL/ssl/dtls_record.cc:183-251 | whatever the result, what is left behind a record of acceptable version and length is exactly what follows it; any other record takes the packet with it |
| DtlsOpen.NewIsAccepted | CardsGame/Pods/BoringSSL/ssl/dtls_record.cc:218-252 | a record sealed with the keys of the reader is accepted, as what was sealed, if and only if it is of its epoch and its number is new; the window then has it |
| DtlsOpen.PacketOpens | CardsGame/Pods/BoringSSL/ssl/d1_pkt.cc:131-203 | reading a packet to its end yields, in order, exactly type, number and plaintext of every record whose epoch is that of the reader and whose number is new when its turn comes; the window has exactly these numbers then |
| DtlsReadSide.ReadSide.GetRecord | CardsGame/Pods/BoringSSL/ssl/d1_pkt.cc:131-203 | the loop over what is left of a packet passes over what is discarded, stops at the first record that is accepted or too long, and leaves what follows it |
| DtlsArrive.PacketInTurn | CardsGame/Pods/BoringSSL/ssl/dtls_record.cc:287-344 | the records of a packet carry the next numbers of their two epochs, one after the other |
| DtlsArrive.PacketArrives | CardsGame/Pods/BoringSSL/ssl/d1_both.cc:739-780 | sender to receiver: whatever is packed at whatever MTU, a reader in one of the two epochs that is behind the counter of the writer takes every piece of its epoch out of the packet, in order and unchanged, and is behind again afterwards, so the next packet gets through as well |
| DtlsReadSide.ReadSide.SetReadState | CardsGame/Pods/BoringSSL/ssl/dtls_method.cc:85-100 | refused exactly if a message other than the one being processed, or a ChangeCipherSpec, is buffered; otherwise a new epoch with an empty window |
| DtlsRecord.ParseRecordBack | CardsGame/Pods/BoringSSL/ssl/dtls_record.cc:183-216 | a record that is written is parsed again, whatever follows it, unless it is longer than a record may be |
| DtlsRecord.RejectedChangesNothing | CardsGame/Pods/BoringSSL/ssl/dtls_record.cc:177-265 | a record that is not accepted leaves window and epoch as they were |
| DtlsRecord.AcceptedIsNew | CardsGame/Pods/BoringSSL/ssl/dtls_record.cc:218-252 | an accepted record is of the current epoch, its number was not recorded before, and is recorded now |
| DtlsRecord.NoReplay | CardsGame/Pods/BoringSSL/ssl/dtls_record.cc:218-265 | over any packets and key changes in any order, no (epoch, number) is accepted twice while there are fewer than 65536 key changes (section 4.1.2.6 of RFC 6347) |
| DtlsRecord.WrapAllowsReplay | CardsGame/Pods/BoringSSL/ssl/dtls_method.cc:85-100 | the bound is exact: after 65536 key changes the first record of a connection is accepted again |
| DtlsWriter.OpenUndoesSeal | CardsGame/Pods/BoringSSL/ssl/dtls_record.cc:287-344 | what is sealed is opened by a reader of the same epoch that has not seen its number: type, epoch and number, and plaintext come out, and the record fits the room |
| DtlsWriter.NoPairTwice | CardsGame/Pods/BoringSSL/ssl/dtls_record.cc:287-344 | over every interleaving of seals in the current and in the previous epoch and of key changes, with fewer than 65536 key changes: pairs of epoch and number are distinct if and only if no seal was made with a counter that had come around |
| DtlsWriter.UsesOwnEpoch | CardsGame/Pods/BoringSSL/ssl/d1_both.cc:650-657 | a message is sealed in its own epoch, with the keys and the next number of that epoch, if that is the present epoch or the one before; in no other case |
| DtlsWriter.SealsAreNoted | CardsGame/Pods/BoringSSL/ssl/dtls_record.cc:287-344 | the pairs spoken of are those of the records: whatever is handed out carries the pair noted for it, in the epoch asked for |
| DtlsWriteSide.IncrementCounts | CardsGame/Pods/BoringSSL/ssl/tls_record.cc:154-163 | counting up byte by byte adds one modulo 256^n |
| DtlsWriteSide.SequenceUpdate | CardsGame/Pods/BoringSSL/ssl/tls_record.cc:154-163 | counts up the bytes in place; fails exactly when the number has come around to zero |
| DtlsWriteSide.WriteSide.SealWith | CardsGame/Pods/BoringSSL/ssl/dtls_record.cc:307-344 | header, sealed body and count of one record under one set of keys, with its errors |
| DtlsWriteSide.WriteSide.SealRecord | CardsGame/Pods/BoringSSL/ssl/dtls_record.cc:287-344 | the record and the new counters are those of the specification, for both epochs |
| DtlsWriteSide.WriteSide.SetWriteState | CardsGame/Pods/BoringSSL/ssl/dtls_method.cc:102-112 | a new epoch, with its predecessor kept for retransmission and its counter at zero |
| DtlsFlight.FinishedIsWhole | CardsGame/Pods/BoringSSL/ssl/d1_both.cc:523-549 | a message that is finished is its single-fragment form: the length is written twice |
| DtlsFlight.ContentOfWhole | CardsGame/Pods/BoringSSL/ssl/d1_both.cc:655-670 | the sender parses a message of a flight back to its type, number and body |
| DtlsFlight.UsableIsWhole | CardsGame/Pods/BoringSSL/ssl/d1_both.cc:676-686 | what the sender accepts as a message is the single-fragment form of its type, number and body, and nothing else |
| DtlsFlight.ChainJoins | CardsGame/Pods/BoringSSL/ssl/d1_both.cc:644-780 | pieces that lead on from one position to the next one chain up across packets and interruptions |
| DtlsFlight.FlightIsTiled | CardsGame/Pods/BoringSSL/ssl/d1_both.cc:644-822 | pieces from the start of a flight to its end are all good pieces; the fragments of every message, put together, are its body without gap or overlap, and every ChangeCipherSpec is sent exactly once |
| DtlsPacket.AttemptIsNext | CardsGame/Pods/BoringSSL/ssl/d1_both.cc:644-734 | what is sealed at a position is the next piece of the flight: as long as the room allows, under the keys of the message's epoch |
| DtlsPacket.PacketCarriesOn | CardsGame/Pods/BoringSSL/ssl/d1_both.cc:739-780 | a packet is at most as long as its room, consists of sealed pieces that chain on from the old position to the new one, and is not empty when it succeeds |
| DtlsPacket.AttemptSucceedsIff | CardsGame/Pods/BoringSSL/ssl/d1_both.cc:672-734 | a whole message of the present epoch or the one before, whose keys are willing and whose counter is not at its end, makes progress if and only if the room holds a record header, the overhead of these keys, a fragment header and one byte; in less room nothing is done |
| DtlsPacket.MinMtuSuffices | CardsGame/Pods/BoringSSL/ssl/d1_both.cc:137-138 | the least MTU is room enough for a fragment if and only if the cipher adds no more than 202 bytes |
| DtlsPacket.PieceFillsRoom | CardsGame/Pods/BoringSSL/ssl/d1_both.cc:688-695 | a fragment holds all that is left of its message, or exactly as many bytes as fit behind the headers and the overhead |
| DtlsPacket.PacketIsFull | CardsGame/Pods/BoringSSL/ssl/d1_both.cc:739-780 | packets are filled: behind a packet the flight is at its end, or not even one byte of its next message would have fitted |
| DtlsPacket.PacketSucceeds | CardsGame/Pods/BoringSSL/ssl/d1_both.cc:739-780 | where every message from the position on can be sealed, no counter can be spent and the first one has room, a packet is made, and the same holds of the rest |
| DtlsPacket.FailedSealLosesPosition | CardsGame/Pods/BoringSSL/ssl/d1_both.cc:739-780 | when a packet fails, the position has moved on although nothing was sent, if and only if something could be sealed at the position: only a failed write restores it |
| DtlsPacket.PositionIsLost | CardsGame/Pods/BoringSSL/ssl/d1_both.cc:739-780 | a concrete flight, with the write counter two below its end: the packet fails, and its first message is passed over |
| DtlsSender.Sender.AddOutgoing | CardsGame/Pods/BoringSSL/ssl/d1_both.cc:555-594 | appends to the flight, or starts a new one after a completed flight; counts handshake messages and adds them to the transcript; fails with seven messages |
| DtlsSender.Sender.SealNextMessage | CardsGame/Pods/BoringSSL/ssl/d1_both.cc:644-734 | one attempt: result, record and new offset are those of `SealNextMessage`, of which the following say in which epoch it seals |
| DtlsKeyChange.SealedInOwnEpoch | CardsGame/Pods/BoringSSL/ssl/d1_both.cc:650-657 | what has been sealed carries the epoch of its message in its first two bytes, and is the next fragment sealed with the keys of that epoch: the present ones, or those before the last key change |
| DtlsKeyChange.OtherEpochsFail | CardsGame/Pods/BoringSSL/ssl/d1_both.cc:650-657 | a message of any other epoch is an error, and nothing is sealed |
| DtlsKeyChange.SpanningIsHealthy | CardsGame/Pods/BoringSSL/ssl/d1_both.cc:644-734 | a flight whose first messages were added before the last key change and the others after it can all be sealed, at every MTU from the minimum on, if the keys of both epochs are willing and add at most 202 bytes |
| DtlsKeyChange.SendLastFlight | CardsGame/Pods/BoringSSL/ssl/d1_both.cc:782-829 | the last flight of a handshake: a message and a ChangeCipherSpec under the old keys and a message under the new ones are sent completely over a transport that takes every packet, every record in the epoch of its message |
| DtlsSender.Sender.SealPiece | CardsGame/Pods/BoringSSL/ssl/d1_both.cc:688-733 | assembles the fragment with its header and seals it |
| DtlsSender.Sender.SealNextPacket | CardsGame/Pods/BoringSSL/ssl/d1_both.cc:739-780 | packs as the specification packs, and the packet is the concatenation of its records |
| DtlsSender.Sender.SendFlight | CardsGame/Pods/BoringSSL/ssl/d1_both.cc:782-822 | however the transport interrupts it, the packets accepted are tiled from the old position to the new one, each within the MTU; on success the position is the end of the flight; a refused packet is tried again from where it started; it succeeds when the transport takes every packet, all messages are of the present epoch or the one before with willing keys, and the MTU has room for each; then the transport has been flushed |
| DtlsSender.Sender.FlushFlight | CardsGame/Pods/BoringSSL/ssl/d1_both.cc:824-829 | the same from the present position, and the flight is complete |
| DtlsSender.Sender.Retransmit | CardsGame/Pods/BoringSSL/ssl/d1_both.cc:831-840 | the same from the start of the flight, at whatever MTU: on success all of it has been sent again |
| PbRoundTrip.RoundTrip | CardsGame/Pods/nanopb/pb_encode.c:451-473 | for every well-formed schema (required, optional, singular, packed and unpacked repeated, oneof, nested to any depth) and every message that fits it: encoding succeeds, and decoding the result succeeds, consumes all of it and gives the message back, with what is not sent at its default |
| PbRoundTrip.ReadInto | CardsGame/Pods/nanopb/pb_decode.c:852-953 | from whatever a struct holds and has room for: decoding the encoding of a message merges it in, at every depth; present scalars replace, required and has_ submessages keep what is not mentioned, arrays grow by the new items, a oneof becomes the new member from its defaults, and what is not sent stays |
| PbRoundTrip.ConcatenationMerges | CardsGame/Pods/nanopb/pb_decode.h:70-80 | the encodings of two messages, one behind the other, decode to the second merged into the first |
| PbRoundTrip.PackedArrayTrip | CardsGame/Pods/nanopb/pb_decode.c:374-396 | from any items that are there, a packed chunk adds its items behind them, as long as the sum fits the array |
| PbRoundTrip.PackedArrayOverflows | CardsGame/Pods/nanopb/pb_decode.c:374-396 | a packed chunk that there is no room for is an error |
| PbRoundTrip.ItemsTrip | CardsGame/Pods/nanopb/pb_decode.c:398-412 | so do items with tags of their own, also of a type that is packed by the encoder |
| PbRoundTrip.ItemOverflows | CardsGame/Pods/nanopb/pb_decode.c:398-412 | an item for which the array has no room is an error |
| PbFaithful.SameMessageIff | CardsGame/Pods/nanopb/pb_decode.c:955-967 | the very same message comes back if and only if everything that is not sent holds its default |
| PbFaithful.SingularIsSentIff | CardsGame/Pods/nanopb/pb_encode.c:205-269 | nothing is written for a field without has_ flag exactly if its number is zero, there are no bytes, or the string ends where it begins |
| PbFaithful.SingularComesBack | CardsGame/Pods/nanopb/pb_encode.c:205-269 | a field without has_ flag and without a default comes back as it was, zero or not; of a string, the part in front of its terminator |
| PbFaithful.AbsentComesBackDefault | CardsGame/Pods/nanopb/pb_decode.c:782-850 | an optional field that is off comes back as the default it points to, and as zero of the right length if it has none |
| PbFaithful.CarriedIff | CardsGame/Pods/nanopb/pb_encode.c:205-349 | which messages are carried: absent optional fields, zero singular fields and unused array entries hold their defaults, at every depth |
| PbFaithful.SingularWithDefaultIsLost | CardsGame/Pods/nanopb/pb_encode.c:205-267 | a concrete field without has_ flag whose default is five: zero is not sent, and five comes back |
| PbRoundTrip.ScalarTrip | CardsGame/Pods/nanopb/pb_decode.c:1165-1379 | every integer (narrowing included), fixed, bytes, string and fixed-length item is decoded from its encoding, whatever follows |
| PbRoundTrip.PackedTrip | CardsGame/Pods/nanopb/pb_decode.c:374-396 | a packed payload is decoded item by item to the items that were packed, behind those that are there; it is an error exactly if they do not fit |
| PbRoundTrip.UnionTrip | CardsGame/Pods/nanopb/pb_decode.c:415-424 | a oneof is read back as the member that was set |
| PbEncode.MessageSizeExact | CardsGame/Pods/nanopb/pb_encode.c:600-648 | the sizing pass counts exactly the bytes the writing pass writes and fails exactly when it does, at every depth |
| PbEncode.PackedFixedSize | CardsGame/Pods/nanopb/pb_encode.c:132-150 | a packed array of fixed-width items takes 4 or 8 bytes an item, as the multiplication has it |
| PbLimits.UnsignedFitsIff | CardsGame/Pods/nanopb/pb_decode.c:1202-1224 | an unsigned number is read if and only if it fits the width of its field |
| PbLimits.ZigZagFitsIff | CardsGame/Pods/nanopb/pb_decode.c:1226-1248 | a zigzag number is read if and only if it fits the width of its field |
| PbLimits.SignedIsRead | CardsGame/Pods/nanopb/pb_decode.c:1165-1200 | every plain signed number of 64 bits is read |
| PbLimits.ShortSignedFitsIff | CardsGame/Pods/nanopb/pb_decode.c:1165-1200 | of a plain signed number for a shorter field only the low 32 bits count, so that negative ones may be sent as 32-bit or as 64-bit numbers; it is read if and only if these fit the width of the field |
| PbLimits.BlobFitsIff | CardsGame/Pods/nanopb/pb_decode.c:1262-1379 | bytes are read if and only if there is room for them behind their count, a string if there is room for its terminator, fixed-length bytes if there are as many as there must be, or none, which means zeros |
| PbLimits.OddWidthsFail | CardsGame/Pods/nanopb/pb_decode.c:1165-1248 | integer fields of any other width than 1, 2, 4 or 8 bytes are refused by both sides |
| PbLimits.CutOffFails | CardsGame/Pods/nanopb/pb_decode.c:322-335 | a length that promises more bytes than there are is an error |
| PbLimits.TooLargeIsRefused | CardsGame/Pods/nanopb/pb_encode.c:116-133 | the encoder refuses bytes beyond their buffer, fixed-length bytes of another length, and arrays of more items than declared, and nothing else of these |
| PbLimits.StringEndsAtNul | CardsGame/Pods/nanopb/pb_encode.c:739-771 | what is sent of a string is all in front of its first NUL, or of the end of its buffer |
| PbLimits.SeenIffOccurs | CardsGame/Pods/nanopb/pb_decode.c:908-913 | a required field is marked if and only if its tag occurs |
| PbLimits.LateFieldsAreNotTracked | CardsGame/Pods/nanopb/pb_decode.c:908-913 | required fields beyond the sixty-fourth are never marked |
| PbLimits.DecodesIff | CardsGame/Pods/nanopb/pb_decode.c:905-953 | bytes decode if and only if the loop ends without an error and every required field occurs |
| PbMerge.Merge | CardsGame/Pods/nanopb/pb_decode.c:852-953 | decoding b1 followed by b2 is decoding b2 into the message b1 left; the required check is made once, over both parts |
| PbMerge.MergeComplete | CardsGame/Pods/nanopb/pb_decode.h:70-80 | two encodings that decode by themselves decode as one to the second merged into the first |
| PbMerge.LoopSplits | CardsGame/Pods/nanopb/pb_decode.c:859-917 | the loop over whole fields and then more is the loop over the rest from where they led |
| PbMerge.LoopAlike | CardsGame/Pods/nanopb/pb_decode.c:859-917 | neither the place of the iterator nor the fields seen earlier change what is decoded |
| PbMerge.UnknownFieldIsTransparent | CardsGame/Pods/nanopb/pb_decode.c:880-903 | a field of unknown tag and any wire type between whole fields changes nothing |
| PbMerge.SkipFieldLocal | CardsGame/Pods/nanopb/pb_decode.c:277-287 | skipping a field depends on nothing behind it |
| PbEnd.EndsBehindIff | CardsGame/Pods/nanopb/pb_decode.c:251-275 | behind whole fields the message is taken to have ended if and only if up to five bytes follow that all announce another one (none is the end itself; otherwise the key is cut off or too long, and nothing is left), or a key of zero follows |
| PbEnd.CutOffIff | CardsGame/Pods/nanopb/pb_decode.c:173-207 | a 32-bit varint fails with nothing left exactly on up to five bytes that all announce another one |
| PbEnd.ZeroKeyIff | CardsGame/Pods/nanopb/pb_decode.c:173-207 | exactly which bytes are read as a key of zero; of the fifth byte only four bits count |
| PbEnd.TruncationIsSilent | CardsGame/Pods/nanopb/pb_decode.c:859-878 | a message that is cut off in a key decodes like the whole fields in front of it |
| PbEnd.TruncatedKeys | CardsGame/Pods/nanopb/pb_decode.c:251-275 | one byte 0x80, and five of them, are an empty message; six are an error |
| PbEnd.TagZero | CardsGame/Pods/nanopb/pb_decode.c:860-903 | a key of tag zero with a wire type other than 0 is an error for a message type without fields, and a field of an unknown tag for any other one |
| PbOStream.OStream.OnBuffer | CardsGame/Pods/nanopb/pb_encode.c:74-89 | a stream on a buffer has room for as many bytes as said |
| PbOStream.OStream.Write | CardsGame/Pods/nanopb/pb_encode.c:91-109 | appends the bytes when they fit, otherwise fails and writes nothing; a sizing stream only counts |
| PbOStream.OStream.EncodeVarint | CardsGame/Pods/nanopb/pb_encode.c:494-514 | writes the base-128 groups of the number |
| PbOStream.OStream.VarintGroups | CardsGame/Pods/nanopb/pb_encode.c:503-511 | the loop that stores the groups and clears the last top bit yields the varint |
| PbOStream.OStream.EncodeTag | CardsGame/Pods/nanopb/pb_encode.c:553-557 | writes the key of tag and wire type |
| PbOStream.OStream.EncodeTagForField | CardsGame/Pods/nanopb/pb_encode.c:559-590 | writes the key with the wire type of the field, of which the following say what every reader finds |
| PbSkip.TaggedIsField | CardsGame/Pods/nanopb/pb_encode.c:559-590 | behind every encoded item any reader finds the tag and the wire type by the key (0 for varints, 1 for eight bytes, 5 for four bytes, 2 for what has a length in front), and passing over a field of that wire type ends exactly behind the item |
| PbSkip.PackedIsField | CardsGame/Pods/nanopb/pb_encode.c:126-196 | a packed array is one field with a length in front, whatever its items are |
| PbSkip.OldReader | CardsGame/Pods/nanopb/pb_decode.c:859-917 | a reader of the message type as it was before fields were added reads all it knows of an encoded message of the new type, and passes over exactly the fields it does not have |
| PbSkip.OtherWireTypesFail | CardsGame/Pods/nanopb/pb_decode.c:277-287 | a field of an unknown tag with any other wire type is an error |
| PbOStream.OStream.EncodeFixed | CardsGame/Pods/nanopb/pb_encode.c:527-551 | writes the low byte first, each by its own shift |
| PbOStream.OStream.EncodeString | CardsGame/Pods/nanopb/pb_encode.c:592-598 | writes the length and then the bytes |
| PbOStream.OStream.StringLength | CardsGame/Pods/nanopb/pb_encode.c:739-763 | finds the terminator, or the end of the buffer |
| PbOStream.OStream.EncodeBlob | CardsGame/Pods/nanopb/pb_encode.c:718-776 | bytes, strings and fixed-length bytes as specified, with their size checks |
| PbOStream.OStream.EncodeScalar | CardsGame/Pods/nanopb/pb_encode.c:652-776 | the encoder for every type of item other than submessages |
| PbOStream.OStream.EncodeArray | CardsGame/Pods/nanopb/pb_encode.c:116-201 | writes a packed array with its length in front or item by item with tags, and refuses more items than there is room for |
| PbOStream.OStream.PackedSize | CardsGame/Pods/nanopb/pb_encode.c:137-151 | sizes a packed array, fixed-width items by multiplication |
| PbOStream.OStream.EncodeItems | CardsGame/Pods/nanopb/pb_encode.c:176-196 | writes every item with its tag |
| PbOStream.OStream.EncodeField | CardsGame/Pods/nanopb/pb_encode.c:271-349 | what each kind of field writes: required always, optional by flag or by the zero test, repeated by count, oneof by which_ member |
| PbOStream.OStream.Encode | CardsGame/Pods/nanopb/pb_encode.c:451-473 | writes all fields in the order of the iterator, or fails where the specification fails |
| PbOStream.OStream.EncodeSubmessage | CardsGame/Pods/nanopb/pb_encode.c:600-648 | sizes, writes the size, and then writes exactly as many bytes; fails when they do not fit |
| PbOStream.OStream.WriteBody | CardsGame/Pods/nanopb/pb_encode.c:626-647 | the second pass succeeds and writes what the first one counted: the error for a changed size cannot occur |
| PbOStream.GetEncodedSize | CardsGame/Pods/nanopb/pb_encode.c:480-489 | gives the length of what encoding writes, and fails exactly when encoding fails |
| PbWire.Varint64RoundTrip | CardsGame/Pods/nanopb/pb_decode.c:209-229 | a 64-bit number is read back from its varint, whatever follows |
| PbWire.Varint32RoundTrip | CardsGame/Pods/nanopb/pb_decode.c:173-207 | a 32-bit number is read back from its varint, whatever follows |
| PbWire.Varint64Length | CardsGame/Pods/nanopb/pb_encode.c:494-514 | a varint takes at most ten bytes |
| PbWire.ZigZagRoundTrip | CardsGame/Pods/nanopb/pb_decode.c:1118-1130 | zigzag is undone for every 64-bit number |
| PbWire.FixedRoundTrip | CardsGame/Pods/nanopb/pb_decode.c:1132-1163 | fixed-width numbers are read back |
| PbIter.FieldIter.Begin | CardsGame/Pods/nanopb/pb_common.c:8-18 | starts at the first descriptor, whatever the iterator held |
| PbIter.FieldIter.Next | CardsGame/Pods/nanopb/pb_common.c:20-76 | advances by one descriptor, around the end; data pointer, size pointer and required index are those of a walk from the start |
| PbIter.FieldIter.FindTag | CardsGame/Pods/nanopb/pb_common.c:78-95 | finds the descriptor the specification finds, or comes back to where it was |
| PbIter.UnionMembersShareStorage | CardsGame/Pods/nanopb/pb_common.c:43-50 | all members of a oneof share one data address and one which_ address |
| PbIter.ContentsDoNotOverlap | CardsGame/Pods/nanopb/pb_common.c:20-75 | outside of unions the contents of the struct lie one behind the other: what a descriptor holds, with all items of an array, ends in front of what a later one holds |
| PbIter.ExtensionIsFirst | CardsGame/Pods/nanopb/pb_decode.c:749-762 | from any position, the first extension placeholder in the order of the iterator is found, whenever there is one |
| PbIter.FindSucceedsIff | CardsGame/Pods/nanopb/pb_common.c:78-95 | from any position, a search succeeds if and only if some descriptor that is not an extension has the tag |
| PbIter.FindIsPositionFree | CardsGame/Pods/nanopb/pb_common.c:78-95 | with unique tags the result does not depend on where the iterator was |
| PbSeen.MarkOne | CardsGame/Pods/nanopb/pb_decode.c:904-909 | or-ing one bit into the words adds one number to the set they stand for |
| PbSeen.BitmapTest | CardsGame/Pods/nanopb/pb_decode.c:919-950 | comparing whole words with ones and the last one with its low bits tests that every number below the count was seen |
| PbDecoder.CountRequired | CardsGame/Pods/nanopb/pb_decode.c:919-932 | walking the iterator to the end counts the required fields, the terminator left out |
| PbDecoder.AllSeen | CardsGame/Pods/nanopb/pb_decode.c:934-949 | the loop over the words and the last shift test that every required field was seen |
| PbDecoder.CheckRequired | CardsGame/Pods/nanopb/pb_decode.c:919-950 | passes exactly when every required field was seen, wherever the iterator stood |
| PbIStream.IStream.Read | CardsGame/Pods/nanopb/pb_decode.c:91-123 | takes the bytes and advances, or fails when there are too few |
| PbIStream.IStream.ReadByte | CardsGame/Pods/nanopb/pb_decode.c:127-143 | takes one byte, or fails at the end |
| PbIStream.IStream.DecodeVarint | CardsGame/Pods/nanopb/pb_decode.c:209-229 | reads what the specification reads, bits beyond 64 lost, more than ten bytes an error |
| PbIStream.IStream.DecodeVarint32 | CardsGame/Pods/nanopb/pb_decode.c:173-207 | the same for 32 bits: bits that do not fit are lost, and it is an error only if five groups do not end the number |
| PbIStream.IStream.SkipVarint | CardsGame/Pods/nanopb/pb_decode.c:231-240 | passes over bytes up to one without the top bit |
| PbIStream.IStream.SkipString | CardsGame/Pods/nanopb/pb_decode.c:242-249 | passes over a length and as many bytes |
| PbIStream.IStream.SkipField | CardsGame/Pods/nanopb/pb_decode.c:277-287 | passes over a field by its wire type |
| PbIStream.IStream.DecodeTag | CardsGame/Pods/nanopb/pb_decode.c:251-275 | a key, the end of the message (a zero key, or nothing left), or an error |
| PbIStream.IStream.MakeSubstream | CardsGame/Pods/nanopb/pb_decode.c:322-335 | splits the stream into payload and what follows it; fails when the payload is longer than the rest |
| PbIStream.IStream.CloseSubstream | CardsGame/Pods/nanopb/pb_decode.c:337-350 | goes on behind the payload, whatever of it was left unread |
| PbDecoder.DecodeInteger | CardsGame/Pods/nanopb/pb_decode.c:1165-1248 | integers of every width, with the overflow error exactly when narrowing changes the number |
| PbDecoder.DecodeFixed | CardsGame/Pods/nanopb/pb_decode.c:1132-1163 | fixed-width numbers, low byte first |
| PbDecoder.DecodeBlob | CardsGame/Pods/nanopb/pb_decode.c:1262-1379 | bytes, strings and fixed-length bytes with their size errors |
| PbDecoder.DecodeSubmessage | CardsGame/Pods/nanopb/pb_decode.c:1334-1356 | decodes the payload into the submessage; a repeated one starts from defaults, an optional one is merged |
| PbDecoder.DecodePackedItems | CardsGame/Pods/nanopb/pb_decode.c:374-396 | reads items until the payload is used up or the array is full, which is an error with something left |
| PbDecoder.DecodePacked | CardsGame/Pods/nanopb/pb_decode.c:374-396 | a packed array appends to what has arrived before |
| PbDecoder.DecodeField | CardsGame/Pods/nanopb/pb_decode.c:356-429 | every kind of static field as specified |
| PbDecoder.FindExtension | CardsGame/Pods/nanopb/pb_decode.c:749-760 | moves to the first extension placeholder, or stays |
| PbDecoder.DecodeTurn | CardsGame/Pods/nanopb/pb_decode.c:859-917 | one turn of the loop: end, unknown field, or known field with its bit noted |
| PbDecoder.DecodeFields | CardsGame/Pods/nanopb/pb_decode.c:859-917 | the whole loop as specified |
| PbDecoder.DecodeNoinit | CardsGame/Pods/nanopb/pb_decode.c:852-953 | decodes into what the struct holds and checks required fields |
| PbDecoder.SetToDefaults | CardsGame/Pods/nanopb/pb_decode.c:835-846 | sets every field to its default, whatever the struct held |
| PbDecoder.SetFieldToDefault | CardsGame/Pods/nanopb/pb_decode.c:763-830 | has_ flags, counts and which_ members are reset, and the content that is not repeated or in a oneof is initialized |
| PbDecoder.SetItemToDefault | CardsGame/Pods/nanopb/pb_decode.c:798-816 | a submessage gets its own defaults, anything else the default pointed to or zero |
| PbDecoder.Decode | CardsGame/Pods/nanopb/pb_decode.c:955-967 | defaults first, then decoding: the result and what is left of the stream are those of the specification |
| TlsOutput.ConservedSplicing | CardsGame/Pods/BoringSSL/ssl/s3_pkt.cc:300-340 | a record sealed behind the flight in the write buffer keeps the order of sealing |
| TlsOutput.Output.AddRecordToFlight | CardsGame/Pods/BoringSSL/ssl/s3_both.cc:135-165 | seals one record to the end of the flight, or leaves it as it is; nothing goes missing, and the order of sealing is kept |
| TlsOutput.Output.AddMessage | CardsGame/Pods/BoringSSL/ssl/s3_both.cc:184-205 | cuts a message into records of at most the greatest length, whose contents put together are the message, all sealed in order; when one is refused, those in front of it stay in the flight; order is kept |
| TlsOutput.Output.FlushBuffer | CardsGame/Pods/BoringSSL/ssl/ssl_buffer.cc:245-258 | writes out the buffer, however much the transport takes; it succeeds exactly if nothing is left; nothing goes missing, and order is kept |
| TlsOutput.Output.SendFlight | CardsGame/Pods/BoringSSL/ssl/s3_both.cc:253-265 | writes out the flight from its offset; it succeeds exactly if nothing is left of it; nothing goes missing, and order is kept |
| TlsOutput.Output.FlushFlight | CardsGame/Pods/BoringSSL/ssl/s3_both.cc:231-275 | buffer first, then the flight; on success the transport has all that was sealed, and has been flushed |
| TlsOutput.Output.WritePending | CardsGame/Pods/BoringSSL/ssl/s3_pkt.cc:260-276 | takes up a blocked record only with the same type, enough bytes and the same place (unless a moving buffer is accepted), and reports its length when it is out; then only the transport can hold it up |
| TlsOutput.Output.DoWrite | CardsGame/Pods/BoringSSL/ssl/s3_pkt.cc:279-346 | takes up a blocked record, or seals one behind the flight, exactly if nothing is in the way and the cipher does not refuse; the flight is lost exactly if the cipher refuses behind one, and then order is not kept and as many bytes are missing |
| TlsOutput.Output.SealBehindFlight | CardsGame/Pods/BoringSSL/ssl/s3_pkt.cc:300-340 | the record is sealed once and follows the rest of the flight in the buffer; when the cipher refuses, the flight is gone; order is kept if and only if that has not happened |
| TlsOutput.Output.DropFlight | CardsGame/Pods/BoringSSL/ssl/s3_pkt.cc:312-330 | the flight is gone, as many bytes are missing, and order is kept if and only if there was nothing left of it |
| TlsOutput.Output.Splice | CardsGame/Pods/BoringSSL/ssl/s3_pkt.cc:312-338 | moves the rest of the flight in front of the record |
| TlsOutput.Output.WriteAppData | CardsGame/Pods/BoringSSL/ssl/s3_pkt.cc:192-258 | over any blocked and resumed calls on the same bytes, also with more behind them: when it returns k > 0, the records sealed for this write carry exactly the first k bytes; all of them unless partial writes are allowed; order is lost exactly if a flight was dropped, which is a record that was refused; where none is refused and nothing is in the way only the transport can hold it up |
| TlsOutput.Output.WriteSome | CardsGame/Pods/BoringSSL/ssl/s3_pkt.cc:232-250 | one round of the loop: a record of at most the greatest length, or the rest of an earlier one, with what it does to order |
| TlsOutput.Output.DispatchAlert | CardsGame/Pods/BoringSSL/ssl/s3_pkt.cc:565-583 | seals the alert exactly if nothing is in the way and the cipher does not refuse, or takes up a blocked one; a blocked write of application data is not disturbed; order is lost exactly if a flight was dropped |
| TlsOutputRun.Run | CardsGame/Pods/BoringSSL/ssl/s3_pkt.cc:192-346 | over any adding of messages, flushing, writing and alerts, whatever the transport takes: transport, buffer and flight together are all that was sealed, in order, if and only if none of its bytes is missing; and where no record is refused, they are; as long as flight and record fit the buffer |
| TlsOutputRun.LostFlight | CardsGame/Pods/BoringSSL/ssl/s3_pkt.cc:312-330 | a concrete run: one byte of a flight, a refused record behind it, and the byte is nowhere |
| TlsBuffer.Buffer.Ensure | CardsGame/Pods/BoringSSL/ssl/ssl_buffer.cc:42-76 | a larger buffer keeps the contents |
| TlsBuffer.Buffer.Consume | CardsGame/Pods/BoringSSL/ssl/ssl_buffer.cc:78-85 | drops the bytes at the front: what is left is what the 16-bit offset selects, which is what was behind them unless the offset comes around before the end |
| TlsBuffer.Buffer.Init | CardsGame/Pods/BoringSSL/ssl/ssl_buffer.cc:221-234 | a new empty buffer of the asked capacity; refused while one is there or when it is too long |
| TlsBuffer.Buffer.SetLen | CardsGame/Pods/BoringSSL/ssl/ssl_buffer.cc:236-243 | sets the length, within the capacity |
| TlsBuffer.Buffer.Flush | CardsGame/Pods/BoringSSL/ssl/ssl_buffer.cc:245-258 | however much the transport takes at a time: what it got and what is left are what there was, as long as offset and length do not exceed 65536; in any case no byte is missing or too many; it succeeds exactly if nothing is left |
| TlsBuffer.KeptIff | CardsGame/Pods/BoringSSL/ssl/ssl_buffer.cc:78-85 | consuming keeps the rest, for every memory and every number of bytes, if and only if offset and length together are no more than 65536 |
| TlsBuffer.ConsumeFullBuffer | CardsGame/Pods/BoringSSL/ssl/ssl_buffer.cc:78-85 | a buffer of the greatest capacity: after a partial write the rest is what it was if and only if the memory was aligned so that the contents start at its first or second byte |
| TlsInput.FramingIsUnique | CardsGame/Pods/BoringSSL/ssl/s3_both.cc:504-529 | a byte string is cut into messages in one way only |
| TlsInput.MessageForm | CardsGame/Pods/BoringSSL/ssl/s3_both.cc:504-530 | a type, the length of a body below 2^24 in three bytes and that body are a message |
| TlsInput.MessageParts | CardsGame/Pods/BoringSSL/ssl/s3_both.cc:504-530 | and every message has that form |
| TlsInput.Input.ReleasedArePrefix | CardsGame/Pods/BoringSSL/ssl/s3_both.cc:504-601 | however records cut the messages of the peer, the messages released are the first of them, and the buffer never holds bytes beyond the current one |
| TlsInput.Input.ReadHandshakeBytes | CardsGame/Pods/BoringSSL/ssl/s3_pkt.cc:500-535 | takes at most the asked number of bytes from the current record or the next one that is not empty, and they are the next ones; it gets some exactly if there are handshake bytes before anything else |
| TlsInput.Input.ExtendHandshakeBuffer | CardsGame/Pods/BoringSSL/ssl/s3_both.cc:337-351 | reads up to the asked length and no further; it succeeds exactly if there are enough handshake bytes |
| TlsInput.Input.ParseMessage | CardsGame/Pods/BoringSSL/ssl/s3_both.cc:504-529 | the buffer is a whole message, or says how many bytes it needs |
| TlsInput.Input.GetMessage | CardsGame/Pods/BoringSSL/ssl/s3_both.cc:531-543 | found exactly when the buffer is one whole message |
| TlsInput.Input.ReadMessage | CardsGame/Pods/BoringSSL/ssl/s3_both.cc:545-578 | reads the header, or what the header says is missing; it succeeds exactly if the buffer holds no whole message, the length is within the limit, and the bytes are there |
| TlsInput.Input.NextMessage | CardsGame/Pods/BoringSSL/ssl/s3_both.cc:580-601 | releases the message; nothing of the next one was buffered |
| TlsInput.Input.TakeMessages | CardsGame/Pods/BoringSSL/ssl/s3_both.cc:504-601 | taking messages comes to an end, and then none can be read any more |
| TlsInput.Input.TakenAreAll | CardsGame/Pods/BoringSSL/ssl/s3_both.cc:504-601 | then exactly those messages have been released whose bytes have arrived, in whatever records; all of them when all bytes have arrived |
| TlsFraming.Receive | CardsGame/Pods/BoringSSL/ssl/s3_both.cc:504-601 | whatever handshake records carry some messages within the limit, and whenever they are read: exactly these messages come out, and nothing is left in the buffer |
| TlsFraming.CutsAreChunking | CardsGame/Pods/BoringSSL/ssl/s3_both.cc:184-195 | the chunks into which some messages are cut, in records of their own, carry exactly these messages |
| TlsFraming.AddMessages | CardsGame/Pods/BoringSSL/ssl/s3_both.cc:184-205 | what is sealed when some messages are added are records that carry them; it succeeds where no record is refused |
| TlsCipher.ChooseCipher | CardsGame/Pods/BoringSSL/ssl/handshake_server.cc:357-424 | the single pass gives what is meant for all lists and flags: the usable cipher of least place in the other list inside the first closed group that has a usable one, and nothing exactly if no closed group has one |
| TlsCipher.ChoiceIsDetermined | CardsGame/Pods/BoringSSL/ssl/handshake_server.cc:357-424 | what is meant is one result only, for all lists and flags |
| TlsCipher.UngroupedIsFirst | CardsGame/Pods/BoringSSL/ssl/handshake_server.cc:357-424 | without groups the choice is the first usable entry, and nothing only if none is usable |
| TlsCipher.NothingIffNoneUsable | CardsGame/Pods/BoringSSL/ssl/internal.h:1775-1808 | with the last group closed, nothing is chosen if and only if nothing is usable |
| TlsCipher.OpenGroupIsPassedOver | CardsGame/Pods/BoringSSL/ssl/handshake_server.cc:357-424 | a concrete list whose last group is not closed: its usable cipher is not chosen |
| TlsCipher.Choose | CardsGame/Pods/BoringSSL/ssl/handshake_server.cc:357-424 | in terms of the two lists: there is a choice if and only if some cipher of both is supported; with server preference it is what the client names first in the first group of the server that has such a cipher, without it the first one the client names that the server has |
| HsRun.TranscriptsAgree | CardsGame/Pods/BoringSSL/ssl/handshake.cc:372-421 | for every configuration and every order of turns in which no callback fails (they may be asked again any number of times): no side fails, one transcript is the beginning of the other, and every signature and Finished in them covers all before it |
| HsRun.DoneAgree | CardsGame/Pods/BoringSSL/ssl/handshake_client.cc:1658-1691 | when both sides are done they have the same transcript, the whole script for what was negotiated; both have read keys and a checked Finished; there is a client chain exactly if the server verifies peers in a full handshake with a certificate cipher and the client has one, and then it was verified and its signature checked |
| HsRun.NoDeadlock | CardsGame/Pods/BoringSSL/ssl/handshake.cc:423-545 | as long as one side is not done, one side can take a turn |
| HsRun.ClientLeadsOn | CardsGame/Pods/BoringSSL/ssl/handshake.cc:423-545 | every turn of the client that can be taken brings the end nearer |
| HsRun.ServerLeadsOn | CardsGame/Pods/BoringSSL/ssl/handshake.cc:423-545 | every turn of the server that can be taken brings the end nearer |
| HsRun.CanComplete | CardsGame/Pods/BoringSSL/ssl/handshake.cc:423-545 | from wherever a run without failures has got to, both sides can be brought to the end |
| HsRun.ClientKeeps | CardsGame/Pods/BoringSSL/ssl/handshake_client.cc:1693-1775 | a turn of the client keeps both sides in step with the script |
| HsRun.ServerKeeps | CardsGame/Pods/BoringSSL/ssl/handshake_server.cc:1537-1619 | a turn of the server keeps both sides in step with the script |
| HsClient.ClientControl | CardsGame/Pods/BoringSSL/ssl/handshake_client.cc:1693-1775 | against any peer and any outcomes: a client that is done has checked the server's Finished under its read keys; its ClientKeyExchange in a full certificate handshake comes after verifying the chain; the buffer it signs is there; signatures and MACs cover the whole transcript |
| HsServer.ServerControl | CardsGame/Pods/BoringSSL/ssl/handshake_server.cc:1537-1619 | against any peer and any outcomes: a server that is done has checked the client's Finished under its read keys; a client chain was verified and its CertificateVerify checked against the handshake buffer, which is there |
| HsClientChecks.TurnComesOut | CardsGame/Pods/BoringSSL/ssl/handshake_client.cc:427-1767 | for every state: the turn is refused if and only if its message is not to be expected there or what it consults (content, chain, signature, callback, primitive) comes out badly, and put off if and only if a callback wants to be asked again; a chain counts as verified, and a Finished as checked, by nothing else |
| HsServerChecks.TurnComesOut | CardsGame/Pods/BoringSSL/ssl/handshake_server.cc:426-1607 | for every state: the turn is refused if and only if its message is not to be expected there or what it consults comes out badly, and put off if and only if a callback wants to be asked again; chain, signature and Finished count as checked by nothing else |
| HsClientChecks.RefusalIsFinal | CardsGame/Pods/BoringSSL/ssl/handshake.cc:423-545 | over every run: once a turn has been refused the handshake has failed where it stood; whatever comes, nothing more is taken, hashed or sent, and the end is not reached |
| HsServerChecks.RefusalIsFinal | CardsGame/Pods/BoringSSL/ssl/handshake.cc:423-545 | over every run: once a turn has been refused the handshake has failed where it stood; whatever comes, nothing more is taken, hashed or sent, and the end is not reached |
| HsClientChecks.WrongItemIsFinal | CardsGame/Pods/BoringSSL/ssl/handshake.cc:439-468 | so does a ChangeCipherSpec in place of a message, or the other way around |
| HsServerChecks.WrongItemIsFinal | CardsGame/Pods/BoringSSL/ssl/handshake.cc:439-468 | so does a ChangeCipherSpec in place of a message, or the other way around |
| HsClientChecks.KeyExchangeMeansGoodChain | CardsGame/Pods/BoringSSL/ssl/handshake_client.cc:872-890 | over every run: if ClientKeyExchange is in the transcript of a full certificate handshake, at some turn the chain was verified and was found good |
| HsClientChecks.DoneMeansChecked | CardsGame/Pods/BoringSSL/ssl/handshake_client.cc:1693-1775 | over every run: a client that is done received, at some turn, the Finished over its own transcript, found the chain good at some turn of a full certificate handshake, and refused nothing |
| HsServerChecks.DoneMeansChecked | CardsGame/Pods/BoringSSL/ssl/handshake_server.cc:1537-1619 | over every run: a server that is done received, at some turn, the Finished over its own transcript; if there is a client chain it was found good, and so was a signature over the transcript as it stood then; nothing was refused |
| HsClient.TurnsLeadOn | CardsGame/Pods/BoringSSL/ssl/handshake_client.cc:1693-1775 | every turn increases a rank that depends on resumption, unless the handshake fails, a callback is asked again, or a message is missing |
| HsServer.TurnsLeadOn | CardsGame/Pods/BoringSSL/ssl/handshake_server.cc:1537-1619 | every turn increases a rank that depends on resumption, unless the handshake fails, a callback is asked again, or a message is missing |
| HsClientLoop.ClientHandshake.Loop | CardsGame/Pods/BoringSSL/ssl/handshake_client.cc:1693-1775 | the loop ends, done or waiting; what it did is a run of turns of the specification, it takes one message at most, and done means that the Finished was checked under read keys |
| HsServerLoop.ServerHandshake.Loop | CardsGame/Pods/BoringSSL/ssl/handshake_server.cc:1537-1619 | the loop ends, done or waiting; what it did is a run of turns of the specification, it takes one message at most, and done means that the Finished was checked under read keys |
| HsClientLoop.ClientHandshake.RunHandshake | CardsGame/Pods/BoringSSL/ssl/handshake.cc:423-545 | the loop ends; it returns done with everything checked at some turn of its run that had to be (Finished, chain) and nothing refused, or having failed, or to have a callback asked again, or waiting with nothing left of what arrived; what it took is the front of what arrived |
| HsServerLoop.ServerHandshake.RunHandshake | CardsGame/Pods/BoringSSL/ssl/handshake.cc:423-545 | the loop ends; it returns done with everything checked at some turn of its run that had to be (Finished, chain, client signature) and nothing refused, or having failed, or to have a callback asked again, or waiting with nothing left of what arrived; what it took is the front of what arrived |
| HsClientLoop.ClientHandshake.Resolve | CardsGame/Pods/BoringSSL/ssl/handshake.cc:426-520 | what is waited for is resolved as specified, and is part of the run; the end is nearer when it succeeds |
| HsServerLoop.ServerHandshake.Resolve | CardsGame/Pods/BoringSSL/ssl/handshake.cc:426-520 | what is waited for is resolved as specified, and is part of the run; the end is nearer when it succeeds |
| HsClientLoop.ClientHandshake.Switch | CardsGame/Pods/BoringSSL/ssl/handshake_client.cc:427-1767 | does one turn of the specification, with a method for every state that updates the object step by step |
| HsServerLoop.ServerHandshake.Switch | CardsGame/Pods/BoringSSL/ssl/handshake_server.cc:426-1607 | does one turn of the specification, with a method for every state that updates the object step by step |
| HsClientPlace.HelloSent | CardsGame/Pods/BoringSSL/ssl/handshake_client.cc:427-488 | the ClientHello is the first message, hashed and sent |
| HsClientPlace.HelloTaken | CardsGame/Pods/BoringSSL/ssl/handshake_client.cc:567-760 | the ServerHello is hashed once and taken, and what it negotiates is known |
| HsClientPlace.CertificateTaken | CardsGame/Pods/BoringSSL/ssl/handshake_client.cc:772-820 | the server's Certificate is hashed once and taken |
| HsClientPlace.CertificatePassed | CardsGame/Pods/BoringSSL/ssl/handshake_client.cc:772-778 | without certificate authentication none is waited for |
| HsClientPlace.StatusTaken | CardsGame/Pods/BoringSSL/ssl/handshake_client.cc:822-870 | the CertificateStatus is hashed once and taken |
| HsClientPlace.StatusPassed | CardsGame/Pods/BoringSSL/ssl/handshake_client.cc:830-838 | another message than CertificateStatus stays for the next state |
| HsClientPlace.ChainVerified | CardsGame/Pods/BoringSSL/ssl/handshake_client.cc:872-890 | verifies a chain where there is one |
| HsClientPlace.KeyExchangeTaken | CardsGame/Pods/BoringSSL/ssl/handshake_client.cc:892-1076 | the ServerKeyExchange is hashed once and taken |
| HsClientPlace.KeyExchangePassed | CardsGame/Pods/BoringSSL/ssl/handshake_client.cc:898-910 | without a ServerKeyExchange the message stays, when the cipher needs none |
| HsClientPlace.RequestTaken | CardsGame/Pods/BoringSSL/ssl/handshake_client.cc:1078-1148 | the CertificateRequest is hashed once and taken |
| HsClientPlace.RequestPassed | CardsGame/Pods/BoringSSL/ssl/handshake_client.cc:1092-1100 | a ServerHelloDone instead stays, and the buffer is freed |
| HsClientPlace.HelloDoneTaken | CardsGame/Pods/BoringSSL/ssl/handshake_client.cc:1150-1172 | the ServerHelloDone is hashed once and taken |
| HsClientPlace.CertificateSaid | CardsGame/Pods/BoringSSL/ssl/handshake_client.cc:1174-1220 | the client's Certificate, empty or not, follows if one was requested |
| HsClientPlace.KeySent | CardsGame/Pods/BoringSSL/ssl/handshake_client.cc:1225-1380 | the ClientKeyExchange follows |
| HsClientPlace.VerifySaid | CardsGame/Pods/BoringSSL/ssl/handshake_client.cc:1382-1464 | the CertificateVerify follows if there is a certificate, over the whole transcript |
| HsClientPlace.LastFlightSays | CardsGame/Pods/BoringSSL/ssl/handshake_client.cc:1466-1520 | ChangeCipherSpec, NextProto, ChannelID and Finished follow, each as negotiated, ChannelID and Finished over all before them |
| HsClientPlace.FlightGoesOn | CardsGame/Pods/BoringSSL/ssl/handshake_client.cc:1522-1548 | behind the flight of a full handshake the client goes on to the ticket |
| HsClientPlace.TicketTaken | CardsGame/Pods/BoringSSL/ssl/handshake_client.cc:1550-1631 | the NewSessionTicket is hashed once and taken when it is expected |
| HsClientPlace.TicketPassed | CardsGame/Pods/BoringSSL/ssl/handshake_client.cc:1550-1556 | without a ticket ChangeCipherSpec is awaited at once |
| HsClientPlace.CcsTaken | CardsGame/Pods/BoringSSL/ssl/handshake_client.cc:1633-1640 | the ChangeCipherSpec that was awaited comes at its place |
| HsClientPlace.LastFinishedTaken | CardsGame/Pods/BoringSSL/ssl/handshake_client.cc:1642-1656 | in a full handshake the server's Finished is over the client's transcript, and is hashed after the check |
| HsClientPlace.FirstFinishedTaken | CardsGame/Pods/BoringSSL/ssl/handshake_client.cc:1642-1656 | in a resumed handshake it comes first, and the client's flight follows |
| HsClientPlace.Expects | CardsGame/Pods/BoringSSL/ssl/handshake.cc:423-545 | a client that waits has a place of the server ahead of it: a message or ChangeCipherSpec, as it waits for |
| HsClientPlace.StepFollows | CardsGame/Pods/BoringSSL/ssl/handshake.cc:423-545 | every turn of the client follows the script |
| HsServerPlace.HelloKept | CardsGame/Pods/BoringSSL/ssl/handshake_server.cc:432-506 | the ClientHello is looked at and kept |
| HsServerPlace.HelloTakenAt | CardsGame/Pods/BoringSSL/ssl/handshake_server.cc:568-680 | the ClientHello is hashed once and taken when the parameters are selected |
| HsServerPlace.HelloSaid | CardsGame/Pods/BoringSSL/ssl/handshake_server.cc:682-740 | the ServerHello follows, and leads to the certificate or, resumed, to Finished |
| HsServerPlace.CertificatesStand | CardsGame/Pods/BoringSSL/ssl/handshake_server.cc:742-784 | Certificate and CertificateStatus follow as negotiated |
| HsServerPlace.KeyExchangeSent | CardsGame/Pods/BoringSSL/ssl/handshake_server.cc:830-901 | the ServerKeyExchange follows if the cipher needs one or there is a PSK hint |
| HsServerPlace.HelloDoneStands | CardsGame/Pods/BoringSSL/ssl/handshake_server.cc:903-936 | CertificateRequest, if a certificate is requested, and ServerHelloDone follow |
| HsServerPlace.ChainTaken | CardsGame/Pods/BoringSSL/ssl/handshake_server.cc:938-1029 | the client's Certificate is hashed once and taken; an empty one frees the buffer |
| HsServerPlace.ChainVerified | CardsGame/Pods/BoringSSL/ssl/handshake_server.cc:1031-1045 | verifies a client chain where there is one |
| HsServerPlace.KeyTaken | CardsGame/Pods/BoringSSL/ssl/handshake_server.cc:1047-1262 | the ClientKeyExchange is hashed once and taken |
| HsServerPlace.SignatureTaken | CardsGame/Pods/BoringSSL/ssl/handshake_server.cc:1264-1359 | the CertificateVerify is over the server's transcript, is checked against the buffer, and is hashed once |
| HsServerPlace.SignaturePassed | CardsGame/Pods/BoringSSL/ssl/handshake_server.cc:1264-1274 | without a client certificate none is waited for, and the buffer is freed |
| HsServerPlace.CcsTaken | CardsGame/Pods/BoringSSL/ssl/handshake_server.cc:1361-1364 | the ChangeCipherSpec that was awaited comes at its place |
| HsServerPlace.NextProtoTaken | CardsGame/Pods/BoringSSL/ssl/handshake_server.cc:1375-1410 | the NextProto message is hashed once and taken when negotiated |
| HsServerPlace.ChannelIdTaken | CardsGame/Pods/BoringSSL/ssl/handshake_server.cc:1412-1434 | the ChannelID message is over the server's transcript, is checked against it, and is hashed once |
| HsServerPlace.FirstFinishedTaken | CardsGame/Pods/BoringSSL/ssl/handshake_server.cc:1436-1458 | in a full handshake the client's Finished is over the server's transcript, and the server's flight follows |
| HsServerPlace.LastFinishedTaken | CardsGame/Pods/BoringSSL/ssl/handshake_server.cc:1436-1458 | in a resumed handshake it comes last |
| HsServerPlace.LastFlightSays | CardsGame/Pods/BoringSSL/ssl/handshake_server.cc:1460-1506 | the ticket, ChangeCipherSpec and Finished follow, the Finished over all before it |
| HsServerPlace.Expects | CardsGame/Pods/BoringSSL/ssl/handshake.cc:423-545 | a server that waits has a place of the client ahead of it: a message or ChangeCipherSpec, as it waits for |
| HsServerPlace.StepFollows | CardsGame/Pods/BoringSSL/ssl/handshake.cc:423-545 | every turn of the server follows the script |

## Left out

- The game itself (scenes, sensors, stored settings): user interface and platform calls.
- nanopb: callbacks, custom streams, registered extensions, pointer fields and their allocation, delimited messages. An extension placeholder is a descriptor that no tag matches.
- nanopb: a submessage without has_ flag (the zero test looks at raw struct bytes there), aliasing of struct memory and the bytes behind a terminator; messages are trees of values, and numbers of type size_t are unbounded but for the bounds written out.
- PbDecoder.Decode: does not model schemas whose number of required fields is a positive multiple of 32 or above 63, because the C code has no defined result for them.
- PbRoundTrip.RoundTrip: does not cover messages that the struct could not hold (`FitsMessage`), nor payloads of 2^32 bytes and more.
- PbSkip.OldReader: is about fields that stand behind the known ones in the descriptor array; one that stands between them is taken out by `PbMerge.UnknownFieldIsTransparent`.
- DTLS: timers, MTU discovery, alerts, HelloVerifyRequest, ChangeCipherSpec reordering between epochs beyond its flag, and the BIO; the transport accepts or refuses any packet, and the MTU is any number from the minimum on.
- DTLS and TLS: sealing and opening in place. Records are sequences of bytes, so overlapping buffers are not captured.
- DtlsWire.ReleasedIsPrefix: does not cover 65536 messages and more, because the 16-bit number then comes around, and says nothing about packets that were never sent (keeping those out is what ciphers are for).
- DtlsWire.Step: nothing is said of a connection that ends with an error; the steps go on, which allows more runs than there are.
- DtlsReadSide.ReadSide.OpenRecord: hands an alert on like any other record; what `ssl_process_alert` makes of it is left out.
- DtlsReadSide.ReadSide.GetRecord: works on the packet that is there; reading the next one, timeouts and a connection that was shut down are left out.
- DtlsArrive.PacketArrives: is about packets that arrive in the order they were sealed in; for other orders `DtlsOpen.PacketOpens` says what comes out.
- DtlsWriter.NoPairTwice: does not cover 65536 key changes and more, because the epoch comes around.
- TLS: reading application data, record splitting for CBC ciphers, early data, renegotiation, V2ClientHello, SSL 3.0.
- TlsOutput.Output.WriteAppData: says nothing of `data` that is changed between a blocked call and its repetition with a moving buffer allowed; the code cannot notice that.
- TlsOutputRun.Run: stops at a call for which flight and record might not fit the write buffer (`Room`), because the 16-bit offset may come around behind that.
- TLS handshakes: TLS 1.3, SSL 3.0, HelloVerifyRequest, session lookup and serialization, the contents of messages (parsing, key shares, extensions, signature algorithms) and alerts. How a message's content or a callback turns out is an input of each turn.
- HsServerPlace.ChannelIdTaken: in a resumed session the signature also covers a hash of the first handshake, which both sides hold; that hash is left out.
- TLS handshakes: flushing a flight is one step, as partial writes are the matter of `TlsOutput`; a transport that blocks is a call that comes later.
- HsRun.TranscriptsAgree: is about a channel that loses nothing and two sides that agree on what the ServerHello says.
- HsRun.CanComplete: does not cover callbacks that never come to an end.
- Cryptographic primitives, X.509, allocation failure and the error queue: a failure flag at most.
