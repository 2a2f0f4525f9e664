# Models of the BoringSSL transport and of nanopb

Dafny models of the C and C++ code vendored by this repository that carries handshake messages, records
and protocol buffers, with proofs of what that code promises. `dafny verify dfyconfig.toml` checks the
whole project.

Throughout, code that works by changing things in place is a class or a method on arrays and fields, and
its contract equates the new state with a function of the old one; the theorems are lemmas about those
functions and about every run made of them.

## The parts

**DTLS handshake transport.** `DtlsFragment` (wire form), `DtlsReassembly` (one message under reassembly:
data array and bitmask), `DtlsReceiver` (the ring of seven messages), `DtlsReplay` (the 64-entry window),
`Aead` (nonces and additional data), `DtlsRecord` and `DtlsRecordLayer` (records with current and previous
write epoch), `DtlsSender` (cutting, resuming and retransmitting a flight) and `DtlsTransport`, which puts
a sender, a set of datagrams that only grows and from which any may arrive at any time, and a receiver into
one state machine. `DtlsDelivery` says what each datagram carries and that a flight all of whose datagrams
arrive is handed up; `DtlsFlights` and `DtlsSignals` are about what the current flight is and about the
receiver's flags. The standard is RFC 6347, sections 4.1.2.6 and 4.2.2 to 4.2.6. Main results:
`DtlsTransport.DeliveredAreSent`, `TranscriptsAgree` and `OpenedInItsEpoch`;
`DtlsDelivery.ArrivedFlightHandedUp` and `DatagramsUnpack`; `DtlsReceiver.MessagesInOrder`,
`RecordIsItsPieces` and `PiecesGot`; `DtlsSender.CompletedFlightCarriesAll`, `SendableLosesNothing`,
`SendableIsSent` and `FlightFitsMtu`; `DtlsFlights.FlightSince`; `DtlsRecord.NoNonceReuse`,
`NoWirePairReuse`, `RunRepeatsExactly`, `NoReplayAccepted`, `DiscardsExactlyReplays`, `OpenOfSealedRecord`,
`AcceptedWasSealed` and `ForgedIsDropped`; `Aead.Aead.AdditionalDataInjective` and `OpensOnlySealed`;
`DtlsReplay.DiscardExact` and `RecordTracks`; `DtlsReassembly.HmFragment.Mark`.

**nanopb.** A descriptor is an inductive value and a struct a sequence of typed slots, of which the members
of a union share one. `PbWire` (scalars), `PbStream` (the stream objects and substreams), `PbTypes`
(descriptors, defaults, the field iterator), `PbEncode` and `PbDecode` (what is written and read, and the
code), `PbRoundTrip`, `PbMerge` (concatenation and unknown fields), `PbNested` (a field given twice), `PbKeys`
(what is in an encoding), `PbNumbers` (what a field makes of a number) and `PbStored` (what decoding leaves
in a struct). Main results: `PbRoundTrip.RoundTrip`; `PbEncode.EncodeStruct` and `EncodeToBuffer` (the two
passes agree at every depth); `PbMerge.DecodeConcat`, `UnknownsInserted` and `RequiredFieldsMet`;
`PbNested.EntriesMerge`, `LastOfUnion` and `EncodedIsUnknown`; `PbKeys.EncodingHolds`;
`PbStored.DecodedFits` and `DecodedEncodes`; `PbNumbers.SignedExact`; `PbTypes.FieldIter.Find`;
`PbWire.ReadOfVarint` and `Varint32Exact`.

**TLS streams.** `TlsBuffer` and `TlsWrite` (writing application data without blocking; main result
`TlsWrite.StreamIntact`, with `WriteKeepsIntact` saying exactly which retries keep it), `TlsWriteLimits`
(record sizes, the early-data limit, handshake octets and progress: `EarlyDataBounded`, `HandshakeConserved`,
`ClosedIsSilent`, `WriteWorks`) and `TlsMessages` (messages cut into records and put together again;
`RunConserves`, `MessagesRecovered`, `UnprocessedExact`).

**Handshake machines up to TLS 1.2.** `HandshakeClient` and `HandshakeServer` under the blocking driver of
`Handshake`. A run is any sequence of driver steps (blocked, record discarded, messages read, flush done,
callback answered) and of turns of the state loop, each with any outcome of the parsers, callbacks and
cryptography. Each step reports what it did; main results: `RunInPlace` (with `Handshake.OnceAndInOrder` and
`NeededBefore`), `FinishedInOrder`, `HandshakeClient.CheckedBeforeKeyExchange` and `FalseStartIsLate`,
`HandshakeServer.VerifiedExactlyWhenGiven`, `RankDrops`, `MessagesAccountedFor`, and the termination of both
loops in `Handshake` and `RunHandshake`. `HandshakeClientChecks` and `HandshakeServerChecks` tie the events to
what the steps went by: `EventEarned`, `FatalEnds`, and `Completes` (every combination of parameters has a run
that completes). `CipherChoice` is the server's choice of a cipher suite
(`ChooseCipher`).

**Reference counts.** `Refcount`: the locked version, and the compare-and-swap version as a state machine
over any number of threads (`Linearizes`, `Conserved`, `SaturatedForever`).

`Bits`, `Bytes` and `Wrappers` hold what several parts need: words as natural numbers with bitwise
operators, big-endian numbers, and an option type.

## What is taken as given

- An AEAD is a pair of functions. `Aead.Ideal` says opening inverts sealing under the same nonce and data,
  and that a cipher which authenticates the length has a fixed overhead; `Aead.OpensOnly` says that it opens
  nothing but what was sealed under its key. Results that need one of them say so.
- `tls_seal_record`, BIO writes and flushes, callbacks, certificate verification, random octets and the time
  at which the transport delivers are parameters or arbitrary choices, so every result holds for all of them.
- In `DtlsTransport` both ends agree on the key of each epoch, datagrams come from the sender (any of them,
  any number of times, in any order), and there are fewer than 2^16 messages and key changes. What hostile
  records can do is the subject of `DtlsReceiver.MessagesInOrder`, `DtlsRecord.NoReplayAccepted` and
  `ForgedIsDropped`, which allow any octets.
- Memory allocation succeeds.

## Where the code does not do what is said of it

Each of these is modelled as the code has it, with a lemma that gives the case, and the exact condition
where the promise holds.

- d1_both.cc:380-385 says fragments too far in the future are ignored. The test uses `>` where the ring's
  own test (line 268) uses `>=`, so a fragment exactly seven ahead is fatal: `DtlsReceiver.FragmentFatal`
  (if and only if), `SevenAheadIsFatal`.
- s3_pkt.cc:143-157 clears `wnum` before refusing a retry as too short, so after such a refusal octets
  already sealed are sealed again: `TlsWrite.WriteKeepsIntact` (if and only if), `ShortRetryRepeats`.
- d1_both.cc:782-827 restores the cursor after a failed transport write but not after a failed seal, which
  seal_next_packet reports after having moved it. The cursor is right if and only if the message that failed
  was the first of its packet: `DtlsSender.ResumableExactly`. `SealFailureSkips` is a flight that loses a
  message, under an MTU as large as SSL_set_mtu allows; `SealFailsExactly` says when a seal fails, and
  `SendableLosesNothing` gives conditions, to be checked beforehand, under which nothing is lost.
- A sequence counter that wraps (tls_record.cc:154-162) fails that one seal and stands at zero, so that
  sealing on under the key repeats its numbers: `DtlsRecord.RunRepeatsExactly` and `RepeatsExactlyAfterWrap`
  (if and only if), `WrappedMeans` (the counter stood at 2^48 - 1), `SealAfterWrapRepeats` (such a run).
- pb_decode.c:208-231 polices over-long 32-bit varints only in part: `PbWire.Varint32Exact` gives the set of
  64-bit values whose canonical encodings it accepts, and what it makes of them; `GapAccepted` is one that
  no 32-bit field should take.
- pb_decode.c:1308-1321 checks a signed field for overflow after casting the number to 32 bits if the field
  is narrower than 64: `PbNumbers.SentIsRead` (the number sent is the one read if and only if the field's width
  has it), `SignedExact` (what is read otherwise, or refused), `HighBitsLost` (2^32 is read as zero).
- dtls_record.cc:243-252 says a packet whose record does not open is dropped entirely; the code drops that
  record alone and goes on behind it: `DtlsRecord.TakesOneRecord`.

## Model

| member | source | states |
|---|---|---|
| `DtlsFragment.ParseFragment` | `ios/Pods/BoringSSL-GRPC/ssl/d1_both.cc:459-473` | a parsed header's fields fit their widths, the body has the announced length, and what is left is shorter than the record |
| `DtlsFragment.ParseOfWrite` | `ios/Pods/BoringSSL-GRPC/ssl/d1_both.cc:459-473` | parsing undoes writing a header and body, whatever follows in the record |
| `DtlsFragment.WriteOfParse` | `ios/Pods/BoringSSL-GRPC/ssl/d1_both.cc:459-473` | whatever parses is the writing of what it parsed to, so a fragment has one wire form |
| `DtlsReassembly.BitRangeBits` | `ios/Pods/BoringSSL-GRPC/ssl/d1_both.cc:203-205` | bit i of bit_range(start, end) is set exactly for start <= i < end, and the result is an octet |
| `DtlsReassembly.HmFragment.constructor` | `ios/Pods/BoringSSL-GRPC/ssl/d1_both.cc:152-199` | a new message holds its unfragmented header and nothing received; an empty message needs no bitmask |
| `DtlsReassembly.OrOctet` | `ios/Pods/BoringSSL-GRPC/ssl/d1_both.cc:226-235` | or-ing a bit range into one octet sets exactly those bits and touches no other octet |
| `DtlsReassembly.SetRange` | `ios/Pods/BoringSSL-GRPC/ssl/d1_both.cc:226-236` | the three-part update sets exactly the bits of [start, end), at any offset and length, and nothing else |
| `DtlsReassembly.IsFull` | `ios/Pods/BoringSSL-GRPC/ssl/d1_both.cc:238-247` | the completeness scan says yes exactly when every octet of the message has been received |
| `DtlsReassembly.TailFull` | `ios/Pods/BoringSSL-GRPC/ssl/d1_both.cc:244-247` | the comparison of the last, partial octet decides exactly whether its offsets have all been received |
| `DtlsReassembly.HmFragment.Mark` | `ios/Pods/BoringSSL-GRPC/ssl/d1_both.cc:211-251` | the bitmask holds the union of the ranges marked so far, and is released exactly when that union covers the message; a call on a complete message changes nothing |
| `DtlsReassembly.HmFragment.AddBody` | `ios/Pods/BoringSSL-GRPC/ssl/d1_both.cc:393-402` | a fragment's bytes are added at its offset, those received before and outside it kept; a complete message's array stays as it is |
| `DtlsReassembly.HmFragment.CompleteRaw` | `ios/Pods/BoringSSL-GRPC/ssl/d1_both.cc:152-199` | once complete, the array is the message as a single fragment: header with offset 0 and full length, then the body |
| `DtlsReceiver.ReceiveFragmentKeepsRing` | `ios/Pods/BoringSSL-GRPC/ssl/d1_both.cc:265-295` | taking a fragment keeps every occupied slot i at a number congruent to i modulo 7 and less than 7 ahead of the counter |
| `DtlsReceiver.ReceiveFragmentsKeepsRing` | `ios/Pods/BoringSSL-GRPC/ssl/d1_both.cc:350-405` | so does a whole handshake record of any octets whatever, with errors half way through it; the counter does not move |
| `DtlsReceiver.OpenHandshakeKeepsRing` | `ios/Pods/BoringSSL-GRPC/ssl/d1_both.cc:297-406` | so does a record of any content type |
| `DtlsReceiver.NextMessageKeepsRing` | `ios/Pods/BoringSSL-GRPC/ssl/d1_both.cc:426-438` | so does handing a message up; when the 16-bit counter wraps, the ring is empty afterwards |
| `DtlsReceiver.FragmentsKeepComplete` | `ios/Pods/BoringSSL-GRPC/ssl/d1_both.cc:350-405` | a handshake record of any octets leaves a complete message under the counter complete, and neither moves the counter nor changes whether a message is shown |
| `DtlsReceiver.OpenKeepsComplete` | `ios/Pods/BoringSSL-GRPC/ssl/d1_both.cc:297-406` | so does a record of any content type |
| `DtlsReceiver.OtherRecords` | `ios/Pods/BoringSSL-GRPC/ssl/d1_both.cc:308-345` | a record that is no handshake record changes nothing but the ChangeCipherSpec flag; which of them succeed, and which are discarded |
| `DtlsReceiver.RecordSplits` | `ios/Pods/BoringSSL-GRPC/ssl/d1_both.cc:352-361` | any octets are, in one way, the writings of some fragments and then a tail that does not parse, empty or not |
| `DtlsReceiver.RecordIsItsPieces` | `ios/Pods/BoringSSL-GRPC/ssl/d1_both.cc:352-405` | a handshake record opened as a whole ends in the state and with the result of opening its fragments as records of their own; if none is refused, a tail that does not parse is the decode error |
| `DtlsReceiver.PiecesGot` | `ios/Pods/BoringSSL-GRPC/ssl/d1_both.cc:352-405` | when no fragment of a record is refused, what is held of each message the ring reaches is what was held before and what the fragments hold of it, exactly |
| `DtlsReceiver.RecordHeld` | `ios/Pods/BoringSSL-GRPC/ssl/d1_both.cc:352-405` | so a record of any number of fragments, none refused, opens with success and each fragment is held afterwards in its message's slot |
| `DtlsReceiver.SetReadStateKeepsRing` | `ios/Pods/BoringSSL-GRPC/ssl/dtls_method.cc:81-95` | a read-key change, which is refused while data is left over, keeps the ring invariant |
| `DtlsSignals.CcsConserved` | `ios/Pods/BoringSSL-GRPC/ssl/d1_both.cc:475-490` | over every run, each ChangeCipherSpec that came in while none was waiting has been granted once or is the one waiting |
| `DtlsSignals.GrantedWhen` | `ios/Pods/BoringSSL-GRPC/ssl/d1_both.cc:475-490` | asking for one succeeds if and only if one was waiting or the record is one, and leaves none waiting |
| `DtlsSignals.ReplyExact` | `ios/Pods/BoringSSL-GRPC/ssl/d1_both.cc:426-438` | over every run, the endpoint's own flight counts as answered if and only if a message was taken since it was complete |
| `DtlsReceiver.StepKeepsRun` | `ios/Pods/BoringSSL-GRPC/ssl/d1_both.cc:297-490` | each step (a record of any type and octets, a ChangeCipherSpec asked for, a message shown or taken, a read-key change) keeps what holds in every run |
| `DtlsReceiver.MessagesInOrder` | `ios/Pods/BoringSSL-GRPC/ssl/d1_both.cc:297-438` | in every run from a fresh connection, hostile records and counter wraparounds included: the ring invariant holds (in epoch 1 no message ahead of the counter is in it), the k-th message handed up is whole, of an allowed length, and has number k modulo 2^16, a message shown stays complete until taken, and a ChangeCipherSpec is pending only before the first key change |
| `DtlsReceiver.FragmentFatal` | `ios/Pods/BoringSSL-GRPC/ssl/d1_both.cc:265-295` | exactly which fragments are fatal, in bounds or not and in any epoch, and with which of the three alerts |
| `DtlsReceiver.SevenAheadIsFatal` | `ios/Pods/BoringSSL-GRPC/ssl/d1_both.cc:380-382` | the smallest fragment that the comment says is ignored and the code refuses |
| `DtlsReceiver.Ring.Insert` | `ios/Pods/BoringSSL-GRPC/ssl/d1_both.cc:275-284` | a new message goes into its own, empty slot; the others are untouched |
| `DtlsReceiver.Ring.Add` | `ios/Pods/BoringSSL-GRPC/ssl/d1_both.cc:393-402` | a fragment's bytes go into one slot's message; the other slots are untouched |
| `DtlsReceiver.Ring.Clear` | `ios/Pods/BoringSSL-GRPC/ssl/d1_both.cc:426-438` | clearing a slot leaves the other slots as they were |
| `DtlsReceiver.Receiver.Receive` | `ios/Pods/BoringSSL-GRPC/ssl/d1_both.cc:362-402` | one round of the loop: bounds, epoch-1 order, range check, slot lookup and the header comparison, with each error as the code reports it |
| `DtlsReceiver.Receiver.Open` | `ios/Pods/BoringSSL-GRPC/ssl/d1_both.cc:297-406` | the opened record is dispatched on its content type; application data, ChangeCipherSpec, handshake fragments and everything else as the code treats them |
| `DtlsReceiver.Receiver.GetMessage` | `ios/Pods/BoringSSL-GRPC/ssl/d1_both.cc:408-424` | a message is handed up exactly when the one under the counter is complete, and is then its single-fragment form |
| `DtlsReceiver.Receiver.Next` | `ios/Pods/BoringSSL-GRPC/ssl/d1_both.cc:426-438` | the slot is emptied, the 16-bit counter stepped, and a reply to a completed flight noted |
| `DtlsReceiver.Receiver.ExpectCcs` | `ios/Pods/BoringSSL-GRPC/ssl/d1_both.cc:475-490` | a record is opened only if no ChangeCipherSpec has been seen, a seen one is used up, and anything else taken is a discard |
| `DtlsReceiver.Receiver.Unprocessed` | `ios/Pods/BoringSSL-GRPC/ssl/d1_both.cc:440-457` | unprocessed data means a pending ChangeCipherSpec or any slot in use but that of the message already handed up |
| `DtlsReceiver.Receiver.ChangeCipher` | `ios/Pods/BoringSSL-GRPC/ssl/dtls_method.cc:81-95` | the read epoch changes only when no handshake data is left over, and wraps at 16 bits |
| `DtlsReplay.ToU64` | `ios/Pods/BoringSSL-GRPC/ssl/dtls_record.cc:128-136` | the shift-and-or loop gives the big-endian value of eight octets |
| `DtlsReplay.DiscardExact` | `ios/Pods/BoringSSL-GRPC/ssl/dtls_record.cc:140-150` | a number is discarded exactly when it was accepted before or is at least 64 below the largest accepted; no fresh newer number is |
| `DtlsReplay.RecordTracks` | `ios/Pods/BoringSSL-GRPC/ssl/dtls_record.cc:155-175` | recording adds exactly that number: bit i of the map stays set exactly when max - i was accepted |
| `DtlsReplay.RecordBit` | `ios/Pods/BoringSSL-GRPC/ssl/dtls_record.cc:155-175` | the map after recording, bit by bit, whether the window slides, slides past everything, or stays |
| `DtlsReplay.Bitmap.Discards` | `ios/Pods/BoringSSL-GRPC/ssl/dtls_record.cc:140-150` | the code's test on the eight octets of the record is the test on their value |
| `DtlsReplay.Bitmap.Accept` | `ios/Pods/BoringSSL-GRPC/ssl/dtls_record.cc:155-175` | the update in place of map and max_seq_num |
| `DtlsReplay.Bitmap.Reset` | `ios/Pods/BoringSSL-GRPC/ssl/dtls_method.cc:86-89` | a read-key change empties the window |
| `Aead.Create` | `ios/Pods/BoringSSL-GRPC/ssl/ssl_aead_ctx.cc:57-149` | a created layout is consistent: an xor-ed nonce has room for its eight octets and nothing random, an AES-GCM one is a fixed prefix plus eight explicit counter octets that fill the nonce |
| `Aead.CreatedData` | `ios/Pods/BoringSSL-GRPC/ssl/ssl_aead_ctx.cc:57-149` | what the additional data is for each kind of cipher and version: none in TLS 1.3, all thirteen octets for an AEAD before that, no length for a stateful cipher, and in SSL 3.0 no version either |
| `Aead.Aead.AdditionalDataOctets` | `ios/Pods/BoringSSL-GRPC/ssl/ssl_aead_ctx.cc:203-223` | the octets: eight of sequence number, the type, then the version and the length, big-endian, each unless it is left out |
| `Aead.Aead.AdditionalDataInjective` | `ios/Pods/BoringSSL-GRPC/ssl/ssl_aead_ctx.cc:203-223` | equal data means equal sequence number and type, and equal version and length where they are in it |
| `Aead.Aead.OpensOnlySealed` | `ios/Pods/BoringSSL-GRPC/ssl/ssl_aead_ctx.cc:225-294` | with an AEAD that opens only what was sealed under that nonce and data, what opens is what some call of Seal made, of the same sequence number, type and version |
| `Aead.Aead.OpenOfSeal` | `ios/Pods/BoringSSL-GRPC/ssl/ssl_aead_ctx.cc:203-294` | Open rebuilds the nonce and additional data of Seal, so for an ideal AEAD it returns the sealed plaintext, for every layout |
| `Aead.Aead.SealLength` | `ios/Pods/BoringSSL-GRPC/ssl/ssl_aead_ctx.cc:296-405` | sealing writes the length announced by ExplicitNonceLen and SuffixLen, within max_out, and cannot fail for want of room when MaxOverhead is left |
| `Aead.Aead.NonceInjective` | `ios/Pods/BoringSSL-GRPC/ssl/ssl_aead_ctx.cc:250-284` | distinct variable parts give distinct nonces under one key, prefixed or xor-ed |
| `Aead.XorBytesInjective` | `ios/Pods/BoringSSL-GRPC/ssl/ssl_aead_ctx.cc:278-284` | xor with a fixed mask loses nothing |
| `Aead.XorInPlace` | `ios/Pods/BoringSSL-GRPC/ssl/ssl_aead_ctx.cc:278-284` | the in-place loop is octet-wise xor with the fixed nonce |
| `Aead.AssembleNonce` | `ios/Pods/BoringSSL-GRPC/ssl/ssl_aead_ctx.cc:250-284` | the buffer as filled by fixed part or zeros, variable part and xor is the nonce of the specification |
| `Aead.SealRecordBody` | `ios/Pods/BoringSSL-GRPC/ssl/ssl_aead_ctx.cc:296-405` | the code of SealScatter and Seal: length checks, choice of the variable nonce, explicit part, ciphertext |
| `Aead.OpenRecordBody` | `ios/Pods/BoringSSL-GRPC/ssl/ssl_aead_ctx.cc:225-294` | the code of Open: null cipher, overhead check, recovery of the variable nonce, additional data |
| `DtlsRecordLayer.SequenceUpdate` | `ios/Pods/BoringSSL-GRPC/ssl/tls_record.cc:154-162` | the carry loop steps a big-endian number by one, leaves the octets before it alone, and reports failure exactly when it wraps to zero |
| `DtlsRecord.SealKeepsInv` | `ios/Pods/BoringSSL-GRPC/ssl/dtls_record.cc:294-351` | sealing changes counters only: epoch and keys stay, and the counters stay within six octets |
| `DtlsRecord.WriteNextKeepsUsed` | `ios/Pods/BoringSSL-GRPC/ssl/dtls_record.cc:294-351` | each seal takes a number ahead of every number used under its key, through key changes and retransmissions in the previous epoch |
| `DtlsRecord.NoNonceReuse` | `ios/Pods/BoringSSL-GRPC/ssl/dtls_record.cc:294-351` | in every run two records sealed under one key whose counter has not wrapped have different sequence numbers and, for counter layouts, different nonces, however current- and previous-epoch records interleave |
| `DtlsRecord.NoWirePairReuse` | `ios/Pods/BoringSSL-GRPC/ssl/dtls_record.cc:294-351` | with no wraparound and fewer than 2^16 key changes no two sealed records carry the same epoch and sequence number |
| `DtlsRecord.WrappedMeans` | `ios/Pods/BoringSSL-GRPC/ssl/tls_record.cc:154-162` | a key counts as wrapped if and only if an earlier step sealed under it with its counter at 2^48 - 1 |
| `DtlsRecord.RepeatsExactlyAfterWrap` | `ios/Pods/BoringSSL-GRPC/ssl/dtls_record.cc:294-351` | in every run whose records stay below 2^16 octets, a successful seal repeats a number of its key if and only if that key's counter has wrapped |
| `DtlsRecord.RunRepeatsExactly` | `ios/Pods/BoringSSL-GRPC/ssl/dtls_record.cc:294-351` | so such a run uses a number twice under one key if and only if some step of it seals under a key whose counter has wrapped |
| `DtlsRecord.SealAfterWrapRepeats` | `ios/Pods/BoringSSL-GRPC/ssl/dtls_record.cc:330-335` | a run that does it: after 2^48 seals, the last of which failed, no number has been used twice, and the next seal uses one again |
| `DtlsRecord.EpochOfWireSeq` | `ios/Pods/BoringSSL-GRPC/ssl/dtls_record.cc:225-227` | the epoch is the high part of the 64-bit number the window works on |
| `DtlsRecord.ReadNextKeepsAccepted` | `ios/Pods/BoringSSL-GRPC/ssl/dtls_record.cc:177-272` | a datagram of any octets, or a key change, keeps: no number accepted twice, and the window exact for the current epoch |
| `DtlsRecord.NoReplayAccepted` | `ios/Pods/BoringSSL-GRPC/ssl/dtls_record.cc:177-272` | over every run with fewer than 2^16 read-key changes and any datagrams, no epoch and sequence number is accepted twice |
| `DtlsRecord.DiscardsExactlyReplays` | `ios/Pods/BoringSSL-GRPC/ssl/dtls_record.cc:225-234` | at any moment of such a run a number of the current epoch is dropped as a replay exactly when it was accepted before or is at least 64 below the largest accepted |
| `DtlsRecord.ParseRecord` | `ios/Pods/BoringSSL-GRPC/ssl/dtls_record.cc:190-205` | a parsed record lies within the datagram |
| `DtlsRecord.ParseOfRecordBytes` | `ios/Pods/BoringSSL-GRPC/ssl/dtls_record.cc:190-205` | a written record is parsed back from the front of any datagram |
| `DtlsRecord.OpenOfSealedRecord` | `ios/Pods/BoringSSL-GRPC/ssl/dtls_record.cc:177-272` | the peer opens a sealed record to the plaintext that was sealed, unless the window has its number or has moved 64 past it |
| `DtlsRecord.SealedOpens` | `ios/Pods/BoringSSL-GRPC/ssl/dtls_record.cc:294-351` | what the header of a sealed record encloses opens to the payload under the key, version and number in it, and is no longer than payload plus overhead |
| `DtlsRecord.RecordOfParse` | `ios/Pods/BoringSSL-GRPC/ssl/dtls_record.cc:190-205` | what parses is the writing of the record it parsed to, and what follows it |
| `DtlsRecord.AcceptedInClear` | `ios/Pods/BoringSSL-GRPC/ssl/dtls_record.cc:207-272` | under the null cipher, a record is accepted if and only if it parses, is DTLS, of the current epoch, not refused by the window and not too long |
| `DtlsRecord.AcceptedWasSealed` | `ios/Pods/BoringSSL-GRPC/ssl/dtls_record.cc:177-272` | with such a cipher a record is accepted only if it stands at the front of the datagram as a call of Seal made it, of the current epoch and fresh, and yields that call's plaintext |
| `DtlsRecord.ForgedIsDropped` | `ios/Pods/BoringSSL-GRPC/ssl/dtls_record.cc:177-272` | a datagram whose front no call of Seal made is dropped without error, in part or whole, and changes nothing, the window included |
| `DtlsRecord.TakesOneRecord` | `ios/Pods/BoringSSL-GRPC/ssl/dtls_record.cc:225-252` | a record of a fitting version takes exactly itself off the datagram, whatever becomes of it, and what becomes of it does not depend on what follows |
| `DtlsRecord.UnfitTakesAll` | `ios/Pods/BoringSSL-GRPC/ssl/dtls_record.cc:190-220` | a record cut short takes all there is of it, and one of another version the whole datagram, without error or trace |
| `DtlsRecordLayer.Writer.Seal` | `ios/Pods/BoringSSL-GRPC/ssl/dtls_record.cc:294-351` | the code on byte arrays acts as the specification, for both epochs; on a failed seal the counter it leaves is the specification's |
| `DtlsRecordLayer.Writer.Step` | `ios/Pods/BoringSSL-GRPC/ssl/dtls_record.cc:330-334` | only the chosen epoch's sequence array is stepped |
| `DtlsRecordLayer.Writer.ChangeKey` | `ios/Pods/BoringSSL-GRPC/ssl/dtls_method.cc:97-107` | the current key and counter become the previous ones and the new key starts at zero |
| `DtlsRecordLayer.Reader.Open` | `ios/Pods/BoringSSL-GRPC/ssl/dtls_record.cc:177-272` | the code acts as the specification on every datagram; only an accepted record changes the window |
| `DtlsRecordLayer.Reader.ChangeKey` | `ios/Pods/BoringSSL-GRPC/ssl/dtls_method.cc:81-95` | the epoch is stepped at 16 bits, the window emptied, the key replaced |
| `DtlsSender.FinishMessage` | `ios/Pods/BoringSSL-GRPC/ssl/d1_both.cc:525-537` | the fragment length is copied over the total length, in place; shorter input is refused unchanged |
| `DtlsSender.FinishedIsRaw` | `ios/Pods/BoringSSL-GRPC/ssl/d1_both.cc:511-537` | so a finished message is exactly the single-fragment form both transcripts hash |
| `DtlsSender.ParseQueued` | `ios/Pods/BoringSSL-GRPC/ssl/d1_both.cc:679-691` | a queued message that seal_next_message accepts is one whole message with nothing after it |
| `DtlsSender.PlanSteps` | `ios/Pods/BoringSSL-GRPC/ssl/d1_both.cc:644-734` | what is planned starts at the cursor, makes progress and stays in the message; a partial one leaves the cursor strictly inside |
| `DtlsSender.SealMessageSteps` | `ios/Pods/BoringSSL-GRPC/ssl/d1_both.cc:644-734` | one sealed message is one step of the cursor, without gap or overlap |
| `DtlsSender.PacketWalks` | `ios/Pods/BoringSSL-GRPC/ssl/d1_both.cc:739-780` | the records of a packet walk the cursor from where it was to where it is, and nothing but counters and the cursor changes |
| `DtlsSender.PacketAdvances` | `ios/Pods/BoringSSL-GRPC/ssl/d1_both.cc:739-780` | each packet goes strictly further: fewer messages left, or as many and fewer octets of the current one; this is why send_flight ends |
| `DtlsSender.FlightWalks` | `ios/Pods/BoringSSL-GRPC/ssl/d1_both.cc:782-827` | what one call puts on the wire walks the cursor without gap or overlap, and unless sealing failed the cursor is left where the next call must resume |
| `DtlsSender.ResumableExactly` | `ios/Pods/BoringSSL-GRPC/ssl/d1_both.cc:782-827` | after a failed seal the cursor stands where what was sent ends if and only if the message that failed was the first of its packet |
| `DtlsSender.SealFailsExactly` | `ios/Pods/BoringSSL-GRPC/ssl/dtls_record.cc:294-351` | with room for it, sealing a record fails if and only if the counter stands at 2^48 - 1 or the record's length would not fit 16 bits |
| `DtlsSender.SealFailureSkips` | `ios/Pods/BoringSSL-GRPC/ssl/d1_both.cc:782-827` | the rollback covers transport failures only: a two-message flight under a large MTU whose second message fails to seal, so that the cursor stays past a first one that never left |
| `DtlsSender.SendableLosesNothing` | `ios/Pods/BoringSSL-GRPC/ssl/d1_both.cc:782-827` | when each message left parses and has the current or previous epoch, no record can reach 2^16 octets and numbers enough are left, the cursor is always left where sending must resume, sealing fails only for want of room in an empty packet, and with room for one octet it does not fail |
| `DtlsSender.ResumeWalks` | `ios/Pods/BoringSSL-GRPC/ssl/d1_both.cc:782-827` | the same over any number of calls, each with its own MTU and transport failures |
| `DtlsSender.WalkCarries` | `ios/Pods/BoringSSL-GRPC/ssl/d1_both.cc:644-734` | records that walk between two places carry exactly the octets between them |
| `DtlsSender.CompletedFlightCarriesAll` | `ios/Pods/BoringSSL-GRPC/ssl/d1_both.cc:782-845` | a flight begun at its start carries, when it completes, each message body once, in order and without gap, over any failures, resumptions and MTUs |
| `DtlsSender.RetransmissionCarriesAll` | `ios/Pods/BoringSSL-GRPC/ssl/d1_both.cc:836-845` | a retransmission, however far the flight had got, walks from the first message and carries every body again |
| `DtlsSender.TransportToBlame` | `ios/Pods/BoringSSL-GRPC/ssl/d1_both.cc:782-827` | a call fails for the transport's sake only if a write or the flush failed |
| `DtlsSender.SendableIsSent` | `ios/Pods/BoringSSL-GRPC/ssl/d1_both.cc:782-827` | over a transport that works, one call sends a flight that meets the conditions beforehand to its end |
| `DtlsFlights.FlightSince` | `ios/Pods/BoringSSL-GRPC/ssl/d1_both.cc:555-594` | in every run of the transport the queue holds exactly what was queued since the flight began, which is at the first message after a flush or when an answered handshake is done; it counts as complete if and only if flushed since, as answered if and only if an answer came after that |
| `DtlsSender.FlightFitsMtu` | `ios/Pods/BoringSSL-GRPC/ssl/d1_both.cc:782-827` | every datagram handed to the transport fits the MTU and is not empty |
| `DtlsSender.Sender.ClearOutgoing` | `ios/Pods/BoringSSL-GRPC/ssl/d1_both.cc:500-509` | the flight, both cursors and the flight flags are reset; the message counter is not |
| `DtlsSender.Sender.Add` | `ios/Pods/BoringSSL-GRPC/ssl/d1_both.cc:555-594` | a completed flight is dropped first, an eighth message or one over 32 bits is refused, and only messages step the 16-bit counter |
| `DtlsSender.Sender.NextFragment` | `ios/Pods/BoringSSL-GRPC/ssl/d1_both.cc:650-713` | what to seal next: room checks, the parse of the queued message, and the fragment at the cursor as long as the room allows |
| `DtlsSender.Sender.SealNextMessage` | `ios/Pods/BoringSSL-GRPC/ssl/d1_both.cc:644-734` | the code of seal_next_message acts as the specification |
| `DtlsSender.Sender.SealNextPacket` | `ios/Pods/BoringSSL-GRPC/ssl/d1_both.cc:739-780` | the loop of seal_next_packet appends each record to the packet as the specification does, its three ways out included; what the packet then carries is `DtlsDelivery.PacketCarries` |
| `DtlsSender.Sender.SendFlightNow` | `ios/Pods/BoringSSL-GRPC/ssl/d1_both.cc:782-827` | so does send_flight, with the cursor restored after a failed write |
| `DtlsSender.Sender.Flush` | `ios/Pods/BoringSSL-GRPC/ssl/d1_both.cc:829-834` | flushing marks the flight complete and sends on from the cursor |
| `DtlsSender.Sender.Retransmit` | `ios/Pods/BoringSSL-GRPC/ssl/d1_both.cc:836-845` | retransmission starts the flight over |
| `DtlsTransport.SealedRecOk` | `ios/Pods/BoringSSL-GRPC/ssl/dtls_record.cc:294-351` | a sealed record opens, under the agreed key of the epoch it names, to what the sender meant |
| `DtlsTransport.SealedRecFor` | `ios/Pods/BoringSSL-GRPC/ssl/dtls_record.cc:294-351` | a sealed record has the type and epoch of what was to be sealed and opens to exactly it |
| `DtlsTransport.FlightOk` | `ios/Pods/BoringSSL-GRPC/ssl/d1_both.cc:782-827` | every datagram a flight hands to the network is a sequence of such records |
| `DtlsTransport.OpenOk` | `ios/Pods/BoringSSL-GRPC/ssl/dtls_record.cc:177-272` | opening the front of such a datagram yields only what the sender meant and leaves such a datagram |
| `DtlsTransport.FragmentKeepsRing` | `ios/Pods/BoringSSL-GRPC/ssl/d1_both.cc:297-406` | a genuine fragment adds to its slot only octets of the message it belongs to |
| `DtlsTransport.CurrentIsNextSent` | `ios/Pods/BoringSSL-GRPC/ssl/d1_both.cc:408-424` | the message handed up is the queued message whose turn it is, octet for octet |
| `DtlsTransport.StepKeepsInv` | `ios/Pods/BoringSSL-GRPC/ssl/d1_both.cc:297-438` | every step of sender, network and receiver keeps all of this |
| `DtlsTransport.DeliveredAreSent` | `ios/Pods/BoringSSL-GRPC/ssl/d1_both.cc:408-424` | for every flight, MTU, transport failure, retransmission and key change, and every dropping, duplicating and reordering network: message k handed up is the array the sender queued as number k, in order and once |
| `DtlsTransport.OpenedInItsEpoch` | `ios/Pods/BoringSSL-GRPC/ssl/d1_both.cc:644-734` | in every run, what is opened under an epoch's key is part of a message queued in that epoch |
| `DtlsTransport.TranscriptsAgree` | `ios/Pods/BoringSSL-GRPC/ssl/d1_both.cc:596-598` | what the receiver's transcript hashed is a prefix of what the sender's did |
| `DtlsTransport.CoveringPartsComplete` | `ios/Pods/BoringSSL-GRPC/ssl/d1_both.cc:297-406` | fragments that together cover the message under the counter complete it, in any order, with overlaps and repetitions, whatever came before |
| `DtlsDelivery.PacketCarries` | `ios/Pods/BoringSSL-GRPC/ssl/d1_both.cc:739-780` | a packet is one record for each planned one, in order, and no other octets |
| `DtlsDelivery.FlightCarries` | `ios/Pods/BoringSSL-GRPC/ssl/d1_both.cc:782-827` | so is each datagram that one call hands to the transport |
| `DtlsDelivery.ResumeCarries` | `ios/Pods/BoringSSL-GRPC/ssl/d1_both.cc:782-827` | and each of any number of calls |
| `DtlsDelivery.UnpackFlatten` | `ios/Pods/BoringSSL-GRPC/ssl/dtls_record.cc:190-205` | records written one after the other are found again by parsing from the front if and only if none is longer than a reader takes |
| `DtlsDelivery.DatagramsUnpack` | `ios/Pods/BoringSSL-GRPC/ssl/d1_both.cc:739-827` | so each datagram no longer than such a record comes apart into exactly as many records as were sealed into it, with no rest; the i-th has the type and epoch of the i-th sealed and opens to its payload under that epoch's key |
| `DtlsDelivery.DatagramIsRecs` | `ios/Pods/BoringSSL-GRPC/ssl/dtls_record.cc:177-272` | opening a datagram record by record gives what its records give, whatever becomes of the ones in front |
| `DtlsDelivery.FreshOpened` | `ios/Pods/BoringSSL-GRPC/ssl/dtls_record.cc:177-272` | a genuine record of the reader's epoch, neither accepted before nor 64 behind, is opened once it comes, whatever comes before it |
| `DtlsDelivery.FlightOpened` | `ios/Pods/BoringSSL-GRPC/ssl/d1_both.cc:782-827` | so every record a flight sealed in the reader's epoch is opened |
| `DtlsDelivery.WholeHandedUp` | `ios/Pods/BoringSSL-GRPC/ssl/d1_both.cc:408-438` | messages that are whole in the ring come up one after the other, each as it was queued |
| `DtlsDelivery.ArrivedFlightHandedUp` | `ios/Pods/BoringSSL-GRPC/ssl/d1_both.cc:297-438` | from the datagrams on, through replay window and epochs: once every datagram of a completed flight has arrived, in any order, with repetitions and other genuine ones in between, nothing opened was refused and the receiver's next messages come up in turn as queued |
| `PbWire.ReadOfVarint` | `ios/Pods/nanopb/pb_decode.c:250-270` | decoding undoes encoding for every 64-bit value, and leaves what follows |
| `PbWire.VarintFitsBuffer` | `ios/Pods/nanopb/pb_encode.c:574-594` | a 64-bit value takes at most the ten octets of the code's buffer |
| `PbWire.Varint32Exact` | `ios/Pods/nanopb/pb_decode.c:182-242` | the 32-bit reader on every canonical encoding of a 64-bit value: exactly which it accepts, and as what |
| `PbWire.Varint32Ranges` | `ios/Pods/nanopb/pb_decode.c:182-242` | v itself below 2^32, failure from 2^32 up to 2^63, v modulo 2^32 from 2^64 - 2^31 up |
| `PbWire.GapAccepted` | `ios/Pods/nanopb/pb_decode.c:208-231` | 0x8000000080000000, which neither fits in 32 bits nor extends a negative value, is accepted as 0x80000000 |
| `PbWire.ZigZagInverse` | `ios/Pods/nanopb/pb_encode.c:596-605` | the two ZigZag mappings are inverse on all 64-bit values, and keep small magnitudes small |
| `PbWire.ReadOfFixed` | `ios/Pods/nanopb/pb_decode.c:1254-1286` | little-endian integers are read back |
| `PbStream.WroteThen` | `ios/Pods/nanopb/pb_encode.c:101-119` | two writers in a row have together written the two outputs, or failed exactly when together they do not fit |
| `PbStream.VarintOctets` | `ios/Pods/nanopb/pb_encode.c:574-594` | the loop that sets and at last clears continuation bits gives the canonical encoding |
| `PbStream.FixedOctets` | `ios/Pods/nanopb/pb_encode.c:607-632` | the shifts and masks give the little-endian octets |
| `PbStream.OStream.Write` | `ios/Pods/nanopb/pb_encode.c:101-119` | succeeds exactly when the octets fit, writes exactly them, nothing outside the limit |
| `PbStream.OStream.WriteSize` | `ios/Pods/nanopb/pb_encode.c:101-119` | without a buffer only the count moves |
| `PbStream.OStream.EncodeVarint` | `ios/Pods/nanopb/pb_encode.c:574-594` | writes the canonical encoding, on either kind of stream |
| `PbStream.OStream.EncodeSvarint` | `ios/Pods/nanopb/pb_encode.c:596-605` | writes the ZigZag encoding |
| `PbStream.OStream.EncodeFixed` | `ios/Pods/nanopb/pb_encode.c:607-632` | writes the little-endian octets |
| `PbStream.OStream.EncodeString` | `ios/Pods/nanopb/pb_encode.c:674-680` | writes a length and the octets |
| `PbStream.IStream.ReadByte` | `ios/Pods/nanopb/pb_decode.c:136-152` | takes the next octet, or fails and moves nothing |
| `PbStream.IStream.Read` | `ios/Pods/nanopb/pb_decode.c:100-132` | takes exactly count octets, or fails and moves nothing |
| `PbStream.IStream.DecodeVarint` | `ios/Pods/nanopb/pb_decode.c:250-270` | gives what the specification reads; the position advances by exactly the drop in bytes_left |
| `PbStream.IStream.DecodeVarint32` | `ios/Pods/nanopb/pb_decode.c:182-242` | the same for the 32-bit loop with its 8-bit position counter, and the end-of-stream flag |
| `PbStream.IStream.DecodeFixed` | `ios/Pods/nanopb/pb_decode.c:1254-1286` | the same for fixed-width integers |
| `PbStream.IStream.DecodeSvarint` | `ios/Pods/nanopb/pb_decode.c:1240-1252` | the same for ZigZag integers |
| `PbStream.IStream.MakeSubstream` | `ios/Pods/nanopb/pb_decode.c:367-380` | the substream reads exactly the announced region, and the parent's remaining octets are those after it |
| `PbStream.IStream.CloseSubstream` | `ios/Pods/nanopb/pb_decode.c:382-395` | however much of the region the inner reader consumed, the parent resumes just past it |
| `PbTypes.SharedSlot` | `ios/Pods/nanopb/pb_common.c:44-50` | only members of one union share storage |
| `PbTypes.StorageDisjoint` | `ios/Pods/nanopb/pb_common.c:20-76` | fields in different slots do not overlap in the struct |
| `PbTypes.RequiredOnto` | `ios/Pods/nanopb/pb_common.c:20-76` | every number below the count is that of a required field |
| `PbTypes.FieldIter.Begin` | `ios/Pods/nanopb/pb_common.c:8-18` | the iterator starts at the first field; false for the empty type |
| `PbTypes.FieldIter.Next` | `ios/Pods/nanopb/pb_common.c:20-76` | data pointer, size pointer and required index stay what a fresh walk to that position computes; false on wrapping around |
| `PbTypes.FieldIter.Find` | `ios/Pods/nanopb/pb_common.c:78-95` | from any start it succeeds exactly when some field has the tag, and otherwise comes back to where it was |
| `PbTypes.SetToDefaults` | `ios/Pods/nanopb/pb_decode.c:812-895` | walks the struct and leaves every slot at its default |
| `PbTypes.DefaultAt` | `ios/Pods/nanopb/pb_decode.c:812-882` | the slot of every field starts at that field's default, the members of a union together |
| `PbEncode.EncodeScalar` | `ios/Pods/nanopb/pb_encode.c:734-808` | varint, unsigned, ZigZag and fixed fields, with the size check |
| `PbEncode.TerminatedPrefix` | `ios/Pods/nanopb/pb_encode.c:831-855` | the loop finds the characters before the terminator |
| `PbEncode.CheckDefault` | `ios/Pods/nanopb/pb_encode.c:215-303` | whether a value counts as unset, submessages field by field |
| `PbEncode.CheckSlotDefault` | `ios/Pods/nanopb/pb_encode.c:215-303` | the same for a field of any rule |
| `PbEncode.EncodeValueTo` | `ios/Pods/nanopb/pb_encode.c:810-868` | the field encoders write exactly the value's encoding or fail for the reasons they have |
| `PbEncode.EncodeLimited` | `ios/Pods/nanopb/pb_encode.c:705-729` | the second pass on a limited sub-stream writes exactly the size found |
| `PbEncode.EncodeSubmessage` | `ios/Pods/nanopb/pb_encode.c:682-730` | length and contents at any depth of nesting; the two passes always agree, so the size never changes between them |
| `PbEncode.EncodeKeyed` | `ios/Pods/nanopb/pb_encode.c:641-672` | key, then value |
| `PbEncode.PackedSize` | `ios/Pods/nanopb/pb_encode.c:145-165` | the size of a packed array, computed or found by sizing, is that of its contents |
| `PbEncode.EncodePacked` | `ios/Pods/nanopb/pb_encode.c:139-181` | the packed branch, on both kinds of stream |
| `PbEncode.EncodeKeyedItems` | `ios/Pods/nanopb/pb_encode.c:182-208` | the unpacked branch, one key for each item |
| `PbEncode.EncodeArrayTo` | `ios/Pods/nanopb/pb_encode.c:126-211` | an empty array writes nothing, one over its bound is refused |
| `PbEncode.EncodeFieldTo` | `ios/Pods/nanopb/pb_encode.c:307-392` | each rule decides whether there is anything to write |
| `PbEncode.EncodeStruct` | `ios/Pods/nanopb/pb_encode.c:494-516` | succeeds exactly when the message can be encoded and fits, and has then written exactly that encoding and touched nothing else |
| `PbEncode.GetEncodedSize` | `ios/Pods/nanopb/pb_encode.c:533-542` | the sizing pass gives exactly the length of the encoding |
| `PbEncode.EncodeToBuffer` | `ios/Pods/nanopb/pb_encode.c:494-516` | so encoding into a buffer succeeds exactly when the sizing pass does and the size fits |
| `PbDecode.DecodeScalar` | `ios/Pods/nanopb/pb_decode.c:1289-1389` | reads a scalar and narrows it to the field's width with the overflow check |
| `PbDecode.SkipVarintOn` | `ios/Pods/nanopb/pb_decode.c:273-282` | skips a varint of any length, or fails at the end of the stream |
| `PbDecode.SkipField` | `ios/Pods/nanopb/pb_decode.c:316-326` | skips a value of any known wire type; others fail |
| `PbDecode.DecodeBlob` | `ios/Pods/nanopb/pb_decode.c:1391-1508` | bytes, strings and fixed-length bytes with their bounds |
| `PbDecode.DecodePackedArray` | `ios/Pods/nanopb/pb_decode.c:420-448` | appends the packed items up to the array's size and ends after the region |
| `PbDecode.CheckRequired` | `ios/Pods/nanopb/pb_decode.c:1006-1046` | the word-by-word comparison of fields_seen passes exactly when every required field among the first 64 has been seen |
| `PbDecode.CountRequired` | `ios/Pods/nanopb/pb_decode.c:1008-1022` | walking to the end gives the number of required fields |
| `PbDecode.DecodeSubmessage` | `ios/Pods/nanopb/pb_decode.c:1463-1485` | a submessage is decoded from its region alone, into what the field holds or into defaults |
| `PbDecode.DecodeValueOn` | `ios/Pods/nanopb/pb_decode.c:401-413` | the dispatch to the field decoders |
| `PbDecode.DecodeFieldOn` | `ios/Pods/nanopb/pb_decode.c:401-475` | required, optional, repeated (packed and not) and union fields; the count never passes the array's size on success |
| `PbDecode.DecodeKnown` | `ios/Pods/nanopb/pb_decode.c:988-996` | decode a field the descriptor has and mark it when required |
| `PbDecode.DecodeLoopOn` | `ios/Pods/nanopb/pb_decode.c:917-997` | the loop ends on every byte string, at the end or at a zero tag, with the struct, the octets left and the fields seen of the specification |
| `PbDecode.DecodeNoInitOn` | `ios/Pods/nanopb/pb_decode.c:901-1049` | pb_decode_noinit |
| `PbDecode.DecodeOn` | `ios/Pods/nanopb/pb_decode.c:1051-1063` | pb_decode: from defaults |
| `PbDecode.DecodeDelimited` | `ios/Pods/nanopb/pb_decode.c:1080-1093` | the stream ends up just past the announced region however much of it the message used |
| `PbRoundTrip.ScalarReads` | `ios/Pods/nanopb/pb_decode.c:1289-1389` | every scalar field decodes to the value encoded |
| `PbRoundTrip.ValueReads` | `ios/Pods/nanopb/pb_decode.c:1391-1485` | so does every value, submessages at any depth |
| `PbRoundTrip.FieldReads` | `ios/Pods/nanopb/pb_encode.c:307-392` | decoding what one field was encoded to brings the struct one field further and disturbs no other |
| `PbRoundTrip.RoundTrip` | `ios/Pods/nanopb/pb_decode.c:1051-1063` | pb_decode after pb_encode gives back every well-formed message (nested, repeated, packed, union, bytes, strings, absent fields at their defaults) and consumes exactly what was written |
| `PbMerge.FieldStable` | `ios/Pods/nanopb/pb_decode.c:401-475` | a field decoder that succeeds does not look past what it reads |
| `PbMerge.LoopConcat` | `ios/Pods/nanopb/pb_decode.c:919-997` | after the first part the loop goes on with the second from the struct and fields seen so far |
| `PbMerge.DecodeConcat` | `ios/Pods/nanopb/pb_decode.c:901-1049` | decoding two parts one after the other into a struct equals decoding their concatenation |
| `PbMerge.UnknownInserted` | `ios/Pods/nanopb/pb_decode.c:933-962` | an unknown field inserted between two top-level fields changes nothing |
| `PbMerge.UnknownsInserted` | `ios/Pods/nanopb/pb_decode.c:933-962` | nor do any number of them |
| `PbMerge.SeenWereMet` | `ios/Pods/nanopb/pb_decode.c:988-993` | the bit of a required field is set exactly when its key was met |
| `PbMerge.RequiredFieldsMet` | `ios/Pods/nanopb/pb_decode.c:1006-1046` | a message that parses is accepted exactly when every one of the first 64 required fields was met |
| `PbNested.EntriesMerge` | `ios/Pods/nanopb/pb_decode.c:1463-1485` | a required or optional submessage given in two entries decodes like one entry with the contents of both, whatever was held and whatever follows |
| `PbNested.LastOfUnion` | `ios/Pods/nanopb/pb_decode.c:461-470` | of two entries for a member of a union only the last counts, once the first is well-formed |
| `PbNested.EntriesAppend` | `ios/Pods/nanopb/pb_decode.c:450-459` | two entries of an array of submessages give two items, each decoded from its defaults alone |
| `PbNested.LastWins` | `ios/Pods/nanopb/pb_decode.c:409-417` | of two values for a field that is neither a submessage nor an array only the last counts |
| `PbNested.ItemAppends` | `ios/Pods/nanopb/pb_decode.c:450-459` | one more item of anything but a submessage is appended while there is room |
| `PbNested.ChunksJoin` | `ios/Pods/nanopb/pb_decode.c:420-448` | two chunks of a packed array decode like one with the contents of both |
| `PbNested.ValueSkips` | `ios/Pods/nanopb/pb_encode.c:641-672` | the wire type the encoder gives a field says how long its value is: pb_skip_field gets exactly to what follows |
| `PbNested.EncodedIsUnknown` | `ios/Pods/nanopb/pb_encode.c:641-672` | so what is written for a field is skipped by any descriptor without its tag |
| `PbNested.PackedIsUnknown` | `ios/Pods/nanopb/pb_encode.c:139-181` | and so is a packed array |
| `PbKeys.EncodingHolds` | `ios/Pods/nanopb/pb_encode.c:307-392` | a reader without descriptor finds in an encoding exactly the keys of the fields that are set, in descriptor order: one each, one for each item of an unpacked array; a tag occurs if and only if a field with it is set |
| `PbNumbers.SignedExact` | `ios/Pods/nanopb/pb_decode.c:1289-1324` | on any canonical varint a signed field takes the number of its width that agrees with it in the low 64 or 32 bits, and refuses if and only if there is none |
| `PbNumbers.BothEncodings` | `ios/Pods/nanopb/pb_decode.c:1297-1306` | a negative number of a narrow field is read back from 64 bits and from a cast to 32 bits alike |
| `PbNumbers.SentIsRead` | `ios/Pods/nanopb/pb_decode.c:1289-1324` | a signed field gets the number that was sent if and only if its width has it |
| `PbNumbers.HighBitsLost` | `ios/Pods/nanopb/pb_decode.c:1303-1321` | 2^32 is read as zero by a signed field of up to four octets, without an error |
| `PbNumbers.UnsignedExact` | `ios/Pods/nanopb/pb_decode.c:1326-1348` | an unsigned field takes a number, unchanged, if and only if its width has it |
| `PbNumbers.ZigZagExact` | `ios/Pods/nanopb/pb_decode.c:1350-1372` | so does a ZigZag field |
| `PbNumbers.OctetsWhole` | `ios/Pods/nanopb/pb_decode.c:1391-1508` | bytes, strings and fixed-length bytes are stored whole or refused, never cut, and exactly when there is room |
| `PbStored.DecodedFits` | `ios/Pods/nanopb/pb_decode.c:1051-1063` | whatever the octets, a message that decodes fits its struct at every depth: widths, lengths, array bounds, union members |
| `PbStored.FittingEncodes` | `ios/Pods/nanopb/pb_encode.c:494-516` | a struct that fits its descriptor can be encoded |
| `PbStored.DecodedEncodes` | `ios/Pods/nanopb/pb_encode.c:494-516` | so whatever has been decoded can be encoded again |
| `Refcount.LockedRefcount.Inc` | `ios/Pods/BoringSSL-GRPC/crypto/refcount_lock.c:29-35` | one more, or unchanged once saturated |
| `Refcount.LockedRefcount.DecAndTestZero` | `ios/Pods/BoringSSL-GRPC/crypto/refcount_lock.c:37-51` | one less, or unchanged once saturated; true exactly for the last; aborts on zero |
| `Refcount.NextKeepsInv` | `ios/Pods/BoringSSL-GRPC/crypto/refcount_c11.c:37-65` | every step of every thread keeps: the effects so far replay on the locked version, and the count is the references outstanding unless saturated |
| `Refcount.Linearizes` | `ios/Pods/BoringSSL-GRPC/crypto/refcount_c11.c:37-65` | under every interleaving and every spurious failure the calls that took effect are a run of the locked version with the same answers and count, and nobody aborts |
| `Refcount.EffectOnReturn` | `ios/Pods/BoringSSL-GRPC/crypto/refcount_c11.c:37-65` | a call takes effect exactly once, in the step in which it returns, so the order respects real time |
| `Refcount.Conserved` | `ios/Pods/BoringSSL-GRPC/crypto/refcount_c11.c:37-65` | unless saturated the count equals the references outstanding, and exactly one drop has reported the last once none are left |
| `Refcount.NothingAfterZero` | `ios/Pods/BoringSSL-GRPC/crypto/refcount_c11.c:49-65` | after the last drop no step is possible |
| `Refcount.SaturatedForever` | `ios/Pods/BoringSSL-GRPC/crypto/refcount_c11.c:37-65` | once saturated it stays so and no drop reports zero |
| `CipherChoice.ParseClientCipherList` | `ios/Pods/BoringSSL-GRPC/ssl/handshake_server.cc:293-321` | the loop keeps the known ciphers in order and fails exactly on an odd length |
| `CipherChoice.BestUnique` | `ios/Pods/BoringSSL-GRPC/ssl/handshake_server.cc:357-424` | the declarative choice names one cipher |
| `CipherChoice.BestExists` | `ios/Pods/BoringSSL-GRPC/ssl/handshake_server.cc:357-424` | there is a best cipher as soon as there is an acceptable one |
| `CipherChoice.Find` | `ios/Pods/BoringSSL-GRPC/ssl/handshake_server.cc:395-402` | the search finds the earliest place in the other list |
| `CipherChoice.Choose` | `ios/Pods/BoringSSL-GRPC/ssl/handshake_server.cc:357-424` | the one-pass chooser answers if and only if the best cipher's group is ended by a zero flag, and then with that cipher |
| `CipherChoice.AllClosed` | `ios/Pods/BoringSSL-GRPC/ssl/internal.h:1860-1889` | in a list whose last flag is zero every group is ended |
| `CipherChoice.EveryGroupEnds` | `ios/Pods/BoringSSL-GRPC/ssl/internal.h:1871-1875` | with one flag for each cipher, every group is ended if and only if the last flag is zero, which is what the format asks for and the parser of cipher rules sees to |
| `CipherChoice.ChooseWellFormed` | `ios/Pods/BoringSSL-GRPC/ssl/handshake_server.cc:357-424` | so on such lists the answer is the best cipher, and none exactly when nothing is acceptable |
| `CipherChoice.BestWithoutGroups` | `ios/Pods/BoringSSL-GRPC/ssl/handshake_server.cc:377-385` | without groups the best cipher is the first acceptable one |
| `CipherChoice.ChooseCipher` | `ios/Pods/BoringSSL-GRPC/ssl/handshake_server.cc:357-424` | from the client's octets: with server preference the client's earliest choice in the first server group that has any, otherwise the client's first that the server lists and allows; null exactly when the list is malformed or nothing matches |
| `TlsBuffer.AlignOffset` | `ios/Pods/BoringSSL-GRPC/ssl/ssl_buffer.cc:68-70` | the offset makes what follows the header aligned |
| `TlsBuffer.SSLBuffer.Clear` | `ios/Pods/BoringSSL-GRPC/ssl/ssl_buffer.cc:39-45` | the buffer is released |
| `TlsBuffer.SSLBuffer.EnsureCap` | `ios/Pods/BoringSSL-GRPC/ssl/ssl_buffer.cc:47-81` | the contents survive, the capacity is reached, only more than 16 bits is refused, and new memory is aligned; which capacities the offset can run through without wrapping |
| `TlsBuffer.SSLBuffer.Append` | `ios/Pods/BoringSSL-GRPC/ssl/ssl_buffer.cc:83-88` | what is written into the free space and reported is appended |
| `TlsBuffer.SSLBuffer.Consume` | `ios/Pods/BoringSSL-GRPC/ssl/ssl_buffer.cc:90-97` | octets leave from the front, unless the 16-bit offset wraps with octets left; then what they would be read from |
| `TlsBuffer.SSLBuffer.DiscardConsumed` | `ios/Pods/BoringSSL-GRPC/ssl/ssl_buffer.cc:99-103` | an empty buffer is released, contents are never lost |
| `TlsWrite.Flush` | `ios/Pods/BoringSSL-GRPC/ssl/ssl_buffer.cc:239-252` | flushing moves octets from the buffer to the transport and touches nothing else; success means the buffer is empty |
| `TlsWrite.WritePending` | `ios/Pods/BoringSSL-GRPC/ssl/s3_pkt.cc:202-218` | a finished pending write reports a length no greater than the caller's, and clears the record of it |
| `TlsWrite.DoWrite` | `ios/Pods/BoringSSL-GRPC/ssl/s3_pkt.cc:221-289` | a write that reports success leaves nothing pending and reports no more than was presented |
| `TlsWrite.WriteAppData` | `ios/Pods/BoringSSL-GRPC/ssl/s3_pkt.cc:129-200` | never more is reported than was presented |
| `TlsWrite.DoWriteKeeps` | `ios/Pods/BoringSSL-GRPC/ssl/s3_pkt.cc:202-289` | a call either finishes the pending record or seals the next octets of the stream; what is sealed stays reported octets plus the next ones |
| `TlsWrite.WriteLoopKeeps` | `ios/Pods/BoringSSL-GRPC/ssl/s3_pkt.cc:162-199` | so does the whole loop, its remembered wnum included |
| `TlsWrite.WriteKeepsIntact` | `ios/Pods/BoringSSL-GRPC/ssl/s3_pkt.cc:129-200` | a write keeps the stream intact if and only if the connection is shut down or the caller presents at least the wnum octets its last call had finished |
| `TlsWrite.ShortRetryRepeats` | `ios/Pods/BoringSSL-GRPC/ssl/s3_pkt.cc:143-157` | the smallest case: of 1024 octets in records of 512 the second record is stuck, an empty retry is refused for its length, and the next full one seals the second half again |
| `TlsWrite.StreamIntact` | `ios/Pods/BoringSSL-GRPC/ssl/s3_pkt.cc:129-289` | across any mix of short writes, failed flushes, alerts, handshake flights and retries that re-present the unsent octets, the application plaintext sealed is exactly the caller's stream so far, and the sealed octets reach the transport in order |
| `TlsWrite.FlightOutKeeps` | `ios/Pods/BoringSSL-GRPC/ssl/s3_both.cc:257-269` | handshake octets follow what is buffered, in order, wherever a write fails |
| `TlsWrite.SmallFlightAsksOk` | `ios/Pods/BoringSSL-GRPC/ssl/s3_pkt.cc:221-252` | a write with little handshake data waiting never asks for a capacity that the 16-bit offset of the buffer could run past |
| `TlsWriteLimits.RecordsFit` | `ios/Pods/BoringSSL-GRPC/ssl/s3_pkt.cc:163-199` | in every run, whatever is presented on retries, no application record sealed is empty or over the fragment limit |
| `TlsWriteLimits.EarlyDataBounded` | `ios/Pods/BoringSSL-GRPC/ssl/s3_pkt.cc:166-190` | as long as data goes out as early data, no more of it has been sealed than the limit allows |
| `TlsWriteLimits.HandshakeConserved` | `ios/Pods/BoringSSL-GRPC/ssl/s3_both.cc:231-279` | in every run the handshake octets that went out and those waiting are those handed over, in order |
| `TlsWriteLimits.ClosedIsSilent` | `ios/Pods/BoringSSL-GRPC/ssl/s3_pkt.cc:129-141` | after a closing alert nothing more is sealed, sent or reported |
| `TlsWriteLimits.AllOrNothing` | `ios/Pods/BoringSSL-GRPC/ssl/s3_pkt.cc:183-196` | unless partial writes are on, a write that succeeds has written everything |
| `TlsWriteLimits.BadRetryRefused` | `ios/Pods/BoringSSL-GRPC/ssl/s3_pkt.cc:202-210` | a retry of a stuck record with less data, another type, or from another place where that is not allowed fails and changes nothing |
| `TlsWriteLimits.WriteWorks` | `ios/Pods/BoringSSL-GRPC/ssl/s3_pkt.cc:129-289` | over a transport that always takes something, a write or a valid retry is done in one call and leaves nothing pending |
| `TlsWrite.Writer.FlushBuffer` | `ios/Pods/BoringSSL-GRPC/ssl/ssl_buffer.cc:239-252` | the code's loop over BIO_write is the specification's |
| `TlsWrite.Writer.Resume` | `ios/Pods/BoringSSL-GRPC/ssl/s3_pkt.cc:202-218` | the retry checks and the flush |
| `TlsWrite.Writer.PrependFlight` | `ios/Pods/BoringSSL-GRPC/ssl/s3_pkt.cc:254-266` | unflushed handshake octets go into the buffer first, and leave the flight |
| `TlsWrite.Writer.WriteFlight` | `ios/Pods/BoringSSL-GRPC/ssl/s3_both.cc:257-269` | the loop over the pending flight, resumed where the last failed write stopped |
| `TlsWrite.Writer.SendFlightNow` | `ios/Pods/BoringSSL-GRPC/ssl/s3_both.cc:231-279` | what is in the write buffer goes first; the flight is dropped once flushed |
| `TlsWrite.Writer.SealInto` | `ios/Pods/BoringSSL-GRPC/ssl/s3_pkt.cc:268-285` | the record is appended and its arguments remembered, or nothing changes |
| `TlsWrite.Writer.WriteRecord` | `ios/Pods/BoringSSL-GRPC/ssl/s3_pkt.cc:221-289` | do_ssl3_write on the SSLBuffer, which never runs out of the room it asked for |
| `TlsWrite.Writer.WriteOnce` | `ios/Pods/BoringSSL-GRPC/ssl/s3_pkt.cc:163-199` | one round of the loop |
| `TlsWrite.Writer.Write` | `ios/Pods/BoringSSL-GRPC/ssl/s3_pkt.cc:129-200` | ssl3_write_app_data with its early-data limit, partial writes and remembered progress |
| `TlsMessages.ChunksJoin` | `ios/Pods/BoringSSL-GRPC/ssl/s3_both.cc:184-205` | the record bodies concatenate to the message, none is longer than the limit, all but the last are full, and none is empty |
| `TlsMessages.AddMessage` | `ios/Pods/BoringSSL-GRPC/ssl/s3_both.cc:184-205` | the loop hands out exactly these bodies, and stops at the first record that cannot be sealed |
| `TlsMessages.ParseMessage` | `ios/Pods/BoringSSL-GRPC/ssl/s3_both.cc:399-425` | a found message lies at the front of the buffer |
| `TlsMessages.ParseOfRaw` | `ios/Pods/BoringSSL-GRPC/ssl/s3_both.cc:399-425` | a whole message at the front is found, whatever follows |
| `TlsMessages.ParseOfPart` | `ios/Pods/BoringSSL-GRPC/ssl/s3_both.cc:399-425` | a part of one is not, and asks for more than there is but no more than the message |
| `TlsMessages.FoundIsRaw` | `ios/Pods/BoringSSL-GRPC/ssl/s3_both.cc:399-425` | what is found is a header with its body |
| `TlsMessages.BufferBounded` | `ios/Pods/BoringSSL-GRPC/ssl/s3_both.cc:441-459` | no more is ever buffered than one message of the allowed length and one record |
| `TlsMessages.MessageBuffer.Parse` | `ios/Pods/BoringSSL-GRPC/ssl/s3_both.cc:399-425` | parse_message only reads, and reports how much it needs |
| `TlsMessages.MessageBuffer.MayAccept` | `ios/Pods/BoringSSL-GRPC/ssl/s3_both.cc:441-459` | a record is accepted only while the message is incomplete and its announced length allowed |
| `TlsMessages.MessageBuffer.OpenRecord` | `ios/Pods/BoringSSL-GRPC/ssl/s3_both.cc:474-560` | a handshake record is appended; anything else is refused as the code does |
| `TlsMessages.MessageBuffer.GetMessage` | `ios/Pods/BoringSSL-GRPC/ssl/s3_both.cc:427-439` | the message under way is shown once complete |
| `TlsMessages.MessageBuffer.NextMessage` | `ios/Pods/BoringSSL-GRPC/ssl/s3_both.cc:562-583` | it is taken off the front, and the buffer released when empty after the handshake |
| `TlsMessages.MessageBuffer.Unprocessed` | `ios/Pods/BoringSSL-GRPC/ssl/s3_both.cc:461-472` | whether anything but the current message is buffered |
| `TlsMessages.RunConserves` | `ios/Pods/BoringSSL-GRPC/ssl/s3_both.cc:474-583` | over every run the messages handed up and what is still buffered concatenate to the handshake record bodies |
| `TlsMessages.UnprocessedExact` | `ios/Pods/BoringSSL-GRPC/ssl/s3_both.cc:461-472` | in every run, handshake data counts as unprocessed if and only if the record bodies received are more than the messages handed up and the one shown |
| `TlsMessages.AcceptsExactly` | `ios/Pods/BoringSSL-GRPC/ssl/s3_both.cc:441-459` | more of a message is accepted until it is whole if its length is allowed; a longer one is refused as soon as its header is there |
| `TlsMessages.UniqueParse` | `ios/Pods/BoringSSL-GRPC/ssl/s3_both.cc:399-425` | a stream of messages can be taken apart in one way only |
| `TlsMessages.MessagesRecovered` | `ios/Pods/BoringSSL-GRPC/ssl/s3_both.cc:184-205` | for any fragment limits the messages handed up are the first ones the peer sent, octet for octet, and once all records have arrived none is stuck |
| `Handshake.OnceAndInOrder` | `ios/Pods/BoringSSL-GRPC/ssl/handshake.cc:491-628` | in a log with every event in its place, two events that happened happened once each and in the order of their places |
| `Handshake.NeededBefore` | `ios/Pods/BoringSSL-GRPC/ssl/handshake.cc:491-628` | and once the later of two has happened, so has the earlier if it is needed |
| `Handshake.Accounted` | `ios/Pods/BoringSSL-GRPC/ssl/handshake.cc:491-628` | in every run of a machine whose turns report what they take, the messages the transport delivered are those reported and then those still waiting |
| `Handshake.TakesReceived` | `ios/Pods/BoringSSL-GRPC/ssl/handshake.cc:491-628` | a turn that reports truthfully accounts for the messages it took |
| `Handshake.ErrorIsFinal` | `ios/Pods/BoringSSL-GRPC/ssl/handshake.cc:491-628` | once a turn has failed nothing further happens, in any run |
| `Handshake.EventHasStep` | `ios/Pods/BoringSSL-GRPC/ssl/handshake.cc:491-628` | every event in the log of a run was reported by one step of that run |
| `HandshakeClient.Advance` | `ios/Pods/BoringSSL-GRPC/ssl/handshake_client.cc:1707-1780` | a step takes a message from the inbox only by reporting first the event of that message's type |
| `HandshakeServer.Advance` | `ios/Pods/BoringSSL-GRPC/ssl/handshake_server.cc:1539-1617` | a step takes a message from the inbox only by reporting first the event of that message's type, given the ClientHello is still there while its parameters are selected |
| `HandshakeClient.ClientHandshake.Turn` | `ios/Pods/BoringSSL-GRPC/ssl/handshake_client.cc:1707-1780` | the code, assigning fields in place, does what the step function says in every state: new state, facts, messages left, wait, events |
| `HandshakeServer.ServerHandshake.Turn` | `ios/Pods/BoringSSL-GRPC/ssl/handshake_server.cc:1539-1617` | the code, assigning fields in place, does what the step function says in every state: new state, facts, messages left, wait, events |
| `HandshakeServer.ParseCertChain` | `ios/Pods/BoringSSL-GRPC/ssl/ssl_cert.cc:383-439` | the loop refuses exactly the chains with an empty certificate or a leaf without a key, and sets the peer's key if and only if the chain has a certificate |
| `HandshakeClient.AdvanceMoves` | `ios/Pods/BoringSSL-GRPC/ssl/handshake_client.cc:1707-1789` | every step waits without trace or adds to the log exactly the entries between the two states, and goes down in rank if the state changes |
| `HandshakeClient.MachineKeepsInv` | `ios/Pods/BoringSSL-GRPC/ssl/handshake_client.cc:1707-1789` | so a step of the machine keeps the log the one of the state reached |
| `HandshakeClient.DriverKeepsInv` | `ios/Pods/BoringSSL-GRPC/ssl/handshake.cc:491-628` | and so does the driver, blocked, retrying, discarding or running on |
| `HandshakeClient.RunKeepsInv` | `ios/Pods/BoringSSL-GRPC/ssl/handshake.cc:491-628` | hence in every run |
| `HandshakeClient.RunInPlace` | `ios/Pods/BoringSSL-GRPC/ssl/handshake_client.cc:1707-1789` | in every reachable state whatever has happened happened once, in the entry that is its place; of what is needed nothing is missing before the place reached, and at state_done nothing at all |
| `HandshakeClient.FinishedInOrder` | `ios/Pods/BoringSSL-GRPC/ssl/handshake_client.cc:1457-1512` | at state_done: one ChangeCipherSpec received before one read-key change before one verified Finished, one sent before one write-key change before one sent Finished, and which side was first depends on resumption alone |
| `HandshakeClient.CheckedBeforeKeyExchange` | `ios/Pods/BoringSSL-GRPC/ssl/handshake_client.cc:871-889` | in a full handshake with certificates no ClientKeyExchange leaves before the certificate was received and checked |
| `HandshakeClient.ProofOnlyOnRequest` | `ios/Pods/BoringSSL-GRPC/ssl/handshake_client.cc:1169-1215` | a client certificate or CertificateVerify goes out only after a CertificateRequest came in |
| `HandshakeClient.FalseStartIsLate` | `ios/Pods/BoringSSL-GRPC/ssl/handshake_client.cc:1514-1564` | early data apart, the handshake returns early only in a full TLS 1.2 handshake over TLS with an ECDHE and AEAD cipher, after this side's Finished, the server's key share and the certificate check, before anything of the server's second flight |
| `HandshakeClient.RankDrops` | `ios/Pods/BoringSSL-GRPC/ssl/handshake_client.cc:1707-1789` | in every run, resumption is settled in one state only and each state change goes down in the rank it fixes; a step that keeps the state stops the loop |
| `HandshakeClient.MessagesAccountedFor` | `ios/Pods/BoringSSL-GRPC/ssl/handshake.cc:491-628` | every message the transport delivered was taken by the step its type is for, in order, or is still waiting |
| `HandshakeClientChecks.EventEarned` | `ios/Pods/BoringSSL-GRPC/ssl/handshake_client.cc:1707-1789` | an event is in the log of a run only if some step before was made in the event's state and found what it stands for: the message of its type there and parsed, and the checks passed, among them the server's certificate, the signature of its ServerKeyExchange, and the comparison of its Finished |
| `HandshakeClientChecks.FatalEnds` | `ios/Pods/BoringSSL-GRPC/ssl/handshake_client.cc:1707-1789` | a turn that finds one of them failed, or a wrong message, ends the handshake in an error for good and leaves the log as it was |
| `HandshakeClientChecks.Completes` | `ios/Pods/BoringSSL-GRPC/ssl/handshake_client.cc:1707-1789` | for every combination of negotiated parameters, resumption and requests there is a run that reaches state_done |
| `HandshakeClient.ClientHandshake.constructor` | `ios/Pods/BoringSSL-GRPC/ssl/handshake.cc:127-150` | a handshake starts in the first state with nothing done |
| `HandshakeClient.ClientHandshake.Handshake` | `ios/Pods/BoringSSL-GRPC/ssl/handshake_client.cc:1707-1789` | the loop ends, extends the run, and returns ssl_hs_ok if and only if it reached state_done |
| `HandshakeClient.ClientHandshake.ResolveWait` | `ios/Pods/BoringSSL-GRPC/ssl/handshake.cc:495-612` | the driver's switch: each wait is resolved as the code resolves it |
| `HandshakeClient.ClientHandshake.RunHandshake` | `ios/Pods/BoringSSL-GRPC/ssl/handshake.cc:491-628` | over any transport that answers finitely often the driver ends, and reports completion if and only if the handshake is at state_done |
| `HandshakeServer.AdvanceMoves` | `ios/Pods/BoringSSL-GRPC/ssl/handshake_server.cc:1539-1621` | every step waits without trace or adds to the log exactly the entries between the two states, and goes down in rank if the state changes |
| `HandshakeServer.MachineKeepsInv` | `ios/Pods/BoringSSL-GRPC/ssl/handshake_server.cc:1539-1621` | so a step of the machine keeps the log the one of the state reached |
| `HandshakeServer.DriverKeepsInv` | `ios/Pods/BoringSSL-GRPC/ssl/handshake.cc:491-628` | and so does the driver, blocked, retrying, discarding or running on |
| `HandshakeServer.RunKeepsInv` | `ios/Pods/BoringSSL-GRPC/ssl/handshake.cc:491-628` | hence in every run |
| `HandshakeServer.RunInPlace` | `ios/Pods/BoringSSL-GRPC/ssl/handshake_server.cc:1539-1621` | in every reachable state whatever has happened happened once, in the entry that is its place; of what is needed nothing is missing before the place reached, and at state_done nothing at all |
| `HandshakeServer.FinishedInOrder` | `ios/Pods/BoringSSL-GRPC/ssl/handshake_server.cc:1365-1509` | at state_done: one ChangeCipherSpec received before one read-key change before one verified Finished, one sent before one write-key change before one sent Finished, and which side was first depends on resumption alone |
| `HandshakeServer.VerifiedExactlyWhenGiven` | `ios/Pods/BoringSSL-GRPC/ssl/handshake_server.cc:1269-1363` | once the ChangeCipherSpec is taken, CertificateVerify (which goes by the peer's key) was checked if and only if a client certificate came (which verification goes by); then it was requested, checked before the key exchange was accepted, and proved after |
| `HandshakeServer.CheckedBeforeKeyExchange` | `ios/Pods/BoringSSL-GRPC/ssl/handshake_server.cc:1042-1056` | a client certificate is checked before the key exchange is accepted |
| `HandshakeServer.HelloStays` | `ios/Pods/BoringSSL-GRPC/ssl/handshake_server.cc:512-684` | the ClientHello shown stays in front until the parameters are selected, over every pause |
| `HandshakeServer.RankDrops` | `ios/Pods/BoringSSL-GRPC/ssl/handshake_server.cc:1539-1621` | in every run, resumption is settled in one state only and each state change goes down in the rank it fixes; a step that keeps the state stops the loop |
| `HandshakeServer.MessagesAccountedFor` | `ios/Pods/BoringSSL-GRPC/ssl/handshake.cc:491-628` | every message the transport delivered was taken by the step its type is for, in order, or is still waiting |
| `HandshakeServerChecks.EventEarned` | `ios/Pods/BoringSSL-GRPC/ssl/handshake_server.cc:1539-1621` | an event is in the log of a run only if some step before was made in the event's state and found what it stands for: the message of its type there and parsed, and the checks passed, among them the client's certificate, the signatures of its CertificateVerify and Channel ID, and the comparison of its Finished |
| `HandshakeServerChecks.FatalEnds` | `ios/Pods/BoringSSL-GRPC/ssl/handshake_server.cc:1539-1621` | a turn that finds one of them failed, or a wrong message, ends the handshake in an error for good and leaves the log as it was |
| `HandshakeServerChecks.Completes` | `ios/Pods/BoringSSL-GRPC/ssl/handshake_server.cc:1539-1621` | for every combination of negotiated parameters, resumption and requests there is a run that reaches state_done |
| `HandshakeServer.ServerHandshake.constructor` | `ios/Pods/BoringSSL-GRPC/ssl/handshake.cc:127-150` | a handshake starts in the first state with nothing done |
| `HandshakeServer.ServerHandshake.Handshake` | `ios/Pods/BoringSSL-GRPC/ssl/handshake_server.cc:1539-1621` | the loop ends, extends the run, and returns ssl_hs_ok if and only if it reached state_done |
| `HandshakeServer.ServerHandshake.ResolveWait` | `ios/Pods/BoringSSL-GRPC/ssl/handshake.cc:495-612` | the driver's switch: each wait is resolved as the code resolves it |
| `HandshakeServer.ServerHandshake.RunHandshake` | `ios/Pods/BoringSSL-GRPC/ssl/handshake.cc:491-628` | over any transport that answers finitely often the driver ends, and reports completion if and only if the handshake is at state_done |

## Left out

- HandshakeClient.Advance: the state `Tls13` ends the model's handshake with an error; the TLS 1.3 machine is not part of it.
- HandshakeServer.Advance: the same.
- HandshakeClient.ClientHandshake.Turn: the same.
- HandshakeServer.ServerHandshake.Turn: the same.
- Handshake messages: only their types; what parsing and checking them finds is one of the arbitrary choices.
- Handshake state other than what steers the machines: transcripts, keys, sessions, extensions, alert texts and info callbacks.
- What a failing handshake function did before it failed is not logged; after a failure nothing further happens.
- HandshakeClient.AfterSendClientCertificateVerify: whether a certificate is configured is asked anew in each state, as the code does, so that a sent certificate is followed by a CertificateVerify is not claimed.
- SSL renegotiation, handoff and handback.
- DTLS timers: a timeout is a retransmission at any time. MTU discovery: any MTU at any call.
- DTLS alerts sent by the transport and what ssl_process_alert makes of received ones.
- DtlsDelivery.ArrivedFlightHandedUp: for datagrams no longer than the longest record a reader takes, and records that arrive before the replay window has moved 64 past them.
- DtlsDelivery.DatagramsUnpack: the same bound on the datagram, without which a reader refuses its records (`DtlsDelivery.UnpackFlatten`).
- DtlsTransport.DeliveredAreSent: datagrams forged by others are not in the network of this theorem; what becomes of them, with an AEAD that opens only what was sealed, is `DtlsRecord.AcceptedWasSealed` and `DtlsRecord.ForgedIsDropped`.
- The struct of the C code is modelled by its value: octet layout, padding and aliasing are not, and a decoder's methods take and return the struct's value.
- What a failed decode leaves in the struct, such as a count one too high (pb_decode.c:455).
- nanopb extensions, callback and pointer fields, fixed-count arrays, custom streams, null-terminated messages, pb_release, the builds without 64-bit integers.
- nanopb tags: descriptors with a field of tag zero are outside the model, as the terminator is one.
- PbRoundTrip.RoundTrip: for encodings shorter than 2^32 octets, as lengths are read back with the 32-bit reader, and proto3 fields without a default of their own.
- PbWire.Varint32Exact: canonical encodings only; over-long encodings are covered by termination and by the stream contracts alone.
- TlsWrite.Writer.WriteRecord: not for a record that asks for a capacity of 0xfff9 to 0xffff, from which the 16-bit offset of the buffer could wrap (`TlsBuffer.SSLBuffer.Consume` says what follows); `TlsWrite.SmallFlightAsksOk` says which writes never do.
- TlsWrite.Writer.WriteOnce: the same, for the record of this round.
- TlsWrite.Writer.Write: the same, for each record it seals.
- Aead.Create: one None stands for a null result and for each of the assertions, some of which the C code reaches only after it has allocated the context.
- DtlsReceiver.Receiver.ChangeCipher: the epoch and the refusal; the replay window and the AEAD context of the same C function are in `DtlsRecordLayer.Reader.ChangeKey`.
- DtlsSender.Sender.SendFlightNow: the check for a write side already shut down, and dtls1_update_mtu, which only picks the MTU.
- TlsMessages.MessageBuffer.OpenRecord: on a server's first record, V2ClientHello conversion and the errors for HTTP requests.
- TlsMessages: sealing, packing and buffering of the records of a flight beyond their bodies and order; DTLS has its own.
- Reading application data, ssl_read_buffer_extend_to and the datagram variant of the write buffer.
- Memory order in Refcount: the relaxed and release orderings of the atomic operations are modelled as sequentially consistent steps on the one counter.
- CipherChoice: how the configuration's masks and the table of known ciphers come about.
- Files, timers, extensions, SRTP, error tables and the application's own Swift and Objective-C glue.
