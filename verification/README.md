# Flight controller protocols, verified

A Dafny model of the parts of this flight-controller firmware and its tools in which a mistake in a corner
case would matter most, with proofs about every input, every byte stream and every interleaving.

* **MAVLink 2 framing** (`Bytes`, `ByteBits`, `Crc16`, `Sha256`, `Sha256Answer`, `Framing`, `Packets`, `Messages`, `Signing`,
  `SigningContext`, `Reception`, `Channels`, `Sender`, `Transmission`, `EndToEnd`, `Replay`,
  `Corruption`, `Damage`). `Framing`
  defines what a frame is and the simplest receiver imaginable: collect bytes until a frame is complete.
  `Channels.Channel` is the seventeen-state receiver as a class over its mutable receive buffer; its methods
  are proved to stay in step with that reference receiver (`Reception.Agrees` says what a pending prefix
  determines about the buffer). `Sender` fills the message struct and the output buffer in place. CRC-16 is
  defined bit by bit, SHA-256 by sections 5 and 6.2 of FIPS 180-4, and the code is proved against both; the
  definitions are held to the published check value and the hash of "abc".
  `Transmission` puts the two ends together over unbounded streams; `Replay` carries the signing guarantees over
  to arbitrary bytes; `Corruption` and `Damage` say exactly which damaged bytes are noticed.
* **Dual-core motor path** (`Seqlock`, `MotorCommands`, `MotorPath`, `Dshot`). A transition system with one
  shared memory access per step: the writer stores its words in any order between its two increments, the
  reader copies in any order between its two loads, Core 0 may stop anywhere, the clock ticks. The safety
  statements range over all runs.
* **ULog over MAVLink** (`Ulog`, `UlogStream`, `UlogLoss`, `UlogIntact`). The receiver as a class; a stream of
  messages cut into packets at arbitrary places; reassembly computed on message numbers and shown to be what
  the bytes do.
* **The 8 kHz loop's schedule** (`Schedule`), **quaternions** (`Quaternion`) and the **bootloader upload**
  (`Uploader`).

Run `dafny verify dfyconfig.toml` to check the project.

## Where the code and its documentation differ

The model follows the code.

* A signed frame with a bad checksum is reported twice: once at its second checksum byte, before the frame has
  been copied out, and again after its signature (mavlink_helpers.h:771-791 and 825-826).
  `Transmission.ReportedTwice`.
* `mavlink_parse_char` restarts on a 0xFD that ends a bad frame without setting the version of the new frame
  (mavlink_helpers.h:1007-1021). `Reception.RestartAgrees` says exactly when that matters.
* A bad message id byte is not always noticed, because crc_extra changes along with the id:
  `Corruption.MessageIdCorruption` is the exact condition, `Corruption.SystemTimeDisguised` an instance.
* Nor is a damaged start byte, length byte or incompatibility flag: the checksum then never covers the frame as
  sent. The receiver goes on inside the frame, or (behind a raised length) takes bytes of what follows for its
  own, and accepts any good frame it meets. `Damage.OneByteDamaged` is the exact condition for every byte of an
  unsigned version 2 frame, whatever follows it; `Damage.PrecautionHolds` says what rules it out and that the
  receiver is then idle again. `Damage.PayloadOpened`, `Damage.ShorterFormOpened`, `Damage.OldFormOpened` and
  `Damage.LongerFormOpened` are frames that such damage turns into accepted ones.
* A signed frame that was accepted once can be accepted again if the application's accept_unsigned callback
  excuses its message id (mavlink_helpers.h:819-824), and only then: `Replay.AcceptedAgainIff`.
* The bit count of `mavlink_sha256_update` is exact only for updates under 2^29 bytes
  (`Sha256.CountIsExactIffShort`); every caller here stays far below.
* A read of the seqlock that spans exactly 2^31 writes can be torn (`Seqlock.AliasedReadIsTorn`). At 250 writes
  a second that is about a hundred days between two loads.

## Model

| member | source | states |
|---|---|---|
| Crc16.CrcAccumulate | main/mavlink/c_library_v2/checksum.h:35-43 | the shift-and-xor step equals xoring the byte in and shifting out eight bits with the reflected polynomial 0x8408 |
| Crc16.CrcAccumulateBuffer | main/mavlink/c_library_v2/checksum.h:85-91 | the loop absorbs exactly the given stretch of the buffer, in order |
| Crc16.CrcCalculate | main/mavlink/c_library_v2/checksum.h:65-73 | the same from the initial value 0xFFFF |
| Crc16.FastStepIsBitSerial | main/mavlink/c_library_v2/checksum.h:35-43 | refinement: for every byte and register the code's three shifts and xors are eight bit-serial steps |
| Crc16.CheckValue | main/mavlink/c_library_v2/checksum.h:35-73 | the digits 1 to 9, from 0xFFFF, give 0x6F91, sent as 0x91, 0x6F: the published check value of CRC-16/MCRF4XX |
| Crc16.CrcConcat | main/mavlink/c_library_v2/checksum.h:65-91 | however a buffer is split over the three functions, the checksum is that of the whole |
| Crc16.Residue | main/mavlink/c_library_v2/checksum.h:35-91 | appending the checksum, low byte first, brings the register to zero |
| Crc16.AbsorbStateInjective | main/mavlink/c_library_v2/checksum.h:35-43 | for a fixed data byte the step is a bijection on the register |
| Crc16.TwoBytesInjective | main/mavlink/c_library_v2/checksum.h:35-43 | for a fixed register two consecutive data bytes map injectively |
| Crc16.BurstDetected | main/mavlink/c_library_v2/checksum.h:35-91 | replacing one byte or two adjacent bytes anywhere in a buffer always changes its checksum |
| Sha256.Context.Calc | main/mavlink/c_library_v2/mavlink_sha256.h:105-150 | schedule and sixty-four in-place rounds compute the compression function of section 6.2.2 of FIPS 180-4 |
| Sha256.Context.Update | main/mavlink/c_library_v2/mavlink_sha256.h:152-187 | buffered blocks hash to the same state as the whole message so far; the 64-bit count moves by the update's length, exactly so below 2^29 bytes |
| Sha256.Context.Final48 | main/mavlink/c_library_v2/mavlink_sha256.h:192-221 | the pad written from the 72-byte array is the padding of section 5.1.1 of FIPS 180-4 and the result is the first 48 bits, read from the words in big-endian order |
| Sha256.PaddingIsMinimal | main/mavlink/c_library_v2/mavlink_sha256.h:194-210 | the padding fills the last block exactly and is the shortest that leaves eight bytes for the length |
| Sha256.CountIsExactIffShort | main/mavlink/c_library_v2/mavlink_sha256.h:158-160 | the carry into the high count word is right for an update exactly when it is under 2^29 bytes |
| Sha256.HashParts | main/mavlink/c_library_v2/mavlink_sha256.h:91-221 | a sequence of updates (each under 2^29 bytes) hashes their concatenation: where the cuts are does not matter |
| Sha256Answer.Rotation | main/mavlink/c_library_v2/mavlink_sha256.h:62-70 | for every amount in use the two shifts are a rotation of the word's bit positions |
| Sha256Answer.Choice | main/mavlink/c_library_v2/mavlink_sha256.h:62-70 | bit by bit, Ch takes its second argument where the first is set and the third elsewhere |
| Sha256Answer.Majority | main/mavlink/c_library_v2/mavlink_sha256.h:62-70 | bit by bit, Maj takes what the first two agree on (MajorityOuter and MajorityLast: any other two) |
| Sha256Answer.CubeRoots0 | main/mavlink/c_library_v2/mavlink_sha256.h:72-89 | the first eight round constants are the first 32 fractional bits of the cube roots of the first eight primes |
| Sha256Answer.CubeRoots8 | main/mavlink/c_library_v2/mavlink_sha256.h:72-89 | the second eight are those of the next eight primes |
| Sha256Answer.CubeRoots16 | main/mavlink/c_library_v2/mavlink_sha256.h:72-89 | the third eight are those of the next eight primes |
| Sha256Answer.CubeRoots24 | main/mavlink/c_library_v2/mavlink_sha256.h:72-89 | the fourth eight are those of the next eight primes |
| Sha256Answer.CubeRoots32 | main/mavlink/c_library_v2/mavlink_sha256.h:72-89 | the fifth eight are those of the next eight primes |
| Sha256Answer.CubeRoots40 | main/mavlink/c_library_v2/mavlink_sha256.h:72-89 | the sixth eight are those of the next eight primes |
| Sha256Answer.CubeRoots48 | main/mavlink/c_library_v2/mavlink_sha256.h:72-89 | the seventh eight are those of the next eight primes |
| Sha256Answer.CubeRoots56 | main/mavlink/c_library_v2/mavlink_sha256.h:72-89 | the last eight are those of the next eight primes |
| Sha256Answer.SquareRoots | main/mavlink/c_library_v2/mavlink_sha256.h:91-103 | the initial state is the first 32 fractional bits of the square roots of the first eight primes |
| Sha256Answer.HashOfAbc | main/mavlink/c_library_v2/mavlink_sha256.h:91-221 | the first 48 bits of the hash of "abc" are ba7816bf8f01, worked out through schedule, sixty-four rounds, padding and byte order |
| Framing.GetMsgEntry | main/mavlink/c_library_v2/mavlink_helpers.h:522-548 | bisection finds the entry if the sorted table has one, and reports its absence otherwise |
| Framing.MsgidBytesRoundTrip | main/mavlink/c_library_v2/mavlink_helpers.h:270-272 | the three message id bytes determine the 24-bit id |
| Framing.RemainingFalls | main/mavlink/c_library_v2/mavlink_helpers.h:601-838 | every byte of a frame, whatever it is, brings the receiver strictly closer to idle |
| Framing.IdleAgain | main/mavlink/c_library_v2/mavlink_helpers.h:601-838 | the receiver is idle again at most 279 bytes after a start byte, on every byte stream |
| Framing.FeedConcat | main/mavlink/c_library_v2/mavlink_helpers.h:594-882 | feeding a stream in pieces is feeding it whole |
| Packets.TrimPayload | main/mavlink/c_library_v2/mavlink_helpers.h:115-121 | the loop leaves the payload without its trailing zeros but never less than one byte |
| Packets.TrimRemovesZeros | main/mavlink/c_library_v2/mavlink_helpers.h:115-121 | what was trimmed is exactly a run of zeros |
| Packets.TrimIsShortest | main/mavlink/c_library_v2/mavlink_helpers.h:115-121 | and no more could be trimmed: one byte is left, or the last one is not zero |
| Packets.TrimThenExtend | main/mavlink/c_library_v2/mavlink_helpers.h:763-766 | the receiver's zero-fill restores a trimmed payload to the message's full length |
| Packets.EncodeIsFrame | main/mavlink/c_library_v2/mavlink_helpers.h:451-492 | the serialised form of any packet, both versions, signed or not, reads back field by field |
| Packets.EncodeChecks | main/mavlink/c_library_v2/mavlink_helpers.h:275-279 | and its checksum is the one a receiver with the same table entry computes |
| Packets.LayoutV2 | main/mavlink/c_library_v2/mavlink_helpers.h:451-492 | byte by byte with numbers: 0xFD, length, flags, sequence, ids, three id bytes, payload, checksum from 0xFFFF over all but the start byte and crc_extra with its low byte first, signature |
| Packets.LayoutV1 | main/mavlink/c_library_v2/mavlink_helpers.h:451-492 | the same for 0xFE and the six header bytes of version 1 |
| Packets.GoodChecksum | main/mavlink/c_library_v2/mavlink_helpers.h:747-779 | a frame's checksum is good if and only if its id is in the table and the two bytes behind the payload are that checksum |
| Packets.FrameReported | main/mavlink/c_library_v2/mavlink_helpers.h:594-882 | an idle receiver completes any well-formed frame on its last byte and not before, and is idle afterwards |
| Packets.StreamRoundTrip | main/mavlink/c_library_v2/mavlink_helpers.h:594-882 | any list of frames with noise free of start bytes between them is reported once each, in order, on their last bytes |
| Reception.RestartAgrees | main/mavlink/c_library_v2/mavlink_helpers.h:1007-1021 | mavlink_parse_char's restart after a bad frame does what an idle receiver would, exactly unless the byte is 0xFE, or is 0xFD after a version 1 frame |
| Reception.VerdictRules | main/mavlink/c_library_v2/mavlink_helpers.h:771-836 | FRAMING_BAD_CRC if and only if the checksum is bad, in every mode; with a good one FRAMING_OK without signing, and with signing if the id is excused or the frame is signed, genuine and its stream ready, else FRAMING_BAD_SIGNATURE; only signed, genuine, ready frames move the ledger |
| Reception.JoinWireIs | main/mavlink/c_library_v2/mavlink_helpers.h:867-877 | the checksum field put together from the two wire bytes is the checksum they were split from |
| Reception.Bounds | main/mavlink/c_library_v2/mavlink_helpers.h:601-838 | in every reachable parser state: packet_idx < len while payload is read, = len afterwards, the signature index stays in 0..12, all writes in range |
| Reception.PayloadStep | main/mavlink/c_library_v2/mavlink_helpers.h:738-745 | a payload byte lands at its place in the buffer and the prefix seen so far stays what the buffer, counters and checksum say |
| Reception.FirstCrcStep | main/mavlink/c_library_v2/mavlink_helpers.h:747-768 | crc_extra completes the checksum over the prefix and the zero-fill leaves the extended payload |
| Reception.SecondCrcStep | main/mavlink/c_library_v2/mavlink_helpers.h:771-807 | the state after the second checksum byte is a verdict on the checksum of the whole prefix, and tells whether a signature follows |
| Reception.BytesReceived | main/mavlink/c_library_v2/mavlink_helpers.h:134-146 | the packed struct, read as bytes, is the signed frame that filled it |
| Reception.SignedDelivered | main/mavlink/c_library_v2/mavlink_helpers.h:808-836 | when the last signature byte arrives the receive buffer holds exactly the frame's content |
| Channels.Channel.FrameChar | main/mavlink/c_library_v2/mavlink_helpers.h:594-882 | from any state, each byte is answered as the frame it completes deserves (or as an incomplete one): FRAMING_BAD_CRC, FRAMING_OK or FRAMING_BAD_SIGNATURE exactly by checksum, key, callback and stream table; the whole message is handed out with the last byte, and counters, sequence and signing state move accordingly |
| Channels.Channel.Dispatch | main/mavlink/c_library_v2/mavlink_helpers.h:601-838 | the seventeen-state switch stays in step with the bytes of the frame under way |
| Channels.Channel.TakeFirstCrc | main/mavlink/c_library_v2/mavlink_helpers.h:747-769 | the case for the first checksum byte keeps that correspondence, with the table lookup and the memset |
| Channels.Channel.TakeSecondCrc | main/mavlink/c_library_v2/mavlink_helpers.h:771-807 | checksum verdict, signing policy for unsigned frames, or the move to the signature |
| Channels.Channel.TakeSignature | main/mavlink/c_library_v2/mavlink_helpers.h:808-837 | signature bytes, the check on the last one, the application's override, and a bad checksum winning over both |
| Channels.Channel.ParseChar | main/mavlink/c_library_v2/mavlink_helpers.h:1004-1024 | bad frames count as no message and one parse error, and the receiver goes on idle or inside a reopened frame; a message is handed out only with a completed frame's content; signing ledger, last sequence number and packet counters move as that frame's verdict says |
| SigningContext.SignPacket | main/mavlink/c_library_v2/mavlink_helpers.h:77-105 | the block is link id, 48-bit timestamp and truncated hash over key, header, payload, checksum and stamp; the clock advances by one |
| SigningContext.SignatureCheck | main/mavlink/c_library_v2/mavlink_helpers.h:127-211 | the outcome, status, clock and table after the check, for every message and table, are those of the ledger rules on the received frame |
| SigningContext.DigestMatches | main/mavlink/c_library_v2/mavlink_helpers.h:134-151 | the digest input read from the struct is the key and the frame's own bytes up to the signature |
| SigningContext.Record | main/mavlink/c_library_v2/mavlink_helpers.h:153-210 | the search and in-place update of the sixteen slots implement the ledger rules |
| Signing.SignedFrameIsGenuine | main/mavlink/c_library_v2/mavlink_helpers.h:77-105 | a frame carrying the block made for its own bytes passes the hash comparison and yields link and timestamp back |
| Signing.GenuineIs | main/mavlink/c_library_v2/mavlink_helpers.h:134-151 | a signed frame is genuine exactly if its last six bytes are the first 48 bits of the hash of the key and all bytes before them |
| Signing.SignatureLayout | main/mavlink/c_library_v2/mavlink_helpers.h:77-105 | the thirteen bytes: link id, the clock's low 48 bits with the least significant byte first, and the hash of key, covered bytes, link and clock |
| Signing.VerifiedIff | main/mavlink/c_library_v2/mavlink_helpers.h:127-211 | a signed frame is accepted if and only if it is genuine and its stream is ready for its timestamp; a rejected one leaves the ledger alone |
| Signing.AdmitRules | main/mavlink/c_library_v2/mavlink_helpers.h:153-210 | each status and the resulting clock and table by the numbers: sixteen streams, 6000000 units of age, replay for a timestamp not above the stored one |
| Signing.AdmitStep | main/mavlink/c_library_v2/mavlink_helpers.h:162-210 | one check: the table keeps distinct keys and at most sixteen, rejected packets change nothing, an accepted one moves its stream strictly forward and the clock to at least its timestamp |
| Signing.RunMonotone | main/mavlink/c_library_v2/mavlink_helpers.h:127-211 | over any run neither the clock nor any stored timestamp ever goes back |
| Signing.AcceptedInOrder | main/mavlink/c_library_v2/mavlink_helpers.h:127-211 | accepted timestamps of one stream strictly increase over any run, and the clock is at least each |
| Signing.NoReplay | main/mavlink/c_library_v2/mavlink_helpers.h:127-211 | no accepted packet is ever accepted again |
| Signing.SenderRunAccepted | main/mavlink/c_library_v2/mavlink_helpers.h:77-211 | a sender's consecutive packets are accepted in full exactly when the receiver is ready for the first: a known stream older, a new one with room and not over the age limit |
| Sender.FinalizeMessageBuffer | main/mavlink/c_library_v2/mavlink_helpers.h:227-294 | the struct is left holding the packet (version, trimmed or minimum length, sequence, ids, checksum) with its signature, and the length returned is that of its encoding |
| Sender.MessageChecksum | main/mavlink/c_library_v2/mavlink_helpers.h:275-277 | three calls over header, payload and crc_extra give the checksum of their concatenation |
| Sender.MsgToSendBuffer | main/mavlink/c_library_v2/mavlink_helpers.h:451-492 | the buffer's first bytes are the message's layout, the rest of the buffer is untouched |
| Sender.FinalisedSerialises | main/mavlink/c_library_v2/mavlink_helpers.h:227-294 | a finalised message serialises to exactly its packet's encoding: trimming twice changes nothing |
| Transmission.ResultsConcat | main/mavlink/c_library_v2/mavlink_helpers.h:594-882 | the answers to a stream do not depend on how it is cut into reads |
| Transmission.FrameAnswered | main/mavlink/c_library_v2/mavlink_helpers.h:594-882 | any frame at all: silence up to its last byte, then its verdict, with a second report at the checksum only for a signed frame whose checksum is bad |
| Transmission.ReportedTwice | main/mavlink/c_library_v2/mavlink_helpers.h:771-828 | a signed frame with a bad checksum is answered FRAMING_BAD_CRC on its second checksum byte and again on its last byte, in every signing mode |
| Transmission.StreamAnswered | main/mavlink/c_library_v2/mavlink_helpers.h:594-882 | any list of frames, good or bad, signed or not, with quiet noise between: answered frame by frame and in place, each judged with the signing state the earlier ones left |
| Transmission.OpenChannelRoundTrip | main/mavlink/c_library_v2/mavlink_helpers.h:594-882 | everything properly encoded, v1 or v2, signed or not, is answered FRAMING_OK exactly once, on its last byte, by a channel without signing |
| Transmission.DeliveredContent | main/mavlink/c_library_v2/mavlink_helpers.h:763-766 | what such a channel hands out has the sender's header fields and the payload as it was before trimming (version 1 payloads are never trimmed), zero-extended to the message's full length |
| Transmission.SignedFrame | main/mavlink/c_library_v2/mavlink_helpers.h:283-291 | a signed transmission is genuine, on its sender's stream, with its timestamp |
| Transmission.VerdictIsAcceptance | main/mavlink/c_library_v2/mavlink_helpers.h:808-836 | the framing result of a signed frame is FRAMING_OK exactly when the signature check accepts it |
| Transmission.SignedRoundTrip | main/mavlink/c_library_v2/mavlink_helpers.h:77-211 | a run of signed frames from one sender, timestamps below 2^48, comes through the wire in full exactly when the receiver's table is ready for the first |
| EndToEnd.ReceiveAll | main/mavlink/c_library_v2/mavlink_helpers.h:926-933 | the channel object, fed a whole stream byte by byte from any state, gives exactly those answers, ledger and messages |
| EndToEnd.Exchange | main/mavlink/c_library_v2/mavlink_helpers.h:227-294 | one message from struct to struct, also looped back into the sending channel: finalised, serialised and fed to an idle channel it yields one answer, on the last byte, with the same header fields and the zero-extended payload; the answer is FRAMING_OK without signing, and with signing for an excused message id or a frame signed with the receiver's own key for which its table is ready, else FRAMING_BAD_SIGNATURE |
| EndToEnd.ReceiveMessages | main/mavlink/c_library_v2/mavlink_helpers.h:594-933 | any list of properly encoded messages, both versions, signed or not, with quiet noise between, fed to an idle channel object without signing: one FRAMING_OK each, on its frame's last byte, a message handed out there and nowhere else, with the sender's fields and untrimmed payload |
| EndToEnd.ParseAll | main/mavlink/c_library_v2/mavlink_helpers.h:1004-1024 | mavlink_parse_char in place of mavlink_frame_char, over any stream in which no frame is bad and from any state: the same answers, ledger and messages, and no restart |
| EndToEnd.ParseMessages | main/mavlink/c_library_v2/mavlink_helpers.h:1004-1024 | so any list of properly encoded messages comes through mavlink_parse_char as well, one FRAMING_OK each, with the sender's fields and untrimmed payload |
| Replay.LedgerIsRun | main/mavlink/c_library_v2/mavlink_helpers.h:594-882 | over any bytes, from any state, clock and table are those of the signature check run over the signed frames completed: noise, torn and unsigned frames leave them alone |
| Replay.StreamInOrder | main/mavlink/c_library_v2/mavlink_helpers.h:127-211 | in any byte stream the timestamps accepted on one signing stream (message ids not excused) strictly increase, and the clock ends at least at each |
| Replay.AcceptedAgainIff | main/mavlink/c_library_v2/mavlink_helpers.h:808-836 | a signed frame that a byte stream got accepted is accepted a second time by the same stream if and only if the application excuses its message id |
| Replay.StreamMonotone | main/mavlink/c_library_v2/mavlink_helpers.h:127-211 | no byte stream makes the clock or a stored timestamp go back, or breaks the table |
| Corruption.BurstCaught | main/mavlink/c_library_v2/mavlink_helpers.h:747-779 | changing one byte or two adjacent ones within flags to component id, within the payload, or within the checksum leaves a frame with a bad checksum |
| Corruption.CorruptionDetected | main/mavlink/c_library_v2/mavlink_helpers.h:747-779 | and the receiver, in any signing mode, answers FRAMING_BAD_CRC on its last byte and nothing before |
| Corruption.SignedFlagCaught | main/mavlink/c_library_v2/mavlink_helpers.h:771-791 | turning the signature flag on is reported as a bad checksum where the frame used to end |
| Corruption.MessageIdCorruption | main/mavlink/c_library_v2/mavlink_helpers.h:713-726 | a changed message id byte is answered FRAMING_OK if and only if the new id is in the table and the byte difference, shifted to the end of the payload, equals the difference of the two crc_extra values |
| Corruption.SystemTimeDisguised | main/mavlink/c_library_v2/common/common.h:26 | that happens in the common message set: SYSTEM_TIME with any four-byte payload turns into an accepted ACTUATOR_CONTROL_TARGET |
| Damage.AcceptedIff | main/mavlink/c_library_v2/mavlink_helpers.h:594-882 | over any byte stream FRAMING_OK is answered only if a good frame stands somewhere in it where the receiver is idle; without signing, if and only if |
| Damage.StartByteLost | main/mavlink/c_library_v2/mavlink_helpers.h:606-623 | a start byte damaged to an ordinary byte, whatever follows the frame: one silent byte, then the answers to the rest of frame and stream, read from idle |
| Damage.StartByteOfV1 | main/mavlink/c_library_v2/mavlink_helpers.h:615-640 | the start byte damaged to 0xFE: the frame is judged by version 1's layout four bytes early, its last four bytes bring no answer of their own, and what follows is read on from there |
| Damage.LengthLowered | main/mavlink/c_library_v2/mavlink_helpers.h:641-641 | a smaller length byte: the shortened frame's verdict on its last byte, then the answers to the remaining bytes and what follows, read from idle |
| Damage.LengthRaised | main/mavlink/c_library_v2/mavlink_helpers.h:641-641 | a larger length byte: silence until the longer frame is complete, which takes bytes of what follows, then its verdict, and the rest is read from idle |
| Damage.SignatureFlagged | main/mavlink/c_library_v2/mavlink_helpers.h:771-828 | the signature flag turned on: FRAMING_BAD_CRC where the frame used to end and, if thirteen more bytes come, once more, then the rest is read from idle |
| Damage.FlagsUnknown | main/mavlink/c_library_v2/mavlink_helpers.h:654-662 | an unknown incompatibility flag: three silent bytes, then the answers to the rest of frame and stream, read from idle |
| Damage.OneByteDamaged | main/mavlink/c_library_v2/mavlink_helpers.h:601-836 | any one byte of an unsigned version 2 frame changed to any other value, with any bytes behind it: FRAMING_OK is answered somewhere if and only if a good frame stands behind a lost start byte or unknown flag, or a lowered or raised length has a fitting checksum or a good frame behind it, or 0xFE's shorter extent has, or the message id condition holds, or a good frame stands in what follows (behind the thirteen bytes the signature flag swallows); only if, for a receiver with signing |
| Damage.PrecautionHolds | main/mavlink/c_library_v2/mavlink_helpers.h:601-836 | no start byte behind the first and no checksum in the payload that fits a shortened or version 1 reading: then, in any signing mode and unless the table disguises the message id or what follows fits a raised length, a damaged byte brings no FRAMING_OK, and at the frame's end (or that of the bytes a raised length or the signature flag swallows) the receiver is idle, so what follows is answered as if nothing had happened |
| Damage.PayloadOpened | main/mavlink/c_library_v2/mavlink_helpers.h:606-662 | it does fail: a packet whose payload is a good frame is answered FRAMING_OK with its start byte lost, or with an unknown flag |
| Damage.ShorterFormOpened | main/mavlink/c_library_v2/mavlink_helpers.h:641-641 | so is a packet whose payload ends in the checksum of its own shorter form, with its length byte lowered by two |
| Damage.OldFormOpened | main/mavlink/c_library_v2/mavlink_helpers.h:615-640 | so is a packet that carries the checksum of its own version 1 reading, with the start byte 0xFE |
| Damage.LongerFormOpened | main/mavlink/c_library_v2/mavlink_helpers.h:641-641 | so is any frame at all, also a guarded one, with its length byte raised by two, if the two bytes behind it are the checksum of that longer reading |
| Corruption.CrcLinear | main/mavlink/c_library_v2/checksum.h:35-43 | registers that differ by d differ by d shifted on, after any same bytes |
| Seqlock.WriteKeepsLock | main/fc_core.h:350-356 | every step of the writer keeps sequence, data and history of completed writes in step |
| Seqlock.ReadKeepsReader | main/fc_core.h:359-375 | every step of the reader keeps: while the even sequence it loaded has not moved, the words copied are the last completed value's |
| Seqlock.ReadIsAtomic | main/fc_core.h:350-375 | in every interleaving a read that returns true copied exactly the value last completely written when its s1 was loaded, given fewer than 2^31 writes between the two loads of a try |
| Seqlock.AliasedReadIsTorn | main/fc_core.h:350-375 | the bound is needed: a run with exactly 2^31 writes in between returns true with a value nobody wrote |
| Seqlock.ReadEnds | main/fc_core.h:359-375 | each reader step uses up a budget of sixteen tries, so every read ends whatever the writer does |
| Seqlock.GivesUpAfterSixteen | main/fc_core.h:359-375 | a read returns false only after sixteen tries, one after the other, each of which loaded an odd sequence number or two different ones |
| Seqlock.RestingWriterServes | main/fc_core.h:359-375 | if the writer rests from some point on and at most fifteen tries have been begun by then, the read never gives up, always has a next step until it returns true, and has then copied the last completed value |
| Seqlock.StuckWriterFails | main/fc_core.h:296-308 | with the writer stopped between its two increments no read returns true |
| Seqlock.RestingWriterSucceeds | main/fc_core.h:359-375 | with the writer at rest a read succeeds on its first try |
| MotorCommands.Bridge.ActuatorToSeqlock | main/fc_px4_modules.cpp:299-343 | not armed, or lockdown, kill or termination: an all-zero stop command stamped now, at once; otherwise a fresh sample is forwarded with NaN made zero, and without one nothing is written |
| MotorCommands.WordsRoundTrip | main/fc_core.h:338-348 | a command survives being copied as words |
| MotorCommands.ThrottleShape | main/fc_core.c:369-382 | throttles lie in 48..2047, are minimal exactly below one step, and rise with the control value |
| MotorCommands.ThrottleValue | main/fc_core.c:369-382 | the throttle is 48 plus 1999 times the control, rounded down, for a control from 0 to 1; 48 below that and for NaN, 2047 above |
| MotorCommands.ThrottlesAre | main/fc_core.c:521-540 | a successful read of a valid command aged from 0 to below 100000 microseconds drives each control's own throttle, anything else 48 |
| MotorCommands.DrivenMeansFresh | main/fc_core.c:521-540 | above the minimum only for a fresh, valid command that asks for it |
| MotorPath.StepKeeps | main/fc_core.c:518-541 | the invariant over both cores, the shared words and the clock is kept by every step of any interleaving |
| MotorPath.DrivenAsCommanded | main/fc_core.c:518-541 | in every run each pass of Core 1 drives, on each motor, the throttle of the sample of the call it read if that call saw the gate open and was stamped less than 100 ms before the clock reading, and 48 otherwise, also if the read failed |
| MotorPath.Traceability | main/fc_px4_modules.cpp:317-342 | a motor above the minimum is traced to one completely written call that saw armed and not lockdown, kill or termination, stamped less than 100 ms before |
| MotorPath.Core0Death | main/fc_core.c:521-540 | if Core 0 takes no step after time T, wherever it stopped, passes with a clock reading from T + 100 ms on drive all motors at exactly the minimum |
| MotorPath.ShutStaysShut | main/fc_px4_modules.cpp:318-342 | after a call that saw the gate shut has written, every pass that loads its s1 afterwards, also one that was already spinning or about to try again, takes that call's all-zero stop command or a later one, and drives a motor above the minimum only for a later call that saw the gate open |
| MotorPath.NoCommandAfterSixteen | main/fc_core.h:359-375 | in any run of both cores a pass is left without a command only after sixteen tries of its read, each failed by the writer |
| MotorPath.CallWrites | main/fc_px4_modules.cpp:299-343 | a whole bridge call, its steps interleaved with Core 1 and the clock in any way, adds nothing or exactly one value to what was written: the command MotorCommands.Bridge.ActuatorToSeqlock returns for the gate and sample it saw and a clock reading within the call |
| Dshot.EncodeFrame | main/fc_core.c:86-102 | throttle (clipped) and telemetry bit can be read back from the frame |
| Dshot.PulsesSpellFrame | main/fc_core.c:127-140 | the sixteen pulses decode to the frame |
| Dshot.PulseShape | main/fc_core.c:127-140 | pulse i shows the frame's bit of weight 2^(15 - i): high then low, 50 and 17 ticks for a one, 25 and 42 for a zero |
| Dshot.ToggleFlips | main/fc_core.c:96-98 | the exclusive or with 0x0D flips the bits of weight 1, 4 and 8 |
| Dshot.ChecksumOf1046 | main/fc_core.c:92-100 | the register left for throttle 1046 (ChecksumOf48: for 48 with telemetry), worked out round by round |
| Dshot.Motor.SetThrottle | main/fc_core.c:104-144 | an existing channel gets one more transmission, which decodes to the clipped throttle; a missing one is left alone |
| Dshot.MixerApply | main/fc_core.c:369-382 | each existing channel is sent its own control's throttle, no channel disturbs another |
| Dshot.DriveMotors | main/fc_core.c:528-540 | after the block every existing channel drives the throttle the freshness test and NaN guard allow |
| Schedule.SignedDifferenceExact | main/fc_core.c:450 | the wrapped signed difference of two readings is the exact one if and only if that fits in 32 bits |
| Schedule.Spin | main/fc_core.c:449-453 | the loop ends on the first poll at the exact ideal time or later, across any number of wraps |
| Schedule.TrueJitter | main/fc_core.c:559-564 | the reported jitter is the exact distance from the ideal, divided by 360 |
| Schedule.Loop.Iterate | main/fc_core.c:448-571 | one pass keeps the target at start + (k + 1) * 45000 modulo 2^32, whatever the lag |
| Schedule.Loop.Report | main/fc_core.c:586-611 | the published minimum, maximum and average are those of exactly the last 40000 passes |
| Schedule.RunLoop | main/fc_core.c:441-571 | over whole runs: pass k never wakes before start + (k + 1) * 45000, late passes shift nothing, jitter is the exact lag |
| Ulog.Receiver.CheckSequence | main/PX4/Tools/mavlink_ulog_streaming.py:171-186 | whatever unbounded packet indices the two 16-bit numbers stand for, if they are less than 2^15 apart the packet is taken as newer if and only if its index is larger, and the drop count is the number of packets in between |
| Ulog.SequenceExact | main/PX4/Tools/mavlink_ulog_streaming.py:171-186 | within 2^15 - 1 of the last accepted packet the wrapped numbers decide as the true indices would, with the exact drop count |
| Ulog.SequenceTie | main/PX4/Tools/mavlink_ulog_streaming.py:179-185 | at a distance of exactly 2^15 packets, ahead or behind, acceptance depends only on the last number being below 2^15 |
| Ulog.Receiver.WriteUlogMessages | main/PX4/Tools/mavlink_ulog_streaming.py:224-233 | the loop writes the complete messages at the front and returns the rest |
| Ulog.WholeThenRest | main/PX4/Tools/mavlink_ulog_streaming.py:224-233 | nothing is lost or reordered between what is written and what is returned |
| Ulog.MessageSplit | main/PX4/Tools/mavlink_ulog_streaming.py:224-233 | a message (two length bytes, least significant first, type, payload) that has come whole is split off and the rest goes on behind it |
| Ulog.TornMessage | main/PX4/Tools/mavlink_ulog_streaming.py:224-233 | one that has not come whole stays pending, all of it |
| Ulog.RecordFormat | main/PX4/Tools/mavlink_ulog_streaming.py:200-204 | the dropout record reads back as a two-byte message of type 'O' with 10 ms for each lost packet, at most 250 |
| UlogStream.PacketFormat | main/PX4/Tools/mavlink_ulog_streaming.py:189-221 | the header is the first sixteen bytes of the first packet; any other packet's offset is that of the first message start in it, and 255 if there is none |
| Ulog.Receiver.ProcessStreamedUlogData | main/PX4/Tools/mavlink_ulog_streaming.py:189-221 | file, pending bytes and header flag after one packet, including the too-short first packet |
| Ulog.Receiver.Receive | main/PX4/Tools/mavlink_ulog_streaming.py:139-166 | one data message: accounting, header-section flag, last sequence number and reassembly |
| UlogStream.SplitAtBoundary | main/PX4/Tools/mavlink_ulog_streaming.py:224-233 | from a message boundary on, exactly the messages that end within the data are split off |
| UlogLoss.TakeShows | main/PX4/Tools/mavlink_ulog_streaming.py:213-221 | a packet with the sender's offset completes the pending message and splits off those behind it |
| UlogLoss.FlushShows | main/PX4/Tools/mavlink_ulog_streaming.py:200-207 | after a loss the pending message is written if and only if it was complete |
| UlogLoss.Accounting | main/PX4/Tools/mavlink_ulog_streaming.py:152-162 | exactly the arrivals newer than all before are accepted, and accepted packets plus num_dropouts equal last minus first index plus one |
| UlogLoss.Reassembly | main/PX4/Tools/mavlink_ulog_streaming.py:189-233 | with the first packet arriving first, and any others lost, repeated or late, the file is the header, whole source messages and dropout records |
| UlogLoss.ReadMessages | main/PX4/Tools/mavlink_ulog_streaming.py:77-110 | the receiver object reaches exactly that state by its own loop |
| UlogIntact.SavedExactly | main/PX4/Tools/mavlink_ulog_streaming.py:189-233 | the messages in the file are in source order, each once, and are exactly those of which every packet was accepted (the last may still be pending, complete) |
| UlogIntact.LosslessReassembly | main/PX4/Tools/mavlink_ulog_streaming.py:189-233 | without losses file plus pending bytes equal what was sent so far, after every packet and for every way of cutting the stream, also inside message headers |
| Quaternion.QuaternionToDcm | main/mavlink/c_library_v2/mavlink_conversions.h:39-58 | the columns of the matrix are the axes rotated by the quaternion, q v q* |
| Quaternion.Units | main/mavlink/c_library_v2/mavlink_conversions.h:39-58 | the product meant is Hamilton's: i, j and k square to -1, ij = k, jk = i, ki = j (and it distributes over sums: DistributesLeft, DistributesRight; and q times its conjugate is its squared length: ConjugateIs) |
| Quaternion.UnitRotates | main/mavlink/c_library_v2/mavlink_conversions.h:39-58 | for a unit quaternion the rows are unit vectors at right angles and form a right-handed frame |
| Quaternion.DcmToQuaternion | main/mavlink/c_library_v2/mavlink_conversions.h:147-179 | from the matrix of a unit quaternion all four branches return it up to sign, with no root of a negative number and no division by zero |
| Quaternion.LargestDiagonal | main/mavlink/c_library_v2/mavlink_conversions.h:158-166 | the loop finds an index of a largest diagonal element |
| Quaternion.SameMatrix | main/mavlink/c_library_v2/mavlink_conversions.h:39-58 | the sign cannot be recovered: q and -q have the same matrix |
| Quaternion.RoundTrip | main/mavlink/c_library_v2/mavlink_conversions.h:39-179 | there and back returns every unit quaternion up to sign |
| Uploader.FlashesImage | main/PX4/Tools/px4_uploader.py:1013-1015 | the frames' payloads, one after the other, are exactly the image |
| Uploader.FrameAt | main/PX4/Tools/px4_uploader.py:995-1015 | frame i is 0x27, a length byte, the bytes of the image from 252 * i on, at most 252, and 0x20, and there is one for every 252 bytes or part of them |
| Uploader.AckedIs | main/PX4/Tools/px4_uploader.py:654-694 | the pairs are 0x12, 0x10 |
| Uploader.BootloaderProtocol.GetSync | main/PX4/Tools/px4_uploader.py:654-694 | fine exactly if INSYNC and OK come next, and then those two bytes are used up; each other answer, by its bytes, raises its own error |
| Uploader.BootloaderProtocol.ValidateSyncWindow | main/PX4/Tools/px4_uploader.py:720-756 | fine exactly if the window consists of such pairs; otherwise a timeout if too few bytes come, else the error of the first bad pair |
| Uploader.BootloaderProtocol.Program | main/PX4/Tools/px4_uploader.py:995-1039 | succeeds exactly if the answers begin with one pair per chunk still due; then exactly the image's frames were sent and exactly those bytes read; a failed upload sent a part of the frames |
| Uploader.BothModes | main/PX4/Tools/px4_uploader.py:995-1039 | the windowed and the unwindowed mode accept the same uploads |

## Left out

* ESP-IDF, RMT, SPI, Ethernet, NVS, Wi-Fi, BLE, HTTP and LittleFS code; transmissions end at the symbols handed to RMT.
* The PX4 flight stack: `actuator_armed` and `actuator_motors` are inputs, the latter with a new-sample flag.
* The RISC-V weak memory model: the fences are taken to give sequential consistency. esp_timer is one nondecreasing clock shared by both cores. The options FC_CORE1_MOTOR_OUT, FC_CORE1_STALE_GUARD and FC_CORE1_MOTOR_SAFEGATE are on.
* Writers other than fc_ekf_task: the motor command has one writer and one reader.
* The EKF output seqlock and its 500 ms health test: the same protocol as the motor command's (`Seqlock` is generic in the words), with a simpler consumer.
* Float rounding in the mixer and in the quaternion conversions: exact reals, with NaN and the infinities where the motor path tests for them; the square root is a parameter known only by its defining property.
* Euler-angle conversions and the other trigonometry of mavlink_conversions.h.
- Dshot.EncodeFrame: does not say that the low four bits are the usual DShot checksum, because the shift-register loop of fc_core.c:92-100 computes something else; they are stated as what that loop leaves.
- Sha256.HashParts: says nothing about single updates of 2^29 bytes or more, for which the count is wrong; Sha256.CountIsExactIffShort is the exact limit.
- Sha256.Context.Update: states the count after updates of any size, but that it is the message's length only below 2^29 bytes.
- Seqlock.ReadIsAtomic: assumes fewer than 2^31 writes between the two sequence loads of one try; Seqlock.AliasedReadIsTorn shows why.
- MotorPath.Traceability: makes the same assumption, as part of what a run is; so do the other statements over runs.
- Ulog.SequenceExact: covers distances below 2^15 packets, Ulog.SequenceTie the distance 2^15; beyond that 16-bit numbers cannot tell ahead from behind.
- Corruption.BurstCaught: two damaged bytes within one region of the frame only; two that straddle regions, or hit start byte, length or message id, are left out. Single damaged bytes are covered everywhere, by Damage.OneByteDamaged.
- EndToEnd.Exchange: says nothing of the answer to a frame signed with another key, which is FRAMING_OK if the 48-bit hashes happen to agree, or with a clock from 2^48 on, which does not fit the block. Runs of signed messages are covered on values, by Transmission.SignedRoundTrip and Replay.
- EndToEnd.ParseAll: streams without bad frames; after a bad one mavlink_parse_char may restart, which Channels.Channel.ParseChar and Reception.RestartAgrees state byte by byte.
- Damage.OneByteDamaged: for a receiver with signing only one direction, because whether it accepts the frame it meets there is up to its key, its table and its accept_unsigned callback.
* Frames that arrive untrimmed and are serialised again: their length byte changes while the stored checksum does not.
* `_mav_finalize_message_chan_send`, resend_uart and the UART convenience functions: the same header, checksum and signature steps on another output.
* MAVLINK_CHECK_MESSAGE_LENGTH, which is off, and the branch of GOT_STX for a buffer overrun, which cannot be reached because the result has just been set to incomplete.
* The copy of channel statistics to r_mavlink_status, and r_message->len as a progress indicator before a frame is complete. Payload bytes beyond max_msg_len in the delivered copy are left over from earlier traffic.
* The accept_unsigned callback is a function of the message id, not of the whole status.
* Target-system fields of the message table; one table per receiver, sorted and not empty. Little-endian layout of the packed message struct.
* put_bitfield_n_by_index: it masks the value with zero, so it has no useful property.
* Acknowledgements, heartbeats, printing and time limits of the ULog tool; its file is a sequence of bytes.
* Uploader port detection, progress, timing, erase, CRC32, verification and signature commands; the bytes the bootloader will answer are given, and a receive that wants more of them times out.
* Other timing statistics of the 8 kHz loop (compute time, overruns, load), which are of the same kind as the true jitter's.
* Parameter generators, log analysis, CI scripts and the HIL bridges.
