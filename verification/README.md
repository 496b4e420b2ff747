# Quick Share transfer stack, media pipeline and supervisor: a Dafny model

This project models the parts of the receiver whose promises span whole runs, and proves them.

**The Quick Share transfer stack**, from TCP bytes to a published file. `Framing` is the length-prefix
decoder, `Wire` the hand-written protobuf subset with its in-place reader, `Messages`, `Offline`,
`Payload`, `ControlFrames` and `Ukey2Wire` the message codecs, `FieldLoops` what all their field loops
have in common, `FrameAnswers` what the decoders say to frames that are not for them. `Handshake` has
the two UKEY2 state machines, `Session` and `SessionObjects` the session that is fed fragments and
guards payloads behind a confirmation code, `HonestSessions` two such sessions meeting, `Refusals` what
each turned-down message is turned down for and does to a session, `Confirmation` what it means that
two sessions show one code. `SecureChannel` is the sequence-numbered encrypted channel with its key
schedule. `SpoolNames`, `Spool` and `SpoolAnswers` are the spool, `Receive`, `Introductions`,
`ReceiveRuns`, `ReceiveAnswers`, `ReceiveSessions` and `SessionBudget` the receive session over it, and
`Collisions` concrete runs in which it breaks its promises. `Transfers` is the sending side of a file.
`EndToEnd` says that what is published is what was sent, whatever the network and the session do
besides; `Deliveries` says what arrives, and that it is published; `TransportChain` composes the
handshake objects, the key derivation, the channels and the receive session as the demo does.

**Around it**, `KeepAlive` (two peers watching each other), `MediaFrames`, `Mirror` with
`MirrorFormats`, and `Resample` with `AudioRuns` (the media data plane, the mirror track with its
bounded queue, the audio track with its resampler), `EventBus` (the bounded log), `Workers` with
`WorkerAnswers` (the restart limiter), `Registry` with `RegistryLives` (offers and sessions) and
`Castv2` with `CastAnswers` (the CASTV2 envelope).

**Form.** What the program changes in place is a class whose methods update fields, with a function
that gives the state as a value; each method is proved against a function on that value, and the
theorems are lemmas about runs of those functions. Loops of the program are loops here. `Prelude`
holds bytes, machine integers and sequence facts.

**Cryptography.** Hash, MAC, cipher, key derivation and key agreement are function-valued parameters.
The hypotheses a theorem needs of them stand in its `requires`: decryption inverts encryption, key
agreement commutes, a message that verifies was produced by the key holder, outputs have their
lengths, two given messages do not collide.

**Machine integers.** The i32 frame counter and the u64 total of an introduction wrap, as they do in a
release build (a debug build stops instead). Casts of signed numbers to u64 and back are written out,
as is division that truncates toward zero.

## Where the code does less than its documentation says

- A refused introduction is documented to leave no temporary file. A file whose name holds the delete
  character passes the path rules and is refused only after the files in front of it were set up, and
  so is one whose coming temporary name is taken by a published file
  (`Introductions.RefusalLeavesNothingIff` gives the exact condition, `Collisions.TakenNameRefuses` an
  input).
- The second file of a folder is never published: directories are created one by one and an existing
  one is an error (`Spool.CommitSucceedsIff`, `Spool.FolderPublishesOnce`,
  `Collisions.FolderLosesSecond`).
- An entry is looked up by a text in its path, so a root that contains a later entry's text sends
  writes to the wrong entry (`Spool.LookupExactIff`, `Collisions.LookupGoesAstray`).
- A file may be named like another entry's temporary file and then replaces it
  (`ReceiveRuns.FinishKeepsCouplingIff` and `Spool.CommitSoundIff`, `Collisions.ClashIsReached`).
- A file published under a name that was published before replaces it, and the earlier receipt is no
  longer true (`Spool.CommitKeepsReceiptsIff`, `Collisions.SameNameReplaces`).
- Cancelling keeps the temporary file of an entry that is complete but not published
  (`ReceiveRuns.CancelOutcome`, `Collisions.CancelLeavesComplete`).
- The declared sizes are summed in 64 bits that wrap: files that pass the budget check keep to the
  budget exactly when their true sum is below 2^64 (`Introductions.BudgetHoldsIff`,
  `Introductions.OverBudgetAccepted`).
- The budget is documented as what a session may write, and is looked at per introduction: payload
  frames can exceed it exactly when what is stored and what can still be received are more
  (`SessionBudget.CapCanBeExceededIff`, `SessionBudget.BudgetIsPerIntroduction`). So are payload ids: a
  second entry of one that is in use gets nothing (`SessionBudget.ShadowedGetsNothing`).
- The payload printer allows chunks of 4 MiB, the reader fields of 1 MiB (`Payload.TransferRoundTrip`).
- A negative operating-system type is printed but refused (`ControlFrames.PairedKeyResultRoundTrip`).
- Frames in front of a refused header are lost when they came in the same call
  (`Framing.ChunkIndependentIff`, `Framing.LostInOnePush`).
- The deadline of a client session counts from zero instead of from its start
  (`HonestSessions.ClientGivenUpEarlyIff`, `HonestSessions.ClientClockStartsAtZero`).
- An alert ends the session, but the frames behind it in the same call are still processed and may
  still be answered (`Refusals.CallGoesOnAfterAlert`).
- Configuring the mirror track is documented to clear the frames of the old format; what waits reaches
  the sink behind the new format instead (`MirrorFormats.FormatOvertakesQueueIff`).
- A cursor of zero is never told of a gap (`EventBus.CursorNeverSkips`,
  `EventBus.ZeroIsNotTold`).
- The restart limit counts every exit of a worker, clean ones included. Under a clock that steps back
  a decision may be made on less than the exits in its window: exactly when one of them was followed
  by an exit whose own window began after it (`Workers.DecisionIsExact`, `Workers.ClockMustNotStepBack`;
  `Workers.RestartsAreBounded` needs no more than that this does not happen).
- The session registry overwrites a record whose id is registered again (`Registry.StepKeepsBalanceIff`,
  `Registry.RegisteredAgainCountsTwice`, `Registry.RegisteredAgainCleansTwice`).

## Model

| member | source | states |
|---|---|---|
| Wire.VarintRoundTrip | impl/crates/proto-quickshare/src/wire.rs:99-164 | reading inverts writing for every u64, whatever follows, in at most ten bytes |
| Wire.FieldRoundTrip | impl/crates/proto-quickshare/src/wire.rs:111-222 | every field within the reader's limits comes back with its number, wire type and value, and nothing of what follows is touched |
| Wire.OversizeFieldRefused | impl/crates/proto-quickshare/src/wire.rs:116-190 | a length-delimited field over 1 MiB is written but never read back: it is refused for the limit |
| Wire.FieldLocal | impl/crates/proto-quickshare/src/wire.rs:138-222 | what a field was read as does not depend on what follows it, and what follows is left as it was |
| Wire.RunOfEncoded | impl/crates/proto-quickshare/src/wire.rs:234-257 | a decoder run over a printed message absorbs exactly its fields, in order |
| Wire.RunAppend | impl/crates/proto-quickshare/src/wire.rs:241-257 | at a field boundary any decoder can be stopped and resumed |
| Wire.UnknownFieldsSkipped | impl/crates/proto-quickshare/src/wire.rs:192-222 | well-formed unknown fields inserted at any field boundary change neither value nor error of any decoder |
| Wire.FieldsRoundTrip | impl/crates/proto-quickshare/src/wire.rs:99-222 | a printed field list parses to itself |
| Wire.WriteVarint | impl/crates/proto-quickshare/src/wire.rs:99-109 | the loop appends exactly the canonical integer |
| Wire.WriteScalarField | impl/crates/proto-quickshare/src/wire.rs:111-114 | key and value are appended, in that order |
| Wire.WriteBytesField | impl/crates/proto-quickshare/src/wire.rs:116-120 | key, length and bytes are appended, in that order |
| Wire.Reader.Byte | impl/crates/proto-quickshare/src/wire.rs:142-149 | one byte, or an error that moves nothing |
| Wire.Reader.Varint | impl/crates/proto-quickshare/src/wire.rs:151-164 | the in-place loop agrees with the recursive definition on value, error and remaining bytes, and moves forward on success |
| Wire.Reader.BytesField | impl/crates/proto-quickshare/src/wire.rs:167-190 | limit before bounds before slice; the remaining bytes are exactly those after the field |
| Wire.Reader.Fixed | impl/crates/proto-quickshare/src/wire.rs:192-212 | skips of four and eight bytes stay in bounds |
| Wire.Reader.NextKey | impl/crates/proto-quickshare/src/wire.rs:215-222 | field number cut to 32 bits before the zero check, wire type from the low three bits |
| Wire.Reader.NextField | impl/crates/proto-quickshare/src/wire.rs:192-222 | one field, strictly forward |
| Wire.Decode | impl/crates/proto-quickshare/src/wire.rs:241-257 | the loop over a moving reader ends and equals the fold over the parsed fields |
| Messages.GatherTotal | impl/crates/proto-quickshare/src/wire.rs:359-381 | a decoder that only collects the last value of some fields fails exactly when the bytes are not whole fields, with the reader's error |
| Messages.GatherLastWins | impl/crates/proto-quickshare/src/wire.rs:555-571 | in such a decoder, on every input of whole fields, each slot holds the last occurrence of its field |
| Messages.GatherEncoded | impl/crates/proto-quickshare/src/payload.rs:296-323 | what a printer wrote gives back its last values |
| Messages.GatherSkipsUnknown | impl/crates/proto-quickshare/src/payload.rs:296-323 | unknown fields at any boundary change nothing |
| Messages.OversizeNeverDecodes | impl/crates/proto-quickshare/src/wire.rs:166-190 | once one field is too long for the reader, nothing printed around it can be decoded |
| FieldLoops.HeaderLastWins | impl/crates/proto-quickshare/src/payload.rs:257-294 | whenever the header loop succeeds, each slot is the decoding of the last occurrence of its field, or what it was before |
| FieldLoops.TransferLastWins | impl/crates/proto-quickshare/src/payload.rs:209-255 | the same for the payload body with its nested header and chunk |
| FieldLoops.KeepAliveLastWins | impl/crates/proto-quickshare/src/control.rs:103-119 | the same for the keep-alive body |
| FieldLoops.ResultLastWins | impl/crates/proto-quickshare/src/control.rs:470-497 | the same for the paired-key result |
| FieldLoops.EnvelopeLastWins | impl/crates/proto-quickshare/src/wire.rs:241-257 | the same for the outer handshake message, whose loop also refuses unknown types |
| FieldLoops.KeyLastWins | impl/crates/proto-quickshare/src/wire.rs:432-463 | the same for the public key with its nested coordinates |
| FieldLoops.ClientInitLastWins | impl/crates/proto-quickshare/src/wire.rs:292-338 | the same for ClientInit, whose commitments are collected in order instead |
| FieldLoops.OuterOfV1 | impl/crates/proto-quickshare/src/control.rs:151-185 | what a frame is decoded to depends on nothing but its V1Frame once the version is right |
| FieldLoops.V1SkipsUnknown | impl/crates/proto-quickshare/src/control.rs:157-185 | unknown fields at any boundary of a V1Frame change nothing |
| FieldLoops.HeaderSkipsUnknown | impl/crates/proto-quickshare/src/payload.rs:257-294 | nor in a payload header |
| FieldLoops.ChunkSkipsUnknown | impl/crates/proto-quickshare/src/payload.rs:296-323 | nor in a payload chunk |
| FieldLoops.KeepAliveSkipsUnknown | impl/crates/proto-quickshare/src/control.rs:103-119 | nor in a keep-alive body |
| FieldLoops.DisconnectionSkipsUnknown | impl/crates/proto-quickshare/src/control.rs:791-841 | nor in a disconnection body |
| FieldLoops.EnvelopeSkipsUnknown | impl/crates/proto-quickshare/src/wire.rs:241-257 | nor in the outer handshake message |
| FieldLoops.ClientInitSkipsUnknown | impl/crates/proto-quickshare/src/wire.rs:292-338 | nor in ClientInit |
| Offline.OfflineRoundTrip | impl/crates/proto-quickshare/src/control.rs:122-185 | type and body come back exactly when the V1Frame is within the field limit; otherwise the frame is refused |
| Offline.TypeIndependentOfBody | impl/crates/proto-quickshare/src/control.rs:151-185 | a frame has one type, whichever body its reader is after |
| Offline.OuterSkipsUnknown | impl/crates/proto-quickshare/src/control.rs:157-185 | after the version field, unknown fields at any boundary do not change the outer frame |
| Payload.TransferRoundTrip | impl/crates/proto-quickshare/src/payload.rs:147-255 | parsing inverts printing, negative ids and flags included, exactly when the V1Frame is at most 1 MiB; a longer frame is printed and never parsed |
| Payload.ParseTransfer | impl/crates/proto-quickshare/src/payload.rs:191-255 | the nested loops over readers compute the specified decoder |
| Payload.HeaderRoundTrip | impl/crates/proto-quickshare/src/payload.rs:147-294 | payload headers round-trip with presence of name and folder kept |
| Payload.ChunkRoundTrip | impl/crates/proto-quickshare/src/payload.rs:147-323 | chunks round-trip, negative flags included |
| ControlFrames.KeepAliveRoundTrip | impl/crates/proto-quickshare/src/control.rs:89-148 | keep-alive frames round-trip with the presence of the ack and seq fields kept |
| ControlFrames.DisconnectionRoundTrip | impl/crates/proto-quickshare/src/control.rs:773-841 | all nine presence/value combinations of the two flags survive |
| ControlFrames.ReplyNeedsNoReply | impl/crates/proto-quickshare/src/control.rs:759-855 | the reply to a safe-disconnect request decodes and asks for no further reply |
| FrameAnswers.VersionAnswer | impl/crates/proto-quickshare/src/control.rs:122-148 | all four decoders tell a frame of another version from one that does not begin with a version, and look into neither |
| FrameAnswers.TypeAnswer | impl/crates/proto-quickshare/src/control.rs:151-185 | a frame of each type is not supported by every decoder but its own; only to the keep-alive decoder a paired-key encryption is invalid |
| FrameAnswers.NoBodyAnswer | impl/crates/proto-quickshare/src/control.rs:151-185 | a frame of the right type that carries another body is invalid |
| FrameAnswers.LengthAnswer | impl/crates/proto-quickshare/src/wire.rs:166-190 | a length over 1 MiB is refused for the limit whether or not the bytes are there, one within it as invalid when they are not |
| FrameAnswers.PrintAnswer | impl/crates/proto-quickshare/src/payload.rs:100-146 | a payload frame is not printed exactly when its chunk is over 4 MiB |
| FrameAnswers.SequenceAnswer | impl/crates/proto-quickshare/src/control.rs:103-119 | a keep-alive is read exactly when its number fits 32 bits, and is invalid otherwise |
| FrameAnswers.DisconnectAnswer | impl/crates/proto-quickshare/src/control.rs:844-855 | what is done about each disconnection: closed, noted, or answered |
| ControlFrames.OuterDecodersDisjoint | impl/crates/proto-quickshare/src/control.rs:134-185 | no byte string is accepted by two of the payload, keep-alive and disconnection decoders |
| ControlFrames.OuterDecodersSkipUnknown | impl/crates/proto-quickshare/src/control.rs:151-185 | unknown fields after the version field change none of the three decoders |
| ControlFrames.TransferBodySkipsUnknown | impl/crates/proto-quickshare/src/payload.rs:209-255 | unknown fields inside the payload body change nothing |
| ControlFrames.PairedKeyResultRoundTrip | impl/crates/proto-quickshare/src/control.rs:440-497 | round-trips exactly when the operating-system type is absent or not negative; a negative one is printed and refused |
| SecureChannel.PairRoundTrip | impl/crates/proto-quickshare/src/wire.rs:548-580 | the two-field envelopes come back exactly when both fields are within the limit |
| SecureChannel.HeaderRoundTrip | impl/crates/proto-quickshare/src/wire.rs:598-639 | signed header with schemes, IV and metadata round-trips |
| SecureChannel.DeviceRoundTrip | impl/crates/proto-quickshare/src/wire.rs:649-672 | the sequence-numbered message round-trips for every i32, exactly within the field limit |
| SecureChannel.PlaintextFits | impl/crates/proto-quickshare/src/secure_message.rs:160-186 | every plaintext up to 256 bytes below the limit can be opened by the peer |
| SecureChannel.OpenGenuine | impl/crates/proto-quickshare/src/secure_message.rs:189-236 | an authenticated envelope yields nothing but its own plaintext, and only at its own sequence number |
| SecureChannel.OpenSealed | impl/crates/proto-quickshare/src/secure_message.rs:160-236 | a sealed frame that fits opens exactly when its number is the expected one |
| SecureChannel.SecureMessageChannel.constructor | impl/crates/proto-quickshare/src/secure_message.rs:91-149 | each role sends with the keys the other receives with; both counters start at one |
| SecureChannel.SecureMessageChannel.Seal | impl/crates/proto-quickshare/src/secure_message.rs:160-186 | the frame carries the next number; the counter advances by one, wrapping at 32 bits |
| SecureChannel.SecureMessageChannel.Open | impl/crates/proto-quickshare/src/secure_message.rs:189-236 | refuses without moving the counter, otherwise returns the plaintext and advances by one |
| SecureChannel.ParsePair | impl/crates/proto-quickshare/src/wire.rs:555-596 | the field loop of the two-field envelopes computes the specified decoder |
| SecureChannel.EndsMatch | impl/crates/proto-quickshare/src/secure_message.rs:91-149 | from one non-empty secret: what one end sends with the other receives with, and each end sends with the two keys expanded from the secret of its own label, "client" or "server" |
| SecureChannel.KeysSeparate | impl/crates/proto-quickshare/src/secure_message.rs:91-126 | where the derivation does not collide on the inputs of the schedule, the four keys of a connection are four different keys |
| SecureChannel.OnlyTheOtherEndOpens | impl/crates/proto-quickshare/src/secure_message.rs:91-236 | a frame either end seals opens at the other end and, reflected, is refused by the end that sealed it; such a reflection forges nothing and moves no run |
| SecureChannel.OpenedIsPrefixOfSealed | impl/crates/proto-quickshare/src/secure_message.rs:160-236 | under any drop, duplication, reordering and injection of unforged frames, with fewer than 2^32 seals, the opened plaintexts are a prefix of the sealed ones |
| SecureChannel.OpenedWasSealed | impl/crates/proto-quickshare/src/secure_message.rs:160-236 | under the same network and however many frames there were, whatever was opened was sealed |
| SecureChannel.ReplayAfterWrap | impl/crates/proto-quickshare/src/secure_message.rs:189-236 | that bound is exact: in the run of 2^32 frames over a lossless connection and the first one again, which is an ideal run, the repeated frame is accepted |
| SecureChannel.LosslessDeliversAll | impl/crates/proto-quickshare/src/secure_message.rs:160-236 | over a lossless ordered connection every message that fits arrives, in order |
| SecureChannel.LosslessIsIdeal | impl/crates/proto-quickshare/src/secure_message.rs:160-236 | a lossless run forges nothing: it is one of the ideal runs |
| SecureChannel.AlteredIsRefused | impl/crates/proto-quickshare/src/secure_message.rs:189-236 | a sealed frame with its last byte altered is refused, whatever number is expected, and as an integrity failure if it would have arrived |
| SecureChannel.WrittenAnswer | impl/crates/proto-quickshare/src/secure_message.rs:189-236 | what any written frame is refused for: schemes ahead of the tag, the tag ahead of vector and ciphertext, then the vector, the padding and the number |
| SecureChannel.SequenceNumbersDistinct | impl/crates/proto-quickshare/src/secure_message.rs:160-186 | two frames of a direction share a number exactly when their positions differ by a multiple of 2^32 |
| Framing.FrameDecoder.Push | impl/crates/proto-quickshare/src/framing.rs:37-71 | one push takes every whole frame off buffer and chunk, leaves the rest, and reports a refused header while dropping the frames of that call |
| Framing.DrainInvertsEncode | impl/crates/proto-quickshare/src/framing.rs:37-80 | parsing a stream of printed non-empty frames within the limit gives the frames and leaves nothing |
| Framing.EncodeInvertsDrain | impl/crates/proto-quickshare/src/framing.rs:37-80 | every stream is its frames printed, then its rest; without an error the rest is shorter than 4 + limit |
| Framing.DrainAppend | impl/crates/proto-quickshare/src/framing.rs:37-71 | parsing can stop anywhere and resume with the rest in front of what comes next |
| Framing.ErrorRepeats | impl/crates/proto-quickshare/src/framing.rs:45-61 | a refused header is refused again on every later push |
| Framing.ChunksRefineDrain | impl/crates/proto-quickshare/src/framing.rs:37-71 | for every chunking the buffer is that of the one-shot parser and the output a prefix of its frames, all of them when no header is refused |
| Framing.ChunkIndependentIff | impl/crates/proto-quickshare/src/framing.rs:37-71 | fragmentation is invisible exactly when no header is refused or the refused one is the first |
| Framing.LostInOnePush | impl/crates/proto-quickshare/src/framing.rs:37-71 | a frame and a header of length zero: in one push the frame is lost, in two it is delivered |
| Framing.CutDeliversAll | impl/crates/proto-quickshare/src/framing.rs:45-61 | the frames a single push loses in front of a refused header are delivered when the cut is made there |
| SpoolNames.OfferRefusesOnlyDelete | impl/crates/interop-contract/src/offer.rs:80-110 | on names the path rules accept, the entry rules refuse exactly those with the delete character |
| SpoolNames.SafePathStaysBelow | impl/crates/interop-file/src/path.rs:17-70 | a path the rules accept, joined and taken apart at every separator, is the same path with no empty, "." or ".." part |
| SpoolNames.ReservedRefused | impl/crates/interop-file/src/path.rs:54-70 | device names are refused in whatever case, with or without an extension |
| SpoolNames.NeedleInPath | impl/crates/interop-file/src/spool.rs:275-280 | the searched text stands in a temporary path exactly when the root contains it or the handle is that entry's own |
| Spool.LookupExactIff | impl/crates/interop-file/src/spool.rs:275-280 | the substring lookup finds every entry by its own handle exactly when the root holds no later entry's text |
| Spool.BeginSound | impl/crates/interop-file/src/spool.rs:142-167 | opening an entry keeps every live temporary file equal to what was written and hashed |
| Spool.WriteSound | impl/crates/interop-file/src/spool.rs:170-200 | so does a write, accepted or refused |
| Spool.AbortSound | impl/crates/interop-file/src/spool.rs:263-269 | so does an abort |
| Spool.CommitSound | impl/crates/interop-file/src/spool.rs:203-261 | publishing keeps it as well when the final path is no other live entry's temporary file |
| Spool.CommitSoundIff | impl/crates/interop-file/src/spool.rs:203-261 | publishing keeps it exactly when it fails, or the live temporary files it replaces hold the published bytes |
| Spool.CommitSucceedsIff | impl/crates/interop-file/src/spool.rs:203-261 | publishing a live entry succeeds exactly when no file stands where one of its folders would be and no directory of its top-level name was created before; a file at the path itself is no obstacle and is replaced |
| Spool.CommitPublishes | impl/crates/interop-file/src/spool.rs:203-261 | the published bytes are the written ones, the receipt has their size and hash, the temporary file is gone |
| Spool.FolderPublishesOnce | impl/crates/interop-file/src/spool.rs:232-261 | once a file is published below a top-level folder, nothing is ever published there again, whatever happens in between |
| Spool.CommitKeepsReceiptsIff | impl/crates/interop-file/src/spool.rs:203-261 | a commit leaves every earlier receipt true exactly when it fails or no receipt names other bytes at its path |
| Spool.StepKeepsTidyIff | impl/crates/interop-file/src/spool.rs:142-269 | every operation keeps receipts true and temporary names apart from published ones, except exactly the commits that take a temporary name or a name published with other bytes |
| Spool.ReceiptsStayTrue | impl/crates/interop-file/src/spool.rs:142-269 | over whole runs without such commits every receipt stays true |
| Spool.SpoolStore.BeginEntry | impl/crates/interop-file/src/spool.rs:142-167 | sanitise, number, create exclusively; the handle counter moves even when creation fails |
| Spool.SpoolStore.WriteChunk | impl/crates/interop-file/src/spool.rs:170-200 | order of checks: terminated, offset, budget (which ends the entry); otherwise bytes are appended and hashed |
| Spool.SpoolStore.CommitEntry | impl/crates/interop-file/src/spool.rs:203-261 | directory by directory, then the move, then the receipt; the entry ends only on success |
| Spool.SpoolStore.AbortEntry | impl/crates/interop-file/src/spool.rs:263-269 | the entry ends and its temporary file goes |
| Spool.SpoolStore.EntryIndex | impl/crates/interop-file/src/spool.rs:275-280 | the first entry whose path contains the text, or none |
| SpoolAnswers.BeginAnswer | impl/crates/interop-file/src/spool.rs:142-167 | an unsafe path is refused before a handle is spent, a taken temporary name costs one; otherwise an empty entry under the next handle, limited by declared size and budget |
| SpoolAnswers.WriteAnswer | impl/crates/interop-file/src/spool.rs:170-200 | each refusal with its code and what it leaves; bytes beyond the limit end the entry, its file goes, and whatever is written to it later is refused |
| SpoolAnswers.AbortAnswer | impl/crates/interop-file/src/spool.rs:263-269 | a known entry is ended, its file goes, and it takes no more; an unknown handle is invalid |
| SpoolAnswers.CommitAnswer | impl/crates/interop-file/src/spool.rs:203-261 | each refusal with its code; when the destination is not available the entry lives on with its file, and exactly the folders made before the first that is taken stay |
| Receive.SpoolNeverRefuses | impl/crates/proto-quickshare/src/receive.rs:291-318 | a frame the assembler passes is never refused by the offset or budget check of the spool |
| Receive.DataFrameStep | impl/crates/proto-quickshare/src/receive.rs:275-318 | a data frame goes whole to the one entry bound to its payload id, or is refused and changes nothing |
| Receive.WriteKeepsStored | impl/crates/interop-file/src/spool.rs:170-200 | a write to one handle leaves every other entry as it was |
| Receive.WriteAdvancesBound | impl/crates/proto-quickshare/src/payload.rs:377-448 | assembler and spool entry advance together, and stay within the declared size |
| Introductions.BudgetHoldsIff | impl/crates/proto-quickshare/src/receive.rs:193-197 | files that pass the check fit the budget together exactly when their sizes sum below 2^64 |
| Introductions.EachWithinBudget | impl/crates/proto-quickshare/src/receive.rs:193-197 | in that case each of them fits |
| Introductions.OverBudgetAccepted | impl/crates/proto-quickshare/src/receive.rs:166-236 | two files of 2^63 bytes are accepted and set up under every budget |
| Introductions.EstablishOutcome | impl/crates/proto-quickshare/src/receive.rs:203-235 | every file before the first that cannot be set up (its name is refused or its temporary name taken) gets an entry bound to its payload id with an empty temporary file |
| Introductions.IntroductionOutcome | impl/crates/proto-quickshare/src/receive.rs:166-236 | a failed check changes nothing and is answered as its own inputs say (invalid, not enough space, rejected); a passed one sets up the files in order, stops at the first that cannot be set up, and answers with its error |
| Introductions.IntroductionAnswer | impl/crates/proto-quickshare/src/receive.rs:169-201 | malformed offers are an error; of the others "not enough space" is answered exactly when the wrapped sum is over the budget, whatever the decision, and "rejected" exactly when it is not and the user refused |
| Introductions.RefusalLeavesNothingIff | impl/crates/proto-quickshare/src/receive.rs:166-236 | a refused introduction leaves entries and files as they were exactly when it failed a check in front or its first file is the one that cannot be set up |
| Introductions.IntroductionKeepsCouplingIff | impl/crates/proto-quickshare/src/receive.rs:166-236 | afterwards assembler and spool agree exactly when each file set up fits the budget, as they all do when the sum does not wrap |
| SessionBudget.StoredIsDeclared | impl/crates/proto-quickshare/src/receive.rs:158-236 | over every run no entry holds more than the budget, and all of them together no more than the introductions that passed declared |
| SessionBudget.CapHolds | impl/crates/proto-quickshare/src/receive.rs:158-236 | so the budget caps the session as long as those declarations stay within it |
| SessionBudget.CapCanBeExceededIff | impl/crates/proto-quickshare/src/receive.rs:158-318 | payload frames can bring a session past its budget exactly when what is stored and what the entries that can be reached still have room for are together more |
| SessionBudget.BudgetIsPerIntroduction | impl/crates/proto-quickshare/src/receive.rs:158-236 | two introductions of one file as large as the budget are both accepted and received: twice the budget is stored |
| SessionBudget.ShadowedGetsNothing | impl/crates/proto-quickshare/src/receive.rs:185-318 | while the first entry of a payload id stands, a second one from a later introduction never gets a byte |
| ReceiveRuns.CancelOutcome | impl/crates/proto-quickshare/src/receive.rs:351-359 | cancelling removes the temporary file of every unfinished entry and of no other: a complete, unpublished one keeps its file |
| ReceiveRuns.RunKeepsCoupling | impl/crates/proto-quickshare/src/receive.rs:275-318 | over any sequence of payload frames assembler and spool agree, and each handle holds the bodies taken for it, in order |
| ReceiveRuns.FinishPublishes | impl/crates/proto-quickshare/src/receive.rs:321-348 | publishing succeeds exactly for a complete entry with nothing in the way, and publishes the stored bytes once under the announced path with the declared size |
| ReceiveRuns.FinishKeepsCouplingIff | impl/crates/proto-quickshare/src/receive.rs:321-348 | publishing one entry leaves the others receivable exactly when it does not replace the temporary file of one that holds other bytes |
| ReceiveRuns.StepKeepsCouplingIff | impl/crates/proto-quickshare/src/receive.rs:166-359 | of introductions, frames and publishing, exactly those two kinds of step break the agreement of assembler and spool: setting up a file over the budget, and such a replacement |
| ReceiveRuns.RunStaysCoupled | impl/crates/proto-quickshare/src/receive.rs:166-359 | over any interleaving without them both layers agree, and each handle holds the bodies taken for it, in order |
| ReceiveRuns.PublishedIsTaken | impl/crates/proto-quickshare/src/receive.rs:166-359 | after any such run a successful publish writes what the entry held before it and then the bodies taken for it, in order, with size and hash to match |
| Collisions.ClashIsReached | impl/crates/proto-quickshare/src/receive.rs:166-348 | one introduction of two files, the first named like the temporary file of the second: the second is published with the bytes of the first and the hash of its own |
| Collisions.SameNameReplaces | impl/crates/proto-quickshare/src/receive.rs:166-348 | two files of one name are both published, and the receipt of the first is no longer true |
| Collisions.TakenNameRefuses | impl/crates/proto-quickshare/src/receive.rs:166-348 | a file published under a coming temporary name: a later introduction of fine names is refused half-way and leaves its first entry |
| Collisions.CancelLeavesComplete | impl/crates/proto-quickshare/src/receive.rs:351-359 | two files received whole and cancelled: nothing is pending or published, and both temporary files stay |
| Collisions.FolderLosesSecond | impl/crates/proto-quickshare/src/receive.rs:166-348 | one introduction of two files in a folder, both received: the first is published, the second is refused and its entry gone |
| Collisions.LookupGoesAstray | impl/crates/interop-file/src/spool.rs:170-280 | in a root that ends in the text of the second entry, what is received for the second file is written into the temporary file of the first |
| ReceiveSessions.PayloadAssembler.AcceptFrame | impl/crates/proto-quickshare/src/payload.rs:377-448 | all checks, the sink write, then the counters; a refusal by a check or by the sink moves no counter |
| ReceiveSessions.ReceiveSession.HandleIntroduction | impl/crates/proto-quickshare/src/receive.rs:169-236 | the checks in the order of the code, then the decision, then the entries; what each is answered with is Introductions.IntroductionAnswer |
| ReceiveSessions.ReceiveSession.SetUpEntry | impl/crates/proto-quickshare/src/receive.rs:203-235 | one entry: id, validation, temporary file, assembler |
| ReceiveSessions.ReceiveSession.HandlePayload | impl/crates/proto-quickshare/src/receive.rs:275-289 | data, control and acknowledgement frames are told apart |
| ReceiveSessions.ReceiveSession.HandleData | impl/crates/proto-quickshare/src/receive.rs:291-318 | the first entry with the payload id gets the frame |
| ReceiveSessions.ReceiveSession.HandleCancel | impl/crates/proto-quickshare/src/receive.rs:351-359 | every incomplete entry is aborted, then all are forgotten |
| ReceiveSessions.ReceiveSession.Finish | impl/crates/proto-quickshare/src/receive.rs:321-348 | the entry is removed before publishing is tried, so a failure loses it |
| ReceiveAnswers.DataAnswer | impl/crates/proto-quickshare/src/receive.rs:275-318 | a data frame is invalid unless it continues a known, unfinished file at its next byte; beyond the declared size it is over the limit; marked as the last too early or too late it is invalid; only what is left is taken |
| ReceiveAnswers.OtherAnswer | impl/crates/proto-quickshare/src/receive.rs:275-289 | an acknowledgement is not supported and changes nothing, a control frame cancels |
| ReceiveAnswers.AssemblerAnswer | impl/crates/proto-quickshare/src/payload.rs:377-400 | a complete assembler takes nothing, and none takes a frame that is no data frame |
| ReceiveAnswers.FinishAnswer | impl/crates/proto-quickshare/src/receive.rs:321-348 | an unknown entry has no destination, an incomplete one is invalid and stays, a complete one is given up whether or not it can be published, and which error tells why |
| Deliveries.FeedTakesPrefix | impl/apps/interop-demo/src/quickshare.rs:474-508 | whatever of the file is fed, in any order and as often as one likes, with frames of others in between: what is taken are its first chunks, once each |
| Deliveries.FeedTakesAll | impl/apps/interop-demo/src/quickshare.rs:474-508 | when what is fed of the file are its first n chunks in order, all of them are taken, whatever else comes |
| Deliveries.FeedIsRun | impl/apps/interop-demo/src/quickshare.rs:474-508 | feeding in order is one of the runs the safety theorem covers |
| Deliveries.PublishAfter | impl/crates/proto-quickshare/src/receive.rs:321-348 | after some first chunks publishing succeeds exactly when they are all and nothing stands in the way of the path |
| EndToEnd.PublishedIsSent | impl/apps/interop-demo/src/quickshare.rs:431-508 | for each file by itself, over an ideal connection that may carry anything else: whatever of what was opened the session is fed, in whatever order, and however introductions and publishing come in between, what is published under the file's payload id is the file, byte for byte with its size, if what was sealed for that id are chunks of it |
| EndToEnd.FreshHoldsPrefixes | impl/crates/proto-quickshare/src/receive.rs:155-164 | a session just opened is one the theorem starts from |
| EndToEnd.RunKeepsPrefixes | impl/crates/proto-quickshare/src/receive.rs:166-359 | over any interleaving of introductions, frames and publishing, every entry for the payload id holds a beginning of the file, and complete means all of it |
| EndToEnd.PublishedAsAnnounced | impl/crates/proto-quickshare/src/receive.rs:166-348 | a session that starts without entries publishes nothing but what was offered to it, under the offered path and with the offered size |
| Deliveries.LosslessPublishes | impl/apps/interop-demo/src/quickshare.rs:431-508 | over a lossless connection, whatever else was sealed on it before, between and after, a file whose chunks were sealed in order is published - in a folder or not, among any number of entries - exactly when nothing stands in the way of its path |
| Deliveries.DemoMessagesFit | impl/apps/interop-demo/src/quickshare.rs:431-508 | the greeting and chunks that leave room for the envelopes all fit, and what of them is for the file are its chunks in order |
| Deliveries.TextIsNoFrame | impl/crates/proto-quickshare/src/control.rs:151-185 | text that begins with an ordinary letter, as the greeting does, is no frame for anybody |
| Deliveries.IntroducedIsReady | impl/apps/interop-demo/src/quickshare.rs:457-471 | a fresh session that accepts one file is ready for it |
| TransportChain.SendChunk | impl/apps/interop-demo/src/quickshare.rs:474-503 | encode, seal, open, decode, assemble: one chunk reaches its entry |
| TransportChain.SendAll | impl/apps/interop-demo/src/quickshare.rs:474-503 | the loop of the demo delivers every chunk |
| TransportChain.Agree | impl/apps/interop-demo/src/quickshare.rs:385-415 | the four calls on two objects end with equal, non-empty next-protocol secrets |
| TransportChain.Greet | impl/apps/interop-demo/src/quickshare.rs:431-435 | one message through the fresh main channels arrives, and both count it |
| TransportChain.Tamper | impl/apps/interop-demo/src/quickshare.rs:436-444 | a frame with an altered last byte is refused by a pair of channels of its own |
| TransportChain.Misdirect | impl/apps/interop-demo/src/quickshare.rs:510-512 | a frame for a payload nobody announced is refused and changes nothing |
| TransportChain.Transport | impl/apps/interop-demo/src/quickshare.rs:450-544 | the receive session from introduction to publishing over the two channels |
| TransportChain.RunTransportChain | impl/apps/interop-demo/src/quickshare.rs:383-561 | for every pair of configurations that fit: the four handshake calls, a schedule derived by each side from its own keys, a greeting that arrives, an altered frame that is refused, the chunks, a frame for another payload that is refused, and the sender's bytes published once under the announced name |
| Ukey2Wire.MessageRoundTrip | impl/crates/proto-quickshare/src/wire.rs:234-257 | the outer message round-trips for every type and body within the limit |
| Ukey2Wire.ClientInitRoundTrip | impl/crates/proto-quickshare/src/wire.rs:278-338 | ClientInit with its list of commitments round-trips |
| Ukey2Wire.ServerInitRoundTrip | impl/crates/proto-quickshare/src/wire.rs:350-381 | ServerInit round-trips |
| Ukey2Wire.ClientFinishedRoundTrip | impl/crates/proto-quickshare/src/wire.rs:390-409 | ClientFinished round-trips |
| Ukey2Wire.PublicKeyRoundTrip | impl/crates/proto-quickshare/src/wire.rs:422-463 | the generic P-256 key round-trips |
| Handshake.Ukey2Client.Begin | impl/crates/proto-quickshare/src/handshake.rs:230-258 | the finish message is fixed and committed to before anything is received |
| Handshake.Ukey2Client.OnServerInit | impl/crates/proto-quickshare/src/handshake.rs:261-330 | every check of the code in its order; only success moves the state, to the keys the primitives make of the agreed secret and of its own ClientInit followed by the reply |
| Handshake.Ukey2Server.ChooseCipher | impl/crates/proto-quickshare/src/handshake.rs:447-468 | the loop finds the first commitment, in the client's order, whose cipher the server supports |
| Handshake.Ukey2Server.OnClientInit | impl/crates/proto-quickshare/src/handshake.rs:401-506 | every check in its order; only success moves the state |
| Handshake.Ukey2Server.OnClientFinish | impl/crates/proto-quickshare/src/handshake.rs:509-568 | the commitment is compared before the message is parsed; only success moves the state, to the keys the primitives make of the agreed secret and the two messages |
| Handshake.HonestAgreement | impl/crates/proto-quickshare/src/handshake.rs:230-568 | with messages unaltered both sides establish exactly when the server knows the client's cipher and protocol, and then hold the authentication string, next secret and code that the primitives make of the shared secret of the two scalars and the two messages |
| Handshake.ClientKeys | impl/crates/proto-quickshare/src/handshake.rs:66-91 | the client's keys: from the secret its scalar agrees on with the key in the reply, and its own ClientInit followed by the very bytes of the reply |
| Handshake.ServerKeys | impl/crates/proto-quickshare/src/handshake.rs:66-91 | the server's keys: from the secret its scalar agrees on with the key in the finish, and the two messages before it |
| Handshake.ServerJustified | impl/crates/proto-quickshare/src/handshake.rs:401-568 | every server state reached in any run is explained by the messages that led to it, and so are the keys: string, secret and code of the accepted ClientInit and the reply to it |
| Handshake.HonestMessages | impl/crates/proto-quickshare/src/handshake.rs:230-568 | what the four calls return to one another, given that cipher and protocol fit |
| Handshake.EstablishedMeansCommitted | impl/crates/proto-quickshare/src/handshake.rs:401-568 | in every run an established server accepted a finish whose SHA-512 is the commitment of the first supported cipher of an earlier accepted ClientInit |
| Handshake.RefusalChangesNothing | impl/crates/proto-quickshare/src/handshake.rs:261-568 | a refused message moves neither state machine |
| Handshake.CommitmentBinds | impl/crates/proto-quickshare/src/handshake.rs:401-568 | over every run: if this client's ClientInit is the one the server accepted, an established server was sent the committed finish and holds the keys of this client, whatever else arrived, unless SHA-512 collides on that finish |
| Session.GateStaysSound | impl/crates/proto-quickshare/src/session.rs:127-326 | in every run "confirmed" implies derived keys and a latest code equal to the pin |
| Session.PayloadGate | impl/crates/proto-quickshare/src/session.rs:153-326 | payloads are counted only by an established, living session whose latest code matched the derived pin |
| Session.DeadDeliversNothing | impl/crates/proto-quickshare/src/session.rs:153-326 | death is final and nothing is delivered after it |
| Session.FeedTwice | impl/crates/proto-quickshare/src/session.rs:153-211 | feeding a stream in two parts equals feeding it at once, up to and including the first alert |
| Session.FragmentationIndependent | impl/crates/proto-quickshare/src/session.rs:153-279 | for every chunking of a legal stream the events up to the first alert are the same, and without one so are all events, outbound messages and the handshake |
| SessionObjects.QuickShareSession.FeedBytes | impl/crates/proto-quickshare/src/session.rs:153-211 | dead check, start time, deadline, framing, then every frame of the call, also behind one that killed the session (Refusals.CallGoesOnAfterAlert); what refused messages and lengths come to is stated in Refusals |
| SessionObjects.QuickShareSession.ProcessFrames | impl/crates/proto-quickshare/src/session.rs:178-211 | the loop over the frames of one call |
| SessionObjects.QuickShareSession.ProcessFrame | impl/crates/proto-quickshare/src/session.rs:178-211 | one frame: parse, react, then the established event, or the alert and the end of the session; what each refused message comes to is stated in Refusals |
| SessionObjects.QuickShareSession.ReactTo | impl/crates/proto-quickshare/src/session.rs:213-279 | what server and client do with each message type |
| SessionObjects.QuickShareSession.ConfirmCode | impl/crates/proto-quickshare/src/session.rs:296-312 | a wrong code closes the gate again |
| SessionObjects.QuickShareSession.DeliverPayload | impl/crates/proto-quickshare/src/session.rs:315-326 | counts only when confirmed and alive |
| SessionObjects.QuickShareSession.BeginHandshake | impl/crates/proto-quickshare/src/session.rs:136-145 | a client queues its ClientInit, not yet framed, once, and its clock starts at zero |
| HonestSessions.HonestSessionsMeet | impl/crates/proto-quickshare/src/session.rs:136-326 | two honest sessions meet through any fragmentation: both established on the same keys, no alert, and then exactly the code the client shows opens the server's gate |
| HonestSessions.ServerTakesInit | impl/crates/proto-quickshare/src/session.rs:213-247 | however it is cut, an acceptable ClientInit is answered by one queued ServerInit and one event |
| HonestSessions.ClientTakesReply | impl/crates/proto-quickshare/src/session.rs:249-279 | however it is cut, an acceptable ServerInit is answered by the queued finish and one event |
| HonestSessions.ServerTakesFinish | impl/crates/proto-quickshare/src/session.rs:213-247 | however it is cut, an acceptable finish establishes the session and says so |
| HonestSessions.FeedCut | impl/crates/proto-quickshare/src/session.rs:153-211 | however a whole message is cut, events and session are those of the message fed whole, accepted or refused |
| HonestSessions.ServerDeadline | impl/crates/proto-quickshare/src/session.rs:153-176 | in every run of a server: fed more than the timeout after its first bytes and not established, it tells an internal error, dies and looks at nothing; otherwise time alone never ends it |
| Refusals.UndecodableKills | impl/crates/proto-quickshare/src/session.rs:178-191 | bytes that are no message, however cut: the alert BadMessage alone, a dead session, and every later feed refused |
| Refusals.AbsentHandshakeKills | impl/crates/proto-quickshare/src/session.rs:213-265 | any message for a session without a handshake, however cut: the frame event and InternalError, a dead session, and every later feed refused |
| Refusals.ServerRefusalKills | impl/crates/proto-quickshare/src/session.rs:192-247 | a message the server side of the handshake refuses, however cut: the frame event and exactly the alert of that refusal, nothing queued, a dead session, every later feed refused; a type the server does not take is an incorrect message |
| Refusals.ClientRefusalKills | impl/crates/proto-quickshare/src/session.rs:192-279 | the same for a client; for it another type is a bad message type |
| Refusals.CallGoesOnAfterAlert | impl/crates/proto-quickshare/src/session.rs:178-211 | a good ClientInit behind a bad message in one chunk is still answered by the dead session; in a chunk of its own it is not |
| Refusals.RefusedLengthStalls | impl/crates/proto-quickshare/src/session.rs:178-178 | a refused length is no alert: the call and every later one fail, frames ahead of it in the chunk are lost, handshake and queue stay |
| Refusals.BeginAnswer | impl/crates/proto-quickshare/src/session.rs:136-145 | only a client with a handshake begins, once, and with entropy; each refusal with its code and nothing changed |
| Refusals.ClientInitAnswer | impl/crates/proto-quickshare/src/handshake.rs:401-506 | what any ClientInit is answered with: version, random bytes, commitments, protocol, entropy, in this order, or the reply under the first supported cipher |
| Refusals.ServerInitAnswer | impl/crates/proto-quickshare/src/handshake.rs:261-330 | what any ServerInit is answered with: version, random bytes, cipher, key, in this order, or the finish |
| Refusals.ClientFinishedAnswer | impl/crates/proto-quickshare/src/handshake.rs:509-568 | a finish that is not the committed one is refused as such whatever is in it; then its key |
| Refusals.OutOfTurnAnswer | impl/crates/proto-quickshare/src/handshake.rs:261-568 | a message out of turn is incorrect, one whose content does not decode is bad data |
| Confirmation.RunKeepsDerived | impl/crates/proto-quickshare/src/handshake.rs:66-91 | in every run of either role the string, secret and code of a session are what the primitives make of the secret and transcript it holds |
| Confirmation.OneCodeOneString | impl/crates/proto-quickshare/src/handshake.rs:66-91 | two sides that show one code have one authentication string where the code does not collide, and the same keys where the string does not |
| Confirmation.DeliveredMeansSameKeys | impl/crates/proto-quickshare/src/session.rs:127-326 | over any runs of two sessions: a payload delivered after the code the other one showed means that both hold the same string, secrets and transcript, collisions excluded |
| Confirmation.GateIsExact | impl/crates/proto-quickshare/src/session.rs:296-326 | a session is confirmed exactly when the code compared last, of those compared when there was one to compare with, was its own |
| Confirmation.GateAnswers | impl/crates/proto-quickshare/src/session.rs:296-326 | what a payload and a code are answered with after any run |
| HonestSessions.ClientClockStartsAtZero | impl/crates/proto-quickshare/src/session.rs:136-176 | the client's deadline runs from zero: first fed at `now` it has timed out exactly when `now` is past the timeout, and then raises an alert whatever it is fed |
| HonestSessions.ClientGivenUpEarlyIff | impl/crates/proto-quickshare/src/session.rs:136-176 | a client begun at b is given up although in time exactly when T < now <= b + T; it is never kept too long; a clock that starts with it is right |
| KeepAlive.KeepAliveTracker.Tick | impl/crates/proto-quickshare/src/control.rs:251-268 | the heartbeat that is due, and the times it moves |
| KeepAlive.KeepAliveTracker.Receive | impl/crates/proto-quickshare/src/control.rs:272-289 | a heartbeat is answered by one ack, an ack by nothing; both count as life |
| KeepAlive.KeepAliveTracker.Expired | impl/crates/proto-quickshare/src/control.rs:294-305 | expiry is latched |
| KeepAlive.FromNegotiation | impl/crates/proto-quickshare/src/control.rs:1032-1066 | an accepted policy has 0 < interval < timeout within 32 bits |
| KeepAlive.NegotiationAnswer | impl/crates/proto-quickshare/src/control.rs:1032-1066 | a policy comes of it exactly when the values offered, ten and thirty seconds where none is, are positive, below 2^32 and the timeout is the longer |
| KeepAlive.OneAckPerHeartbeat | impl/crates/proto-quickshare/src/control.rs:251-289 | over any run the acknowledgements among the frames handed out are as many as the heartbeats taken, the others are own heartbeats, and both counters say so |
| KeepAlive.OutputIsAckIff | impl/crates/proto-quickshare/src/control.rs:251-289 | a step hands out an acknowledgement exactly when a heartbeat arrives at a tracker that has not expired |
| KeepAlive.HeartbeatsAreNumbered | impl/crates/proto-quickshare/src/control.rs:251-289 | over any run the own heartbeats are numbered one after the other, wrapping at 32 bits, and every frame taken is counted |
| KeepAlive.ReceiveAnswer | impl/crates/proto-quickshare/src/control.rs:272-289 | after any run a frame is refused as invalid exactly by an expired tracker; a heartbeat gets one ack, an ack nothing |
| KeepAlive.SilenceExpires | impl/crates/proto-quickshare/src/control.rs:250-305 | with a silent peer own heartbeats never postpone expiry: it comes at exactly the first check later than reference plus timeout |
| KeepAlive.ExpiryIsPermanent | impl/crates/proto-quickshare/src/control.rs:250-305 | no tick, frame or check revives an expired tracker |
| KeepAlive.ReferenceIsRecent | impl/crates/proto-quickshare/src/control.rs:294-305 | what a tracker measures from is never older than heartbeats are apart, plus the delay |
| KeepAlive.PairNeverExpires | impl/crates/proto-quickshare/src/control.rs:187-305 | two peers whose heartbeat spacing (the interval less a millisecond, and a poll gap) and delay are within the timeout never declare each other dead, in any run in which nobody is later than that |
| KeepAlive.LatePairExpires | impl/crates/proto-quickshare/src/control.rs:187-305 | the bound is sharp: where spacing and delay exceed the timeout, a run in which nobody is late ends with a dead peer |
| MediaFrames.TryEncodeFrame | impl/crates/interop-ipc/src/media_frame.rs:122-135 | the header fields in order, then the payload; too long is refused |
| MediaFrames.DecodeInvertsEncode | impl/crates/interop-ipc/src/media_frame.rs:122-193 | decoding an encoded frame followed by anything returns it and its length, exactly for known flags |
| MediaFrames.EncodeInvertsDecode | impl/crates/interop-ipc/src/media_frame.rs:122-193 | every accepted buffer prints back to the bytes it was read from |
| MediaFrames.HeaderAnswer | impl/crates/interop-ipc/src/media_frame.rs:136-193 | what any header is refused for: magic, version, kind, flags, length, missing payload; only version and length have answers of their own |
| MediaFrames.CodesOnTheWire | impl/crates/interop-ipc/src/media_frame.rs:20-135 | kinds and flags by their numbers on the wire |
| Mirror.FrameQueue.Push | impl/crates/interop-media/src/stream.rs:83-102 | accepted exactly when both limits hold afterwards; a refusal changes nothing |
| Mirror.FrameQueue.Pop | impl/crates/interop-media/src/stream.rs:104-108 | first in, first out, with the byte total kept exact |
| Mirror.MirrorTrack.ConfigureFormat | impl/crates/proto-airplay/src/mirror.rs:123-146 | codec, pixels and format tracker before anything changes; then config to the sink and a flush; what the sink is told in every run is MirrorFormats.ToldInOrder |
| Mirror.MirrorTrack.HandleFrame | impl/crates/proto-airplay/src/mirror.rs:174-210 | the four kinds of frame |
| Mirror.MirrorTrack.HandleAccessUnit | impl/crates/proto-airplay/src/mirror.rs:212-259 | the order of checks and what recovery does |
| Mirror.MirrorTrack.AdmitUnit | impl/crates/proto-airplay/src/mirror.rs:240-258 | queue and flush, or drop, flush and start recovering |
| Mirror.MirrorTrack.FlushQueue | impl/crates/proto-airplay/src/mirror.rs:262-267 | everything queued reaches the sink in order |
| Mirror.RunTallies | impl/crates/proto-airplay/src/mirror.rs:212-273 | after every run: delivery, counters, bytes, limits and the recovery flag, each tied to the history of the run |
| Mirror.LogAndQueueAreAccepted | impl/crates/proto-airplay/src/mirror.rs:212-273 | sink log followed by queue is exactly the accepted units in arrival order |
| Mirror.ReceivedIsForwardedOrDropped | impl/crates/proto-airplay/src/mirror.rs:212-259 | every unit received under a format is counted once, as forwarded or as dropped |
| Mirror.QueueStaysBounded | impl/crates/proto-airplay/src/mirror.rs:240-267 | frames, bytes and the peak never exceed the limits |
| Mirror.ResumesWithKeyframe | impl/crates/proto-airplay/src/mirror.rs:229-258 | the first unit accepted after a drop is a keyframe unless a format was configured in between |
| Mirror.DrainingDropsNothing | impl/crates/proto-airplay/src/mirror.rs:118-259 | with the sink keeping up, units within the budget are never dropped |
| MirrorFormats.ToldInOrder | impl/crates/proto-airplay/src/mirror.rs:123-194 | over every run the formats the sink is told are, in order, those taken and, for each codec-config frame under a format, the one in force, each with codec, id and dimensions; the history alone says which is in force |
| MirrorFormats.NoFrameBeforeFormat | impl/crates/proto-airplay/src/mirror.rs:123-210 | no unit reaches a sink that was not told a format before |
| MirrorFormats.FormatAnswer | impl/crates/proto-airplay/src/mirror.rs:123-138 | a format is taken exactly when it can be decoded and shown and is the first, the same again, or announced as a discontinuity; each refusal with its code, and nothing changes |
| MirrorFormats.FrameAnswer | impl/crates/proto-airplay/src/mirror.rs:174-258 | what any frame is answered with in every run, from the format in force, the keyframe that is owed and what waits |
| MirrorFormats.CountersTellHistory | impl/crates/proto-airplay/src/mirror.rs:123-238 | over every run format changes, configs and recoveries are counted as the history has them |
| MirrorFormats.QueueTellsHistory | impl/crates/proto-airplay/src/mirror.rs:118-272 | over every run what waits, and the most bytes that ever did, follow from the history: what hands the queue over and what does not |
| MirrorFormats.DrainedSinkSeesOrder | impl/crates/proto-airplay/src/mirror.rs:123-258 | as long as the sink keeps up it sees formats and units in the order in which they came |
| MirrorFormats.FormatOvertakesQueueIff | impl/crates/proto-airplay/src/mirror.rs:139-144 | a new format overtakes what waits, so units reach the sink under their own format exactly when none waits |
| EventBus.Bus.Publish | impl/crates/interop-runtime/src/events.rs:53-81 | the buffer is the longest end of everything published that both limits allow, with its exact byte total |
| EventBus.Bus.Evict | impl/crates/interop-runtime/src/events.rs:71-79 | the loop evicts no more than the limits ask for |
| EventBus.Bus.SubscribeAfter | impl/crates/interop-runtime/src/events.rs:84-103 | the answer as a function of the buffer |
| EventBus.SuffixIsLongest | impl/crates/interop-runtime/src/events.rs:69-79 | no longer end would keep the limits |
| EventBus.SuffixOfAppended | impl/crates/interop-runtime/src/events.rs:67-79 | evicting as one goes keeps exactly what evicting at the end would |
| EventBus.CursorNeverSkips | impl/crates/interop-runtime/src/events.rs:84-103 | a cursor 0 < after <= last is told of a gap, and the newest number held, exactly when a later event was evicted; otherwise it gets every later event in order and ends on the last; cursor zero gets what is held; a cursor ahead of the log stays |
| EventBus.ZeroIsNotTold | impl/crates/interop-runtime/src/events.rs:84-103 | two events in a bus that holds one: from zero the first is missing and no gap is told |
| EventBus.FollowerSeesEverything | impl/crates/interop-runtime/src/events.rs:53-103 | a client that follows next_cursor has, until told of a gap, exactly the events from its start to its cursor |
| Resample.GcdIsGreatest | impl/crates/interop-media/src/sinks.rs:137-143 | the recursion gives a common divisor that every common divisor divides |
| Resample.PlanIsLowestTerms | impl/crates/interop-media/src/sinks.rs:84-98 | the planned ratio is coprime and equal to source / device |
| Resample.ApplyS16le | impl/crates/interop-media/src/sinks.rs:102-134 | the nested loops over the output buffer compute the specified resampling; equal rates copy |
| Resample.FillFrame | impl/crates/interop-media/src/sinks.rs:120-132 | one output frame: fixed-point position, clamped indices, mix, clamp |
| Resample.EverySampleInterpolates | impl/crates/interop-media/src/sinks.rs:118-131 | floor(frames * device / source) frames come out; the index clamp never acts; each sample lies between its neighbours and within one unit of the exact interpolation |
| Resample.MixedLiesBetween | impl/crates/interop-media/src/sinks.rs:126-130 | truncating division keeps the mix between its neighbours, so the 16-bit clamp never changes it |
| Resample.SourceInRange | impl/crates/interop-media/src/sinks.rs:118-124 | an output frame always starts inside the input |
| Resample.PcmRoundTrip | impl/crates/proto-airplay/src/audio.rs:115-127 | samples written little-endian read back |
| Resample.PassthroughForwardsUnchanged | impl/crates/proto-airplay/src/audio.rs:115-137 | at equal rates a block reaches the sink byte for byte |
| Resample.AudioTrack.Open | impl/crates/proto-airplay/src/audio.rs:48-73 | no channels or a zero rate is refused |
| Resample.AudioTrack.Block | impl/crates/proto-airplay/src/audio.rs:97-147 | kind, length, resampling, sink, counters, clock; a sink error leaves counters and clock |
| Resample.RunFallsShort | impl/crates/proto-airplay/src/audio.rs:97-147 | over any run with refusals mixed in, k accepted blocks of whole frames are 0 to k - 1 frames shorter than resampling all at once, never longer; no block gives nothing |
| Resample.ClockTellsForwarded | impl/crates/proto-airplay/src/audio.rs:97-147 | over any run the clock tells number, sum and largest of the drifts of exactly the forwarded blocks that carry a time stamp |
| Resample.ShortfallIsSharp | impl/crates/interop-media/src/sinks.rs:116-117 | the bound is reached for every k > 1 |
| AudioRuns.LowByteFirst | impl/crates/proto-airplay/src/audio.rs:115-127 | each sample is two bytes, the low one first, in two's complement |
| AudioRuns.OpenAnswer | impl/crates/proto-airplay/src/audio.rs:48-73 | refused as invalid exactly for no channels or a zero rate; passes through exactly at equal rates, otherwise from the rate of the source to that of the device |
| AudioRuns.BlockAnswer | impl/crates/proto-airplay/src/audio.rs:97-147 | what a block is answered with, and that nothing is counted unless the sink takes it |
| AudioRuns.CountersTellLog | impl/crates/proto-airplay/src/audio.rs:97-147 | over any run the sink has got the converted blocks it took, in order; blocks, resampled blocks, samples in and out and bytes out are theirs, and the peak is the longest output of all |
| Workers.WorkerSupervisor.Spawn | impl/crates/interop-runtime/src/workers.rs:233-344 | unknown and stopped profiles are refused before anything is spawned |
| Workers.WorkerSupervisor.StartWorker | impl/crates/interop-runtime/src/workers.rs:233-344 | a start by the caller |
| Workers.WorkerSupervisor.RetainCrashes | impl/crates/interop-runtime/src/workers.rs:408-411 | keeps exactly the times from the window start on, in order |
| Workers.WorkerSupervisor.DecideRestart | impl/crates/interop-runtime/src/workers.rs:403-428 | prune, record, compare, then stop the profile or start it again |
| Workers.WorkerSupervisor.Poll | impl/crates/interop-runtime/src/workers.rs:374-401 | the exit loop is a run of exits at one time; it ends, after at most the running workers plus what the limiter has left, whatever the operating system answers |
| Workers.WorkerSupervisor.OneExit | impl/crates/interop-runtime/src/workers.rs:383-396 | one exited worker: removed, logged, perhaps restarted |
| Workers.WorkerSupervisor.ShutDownAll | impl/crates/interop-runtime/src/workers.rs:440-479 | waits, kills the slow, collects the listener files left, forgets the workers; answers and logs the three counts; no exit is answered by a restart afterwards |
| Workers.RestartsAreBounded | impl/crates/interop-runtime/src/workers.rs:403-428 | whatever the clock does: a closed window of the configured length in which no restart came after an exit it should have counted was forgotten holds no more automatic restarts than the limit |
| Workers.OrderedMissesNothing | impl/crates/interop-runtime/src/workers.rs:403-428 | with time that never steps back nothing is ever missed |
| Workers.OrderedRestartsAreBounded | impl/crates/interop-runtime/src/workers.rs:403-428 | so then no window holds more restarts than the limit |
| Workers.StoppedForGood | impl/crates/interop-runtime/src/workers.rs:245-250 | under any clock a profile that reached its limit is never started again, and the spawn counter counts the starts there were |
| Workers.DecisionIsExact | impl/crates/interop-runtime/src/workers.rs:408-422 | in every run, whatever the clock does: an exit stops its profile exactly when what was kept is more than the limit, and what was kept are all exits in the window exactly when none of them was followed by an exit whose window began after it; otherwise it is fewer |
| Workers.ClockMustNotStepBack | impl/crates/interop-runtime/src/workers.rs:408-422 | a concrete run with a clock that steps back in which the bound fails |
| Workers.StepKeeps | impl/crates/interop-runtime/src/workers.rs:233-479 | every step keeps the relation between the supervisor and its history, under any clock |
| WorkerAnswers.StartAnswer | impl/crates/interop-runtime/src/workers.rs:233-344 | after any run an unknown profile and one that reached its limit are told apart and refused whatever the operating system would do; otherwise its answer counts, and a started worker runs and is logged |
| WorkerAnswers.ExitAnswer | impl/crates/interop-runtime/src/workers.rs:374-428 | after any run: that worker and no other is gone and logged; while shutting down nothing more; otherwise the exit is counted, and stops the profile, or starts it again in the mode in which it was spawned last, or neither, exactly as the history says |
| WorkerAnswers.ShutDownAnswer | impl/crates/interop-runtime/src/workers.rs:440-479 | the log ends on how many ran, how many were slow and how many left a listener file |
| WorkerAnswers.OrphansInOrder | impl/crates/interop-runtime/src/workers.rs:460-479 | the listener files left stand in the order of their workers |
| Registry.SessionRegistry.DecideAccept | impl/crates/interop-runtime/src/session.rs:76-93 | first decision wins, a late one expires the offer |
| Registry.SessionRegistry.ExpireOffer | impl/crates/interop-runtime/src/session.rs:96-109 | expires a pending offer, otherwise answers what was decided |
| Registry.SessionRegistry.CancelSession | impl/crates/interop-runtime/src/session.rs:159-174 | cancels once, cleans up once |
| Registry.SessionRegistry.CrashWorker | impl/crates/interop-runtime/src/session.rs:178-192 | fails exactly the active sessions of that worker and answers their ids sorted, in whatever order the map is walked |
| Registry.SessionRegistry.SweepDeadlines | impl/crates/interop-runtime/src/session.rs:195-212 | fails exactly the active sessions past their deadline and answers their ids sorted |
| Registry.StepKeepsBalanceIff | impl/crates/interop-runtime/src/session.rs:64-212 | every operation keeps counters and cleanups in balance, except exactly those that register over a decided offer or over a finished session |
| Registry.RegisteredAgainCountsTwice | impl/crates/interop-runtime/src/session.rs:64-93 | register, accept, register again from the empty registry: the counter tells of a decision no offer shows; accepted again, one offer counts twice |
| Registry.RegisteredAgainCleansTwice | impl/crates/interop-runtime/src/session.rs:118-174 | a session registered again after its cancellation is cleaned up twice |
| Registry.RunsStayBalanced | impl/crates/interop-runtime/src/session.rs:64-212 | under any interleaving with fresh ids, terminal_decisions counts the decided offers, each leaves Pending at most once, and each cancelled or failed session is cleaned up exactly once |
| Registry.FinalStaysFinal | impl/crates/interop-runtime/src/session.rs:76-174 | decisions and ends never change, and every later call answers them |
| Registry.DecisionHasCause | impl/crates/interop-runtime/src/session.rs:76-109 | an accepted offer was accepted by its deadline, an expired one was expired or accepted too late |
| Registry.EndHasCause | impl/crates/interop-runtime/src/session.rs:159-212 | a session is cancelled only by its own call, fails only with its own worker or past its own deadline, and only while active |
| Registry.UnrelatedUntouched | impl/crates/interop-runtime/src/session.rs:159-212 | a session no operation is about is left untouched by any run |
| RegistryLives.OfferLivesItsLife | impl/crates/interop-runtime/src/session.rs:64-109 | in every run an offer is what the calls that name it make of it, one at a time |
| RegistryLives.OfferAnswers | impl/crates/interop-runtime/src/session.rs:76-109 | what accepting and expiring answer after any run: unknown offers are rejected or expired, pending ones get the verdict, decided ones answer their decision |
| RegistryLives.SessionLivesItsLife | impl/crates/interop-runtime/src/session.rs:118-212 | in every run a session is what the calls that name it, the crashes of its worker and the sweeps past its deadline make of it |
| RegistryLives.SessionAnswers | impl/crates/interop-runtime/src/session.rs:159-212 | what cancelling answers after any run, and exactly whom a crash and a sweep name |
| Castv2.ReadersAgreeUnless | impl/crates/proto-cast/src/castv2.rs:279-297 | this reader and the Quick Share one agree except exactly on ten-byte integers whose last byte overflows, which this one truncates |
| Castv2.FrameRoundTrip | impl/crates/proto-cast/src/castv2.rs:107-256 | encoding succeeds exactly for the encodable messages, and decoding inverts it with trailing bytes left alone |
| Castv2.AcceptedCanBeSent | impl/crates/proto-cast/src/castv2.rs:107-256 | every accepted frame, however it was spelled, holds a message that encodes in no more bytes and decodes to itself |
| Castv2.UnknownFieldSkipped | impl/crates/proto-cast/src/castv2.rs:159-185 | an unknown field at any field boundary changes nothing |
| Castv2.ContinuedRefused | impl/crates/proto-cast/src/castv2.rs:168-176 | `continued` is refused at any field boundary unless it is zero |
| Castv2.RemainingLengthRefused | impl/crates/proto-cast/src/castv2.rs:177-182 | `remaining_length` is refused at any field boundary, unread |
| Castv2.Reader.Varint | impl/crates/proto-cast/src/castv2.rs:279-297 | the shift loop agrees with the recursive definition |
| Castv2.Reader.NextField | impl/crates/proto-cast/src/castv2.rs:299-316 | key, wire type, zero check; None only at the end |
| Castv2.Reader.BytesField | impl/crates/proto-cast/src/castv2.rs:318-328 | stays in bounds, without a limit of its own |
| Castv2.Reader.SkipField | impl/crates/proto-cast/src/castv2.rs:335-356 | skips exactly one value |
| Castv2.Reader.TakeField | impl/crates/proto-cast/src/castv2.rs:159-185 | one arm of the field loop |
| Castv2.DecodeBodyOf | impl/crates/proto-cast/src/castv2.rs:143-224 | limit, loop, then the required fields |
| Castv2.EncodeBodyOf | impl/crates/proto-cast/src/castv2.rs:107-140 | checks, six fields in order, limit |
| CastAnswers.HeaderAnswer | impl/crates/proto-cast/src/castv2.rs:227-256 | a header that promises too much is refused for the limit before the body has come, a body that has not come as invalid, and otherwise exactly the body decides |
| CastAnswers.KeyAnswer | impl/crates/proto-cast/src/castv2.rs:299-316 | keys of another wire type or of number zero are invalid wherever they stand |
| CastAnswers.EncodeAnswer | impl/crates/proto-cast/src/castv2.rs:107-140 | a version above three or an empty name is invalid, a body over the limit is refused for it, and nothing else is refused |
| CastAnswers.AnyOrderAnswer | impl/crates/proto-cast/src/castv2.rs:143-224 | a body of known fields in any order, however often repeated, is a message exactly when the last of each fit together, and is then made of these |

## Left out

- Cryptographic internals, entropy and constant-time comparison: parameters, as described above.
- Time, process exits, spawn results, sink answers and initialisation vectors are parameters.
- Error messages and phases: results carry the error code only.
- Debug builds, in which a wrapping counter or total stops the program.
- Counters of events, bytes and frames kept as u32, u64 or usize are unbounded here, except the wrapping ones named above.
- Text is a sequence of characters, or its UTF-8 bytes where a codec handles it; where the code takes a length in bytes of such text, the model takes the number of characters.
- The real file system: symbolic links, permissions, other processes, and write errors other than a missing file.
- Hash checks at commit: receive sessions pass no expected hash, so that branch is not modelled.
- File name and folder in the header an assembler is built with: it never looks at them.
- TransportChain.RunTransportChain: the JSON the demo prints and its clean-up of the directory are not modelled; the chunk size leaves room for the envelopes, as the demo's 16 KiB do.
- Hash maps: the order in which they are walked is arbitrary here.
- Pair store, payload acknowledgement tracker, paired-key exchange object: easy members beside the frames that are modelled.
- PlainText alert frames and generic-key rewriting helpers of the wire module used for experiments.
- EventBus.Bus.Publish: one limit pair for the life of the bus; their validation at construction is not modelled.
- Mirror.MirrorTrack.HandleFrame: the sink never fails, so an error in the middle of a flush is not modelled.
- Resample.RunFallsShort: blocks that end inside a frame are excluded, since their trailing samples are counted in and never come out.
- Workers.RestartsAreBounded: the profiles are fixed during a run; hashes, sandboxing, pipes, the exec-request replies of `poll` and the list it returns are not modelled.
- Workers.WorkerSupervisor.ShutDownAll: which workers are slow and which listener files are left are answers of the operating system, parameters.
- Registry.RunsStayBalanced: states the registry never produces (Cancelling, Completed) take no part.
- Session.FragmentationIndependent: all chunks are fed at one time; the handshake deadline is checked per call.
- SecureChannel.OpenedIsPrefixOfSealed: fewer than 2^32 frames on one connection, the bound shown exact by SecureChannel.ReplayAfterWrap.
- EndToEnd.PublishedIsSent: runs in which no file over the budget is set up and no publish replaces another entry's bytes, the exact steps that break the session by ReceiveRuns.StepKeepsCouplingIff.
- JSON, URL, XML, SSDP, RTSP and TXT parsing, platform probes, sockets, command lines and Python tools.
