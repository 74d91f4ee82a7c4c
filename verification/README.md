# Verified models of go-ring's stateful machines

Four parts of go-ring keep a promise over unbounded runs. Each is modelled in the form the Go code has,
and its promise is proved for every input, every run or every interleaving.

- **H.264 over RTP** (`cmd/go-ring/h264_bits.go`, `cmd/go-ring/h264_writer.go`). A bit reader finds the IDs in
  parameter sets and slice headers. A frame writer joins RTP packets into access units, remembers parameter
  sets, and holds predictive frames back after loss. `Wire`, `Bits`, `Rbsp`, `H264Bits`, `PackedIds`, `AnnexB`,
  `Payload`, `FrameGate`, `FrameRuns`, `FrameGuarantees`, `FrameOutcome`, `FrameLoss`, `LostSlice`, `OutputStream`,
  `FrameWriter`.
- **RTP recording** (`cmd/go-ring/rtp_recording.go`). A magic line and length-prefixed packets, and the replay
  that drives the frame writer from them. `RtpRecording`, `ReplayAny` (input of any kind), `ReplayVideo`.
- **PTZ controller** (`cmd/go-ring/view.go`). The key loop that starts and stops a camera. `PtzController`.
- **Signaling session** (`internal/signaling/session.go`). Callers, one reader, an expiry worker and a heartbeat
  worker share state under a mutex. `SessionCore` has the critical sections, `SessionMachine` the threads as
  atomic steps, `SessionSafety`, `SessionReplies` and `SessionProgress` the invariants of every step,
  `SessionGuarantees` the safety theorems over whole runs, `SessionService` what the session does for its users,
  `SignalingSession` the object with its fields updated in place.

Objects that the Go code updates in place are classes here (`H264Bits`, `H264FrameWriter`, `Recording`, `Reader`,
`Controller`, `Session`). Each method is proved equal to a function on values, and the theorems are about runs of
those functions. Byte slices whose backing array is kept between packets are `ByteBuffer` objects; the frame and
the stored parameter sets never share one.

Parameters stand for what go-ring calls and does not implement: the pion depacketizer (a start state, `unmarshal`
and a partition-head test), the RTP packet codec, the output (an arbitrary function says which writes fail), the
camera (likewise), the clock, and decoded JSON messages.

Where the code and the standard differ, the code is followed:

- The bit reader drops a 03 after two *kept* zero bytes, not after two zero input bytes as section 7.3.1 of
  ITU-T H.264 does. `Rbsp.ReaderAgreesExactly` says when that matters, `Rbsp.ReaderLosesPackedThree` and
  `H264Bits.RejectedSpsId` show inputs on which it does. `PackedIds` shows that it never hides an ID of a PPS or of a
  conforming slice header, and hides that of an SPS on exactly one header.
- The frame writer's own comment has it forward only complete access units. It does not always: when the first
  packets of a unit are lost and the next looks like a partition head, the rest is taken for the unit.
  `FrameLoss.WrittenWholeExactly` says when a written frame is whole, `LostSlice` shows one that is not. Frames
  without an IDR slice always are.
- A call can return an internal cancellation after all, if the parent context is cancelled during its write:
  `SessionGuarantees.ParentCancelShowsThrough`. Without that it never does.

Check with `dafny verify dfyconfig.toml` (Dafny 4.11).

## Model

| member | source | states |
|---|---|---|
| Rbsp.ReaderIsStandardThenStrip | cmd/go-ring/h264_bits.go:21-32 | on every input the reader's loop gives what the section 7.3.1 decoder followed by the same dropping of 03 bytes gives |
| Rbsp.ReaderAgreesExactly | cmd/go-ring/h264_bits.go:21-32 | the loop equals the section 7.3.1 decoder if and only if the true RBSP has no 00 00 03 |
| Rbsp.ReaderUndoesEscapeExactly | cmd/go-ring/h264_bits.go:21-32 | the loop undoes the emulation prevention of section 7.4.1.1 if and only if the payload has no 00 00 03 |
| Rbsp.ReaderKeepsUnstuffedPrefix | cmd/go-ring/h264_bits.go:21-32 | bytes before the first 00 00 03 of the payload are read as packed, whatever follows |
| Rbsp.ReaderLosesPackedThree | cmd/go-ring/h264_bits.go:24-27 | a payload 00 00 03, sent as 00 00 03 03, comes back without its 03 |
| H264Bits.H264Bits.constructor | cmd/go-ring/h264_bits.go:21-32 | the loop over the NAL unit without its header computes the stripped payload, cursor at 0 |
| H264Bits.H264Bits.BitValue | cmd/go-ring/h264_bits.go:34-43 | the bit at the cursor, most significant first, cursor one further; at the end no bit and no move |
| H264Bits.H264Bits.Skip | cmd/go-ring/h264_bits.go:45-53 | moves the cursor exactly when that many bits are left |
| H264Bits.H264Bits.LeadingZeroBits | cmd/go-ring/h264_bits.go:55-73 | counts the zeros up to the first one, or fails with the cursor where the specification says |
| H264Bits.H264Bits.Ue | cmd/go-ring/h264_bits.go:55-86 | value, success and final cursor are those of the specification, failures included |
| H264Bits.UeInvertsCode | cmd/go-ring/h264_bits.go:55-86 | for every n up to 2^32 - 2, at any offset and before any bits, the section 9.1 codeword of n reads as n and takes 2 floor(log2(n + 1)) + 1 bits |
| H264Bits.UeReadsOnlyCodes | cmd/go-ring/h264_bits.go:55-86 | every success consumed exactly the codeword of its result, which is at most 2^32 - 2 |
| H264Bits.UeFailsExactly | cmd/go-ring/h264_bits.go:55-86 | it fails if and only if 32 zeros come next or the remaining bits are a proper prefix of a codeword |
| H264Bits.UeExtends | cmd/go-ring/h264_bits.go:55-86 | later bits never change a value that was read |
| Bits.PackRoundTrip | cmd/go-ring/h264_bits.go:34-43 | the bits of packed bytes are the bits that were packed |
| H264Bits.H264SpsId | cmd/go-ring/h264_bits.go:88-101 | the reader's calls and checks compute the specified SPS ID or fail |
| H264Bits.H264PpsIds | cmd/go-ring/h264_bits.go:103-118 | the reader's calls and checks compute the specified pair of IDs or fail |
| H264Bits.H264SlicePpsId | cmd/go-ring/h264_bits.go:120-137 | the reader's calls and checks compute the specified PPS ID or fail |
| H264Bits.PackedSpsId | cmd/go-ring/h264_bits.go:88-101 | an SPS packed as in section 7.3.2.1.1 and escaped parses to its ID if that is in range and to nothing otherwise, if the bytes holding the fields have no 00 00 03 |
| H264Bits.PackedPpsIds | cmd/go-ring/h264_bits.go:103-118 | the same for both IDs of a PPS (section 7.3.2.2) |
| H264Bits.PackedSlicePpsId | cmd/go-ring/h264_bits.go:120-137 | the same for the PPS ID of a slice header (section 7.3.3), for any first macroblock and slice type up to 2^32 - 2 |
| PackedIds.SlicePpsIdReadsBack | cmd/go-ring/h264_bits.go:120-137 | every slice header with first macroblock below 2^18 - 1, slice type at most 9 and PPS ID at most 255, so every conforming one, parses to its PPS ID whatever follows, with no condition on its bytes |
| PackedIds.FarSliceLosesId | cmd/go-ring/h264_bits.go:120-137 | a slice header with first macroblock 0x5FFFFF that refers to PPS 0 and in which the parser finds no ID |
| H264Bits.RejectedSpsId | cmd/go-ring/h264_bits.go:88-101 | an SPS whose ID is 0 by the standard and which the parser rejects |
| PackedIds.SpsIdReadsBackExactly | cmd/go-ring/h264_bits.go:88-101 | an SPS with an ID in range parses to it whatever follows, if and only if its header bytes are not 00 00 03 |
| PackedIds.PpsIdsReadBack | cmd/go-ring/h264_bits.go:103-118 | a PPS with IDs in range parses to them whatever follows, with no condition on its bytes |
| H264Bits.ParsedIdsAreStable | cmd/go-ring/h264_bits.go:88-137 | bytes appended to a NAL unit never change an ID that parsed |
| AnnexB.IndexMeaning | cmd/go-ring/h264_writer.go:166 | a start code is found if there is one, and it is the leftmost |
| AnnexB.PiecesAreClean | cmd/go-ring/h264_writer.go:166 | no piece between start codes contains one |
| AnnexB.SplitKeepsBytes | cmd/go-ring/h264_writer.go:166 | putting the start codes back gives the frame |
| AnnexB.SplitUndoesJoinExactly | cmd/go-ring/h264_writer.go:202-205 | the non-empty pieces of start-code-prefixed non-empty NAL units are those units if and only if none contains 00 00 00 01, even when one ends in zeros |
| AnnexB.EscapedUnitsAreClean | cmd/go-ring/h264_writer.go:166 | a NAL unit escaped as in section 7.4.1.1 contains no start code, so the condition above is met |
| Payload.ValidH264Payload | cmd/go-ring/h264_writer.go:133-163 | accepts a payload if and only if it is a single NAL unit, an FU-A with a body, or a STAP-A whose rest is a concatenation of 16-bit lengths each followed by that many (at least one) bytes |
| Payload.AggregationStep | cmd/go-ring/h264_writer.go:144-157 | bytes are such a concatenation if and only if one whole unit stands first and the rest is one too |
| Payload.AggregationIsUnique | cmd/go-ring/h264_writer.go:143-159 | the division into units is unique |
| Payload.ValidExactly | cmd/go-ring/h264_writer.go:133-163 | which payloads are accepted, for each of the 32 types of table 1 of RFC 6184: 1 to 23 always, 24 if and only if it divides into units of 1 to 65535 bytes, 28 if and only if it has 3 bytes, no other |
| Payload.FragmentsAreValid | cmd/go-ring/h264_writer.go:141-142 | however a NAL unit is cut into non-empty parts, every fragment made of it as in section 5.8 of RFC 6184 is accepted |
| FrameWriter.H264FrameWriter.constructor | cmd/go-ring/h264_writer.go:46-60 | starts in the specified state with nothing stored |
| FrameWriter.H264FrameWriter.StoreSps | cmd/go-ring/h264_writer.go:214 | storing an SPS, reusing its buffer or not, changes that key alone and no PPS |
| FrameWriter.H264FrameWriter.StorePps | cmd/go-ring/h264_writer.go:221 | storing a PPS, reusing its buffer or not, changes that key alone and no SPS |
| FrameWriter.H264FrameWriter.CollectUnit | cmd/go-ring/h264_writer.go:203-233 | one turn of the loop fails if and only if the unit's IDs cannot be read, and otherwise stores its set or yields its reference |
| FrameWriter.H264FrameWriter.CollectParameterReferences | cmd/go-ring/h264_writer.go:196-237 | the loop computes the specified references, IDR flag and stored sets, those before a failure included |
| FrameWriter.H264FrameWriter.HasReferencedParameterSets | cmd/go-ring/h264_writer.go:239-248 | true if and only if every referenced PPS is stored and so is its SPS, not empty |
| FrameWriter.H264FrameWriter.WriteParameterSets | cmd/go-ring/h264_writer.go:250-267 | writes start code, SPS, start code, PPS for each reference in order, up to the first failing write |
| FrameWriter.H264FrameWriter.WriteFrame | cmd/go-ring/h264_writer.go:165-194 | state, writes and error are the specified ones, at every failing write |
| FrameWriter.H264FrameWriter.AppendPacketPayload | cmd/go-ring/h264_writer.go:116-131 | appends what the depacketizer returns or marks the unit damaged, leaving readiness and stored sets alone |
| FrameWriter.H264FrameWriter.ResetFrame | cmd/go-ring/h264_writer.go:269-274 | clears the frame and the depacketizer, and no stored set although buffers are reused |
| FrameWriter.H264FrameWriter.AdmitPacket | cmd/go-ring/h264_writer.go:67-89 | the part before the marker test takes the specified state to the specified state |
| FrameWriter.H264FrameWriter.WriteRTP | cmd/go-ring/h264_writer.go:62-103 | the updated object, its writes and its error are one step of the specified machine, buffers unshared |
| FrameRuns.UnitMeaning | cmd/go-ring/h264_writer.go:67-70 | the unit of the last packet is the longest run ending there with one timestamp and no marker inside |
| FrameRuns.IntactMeaning | cmd/go-ring/h264_writer.go:72-88 | intact means: a head first, consecutive sequence numbers, valid payloads that depacketize, at most 8 MiB |
| FrameRuns.RunTracks | cmd/go-ring/h264_writer.go:62-131 | after every packet sequence the writer holds the open unit: damaged if and only if it is not intact, else its exact reassembly |
| FrameRuns.UnitsDecideOutput | cmd/go-ring/h264_writer.go:91-103 | each step's verdict, writes, stored sets and readiness follow from its unit, the stored sets and readiness |
| FrameOutcome.FailuresAreReported | cmd/go-ring/h264_writer.go:175-193 | after every run a packet is answered with a write error if and only if one of the writes it led to failed, and nothing was written after that one |
| FrameOutcome.VerdictExactly | cmd/go-ring/h264_writer.go:62-103 | the verdict on every packet, from the packets received so far and readiness: nothing before the marker, damaged if and only if the unit is not intact, rejected if and only if some unit does not parse or a slice refers to sets never received, withheld, failed, or written |
| FrameOutcome.ReadyAfterFailure | cmd/go-ring/h264_writer.go:175-191 | after a failed write the writer is ready exactly if it was, or if all parameter sets of an IDR unit were written and the frame was the write that failed |
| FrameGuarantees.EmptyPayloadsAreInvisible | cmd/go-ring/h264_writer.go:63-65 | packets without payload change neither state nor writes of any run |
| FrameGuarantees.WrittenFramesAreAccessUnits | cmd/go-ring/h264_writer.go:62-131 | every frame written is the in-order concatenation of a fresh depacketizer's results on one run of packets: consecutive modulo 2^16, one timestamp, a head first, the marker last and only there, at most 8 MiB |
| FrameGuarantees.OnlyAccessUnitsAreHandedOver | cmd/go-ring/h264_writer.go:165-194 | any step that writes at all ends such a unit and writes a prefix of what it calls for, all of it unless a write failed |
| FrameGuarantees.ReadyExactly | cmd/go-ring/h264_writer.go:67-77 | without write errors the writer is ready if and only if an IDR unit was written and since its first packet there was no gap, no early timestamp change, and since it no rejected unit |
| FrameGuarantees.PredictiveUnitsNeedAnIdr | cmd/go-ring/h264_writer.go:165-194 | so a unit without IDR slice is written only under that condition, and withheld only without it |
| FrameGuarantees.CollectMeaning | cmd/go-ring/h264_writer.go:196-237 | collecting succeeds if and only if every unit parses, and then lists every slice reference in order and says whether there is an IDR slice |
| FrameGuarantees.CollectHoldsLatest | cmd/go-ring/h264_writer.go:202-233 | if the sets stored before were the last received under each ID, they still are after a frame, its units counted up to the first unreadable one |
| FrameGuarantees.StoredAlwaysParses | cmd/go-ring/h264_writer.go:207-221 | throughout every run each stored SPS parses to its key, at most 31, and each stored PPS to its key, at most 255, and its SPS ID |
| FrameGuarantees.StoredAreTheLatest | cmd/go-ring/h264_writer.go:207-221 | after every packet sequence, for every ID, the stored SPS and PPS are the last ones with that ID among the readable units of the ended intact access units, and nothing is stored where there was none |
| FrameGuarantees.IdrUnitsCarryTheirSets | cmd/go-ring/h264_writer.go:175-182 | each IDR unit written is directly preceded, per slice reference, by start code, SPS, start code, PPS: the PPS received last under the referenced ID and the SPS received last under the ID that PPS names |
| FrameLoss.WrittenWholeExactly | cmd/go-ring/h264_writer.go:67-89 | of consecutively numbered packets some are lost, fewer than 2^16 in a row: a written frame is made of the whole access unit that was sent if and only if the packets lost directly before the first that arrived of it all belong to earlier units |
| FrameLoss.PredictiveFramesAreWhole | cmd/go-ring/h264_writer.go:72-77 | a written frame without an IDR slice is always the whole access unit that was sent |
| FrameLoss.HeadsMakeFramesWhole | cmd/go-ring/h264_writer.go:80-85 | if only first packets of units look like partition heads, every written frame is the whole access unit that was sent |
| LostSlice.LostSliceGoesUnnoticed | cmd/go-ring/h264_writer.go:72-85 | for any parameter set IDs and any two IDR slices of a unit, each in its own packet: the first lost, the second is written as an IDR frame of its own and the writer is ready for predictive frames |
| LostSlice.SomeSliceIsLost | cmd/go-ring/h264_writer.go:72-85 | packed parameter sets and slices with which that happens |
| OutputStream.OutputSplitsBack | cmd/go-ring/h264_writer.go:165-194 | in a run without write errors in which the depacketizer returned start-code-prefixed units for the packets of each intact access unit, all output split at its start codes is exactly the parameter sets and NAL units sent, in order |
| RtpRecording.Recording.constructor | cmd/go-ring/rtp_recording.go:49-58 | the magic is buffered, nothing is in the file yet |
| RtpRecording.Recording.WritePacket | cmd/go-ring/rtp_recording.go:61-87 | fails exactly on unmarshallable or over-long packets, changing nothing; otherwise the file has grown by the buffer and one record |
| RtpRecording.RecordAll | cmd/go-ring/rtp_recording.go:61-87 | recording a list of packets makes exactly the magic followed by their records |
| RtpRecording.FittingMeaning | cmd/go-ring/rtp_recording.go:116-137 | the packets counted as fitting into k bytes are the most whose records end by k, and k is a record boundary only at their end |
| RtpRecording.ReplayOfCut | cmd/go-ring/rtp_recording.go:104-151 | a recording cut at any byte feeds the consumer the fitting packets up to its first failure, and then ends cleanly if and only if the cut is a record boundary |
| RtpRecording.ReplayDeliversWhatFits | cmd/go-ring/rtp_recording.go:104-151 | the packets delivered from the first k bytes are exactly those whose records fit, in order; it succeeds if and only if k is a record boundary at or after the magic |
| RtpRecording.ReplayOfWhole | cmd/go-ring/rtp_recording.go:104-151 | replaying the whole file is feeding the consumer directly |
| ReplayAny.ReplayExactly | cmd/go-ring/rtp_recording.go:104-151 | replaying any byte string: fewer than 15 bytes and a wrong header are their own errors; otherwise the consumer gets exactly the packets before the first defect, up to its first failure, and the outcome names that defect |
| ReplayAny.ReplaySucceedsExactly | cmd/go-ring/rtp_recording.go:104-151 | it succeeds if and only if the bytes are the magic and then only whole records of 1 to 65536 bytes that all decode and that the consumer takes |
| ReplayAny.ParseIsUnique | cmd/go-ring/rtp_recording.go:116-144 | records, packets, rest and defect of a byte string are determined by it |
| ReplayAny.RecordIsPrefixed | cmd/go-ring/rtp_recording.go:71-76 | a record is its packet behind the big-endian 32-bit length |
| ReplayVideo.Reader.ReadFull | cmd/go-ring/rtp_recording.go:107-135 | reads all, or reports end of file exactly when nothing was left |
| ReplayVideo.ReadPacket | cmd/go-ring/rtp_recording.go:117-144 | one turn of the loop takes one record off, with the source's error for each defect |
| ReplayVideo.ReplayPackets | cmd/go-ring/rtp_recording.go:116-150 | the loop over a reader and a frame writer ends in the specified state with the specified outcome |
| ReplayVideo.ReplayRtp | cmd/go-ring/rtp_recording.go:104-151 | the whole replay into a frame writer ends in the specified state with the specified outcome |
| ReplayVideo.ReplayRelivesTheRun | cmd/go-ring/replay_video.go:59-64 | replaying a recording into a new frame writer ends with the state and the writes of the live run: all of it, which then had no write error, or up to the packet that brought the first one |
| PtzController.Controller.StopPtz | cmd/go-ring/view.go:509-527 | stops what moves, and forgets it only when acknowledged |
| PtzController.Controller.Key | cmd/go-ring/view.go:529-570 | fields, commands and error after a key are the specified ones |
| PtzController.Controller.ControlLoop | cmd/go-ring/view.go:416-483 | the event loop with its deferred stop does what the specified loop does |
| PtzController.LoopIsSafe | cmd/go-ring/view.go:444-482 | for every key, clock and failure sequence the acknowledged commands alternate start and stop of the same axis, the controller knows the motion, and at every loop head a moving camera has its idle stop armed |
| PtzController.ExitStops | cmd/go-ring/view.go:435-441 | when the loop is left the camera is still, unless the last stop itself failed |
| PtzController.RepeatsSendNothing | cmd/go-ring/view.go:541-567 | after any run, the key of a running movement repeated any number of times sends nothing and only puts the idle stop off to 350 ms after the last repetition |
| PtzController.OtherKeyStopsFirst | cmd/go-ring/view.go:541-558 | after any run, another movement key sends the stop of the running movement, then its own start only if that was acknowledged, and the loop goes on only if both were |
| PtzController.StepKeySteps | cmd/go-ring/view.go:548-550 | in step mode, after any run, each arrow key sends exactly its step (A tilt up, B tilt down, C pan right, D pan left), and the loop goes on if and only if it was acknowledged |
| PtzController.IdleKeyStarts | cmd/go-ring/view.go:552-567 | in continuous mode, after any run, an arrow key with nothing moving sends exactly its start, and if acknowledged the camera moves that way with the idle stop due 350 ms later |
| PtzController.SpaceStops | cmd/go-ring/view.go:529-534 | after any run, in either mode, the space key stops a running movement and disarms the idle stop, or ends the loop with the error; with nothing moving it sends nothing |
| PtzController.OtherEvents | cmd/go-ring/view.go:443-471 | after any run, q, Q and every end leave the loop with their result and send nothing, and any further key does nothing |
| PtzController.IdleStopIsDue | cmd/go-ring/view.go:561-567 | the armed idle stop is due 350 ms after the last movement key |
| PtzController.IdleCameraIsStopped | cmd/go-ring/view.go:453-463 | after any run the clock does nothing before that moment, and from then on the stop is sent: the camera is still, or the loop ends with the error |
| SessionCore.DecimalIsInjective | internal/signaling/session.go:405 | decimal rendering is injective |
| SessionCore.RequestIdsDiffer | internal/signaling/session.go:405 | so two sequence numbers render to the same ID if and only if they are equal |
| SignalingSession.Session.constructor | internal/signaling/session.go:199-212 | starts open, with nothing pending and the first pong at the start |
| SignalingSession.Session.Enroll | internal/signaling/session.go:395-408 | a closed session gives its cause; an open one a new ID for a new channel, all else unchanged |
| SignalingSession.Session.Delete | internal/signaling/session.go:410 | removes one ID and nothing else |
| SignalingSession.Session.AnswerPending | internal/signaling/session.go:712-753 | the matching call's channel, found empty, gets the reply and its ID is forgotten; without a match or for another control session nothing changes |
| SignalingSession.Session.HandleMessage | internal/signaling/session.go:550-596 | fields and error after any message are the specified ones |
| SignalingSession.Session.Receive | internal/signaling/session.go:598-601 | takes the oldest event |
| SignalingSession.Session.FinishWith | internal/signaling/session.go:632-659 | the first finish publishes its cause, puts it on every pending channel, closes done and cancels; a later one changes nothing |
| SignalingSession.EveryFinishIsFinished | internal/signaling/session.go:641-658 | begin, deliveries in any order, close and cancel, the steps the interleavings use, always add up to that result |
| SessionSafety.NextKeepsOrder | internal/signaling/session.go:632-659 | no step closes done before the cause is published, closes it again, or takes cause or cancel back |
| SessionReplies.NextKeepsReplies | internal/signaling/session.go:404-410 | every step of every thread keeps pending, channels, answers and IDs in agreement |
| SessionGuarantees.TerminalIsFinal | internal/signaling/session.go:632-659 | the cause is assigned once, done is closed at most once, and the order is cause, done, cancel |
| SessionGuarantees.CallsNameTheCause | internal/signaling/session.go:395-453 | every failed call fails with its own cause, given to it earlier in the run by its caller or its deadline, with the terminal cause, or with an error its own send met earlier: a failure to marshal or to write, an age past the maximum, a cancelled context; unless the parent context was cancelled never with an internal cancellation, and if its write was cut off with its own cause or the terminal cause |
| SessionGuarantees.ParentCancelShowsThrough | internal/signaling/session.go:437-443 | with the parent cancelled during the write a call can return that cancellation |
| SessionGuarantees.IdsRepeatExactly | internal/signaling/session.go:404-405 | two registrations share an ID if and only if the 64-bit sequence came round between them |
| SessionGuarantees.IdsNeverRepeat | internal/signaling/session.go:404-407 | within 2^64 registrations the IDs handed out are different for any two calls of a run, past or present |
| SessionGuarantees.SendsNeverBlock | internal/signaling/session.go:647-652 | each reply channel gets at most one value, and is empty whenever its call is pending or still owed the terminal cause, so no send blocks or is dropped |
| SessionGuarantees.RepliesFitTheirCalls | internal/signaling/session.go:446-448 | a call that returns a reply returns the one value sent to it: the terminal cause, or what an addressed, well formed message carried that was handled while the call was pending, with its own ID and, for a result, its own control session, for an error the peer's code |
| SessionGuarantees.SentWasReceived | internal/signaling/session.go:716-753 | every result or error ever sent on a reply channel was carried by such a message earlier in the run |
| SessionService.RepliesReachTheirCalls | internal/signaling/session.go:712-753 | in any run, handling an addressed, well formed reply with the ID of a pending call (a result: with the own control session) puts exactly that reply on the call's empty channel, forgets the ID, and lets a waiting call take it |
| SessionService.StrayReplyIsIgnored | internal/signaling/session.go:734-738 | such a reply for another control session or without a pending call is taken and changes nothing |
| SessionService.HandleAnswers | internal/signaling/session.go:550-595 | the error after every message, in the order of the checks: not addressed, undecodable identity, closed session, pong, malformed frame, full queue; an error changes nothing |
| SessionService.WritesWereAllowed | internal/signaling/session.go:303-324 | a call writes only after it found the session open and then younger than MaxAge |
| SessionService.ExpiredMeansClosed | internal/signaling/session.go:320-324 | a call that fails because it met the maximum age leaves the session closed |
| SessionService.CallsReturn | internal/signaling/session.go:356-454 | a call takes at most 11 steps of its own, whatever else runs, and once its context has a cause or a finish is over it can always take the next, even out of a blocked write; inside its own finish that finish can go on |
| SessionService.FirstCauseStays | internal/signaling/session.go:374-391 | the first cause given to a call, by its caller, its deadline or the terminal cause, stays its cause |
| SessionGuarantees.PendingIsExact | internal/signaling/session.go:407-410 | while open, pending holds exactly the calls registered, unanswered and not returned; once closed it is empty |
| SessionGuarantees.IdleMeansNothingPending | internal/signaling/session.go:410 | with no call in flight nothing is pending |
| SessionGuarantees.FinishAnswersEveryone | internal/signaling/session.go:647-654 | once done is closed every call still inside has been sent its one value |
| SessionGuarantees.UnaddressedIsInvisible | internal/signaling/session.go:551-564 | messages for another dialog, device or signal session can be deleted from any run: the rest is a run and ends in the same state |
| SessionGuarantees.EventsAreConserved | internal/signaling/session.go:579-601 | the events and requests that Handle took without an error are those received followed by those queued, in order, at most 32 queued |
| SessionGuarantees.FullQueueRejects | internal/signaling/session.go:579-595 | an event or a well formed request for an open session is accepted if and only if there is room; a full queue reports backpressure and loses nothing |
| SessionGuarantees.LastPongIsLatest | internal/signaling/session.go:573-577 | in every run the time the heartbeat worker looks at is that of the latest pong handled for this session while open, or the start |
| SessionGuarantees.LostMeansSilent | internal/signaling/session.go:245-252 | a session that ended in ErrHeartbeat had a check before which, for three heartbeats, it neither started nor handled a pong |
| SessionGuarantees.OneLateTick | internal/signaling/session.go:240-244 | after the cancel the heartbeat worker starts at most one more iteration |
| SessionService.HeartbeatErrorsEnd | internal/signaling/session.go:245-262 | a failed ping, a pong three heartbeats old, or the age met by the heartbeat worker ends the session with that error, unless another finish closes it first |
| SessionService.TimerEnds | internal/signaling/session.go:230-235 | so does the expiry timer, with ErrExpired |
| SessionService.TicksPing | internal/signaling/session.go:240-262 | between any two ticks a ping was written, and they are at least one heartbeat apart |
| SessionGuarantees.CloseReturns | internal/signaling/session.go:281-286 | from the moment the session is closed the winning finish and the workers take at most 14 steps more than there are calls left to answer, whatever else runs; and until done is closed, the context cancelled and both workers gone, one of them can go on, even out of a blocked write |
| SessionProgress.NextKeepsAlive | internal/signaling/session.go:227-265 | while the session is open every step leaves the expiry worker at its select or about to finish, and the heartbeat worker at work unless the context was cancelled |
| SessionGuarantees.OpenMeansFresh | internal/signaling/session.go:216-265 | if time waits only for work of the workers that is due, an open session is at most MaxAge old, and it or a pong it handled is less than four heartbeats old; a worker that is gone holds no time up |
| SessionGuarantees.TimeNeverStops | internal/signaling/session.go:227-265 | and whenever time waits, in any run, a worker has a step to take |

## Left out

- Depacketizer, RTP codec: pion's code is a parameter; recording theorems assume packets that the codec gives back.
- RtpRecording.Recording.WritePacket: disk errors and partial writes are not modelled, nor are file modes and permissions.
- SessionCore.Handle: starts from decoded records. JSON decoding, and how decoding a wrapped message into the outer command merges their fields, is library behaviour.
- SessionMachine: the checks of Call before it registers, and the PTZ payload it marshals, are one-branch facts; marshalling may fail, with any error.
- SessionMachine: Go's select is a free choice among ready cases, so nothing is claimed about queued events draining before the terminal error. A receiver that sees done or its own context changes no state and is no step of the model.
- SessionMachine: of Send, the calls of Call and of the heartbeat are modelled step by step; one by another goroutine appears only as the finish it may cause.
- SessionMachine: Close and Fail are outside finishes; the join in Close is SessionGuarantees.CloseReturns, which assumes what the source asks of Send, that a write ends when its context is cancelled.
- OutputStream.OutputSplitsBack: of a payload that itself contains a start code the depacketizer makes units of its own; runs with such an intact access unit are not covered.
- FrameLoss: a loss of 2^16 packets in a row cannot be told from none by their numbers, so it is excluded.
- FrameWriter: the pieces of a frame are values, so that storing one copies it is not a question the model can ask; it shows that no two slots share a buffer.
- SessionGuarantees.IdsNeverRepeat: holds for up to 2^64 registrations; the sequence wraps after that. So do the other theorems about replies.
- SignalingSession.Session.FinishWith: is proved run without interruption; its interleavings are those of SessionMachine.
- SessionGuarantees.OpenMeansFresh: assumes no time passes between a due timer and its handling, and that a send ends before the next tick; a late scheduler or a slow send adds its delay to both bounds.
- H264Bits.PackedSlicePpsId: outside the range of PackedIds.SlicePpsIdReadsBack the condition on 00 00 03 is sufficient, not necessary: after a dropped byte other first fields may by chance lead to the same ID.
- Rbsp.Escape: adds the final 03 that section 7.4.1.1 asks for when a payload ends in two zero bytes.
- Go integers: cursors, lengths and Exp-Golomb values are unbounded here; the values read stay below 2^32 and frames at most 8 MiB, so no Go integer overflows. Sequence numbers wrap as in the source.
- PtzController: a start that fails is taken to have no effect on the camera; direction and speed go no further than the command. A timer that was reset is taken not to fire for its old deadline, as Go has it since 1.23.
- PtzController.Controller.ControlLoop: events come as a list; the choice among ready select cases is the order of that list.
- FrameWriter: Close only closes the output.
- Generated clients, REST, authentication, WebRTC, players, token files and flag handling: I/O around libraries, no invariant of their own.
