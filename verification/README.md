# Verified model of a peer-to-peer calling application

The application places audio and video calls between two peers. A signalling server links
users; the peers exchange session descriptions, check candidate pairs, agree on DTLS roles,
shake hands over RTCP, send protected media and play it through a jitter buffer, and can send
files over data channels. This project models that logic in Dafny and proves what it promises.

Code that works in place is modelled in place: the jitter buffer, the audio ring, the ICE agent,
the session, the server's handlers and the transfer loops are classes and methods with the
source's loops, each proved to compute a function. What the source promises is proved about those
functions, over every input and every run. Protocols between two parties are state machines whose
steps include faults.

| files | what they model |
|---|---|
| `Jitter`, `JitterClass`, `JitterSafety`, `JitterDelivery`, `JitterPlayout`, `JitterStats`, `JitterResync`, `JitterGate`, `JitterDeadline`, `JitterReorder`, `JitterStreams`, `JitterCounts`, `JitterOrder`, `JitterBackward`, `JitterPipeline`, `Sender` | the jitter buffer, with the sender's chunking |
| `Rtp`, `Srtp`, `Bytes` | packet layout and protection |
| `Handshake` | the RTCP handshake, alone and between two peers |
| `FileCodec`, `DataChannel`, `FileTransfer`, `FileTransferClass`, `FileTransferSafety`, `FileTransferProgress`, `FileTransferLoops`, `FileTransferStrays` | file transfer over a data channel |
| `Sdp`, `SdpText`, `SdpRoundTrip`, `SdpErrors`, `Chars` | session descriptions: answers, printing and parsing |
| `Session`, `SessionPeers` | call sessions: DTLS roles, what each side learns of the other, media keys |
| `Signalling`, `SignallingLocks`, `SignallingLogin`, `UserFile` | the signalling server, by whole handlers and by lock-protected sections; logins and connections; the file of users |
| `Audio` | the audio ring and the capture callback |
| `Stun`, `Ice` | the STUN parser, pair priority and selection |
| `Common`, `ModArith` | shared types and modular arithmetic |

`dafny verify dfyconfig.toml` checks everything.

Clocks, sockets, disks, the cipher and the other side's timing are parameters: a clock is any
function, a receive loop gets any script of receptions, the keystream and the tag are any
functions. Machine integers wrap or saturate where the source's do; subtraction the source leaves
unchecked is modelled as the wrapping of a release build.

## Where the promise fails

Some properties one would expect do not hold of the code. Each item names the theorem that states
exactly when the property does hold, or how much of it does, and the counterexample where one is
spelled out.

- Chunks are refused near the start of the numbering: a frame of c > 1 chunks that starts at a sequence
  number r below the capacity N comes out of in-order arrival (`CompleteDelivery`), and of every order
  of its chunks (`ComesTogetherExact`, `ReorderedExact`), exactly when r + 2c - 3 < N.
- The chunk count is sent in one byte; the tail of a longer frame passes for a frame, unless the
  number of chunks is a multiple of 256 (`GenuineExact`).
- Delivered timestamps go back: a packet one turn of the ring ahead resets it around older packets,
  which are delivered after it (`TimestampsCanGoBack`). Over all runs whose arrivals keep within a span
  of d numbers they never go back exactly when d is at most one turn (`GoesForwardExact`), and a run
  does not drift exactly when they never go back (`PlayoutDoesNotDrift`).
- A pop gives up although a whole frame on the arc is in time, exactly when the two ends of the arc do not meet
  and the read frame is late (`GivesUpExact`): a reset around stale packets loses the write number, and the loop
  stops at an unset one (`WriteNumberLost`).
- `packets_lost` ignores gaps of 1000 or more, and an arrival that was not missing, such as a duplicate,
  takes one off it while something is (`LossCounterExact`, `DuplicateMiscounts`).
- A repeated Hello or a repeated Ready lets a handshake complete against a peer that has heard no Ready
  (`RepeatedHelloBreaksIt`, `RepeatedReadyBreaksIt`); over all runs with so many repetitions of each,
  completion tells of the other side exactly when there are none (`CompletionTellsExact`).
- A download is reported complete although the sender stopped early (`CompletedExact`,
  `LostConnectionCompletesCut`).
- An answer section without a common encoding prints a media line that the parser refuses
  (`AnswerReadsBackExact`).
- Roles stay alike when nothing in the offer is answered (`NegotiationComplements`).
- A user stays online without a connection when its handler logs in a second time, answers a logout of someone
  else, or ends on a reply it cannot send (`AttendedExact`, `SecondLoginStrands`).
- A restart loses or renames users: a name with a line break around it is accepted, and one line of the file is
  one user (`RestartExact`, `BreakRenames`).
- Two call requests that interleave leave a one-sided link (`RacingRequestsUnmatched`); interleavings
  whose write-backs find their copies current keep call matching (`CurrentWritesKeepMatching`), and a
  write-back acts as its whole handler exactly then (`WriteIsWholeExact`).
- A call can be accepted after its first party has left, between the two reads
  (`AcceptedAfterLeaving`, `InterleavedAcceptExact`).
- Pair priorities stop being lexicographic, and the two ends stop ranking alike, at 2^31 + 1
  (`LexicographicExact`, `PeersRankAlikeExact`).
- Candidates added one at a time form earlier pairs again (`AccumulatedSize`).

Where code and comments disagree the model follows the code: accepting and rejecting a call need
both users occupied with each other, not available, and rejecting changes both
(src/server/operating_server.rs:324-332, 380-384); server-reflexive pairs are formed and only
skipped when checked (src/session/ice/ice_agent.rs:123-129).

## Model

| member | source | states |
|---|---|---|
| `JitterClass.JitterBuffer.constructor` | src/transport/jitter_buffer/jitter.rs:78-95 | an empty ring that waits for an I-frame |
| `JitterClass.JitterBuffer.AddPacket` | src/transport/jitter_buffer/jitter.rs:110-130 | the in-place ring becomes exactly the abstract buffer `Add` gives, and the loss counters advance for every arrival, kept or not |
| `JitterClass.JitterBuffer.ShouldDiscardPacket` | src/transport/jitter_buffer/jitter.rs:328-344 | the three refusals: I-frame gate, older than the last delivered frame, outside the window, with the wrapping subtraction |
| `JitterClass.JitterBuffer.HandleNewWriteHead` | src/transport/jitter_buffer/jitter.rs:346-360 | moves the write head and resyncs on a collision only |
| `JitterClass.JitterBuffer.ResyncOrClear` | src/transport/jitter_buffer/jitter.rs:192-231 | the clearing loop computes `Resync`: next I-frame of another timestamp, or reset |
| `JitterClass.JitterBuffer.ResetPointers` | src/transport/jitter_buffer/jitter.rs:192-231 | what giving up leaves: pointers at zero, slots not passed untouched, gate closed |
| `JitterClass.JitterBuffer.PrepareNextFrameTs` | src/transport/jitter_buffer/jitter.rs:372-385 | the deadline loop computes `Prepare`, for any clock, and terminates |
| `JitterClass.JitterBuffer.AdvanceReadPointers` | src/transport/jitter_buffer/jitter.rs:387-407 | both loops: slots up to the target emptied, then the first occupied slot found |
| `JitterClass.JitterBuffer.RecordDelivery` | src/transport/jitter_buffer/jitter.rs:164-173 | schedule, last timestamp and gate after a delivery |
| `JitterClass.JitterBuffer.PopFrame` | src/transport/jitter_buffer/jitter.rs:148-179 | the collecting loop computes `Pop`: frame and buffer |
| `JitterDeadline.DeadlineLoopExact` | src/transport/jitter_buffer/jitter.rs:372-385 | for any clock: the loop ends at the first frame of the arc in time with every frame before it late at its reading, or where nothing is left to resume from or a number is unset |
| `JitterDeadline.LoopPlaysFirstInTime` | src/transport/jitter_buffer/jitter.rs:372-385 | with the ends of the arc meeting, whatever is late is passed over and the first frame in time is prepared |
| `JitterDeadline.GivesUpExact` | src/transport/jitter_buffer/jitter.rs:372-385 | for every buffer with a held read slot, the loop gives up if and only if nothing on the arc is in time, or the ends of the arc do not meet and the read frame is late |
| `JitterDeadline.TidyMeets` | src/transport/jitter_buffer/jitter.rs:148-179 | in runs of a rising sender within one turn of the ring the ends always meet |
| `JitterDeadline.PopSkipsLate` | src/transport/jitter_buffer/jitter.rs:148-179 | a pop after late frames delivers the first frame in time, if it is whole: its payloads in order |
| `JitterDeadline.WriteNumberLost` | src/transport/jitter_buffer/jitter.rs:192-231 | for every ring size, a run from empty after which a pop gives up on a whole I-frame in time |
| `Jitter.ResyncShrinks` | src/transport/jitter_buffer/jitter.rs:192-231 | a resync from an occupied slot lowers the number of occupied slots: the measure of the deadline loop |
| `Jitter.ScanShape` | src/transport/jitter_buffer/jitter.rs:192-231 | the scan only empties slots and stops on an occupied one |
| `JitterSafety.ReadSlotAlwaysHeld` | src/transport/jitter_buffer/jitter.rs:192-231 | in every reachable buffer a set read number means an occupied read slot |
| `JitterSafety.EmptyReadBranchUnreachable` | src/transport/jitter_buffer/jitter.rs:346-360 | after any run from empty, a colliding arrival never takes the "no packet at read index" branch |
| `JitterResync.CollidesIsOnArc` | src/transport/jitter_buffer/jitter.rs:346-360 | a collision is a new write head on the arc from read to write |
| `JitterResync.ScanExact` | src/transport/jitter_buffer/jitter.rs:192-231 | the scan finds the first I-frame of another timestamp on that arc, emptying exactly the slots before it, or the whole arc |
| `JitterResync.ResyncExact` | src/transport/jitter_buffer/jitter.rs:192-231 | a resync resumes there with the gate open, or resets with the gate closed |
| `JitterResync.NothingBeforeIFrame` | src/transport/jitter_buffer/jitter.rs:328-344 | over any run without an I-frame a new buffer stays empty and delivers nothing |
| `JitterGate.ShutGateArrival` | src/transport/jitter_buffer/jitter.rs:328-344 | while the gate of any reachable buffer is shut, an arrival opens it exactly when it is an I-frame, not old and inside the window, and playback starts at it; any other changes nothing |
| `JitterGate.GateStaysShut` | src/transport/jitter_buffer/jitter.rs:192-231 | after any reset, without a held I-frame, runs without an I-frame store nothing and keep the gate shut |
| `JitterGate.DeliveryGate` | src/transport/jitter_buffer/jitter.rs:164-173 | a delivery whose last packet is of an I-frame opens the gate, any other leaves it |
| `JitterResync.LatecomersIgnored` | src/transport/jitter_buffer/jitter.rs:328-344 | a packet older than the last delivered frame changes nothing delivered later |
| `JitterSafety.AddStoresInPlace` | src/transport/jitter_buffer/jitter.rs:110-130 | an arrival writes only the slot of its number, apart from clearing |
| `JitterSafety.PopOnlyClears` | src/transport/jitter_buffer/jitter.rs:148-179 | a pop never moves or invents a packet |
| `JitterSafety.NoCorruptedFrame` | src/transport/jitter_buffer/jitter.rs:148-179 | under any loss, reordering and repetition each delivered frame is the bytes of one sent frame |
| `JitterSafety.FrameIsTakenPayloads` | src/transport/jitter_buffer/jitter.rs:148-179 | a delivered frame is the payloads of the packets it takes from the ring, in order |
| `JitterSafety.PopHolds` | src/transport/jitter_buffer/jitter.rs:387-407 | a delivery removes the packets it used |
| `JitterSafety.PacketsUsedOnce` | src/transport/jitter_buffer/jitter.rs:110-179 | over any run a packet is part of delivered frames no more often than it was accepted |
| `JitterSafety.OnlyGenuineFrames` | src/media/media_pipeline.rs:329-360 | both of these for a sender's stream and a buffer that starts empty |
| `JitterDelivery.AcceptanceExact` | src/transport/jitter_buffer/jitter.rs:244-257 | the window test on an in-order chunk in closed form: exactly when it refuses |
| `JitterDelivery.FramePlays` | src/media/media_pipeline.rs:307-319 | one frame from an empty buffer: nothing until the marker, then all of it |
| `JitterDelivery.FrameStuck` | src/transport/jitter_buffer/jitter.rs:244-257 | a frame that meets the refusing window does not come out at its marker |
| `JitterDelivery.CompleteDelivery` | src/media/media_pipeline.rs:307-319 | in-order lossless arrival with a timely clock outputs the sent frames, each at its marker, if and only if no frame straddles the refusing window |
| `JitterDelivery.LongFrameDeliveredCut` | src/media/media_pipeline.rs:340-345 | the receiving loop outputs the tail of a frame of more than 255 chunks, from the last multiple of 256 on, at its marker |
| `JitterReorder.AcceptsBefore` | src/transport/jitter_buffer/jitter.rs:244-257 | the chunk before the lowest one held is never refused, wherever the numbering starts |
| `JitterReorder.ComesTogether` | src/transport/jitter_buffer/jitter.rs:110-179 | a frame that keeps clear of the refusing window comes out whole at the arrival that completes it, and nothing before, whatever the order and repetition of its chunks |
| `JitterReorder.ComesTogetherExact` | src/transport/jitter_buffer/jitter.rs:110-179 | that holds for all orders and repetitions if and only if the frame keeps clear of the window |
| `JitterStreams.ReorderedDelivery` | src/media/media_pipeline.rs:307-319 | a whole stream reordered and repeated within its frames comes out frame by frame |
| `JitterStreams.ReorderedExact` | src/media/media_pipeline.rs:307-319 | from an empty buffer it does so in all such arrivals if and only if no frame straddles the refusing window |
| `JitterCounts.BackwardsFromEmpty` | src/transport/jitter_buffer/jitter.rs:110-179 | the chunks of an I-frame that arrive from the last to the first deliver it, wherever the numbering starts |
| `JitterCounts.GenuineExact` | src/media/media_pipeline.rs:340-345 | all runs of a frame's packets, lost, reordered or repeated, deliver from an empty buffer only that frame if and only if it has fewer than 256 chunks or a multiple of 256, or is no I-frame and never comes out |
| `JitterPipeline.RunFramePipelineLoop` | src/media/media_pipeline.rs:298-319 | the receiving loop outputs the play of the packets it took and stops only on disconnect, closed channel or lost consumer |
| `JitterStats.LossCounterExact` | src/transport/jitter_buffer/jitter.rs:293-315 | for any arrivals, reordered and repeated, `packets_lost` is the number of missing packets after each of them if and only if each jumps ahead by fewer than 1000, or was missing, or finds nothing missing |
| `JitterStats.StaysRightExact` | src/transport/jitter_buffer/jitter.rs:293-315 | a counter that is right stays right at an arrival if and only if it is one of these |
| `JitterStats.CounterIsMissing` | src/transport/jitter_buffer/jitter.rs:293-315 | so it is right for any order without duplicates, the first lowest and gaps below 1000 |
| `JitterStats.DuplicateMiscounts` | src/transport/jitter_buffer/jitter.rs:293-315 | a repeated packet makes a right counter wrong |
| `JitterPlayout.DeliveryTimes` | src/transport/jitter_buffer/jitter.rs:409-426 | what one delivery does to schedule and timestamp, and that the last reading of its own deadline loop was within the deadline |
| `JitterPlayout.DriftExact` | src/transport/jitter_buffer/jitter.rs:409-426 | a delivery keeps schedule minus timestamp if and only if the stamp at the prepared read slot does not go back |
| `JitterPlayout.PlayoutDoesNotDrift` | src/transport/jitter_buffer/jitter.rs:271-282 | over a whole run every delivered frame is in its place, its own check read by then plus 120 ms, if and only if delivered stamps never go back |
| `JitterOrder.DeliveriesGoForward` | src/transport/jitter_buffer/jitter.rs:110-179 | for a sender with rising timestamps, under any loss, reordering and repetition within one turn of the ring, they never go back |
| `JitterOrder.OneTurnOnSchedule` | src/transport/jitter_buffer/jitter.rs:271-282 | hence such a run plays every frame in its place |
| `JitterBackward.TimestampsCanGoBack` | src/transport/jitter_buffer/jitter.rs:192-231 | for every ring size, a run of a rising sender with arrivals one turn apart and a clock that stands still in which they do |
| `JitterBackward.GoesForwardExact` | src/transport/jitter_buffer/jitter.rs:110-231 | over all rising senders and all runs whose arrivals keep within a span of d numbers they never go back if and only if d is at most the ring size |
| `Sender.PacketsTellFrame` | src/media/media_pipeline.rs:329-360 | a frame's packets carry its chunks in order under consecutive numbers, its stamp and kind, the configured version, payload type and source; the marker is on the last alone |
| `Sender.FrameSender.SendEncodedFrame` | src/media/media_pipeline.rs:329-360 | the packets of a frame in order, cut where the channel closes, and the saturating counter in every case |
| `Rtp.ReadBack` | src/transport/rtp/rtp_packet.rs:60-114 | a packet reads back with its version reduced to two bits |
| `Rtp.RoundTripExact` | src/transport/rtp/rtp_packet.rs:60-114 | it reads back equal if and only if its version is below 4 |
| `Bytes.MostSignificantFirst` | src/transport/rtp/rtp_packet.rs:98-100 | numbers are read with the most significant byte first |
| `Srtp.GetIv` | src/srtp/context.rs:200-219 | the buffer loops build salt xor SSRC xor sequence number at their offsets |
| `Srtp.IvPlaces` | src/srtp/context.rs:200-219 | the salt fills the first 14 bytes, the source stands at byte 4 and the number at byte 8 |
| `Srtp.IvExact` | src/srtp/context.rs:200-219 | under one salt two packets have one vector if and only if source and sequence number are the same |
| `Srtp.ContextExact` | src/srtp/context.rs:24-40 | sixty bytes are needed and used in order; the client writes with the first key and salt |
| `Srtp.WireFormat` | src/srtp/context.rs:49-68 | header in clear, each payload byte masked by the keystream of that packet's vector, then the tag of all that |
| `Srtp.UnprotectExact` | src/srtp/context.rs:78-117 | for every byte string: too short, wrong tag, or read, and then it is what the other end sends for the packet read if and only if the spare bits are clear and the flag is 0 or 1 |
| `Common.XorIsBitwise` | src/srtp/context.rs:200-219 | a bit of the exclusive or is set if and only if the two bits differ |
| `Srtp.UnprotectReadsBack` | src/srtp/context.rs:49-117 | what one end protects the other reads, for any keystream and tag function |
| `Srtp.ProtectionExact` | src/srtp/context.rs:49-143 | equal if and only if the version is below 4 |
| `Handshake.RtcpReportHandler.ConnectionHandshake` | src/transport/rtcp/report_handler.rs:125-158 | outcome, flag and packets sent over any sequence of receptions and any point at which sending fails |
| `Handshake.RtcpReportHandler.RunReportReceiverLoop` | src/transport/rtcp/report_handler.rs:382-409 | passes exactly the turns before the first stop, by flag, reception and clock, then clears the flag and reports the call ended if it was still set |
| `Handshake.CompletesAtSecondReady` | src/transport/rtcp/report_handler.rs:130-155 | a handshake completes only at its second Ready, connected by then |
| `Handshake.ReadiesSent` | src/transport/rtcp/report_handler.rs:130-155 | one Ready for each Hello and one for the first Ready |
| `Handshake.GoesOnUndecided` | src/transport/rtcp/report_handler.rs:125-158 | the handshake goes on over Hellos, one Ready and unreadable bytes, connected from the first Ready on |
| `Handshake.FirstDecides` | src/transport/rtcp/report_handler.rs:125-158 | the first receive error, packet of the session or second Ready is the outcome, whatever follows |
| `Handshake.StreakIsFaultsOnEnd` | src/transport/rtcp/report_handler.rs:313-353 | the retry counter is the number of faults in a row |
| `Handshake.LastReportIsLatest` | src/transport/rtcp/report_handler.rs:313-353 | silence is measured from the latest report, or from the start |
| `Handshake.FaultExact` | src/transport/rtcp/report_handler.rs:313-353 | a pass is a fault if and only if it brought a Hello or Ready, or nothing readable for longer than allowed since the latest report |
| `Handshake.StopsExact` | src/transport/rtcp/report_handler.rs:382-409 | the report loop stops exactly on a lost flag, a goodbye, or `retryLimit` passes on end that each brought a Hello or Ready, or nothing readable more than the allowed time after the latest report |
| `Handshake.SilentPeerGivenUp` | src/transport/rtcp/report_handler.rs:297-352 | a peer from which nothing readable comes any more is given up after `retryLimit` passes |
| `Handshake.ReportingPeerKept` | src/transport/rtcp/report_handler.rs:313-353 | a peer that reports, or is silent no longer than allowed, is kept |
| `HandshakeOrdered.NeverUnexpected` | src/transport/rtcp/report_handler.rs:125-158 | over lossless ordered channels no run ends in `UnexpectedMessage`, and completion of one side means both are connected |
| `HandshakeOrdered.NoLeftovers` | src/transport/rtcp/report_handler.rs:313-353 | no handshake packet is left for the report loop |
| `HandshakeOrdered.HandshakeShrinks` | src/transport/rtcp/report_handler.rs:125-158 | each handshake step uses up what remains |
| `HandshakeOrdered.HandshakeGoesOn` | src/transport/rtcp/report_handler.rs:125-158 | no deadlock before both have completed |
| `HandshakeOrdered.MaximalRunConnects` | src/transport/rtcp/report_handler.rs:125-158 | every maximal run ends with both sides completed and connected |
| `HandshakeLossy.CompletionTellsOfTheOther` | src/transport/rtcp/report_handler.rs:130-155 | with loss, reordering and repeated reports, one side's completion means the other has heard a Ready and is connected |
| `HandshakeLossy.CompletionTellsExact` | src/transport/rtcp/report_handler.rs:130-155 | that holds in all runs with at most h repeated Hellos and r repeated Readies if and only if h and r are zero |
| `HandshakeLossy.RepeatedHelloBreaksIt` | src/transport/rtcp/report_handler.rs:130-155 | a run with one repeated Hello that breaks it |
| `HandshakeLossy.RepeatedReadyBreaksIt` | src/transport/rtcp/report_handler.rs:130-155 | a run with one repeated Ready that breaks it |
| `Dcep.ReadExact` | src/sctp_transport/data_channel/dcep.rs:21-83 | a message reads back from the zero-padded buffer if and only if it fits it |
| `Ftp.MetadataExact` | src/file/file_metadata/metadata.rs:31-58 | metadata reads back if and only if the name has at most 255 bytes |
| `Ftp.RoundTripExact` | src/file/file_transferer/ftp_message.rs:26-72 | a message reads back if and only if its length field holds the length |
| `Dcep.ParsedIsPrefix` | src/sctp_transport/data_channel/dcep.rs:54-83 | whatever parses is written at the head of the bytes; nothing cut short parses |
| `Ftp.MetadataParsedIsPrefix` | src/file/file_metadata/metadata.rs:43-58 | the same for metadata |
| `Ftp.ParsedIsPrefix` | src/file/file_transferer/ftp_message.rs:53-72 | the same for file messages |
| `DataChannels.DataChannel.WaitForAck` | src/sctp_transport/data_channel/channel.rs:175-197 | the verdict of the first poll that has one |
| `DataChannels.DataChannel.WaitForOpen` | src/sctp_transport/data_channel/channel.rs:199-233 | the verdict of the first poll that has one, spoiled by a stream that refuses its settings |
| `DataChannels.DataChannel.Open` | src/sctp_transport/data_channel/channel.rs:47-73 | configures the stream, sends the open message, then waits for the acknowledgement |
| `DataChannels.DataChannel.FromAcceptedStream` | src/sctp_transport/data_channel/channel.rs:22-39 | acknowledges only an open message that came in |
| `DataChannels.AckWaitExact` | src/sctp_transport/data_channel/channel.rs:175-197 | in terms of the polls: established exactly at an acknowledgement, broken exactly by a poll error or an oversized frame, still waiting only at the timeout |
| `DataChannels.OpenWaitExact` | src/sctp_transport/data_channel/channel.rs:199-233 | the same for the opening frame |
| `DataChannels.AckAfterSilence` | src/sctp_transport/data_channel/channel.rs:175-197 | any number of empty polls, then the acknowledgement: established at that poll |
| `DataChannels.OpenAfterSilence` | src/sctp_transport/data_channel/channel.rs:199-233 | any number of empty polls, then the opening frame: opened at that poll |
| `FileTransferClass.FileOfferAccepted` | src/file/file_transferer/transferer.rs:394-420 | one offer sent; the first reception that is a reply decides |
| `FileTransferClass.SendPieces` | src/file/file_transferer/transferer.rs:172-200 | pieces of the file in order, of at most 512 bytes, one per good pass, and why the loop stopped |
| `FileTransferClass.SendAccepted` | src/file/file_transferer/transferer.rs:167-208 | the end-of-file message follows whatever stopped the loop |
| `FileTransferClass.ReceiveFile` | src/file/file_transferer/transferer.rs:273-328 | the receiving loop over any receptions, flags and write failures |
| `FileTransferClass.LoopsMatch` | src/file/file_transferer/transferer.rs:161-328 | what the sending loop put on the channel the receiving loop turns back into the bytes |
| `FileTransferStrays.FirstReplyDecides` | src/file/file_transferer/transferer.rs:394-420 | whatever else comes first, the first acceptance or rejection decides; an error or an oversized message fails the offer |
| `FileTransferStrays.FirstOfferTaken` | src/file/file_transferer/transferer.rs:361-391 | whatever else comes first, the first offer is taken under its own id |
| `FileTransferStrays.DownloadExact` | src/file/file_transferer/transferer.rs:273-328 | up to the first pass that stops, every chunk is written and everything else skipped; complete exactly when that pass brings the end of the file; a failed write leaves a part of its chunk |
| `FileTransferLoops.AckWaitIsRun` | src/sctp_transport/data_channel/channel.rs:175-197 | the wait for the acknowledgement is a run of the sender in the two-peer machine |
| `FileTransferLoops.OpenWaitIsRun` | src/sctp_transport/data_channel/channel.rs:199-233 | the wait for the opening frame is a run of the receiver |
| `FileTransferLoops.ReplyLoopIsRun` | src/file/file_transferer/transferer.rs:394-420 | the loop for the reply is a run of the sender in the two-peer machine |
| `FileTransferLoops.SendLoopIsRun` | src/file/file_transferer/transferer.rs:172-200 | so is the sending loop, with its pieces and its cause to stop |
| `FileTransferLoops.ReceiveLoopIsRun` | src/file/file_transferer/transferer.rs:273-328 | so is the receiving loop, with its stage and its file |
| `FileTransferClass.FileTransferer.NewOfferId` | src/file/file_transferer/transferer.rs:156-159 | the id in use and the next one |
| `FileTransferClass.FileTransferer.HandleIncoming` | src/file/file_transferer/transferer.rs:361-391 | waits for an offer, files the channel under its id and tells the application, if it can be told |
| `FileTransferClass.FileTransferer.AcceptFileOffer` | src/file/file_transferer/transferer.rs:248-271 | removes the pending channel first, sends the acceptance, reports each failure |
| `FileTransferClass.FileTransferer.RejectFileOffer` | src/file/file_transferer/transferer.rs:228-241 | removes the pending channel, sends the rejection |
| `FileTransferSafety.StepKeepsInv` | src/file/file_transferer/transferer.rs:161-328 | every step of either peer, fault or not, keeps the transfer's invariant |
| `FileTransferSafety.NothingSwallowed` | src/sctp_transport/data_channel/channel.rs:175-233 | over all runs the establishment loops take only the frame they wait for |
| `FileTransferSafety.NothingSkipped` | src/file/file_transferer/transferer.rs:273-328 | with a name of at most 255 bytes no loop ever skips a frame, and the offer arrives unchanged |
| `FileTransferSafety.ChunksOnlyAfterAccept` | src/file/file_transferer/transferer.rs:161-192 | a chunk on the channel means the acceptance was sent; every chunk message fits 517 bytes |
| `FileTransferSafety.AlwaysPrefix` | src/file/file_transferer/transferer.rs:301-309 | the receiver's file is a prefix of the source in every reachable state |
| `FileTransferSafety.CompletedExact` | src/file/file_transferer/transferer.rs:310-318 | a completed download is the source up to where the sender stopped; equal if and only if that is the end |
| `FileTransferProgress.CleanCompletionIsWhole` | src/file/file_transferer/transferer.rs:161-219 | completion with no sender error or disconnect means equal files |
| `FileTransferProgress.StepShrinks` | src/file/file_transferer/transferer.rs:161-328 | without a fault every step lowers the bound on the steps left |
| `FileTransferProgress.GoesOn` | src/file/file_transferer/transferer.rs:161-328 | without a fault an unfinished transfer can always step |
| `FileTransferProgress.MaximalRunFinishes` | src/file/file_transferer/transferer.rs:131-328 | every maximal fault-free run delivers the whole file or is refused, within 4 steps per byte and 16 |
| `FileTransferProgress.LostConnectionCompletesCut` | src/file/file_transferer/transferer.rs:172-208 | for every file, a run that reports completion with nothing received, because the end is sent after a disconnect too |
| `SdpText.FromHashString` | src/session/sdp/attribute.rs:66-92 | the pushing loop parses the colon-separated bytes, never to an empty fingerprint |
| `SdpText.MediaFromStr` | src/session/sdp/media_description.rs:43-65 | tokens, port and the set of formats, with each error |
| `SdpText.SessionFromStr` | src/session/sdp/session_description.rs:56-84 | line by line; attributes attach to the last section |
| `SdpText.DisplayMedia` | src/session/sdp/media_description.rs:73-85 | the printing loops give the section's lines |
| `SdpText.DisplaySession` | src/session/sdp/session_description.rs:89-100 | the rebuilding loop gives header and sections, one line each |
| `SdpRoundTrip.AttributeReadsBack` | src/session/sdp/attribute.rs:135-274 | each well-formed attribute parses back from its text |
| `SdpRoundTrip.ParsedAttribute` | src/session/sdp/attribute.rs:174-274 | whatever parses is well formed |
| `SdpRoundTrip.RoundTrip` | src/session/sdp/session_description.rs:56-101 | a well-formed session parses back, whatever order its format sets print in |
| `SdpRoundTrip.ParsedIsWellFormed` | src/session/sdp/session_description.rs:56-84 | every parsed section is well formed |
| `SdpRoundTrip.RoundTripExact` | src/session/sdp/session_description.rs:56-101 | printing then parsing returns the same sections if and only if all are well formed |
| `SdpErrors.ParseOkExact` | src/session/sdp/session_description.rs:56-84 | a text is taken if and only if each line is blank, under another key, a readable section, or a readable attribute in a section that, if an rtpmap, names one of its formats |
| `SdpRoundTrip.AnswerReadsBackExact` | src/session/sdp/session_description.rs:129-222 | an answer's text parses back if and only if every matched section shares an encoding |
| `Sdp.GetCandidates` | src/session/sdp/media_description.rs:121-131 | all candidates, in order |
| `Sdp.GetFingerprint` | src/session/sdp/media_description.rs:135-142 | the first fingerprint, if any |
| `Sdp.GetSetupRole` | src/session/sdp/media_description.rs:146-153 | the first setup role, if any |
| `Sdp.CompatibleAttributesData` | src/session/sdp/session_description.rs:173-196 | the nested loops: kept attributes and their payload types |
| `Sdp.CreateAnswerMd` | src/session/sdp/session_description.rs:201-222 | the section, or the error exactly when an rtpmap has no format |
| `Sdp.CreateAnswer` | src/session/sdp/session_description.rs:129-157 | never an error: always the answer |
| `Sdp.AnswerKeepsShared` | src/session/sdp/session_description.rs:173-222 | exactly the local rtpmaps whose encoding is advertised, every other attribute in order, formats equal to their payload types, consistent |
| `Sdp.KeptTimes` | src/session/sdp/session_description.rs:173-196 | how often each attribute is kept: a repeated offer encoding repeats the rtpmap |
| `Sdp.KeptOthers` | src/session/sdp/session_description.rs:173-196 | all attributes that are not rtpmaps, in order |
| `Sdp.AnswerSectionsFrom` | src/session/sdp/session_description.rs:129-157 | each answer section answers a local section with its match |
| `Sdp.FindMatchFinds` | src/session/sdp/session_description.rs:129-157 | the match is the first offered section of the same type and protocol; none means there is none |
| `Sdp.AnswerNonEmpty` | src/session/sdp/session_description.rs:129-157 | a section is answered if and only if some pair matches |
| `Session.CallSession.constructor` | src/session/call_session.rs:48-102 | generated sections with fingerprint, role ActPass and candidates in each, the first candidate's address, no remote side |
| `Session.CallSession.SetLocalSetupRole` | src/session/call_session.rs:221-236 | every section's setup replaced, or nothing when the role is the same |
| `Session.CallSession.AddRemoteCandidatesOf` | src/session/call_session.rs:150-174 | candidates one at a time until the agent refuses |
| `Session.CallSession.ProcessRemoteSdp` | src/session/call_session.rs:150-174 | the loop over remote sections |
| `Session.CallSession.ProcessOfferSdp` | src/session/call_session.rs:109-124 | role, answer and adopted sections, in that order |
| `Session.CallSession.ProcessAnswerSdp` | src/session/call_session.rs:129-131 | the sections of the answer adopted |
| `Session.ApplyCommonAttributes` | src/session/call_session.rs:279-295 | fingerprint, role and candidates appended |
| `Session.NewStateStates` | src/session/call_session.rs:48-102 | a new session states its role once in each section |
| `Session.RoleAlwaysStated` | src/session/call_session.rs:221-236 | after any remote descriptions, well behaved or not, each section states the session's role exactly once |
| `Session.WithoutSetupTimes` | src/session/call_session.rs:221-236 | a role change drops the setup attributes and nothing else |
| `Session.SectionsOkExact` | src/session/call_session.rs:150-174 | processing fails if and only if candidates come and there is no local one |
| `Session.SectionsSetRole` | src/session/call_session.rs:202-219 | sections that state a role leave the complementary one |
| `Session.NegotiationComplements` | src/session/call_session.rs:109-236 | offer and answer leave one Active and one Passive side if and only if something was answered or the offerer had settled |
| `Session.ReachableSessionsComplement` | src/session/call_session.rs:109-236 | the same from any two reachable sessions |
| `SessionPeers.FirstFingerprintExact` | src/session/sdp/media_description.rs:135-142 | the fingerprint of a section is its first one, by position |
| `SessionPeers.SectionsLeave` | src/session/call_session.rs:150-175 | a processed description leaves the fingerprint of its last section that has one, the last role stated and the role against it, and all candidates in order; what is not given stays |
| `SessionPeers.RunKeepsRest` | src/session/call_session.rs:221-236 | whatever descriptions come, the session's own one differs from its first in setup attributes alone |
| `SessionPeers.HeadersKept` | src/session/call_session.rs:86-92 | a reachable session keeps its header with its first candidate's address; an answer has that header without an address |
| `SessionPeers.AnswerStatesRole` | src/session/call_session.rs:109-124 | whatever the offer, every section of the answer states the role against the offer's first one, or Active |
| `SessionPeers.NewStateSound` | src/session/call_session.rs:48-102 | every section of a new session carries its fingerprint and its candidates |
| `SessionPeers.RunKeepsSound` | src/session/call_session.rs:109-236 | so do those of every session after any remote descriptions, and the pair list is that of single adds |
| `SessionPeers.PeersMeet` | src/session/call_session.rs:109-236 | after an offer and its answer each side holds the other's fingerprint, stated role and candidates, once for each section, or nothing new where no section came |
| `SessionPeers.ReachableSessionsMeet` | src/session/call_session.rs:109-236 | from any two reachable sessions, an answered offer does so and leaves the answerer Active and the offerer Passive, or the offerer with the role it had settled |
| `MediaKeys.NegotiatedMediaReadsBack` | src/transport/media_transport.rs:239 | after an answered offer each side reads what the other protects, if and only if the version is below 4 |
| `Signalling.OperatingServer.LoginUser` | src/server/operating_server.rs:46-100 | map, reply and the handler's user |
| `Signalling.OperatingServer.SignupUser` | src/server/operating_server.rs:106-157 | registers even if writing the file fails |
| `Signalling.OperatingServer.LogoutUser` | src/server/operating_server.rs:162-220 | offline even when the reply is an error for want of a stream |
| `Signalling.OperatingServer.RequestCall` | src/server/operating_server.rs:239-322 | both occupied with each other, or nothing |
| `Signalling.OperatingServer.AcceptCall` | src/server/operating_server.rs:333-378 | only while both are occupied with each other |
| `Signalling.OperatingServer.RejectCall` | src/server/operating_server.rs:385-450 | both available again |
| `Signalling.OperatingServer.HangupCall` | src/server/operating_server.rs:462-501 | only the caller's own record changes |
| `Signalling.OperatingServer.MakeUserOffline` | src/server/operating_server.rs:558-589 | the handler's user goes offline; no user, no change |
| `Signalling.ValidateString` | src/server/operating_server.rs:610-626 | exactly the names that trim to something without separators |
| `Signalling.StepKeeps` | src/server/operating_server.rs:46-589 | users, keys and passwords survive every handler |
| `Signalling.BecomesOccupied` | src/server/operating_server.rs:239-322 | only a linking request occupies, and both ends at once |
| `Signalling.PartnerLeaves` | src/server/operating_server.rs:462-501 | a one-sided link arises only by leaving |
| `Signalling.OccupiedIsTraced` | src/server/operating_server.rs:239-322 | over whole-handler runs: x occupied with y means a request linked them and y is with x or has left since |
| `Signalling.NeitherLeftExact` | src/server/operating_server.rs:239-322 | a link is one neither party has left since its request if and only if it is mutual |
| `Signalling.AcceptMeansNeitherLeft` | src/server/operating_server.rs:333-378 | an accepted call is one neither party has left since its request |
| `Signalling.WithStep` | src/server/operating_server.rs:239-501 | one request in closed form: two available users linked by a request to one with a stream; freed by leaving or by a rejection of the call both are in |
| `Signalling.OccupiedExact` | src/server/operating_server.rs:239-501 | over runs, x is occupied with y if and only if a request linked them and nothing has freed x since |
| `SignallingLogin.OnlineExact` | src/server/operating_server.rs:46-100 | over runs, a user is online if and only if it has logged in with the password stored for it and has not logged out or lost its connection since |
| `SignallingLogin.RegisteredExact` | src/server/operating_server.rs:106-157 | a user has a password if and only if it was loaded with it or registered with it, both words valid and the name free |
| `SignallingLogin.NameExact` | src/server/operating_server.rs:79-86 | a handler has a user if and only if it logged in as that user with its password, the user being offline, and has not lost it since |
| `SignallingLogin.AttendedExact` | src/server/user_handler.rs:65-97 | every online user is that of a handler all along if and only if no act takes the only one away |
| `SignallingLogin.SecondLoginStrands` | src/server/operating_server.rs:79-86 | a connection that logs in as two users leaves the first online and unable to log in again |
| `UserFile.AcceptedWords` | src/server/operating_server.rs:610-626 | an accepted word holds no separator of lines or messages; exactly when, for words without surrounding whitespace |
| `UserFile.FieldsSurvive` | src/client_server_protocol/client_message.rs:175-190 | so a sign-up message splits into its three fields |
| `UserFile.LoadUsers` | src/server/central_server.rs:248-279 | the loading loop, line by line |
| `UserFile.ReloadExact` | src/server/central_server.rs:248-279 | the lines of distinct valid sign-ups load to those users if and only if each was written, holds no line break and does not end in a carriage return |
| `UserFile.RestartExact` | src/server/operating_server.rs:534-549 | after any run from an empty server a restart brings back exactly the registered users under that condition |
| `UserFile.BreakRenames` | src/server/operating_server.rs:610-626 | a name after a line break is accepted and comes back as another name |
| `SignallingLocks.StepConsistent` | src/server/operating_server.rs:253-300 | each lock-protected section keeps the invariant, copies included |
| `SignallingLocks.UsersSurviveInterleaving` | src/server/operating_server.rs:391-441 | under any interleaving of any number of handlers users never vanish, keys are usernames, passwords stay, peers are registered |
| `SignallingLocks.UninterruptedIsWhole` | src/server/operating_server.rs:253-300 | the sections of a handler run alone are the whole handler |
| `SignallingLocks.LastSectionIsWholeExact` | src/server/operating_server.rs:286-300 | an interrupted handler still acts as a whole one if and only if its copies are current |
| `SignallingLocks.WriteIsWholeExact` | src/server/operating_server.rs:253-300 | the same for every write-back of every interleaving |
| `SignallingLocks.InterleavingIsWholeRun` | src/server/operating_server.rs:253-300 | an interleaving whose write-backs are current has the user maps of a run of whole handlers |
| `SignallingLocks.CurrentWritesKeepMatching` | src/server/operating_server.rs:253-300 | hence whoever is occupied in it is traced to its request, its partner with it or gone since |
| `SignallingLocks.AcceptIsWholeExact` | src/server/operating_server.rs:345-366 | an acceptance is the whole handler's if and only if the caller, read first, is still occupied with the callee and the stream is there |
| `SignallingLocks.InterleavedAcceptExact` | src/server/operating_server.rs:345-366 | over such interleavings, an accepted call is one neither party has left since its request if and only if the caller still is occupied with the callee at the last read |
| `SignallingLocks.AcceptedAfterLeaving` | src/server/operating_server.rs:345-366 | for any two users, an interleaving in which a call is accepted though its accepting user has just hung up |
| `SignallingLocks.RacingRequestsUnmatched` | src/server/operating_server.rs:253-300 | for any three users, an interleaving of two requests that leaves a one-sided link with nobody gone |
| `Audio.AudioRingBuffer.constructor` | src/media/audio/ring_buffer.rs:29-37 | an empty ring |
| `Audio.AudioRingBuffer.Push` | src/media/audio/ring_buffer.rs:47-59 | the contents become the latest samples up to the capacity |
| `Audio.AudioRingBuffer.PushOne` | src/media/audio/ring_buffer.rs:47-59 | one turn of that loop |
| `Audio.AudioRingBuffer.PopChunk` | src/media/audio/ring_buffer.rs:75-87 | the oldest samples, or nothing when too few |
| `Audio.RingHoldsLatest` | src/media/audio/ring_buffer.rs:47-87 | after any operations the ring is the latest samples pushed, by its level |
| `Audio.Microphone.Drain` | src/media/audio/microphone.rs:237-243 | the drain loop emits all whole frames in order, up to a closed channel, and ends |
| `Audio.Microphone.Callback` | src/media/audio/microphone.rs:228-244 | push then drain, nothing when muted |
| `Audio.FramesAndResidue` | src/media/audio/microphone.rs:237-243 | frames then residue are the queue |
| `Audio.CallbackLossless` | src/media/audio/microphone.rs:228-244 | a callback loses nothing if and only if residue and samples fit ten frames |
| `Audio.CaptureLossless` | src/media/audio/microphone.rs:219-244 | callbacks of at most 9F+1 samples lose nothing over a session |
| `Audio.CaptureBoundTight` | src/media/audio/microphone.rs:219-244 | one more sample can lose some |
| `Stun.ParseStunResponse` | src/session/ice/stun_client.rs:92-131 | in bounds and terminating on every byte string, equal to the walk |
| `Stun.NetworkOrder` | src/session/ice/stun_client.rs:101-112 | types, lengths and ports are in network byte order |
| `Stun.WalkFindsFirst` | src/session/ice/stun_client.rs:104-128 | the walk over padded attributes finds the first mapped address |
| `Stun.ParseFindsFirst` | src/session/ice/stun_client.rs:92-131 | every well-formed response gives its first IPv4 mapped address, or the error if it has none |
| `Stun.FirstAddressAt` | src/session/ice/stun_client.rs:104-117 | that address is in the first attribute of type 0x0020 and family 1 with room for it |
| `Stun.RefusedExact` | src/session/ice/stun_client.rs:92-99 | too short below 20 bytes, and the cookie refused exactly when it is another |
| `Stun.DecodeMapped` | src/session/ice/stun_client.rs:112-122 | decoding undoes the server's exclusive or |
| `Ice.OverflowExact` | src/session/ice/candidate_pair.rs:64-68 | the formula overflows if and only if both priorities are the largest |
| `Ice.PriorityIsLexicographic` | src/session/ice/candidate_pair.rs:64-68 | up to 2^31 the order is lexicographic in minimum, maximum, tie bit |
| `Ice.LexicographicExact` | src/session/ice/candidate_pair.rs:64-68 | for every bound, all pairs of priorities up to it are ordered so if and only if the bound is at most 2^31 |
| `Ice.PeersAgree` | src/session/ice/candidate_pair.rs:64-68 | both ends compute the same priority up to the tie bit, for all priorities |
| `Ice.PeersRankAlikeExact` | src/session/ice/candidate_pair.rs:64-68 | for every bound, both ends rank distinct pairs up to it alike if and only if it is at most 2^31 |
| `Ice.IceAgent.AddRemoteCandidate` | src/session/ice/ice_agent.rs:109-112 | appends all local-remote pairs again |
| `Ice.IceAgent.AddRemoteCandidates` | src/session/ice/ice_agent.rs:116-121 | the same after several candidates |
| `Ice.IceAgent.CreateCandidatePair` | src/session/ice/ice_agent.rs:130-153 | the nested loops append the product |
| `Ice.IceAgent.StartConnectivityChecks` | src/session/ice/ice_agent.rs:159-209 | states of all pairs and the selection, or the ranked pairs alone when the socket takes no timeout |
| `Ice.IceAgent.CleanRemoteCandidates` | src/session/ice/ice_agent.rs:294-298 | forgets everything but the local candidates |
| `Ice.AccumulatedSize` | src/session/ice/ice_agent.rs:109-153 | n*k*(k+1)/2 entries after k single adds |
| `Ice.AccumulatedMembers` | src/session/ice/ice_agent.rs:109-153 | as a set, local times remote |
| `Ice.SortRanks` | src/session/ice/ice_agent.rs:164-165 | descending order with the same members |
| `Ice.SortOccurrences` | src/session/ice/ice_agent.rs:164-165 | a permutation |
| `Ice.SelectionIsBest` | src/session/ice/ice_agent.rs:159-209 | the selected pair is a highest-priority host-host pair among those that answer |
| `Ice.CheckedExact` | src/session/ice/ice_agent.rs:159-209 | after the checks the pairs before the selected one are failed unless an end is server-reflexive, the selected one has succeeded, the rest are untouched |

## Left out

- User interface, camera, speaker, H.264 and Opus: drawing code and foreign libraries.
- TLS, DTLS and SCTP internals, certificates: channels are taken as reliable and ordered; a frame that does not fit the reader's buffer is an error, as in the SCTP library.
- AES and HMAC: any keystream and any tag function; nothing is said about secrecy or forgery.
- `f32` mixing, resampling and the interarrival jitter estimate: real arithmetic would misstate their rounding. Samples pass through the audio model untouched.
- Clocks, sleeps and socket timeouts: arbitrary readings and arbitrary receive results.
- Logging, configuration files, error texts and wall-clock status messages.
- The pipe-delimited client and server messages and the RTCP packet layout: easy codecs, modelled as values.
- The status broadcast to clients: updates before the push stream exists are not delivered, so there is no agreement to prove.
- Exactly-once `CallEnded`: several threads load and store the flag without synchronisation.
- Poisoned locks and failures to encrypt in the TLS library: they end the call they occur in.
- Send errors in the two-peer models of the RTCP handshake: a failed send ends that side's handshake, which its own loop models.
- The PING/PONG exchange behind one connectivity check.
- The reuse of a stream id after a failed open, and several transfers on one association: each transfer is modelled on its own channel.
- UserFile.RestartExact: the lines a write that fails leaves behind are taken as none, and the file starts empty.
- Server runs otherwise start with any users, all offline, as a loaded file gives them.
- `sort_by` is modelled as a stable insertion sort, which has the same result.
- A file that changes while it is sent: the source file is fixed during a transfer.
- Session.CallSession.constructor: what gathering gave the agent, the two generated sections and the certificate's fingerprint are its parameters.
- SdpText.SessionFromStr: header fields of the text are ignored, as in the source, so the round trip is about media sections.
- JitterDelivery.CompleteDelivery: timestamps must not decrease and the schedule must stay within 128 bits, which the source does not check.
- JitterPlayout.PlayoutDoesNotDrift: starts from a first delivery at a time other than zero, because the source uses zero for "none yet", and takes schedules that fit 128 bits.
- JitterCounts.GenuineExact: about a frame whose first chunk is not empty; with empty chunks a cut frame can be the same bytes.
- JitterStats.LossCounterExact: for at most 2^32 arrivals whose highest is less than 2^32 above the first, so that the 32-bit counters do not wrap.
- JitterReorder.ComesTogetherExact: about the chunks of one frame until it is complete; chunks repeated after that are new arrivals.
- JitterStreams.ReorderedDelivery: frames follow one another; chunks of different frames that interleave are covered by the safety results alone.
- JitterBackward.GoesForwardExact: for rings of at least 256 slots and less than a quarter of the 64-bit numbering.
