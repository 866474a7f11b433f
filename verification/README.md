# Verified model of the QUIC transport core

A Dafny model of the parts of this QUIC implementation whose correctness depends on state kept over many calls, with
proofs of what they are for. `dafny verify dfyconfig.toml` checks the whole project.

**Acknowledgements and recovery.** `Varint` and `AckRange` are the bytes of an ACK frame and the walk over them.
`AckTracker` keeps received packet numbers as ranges in a small array, schedules delayed ACKs and builds frames.
`Tombstones` and `SentPacketTracker` are the array of sent packets in which a removal leaves a tombstone, refined
against a finite map. `LossRecovery` and `ProbeTimeout` process ACKs, declare losses and fire probes over it, and
`LossOrder` tells a stream of them. `AckExchange` joins both ends: numbers recorded in any order become frame bytes,
and the sender that reads them drops only packets that arrived.

**Streams.** `SendHalf` and `RecvHalf` are the two halves of a stream as state machines over sets of byte offsets,
with what every step of every run keeps. `SendStream` and `RecvStream` are the same halves as the connection keeps
them (range lists, buffers, flags), each method refining a step; `StoredStream` puts its bytes and packets in their
rings. `RangeList`, `Ring`, `InFlightMap` and `SendByteBuffer` are the containers under them, `Seqs` a few facts about
sequences. `SendFixture` and `RecvFixture` are the benchmark runs for every chunk count and every arrival order.
`StreamTransfer` puts a sender, a receiver and a network that drops, repeats and reorders packets together.

**Around the transport.** `UploadFlow` runs the upload client over that network; `EchoFlow` is the ping client.
`SampleLoops` is start and teardown of a multi-loop sample, `Watchdog` the interleaving of a child runner and its timer
thread, `EventQueue` the bounded event ring, `Stats`, `Json`, `Digest` and `Fairness` the arithmetic and encodings of
the reports.

Code that updates objects in place is a class here; every method's `ensures` ties the new state to the old one through
a pure specification (a set, a map, a sequence, a step of a state machine), and the laws are lemmas about that
specification. Packet numbers, offsets and clocks are unbounded naturals; where the code saturates, wraps or checks a
64-bit limit, the limit is written out. Clocks, credit from flow control, whether memory can be had, and where a run
fails are parameters.

## Four behaviours a reader may not expect

Each is stated exactly, with the run or the input that shows it.

- A send stream can be left with acknowledged bytes in its queue: a probe queues a packet's bytes again, the copy goes
  out and is lost, and then the first packet is acknowledged after all (`SendHalf.LateAckSoils`). An acknowledgement
  keeps the queue clean if and only if the probe flag is up or none of the packet's bytes is queued
  (`SendHalf.AckKeepsCleanIff`); no other step ever soils it. The run has to lose a packet while a lower one is still in
  flight: with rising packet numbers and losses declared lowest first the queue stays clean in every run, probes included
  (`SendHalf.InOrderStaysClean`), and a tracker with send times in order declares them so
  (`LossRecovery.LossesAreLowest`, `LossOrder.LossInOrder`). Out of order, the byte can even be sent from below the floor
  (`StreamTransfer.SentBelowFloor`).
- `recordSent` takes a chunk's bytes off the queue before it checks the chunk's FIN. A chunk refused over its FIN costs
  the queue its bytes, and they are forgotten exactly when they are not acknowledged or carried elsewhere
  (`SendStream.RefusedFinForgets`; one byte is enough to see it, `SendStream.RefusedFinWitness`). A chunk that
  `peekChunk` offered is never refused (`SendStream.OfferedIsNeverRefused`).
- A stream whose reset was acknowledged can still end in `data_recvd`: if and only if a late acknowledgement completes
  the delivery (`SendHalf.ResetRecvdLeftIff`, with a run in `SendHalf.AckedResetCanBeDelivered`). A receiver that took
  the reset drops what arrives after it and acknowledges it all the same, so `data_recvd` is wrong about the receiver
  exactly if it took the reset before it had read everything (`StreamTransfer.DeliveredIsReceivedIff`). An upload
  whose stream is reset under way can be counted as done with not a byte delivered (`UploadFlow.DoneCanBeDropped`); one
  that is never reset cannot (`UploadFlow.DoneMeansReceived`).
- A full ACK tracker that must make room for a number below all its ranges drops the lowest range it had and keeps the
  lower new number (`AckTracker.FullBelowAll`); it still never holds a number that did not arrive, and loses none
  exactly when all fit (`AckTracker.KeptAllIff`).

## Model

| member | source | states |
|---|---|---|
| Varint.RoundTrip | src/wire/varint.zig:40-99 | every value up to 2^62 - 1 decodes from its minimal encoding to itself, consuming exactly the bytes written, whatever follows |
| Varint.EncodedLenIsShortest | src/wire/varint.zig:28-36 | no shorter length holds the value |
| Varint.WireExamples | src/wire/varint.zig:103-155 | the four encodings of section A.1 of RFC 9000 |
| Varint.TaggedDecodes | src/wire/varint.zig:48-99 | a pinned-length encoding (not only the minimal one) decodes to the value |
| Varint.EncodeFixed | src/wire/varint.zig:48-77 | the in-place writer at a pinned length: each of its three errors exactly when and in the order it is due, the bytes written decode to the value, the rest of the buffer untouched |
| AckRange.IntervalsDescend | src/frame/ack_range.zig:63-90 | whatever bytes a peer sends, the intervals walked descend and never touch |
| AckRange.RangesRoundTrip | src/frame/ack_range.zig:63-113 | writing gap/length pairs of any descending list and walking them gives the list back, with no underflow |
| AckRange.RangesAppend | src/frame/ack_range.zig:106-113 | one more interval at the low end is exactly one more pair at the end of the bytes |
| AckRange.WireExample | src/frame/ack_range.zig:140-171 | the bytes of a three-interval frame |
| AckRange.Iterator.Next | src/frame/ack_range.zig:63-90 | the lazy iterator yields exactly the intervals of the walk one by one, then its end or its error, and is past the bytes it read, those of a bad pair too |
| AckRange.WalkFrame | src/frame/ack_range.zig:63-102 | driving the iterator to its end collects the whole walk and its error |
| AckTracker.AddedNumbers | src/conn/AckTracker.zig:420-462 | adding a number (new, extending, bridging) keeps the ranges sorted, disjoint and non-adjacent, and adds exactly that number |
| AckTracker.AloneNumbers | src/conn/AckTracker.zig:420-462 | in a full tracker exactly the lowest range gives way, and nothing that was not received appears |
| AckTracker.HoldableIff | src/conn/AckTracker.zig:420-462 | no list of a set of numbers is shorter than its sorted one, so what fits in the ranges is a property of the set |
| AckTracker.KeptAllIff | src/conn/AckTracker.zig:420-462 | recording a new number loses nothing if and only if the capacity can hold what there is then |
| AckTracker.FullBelowAll | src/conn/AckTracker.zig:420-462 | a full tracker given a number below all its ranges loses its lowest range and keeps the lower number |
| AckTracker.Tracker.Add | src/conn/AckTracker.zig:420-462 | the set held after an insertion, in every case including eviction and a duplicate; the number is held with all the others if and only if together they fit in as many ranges as there is room for |
| AckTracker.Tracker.AddPacketDelayed | src/conn/AckTracker.zig:119-164 | exactly when a packet makes an ACK pending at once (reordering, threshold, quiet line), what it does to each of the arrival clocks, and that whatever is owed stays on the timer |
| AckTracker.Tracker.RulesAlone | src/conn/AckTracker.zig:140-164 | each of the three rules alone, to the packet and the microsecond, and that zero turns it off |
| AckTracker.Tracker.AckDelayBase | src/conn/AckTracker.zig:197-203 | there is an arrival to count the ACK delay from exactly while an ACK is scheduled, and on the timer it is the oldest unanswered one |
| AckTracker.Tracker.PromoteDelayedAck | src/conn/AckTracker.zig:226-233 | no ack-eliciting packet waits longer than the promised delay; fires exactly when due |
| AckTracker.Tracker.MarkAckSent | src/conn/AckTracker.zig:191-195 | nothing is owed after an ACK went out, and every range stays |
| AckTracker.OneMorePair | src/conn/AckTracker.zig:350-367 | the pair written for the next interval down extends the pairs of the intervals above it |
| AckTracker.PairsMakeFrame | src/conn/AckTracker.zig:334-376 | a frame built from the pairs walks back to exactly the highest intervals, highest first |
| AckTracker.LeftOutForRoom | src/conn/AckTracker.zig:267-287 | all intervals are in the frame if and only if all pairs fit the buffer |
| AckTracker.DownNumbers | src/conn/AckTracker.zig:334-376 | reading the highest intervals from the top down acknowledges the same numbers |
| AckTracker.Tracker.ToAckFrameLimitedRanges | src/conn/AckTracker.zig:312-376 | the frame keeps to both limits and leaves out an interval only when its pair would not fit |
| AckTracker.Tracker.ToAckFrame | src/conn/AckTracker.zig:255-287 | all or error: succeeds if and only if every range fits, and then acknowledges exactly the set held |
| Tombstones.Overwrite | src/conn/SentPacketTracker.zig:554-595 | killing or reviving a slot removes or sets one key of the map the slots stand for |
| Tombstones.Insert | src/conn/SendStream.zig:236-275 | a live slot put at its lower bound adds one key |
| Tombstones.CompactedSame | src/conn/SentPacketTracker.zig:568-579 | sweeping tombstones out changes nothing the map can see |
| Tombstones.LiveIsSize | src/conn/SentPacketTracker.zig:511-513 | the number of live slots is the size of the map |
| Tombstones.WeightIsMapWeight | src/conn/SentPacketTracker.zig:602-612 | a running byte counter over the slots is a function of the map alone |
| SentPacketTracker.Tracker.CountersOfMap | src/conn/SentPacketTracker.zig:499-520 | live count and both in-flight byte counters are the size and sums of the tracked map |
| SentPacketTracker.Tracker.Record | src/conn/SentPacketTracker.zig:524-546 | records exactly one packet and counts its bytes only if it is in flight, or refuses exactly at capacity, or for want of memory exactly when there is none and the array, swept, is still full; a refusal leaves the map alone |
| SentPacketTracker.Tracker.Compact | src/conn/SentPacketTracker.zig:568-579 | no tombstone left, same map |
| SentPacketTracker.Tracker.RemoveAt | src/conn/SentPacketTracker.zig:584-595 | hands back the map's packet and deletes its key; other slots untouched |
| SentPacketTracker.Tracker.RemoveRange | src/conn/SentPacketTracker.zig:618-664 | exactly the live packets of a slot range are handed over, each once, in ascending order, and no other leaves |
| SentPacketTracker.Tracker.IndexOf | src/conn/SentPacketTracker.zig:683-697 | binary search over slots, dead ones included, finds the number or proves it absent |
| SentPacketTracker.Tracker.LowerBound | src/conn/SentPacketTracker.zig:701-714 | the first slot at or above a number |
| LossRecovery.FoldAckedAccounts | src/conn/loss_recovery.zig:97-107 | the per-packet callback adds up to exact counts, byte sums and flags of what left the map, the largest acknowledged packet's send time and ack-eliciting flag among them |
| LossRecovery.FoldLostAccounts | src/conn/loss_recovery.zig:158-165 | the same for lost packets, with the latest send time among them |
| LossRecovery.ProcessAck | src/conn/loss_recovery.zig:111-137 | exactly the tracked packets an ACK covers leave; a malformed frame stops the walk after its valid part, with its error; the largest acknowledged number on record never goes back |
| LossRecovery.RecordedIsGreatest | src/conn/PnSpace.zig:128-132 | after frames in any order the largest acknowledged number on record is the greatest among them |
| LossRecovery.SweptView | src/conn/loss_recovery.zig:181-229 | a sweep that killed only lost slots and left none leaves exactly the surviving part of the map |
| LossRecovery.DetectLosses | src/conn/loss_recovery.zig:181-229 | a packet is declared lost if and only if it is at or below the largest acknowledged and past the packet or the time threshold; those lost are handed over in ascending order |
| LossRecovery.TimeThresholdIs | src/conn/loss_recovery.zig:62-68 | the time threshold is at least a millisecond and nine eighths of either RTT, rounded down, and equals one of them |
| LossRecovery.LossesAreLowest | src/conn/loss_recovery.zig:181-229 | with send times in order no tracked packet is lower than the one just declared lost, at each loss of the sweep |
| LossOrder.LossInOrder | src/conn/loss_recovery.zig:181-229 | so a stream whose packets are all tracked hears of each loss while none of its packets in flight is lower |
| LossOrder.SweepKeepsOrderly | src/conn/SendStream.zig:724-736 | a whole loss sweep keeps such a stream's queue clean |
| ProbeTimeout.PtoDurationExact | bench/loss_ack.zig:230-236 | the guarded shift is min(2^64 - 1, base * 2^min(count, 16)): it never wraps |
| ProbeTimeout.PtoDurationBacksOff | bench/loss_ack.zig:230-236 | one more probe never shortens the timeout and doubles it until the cap |
| ProbeTimeout.FirePtoIfDue | bench/loss_ack.zig:238-254 | fires if and only if the timeout has passed since the oldest live ack-eliciting packet was sent, and then removes exactly it and counts once, saturating |
| ProbeTimeout.OldestDecides | bench/loss_ack.zig:238-254 | with send times in order, looking at the oldest agrees with a full scan |
| ProbeTimeout.WindowWeight | bench/loss_ack.zig:465-541 | size and bytes in flight of the churn window |
| ProbeTimeout.Churn | bench/loss_ack.zig:521-541 | churn of any length at any occupancy keeps the tracked set exactly [oldest, next) and never needs memory |
| AckExchange.FrameIsSound | src/conn/AckTracker.zig:334-376 | a frame acknowledges only numbers held, and all of them when no range was left out |
| AckExchange.RecordAll | bench/loss_ack.zig:59-105 | numbers in any order, however many: nothing is held that did not arrive, and everything is if after every arrival the numbers so far fit in the ranges there is room for; when no number comes twice, only if |
| AckExchange.InOrderHoldable | bench/loss_ack.zig:59-105 | consecutive numbers always fit, whatever their count |
| AckExchange.Exchange | src/conn/loss_recovery.zig:111-137 | end to end: the frame is never malformed to its reader, exactly what it covers leaves the sender, only arrived packets do, and all of them when every arrival could be held and no range was left out of the frame |
| RangeList.CanonicalUnique | src/conn/range_list.zig:1-64 | a set of offsets has at most one sorted, disjoint, non-touching list |
| RangeList.InsertMerge | src/conn/range_list.zig:35-64 | merging a range keeps the list canonical and adds exactly its offsets |
| RangeList.RemoveRange | src/conn/range_list.zig:125-154 | removing a range, splitting where it must, takes exactly its offsets |
| RangeList.FirstRun | src/conn/range_list.zig:27-64 | the first range is the lowest maximal run of the set |
| Ring.PhysIsRemainder | src/conn/SendStream.zig:197-224 | the wrap, modelled as a branch, is the remainder the code takes |
| Ring.MaskIsRemainder | src/conn/SendStream.zig:197-224 | for a power of two the mask of the lower bits is the remainder |
| Ring.PhysIsMasked | src/conn/SendStream.zig:197-224 | so in a ring of such a size the branch finds the slot the mask does |
| InFlightMap.Map.PutNoClobber | src/conn/SendStream.zig:236-275 | the ring with tombstones gains exactly one key, wherever its number falls |
| InFlightMap.Map.FetchRemove | src/conn/SendStream.zig:277-301 | removal deletes exactly that key or nothing, and restores a ring with live ends |
| InFlightMap.Map.Find | src/conn/SendStream.zig:197-234 | the search over a wrapped ring with tombstones agrees with the map |
| InFlightMap.Map.EnsureUnused | src/conn/SendStream.zig:181-195 | room for any number of further packets is made by sweeping before growing, the map stays, and a larger ring is a power of two, eight or less than twice what was needed |
| SendByteBuffer.Buffer.AppendSlice | src/conn/SendStream.zig:377-390 | a write across the wrap appends to the logical bytes; the storage is kept when it is large enough |
| SendByteBuffer.Buffer.DiscardPrefix | src/conn/SendStream.zig:406-411 | moving the head drops exactly a prefix |
| SendByteBuffer.Buffer.Slice | src/conn/SendStream.zig:359-366 | the run up to the wrap is a slice of the logical bytes, short only at the wrap |
| SendByteBuffer.Buffer.ChunkBytesContiguous | src/conn/SendStream.zig:636-648 | a chunk across the wrap is put together whole |
| SendByteBuffer.Buffer.Reallocate | src/conn/SendStream.zig:425-440 | a larger ring holds the same bytes from its start |
| SendByteBuffer.GrowCapacity | src/conn/SendStream.zig:442-449 | growth starts at 64, reaches the minimum, never shrinks, is by half at least, and overshoots by about half at most |
| SendHalf.NextKeeps | src/conn/SendStream.zig:519-823 | every step (write, finish, reset, send, ack, loss, probe) keeps every byte and the FIN acknowledged, queued or carried, and the state name honest |
| SendHalf.RunKeeps | src/conn/SendStream.zig:519-823 | in every state of every run nothing written is forgotten |
| SendHalf.OffersSomething | src/conn/SendStream.zig:600-614 | a stream with bytes queued or a FIN due always offers a chunk |
| SendHalf.OfferedIsSendable | src/conn/SendStream.zig:600-685 | what is offered can be recorded as sent under any unused number |
| SendHalf.Drained | src/conn/SendStream.zig:600-823 | a finished stream with nothing in flight and nothing to offer is delivered: it cannot be stuck |
| SendHalf.OthersKeepClean | src/conn/SendStream.zig:653-772 | no step but an acknowledgement ever queues an acknowledged byte |
| SendHalf.AckKeepsCleanIff | src/conn/SendStream.zig:691-697 | the exact condition under which an acknowledgement leaves no acknowledged byte queued |
| SendHalf.LateAckSoils | src/conn/SendStream.zig:691-736 | a run after which an acknowledged byte is offered again below the floor; it declares a packet lost while a lower one is in flight |
| SendHalf.NextKeepsOrderly | src/conn/SendStream.zig:653-772 | a step that sends under rising numbers and loses lowest first keeps the queue clean and every packet that no probe queued again the newest copy of its bytes |
| SendHalf.InOrderStaysClean | src/conn/SendStream.zig:653-772 | in every run of such steps, probes included, no acknowledged byte is ever queued |
| SendHalf.InOrderOffersInBuffer | src/conn/SendStream.zig:600-630 | in every such run the offered chunk lies at or above the floor |
| SendHalf.InOrderFlagMeansQueued | src/conn/SendStream.zig:653-772 | in every such run the probe flag is up only while something is queued |
| SendHalf.CleanOffers | src/conn/SendStream.zig:600-630 | with a clean queue the offered chunk lies at or above the floor, so its bytes are in the buffer |
| SendHalf.OfferIsMost | src/conn/SendStream.zig:600-614 | an offer starts at the lowest queued byte, stops short of the limit only where the queue has a hole, and carries the FIN exactly when it ends at the last byte of a finished stream whose FIN is not out |
| SendHalf.NextKeepsExclusive | src/conn/SendStream.zig:519-823 | without probes every byte is in exactly one place and no two packets carry the same byte |
| SendHalf.RunKeepsExclusive | src/conn/SendStream.zig:519-823 | so it is at the end of every run without probes |
| SendHalf.AllAckedAllEmpty | bench/stream_reassembly.zig:165-176 | in every run without probes, once all is acknowledged the queue is empty and nothing in flight carries data |
| SendHalf.ResetRecvdLeftIff | src/conn/SendStream.zig:813-823 | a late acknowledgement moves a stream out of an acknowledged reset if and only if its packet carries the FIN and the bytes that were missing |
| SendHalf.AckedResetCanBeDelivered | src/conn/SendStream.zig:813-823 | a run that does so |
| SendHalf.FlagMoves | src/conn/SendStream.zig:691-719 | the probe flag goes up only with a probe that queues bytes, and down only with an empty queue |
| SendHalf.DataRecvdMeansDelivered | src/conn/SendStream.zig:813-823 | in every run data_recvd means every byte and the FIN are acknowledged, and without a reset delivered means data_recvd |
| SendHalf.DataRecvdIsFinal | src/conn/SendStream.zig:559-572 | no step leaves data_recvd or resets such a stream; the first reset stays, with its code and the size at that time |
| SendHalf.RunStaysRecvd | src/conn/SendStream.zig:813-823 | a run that was once in data_recvd is there at its end |
| SendHalf.RunIsNamed | src/conn/SendStream.zig:519-823 | in every run each state name means what it says, a reset stream has nothing queued, and the FIN is in one packet at most |
| SendHalf.WriteFillsTheCap | src/conn/SendStream.zig:519-538 | a write takes all it is given or as much as makes the unacknowledged bytes reach the cap |
| SendHalf.RunWithinCap | src/conn/SendStream.zig:519-538 | in every run under one cap the bytes above the acknowledged prefix never exceed it |
| SendStream.Stream.FloorIsBase | src/conn/SendStream.zig:777-811 | the base offset is the longest fully acknowledged prefix |
| SendStream.Stream.Write | src/conn/SendStream.zig:519-538 | takes as much as the cap on unacknowledged bytes allows, appends exactly that and leaves so much less room; refuses exactly after FIN or reset |
| SendStream.Stream.Finish | src/conn/SendStream.zig:543-549 | refines the finish step; refused exactly after a reset |
| SendStream.Stream.ResetStream | src/conn/SendStream.zig:559-572 | refines the reset step: the queue is dropped, the final size fixed; a delivered or reset stream is left alone |
| SendStream.Stream.PeekChunk | src/conn/SendStream.zig:600-614 | offers the lowest queued run up to the limit, or a lone FIN, or nothing |
| SendStream.Stream.ChunkBytes | src/conn/SendStream.zig:623-630 | the chunk's bytes are the written bytes at its offsets |
| SendStream.Stream.RecordSent | src/conn/SendStream.zig:653-685 | succeeds if and only if the chunk is sendable, refining the send step; the state after every refusal, the FIN case included |
| SendStream.RefusedFinForgets | src/conn/SendStream.zig:653-685 | a refused FIN loses bytes exactly unless all were acknowledged or carried elsewhere |
| SendStream.RefusedFinLoses | src/conn/SendStream.zig:653-685 | in every run without probes a refused FIN loses bytes |
| SendStream.RefusedFinWitness | src/conn/SendStream.zig:653-685 | one byte written and sent with a FIN nobody asked for: refused, and the byte forgotten |
| SendStream.OfferedIsNeverRefused | src/conn/SendStream.zig:600-685 | the stream's own offers never meet that case |
| SendStream.Stream.OnPacketAcked | src/conn/SendStream.zig:691-697 | refines the acknowledgement step: floor, ranges above it, queue, buffer and state |
| SendStream.Stream.OnPacketLost | src/conn/SendStream.zig:724-736 | refines the loss step: exactly the unacknowledged part is queued again |
| SendStream.Stream.OnPacketProbeRequeued | src/conn/SendStream.zig:703-719 | refines the probe step: the packet stays in flight, its unacknowledged part is queued as well |
| SendStream.Stream.OnResetAcked | src/conn/SendStream.zig:740-746 | refines the acknowledged reset |
| StoredStream.Stored.Write | src/conn/SendStream.zig:519-538 | with the bytes in their ring: takes what the cap allows, refining the write step, and does nothing when the ring cannot grow |
| StoredStream.Stored.ChunkBytes | src/conn/SendStream.zig:623-648 | the ring hands out the written bytes at the offsets of a chunk, in one piece |
| StoredStream.Stored.RecordSent | src/conn/SendStream.zig:653-685 | with the packets in their ring: records or refuses as the stream does, and does nothing without memory for a slot |
| StoredStream.Stored.OnPacketAcked | src/conn/SendStream.zig:691-697 | the acknowledged packet leaves its ring, the bytes below the new floor leave theirs, and both still hold exactly what the stream does |
| StoredStream.Stored.OnPacketLost | src/conn/SendStream.zig:724-736 | the lost packet leaves its ring |
| StoredStream.Stored.OnPacketProbeRequeued | src/conn/SendStream.zig:703-719 | the probed packet stays in its ring, marked |
| SendFixture.AckOddLoseEven | bench/stream_reassembly.zig:123-178 | for every number of chunk pairs the ack-odd, lose-even, resend run ends with buffer, queue, flight and ranges empty |
| RecvHalf.NextKeeps | src/conn/RecvStream.zig:160-501 | every step keeps held bytes between the read offset and the end, and the state name honest |
| RecvHalf.FinalSizeLocked | src/conn/RecvStream.zig:160-426 | a known final size never changes and nothing past it is ever accepted |
| RecvHalf.TakenIff | src/conn/RecvStream.zig:160-310 | a frame is refused if and only if no final size agrees with it or a byte of it lies past the window that moves with the read offset |
| RecvHalf.TakenWhenOver | src/conn/RecvStream.zig:160-310 | a reset stream ignores every frame, a complete one refuses only bytes past its end, and neither changes |
| RecvHalf.RoomIsUsed | src/conn/RecvStream.zig:226-232 | however far a stream was read, a frame that fits the window from there is taken |
| RecvHalf.FirstCopyStays | src/conn/RecvStream.zig:233-310 | a held byte stays as it first came until it is read or dropped by a reset; a new one is the frame's |
| RecvHalf.ResetTakenIff | src/conn/RecvStream.zig:405-426 | a reset is refused if and only if its size cannot be the final one |
| RecvHalf.EndsAreFinal | src/conn/RecvStream.zig:405-501 | complete, read and reset streams stay so |
| RecvHalf.RunWithinWindow | src/conn/RecvStream.zig:226-232 | in every run with one limit all bytes held lie within that many of the read offset |
| RecvHalf.RunHighWater | src/conn/RecvStream.zig:160-310 | in every run without a reset the end offset is the end of the furthest accepted frame |
| RecvHalf.RunDelivers | src/conn/RecvStream.zig:160-401 | in every run, whatever order, overlap and repetition: what was read is a prefix of the payload, and what was received is exactly what the accepted frames carried |
| RecvHalf.CompleteReads | bench/stream_reassembly.zig:196-209 | with every byte received one read returns the rest and nothing stays behind |
| RecvHalf.CompleteCanRead | src/conn/RecvStream.zig:138-143 | with every byte received all that is unread can be read at once |
| RecvStream.CopyGaps | src/conn/RecvStream.zig:160-310 | a frame fills only the gaps of what is buffered: the first copy of a byte stays |
| RecvStream.Stream.Receive | src/conn/RecvStream.zig:160-310 | refused exactly in the four cases and then without a trace; otherwise the accept step, whose bounds the laws of the half pin |
| RecvStream.Stream.Peek | src/conn/RecvStream.zig:344-350 | the readable bytes are the maximal held run at the read offset |
| RecvStream.Stream.Read | src/conn/RecvStream.zig:326-401 | refines the read step; short only where the next byte is missing |
| RecvStream.Stream.CompactPrefix | src/conn/RecvStream.zig:449-459 | moving the live tail to the front changes nothing stored |
| RecvStream.Stream.MarkRead | src/conn/RecvStream.zig:479-482 | refines the step that marks a complete or reset stream as read |
| RecvStream.Stream.ResetStream | src/conn/RecvStream.zig:405-426 | refused exactly when the sizes disagree; otherwise everything held is dropped |
| RecvFixture.FillSparseOrder | bench/stream_reassembly.zig:251-267 | for every even chunk count the order is a permutation: the odd chunks downward, so that each leaves a hole, then the even ones upward |
| RecvFixture.AllArrived | bench/stream_reassembly.zig:188-194 | once every chunk has arrived so has every byte |
| RecvFixture.Reassemble | bench/stream_reassembly.zig:180-212 | for every arrival order, with repeats: all is readable, one read returns the payload, buffer and ranges end empty |
| StreamTransfer.NextKeeps | src/conn/SendStream.zig:653-736 | every step of sender, network and receiver keeps acknowledged bytes within received bytes, until the receiver takes a reset, and held bytes equal to written ones |
| StreamTransfer.ReadsAPrefix | src/conn/RecvStream.zig:326-401 | under any loss, repetition and reordering what is read is a prefix of what was written |
| StreamTransfer.DeliveredIsReceived | src/conn/SendStream.zig:813-823 | a sender in data_recvd that never reset the stream is right: the receiver has every byte and the final size |
| StreamTransfer.DeliveredIsReceivedIff | src/conn/SendStream.zig:813-823 | in every run, reset or not: the receiver of a stream in data_recvd has every byte if and only if it took no reset or had read everything before |
| StreamTransfer.SentFromBuffer | src/conn/SendStream.zig:623-630 | in every run in order a chunk sent lies at or above the floor, so its bytes are still buffered |
| StreamTransfer.SentBelowFloor | src/conn/SendStream.zig:623-630 | a run out of order that sends a byte below the floor |
| StreamTransfer.QuietMeansDelivered | src/conn/SendStream.zig:600-823 | a finished sender with nothing in flight and nothing to offer has delivered everything |
| StreamTransfer.OnlyTheLimitRefuses | src/conn/RecvStream.zig:160-310 | an honest sender's frame is never refused over the final size |
| StreamTransfer.ResetIsTaken | src/conn/RecvStream.zig:405-426 | nor is its reset |
| UploadFlow.Events.Drain | src/Connection.zig:5110-5113 | over any number of polls the handshake event comes at most once, at the first poll after the handshake is done |
| UploadFlow.Upload.OnIteration | bench/io_backend.zig:293-340 | every callback, under any short and zero writes, moves flow and stream only by the acts begin, write, finish, done, and moves them as far as it can: the handshake begins the upload once, an upload sends all that is left, that the stream has room for and that the connection allows, finishes with its last byte, and is done if and only if the stream is in data_recvd; it fails exactly past the deadline or on a reset stream |
| UploadFlow.Upload.WriteAll | bench/io_backend.zig:314-321 | the loop of writes sends the least of what is left, the room and the sum of the credits up to the first write that takes nothing |
| UploadFlow.ActKeepsAgree | bench/io_backend.zig:312-338 | the accepted bytes are exactly payload[0..sent], and FIN only at sent = length |
| UploadFlow.UploadIsOrderly | bench/io_backend.zig:293-345 | in every run over the network: written is payload[0..sent], at most one close, and that only when all is acknowledged |
| UploadFlow.DoneMeansReceived | bench/io_backend.zig:324-345 | a finished upload whose stream was never reset has been received in full |
| UploadFlow.DoneMeansReceivedIff | bench/io_backend.zig:324-345 | in every run: a finished upload has been received if and only if the receiver took no reset or had read everything before |
| UploadFlow.DoneCanBeDropped | bench/io_backend.zig:324-345 | a run in which an upload is done although its byte was never held or read: the stream was reset with the packet under way |
| UploadFlow.FinishesOnce | bench/io_backend.zig:312-323 | in every run the stream is finished once, on the way to waiting for acknowledgements |
| UploadFlow.StageOnlyAdvances | bench/io_backend.zig:293-340 | the stage and the sent count never go back |
| EchoFlow.Echo.OnIteration | bench/io_backend.zig:396-443 | every callback keeps one ping at a time, seq = done count, and the round trips adding up to the time since the first ping; which of its outcomes (timeout, waiting, lost, mismatch, measured, closed, next ping) it has, exactly, and what each leaves unchanged |
| EchoFlow.Echo.Telescopes | bench/io_backend.zig:396-443 | at completion the round trips sum to last pong minus first ping, with one close |
| EchoFlow.PingEchoesItself | bench/io_backend.zig:418-419 | a ping comes back as the echo of its own sequence number and of no other |
| EchoFlow.PingLayout | bench/io_backend.zig:433-435 | a ping is its number and then the clock, each with its lowest byte first |
| EchoFlow.SumOfBag | bench/io_backend.zig:718-725 | sorting keeps the sum |
| EchoFlow.PercentileRank | bench/io_backend.zig:986-990 | which rank a percentile is: p hundredths of the way from first to last, rounded down |
| EchoFlow.PercentilesOrdered | bench/io_backend.zig:986-990 | percentiles come in order, up to the maximum, and never index past the end |
| SampleLoops.RunSampleLoops | bench/io_backend.zig:756-984 | for every loop count, client count and failure point each started thread is joined exactly once, before any storage it uses is freed; the run succeeds if and only if no point it comes by fails |
| SampleLoops.ClientsBody | bench/io_backend.zig:846-958 | partial client start leaves exactly the started clients to join; on success clients and servers are joined while client storage stands |
| SampleLoops.SlicesPartition | bench/io_backend.zig:848-864 | every cell of the round-trip array belongs to exactly one client |
| SampleLoops.SliceInside | bench/io_backend.zig:848-864 | every client's slice lies within the array |
| Watchdog.SignalsUnderLock | tools/profile-composition.py:108-116 | the watchdog signals only under the lock, with running up and the timeout already recorded |
| Watchdog.DoneIsHonest | tools/profile-composition.py:120-147 | at return the timer thread has ended and timed_out is exactly whether the watchdog signalled |
| Watchdog.RecordIsFinal | tools/profile-composition.py:140-147 | nothing changes the record after the join |
| Watchdog.JoinHoldsNothing | tools/profile-composition.py:135-139 | the join is never waited for under the lock |
| Watchdog.NeverStuck | tools/profile-composition.py:99-139 | no reachable state deadlocks |
| Watchdog.StillWatched | tools/profile-composition.py:118-122 | while the main thread waits for a live child the kill is still to come |
| Watchdog.RunsEnd | tools/profile-composition.py:99-147 | every interleaving ends within sixteen steps |
| EventQueue.Queue.Push | src/conn/event_queue.zig:206-218 | appends; a full queue loses exactly its oldest entry |
| EventQueue.Queue.Pop | src/conn/event_queue.zig:221-227 | takes the oldest |
| EventQueue.Queue.Compact | src/conn/event_queue.zig:254-258 | after the rotation the entries lie in order from the start of the storage |
| EventQueue.Queue.RemoveAt | src/conn/event_queue.zig:232-242 | takes out one entry, the others keep their order |
| EventQueue.SendAckLossEvents | bench/connection_datagram.zig:47-70 | for every iteration count nothing is dropped, pops come out in push order, packets in turn and acknowledged and lost by turns, the sum is that of all fields of all notifications modulo 2^64, and the queue holds at most eight entries |
| EventQueue.FoldedIsTotal | bench/connection_datagram.zig:38-45 | wrapping at every addition comes to wrapping once |
| Stats.MedianInPlace | bench/report.zig:39-42 | sorts in place and returns the median of what was there |
| Stats.MedianAbsoluteDeviation | bench/report.zig:46-50 | the deviation by way of a scratch array |
| Stats.MedianIsMiddle | bench/report.zig:31-36 | in any sorted order of the samples the median is halfway between the two in the middle, or the middle one |
| Stats.SortedUnique | bench/report.zig:39-42 | a bag of samples has one sorted order |
| Stats.OrderDoesNotMatter | bench/report.zig:24-50 | median and deviation are invariant under permutation |
| Stats.MajorityHoldsMedian | bench/report.zig:31-36 | a range that holds more than half of the samples holds the median |
| Stats.Breakdown | bench/report.zig:24-50 | replacing fewer than half of the samples leaves the median within the others and the deviation within their spread |
| Stats.HalfBreaks | bench/report.zig:24-50 | for every number of samples, half of them is enough to move the median, and with more than one sample the deviation, anywhere: the bound is exact |
| Stats.OneSampleHasNoDeviation | bench/report.zig:46-50 | the deviation of a single sample is zero whatever it is |
| Json.Output.AppendJsonString | bench/report.zig:78-94 | appends exactly the quoted string |
| Json.EscapeNames | bench/report.zig:80-91 | each escape by its characters; the digits of a control byte are lower case |
| Json.RoundTrip | bench/report.zig:78-94 | every byte string reads back as itself by a reader of section 7 of RFC 8259, surrogate pairs included, and the reader stops where the printer did |
| Json.SelfDelimiting | bench/report.zig:78-94 | no printed string starts another; equal prints come from equal strings |
| Json.NoRawControl | bench/report.zig:78-94 | no raw control byte is printed |
| Json.OnlyLastQuoteIsBare | bench/report.zig:78-94 | the first unescaped inner quote is the last byte |
| Digest.RuntimeDigest | tools/check-fairness.py:109-117 | the loop feeds the frames of the counting files in order |
| Digest.CountsByName | tools/check-fairness.py:112-113 | the files that count, by name |
| Digest.FrameLayout | tools/check-fairness.py:115-116 | a part goes after its length, highest byte first |
| Digest.FedSameIff | tools/check-fairness.py:109-117 | two trees feed the same bytes if and only if their runtime and build files agree in names and contents |
| Fairness.JainBounds | tools/check-fairness.py:228-232 | the index lies in [1/n, 1] and is at most the share of flows that moved |
| Fairness.JainIsOneIff | tools/check-fairness.py:228-232 | it is one exactly when all flows moved the same |
| Fairness.JainIsShareIff | tools/check-fairness.py:228-232 | it is the share of flows that moved exactly when those moved the same |
| Fairness.GateMeansProgress | tools/check-fairness.py:246-253 | below fifty flows the 98/100 gate implies that every flow moved |
| Fairness.GateAllowsAStall | tools/check-fairness.py:246-253 | from fifty flows on it does not |
| Fairness.ByName | tools/check-fairness.py:199-200 | the dictionary has exactly the names of the rows, and each leads to the last row of its name |
| Fairness.AcceptedMeansExactly | tools/check-fairness.py:199-202 | a report passing the length and key-set checks has each declared cell exactly once, and the dictionary lost no row |
| Fairness.CountsAddUp | tools/check-fairness.py:269-272 | the three outcome counts sum to the number of mixed cells |
| Fairness.CountsMirror | tools/check-fairness.py:269-272 | what improves one way around worsens the other way around |
| Fairness.PassesIff | tools/check-fairness.py:246-249 | the gate cell by cell: the sum of the indices rises, and none falls below every one of the baseline |
| Fairness.PassingImproves | tools/check-fairness.py:246-249 | a passing comparison strictly improves some mixed cell |
| Fairness.GateIsStrictOrder | tools/check-fairness.py:246-249 | the mean and worst relation is never passed both ways, and passes compose |

## Left out

- Packet protection, tokens, QUIC-LB, stateless reset and transport parameters: thin calls into libraries, or codecs without state of their own.
- Congestion control, pacing, ECN counts, path validation and path scheduling: the recovery model carries of a packet only its number, send time, size and two flags.
- The RTT estimator: the base of the probe timeout and the RTT samples are parameters.
- The reorder window, the retransmit-frame and stream lists of a sent packet, `growPacket` and the shrinking of idle storage.
- The millisecond and microsecond twins of the ACK clocks: one clock is modelled, without the fallback from one unit to the other.
- `removePoint`, `findPoint` and `removalSplits` of the range lists: single-point forms of what is modelled for ranges.
- `onResetLost`, which only re-arms the RESET_STREAM frame, and the queueing of that frame.
- Allocation failure inside `SendStream`, `RecvStream` and `RangeList`: memory is taken to be there; the trackers and rings take it as a parameter.
- Overflow of capacity computations and of 64-bit counters: unbounded numbers, but for the limits the code itself checks.
- StoredStream.Stored.Write: the stream keeps its bytes and packets as a sequence and a map as well; the two rings run beside them and are proved to hold the same, which the calls that touch neither (finish, reset) leave as it is.
- StreamTransfer.SentBelowFloor: a chunk below the floor is given its written bytes here; the code would compute a negative index.
- LossRecovery.WalkAck: walks the frame to its end before it removes packets, where the code interleaves the two; both stop at the same malformed pair with the same packets gone.
- Ring.PhysIsRemainder: the ring indices are modelled by this branch; that the masks and remainders of the code find the same slots is proved beside it.
- UploadFlow.Upload.OnIteration: of the connection's events only the handshake and its latch are modelled; opening the stream does not fail, and connection flow control is an arbitrary credit for each write.
- Stats.MedianInPlace: the library sort is an insertion sort whose result is copied back; samples are reals, so rounding is not modelled.
- EchoFlow.Echo.OnIteration: the wall clock shared between loops and the CPU counters are left out.
- SampleLoops.RunSampleLoops: the shutdown flags, the counters handed back and what the threads do are left out; a group of tasks is a set of threads joined together.
- Watchdog.NeverStuck: exceptions are modelled at the two waits for the child, not at every instruction; no claim is made that no signal follows the reaping of the child.
- Digest.FedSameIff: the hash itself is not part of the model, only the bytes fed to it; the sorted list of names is a parameter characterised by its order.
- Fairness.AcceptedMeansExactly: the remaining field checks of a row are plain comparisons and not modelled.
