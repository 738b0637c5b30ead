# Overlay proxy: a Dafny model

The overlay carries logical byte streams between two endpoints over several TCP subflows. This
project models its core and proves what it guarantees. `dafny verify dfyconfig.toml` checks it.

**The stream protocol.** A pump reads a connection, and each read becomes one numbered DATA frame.
Its length is charged to a credit window and the frame is kept in `pending` until an acknowledgement
covers it. The network reorders frames freely and loses those of a dying subflow. The receiver
reassembles in a bounded reorder buffer, writes in order, and returns acknowledgements that carry a
cumulative point, up to four selective ranges and byte credit. The sender sends again what lies in
the holes between the ranges.

- `Segments`, `Reorder`, `Sack`, `Transfer` hold the data and each operation as a function on
  values; `ReorderBuffer`, `Window`, `Stream` are the objects and loops of the source, each method
  proved equal to its function.
- `Protocol` is one direction as a transition system: send, send failure, loss, delivery in any
  order, a whole or a short write, acknowledgement lost or delivered, failure of either side.
  `AckFacts` says what an acknowledgement in flight can be. `ProtocolSteps` proves the invariant
  step by step; `ProtocolTheorems` and `ProtocolProgress` state what follows for every run, and
  `ProtocolLimits` that the condition on the window is exact. What single steps of a run do is told
  in the terms of the wire: `ProtocolResends` which frames an acknowledgement brings back,
  `ProtocolAcks` what the receiver says and when, `ProtocolClosing` when a read is taken and what a
  stopped half no longer does.
- `Duplex` joins two directions and the way an endpoint closes; `DuplexProgress` says how a pair
  without losses ends.

**The frame codec.** `Words` and `Crc` are bytes, bits and CRC32C, shifted bit by bit as RFC 9260
Appendix A defines it. `Frames` is the wire format as functions, `FrameIO` the same with buffers,
offsets, a counting writer and a reader; `FrameTheorems` has round trips, rejection, normalisation
and error detection, and `FrameLayout` says byte by byte what is accepted and what it means.
`CrcTheorems` says what the sum is without its register: the remainder of a polynomial division;
`CrcCheck` computes the check value.

**The sliding counter.** `Sliding` is the ring of buckets; `SlidingHistory` compares its sum with an
exact log of the calls, and `SlidingBound` says exactly when the plain bound holds.

**Scheduler and subflow replacement.** `Scheduler` is the weighted round robin, `ServiceBound` the
longest wait while weights change, and `Starvation` the scheduler fed by the counters of its own
subflows; `Replacement` is the session's table of subflows with every interleaving of errors, dials,
failures and timers around it.

## How the source is read

- The input of a direction is a fixed plan: the successive reads of the sending pump, each below
  2^32 bytes (`FrameSize`), non-empty except for a final empty end mark. Frames always are segments
  of this plan, because `seq` advances by the length and a retransmission reuses the frame.
- A subflow delivers a frame intact or not at all, and a frame whose send reports an error is not
  delivered. Up to the failed write this is proved: it leaves a strict prefix of the frame on the
  connection, which the receiver rejects (`FrameIO.Outgoing.Encode`,
  `FrameTheorems.CutFrameRejected`). That such a connection takes nothing more is an assumption. It
  holds under TLS, where a write that timed out spoils the connection; without TLS the code neither
  closes nor detaches the subflow (internal/overlay/subflow.go:72-87), so the bytes of the next frame
  would complete the cut one, and only the checksum stands in the way, when there is one.
- Frames and acknowledgements in flight are bags from which any element may be delivered or lost
  next.
- Each operation under one lock, and each turn of a pump, is one atomic step. `sendAck` reads the
  ranges before `recvSeq`; both are taken in one step, which is safe because an acknowledgement stays
  truthful as the receiver moves on (`AckFacts.TruthfulLater`).
- Failing a stream is atomic: `done`, the window and the connections close together. Each half may
  also fail on its own at any moment.
- A wait is a step that is not enabled: `Acquire` without credit is `Blocked`.
- Clocks, the subflow's answer to a send, and the number of bytes a connection takes are parameters.
- Sequence numbers are natural numbers; `uint32` counters wrap explicitly and the wrap is shown not
  to happen. `available + inflight` never exceeds the initial window.
- The sliding counter reads the clock twice in each call, as the source does: once to roll the ring
  and once to stamp a bucket or to place the cutoff.
- A scheduler weight is computed in real arithmetic. The source divides by ten in double precision,
  which rounds the quotient but never changes the weight (`Schedulers.RoundingKeepsWeight`).

## Properties that hold only under a condition

- No overflow holds if and only if the sender's window is at most the reorder capacity, whatever the
  frame size (`WindowConditionExact`). Endpoints configured alike meet the condition
  (`CapacitySuffices`).
- A copy of a frame is ignored if and only if it is not an empty end mark that was already handed
  out (`PushDuplicate`). The sender never sends an empty frame again (internal/overlay/stream.go:465).
- The refusal test in `Push` is right if and only if its `uint32` sum does not wrap
  (`RefusalExact`); in the protocol it never does.
- The sliding counter's upper bound needs the longest pause between the two clock readings of an
  `Add` (`SumSandwich`). The plain bound, window and one step, is kept if and only if no `Add` pauses
  for two units of the clock, or the ring's slowest turn, (buckets - 1) * (2*step - 1), is at most 1,
  or that turn and the longest pause of a `Sum` together fit the window (`PlainBoundExact`).
- An acknowledgement names the bytes written, except those of a chunk that a failing write cut short
  (`AnswersExact`; `CutNotCounted` is a run in which the two numbers differ).
- A subflow keeps its turn while one that joined later is detached. Detaching one that joined earlier
  takes the rest of the turn away, because the position stays and the entries move (`DetachTurn`).
- Scheduler fairness needs weights that stay fixed, or change only so often for the entry in turn:
  with c such changes among n > 1 entries, every entry is sure to be served within k calls if and
  only if k is greater than 8*(n-1) + 13*c/2, rounded down (`ServiceBoundExact`). Ordinary traffic can
  change them often enough to starve a subflow for good (`SwingingThroughputStarves`).
- A checksum detects an alteration that leaves the length and the checksum flag standing; clearing
  the flag alone is accepted by `Decode` (`ClearedFlagAccepted`). With `EnableChecksums` the subflow
  loop then rejects the frame (internal/overlay/subflow.go:63-66).

## Where the code and its documentation differ

- The repository's own introduction promises quick recovery from loss, and its design notes speak of
  duplication after about three round trips. The code retransmits only into holes, after a fixed
  interval, so a lost tail or a lost acknowledgement's credit is not recovered. Safety is proved with
  losses, progress without.
- internal/overlay/reorder.go:126-127 speaks of data beyond the cumulative point. The ranges lie
  above `next`, while the point sent is the bytes written, which may lag behind `next`.

## Model

| member | source | states |
|---|---|---|
| ReorderBuffers.ReorderBuffer.constructor | internal/overlay/reorder.go:38-43 | a new buffer is empty, at offset 0, with the given capacity |
| ReorderBuffers.ReorderBuffer.Push | internal/overlay/reorder.go:48-78 | the loop form has the effect of the function Push, and a refused frame changes nothing |
| ReorderBuffers.ReorderBuffer.PopReadyLocked | internal/overlay/reorder.go:82-103 | draining has the effect of the function PopReady |
| ReorderBuffers.ReorderBuffer.HasTerminal | internal/overlay/reorder.go:120-124 | reports whether an end mark was seen |
| ReorderBuffers.ReorderBuffer.SACKRanges | internal/overlay/reorder.go:128-167 | sorting, merging and cutting give the ranges that SackExact describes |
| ReorderBuffers.CoalesceKeys | internal/overlay/reorder.go:145-162 | the merging loop over sorted keys computes the coalesced ranges |
| Reorder.PopReadySettles | internal/overlay/reorder.go:82-103 | draining hands out exactly the segments that extend the received prefix, and leaves exactly the others with their exact byte count |
| Reorder.PushNew | internal/overlay/reorder.go:64-77 | a new frame is refused if and only if the bytes then held would exceed the capacity; otherwise all that becomes contiguous is handed out in order |
| Reorder.PushDuplicate | internal/overlay/reorder.go:51-63 | a frame seen before changes nothing if and only if it is not an empty end mark already handed out |
| Reorder.EmptyEndAgain | internal/overlay/reorder.go:58-77 | a repeated empty end mark would be handed out a second time |
| Reorder.RepeatMarksEnd | internal/overlay/reorder.go:51-63 | any frame below next or at the offset of a stored one hands out nothing and changes nothing but what is known of the end |
| Reorder.EndReached | internal/overlay/reorder.go:95-99 | whatever was stored, handing out an end mark moves next on at least to the announced end |
| Reorder.SettledUnique | internal/overlay/reorder.go:25-33 | the whole state of the buffer is determined by the set of segments received |
| Reorder.ArrivalState | internal/overlay/reorder.go:48-103 | after any sequence of arrivals, with duplicates, the chunks handed out are the longest received prefix and the buffer holds exactly the rest |
| Reorder.OrderIndependent | internal/overlay/reorder.go:48-103 | two orders of the same arrivals end in the same state and output; a complete set emits the whole stream and empties the buffer |
| Reorder.WholeStreamFits | internal/overlay/reorder.go:64-70 | a stream that fits the capacity is never refused, in any order of arrival |
| Reorder.RefusalExact | internal/overlay/reorder.go:64-70 | the capacity test is right if and only if its uint32 sum does not wrap |
| Sack.SackExact | internal/overlay/reorder.go:128-167 | before truncation the ranges are sorted, separated by real gaps, and their union is exactly the stored byte positions; what is reported is the first four |
| Sack.HolesExact | internal/overlay/stream.go:434-449 | for start-sorted ranges the holes are sorted and disjoint, and below the highest end a position is in a hole if and only if it is in no range and not below AckSeq |
| Sack.ComputeAckHoles | internal/overlay/stream.go:434-449 | the loop that raises cur computes these holes |
| AckFacts.ReportedRuns | internal/overlay/reorder.go:128-167 | each reported range is a run of whole received segments, strictly above next |
| AckFacts.ReportTruthful | internal/overlay/stream.go:384-395 | an acknowledgement built from the buffer and the bytes written is truthful |
| AckFacts.TruthfulLater | internal/overlay/stream.go:384-395 | a truthful acknowledgement stays truthful however much later it arrives |
| AckFacts.CoveredReceived | internal/overlay/stream.go:451-462 | a non-empty segment that a truthful acknowledgement covers has been received |
| AckFacts.MeetsIsInside | internal/overlay/stream.go:464-478 | a segment overlaps a hole if and only if it lies wholly inside one |
| AckFacts.Trichotomy | internal/overlay/stream.go:434-478 | each non-empty segment is exactly one of covered, inside one hole, or at or above the last range |
| Transfer.DeductExact | internal/overlay/stream.go:177 | adding ^uint32(n-1) subtracts n if and only if n is at most the counter |
| ProtocolSteps.QueueThenFail | internal/overlay/stream.go:132-179 | queueing a frame and failing to send it restores window, counter and pending list; only the numbering has moved on |
| ProtocolSteps.RefundExact | internal/overlay/stream.go:201-204 | returning credit that is in flight moves it from inflight to available without wrapping |
| ProtocolSteps.CreditWithinInflight | internal/overlay/stream.go:201-204 | all credit in transit or lost is at most what the sender has in flight, which is at most the window |
| ProtocolSteps.HeldWithinWindow | internal/overlay/reorder.go:64-70 | any frame that may arrive leaves the receiver holding no more bytes than the sender's window |
| ProtocolSteps.DroppedReceived | internal/overlay/stream.go:188-199 | an entry that an acknowledgement in flight drops is a segment that was received |
| ProtocolSteps.StepKeepsInv | internal/overlay/stream.go:132-238 | every step keeps the invariant of one direction |
| ProtocolSteps.RunKeepsInv | internal/overlay/stream.go:132-238 | the invariant holds all along every run |
| ProtocolTheorems.NeverOverflows | internal/overlay/stream.go:210-222 | in every reachable state no frame that can arrive is refused, so the retry loop of onData runs exactly once |
| ProtocolLimits.LargerWindowSticks | internal/overlay/stream.go:210-222 | for every window above the capacity and every bound on the frames, however small, there is a run in which the retry loop never ends |
| ProtocolLimits.WindowConditionExact | internal/overlay/reorder.go:64-70 | for any bound on the frames, no run gets stuck if and only if the window is at most the capacity |
| ProtocolTheorems.CapacitySuffices | internal/overlay/stream.go:66-75 | the capacity that a stream computes from its own window is enough for any sender window up to twice that |
| ProtocolTheorems.CapacityDoubles | internal/overlay/stream.go:66-75 | the capacity is twice the window as far as 32 bits allow, and 512 KiB without a window |
| ProtocolTheorems.NoByteForgotten | internal/overlay/stream.go:181-200 | in every reachable state of a live stream each non-empty numbered segment is below next, in the reorder buffer, or pending |
| ProtocolTheorems.DropsOnlyReceived | internal/overlay/stream.go:188-199 | any acknowledgement in flight, stale or truncated, drops a non-empty entry only if the receiver has all of it |
| ProtocolTheorems.InOrderExactlyOnce | internal/overlay/stream.go:290-318 | in every reachable state the output is a prefix of the input, recvSeq counts it, and output plus queued chunks is the input below next |
| ProtocolTheorems.EndOfStreamComplete | internal/overlay/stream.go:308-312 | half-closing the far connection means its output is the whole input, and a live receiver that has written everything has half-closed |
| ProtocolTheorems.EmittedExact | internal/overlay/reorder.go:48-103 | all along every run the chunks handed out so far, one after another, are exactly the first segments of the input |
| ProtocolTheorems.EndHandedOutOnce | internal/overlay/reorder.go:73-101 | over every run an end mark among the chunks handed out is the last of them, and then they are the whole input; so there is at most one |
| ProtocolTheorems.CreditConserved | internal/overlay/stream.go:132-208 | available + inflight is the window; bytes numbered are in flight, released or failed; bytes written are released, in transit or lost |
| ProtocolTheorems.SenderArithmeticExact | internal/overlay/stream.go:159-178 | at every step of every run the uint32 operations of the sender are exact, and a failed send restores them |
| ProtocolTheorems.BufferedExact | internal/overlay/reorder.go:64-70 | the buffered count is exactly the bytes held, and with the bytes written and the credit available it stays within the window |
| ProtocolTheorems.HoleEntriesResent | internal/overlay/stream.go:185-199 | for every acknowledgement in flight a pending entry with data is covered, inside one hole or beyond, and it is selected for sending again if and only if it lies inside a hole and was not sent within the interval |
| ProtocolTheorems.HoleBytesPending | internal/overlay/stream.go:434-478 | every byte of a hole belongs to a segment that the receiver has or that is pending, so holes can be repaired |
| ProtocolResends.AckResends | internal/overlay/stream.go:181-208 | in every run an arriving acknowledgement puts into the network, in order and each once, exactly the frames of the pending entries that carry data, of which every byte is missing below something reported, that were not sent for 50 ms and are not refused; exactly these get the new send time, entries it reports as received are dropped, all others stay as they were, and the stream fails if and only if one was refused |
| ProtocolAcks.AnswersExact | internal/overlay/stream.go:384-395 | in every run an arrival that hands out nothing is answered if and only if data is held or the end was seen, a chunk written whole if it carried data or one of these holds, and nothing else is; each answer names the bytes written, returns the length of the chunk, and reports the first four maximal runs of held bytes |
| ProtocolAcks.RefusedAnswered | internal/overlay/stream.go:210-222 | a frame that the buffer refuses changes nothing and is answered by the same rule |
| ProtocolAcks.WrittenCounted | internal/overlay/stream.go:295-306 | recvSeq counts the bytes written apart from those of a chunk that a failing write cut short |
| ProtocolAcks.CutNotCounted | internal/overlay/stream.go:295-306 | a run in which one byte of two was written and a later answer says that none was |
| ProtocolAcks.SackReports | internal/overlay/reorder.go:126-167 | the ranges the buffer builds are the first four maximal runs of received bytes above next |
| ProtocolAcks.WriteEffect | internal/overlay/stream.go:290-318 | a write passes on what it writes and takes the chunk off the queue; the receiver stops if and only if the chunk was cut short or its answer refused, and half-closes if and only if the chunk carries the end and it did not stop |
| ProtocolClosing.SendRule | internal/overlay/stream.go:132-143 | a read is taken if and only if no end was offered before and it is empty or the window is open and has credit for it; it is refused if and only if an end was offered before or it is not empty and the window is closed; otherwise it waits |
| ProtocolClosing.SendEffect | internal/overlay/session.go:444-457 | a read that is taken goes out as one frame at the offset of its first byte, is remembered with the time of sending, and is charged |
| ProtocolClosing.ClosedForEver | internal/overlay/window.go:31-33 | over every run a failed stream stays failed and numbers no byte any more |
| ProtocolClosing.ClosedSends | internal/overlay/stream.go:141-143 | once the stream has failed only an empty end mark can still be sent for the first time |
| ProtocolClosing.EndedForEver | internal/overlay/stream.go:134-140 | once an end has been offered, taken or refused, nothing is sent for the first time any more |
| ProtocolClosing.DoneForEver | internal/overlay/stream.go:290-318 | over every run a receiver that has stopped writes nothing and half-closes nothing any more |
| ProtocolProgress.IdleIsFull | internal/overlay/stream.go:201-204 | in a loss-free run with nothing outstanding everything numbered is written and the window is full |
| ProtocolProgress.NeverDeadlocks | internal/overlay/window.go:24-52 | in every loss-free run whose frames fit the window, a sender blocked in Acquire waits for something that can move, and undelivered input leaves some step enabled |
| ProtocolProgress.StepsBounded | internal/overlay/stream.go:132-238 | every loss-free run takes at most five steps a segment and two for each frame it sends again |
| ProtocolProgress.SendsAndWritesBounded | internal/overlay/stream.go:132-318 | however much is sent again, a loss-free run numbers and writes each segment at most once |
| ProtocolProgress.LossFreeDelivers | internal/overlay/stream.go:256-318 | where a loss-free run cannot go on the whole input is delivered and the window is full |
| Duplex.PairRunSafe | internal/overlay/stream.go:103-124 | with both directions running and either endpoint failing at any time, each direction keeps its invariant |
| Duplex.EndpointsFailWhole | internal/overlay/stream.go:103-124 | over every run whatever stops one half of an endpoint stops the other half with it |
| Duplex.CleanRun | internal/overlay/stream.go:414-418 | in a run without failures an endpoint is closed only by maybeFinalize after both sides have ended |
| Duplex.FinalizeIsComplete | internal/overlay/stream.go:414-418 | an endpoint that closes in a run without failures has numbered its own end mark and written the other side's whole input |
| DuplexProgress.PairDelivers | internal/overlay/stream.go:256-418 | for inputs that end, where a pair without losses and failures cannot go on, both inputs have been written whole at the other side and both endpoints have closed |
| DuplexProgress.PairRunEnds | internal/overlay/stream.go:256-418 | the steps of such a pair that change anything are bounded by five a segment, two an endpoint and two for each frame sent again |
| Windows.Window.constructor | internal/overlay/window.go:16-20 | a window starts open with its initial credit |
| Windows.Window.Acquire | internal/overlay/window.go:24-40 | credit is taken in full or not at all; a closed window refuses all but zero bytes; a call waits if and only if the open window lacks the credit |
| Windows.Window.Release | internal/overlay/window.go:44-52 | credit is added, modulo 2^32 |
| Windows.Window.Close | internal/overlay/window.go:55-60 | closes and leaves the credit alone |
| Streams.FilterPending | internal/overlay/stream.go:189-199 | the filtering loop keeps exactly the entries not covered, in order |
| Streams.RetransmitDue | internal/overlay/stream.go:205-207 | the resend loop sends each due entry once and stamps those that were sent |
| Streams.RemoveEntry | internal/overlay/stream.go:168-173 | removes the first matching entry and nothing else |
| Streams.Stream.constructor | internal/overlay/stream.go:66-86 | a stream starts with its whole window and an empty buffer of the capacity computed from it |
| Streams.Stream.Fail | internal/overlay/stream.go:103-120 | stops both halves and changes nothing else |
| Streams.Stream.QueueFrame | internal/overlay/stream.go:132-164 | numbers and charges a read as the protocol's Send does, or refuses it; after a failure a read with data is refused and numbering, pending list and counters stay as they were |
| Streams.Stream.OnSendFailure | internal/overlay/stream.go:166-179 | takes the entry and its charge back |
| Streams.Stream.SendData | internal/overlay/session.go:444-457 | queue, send, and stamp or take back |
| Streams.Stream.OnAck | internal/overlay/stream.go:181-208 | drop, release and resend as the protocol's DeliverAck does; a refused resend fails the stream |
| Streams.Stream.SendAck | internal/overlay/stream.go:384-395 | the acknowledgement of the protocol, or none when there is nothing to say |
| Streams.Stream.OnData | internal/overlay/stream.go:210-238 | one turn of the loop for any frame: push, then answer or queue as the protocol's DeliverData does; a refused frame is answered and asks for another turn with the buffer unchanged |
| Streams.Stream.WriteChunk | internal/overlay/stream.go:290-318 | one turn of the writing pump is the protocol's Write, short writes included |
| Streams.Stream.MaybeFinalize | internal/overlay/stream.go:414-418 | closes if and only if both sides have ended |
| Sliding.SlidingCounter.constructor | internal/metrics/sliding.go:25-38 | step and bucket count are repaired when they are not positive |
| Sliding.SlidingCounter.Roll | internal/metrics/sliding.go:62-77 | the clearing loop moves the ring as the function Rolled does |
| Sliding.SlidingCounter.Add | internal/metrics/sliding.go:40-46 | rolls, then adds to the current bucket and stamps it |
| Sliding.SlidingCounter.Sum | internal/metrics/sliding.go:48-60 | the total of the buckets stamped after the cutoff |
| SlidingHistory.AdvanceKeepsRing | internal/metrics/sliding.go:71-75 | moving on by any number of buckets, whole turns included, drops exactly the events of the buckets entered |
| SlidingHistory.RollTracks | internal/metrics/sliding.go:62-77 | a roll keeps the agreement of ring and log although it sets last to now and so drifts |
| SlidingHistory.AddTracks | internal/metrics/sliding.go:40-46 | an Add keeps it too |
| SlidingHistory.TotalIsCounted | internal/metrics/sliding.go:52-59 | the summing loop counts each live event in a recent bucket exactly once |
| SlidingHistory.SumSandwich | internal/metrics/sliding.go:48-60 | after every history of non-negative Adds, Sum is at least what was added in the last (buckets - 1) steps and at most what was added in less than the window plus one step plus the longest pause inside an Add, minus one; nothing is reported that was older, at the first reading of the Sum, than the slowest turn of the ring and one step |
| SlidingBound.BucketsFill | internal/metrics/sliding.go:25-38 | there are as many empty buckets as whole steps fit the window, at least one, and the step is half a second when none is given |
| SlidingBound.SumInWindow | internal/metrics/sliding.go:25-60 | Sum is at least what was added within the window less two steps and at most what was added within the window, one more step and the longest pause |
| SlidingBound.PauseOutlivesWindow | internal/metrics/sliding.go:40-60 | for every window, step and pauses that meet none of the conditions, a history of positive Adds and a Sum that break the plain bound |
| SlidingBound.PlainBoundExact | internal/metrics/sliding.go:25-77 | for every window and step, and whatever the longest pauses of Add and of Sum between their two readings, all histories keep the bound of window and one step if and only if the Adds pause at most one, or the slowest turn of the ring is at most one, or that turn and the Sum's pause fit the window |
| Schedulers.WeightOf | internal/overlay/scheduler.go:92-105 | the weight is the one of 1..8 whose band of throughput contains the bytes |
| Schedulers.WeightFromThroughput | internal/overlay/scheduler.go:92-105 | the division, conversion and clamping compute that weight |
| Schedulers.RoundingKeepsWeight | internal/overlay/scheduler.go:96-97 | rounding the quotient to a double, as the source does, gives the same weight |
| Schedulers.Scheduler.Attach | internal/overlay/scheduler.go:27-32 | appends an entry of weight and quota 1 |
| Schedulers.Scheduler.Detach | internal/overlay/scheduler.go:34-47 | the filtering loop removes every entry of the subflow and repairs the position |
| Schedulers.Scheduler.RefreshWeights | internal/overlay/scheduler.go:56-67 | the loop refreshes every entry: a changed weight gives a new quota, a spent quota is renewed |
| Schedulers.Scheduler.TakeTurn | internal/overlay/scheduler.go:76-89 | the scanning loop spends one unit of the first entry with quota left |
| Schedulers.Scheduler.Next | internal/overlay/scheduler.go:69-90 | refresh and scan; no subflow when there is no entry |
| Schedulers.NextTakesCurrent | internal/overlay/scheduler.go:74-89 | after a refresh the current entry always has quota, so the scan's skip and its fallback are never taken |
| Schedulers.ScanSkips | internal/overlay/scheduler.go:76-89 | from any state the scan picks the first entry with quota, spends one unit of it and gives those it skipped their weight back |
| Schedulers.WithoutKeeps | internal/overlay/scheduler.go:37-43 | detaching keeps exactly the other entries |
| Schedulers.DetachTurn | internal/overlay/scheduler.go:34-47 | after a detach the current entry keeps its turn if the detached one lies behind it; otherwise the next remaining entry is current |
| Schedulers.ReachableOk | internal/overlay/scheduler.go:27-90 | over every run of attach, detach and next, weights stay in 1..8, quotas between 0 and the weight, and the position a valid index |
| Schedulers.RunSpins | internal/overlay/scheduler.go:56-90 | with fixed weights a run of Next picks what a plain wheel of quotas picks |
| Schedulers.EverySubflowServed | internal/overlay/scheduler.go:69-90 | from every reachable state, while weights stay fixed, every attached subflow is picked within 8*(n-1)+1 calls |
| Schedulers.RoundsShareByWeight | internal/overlay/scheduler.go:69-90 | from a round boundary any number of rounds picks each entry exactly its weight times as often, and ends at a boundary |
| Schedulers.ChangingWeightStarves | internal/overlay/scheduler.go:60-62 | an entry whose weight changes before every call is picked for ever |
| ServiceBounds.ServedDespiteChanges | internal/overlay/scheduler.go:56-90 | from every reachable state every subflow is picked within 8*(n-1) + 13*c/2 + 1 calls when at most c of them find a new weight for the entry in turn |
| ServiceBounds.LongestWaitReached | internal/overlay/scheduler.go:56-90 | for every n and c a reachable state and a run of any length up to that bound, with at most c such calls, in which a subflow is never picked |
| ServiceBounds.ServiceBoundExact | internal/overlay/scheduler.go:56-90 | k calls with at most c changes serve every one of n subflows from every reachable state if and only if k is greater than the longest wait |
| Starvation.SwingingThroughputStarves | internal/overlay/scheduler.go:56-90 | with weights taken from the subflows' own counters, three frames within FrameSize in each half second keep a subflow that joins after ten seconds from ever being picked |
| Starvation.SumAt | internal/overlay/subflow.go:91-109 | what the counter reports at each of these frames, from the frames recorded before |
| Replacement.Session.PrepareSubflowSpawn | internal/overlay/session.go:185-206 | grants an id only below the target, and INIT if and only if nothing is live or pending |
| Replacement.Session.RegisterSubflow | internal/overlay/session.go:158-174 | under the table's lock, moves one spawn from pending to live unless the session is closed; attaching is a step of its own |
| Replacement.Session.SubflowSpawnFailed | internal/overlay/session.go:208-214 | gives one pending spawn up |
| Replacement.Session.RemoveSubflow | internal/overlay/session.go:254-257 | under the table's lock, removes the subflow and says whether it was there; detaching is a step of its own |
| Replacement.EstablishedInv | internal/overlay/client.go:76-101 | registering the first subflows one after another gives a session at its target |
| Replacement.StepKeepsInv | internal/overlay/session.go:157-270 | every step of every handler, dial and timer keeps counts, ids and the scheduler's entries consistent |
| Replacement.TargetKept | internal/overlay/session.go:185-270 | over every run live + pending never exceeds the target, and what is missing to it is in progress in a retry, a handler or a failed dial |
| Replacement.IdsStayDistinct | internal/overlay/session.go:157-206 | live and pending ids are distinct and below nextSubflowID, at most one dial sends INIT, and the scheduler lists exactly the attached subflows, each once |
| Replacement.InitExact | internal/overlay/session.go:185-206 | over every run a step that dials takes the next id, marks the dial INIT if and only if nothing was live and nothing was being dialled, leaves the other dials alone, and happens only below the target |
| Replacement.RecoveryCompletes | internal/overlay/session.go:216-270 | without new failures recovery ends after a bounded number of steps with the target number live and scheduled |
| Crc.UpdateJoins | internal/overlay/protocol/frame.go:159-160 | summing the header and then the payload is summing their concatenation |
| Crc.FeedInjective | internal/overlay/protocol/frame.go:252-254 | for any message the final register determines the initial one |
| Crc.BitBurstShows | internal/overlay/protocol/frame.go:252-257 | an alteration within 32 consecutive bits of a message of any length changes the register |
| Crc.BurstDetected | internal/overlay/protocol/frame.go:252-257 | an alteration within four consecutive bytes changes the sum |
| Crc.Sum | internal/overlay/protocol/frame.go:159-160 | shifting byte by byte and bit by bit computes the sum |
| CrcTheorems.SumIsRemainder | internal/overlay/protocol/frame.go:125-127 | for every message the complement of the sum is the remainder of the message, low bits first, its first 32 bits complemented, times x^32, by the Castagnoli generator whose exponents are listed |
| CrcTheorems.RemainderUnique | internal/overlay/protocol/frame.go:125-127 | a polynomial has only one such remainder |
| CrcCheck.FeedWord | internal/overlay/protocol/frame.go:158-163 | shifting a 32-bit word to the right and adding 0x82F63B78 computes the register |
| CrcCheck.CheckValue | internal/overlay/protocol/frame.go:125-127 | the sum of the nine bytes "123456789" is 0xE3069283 |
| FrameTheorems.HeaderSlices | internal/overlay/protocol/frame.go:141-149 | where each header field lies, most significant byte first |
| FrameTheorems.AckSlices | internal/overlay/protocol/frame.go:185-199 | where the fields of an ACK payload lie, and that at most four ranges follow |
| FrameTheorems.FrameRoundTrip | internal/overlay/protocol/frame.go:129-307 | decoding an encoded frame, with anything after it, gives the frame, consumes exactly the WireLength that Encode reported, and leaves the rest |
| FrameTheorems.StreamRoundTrip | internal/overlay/protocol/frame.go:129-307 | a list of frames written one after another is read back as the same list |
| FrameTheorems.DecodeLocal | internal/overlay/protocol/frame.go:218-307 | what follows a frame does not influence its decoding |
| FrameTheorems.DecodeConsumes | internal/overlay/protocol/frame.go:218-307 | the reported WireLength is what was taken: those bytes alone decode to the same frame with nothing left, and what follows them is untouched |
| FrameTheorems.PrefixRejected | internal/overlay/protocol/frame.go:219-246 | every strict prefix of accepted bytes is rejected for want of input |
| FrameTheorems.CutFrameRejected | internal/overlay/protocol/frame.go:150-169 | what a failed write leaves of a frame is rejected |
| FrameTheorems.AckArrivesUnchanged | internal/overlay/protocol/frame.go:184-199 | every acknowledgement that a receiver builds is accepted and arrives with the same ranges |
| FrameTheorems.DecodingNormalises | internal/overlay/protocol/frame.go:261-305 | encoding whatever was accepted and decoding again gives the same frame but for sum and length |
| FrameTheorems.ReproducesCanonical | internal/overlay/protocol/frame.go:144-200 | encoding a decoded frame gives the very same bytes if and only if they held no reserved bits and no surplus ranges |
| FrameTheorems.AlterationRejected | internal/overlay/protocol/frame.go:247-257 | an alteration within four bytes that leaves length and checksum flag standing makes Decode fail, for payloads of every length |
| FrameTheorems.TrailerAlterationRejected | internal/overlay/protocol/frame.go:247-257 | an alteration of the trailer alone makes Decode fail with a checksum mismatch |
| FrameTheorems.ClearedFlagAccepted | internal/overlay/protocol/frame.go:247 | clearing only the checksum flag is accepted and leaves the trailer in the stream |
| FrameLayout.AcceptedExactly | internal/overlay/protocol/frame.go:218-307 | what is accepted, byte by byte: version 1, at most 1 MiB, all of it there, a matching sum if flag bit 1 is set, and a body that fits type 1 to 4 |
| FrameLayout.RejectedWith | internal/overlay/protocol/frame.go:218-307 | every other input is rejected with the first fault in the order of reading |
| FrameLayout.FieldsRead | internal/overlay/protocol/frame.go:223-305 | every field of an accepted frame as a sum of its bytes, most significant first, the heartbeat in two's complement |
| FrameLayout.EncodedExactly | internal/overlay/protocol/frame.go:129-215 | which frames are encoded, and the error for every other one |
| FrameLayout.EncodeFills | internal/overlay/protocol/frame.go:129-170 | what Encode changes in the frame: version, length, and the sum it has written last |
| FrameIO.MakeAckPayload | internal/overlay/protocol/frame.go:188-200 | filling the buffer range by range gives the ACK payload, cut to four ranges |
| FrameIO.MakePayload | internal/overlay/protocol/frame.go:173-215 | the payload of every kind, or the error for a missing body or an unknown kind |
| FrameIO.MakeHeader | internal/overlay/protocol/frame.go:141-149 | filling the header at its offsets gives the header bytes |
| FrameIO.MakeTrailer | internal/overlay/protocol/frame.go:158-163 | two updates and one store give the trailer of header and payload together |
| FrameIO.CountingWriter.Write | internal/overlay/protocol/frame.go:327-331 | passes the bytes on, counts those taken, and fails when not all were |
| FrameIO.Outgoing.Encode | internal/overlay/protocol/frame.go:129-170 | writes exactly the encoded bytes and fills in version, sum and length; writes nothing for a frame it refuses; leaves a strict prefix when the connection fails |
| FrameIO.ReadAck | internal/overlay/protocol/frame.go:264-290 | length, count and range checks in the source's order |
| FrameIO.ReadHeader | internal/overlay/protocol/frame.go:223-230 | the fields of a header |
| FrameIO.ReadTrailer | internal/overlay/protocol/frame.go:246-260 | a trailer is accepted if and only if it is the sum |
| FrameIO.ReadBody | internal/overlay/protocol/frame.go:261-304 | the body of every kind, or its error |
| FrameIO.Decode | internal/overlay/protocol/frame.go:218-307 | reading step by step accepts and rejects as the function DecodeFrame does and stops at the end of the frame |

## Left out

- Sequence numbers do not wrap at 2^64; they are natural numbers.
- Streams.Stream.OnData: the pause between two turns of the retry loop is not modelled; that a refused frame would be retried for ever is said of the turns, not of a loop.
- Streams.Stream.Fail: the recorded error and the closing of the two connections are not part of the state.
- Streams.Stream.QueueFrame: a call that has to wait for credit is described only once it returns; waiting is a disabled step of the protocol.
- Windows.Window.Acquire: one turn of the waiting loop; sleeping and waking are not modelled.
- Streams.Stream.OnAck: pending entries are values, not shared pointers, so the aliasing of an entry between the pending list, the resend list and a send in progress is not captured; entries never repeat within a list.
- Streams.Stream.OnSendFailure: an entry is found by its value instead of by its pointer, for the same reason.
- ReorderBuffers.ReorderBuffer.SACKRanges: the library sort is replaced by insertion of each key into an ordered list.
- Streams.Stream.SendData: the choice of the subflow and the byte accounting of recordSend are not part of it.
- A connection without TLS on which a write has failed: that later frames are sent on it all the same, and complete the cut frame, is not modelled.
- SlidingHistory.SumSandwich: 64-bit overflow of the counted bytes is not modelled.
- Schedulers.WeightFromThroughput: real numbers stand in for doubles; that rounding leaves the weight as it is is proved beside it (RoundingKeepsWeight).
- Replacement.TargetKept: starts from an established session and ends before Close; the race of establishSubflows with early failures is not covered.
- FrameTheorems.AlterationRejected: says nothing about alterations of the length field, which move the trailer.
- FrameTheorems.DecodingNormalises: for control frames it speaks of the payload text, which the model keeps as it is.
- FrameIO.MakePayload: control payloads are text; marshalling them is not modelled.
- FrameIO.ReadBody: the errors of unmarshalling a control payload are not modelled, except for an empty one.
- JSON control payloads: kept as non-empty text, so JSON errors and the meaning of control messages are left out.
- Liveness under loss: a lost tail, lost credit and a lost empty end mark are not repaired by the code.
- Mutexes, condition variables, goroutines and the capacity of channels: atomic steps and queues instead.
- TLS, TCP, dialing, listening, the SOCKS handshake, signal handling and the commands under cmd: input and output plumbing.
- The text interface, snapshots and the per-stream throughput counter: presentation.
- The server's handling of INIT and JOIN, stream open and accept with its timeout: the code gives no strong guarantee there.
