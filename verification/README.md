# A verified model of the mock exchange's data path

This project models, in Dafny, how the mock exchange makes a tape, paces it, numbers it for each consumer and puts it
on the wire; how the verification probe reads it back; and the client algorithms that turn it into prices on a screen.
Run `dafny verify dfyconfig.toml` here to check all of it.

**Session to probe.** `SessionProtocol` is one consumer's session as a step system: any number of publishers, the pipe
reader, the backpressure handler and closers, interleaved between any two steps. A publisher that finds the session
behind reads the state, takes the numbers of what it withholds and counts them in three separate steps, because
`TryPublish` does so outside its lock; writing a batch, under the lock, is one. `SequenceLedger` is the fate of every
number. `SessionInvariants`, `SessionTheorems`, `SessionRecords`, `SessionGuarantees`, `SessionOnsets`, `SessionSchedules`,
`SessionOpening` and `SessionProgress` say what all runs keep, exactly which runs keep the rest, and what can always go on;
`SessionWitnesses` shows runs in which a comment of the implementation does not hold. `FeedSession` is the session as an object, valid while it is where its history of steps leads.
`Bytes`, `FeedRecords`, `FeedFrameWriter`, `FeedFrameReader` and `FrameStream` are the codec, `ProbeSession` the probe,
`EndToEnd` all three together, and `FeedServer` the slot accounting and fan-out around the sessions.

**Tape.** `AliasTable` and `WeightedSymbolPicker` are Vose's construction, with both stacks in one buffer, over exact
reals; `BoundedDraw` the bounded draws and `PickedDraws` what the table gives over all of them; `SymbolWalk`, `WalkStep`,
`WalkCoins`, `WalkRuns` and `RandomWalkGenerator` the fixed-point walk: one event, all the draws of one event, one
instrument and all of them on one tape.

**Pacing.** `PacingLog` and `RateGovernor` are the governor against a log of its batches, `MarketSessionClock` the rate it
is fed, `FeedPublisherService` the loop, `RollingRateWindow` the bucket ring against a log of everything added.

**Client.** `EditDistance`, `MarketStore`, `TickDispatcher`, and the scaled-integer decimals in `DecimalDigits`, `Decimals`,
`DecimalFormat`, `DecimalDisplay` and `CompactFormat`. `Divisibility` holds the shared facts about multiples.

Doubles are reals, integers are unbounded except where a width is written out, clock readings and random draws are
arguments, and a pipe is a sequence of frames with the pause and resume thresholds its documentation gives.

## Where the code and its comments differ

The model follows the code. These are proved, each with a concrete run or an exact condition.

- Under Disconnect a consumer can be sent 1, 2, 4 on a session that stays open (`SessionWitnesses.DisconnectCanLeakAGap`).
  `FeedSession.cs` lines 482-496 promise a complete tape. The tape is complete exactly when no batch is accepted after a
  late skip, one whose numbers are taken once the recovering handler has compared the counters, or were taken but not
  yet counted when it did (`SessionSchedules.CompleteTapeExactlyWhen`). It is enough that no unlocked skip straddles a
  recovery (`CompleteTapeWhenOrderly`), and that is not necessary: a late skip only shows once a batch follows it
  (`DisorderNeedNotShow`). Making the read and the skip one step would not be enough (`ReadAndSkipTogetherStillLeaks`);
  making the skip under the gate is (`CompleteTapeWhenGated`).
- A heartbeat is documented to say that everything up to its number left the process (`FeedSession.cs` lines 712-719). All
  of it did exactly when nothing numbered is unsent and no number up to that one was skipped, discarded or voided
  (`HeartbeatVouchesExactlyWhen`). Less than that, that its number is the last one sent, holds exactly when nothing is
  waiting and that one record was not discarded (`HeartbeatIsLastSentExactlyWhen`).
- A DropOldest discard can take the session-start frame (`DiscardCanTakeTheOpening`), and the probe then refuses the
  connection (`LostOpeningFailsTheHandshake`). It does exactly when it finishes before anything has been sent
  (`DiscardTakesOpeningExactlyWhen`, over whole runs `OpeningLostExactlyWhen`).
- The band limit is not dead code at full reversion strength, as `GenerationOptions.cs` line 91 says
  (`FullStrengthStillClamps`). From any reset, at any strength, it is dead exactly when `MaxTickMove` is zero
  (`ClampIsDeadExactlyWhen`).
- The deviation is not always bounded by the span, as `SymbolState.cs` lines 66-67 say (`DeviationCanExceedSpan`). Over
  all runs of draws from a reset it is exactly when `MaxTickMove` is zero or the reset did not push the band up
  (`DeviationWithinSpanExactlyWhen`), and twice the span is always enough for 64 bits (`ReversionNeverOverflows`).
- The pending fraction is not always below one (`PendingFractionCanExceedOne`). Over all runs at rates up to a top rate
  it is exactly when the longest batch made up at that rate earns at most 2^31 - 1 events
  (`PendingBelowOneExactlyWhen`).
- Quantities are not always multiples of the lot, as `SymbolState.cs` line 74 says (`QuantityCanBreakTheLot`): an order of
  more than 2^32 - 1 wraps, and is then whole lots exactly when what wrapped away is (`QuantityIsWholeLotsExactlyWhen`).
- A count added after the clock has stepped back by a whole ring lands in another bucket's slot
  (`AddRefinesExactlyWhen`).
- A snapshot applied while a tick for its symbol is pending ends with that tick's quantity on top of its volume
  (`SnapshotOverPendingOvercounts`) and with that tick's older price. Over any run a volume is right exactly when the last
  snapshot overtook no quantity (`VolumeRightExactlyWhen`), a price and stream exactly when it overtook no tick that says
  otherwise, or a tick has come since (`QuoteRightExactlyWhen`).

## Model

| member | source | states |
|---|---|---|
| SessionTheorems.EveryNumberAccountedFor | src/Tckr.MockExchange/Feed/FeedSession.cs:213-397 | in every reachable state every number handed out was delivered, is still unsent, or was skipped, discarded or voided in a counted way; the stream is strictly increasing and lacks exactly the lost numbers |
| SessionTheorems.ValidBatchesVoidNothing | src/Tckr.MockExchange/Feed/FeedSession.cs:246-258 | along any run without an encoding failure no number is voided, so loss is skips and discards alone |
| SessionRecords.RecordsAreThoseOffered | src/Tckr.MockExchange/Feed/FeedSession.cs:348-366 | whatever is delivered or waiting under a number is the record some accepted batch put there |
| SessionTheorems.CompleteTapeBatchByBatch | src/Tckr.MockExchange/Feed/FeedSession.cs:337-366 | under Disconnect the stream is 1..n if and only if every accepted batch was accepted with no number burned since the last one queued |
| SessionSchedules.CompleteTapeExactlyWhen | src/Tckr.MockExchange/Feed/FeedSession.cs:471-515 | under Disconnect the stream is 1..n if and only if no batch is accepted after a late skip: one whose numbers are taken once the recovering handler has compared the counters, or were taken but not counted when it did |
| SessionSchedules.CompleteTapeWhenOrderly | src/Tckr.MockExchange/Feed/FeedSession.cs:229-234 | under Disconnect, with unlocked skips as the code makes them and none straddling a recovery, the stream and what was delivered are 1..n, and a session that has skipped anything is not Running |
| SessionSchedules.CompleteTapeWhenGated | src/Tckr.MockExchange/Feed/FeedSession.cs:482-496 | so it is when every skip is made inside the write gate |
| SessionSchedules.DisorderNeedNotShow | src/Tckr.MockExchange/Feed/FeedSession.cs:478-514 | the converse fails: a reachable run with a straddling skip whose stream is still 1..n, on a session that is Running although it withheld a record |
| SessionSchedules.LossEndsTheTape | src/Tckr.MockExchange/Feed/FeedSession.cs:482-496 | wherever in a run with no straddling skip a record has been counted as withheld, nothing is queued in the rest of the run and the session is not Running at its end |
| SessionSchedules.NothingQueuedAfterLoss | src/Tckr.MockExchange/Feed/FeedSession.cs:482-496 | the same from any settled state with a counted loss |
| SessionTheorems.UninterruptedSkipIsGated | src/Tckr.MockExchange/Feed/FeedSession.cs:229-234 | an unlocked skip with nothing in between, and no recovery half done, has exactly the effect of one under the gate |
| SessionWitnesses.DisconnectCanLeakAGap | src/Tckr.MockExchange/Feed/FeedSession.cs:229-234 | a reachable run in which a consumer under Disconnect is sent 1, 2, 4 on a session that stays Running: the skip, made outside the gate, lands after recovery |
| SessionWitnesses.ReadAndSkipTogetherStillLeaks | src/Tckr.MockExchange/Feed/FeedSession.cs:478-514 | the same gap with read, burn and count back to back, between the comparison of the counters and the write of the state: one atomic read-and-skip is not enough, the skip has to be under the gate |
| SessionWitnesses.DiscardCanTakeTheOpening | src/Tckr.MockExchange/Feed/FeedSession.cs:596-604 | a reachable run under DropOldest in which the discard takes the session-start frame and a heartbeat then vouches for record 2 although nothing was delivered |
| SessionInvariants.InvKept | src/Tckr.MockExchange/Feed/FeedSession.cs:213-521 | every step of publisher, handler, reader and closer keeps the session invariant: shape of the pipe, place of the opening frame, accounts, control state and discard marks |
| SessionInvariants.InvReachable | src/Tckr.MockExchange/Feed/FeedSession.cs:213-521 | the invariant holds after every run from a new session |
| SessionInvariants.DivisionCountsTicks | src/Tckr.MockExchange/Feed/FeedSession.cs:598-601 | the length of any buffer the pipe can hold, divided by the tick frame size, is exactly its number of ticks, with or without the shorter session-start frame in front |
| SessionInvariants.DropAccounts | src/Tckr.MockExchange/Feed/FeedSession.cs:596-604 | a discard removes a whole-frame prefix, counts exactly its ticks, and leaves the accounts true |
| SessionGuarantees.RequestBelongsToItsEpisode | src/Tckr.MockExchange/Feed/FeedSession.cs:403-469 | a discard request is only ever set under DropOldest, while the session is not running and nothing has been queued since its onset |
| SessionGuarantees.DiscardStaysInItsEpisode | src/Tckr.MockExchange/Feed/FeedSession.cs:466-469 | a discard in progress, however late it finishes, changes the fate of no record numbered after its own onset |
| SessionOnsets.OnsetRaisesRequest | src/Tckr.MockExchange/Feed/FeedSession.cs:368-412 | a batch puts a session behind if and only if it fills the pipe of a live reader, and the request is then raised if and only if the policy is DropOldest, whatever was skipped before; any other batch leaves it alone |
| SessionOnsets.RequestStandsExactlyWhen | src/Tckr.MockExchange/Feed/FeedSession.cs:403-469 | over every run the request stands if and only if the policy is DropOldest and the run is between an onset and the first exchange or clearing after it |
| SessionOnsets.BufferIsDiscardedExactlyWhen | src/Tckr.MockExchange/Feed/FeedSession.cs:596-616 | a buffer is thrown away if and only if it is, under DropOldest, the first taken in such a stretch; every other buffer is sent |
| SessionProgress.SlowConsumerCanBeGivenUp | src/Tckr.MockExchange/Feed/FeedSession.cs:425-437 | under either policy a consumer still waited for can be closed by the timeout |
| SessionProgress.HandlerCanFinish | src/Tckr.MockExchange/Feed/FeedSession.cs:418-521 | wherever the handler is, its own steps bring it to an end |
| SessionProgress.PipeCanBeSent | src/Tckr.MockExchange/Feed/FeedSession.cs:596-616 | without a request everything waiting can go out in order at once |
| SessionProgress.IdleSessionCanBeat | src/Tckr.MockExchange/Feed/FeedSession.cs:709-729 | an idle live session can always send a heartbeat with the last number queued |
| SessionGuarantees.HeartbeatVouchesExactlyWhen | src/Tckr.MockExchange/Feed/FeedSession.cs:709-729 | everything up to the last number queued was handed to the socket if and only if nothing numbered is unsent and no number up to it was skipped, discarded or voided; equally, if and only if that many records were delivered |
| SessionGuarantees.HeartbeatIsLastSentExactlyWhen | src/Tckr.MockExchange/Feed/FeedSession.cs:709-729 | the last number queued is the last one delivered if and only if nothing numbered is waiting and that record was not discarded |
| SessionOpening.DiscardTakesOpeningExactlyWhen | src/Tckr.MockExchange/Feed/FeedSession.cs:596-604 | a discard takes the session-start frame if and only if nothing has been sent when it finishes |
| SessionOpening.OpeningLostExactlyWhen | src/Tckr.MockExchange/Feed/FeedSession.cs:596-604 | after any run the session-start frame is lost if and only if some discard finished with nothing sent before it |
| SessionOpening.OpeningIsFirstExactlyWhen | src/Tckr.MockExchange/Feed/FeedSession.cs:170-199 | the first item delivered is the session start if and only if no discard finished before anything was sent, and there is never a second one |
| SessionOpening.DisconnectOpens | src/Tckr.MockExchange/Feed/FeedSession.cs:403-414 | under Disconnect the session-start frame is never lost |
| SessionGuarantees.BacklogStaysBounded | src/Tckr.MockExchange/Feed/FeedSession.cs:371-395 | in every reachable state the pipe holds less than the buffer plus one largest batch, and less than the buffer while the session is Running |
| SessionGuarantees.ResumesBelowHalf | src/Tckr.MockExchange/Feed/FeedSession.cs:499-514 | a session goes back to running only with its pipe drained below half of its buffer |
| SessionGuarantees.BacklogIsBounded | src/Tckr.MockExchange/Feed/FeedSession.cs:371-395 | the bound, with the one below which a session resumes, is kept along any run from any state that has it |
| SequenceLedger.SurvivorsAreTheQueued | src/Tckr.MockExchange/Feed/FeedSession.cs:349-350 | the numbers a consumer can still get, in order, are exactly those whose fate is Queued |
| SequenceLedger.TotalsAddUp | src/Tckr.MockExchange/Feed/FeedSession.cs:320-361 | the totals of the four fates add up to all numbers handed out |
| SequenceLedger.ContiguousMeansNoneLost | src/Tckr.MockExchange/Feed/FeedSession.cs:482-496 | the survivors are 1..n if and only if no lost number precedes a queued one |
| SequenceLedger.DiscardRemovesSurvivors | src/Tckr.MockExchange/Feed/FeedSession.cs:596-604 | discarding a run of survivors removes exactly that run from them |
| FeedSession.FeedSession.Took | src/Tckr.MockExchange/Feed/FeedSession.cs:213-521 | a step that leads from where the history of the object ends to its present state keeps it valid, so the run theorems hold of the object |
| FeedSession.FeedSession.DropsAreAccountedFor | src/Tckr.MockExchange/Feed/FeedSession.cs:158 | the public drop counter and what is between burning and counting are all that was skipped and discarded; with what was sent, what waits and what a fault voided, every number handed out |
| FeedSession.FeedSession.Start | src/Tckr.MockExchange/Feed/FeedSession.cs:170-199 | the session-start frame is queued once, before any batch |
| FeedSession.FeedSession.SkipLocked | src/Tckr.MockExchange/Feed/FeedSession.cs:320-335 | while backpressured the drop counter and the numbers both move on by the batch; otherwise nothing does |
| FeedSession.FeedSession.SkipUnlocked | src/Tckr.MockExchange/Feed/FeedSession.cs:229-234 | the three unlocked steps in a row have the same effect and leave nothing half counted |
| FeedSession.FeedSession.BurnNumbers | src/Tckr.MockExchange/Feed/FeedSession.cs:327 | the unlocked skip first takes the numbers, and the drop counter does not move yet |
| FeedSession.FeedSession.CountSkipped | src/Tckr.MockExchange/Feed/FeedSession.cs:328 | the drop counter then grows by them in a step of its own |
| FeedSession.FeedSession.NumberRecords | src/Tckr.MockExchange/Feed/FeedSession.cs:348-361 | a batch is numbered upwards from the shared counter |
| FeedSession.FeedSession.WriteBatchLocked | src/Tckr.MockExchange/Feed/FeedSession.cs:337-412 | the batch joins the pipe under the next numbers, nothing is dropped, the session falls behind if and only if its buffer is full, and then asks for a discard if and only if the policy is DropOldest and marks what was skipped and queued so far |
| FeedSession.FeedSession.TryPublish | src/Tckr.MockExchange/Feed/FeedSession.cs:213-269 | the whole batch is queued or none of it; the drop counter grows by it if and only if the session was behind; the whole new state for every branch |
| FeedSession.FeedSession.DecideRecovery | src/Tckr.MockExchange/Feed/FeedSession.cs:471-496 | under the gate: give up if and only if closing, evict if and only if Disconnect and something was counted since the onset, else recover |
| FeedSession.FeedSession.CompleteRecovery | src/Tckr.MockExchange/Feed/FeedSession.cs:499-514 | the state returns to Running |
| FeedSession.FeedSession.DisconnectSlow | src/Tckr.MockExchange/Feed/FeedSession.cs:523-545 | a slow consumer is closed |
| FeedSession.FeedSession.TakeBuffer | src/Tckr.MockExchange/Feed/FeedSession.cs:596-607 | the exchange clears the request; a buffer marked for discard holds nothing queued since the session fell behind |
| FeedSession.FeedSession.SendAll | src/Tckr.MockExchange/Feed/FeedSession.cs:607-616 | the held frames are sent in order and leave the pipe |
| FeedSession.FeedSession.DiscardAll | src/Tckr.MockExchange/Feed/FeedSession.cs:598-604 | the drop counter grows by exactly the ticks in the buffer, although it is computed from the length of the buffer over 44 |
| FeedSession.FeedSession.SendHeartbeat | src/Tckr.MockExchange/Feed/FeedSession.cs:720-729 | a heartbeat carries the last number queued, and no number above it was ever sent |
| FeedSession.FeedSession.Finish | src/Tckr.MockExchange/Feed/FeedSession.cs:860-889 | the reader stops, what it had not sent stays unsent, and the state is Closing, written outside the gate |
| FeedSession.FeedSession.BeginClose | src/Tckr.MockExchange/Feed/FeedSession.cs:781-805 | only the first close request takes effect |
| EndToEnd.ConsumerSeesExactlyTheLoss | tools/Tckr.FeedProbe/ProbeSession.cs:444-483 | for every run and whatever part of its stream arrives, in any chunks: no session if no frame is whole; a refused handshake if a discard took the session start; and otherwise no integrity violation, no framing error, lost plus received is the last number seen, never more lost than the session lost, and exactly that when the last record offered arrived |
| EndToEnd.LostAtMostDropped | tools/Tckr.FeedProbe/ProbeSession.cs:444-483 | without encoding faults and with no skip half made the probe, whenever it accepts the session, never counts more lost than the session reports dropped, and exactly that when the last record offered arrived |
| EndToEnd.ConsumerGetsTheRecords | tools/Tckr.FeedProbe/ProbeSession.cs:417-483 | every tick frame the consumer decodes is the record an accepted batch put under its number, changed in the number alone |
| EndToEnd.LostOpeningFailsTheHandshake | tools/Tckr.FeedProbe/ProbeSession.cs:162-198 | when a discard took the session-start frame the probe refuses the connection at the first whole frame |
| EndToEnd.ExitCodeMeans | tools/Tckr.FeedProbe/ProbeSession.cs:676-692 | for every report and pair of rates: 3 if and only if there was no session, 1 if and only if there was one whose tape cannot be trusted, 2 if and only if it can but the rate is off by more than two in a hundred of a set target, 0 otherwise |
| EndToEnd.TapeFailsExactlyOnLoss | tools/Tckr.FeedProbe/ProbeSession.cs:676-692 | for every run and whatever arrives of it, in any chunks: 3 if and only if no frame arrived whole; else 1 if and only if a discard took the session start, or a record below the last one received is missing and drops were not expected; else 2 if and only if the rate was off; else 0 |
| EndToEnd.DisconnectPassesTheProbe | tools/Tckr.FeedProbe/ProbeSession.cs:676-692 | under Disconnect with no skip straddling a recovery, whatever arrives in whatever chunks: no session and 3 if and only if nothing whole arrived, and otherwise no loss and 0, or 2 when the rate was off |
| EndToEnd.SeeItems | tools/Tckr.FeedProbe/ProbeSession.cs:444-483 | over any rising stream the tally stays balanced and ends at the last number |
| ProbeSession.SeeAllConcat | tools/Tckr.FeedProbe/ProbeSession.cs:417-442 | dispatching frames in two parts is dispatching them at once |
| ProbeSession.ViolationExactlyWhen | tools/Tckr.FeedProbe/ProbeSession.cs:444-483 | a violation is recorded if and only if some number does not go up from the one before it |
| ProbeSession.GapsAreTheMissing | tools/Tckr.FeedProbe/ProbeSession.cs:444-483 | on numbers that go up the gaps recorded are exactly the numbers passed over, while there is room to record them |
| ProbeSession.FramingErrorExactlyWhen | tools/Tckr.FeedProbe/ProbeSession.cs:417-442 | after an accepted session start there is a framing error if and only if the bytes were corrupt or some later frame is neither a tick nor a heartbeat that decodes |
| ProbeSession.FailsExactlyWhen | tools/Tckr.FeedProbe/ProbeSession.cs:417-442 | frames are dispatched without failure if and only if all are acceptable, and then every tick, every heartbeat and every byte of them is counted |
| ProbeSession.ProbeSession.HandleTick | tools/Tckr.FeedProbe/ProbeSession.cs:444-483 | sequence accounting of one tick, including the caps on recorded gaps and violations |
| ProbeSession.ProbeSession.ProcessBuffer | tools/Tckr.FeedProbe/ProbeSession.cs:417-442 | every whole frame in the buffer is dispatched, up to the first that fails, and the rest is left |
| ProbeSession.ProbeSession.Establish | tools/Tckr.FeedProbe/ProbeSession.cs:162-198 | the first whole frame has to be a session start |
| ProbeSession.ProbeSession.Run | tools/Tckr.FeedProbe/ProbeSession.cs:162-198 | for any chunking of the bytes the report is the one the whole frame sequence deserves |
| FeedFrameReader.PayloadIsReadExactlyWhen | src/Tckr.MockExchange/Protocol/FeedFrameReader.cs:50-104 | bytes behind their length are read as a frame if and only if they are of the current version and the size their type fixes, and then whole, leaving what follows; otherwise they are corrupt |
| FeedFrameReader.DecodeEncodedTick | src/Tckr.MockExchange/Protocol/FeedFrameReader.cs:109-142 | a written tick reads back as the record it was if and only if its symbol field is well padded |
| FeedFrameReader.EncodeDecodedTick | src/Tckr.MockExchange/Protocol/FeedFrameReader.cs:109-142 | any payload the reader accepts is the one the writer would write for that record |
| FeedFrameReader.DecodeEncodedFrame | src/Tckr.MockExchange/Protocol/FeedFrameReader.cs:109-191 | ticks, heartbeats and session starts all read back |
| FeedFrameReader.ReadEncodedFrame | src/Tckr.MockExchange/Protocol/FeedFrameReader.cs:50-104 | a written frame followed by anything is read whole, leaving what follows |
| FeedFrameReader.PartialFrameNeedsMore | src/Tckr.MockExchange/Protocol/FeedFrameReader.cs:50-66 | every proper prefix of a written frame asks for more bytes |
| FeedFrameReader.VerdictIsStable | src/Tckr.MockExchange/Protocol/FeedFrameReader.cs:50-104 | a verdict on a buffer does not change when more bytes arrive |
| FeedFrameReader.ReadFrameIsItsBytes | src/Tckr.MockExchange/Protocol/FeedFrameReader.cs:68-104 | a frame read is exactly its bytes, with the size its type fixes |
| FeedFrameReader.WrittenFrameReadsBack | src/Tckr.MockExchange/Protocol/FeedFrameReader.cs:50-191 | what the writer of any frame type stores anywhere in a span is read there whole, leaves what is behind it, and decodes to that frame |
| FeedFrameReader.PayloadHoldsFields | src/Tckr.MockExchange/Protocol/FeedFrameWriter.cs:50-75 | where each field of a tick is on the wire, and in which byte order |
| FeedFrameReader.HeartbeatLayout | src/Tckr.MockExchange/Protocol/FeedFrameWriter.cs:86-101 | the same of a heartbeat |
| FeedFrameReader.SessionStartLayout | src/Tckr.MockExchange/Protocol/FeedFrameWriter.cs:108-129 | and of a session start, with its identifier most significant byte first |
| FrameStream.ChunkingIsInvisible | src/Tckr.MockExchange/Protocol/FeedFrameReader.cs:50-104 | for any bytes and any split into chunks, reading chunk by chunk gives the frames of the whole |
| FrameStream.DrainEncodedPrefix | src/Tckr.MockExchange/Protocol/FeedFrameReader.cs:50-104 | of any cut of an encoded frame list exactly the whole frames are read and the part left over is kept |
| FrameStream.StreamRoundTrip | src/Tckr.MockExchange/Protocol/FeedFrameReader.cs:50-191 | any frame list, encoded and split anyhow, comes back in order and decodes to itself |
| FeedFrameWriter.WriteTick | src/Tckr.MockExchange/Protocol/FeedFrameWriter.cs:50-75 | the span holds the encoding of the record and nothing else is touched, or is too small and is left alone |
| FeedFrameWriter.WriteHeartbeat | src/Tckr.MockExchange/Protocol/FeedFrameWriter.cs:86-101 | likewise for a heartbeat |
| FeedFrameWriter.WriteSessionStart | src/Tckr.MockExchange/Protocol/FeedFrameWriter.cs:108-129 | likewise for a session start, with the id in the byte order of section 4.1.2 of RFC 4122 |
| FeedRecords.DecodeSymbol | src/Tckr.MockExchange/Protocol/FeedRecord.cs:80-118 | a field decodes if and only if it is one to eight printable characters and padding, and keeps its bytes |
| FeedRecords.FromAscii | src/Tckr.MockExchange/Protocol/FeedRecord.cs:45-72 | the field holds the padded text, or the rule it breaks is reported |
| FeedRecords.FromWire | src/Tckr.MockExchange/Protocol/FeedRecord.cs:80-118 | the scanning loop accepts exactly what the rules accept |
| FeedRecords.SymbolFieldsNameOneText | src/Tckr.MockExchange/Protocol/FeedRecord.cs:136-148 | two valid symbols are equal if and only if their texts are |
| Bytes.ValueOfLittleEndian | src/Tckr.MockExchange/Protocol/FeedFrameWriter.cs:60-72 | little-endian bytes of a number read back as the number |
| Bytes.LittleEndianOfValue | src/Tckr.MockExchange/Protocol/FeedFrameReader.cs:120-141 | and the number of some bytes writes back as them |
| Bytes.LittleEndianAt | src/Tckr.MockExchange/Protocol/FeedFrameWriter.cs:60-72 | the byte at each place is the one that many powers of 256 up |
| Bytes.BigEndianAt | src/Tckr.MockExchange/Protocol/FeedFrameWriter.cs:108-129 | and from the other end where the most significant byte comes first |
| FeedServer.SlotStepKeeps | src/Tckr.MockExchange/Feed/FeedServer.cs:264-388 | no interleaving of admissions and closes breaks the slot accounting, and a slot already returned is not returned again |
| FeedServer.RosterWithinLimit | src/Tckr.MockExchange/Feed/FeedServer.cs:264-335 | the roster never exceeds the limit or holds a session twice, and with nothing in flight the counter is the roster |
| FeedServer.TurnedAwayOnlyWhenFull | src/Tckr.MockExchange/Feed/FeedServer.cs:274-281 | a connection is turned away for room only when all places are taken by sessions or admissions in flight |
| FeedServer.FeedServer.Admit | src/Tckr.MockExchange/Feed/FeedServer.cs:264-335 | the session is rostered and started if and only if the server runs, has a place, and neither set-up nor start fails; otherwise counter and roster are as they were |
| FeedServer.FeedServer.EnrollSession | src/Tckr.MockExchange/Feed/FeedServer.cs:306-319 | a session joins the roster, or gives its slot back when the server has stopped |
| FeedServer.FeedServer.UndoCount | src/Tckr.MockExchange/Feed/FeedServer.cs:285-302 | a failed set-up gives its slot back |
| FeedServer.FeedServer.OnSessionClosed | src/Tckr.MockExchange/Feed/FeedServer.cs:366-388 | the first close takes the session out and returns its slot; repeated ones change nothing |
| FeedServer.FeedServer.Publish | src/Tckr.MockExchange/Feed/FeedServer.cs:133-156 | every rostered session is offered the batch once and ends as it would have alone, whatever state the others are in, and the count is of those that could take it |
| AliasTable.PairKeepsMass | src/Tckr.MockExchange/Reference/WeightedSymbolPicker.cs:103-122 | giving a large bucket a small one's shortfall keeps, for every outcome, own mass plus donations, and the mean of what is open |
| AliasTable.CloseKeepsMass | src/Tckr.MockExchange/Reference/WeightedSymbolPicker.cs:126-131 | closing a bucket that holds one unit onto itself changes no mass |
| WeightedSymbolPicker.CheckWeights | src/Tckr.MockExchange/Reference/WeightedSymbolPicker.cs:51-70 | the weights are totalled, or the first one not above zero is named |
| WeightedSymbolPicker.PairKeepsStacks | src/Tckr.MockExchange/Reference/WeightedSymbolPicker.cs:103-122 | popping from both stacks and pushing the large bucket back keeps them apart, complete and sorted by size |
| WeightedSymbolPicker.LeftoversAreExact | src/Tckr.MockExchange/Reference/WeightedSymbolPicker.cs:124-138 | when either stack runs out the small one is empty and everything open holds exactly one unit |
| WeightedSymbolPicker.Partition | src/Tckr.MockExchange/Reference/WeightedSymbolPicker.cs:85-101 | every bucket is put on the stack its weight belongs to, in one buffer |
| WeightedSymbolPicker.PairOnce | src/Tckr.MockExchange/Reference/WeightedSymbolPicker.cs:103-122 | one pairing on the arrays, stated as their whole new contents |
| WeightedSymbolPicker.PairUp | src/Tckr.MockExchange/Reference/WeightedSymbolPicker.cs:103-123 | the pairing loop ends with no small bucket left and exact leftovers |
| WeightedSymbolPicker.CloseUp | src/Tckr.MockExchange/Reference/WeightedSymbolPicker.cs:124-138 | every bucket is built; the last loop never runs |
| WeightedSymbolPicker.WeightedSymbolPicker.constructor | src/Tckr.MockExchange/Reference/WeightedSymbolPicker.cs:51-139 | in exact arithmetic every outcome's own share plus donations is its weight over the mean weight |
| WeightedSymbolPicker.ToThreshold | src/Tckr.MockExchange/Reference/WeightedSymbolPicker.cs:167-176 | the coin threshold is within one coin of the share |
| WeightedSymbolPicker.CoinsOfBucket | src/Tckr.MockExchange/Reference/WeightedSymbolPicker.cs:162-164 | a bucket gives an outcome all of its 2^32 coins or its share of them to within one |
| WeightedSymbolPicker.OutcomesFollowMass | src/Tckr.MockExchange/Reference/WeightedSymbolPicker.cs:144-164 | over all buckets and coins each outcome comes up in proportion to its mass, to within one coin per shared bucket |
| PickedDraws.DrawsFollowMass | src/Tckr.MockExchange/Reference/WeightedSymbolPicker.cs:158-164 | of all 2^64 draws, bucket by multiply-shift and coin, each outcome gets its mass's share, to within one high half per coin and one coin per shared bucket |
| WeightedSymbolPicker.WeightedSymbolPicker.Next | src/Tckr.MockExchange/Reference/WeightedSymbolPicker.cs:158-164 | the high half picks the bucket, the low half is its coin |
| BoundedDraw.RejectionIsExactlyUniform | src/Tckr.MockExchange/Generation/Xoshiro256StarStar.cs:120-141 | every outcome has exactly floor(2^32 / range) accepted draws |
| BoundedDraw.LemireIsNearlyUniform | src/Tckr.MockExchange/Generation/RandomWalkGenerator.cs:488 | without rejection every outcome has the floor or the ceiling of 2^32 / outcomes draws |
| BoundedDraw.ThresholdIsRemainder | src/Tckr.MockExchange/Generation/Xoshiro256StarStar.cs:128-132 | the threshold is 2^32 mod range |
| BoundedDraw.NextInt | src/Tckr.MockExchange/Generation/Xoshiro256StarStar.cs:120-141 | the outcome of the first accepted draw; none only if no draw is accepted |
| SymbolWalk.OpenedIsSound | src/Tckr.MockExchange/Generation/RandomWalkGenerator.cs:199-259 | a reset leaves an on-grid band around the anchor, wide enough for any quote and at least one tick above zero |
| SymbolWalk.SpanIsTheShare | src/Tckr.MockExchange/Generation/RandomWalkGenerator.cs:211-236 | the half-width is the basis-point share of the anchor cut to whole ticks, unless the widest quote needs more |
| SymbolWalk.SnapToTick | src/Tckr.MockExchange/Generation/RandomWalkGenerator.cs:491-495 | a price snaps to the nearest tick, never below one |
| SymbolWalk.ReversionNeverOverflows | src/Tckr.MockExchange/Generation/RandomWalkGenerator.cs:294-302 | in every sound state the deviation is at most twice the span, both products fit 64 bits and the threshold lies in [2^31, 2^32] |
| SymbolWalk.ReversionGrows | src/Tckr.MockExchange/Generation/RandomWalkGenerator.cs:294-302 | the threshold never falls as the deviation grows |
| SymbolWalk.PullIsTheFraction | src/Tckr.MockExchange/Generation/SymbolState.cs:60-70 | inside the span the reciprocal never pulls harder than deviation over span, is within two units of 2^-31 of it on prices below 2^32, and never reaches one |
| WalkStep.MidIsContinuous | src/Tckr.MockExchange/Generation/RandomWalkGenerator.cs:304-320 | the mid stays on grid and in band and moves by at most MaxTickMove ticks |
| WalkStep.QuoteFitsTheBand | src/Tckr.MockExchange/Generation/RandomWalkGenerator.cs:322-348 | after at most one shift the quote has the drawn spread and lies in the band |
| WalkStep.QuoteSurroundsMid | src/Tckr.MockExchange/Generation/RandomWalkGenerator.cs:322-348 | the quote is always around the mid: in its middle, the odd tick below, where the band has room, and else at the edge |
| WalkCoins.PriceReverts | src/Tckr.MockExchange/Generation/RandomWalkGenerator.cs:294-304 | off its anchor a price goes back on one half of the coins and, on top, one half times the strength times the share of the span it has gone, to within two coins and one for every 2^32 of deviation |
| WalkCoins.CoinDecidesDirection | src/Tckr.MockExchange/Generation/RandomWalkGenerator.cs:294-320 | on those coins it goes the whole drawn move towards the anchor, on all others as far away from it, and only the band stops it |
| WalkCoins.AnchorIsFair | src/Tckr.MockExchange/Generation/RandomWalkGenerator.cs:294-320 | at its anchor it goes up on one half of the coins and, where there is room, down on the other |
| WalkCoins.MovesAndSpreadsAreFair | src/Tckr.MockExchange/Generation/RandomWalkGenerator.cs:288-326 | every move up to the largest and every spread between the narrowest and the widest has the floor or ceiling of its share of the draws |
| WalkCoins.LotsAreFair | src/Tckr.MockExchange/Generation/RandomWalkGenerator.cs:350-354 | so has every ordinary order, and on a block coin every block |
| WalkCoins.TradePricesAreFair | src/Tckr.MockExchange/Generation/RandomWalkGenerator.cs:356-385 | and a trade at every tick from the bid to the ask |
| WalkCoins.KindsHaveTheirShare | src/Tckr.MockExchange/Generation/RandomWalkGenerator.cs:356-406 | trades, bids and asks come up on as many coins as their thresholds say |
| WalkStep.EventIsFair | src/Tckr.MockExchange/Generation/RandomWalkGenerator.cs:275-406 | every event's price is positive, on grid, in band and between bid and ask, with bid below ask |
| WalkStep.QuantityIsWholeLotsExactlyWhen | src/Tckr.MockExchange/Generation/RandomWalkGenerator.cs:350-354 | the quantity is the drawn lots if and only if the order fits 32 bits; a wrapped one is whole lots if and only if what wrapped away is |
| WalkRuns.QuantityCanBreakTheLot | src/Tckr.MockExchange/Generation/SymbolState.cs:74 | within the options an order of lots of a hundred wraps to 4,294,967,196 shares, no multiple of the lot |
| WalkStep.EventKeepsSound | src/Tckr.MockExchange/Generation/RandomWalkGenerator.cs:275-406 | an event keeps the state sound |
| WalkRuns.EveryEventIsFair | src/Tckr.MockExchange/Generation/RandomWalkGenerator.cs:199-406 | over any draws and any number of resets every event is fair |
| WalkRuns.PricesWalk | src/Tckr.MockExchange/Generation/RandomWalkGenerator.cs:199-320 | between any two moments of a run the mid is within MaxTickMove ticks per step |
| WalkRuns.TradesAreKept | src/Tckr.MockExchange/Generation/RandomWalkGenerator.cs:356-385 | over any events of a session the trades of the day are counted, in 32 bits, and the last one's price is kept |
| WalkRuns.ClampIsDeadExactlyWhen | src/Tckr.MockExchange/Options/GenerationOptions.cs:85-97 | from any reset and at any reversion strength, no event of any run of draws hits the band limit if and only if MaxTickMove is zero |
| WalkRuns.ClampFiresExactlyWhen | src/Tckr.MockExchange/Options/GenerationOptions.cs:85-97 | from a given state some draws take the next event to the band limit if and only if an edge it may move towards is nearer than the largest move |
| WalkRuns.AwayIsAlwaysPossible | src/Tckr.MockExchange/Options/GenerationOptions.cs:85-97 | inside the span the price may move away at any strength, full strength included |
| WalkRuns.FullStrengthStillClamps | src/Tckr.MockExchange/Options/GenerationOptions.cs:90-93 | a concrete run at full strength in which the band limit fires: it is not dead code |
| WalkRuns.DeviationWithinSpanExactlyWhen | src/Tckr.MockExchange/Generation/SymbolState.cs:64-70 | over every run of draws from a reset the deviation stays within the span if and only if MaxTickMove is zero or the band was not pushed up |
| WalkRuns.DeviationCanExceedSpan | src/Tckr.MockExchange/Generation/SymbolState.cs:64-70 | two draws from the opening state at the smallest price take the deviation past the span |
| RandomWalkGenerator.EveryTapeEventIsFair | src/Tckr.MockExchange/Generation/RandomWalkGenerator.cs:190-406 | whatever events and resets come before, every event of a tape over many instruments is fair to the one drawn and moves no other; a reset produces none and moves no mid |
| RandomWalkGenerator.EachWalksAlone | src/Tckr.MockExchange/Generation/RandomWalkGenerator.cs:190-406 | on any tape each instrument is where its own draws and the resets would have taken it alone, so every single-walk result holds of it |
| RandomWalkGenerator.TapeFollowsWeights | src/Tckr.MockExchange/Generation/RandomWalkGenerator.cs:275-286 | over all 2^64 draws the instruments of a tape come up in proportion to the mass of their weights |
| RandomWalkGenerator.OpenSession | src/Tckr.MockExchange/Generation/RandomWalkGenerator.cs:199-259 | the reset's branches compute that band |
| RandomWalkGenerator.Walk | src/Tckr.MockExchange/Generation/RandomWalkGenerator.cs:287-320 | the fixed-point walk and clamp compute the next mid |
| RandomWalkGenerator.Quote | src/Tckr.MockExchange/Generation/RandomWalkGenerator.cs:326-348 | sliding the quote whole is clamping the bid |
| RandomWalkGenerator.RandomWalkGenerator.ResetSession | src/Tckr.MockExchange/Generation/RandomWalkGenerator.cs:199-266 | every instrument is reopened where it closed, or at its reference price the first time: nothing traded yet, last trade and mid at the anchor, a quote one tick to either side |
| RandomWalkGenerator.RandomWalkGenerator.Next | src/Tckr.MockExchange/Generation/RandomWalkGenerator.cs:275-406 | one event changes one instrument's state, to what its draws say, and no other |
| RandomWalkGenerator.RandomWalkGenerator.Generate | src/Tckr.MockExchange/Generation/RandomWalkGenerator.cs:190-196 | the destination holds the tape the draws produce and the states are those after it |
| RateGovernor.WholeEvents | src/Tckr.MockExchange/Session/RateGovernor.cs:249-254 | the whole events in a debt; the rest is below one if and only if the debt is below 2^31 |
| RateGovernor.PendingBelowOneExactlyWhen | src/Tckr.MockExchange/Session/RateGovernor.cs:249-254 | over all runs at rates up to a top rate less than one event is ever left pending if and only if the longest batch made up at that rate earns at most 2^31 - 1 |
| RateGovernor.RateGovernor.PendingIsAFraction | src/Tckr.MockExchange/Session/RateGovernor.cs:249-254 | so it is of the governor itself, from its options alone |
| RateGovernor.PendingFractionCanExceedOne | src/Tckr.MockExchange/Session/RateGovernor.cs:249-254 | a run within the option ranges that leaves more than one event pending: 100,000,000 a second, 100 ms, 1,000 intervals missed |
| RateGovernor.RateGovernor.Account | src/Tckr.MockExchange/Session/RateGovernor.cs:233-280 | one batch on the counters: what it emits and adds to the pending fraction is the rate times the time of the intervals it accrues; what it drops, and where the schedule stands |
| RateGovernor.RateGovernor.ScheduleBatch | src/Tckr.MockExchange/Session/RateGovernor.cs:233-280 | the same with the totals, which stay those of the log; the next deadline is after now, on the lattice or one interval after now |
| RateGovernor.RateGovernor.ScheduledIsRateTimesTime | src/Tckr.MockExchange/Session/RateGovernor.cs:242-257 | over any run everything scheduled and what is pending is the sum of rate times time over its batches |
| RateGovernor.RateGovernor.ScheduledAtOneRate | src/Tckr.MockExchange/Session/RateGovernor.cs:242-257 | and at one rate throughout that rate times all the time accrued |
| RateGovernor.RateGovernor.WaitForNextBatch | src/Tckr.MockExchange/Session/RateGovernor.cs:152-182 | start-up, refusal of a negative rate, and one batch per call |
| RateGovernor.RateGovernor.Start | src/Tckr.MockExchange/Session/RateGovernor.cs:160-166 | the schedule starts one interval back |
| RateGovernor.RateGovernor.DeadlinesStayOnTheLattice | src/Tckr.MockExchange/Session/RateGovernor.cs:274-277 | while nothing has been dropped every deadline is the start plus whole intervals |
| RateGovernor.RateGovernor.TimeIsAccountedFor | src/Tckr.MockExchange/Session/RateGovernor.cs:259-272 | elapsed time is accrued plus abandoned, and abandoned lies between the dropped intervals and those plus one per reset |
| PacingLog.AbandonedMatchesDropped | src/Tckr.MockExchange/Session/RateGovernor.cs:259-272 | over any log the time given up is the dropped intervals and less than one more for each reset |
| MarketSessionClock.MarketSessionClock.EffectiveEventsPerSecond | src/Tckr.MockExchange/Session/MarketSessionClock.cs:122-145 | the rate is between zero and the ceiling for any base rate and multiplier |
| MarketSessionClock.LookUp | src/Tckr.MockExchange/Session/MarketSessionClock.cs:179-190 | the first window covering the time, or Closed |
| MarketSessionClock.MarketSessionClock.CompressedTimeOfDay | src/Tckr.MockExchange/Session/MarketSessionClock.cs:159-177 | a truncated remainder brought up to a floored one places any reading in the cycle |
| MarketSessionClock.MarketSessionClock.ClosedStretchIsClosed | src/Tckr.MockExchange/Session/MarketSessionClock.cs:168-173 | the leading stretch of a compressed cycle reads as closed |
| MarketSessionClock.Cycle.MapIsLinear | src/Tckr.MockExchange/Session/MarketSessionClock.cs:173-177 | past the closed stretch the time into the session is the largest whole number that is no more of the session than the reading is of the open stretch |
| MarketSessionClock.Cycle.MapIsMonotone | src/Tckr.MockExchange/Session/MarketSessionClock.cs:159-177 | the open stretch begins with the session, and later readings of a cycle never give earlier times |
| MarketSessionClock.MarketSessionClock.WindowIsInForce | src/Tckr.MockExchange/Session/MarketSessionClock.cs:159-190 | every window worth at least one tick of the cycle, which no earlier one overlaps, is in force at some reading |
| MarketSessionClock.Cycle.TimeIsInTheSession | src/Tckr.MockExchange/Session/MarketSessionClock.cs:168-177 | past the closed stretch every reading lands inside the session's hours |
| MarketSessionClock.Cycle.Repeats | src/Tckr.MockExchange/Session/MarketSessionClock.cs:159-177 | a cycle later the compressed time of day is the same |
| MarketSessionClock.MarketSessionClock.constructor | src/Tckr.MockExchange/Session/MarketSessionClock.cs:50-77 | a new clock is already in the phase and multiplier of its anchor |
| MarketSessionClock.MarketSessionClock.Advance | src/Tckr.MockExchange/Session/MarketSessionClock.cs:96-112 | the phase and multiplier in force at a reading, and whether the phase changed |
| FeedPublisherService.BatchCapacity | src/Tckr.MockExchange/FeedPublisherService.cs:109-123 | between 64 and 262,144, at least the peak batch unless that is above the ceiling, and less than one more unless at the floor |
| FeedPublisherService.WithCatchUpIsEarned | src/Tckr.MockExchange/FeedPublisherService.cs:113-115 | the size asked for is exactly what the longest batch at the peak rate earns |
| FeedPublisherService.EarnedWithinCatchUp | src/Tckr.MockExchange/FeedPublisherService.cs:113-115 | no batch at a rate the clock allows earns more than the buffer was sized for |
| FeedPublisherService.DebtFitsOnePass | src/Tckr.MockExchange/FeedPublisherService.cs:109-123 | a debt that starts below one event then fits the buffer and leaves less than one behind |
| FeedPublisherService.StampAuctionPrints | src/Tckr.MockExchange/FeedPublisherService.cs:301-310 | trades are flagged, quotes and everything past the given records are left alone |
| FeedPublisherService.StampIsAPrint | src/Tckr.MockExchange/FeedPublisherService.cs:241-314 | in the two auction phases a trade carries the low flag bit; its other bits, everything else about it and all other records are unchanged |
| FeedPublisherService.FeedPublisherService.EmitBatch | src/Tckr.MockExchange/FeedPublisherService.cs:241-257 | exactly count records, in order, in as few passes as the buffer allows |
| FeedPublisherService.FeedPublisherService.RunOnce | src/Tckr.MockExchange/FeedPublisherService.cs:213-258 | one turn asks the governor for the base rate times the multiplier in force, held between nothing and the ceiling, publishes exactly what it scheduled, and in one pass whenever the capacity is not cut short |
| RollingRateWindow.AddRefinesExactlyWhen | src/Tckr.MockExchange/Diagnostics/RollingRateWindow.cs:85-100 | an add keeps the ring true to the log if and only if its bucket is still in the ring or nothing is added |
| RollingRateWindow.Advanced | src/Tckr.MockExchange/Diagnostics/RollingRateWindow.cs:147-171 | moving the head on with the passed slots cleared keeps the ring true |
| RollingRateWindow.RollingRateWindow.Add | src/Tckr.MockExchange/Diagnostics/RollingRateWindow.cs:85-100 | the log grows by the entry, and the ring still stands for it under that condition |
| RollingRateWindow.RollingRateWindow.AdvanceTo | src/Tckr.MockExchange/Diagnostics/RollingRateWindow.cs:147-171 | any idle gap, a whole lap included, keeps the ring true |
| RollingRateWindow.RollingRateWindow.EventsPerSecond | src/Tckr.MockExchange/Diagnostics/RollingRateWindow.cs:109-137 | the rate is the log's events in the last whole buckets over their length whenever those buckets are still in the ring, which a reading at or past the head always finds; zero before the first bucket is over |
| RollingRateWindow.RollingRateWindow.RateIsEventsOverTime | src/Tckr.MockExchange/Diagnostics/RollingRateWindow.cs:109-137 | that rate times the length of those buckets is what was logged in them |
| RollingRateWindow.RollingRateWindow.constructor | src/Tckr.MockExchange/Diagnostics/RollingRateWindow.cs:61-78 | the buckets are as long as fit the window that many times, and at least one tick |
| EditDistance.EditDistance | client/Tckr.MarketWatch/src/pages/closestInstruments.ts:10-22 | the one-row loop computes the recursive distance for all strings |
| EditDistance.DistanceIsFewestEdits | client/Tckr.MarketWatch/src/pages/closestInstruments.ts:8-9 | that distance is the least number of insertions, deletions and replacements |
| EditDistance.Triangle | client/Tckr.MarketWatch/src/pages/closestInstruments.ts:10-22 | the triangle inequality |
| EditDistance.Symmetric | client/Tckr.MarketWatch/src/pages/closestInstruments.ts:10-22 | symmetry |
| EditDistance.ZeroExactlyWhenEqual | client/Tckr.MarketWatch/src/pages/closestInstruments.ts:10-22 | zero if and only if the strings are equal |
| EditDistance.NextLine | client/Tckr.MarketWatch/src/pages/closestInstruments.ts:12-20 | one pass overwrites the line above with the next one |
| TickDispatcher.CoalescingIsInvisible | client/Tckr.MarketWatch/src/data/TickDispatcher.ts:63-91 | however pushes, frames, snapshots and primings fall, flushing what is pending gives the store that writing everything as it came gives, provided no snapshot or priming overtakes a pending tick of its symbol |
| TickDispatcher.StoredVolume | client/Tckr.MarketWatch/src/data/TickDispatcher.ts:63-91 | over any run of pushes, flushes, snapshots and primings the store holds the last snapshot's volume and all quantity flushed since |
| TickDispatcher.VolumeRightExactlyWhen | client/Tckr.MarketWatch/src/data/store.ts:188-252 | after any run, once flushed, a symbol's volume is that of what arrived if and only if its last snapshot overtook no quantity, and else too large by what it overtook |
| TickDispatcher.QuoteRightExactlyWhen | client/Tckr.MarketWatch/src/data/store.ts:188-252 | likewise its price and stream are those of its last arrival if and only if its last snapshot overtook no tick, or one that says the same, or a tick has come since; else they are those of the older tick |
| TickDispatcher.NewestWaits | client/Tckr.MarketWatch/src/data/TickDispatcher.ts:63-71 | what waits for a symbol is the tick that came last, with the quantity of all that came since the flush |
| TickDispatcher.PushThenFlush | client/Tckr.MarketWatch/src/data/TickDispatcher.ts:63-71 | merging a tick and flushing is flushing and applying it |
| TickDispatcher.FlushBySymbol | client/Tckr.MarketWatch/src/data/TickDispatcher.ts:80-91 | a flush changes each symbol's view by its own pending tick alone |
| TickDispatcher.FlushOrderIsIrrelevant | client/Tckr.MarketWatch/src/data/TickDispatcher.ts:86-90 | the order pending ticks are flushed in does not matter |
| TickDispatcher.SnapshotOverPendingOvercounts | client/Tckr.MarketWatch/src/data/store.ts:188-213 | a snapshot over a pending tick ends with the snapshot's volume plus the pending quantity, where after the flush it ends with the snapshot's |
| TickDispatcher.SnapshotCommutesWhenNothingPending | client/Tckr.MarketWatch/src/data/store.ts:188-213 | with nothing pending for the symbol the snapshot and the flush commute |
| TickDispatcher.PrimingCommutesWhenNothingPending | client/Tckr.MarketWatch/src/data/store.ts:152-171 | and so do priming and the flush |
| TickDispatcher.TickDispatcher.Push | client/Tckr.MarketWatch/src/data/TickDispatcher.ts:63-76 | received is flushed plus coalesced plus pending, and one frame is asked for |
| TickDispatcher.TickDispatcher.FlushNow | client/Tckr.MarketWatch/src/data/TickDispatcher.ts:80-91 | each pending tick reaches the store once and none is left |
| MarketStore.VolumeSinceSnapshot | client/Tckr.MarketWatch/src/data/store.ts:188-252 | over any history a known symbol's volume is the last snapshot's plus all quantity since |
| MarketStore.ChangeIsFromBaseline | client/Tckr.MarketWatch/src/data/store.ts:200-250 | a tick or a snapshot shows its own price and stream under the symbol's name, and the change is exactly the price less the baseline |
| MarketStore.BaselineSinceSnapshot | client/Tckr.MarketWatch/src/data/store.ts:152-213 | over any history the baseline is the last snapshot's previous close, or its open where it names none, or before any snapshot the reference price it was first primed with |
| MarketStore.DefinitionIsTheLast | client/Tckr.MarketWatch/src/data/store.ts:152-171 | and the name and reference price those of the last definition |
| MarketStore.UnknownSymbolsLeaveNoTrace | client/Tckr.MarketWatch/src/data/store.ts:231-236 | a symbol never primed gets no view, whatever arrives for it |
| MarketStore.MarketStore.PrimeUniverse | client/Tckr.MarketWatch/src/data/store.ts:152-171 | names and reference prices are set, tracked baselines kept |
| MarketStore.MarketStore.ApplySnapshot | client/Tckr.MarketWatch/src/data/store.ts:188-213 | the view is replaced and the baseline moved to the previous close, or the open |
| MarketStore.MarketStore.ApplyTick | client/Tckr.MarketWatch/src/data/store.ts:231-252 | price from the tick, volume accumulated; unknown symbols dropped |
| Decimals.SubtractIsExact | client/Tckr.MarketWatch/src/contracts/decimal.ts:91-97 | the printed difference parses to the exact difference, at the larger number of places |
| Decimals.CompareIsSignOfDifference | client/Tckr.MarketWatch/src/contracts/decimal.ts:84-89 | comparing is the sign of the printed difference, and reversing the operands reverses it |
| Decimals.MultiplyIsExact | client/Tckr.MarketWatch/src/contracts/decimal.ts:104-109 | so does the printed product with any safe whole number; others are refused |
| Decimals.RoundTripsExactlyWhen | client/Tckr.MarketWatch/src/contracts/decimal.ts:57-82 | printing at some places and parsing returns the value if and only if the value fits those places |
| Decimals.PrintThenRead | client/Tckr.MarketWatch/src/contracts/decimal.ts:72-82 | otherwise the value is cut towards zero |
| Decimals.WrittenExactly | client/Tckr.MarketWatch/src/contracts/decimal.ts:57-67 | a decimal's value is a whole number of units of its last written place |
| DecimalFormat.FormatKeepsExactlyCanonical | client/Tckr.MarketWatch/src/contracts/decimal.ts:209-222 | formatting leaves a price as written if and only if it is canonical: no plus, no spare zero, no minus on zero |
| DecimalFormat.FormatReads | client/Tckr.MarketWatch/src/contracts/decimal.ts:209-222 | the text reads as the value cut to the places, with a minus sign exactly below zero and a plus sign exactly where asked for above it |
| DecimalDisplay.PercentTextIsNearest | client/Tckr.MarketWatch/src/contracts/decimal.ts:184-207 | the text reads as the nearest value to a hundred times the change over the base, halves away from zero, signed as the exact change and unsigned when zero; zero from a zero base |
| CompactFormat.MantissaInRange | client/Tckr.MarketWatch/src/contracts/decimal.ts:115-150 | the number shown is at least one of its unit, below a thousand unless the unit is the largest, and the nearest such value |
| CompactFormat.MantissaReads | client/Tckr.MarketWatch/src/contracts/decimal.ts:137-142 | dropping trailing zeros does not change the number shown |
| CompactFormat.CompactReads | client/Tckr.MarketWatch/src/contracts/decimal.ts:125-150 | the whole text reads back: its letter says the unit, its number is the nearest value in it and in range, and its sign is the value's unless it shows zero |
| CompactFormat.CompactDecimals | client/Tckr.MarketWatch/src/contracts/decimal.ts:137-142 | in a unit there are two decimals when asked for and no trailing zero otherwise |
| CompactFormat.FormatCompact | client/Tckr.MarketWatch/src/contracts/decimal.ts:125-150 | the loop over the units finds the largest one that rounds to at least one |

## Left out

- EndToEnd.ConsumerSeesExactlyTheLoss: assumes at most 2^64 - 1 numbers were handed out, because the wire field wraps there and the session's counter in the model does not.
- EndToEnd.DisconnectPassesTheProbe: assumes no unlocked skip straddles a recovery, because without that the claim is false (`DisconnectCanLeakAGap`).
- EndToEnd.LostAtMostDropped: assumes no skip is between burning and counting, because the counter lags by exactly those (`DropsAreAccountedFor`).
- FeedSession.FeedSession.WriteBatchLocked: takes reserving the numbers, the flush, the snapshot at the onset, the state and the discard flag (`FeedSession.cs` lines 349-412) as one step, as `SessionProtocol` does. Runs in which the reader or an unlocked skip comes between two of those lines are not modelled; in one, a reader that takes the buffer after the flush and before the discard flag sends the batch that filled the pipe, and the flag then meets a later buffer or is cleared.
- FeedSession.FeedSession.TryPublish: is one call that no other thread cuts into; calls that interleave before the lock are steps of `SessionProtocol`.
- WeightedSymbolPicker.OutcomesFollowMass: weighs the buckets equally; `PickedDraws.DrawsFollowMass` has them picked by multiply-shift.
- RollingRateWindow.RollingRateWindow.EventsPerSecond: does not say what is returned when a reading is so old that its buckets have left the ring.
- TickDispatcher.QuoteRightExactlyWhen: is about price, stream and, with `VolumeRightExactlyWhen`, volume; the name a view carries when a priming overtakes a pending tick is only covered by `CoalescingIsInvisible`, which excludes that.
- FeedPublisherService.FeedPublisherService.RunOnce: takes the generator as a fixed tape and publishing as an append, because generator and server are modelled on their own; metrics and cancellation are not modelled.
- FeedServer.FeedServer.Admit: is one admission from start to end; admissions and closes that cut into each other are in `SlotStepKeeps`.
- MarketSessionClock.MarketSessionClock.Advance: takes the zone's time of day as an argument, because time zones come from the platform, and returns the phase event as a flag.
- ProbeSession.ProbeSession.HandleTick: is the sequence accounting of a tick; its latency, per-type and per-symbol counts are not modelled.
- RandomWalkGenerator.RandomWalkGenerator.Next: leaves out the record's timestamp, flags and symbol text, which the walk does not use.
- MarketStore.MarketStore.ApplySnapshot: leaves out the stored change in percent, a JavaScript number; the change itself is `View.Change`, computed from the view.
- MarketStore.MarketStore.ApplyTick: likewise.
- WalkRuns.DeviationWithinSpanExactlyWhen: assumes a span that fits 64 bits, because beyond that the field does not hold it.
- WalkRuns.ClampIsDeadExactlyWhen: likewise.
- WalkRuns.EveryEventIsFair: says nothing of the opening quote, because its bid is one tick below the anchor and may be zero.
- BoundedDraw.NextInt: reads its draws from a finite list, because the generator's own output is not modelled.
- Sockets, timers, tasks, cancellation and the inside of `System.IO.Pipelines`: reduced to nondeterministic steps; a send cut short by the network is any prefix of the bytes handed to the socket.
- Log and metric text, including `_discardedAtOnset`, which only feeds a log line.
- Floating-point rounding of weights, rates and probabilities, and the quality of xoshiro's output.
- 64-bit overflow of prices that grow over very many sessions; the reversion products are covered.
- Price scaling from `decimal`, and loading and validating options and symbols.
- Event timestamps and the deterministic clock of the generator.
- The probe's latency, inter-arrival, per-type, per-symbol and timestamp-order measurements, and its staleness watchdog.
- `percentChange`, which returns a JavaScript number, and the ranking around `editDistance`.
- Store listeners, subscriptions and the reference identity of views; `resetStream`, after which ticks still pending reach the new stream.
- `marketCalendar.ts`, `simulatedClock.ts`, the gateway source's outbound queue, and the user interface.
