# autoperf, modelled and proved in Dafny

autoperf measures Android devices: it drives an app through a scripted scenario, samples metrics
while it does, and shows the device's screen live. This project models the parts of it that carry
state, arithmetic or a protocol, and proves what they promise. `dafny verify dfyconfig.toml` checks
all of it; nothing here needs a device, a broker or a browser.

## How it is laid out

| files | what they model |
|---|---|
| `ScreenStream`, `Framing`, `AccessUnits`, `LiveScreen` | the byte stream of the live screen: the incremental Annex B splitter, what framed payloads become, the access units, the preview's loop |
| `Tables`, `Storage`, `LockProtocol`, `Starting`, `Cancelling`, `Dashboard` | the rows that hand out devices, the statements over them, the protocol of claims, heartbeats and sweeps among any number of workers, the start of a run between its read and its claim, a cancel between its read and its writes, and dispatch |
| `Flights`, `Runner`, `Timeouts`, `Verdict`, `BatchWriter` | the control loop of a measured run, when its work is submitted and late, whether its numbers can be trusted, and the bounded queue it writes through |
| `Statistics`, `Downsampling`, `Analyzer`, `SampledLines` | variances, least squares, bucket arithmetic, statistics by two paths, trends, comparisons, and what even growth is reported as |
| `Covering`, `Grading`, `Summaries` | preflight: which scenarios to run, how a target is graded, what the reports add up to |
| `Campaigns`, `CampaignRuns`, `Repeats` | planning, creating, executing and judging a campaign of runs |
| `DocsRenderer`, `QueueSim` | the documentation builder's block parser, the demo's queue |
| `Sorting`, `Wrappers` | Python's stable `sorted`, and optional values |

Code that updates fields is a class whose methods are proved against a specification function of
the old state (`Split`, `Ticked`, `Apply`, `ClaimRun`); the theorems are then about that function.
A SQL statement or transaction is one step, time is a real number that does not run backwards, and
floating-point numbers are reals. Whatever comes from outside, such as what a tap does, when
a future is done or when a cancel arrives, is a parameter, so every theorem holds for all of it.

## What the model shows about the code

* Three-byte start codes do not round-trip a payload that ends in zero, four-byte codes do.
  `Framing.RoundTripExactly` says exactly which frames come back, and
  `Framing.AnyFramesComeBackAbsorbed` what the others become. Likewise `Framing.FlushBeforeCode`
  says exactly when an idle flush before bytes that begin with a code goes unnoticed.
* A run that is resumed after it stopped more than 120 seconds ago starts with a stale heartbeat:
  the next claim of its device takes it away, and its own next heartbeat then makes two rows run
  (`LockProtocol.StaleResumeBreaksExclusivity`; `Starting.StaleResumeIsReachable` gets there from empty
  tables). Deleting the row of a live run frees its device
  while the run still drives it (`LockProtocol.DeletingLiveRunFreesDevice`).
* A run can be cancelled and start all the same: the runner reads the flag in one statement
  (`src/autoperf/runner.py:219-230`) and claims the device in a later one that asks for neither flag nor
  status. It happens if and only if the flag was set between the two (`Starting.FlaggedStartIff`);
  `Starting.CancelledRunStarts` is such a start, and `Runner.CancelStopsRun` says when it is stopped.
* A run can be executed more than once: after 90 seconds in the queue it is handed out again
  (`Starting.HandedOutAgainIff`), and a task for a run that is over executes it again exactly when its device
  is free (`Starting.OverRunStartsAgainIff`). `Starting.RunIsExecutedTwice` does both from empty tables.
* Two workers can drive one phone at once, for the same run: the claim keeps other runs away, not other
  workers of the run that holds the device. A second worker joins if and only if it had read that run and not
  found it flagged (`Starting.SecondDriverIff`); `Starting.TwoWorkersDriveOneRun` gets there from empty tables.
* A cancel reads in one statement and writes in later ones that ask again for nothing
  (`webapp/dashboard/services.py:465-470`, `src/autoperf/storage.py:878-892`). It takes the row from under a
  live worker if and only if the worker claimed the run in between (`Cancelling.CancelHitsLiveRunIff`), and a
  campaign's cancel, which promises to keep what was measured, deletes a run that was at work if and only if
  it began in between (`Cancelling.CancelLosesMeasurementsIff`). Either way the device counts as free while it
  is driven: `LockProtocol.CancelButtonBreaksExclusivity`, `Cancelling.CampaignCancelFreesBusyDevice`.
* A child whose row is deleted between the campaign loop's look for a cancel and the runner's read comes back
  outside its campaign, and only such a child does (`CampaignRuns.ComesBackBetweenIff`). One cancel brings back one
  child at most (`CampaignRuns.OneComesBack`); a campaign that is deleted while it is executed runs on to its
  end, every child that was left outside it (`CampaignRuns.DeletedCampaignGoesOn`).
* `webapp/livescreen/server.py:214` says that the text ahead of the bitstream must not reach the recorder.
  It is kept from it if and only if it comes in one read with the first start code (`LiveScreen.TextIsCutIff`);
  in a read of its own it is teed whole (`LiveScreen.TextReachesRecorder`).
* Even growth of m an hour is reported as m if and only if every bucket holds the same number of samples;
  otherwise the reported slope is too flat (`SampledLines.GrowthIsReportedIff`).
* `webapp/dashboard/tasks.py:62-65` says that a deleted run must not come back, but lines 45-46 have
  by then created the missing row again, so the runner's demand for an existing row fails only for a run
  that is deleted once more in between (`Dashboard.StartTask`).
* "The fewest scenarios" of `src/autoperf/preflight.py:159` is what a greedy cover gives: every
  target, and at most (1 - 1/k)^j of them left after j picks when some k scenarios cover all
  (`Covering.GreedyBound`). Its early exit is never taken.
* A target found by selector in one scenario and reached by design in another is in order in both
  reports and needs attention in the summary (`Summaries.MixedTargetNeedsAttention`); `Summaries.OkIff`
  says exactly when the two verdicts agree.
* A step whose action timed out leaves nothing on the record that clears a run's `verified` flag
  (`Verdict.TimeoutIsHarmless`), and its result is not heard when it comes. `Verdict.RunVerifiedIff` says of
  whole runs exactly which are vouched for; one none of whose steps ever came back is
  (`Verdict.SilentRunIsVerified`).
* The documentation builder ends on every input, but an indented fence mark inside a fence ends it
  for the dedenter and not for the parser, and the code after it loses its layout
  (`DocsRenderer.IndentedMarkLosesLayout`). `DocsRenderer.FencesAreVerbatim` says exactly when code keeps
  its layout, and `DocsRenderer.HalvesAgree` exactly when the two agree on where code is.

## Model

| member | source | states |
|---|---|---|
| ScreenStream.FindIsFirst | src/autoperf/screen_stream.py:16-18 | the byte search reports the first `00 00 01` at or after the start, and none only when there is none |
| ScreenStream.FindStartCodeSpec | src/autoperf/screen_stream.py:11-21 | a start code is reported if and only if it is the next one in the bytes; it is four bytes long exactly when a zero precedes `00 00 01`, and absorbs at most that one |
| ScreenStream.SecondCodeNeverOverlaps | src/autoperf/screen_stream.py:69-76 | the second code of a round never shares a byte with the first |
| ScreenStream.AnnexBSplitter.Feed | src/autoperf/screen_stream.py:61-79 | the loop emits and keeps exactly the parse of what was held plus the chunk; every NAL is non-empty, free of start codes and typed by its first byte's low five bits |
| ScreenStream.AnnexBSplitter.Flush | src/autoperf/screen_stream.py:35-59 | emits what lies behind the first code, typed likewise, and empties the buffer; without a code nothing happens |
| ScreenStream.CutAtCode | src/autoperf/screen_stream.py:72-78 | a buffer cut at a start code finds that code again at offset 0, as long as it was, and the next one where it was |
| ScreenStream.SplitSettles | src/autoperf/screen_stream.py:61-79 | after any feed the buffer holds no start code, or exactly one, at offset 0 |
| ScreenStream.SplitEmitsPayloads | src/autoperf/screen_stream.py:75-77 | every payload emitted is non-empty and free of start codes, and its NAL type is its first byte's low five bits |
| ScreenStream.FlushEmitsPayloads | src/autoperf/screen_stream.py:54-59 | the same of what a flush emits from such a buffer |
| ScreenStream.SplitConcat | src/autoperf/screen_stream.py:61-79 | parsing two pieces one after the other is parsing them at once |
| ScreenStream.ChunkIndependence | src/autoperf/screen_stream.py:24-29 | however the pipe cuts the stream into chunks, the NALs and the final buffer are those of one feed of all of it |
| ScreenStream.SettledSplit | src/autoperf/screen_stream.py:65-74 | a buffer of that form yields nothing more until bytes arrive |
| Framing.MixedRoundTrip | src/autoperf/screen_stream.py:11-79 | frames with three- and four-byte codes mixed come back from feed then flush when no three-byte code follows a payload that ends in zero |
| Framing.FourByteRoundTrip | src/autoperf/screen_stream.py:35-79 | any non-empty payloads free of start codes, framed with four-byte codes, come back exactly, trailing zeros included |
| Framing.AnyFramesComeBackAbsorbed | src/autoperf/screen_stream.py:11-21 | all other frames come back with the zero in front of each three-byte code moved out of the payload |
| Framing.RoundTripExactly | src/autoperf/screen_stream.py:11-79 | frames come back if and only if no three-byte code follows a payload that ends in zero |
| Framing.SplitConserves | src/autoperf/screen_stream.py:61-79 | any bytes at all are what precedes the first code, the frames that were emitted, and the buffer: none is lost, added or moved |
| Framing.FlushBeforeCode | src/autoperf/screen_stream.py:35-59 | a flush before bytes that start with a code leaves the NALs of the stream as they were if and only if that code is four bytes or the held payload does not end in zero |
| AccessUnits.AccessUnitAssembler.Feed | src/autoperf/screen_stream.py:95-105 | the unit a NAL completes and the parameter sets still waiting afterwards |
| AccessUnits.FirstByteDecides | src/autoperf/screen_stream.py:3-6 | by a payload's first byte modulo 32: 5 completes a key unit, 1 another, 7 and 8 wait as parameter sets, anything else does nothing |
| AccessUnits.UnitsAreMarkedRight | src/autoperf/screen_stream.py:82-105 | every unit is marked key if and only if a viewer finds a NAL of type 5 in it |
| AccessUnits.AssembleConcat | src/autoperf/screen_stream.py:92-105 | feeding two lists of NALs is feeding them as one |
| AccessUnits.UnitsAreParamsThenSlice | src/autoperf/screen_stream.py:82-105 | the units are, in order: for each IDR the parameter sets since the last IDR and then the IDR, for each other slice that slice alone |
| AccessUnits.ResplitUnit | src/autoperf/screen_stream.py:95-105 | splitting a unit again yields exactly the NALs that went into it |
| AccessUnits.EverySliceIsSentOnce | src/autoperf/screen_stream.py:82-105 | the slices a viewer decodes are the slices of the stream: none lost, repeated or reordered |
| LiveScreen.Emit | webapp/livescreen/server.py:161-173 | one message per unit, in order: a byte that is 1 for a key unit and 0 for any other, and then the unit; and the assembler as it is afterwards |
| LiveScreen.H264Stream | webapp/livescreen/server.py:176-227 | for every sequence of reads and silences, what is sent is the units of what the splitter yields, the browser decodes exactly their slices, and the recorder gets the delivered bytes: from the first start code on when the first read holds one, else every one of them |
| LiveScreen.PreambleCutUnnoticed | webapp/livescreen/server.py:201-224 | cutting the preamble does not change what the splitter makes of the chunk, and cuts exactly what precedes the first code |
| LiveScreen.RecorderKeepsStream | webapp/livescreen/server.py:214-227 | the recorder's stream splits like everything the pipe delivered |
| LiveScreen.TextIsCutIff | webapp/livescreen/server.py:201-225 | the recorder's stream starts with a start code if and only if the first read holds one or the delivered bytes start with one; in the first case exactly what precedes the first code is missing, in all others nothing is |
| LiveScreen.TextReachesRecorder | webapp/livescreen/server.py:214-225 | an input whose text comes in a read of its own, and reaches the recorder |
| LiveScreen.QuietUnnoticed | webapp/livescreen/server.py:185-197 | silences while nothing is held or between NALs, wherever they fall, leave the NALs of the stream as they were |
| LiveScreen.PreviewMatchesStream | webapp/livescreen/server.py:176-227 | then the NALs of the loop, and the one still held when the pipe ends, are those of the whole stream |
| LiveScreen.BrowserDecodesEverySlice | webapp/livescreen/server.py:161-227 | for any reads and silences the browser decodes each slice that left the splitter once, in order |
| LiveScreen.KeyFramesAreMarked | webapp/livescreen/server.py:161-173 | the first byte of everything that is sent is 1 if and only if what follows holds a NAL of type 5, and 0 otherwise |
| LiveScreen.BrowserSeesTheStream | webapp/livescreen/server.py:161-227 | with such silences only, what the browser decodes, and at most the one NAL still held at the end, are the slices of everything the pipe delivered |
| Tables.CancelKeepsMeasurements | src/autoperf/storage.py:878-892 | what a campaign's cancel does to a row that nobody else touches meanwhile: a waiting child is removed, a running one flagged, any other row keeps every column |
| Tables.NextPendingExists | src/autoperf/storage.py:723-742 | a device with a run to hand out has an oldest one |
| Tables.NewRowsWait | src/autoperf/storage.py:225-245 | a row that is inserted waits, unflagged, without start, end, heartbeat or place in the queue |
| Tables.PreflightCancelIff | src/autoperf/storage.py:367-374 | a preflight is flagged exactly when it is not over |
| StorageRows.Storage.UpdateRun | src/autoperf/storage.py:247-256 | the row with its status, times, checkpoint, heartbeat and error rewritten, and no other |
| StorageRows.Storage.ReleaseAbandonedRuns | src/autoperf/storage.py:292-304 | exactly the running rows without a sign of life for 120 seconds become interrupted |
| StorageRows.Storage.ReleaseAbandonedPreflights | src/autoperf/storage.py:271-290 | exactly the running preflights older than 900 seconds become failed |
| StorageRows.Storage.TryStartRun | src/autoperf/storage.py:306-348 | claims the run after both sweeps if no other run and no preflight of the device is running, and says whether it did |
| StorageRows.Storage.TryStartPreflight | src/autoperf/storage.py:383-405 | the same claim for a preflight, which must also be pending |
| StorageRows.Storage.FinishPreflight | src/autoperf/storage.py:407-432 | stores verdict, end and error in the preflight's row |
| StorageRows.Storage.DeviceHasInflightRun | src/autoperf/storage.py:700-716 | true if and only if some row of the device is running, or waits uncancelled and was handed to the queue at most 90 seconds ago |
| StorageRows.Storage.NextPendingRun | src/autoperf/storage.py:723-742 | the waiting uncancelled run with the lowest row number that is not freshly queued, or none when there is none |
| StorageRows.Storage.DevicesWithPendingRuns | src/autoperf/storage.py:744-758 | exactly the devices with such a run and nothing running |
| StorageRows.Storage.CancelCampaignRuns | src/autoperf/storage.py:879-892 | reads the waiting children, flags the running ones, and deletes each child that was waiting in a transaction of its own, with others at work ahead of each; counts both |
| LockProtocol.SaneStep | src/autoperf/storage.py:225-432 | every action of any worker keeps: a running row has a start, a pending one neither start nor heartbeat, no time lies ahead |
| LockProtocol.RowsMove | src/autoperf/storage.py:225-348 | nothing else can happen to a row than what the statements do: a flag, a queue time, a release, a claim, an update |
| LockProtocol.TryStartIsThreeSteps | src/autoperf/storage.py:328-348 | one call of the claim is two sweeps and one statement of the protocol |
| LockProtocol.RowsStaySane | src/autoperf/storage.py:225-348 | in every run of the system, whoever does what when: rows stay sane, row numbers distinct, and no device has two runs freshly queued |
| LockProtocol.DeviceExclusivity | src/autoperf/storage.py:306-348 | in every reachable state at most one row per device, runs and preflights together, is running, for any interleaving, under the hypotheses listed below |
| LockProtocol.OneDriverPerDevice | src/autoperf/storage.py:306-405 | and no two live workers ever drive one device, through two rows or through one |
| LockProtocol.FreshClaimSurvivesSweep | src/autoperf/storage.py:292-348 | a claim survives the next sweep if and only if it left a sign of life less than 120 seconds old |
| LockProtocol.PendingClaimIsFresh | src/autoperf/storage.py:330-337 | a claim of a pending row always does |
| LockProtocol.StaleResumeBreaksExclusivity | src/autoperf/storage.py:247-348 | resuming a run that stopped longer ago lets the next claim take its device, and its heartbeat then makes two rows run |
| LockProtocol.DeletingLiveRunFreesDevice | src/autoperf/storage.py:607-628 | deleting a live run's row lets another worker claim the device it still drives |
| LockProtocol.HeldIsClaimable | src/autoperf/storage.py:334-347 | while a run holds its device the claim refuses every other run there and never that run itself |
| LockProtocol.CancelButtonBreaksExclusivity | webapp/dashboard/services.py:465-470 | the cancel button over a run that has just been claimed: five possible actions to two running rows of one device |
| LockProtocol.ClaimSucceedsExactly | src/autoperf/storage.py:328-348 | a claim succeeds if and only if the run exists, no other run of its device was seen within 120 seconds, and no running preflight there started within 900 |
| LockProtocol.PreflightClaimSucceedsExactly | src/autoperf/storage.py:383-405 | a preflight's claim succeeds if and only if it waits, no run of its device was seen within 120 seconds, and no other running preflight there started within 900 |
| LockProtocol.DeadWorkersDoNotBlock | src/autoperf/storage.py:258-304 | after 900 seconds without a sign of life a device can be claimed again, after 120 when no preflight runs there |
| LockProtocol.DeadWorkersDoNotBlockPreflights | src/autoperf/storage.py:258-304 | the same of a preflight that waits |
| LockProtocol.CrashedWorkersAreReplaced | src/autoperf/storage.py:258-304 | from any tables, with a run's and a preflight's worker dead: time, the sweeps and a claim are possible steps and end with another worker driving any run there is |
| LockProtocol.CancelSticks | src/autoperf/storage.py:602-605 | a cancel flag stays until its row is deleted |
| Starting.ReadBefore | src/autoperf/runner.py:206-235 | whoever claims a run has read it before, and not found it flagged |
| Starting.FlaggedSince | src/autoperf/storage.py:602-605 | a row is flagged exactly when the flag was set and the row has not been deleted since |
| Starting.FlaggedStartIff | src/autoperf/runner.py:206-235 | in every history, a cancelled run is started if and only if its flag was set between the runner's read and its claim |
| Starting.CancelledRunStarts | webapp/dashboard/services.py:466-475 | any waiting run on a free device can be read, cancelled by its button, and started |
| Starting.ClaimIgnoresThePast | src/autoperf/storage.py:328-348 | whether a claim succeeds depends neither on the run's status nor on anything else in its row but the device |
| Starting.OverRunStartsAgainIff | src/autoperf/storage.py:306-348 | a claim of a run that is over executes it again if and only if nothing that shows life holds its device |
| Starting.HandedOutAgainIff | src/autoperf/storage.py:723-742 | a waiting run can be handed out again if and only if it was queued more than 90 seconds ago |
| Starting.StaleResumeIsReachable | src/autoperf/storage.py:247-348 | a run of the system from empty tables to two running rows of one device, by a resume two minutes later |
| Starting.RunIsExecutedTwice | src/autoperf/storage.py:306-348 | a run of the system from empty tables in which one run is handed out twice and executed again after it is completed |
| Starting.SecondDriverIff | src/autoperf/runner.py:206-235 | while a live run holds its device, a second worker starts to drive it if and only if it had read that run and not found it flagged |
| Starting.TwoWorkersDriveOneRun | src/autoperf/storage.py:306-348 | a history from empty tables that ends with two workers driving one phone |
| Cancelling.DrivesSince | src/autoperf/runner.py:234-235 | a worker drives a run exactly when it claimed it and has neither finished nor died since |
| Cancelling.CancelHitsLiveRunIff | webapp/dashboard/services.py:465-470 | a cancel that read a waiting run closes or deletes it under a live worker if and only if the worker claimed it between the read and that write |
| Cancelling.WaitingIsNotDriven | webapp/dashboard/services.py:465-468 | in a disciplined run no worker is on a run that the read finds waiting |
| Cancelling.BegunSince | src/autoperf/storage.py:247-256 | a row has a start exactly when a claim or a heartbeat gave it one and it has not been deleted since |
| Cancelling.CancelLosesMeasurementsIff | src/autoperf/storage.py:878-892 | a campaign's cancel deletes a run that has been at work if and only if it began between the cancel's read and that deletion |
| Cancelling.CampaignCancelFreesBusyDevice | src/autoperf/storage.py:878-892 | any waiting child of a free device can be read, claimed and deleted, and its device claimed again while it is driven |
| Dashboard.NextIsOldest | src/autoperf/storage.py:723-742 | on an idle device the run handed out is the oldest of all that wait |
| Dashboard.DispatchPending | webapp/dashboard/services.py:172-203 | hands out one run, the oldest waiting one, and only when nothing is in flight; otherwise changes nothing |
| Dashboard.QueuedIsInflight | src/autoperf/storage.py:700-721 | marking a waiting run queued puts its device, and no other, in flight |
| Dashboard.DispatchStalled | webapp/dashboard/services.py:206-217 | afterwards every device with a waiting uncancelled run has one in flight; only idle devices got one, each its oldest, none two |
| Dashboard.BeginRun | src/autoperf/runner.py:200-235 | which of the five ways a start ends, by what its read finds and, after whatever others do in between, by the claim; and the rows it leaves |
| Dashboard.StartTask | webapp/dashboard/tasks.py:43-67 | with others at work before the runner's read and before its claim: a deleted run whose task is still queued comes back, and is claimed if its device is free; only one deleted again before the runner reads it is gone |
| Dashboard.CancelRun | webapp/dashboard/services.py:448-476 | by what the read finds, and whatever others do before each write: a waiting run is flagged and then interrupted, a running one flagged, any other refused and left alone |
| Dashboard.CancelledNeverStarts | src/autoperf/runner.py:219-230 | a run that is flagged when its row is read is turned away, and is in no queue |
| BatchWriting.BatchWriter.Put | src/autoperf/storage.py:1064-1070 | an item is accepted, refused because the writer failed, or refused because the queue is full |
| BatchWriting.BatchWriter.Take | src/autoperf/storage.py:1085-1094 | one item, the stop, or nothing is taken from the queue |
| BatchWriting.BatchWriter.Decide | src/autoperf/storage.py:1095-1105 | the batch is written in one transaction when it is full, when the queue is empty or when stopping, and otherwise kept |
| BatchWriting.InvariantsHold | src/autoperf/storage.py:1064-1105 | for every interleaving: written, pending and queued make up everything put, the bounds hold, the stop is in its place |
| BatchWriting.TablesHoldAPrefix | src/autoperf/storage.py:1079-1105 | at every moment, failures included, each table holds its share of a prefix of what was put, in order, and the batch in hand is never larger than its size |
| BatchWriting.RowsAreOfTheirKind | src/autoperf/storage.py:1087-1098 | samples go to one table and events to the other, all of them |
| BatchWriting.ExactlyOnceFifo | src/autoperf/storage.py:1064-1105 | a writer that is done has stored everything put before the first close once and in order per table, and exactly what was put later is missing |
| BatchWriting.IdleWriterFlushes | src/autoperf/storage.py:1086-1104 | with the queue empty one pass writes the batch |
| BatchWriting.CloseReturns | src/autoperf/storage.py:1072-1105 | once the stop is queued and while commits succeed, the writer is done after a fixed number of its steps, at most two per slot and one, whatever is put meanwhile, and always has one to take |
| Flights.SweepInOrder | src/autoperf/runner.py:276-293 | the pass over work in flight leaves, marks late and writes what the specification says, entry by entry |
| Flights.SweepIsRight | src/autoperf/runner.py:295-309 | entry by entry: what is not finished stays, is late from then on exactly when it was or `timeout` has gone by since it was submitted, and what is written is the results heard and the entries newly late |
| Flights.SweepKeeps | src/autoperf/runner.py:276-328 | for every key, what a pass settles plus what stays open is what was open before |
| Flights.DrainSettles | src/autoperf/runner.py:360-376 | the drain settles what is open, except what was cancelled |
| Flights.DrainIsRight | src/autoperf/runner.py:364-376 | the drain writes exactly the results that are there of entries that are not late |
| Runner.OutcomeSettles | src/autoperf/runner.py:59-143 | a finished step writes exactly one of adapter_action, adapter_error and verification_failed, about itself |
| Runner.OutcomeKinds | src/autoperf/runner.py:90-143 | which of the seven events a finished step leaves, by what it raised or how it was found |
| Runner.CollectKinds | src/autoperf/runner.py:300-304 | a collector that returned leaves its samples, one that raised an error |
| Runner.TestRunner.constructor | src/autoperf/runner.py:259-271 | a run starts with nothing in flight and its steps sorted by time |
| Runner.TestRunner.Pass | src/autoperf/runner.py:260-336 | one pass of the loop: cancel check, collector sweep and submission, step sweep and submission, checkpoint |
| Runner.TestRunner.Run | src/autoperf/runner.py:259-403 | the passes until a cancel is seen, then the drain, and whether the run was interrupted |
| Runner.RunBalances | src/autoperf/runner.py:276-332 | throughout the run every submission is settled once or open, never twice in flight, and no step that was not submitted has an outcome |
| Runner.EverySubmissionIsSettled | src/autoperf/runner.py:276-376 | over loop and drain every submitted step has exactly one of adapter_action, adapter_error, verification_failed and adapter_timeout unless it was cancelled before starting, every other step none; likewise every submission of a collector |
| Runner.RunKeepsRates | src/autoperf/runner.py:294-335 | for any ticks: steps are submitted once, in order and never early; two submissions of a collector are at least its interval apart; checkpoints keep their interval |
| Runner.SubmittedWhenDue | src/autoperf/runner.py:329-332 | while the run goes on, the steps submitted are exactly those whose time has come |
| Runner.CheckpointRate | src/autoperf/runner.py:333-335 | k checkpoints take at least k intervals |
| Runner.CheckpointIff | src/autoperf/runner.py:333-335 | a pass writes a checkpoint if and only if the last one is an interval or more ago |
| Runner.HeartbeatStaysFresh | src/autoperf/runner.py:333-335 | while the loop runs, no two checkpoints are further apart than the interval and the longest pass, nor is the last one older |
| Runner.SignOfLifeAges | src/autoperf/runner.py:333-376 | at any moment, drain included, the row's sign of life is no older than it was at the start if no checkpoint came yet, one interval, the longest pass and the time since the last pass; while that is within 120 seconds no sweep takes the run for abandoned |
| Runner.CancelStopsRun | src/autoperf/runner.py:288-293 | a cancel on record stops the run by the first pass that comes a cancel-check interval later, and nothing is submitted or done after that |
| Timeouts.InFlightIff | src/autoperf/runner.py:316-332 | a step is in flight if and only if an earlier pass submitted it and no pass since found its result |
| Timeouts.StepTimesOutIff | src/autoperf/runner.py:323-327 | in every run: a step is reported late if and only if some pass that takes place finds it without a result `actionTimeout` or more after the pass that submitted it |
| Timeouts.DrainTimesNothingOut | src/autoperf/runner.py:364-376 | the end of the run reports no step late |
| Timeouts.CollectorInFlightIff | src/autoperf/runner.py:295-315 | a collector is in flight if and only if an earlier pass submitted it and no pass since found its result |
| Timeouts.CollectorTimesOutIff | src/autoperf/runner.py:305-309 | the same of collectors: late if and only if found without a result `collectorTimeout` or more after a submission |
| Timeouts.CollectorSubmittedIff | src/autoperf/runner.py:310-315 | a pass submits exactly the collectors whose interval since their last submission is over and that are not still out |
| Verdict.VerifiedIff | src/autoperf/storage.py:563-600 | a finished step clears a run's verified flag if and only if it failed verification or fell back on a target that has selectors |
| Verdict.QualityCounts | src/autoperf/storage.py:563-600 | each event counts once for its own kind |
| Verdict.VerifiedConcat | src/autoperf/storage.py:563-600 | a run is vouched for exactly when every part of its record is |
| Verdict.TimeoutIsHarmless | src/autoperf/runner.py:323-327 | a timeout does not clear it |
| Verdict.RunVerifiedIff | src/autoperf/runner.py:259-376 | over loop and drain a run is vouched for if and only if no step in flight and not yet reported late came back with such a result |
| Verdict.LateResultsDoNotCount | src/autoperf/runner.py:316-321 | the result of a step already reported late never changes that |
| Verdict.SilentRunIsVerified | src/autoperf/runner.py:316-376 | a run none of whose steps ever came back is vouched for |
| Statistics.VarianceFormsAgree | src/autoperf/storage.py:955-978 | the two-pass variance is E[x*x] - mean*mean and is never negative |
| Statistics.MeanBetweenExtremes | src/autoperf/storage.py:965-978 | minimum <= mean <= maximum |
| Statistics.MinIsLeast | src/autoperf/analyzer.py:59-60 | the minimum is one of the values and none is smaller |
| Statistics.MaxIsGreatest | src/autoperf/analyzer.py:59-61 | the maximum is one of the values and none is greater |
| Statistics.SpreadIsPositive | src/autoperf/analyzer.py:134-138 | a positive span makes the regression's denominator strictly positive |
| Statistics.LeastSquares | src/autoperf/analyzer.py:134-142 | no line has a smaller squared error than the reported one through the mean point |
| Statistics.ExactOnALine | src/autoperf/analyzer.py:134-142 | on points of a line the slope is that line's |
| Statistics.SlopeIgnoresOrigin | src/autoperf/analyzer.py:122-124 | shifting the time origin does not change the slope |
| Downsampling.BucketIsInterval | src/autoperf/storage.py:1005-1011 | bucket b is the ranks from ceil(b*n/B) up to ceil((b+1)*n/B) |
| Downsampling.BucketsInOrder | src/autoperf/storage.py:1005-1011 | bucket numbers do not decrease with rank and stay below B |
| Downsampling.BucketSizes | src/autoperf/storage.py:1005-1011 | every bucket holds floor(n/B) or ceil(n/B) samples, and none is empty when B <= n |
| Downsampling.SparseIsInjective | src/autoperf/storage.py:1005-1011 | with at least as many buckets as samples no two samples share one |
| Downsampling.GroupedIsSlice | src/autoperf/storage.py:1001-1011 | a bucket's point is the count, mean and extremes of its samples and the earliest of their times |
| Downsampling.DownsamplePreserves | src/autoperf/storage.py:965-1016 | counts add up to n, count-weighted bucket means give the aggregate mean, bucket extremes the aggregate extremes |
| Downsampling.PointsInOrder | src/autoperf/storage.py:1001-1016 | at most B points, in bucket order, each for its fair share of samples, one for every bucket when B <= n |
| Analyzer.Group | src/autoperf/analyzer.py:49-51 | each metric's rows in their order, each name once |
| Analyzer.ComputeStats | src/autoperf/analyzer.py:48-62 | for every metric, and no other, the statistics of its own values |
| Analyzer.StatsFromAggregates | src/autoperf/analyzer.py:65-90 | each row's statistics, with NULL, single and negative variances as zero |
| Analyzer.RowGuards | src/autoperf/analyzer.py:73-90 | a variance is kept if it is there, not negative and of more than one sample, and is zero otherwise |
| Analyzer.AggregatesAgree | src/autoperf/analyzer.py:65-90 | the reduction in SQL and the one in memory report the same statistics for any interleaving of metrics and any order of rows |
| Analyzer.StatsAreSound | src/autoperf/analyzer.py:48-62 | what is reported is sound: extremes are reached, the mean lies between them, the variance is E[x*x] - mean*mean and not negative |
| Analyzer.ComputeTrend | src/autoperf/analyzer.py:93-153 | one trend per metric, of its rows sorted by bucket |
| Analyzer.TrendIsBestFit | src/autoperf/analyzer.py:131-142 | whenever the span is positive no line on the absolute time axis fits better than the reported slope's |
| Analyzer.TrendOfALine | src/autoperf/analyzer.py:131-142 | bucket rows that lie on a line are reported with its slope |
| Analyzer.TrendOfConstant | src/autoperf/analyzer.py:127-142 | a metric that does not move has neither slope nor drift |
| Analyzer.DriftTakesStartToEnd | src/autoperf/analyzer.py:124-130 | start and end are the means of the first and the last edge of the sorted rows, the drift is the percentage that takes one to the other, and it is missing exactly when the first is zero |
| Analyzer.Edge | src/autoperf/analyzer.py:127 | an edge is the fraction's share of the rows in whole rows, but at least one and no more than there are |
| Analyzer.RisingDriftsUp | src/autoperf/analyzer.py:127-130 | a metric whose means never fall is not reported to end lower than it starts |
| Analyzer.BackwardsSwapsEdges | src/autoperf/analyzer.py:127-130 | told backwards, a metric starts where it ended and ends where it started |
| Analyzer.TrendIgnoresOrigin | src/autoperf/analyzer.py:122-153 | moving the run along the clock changes nothing that is reported |
| Analyzer.DownsampledIsSorted | src/autoperf/analyzer.py:121 | the rows of the downsampling query are already in the order the sort asks for |
| SampledLines.PointsOfLine | src/autoperf/storage.py:1001-1016 | the points of evenly sampled growth rise in time, each above the line by half of what its bucket rises |
| SampledLines.CountsFall | src/autoperf/storage.py:1005-1011 | buckets of unequal size hold more the earlier they start: their counts and first ranks have negative covariance |
| SampledLines.GrowthIsReportedIff | src/autoperf/analyzer.py:93-142 | from the samples to the reported slope: even growth of m an hour is reported as m if and only if B divides n, B >= n or m = 0, and as too flat otherwise |
| Analyzer.Compare | src/autoperf/analyzer.py:196-228 | one comparison for each of the baseline's metrics that the candidate has, in the baseline's order |
| Analyzer.RegressedIff | src/autoperf/analyzer.py:214-219 | a metric is flagged if and only if its mean moved by more than the threshold's share of the baseline mean, from zero if it moved at all |
| Analyzer.DeltaTakesBaselineToCandidate | src/autoperf/analyzer.py:215-220 | the percentage takes the baseline's mean to the candidate's, and is missing exactly when the baseline's is zero |
| Analyzer.UnitDoesNotMatter | src/autoperf/analyzer.py:214-219 | neither the flag nor the percentage depends on the metric's unit |
| Covering.MaxByGain | src/autoperf/preflight.py:178 | the pick has the largest gain, and of those that tie comes first in the alphabet |
| Covering.CoveringScenarios | src/autoperf/preflight.py:158-183 | the chosen scenarios cover every target of the pool; each was the best one when picked and added something |
| Covering.NoRepeats | src/autoperf/preflight.py:175-183 | no scenario is chosen twice |
| Covering.GreedyBound | src/autoperf/preflight.py:158-183 | if some k scenarios cover everything, then uncovered * k^j <= all * (k-1)^j after j picks |
| Covering.FewEnough | src/autoperf/preflight.py:158-183 | so no more picks are made than bring that bound below one target |
| Grading.SettledNodes | src/autoperf/preflight.py:282-308 | the first dump that fails or agrees with the one before decides, else the last one |
| Grading.SettledMeans | src/autoperf/preflight.py:282-308 | of three dumps the second decides when it agrees with the first, the third when it does not, and a failure of the first two decides too |
| Grading.Resolve | src/autoperf/uiauto.py:276-286 | the first selector that finds a node, else the coordinate, else nothing |
| Grading.CheckTarget | src/autoperf/preflight.py:311-361 | a target's status from the platform, the settled dump, the tap and the target |
| Grading.GradeMeans | src/autoperf/preflight.py:327-361 | what each status says: found by some selector on a readable screen, tapped blind by design or not, not tapped, not there |
| Grading.UnreadScreen | src/autoperf/preflight.py:345-357 | a screen that could not be read never counts as by design |
| Grading.CheckScenario | src/autoperf/preflight.py:196-266 | every tap is graded by what the device showed until a check loses the screen or the device is locked, and none after that; verifications are recorded in order |
| Grading.TapsAre | src/autoperf/preflight.py:222-231 | the taps that are graded are the steps that tap an element, in order |
| Grading.VerificationsAre | src/autoperf/preflight.py:364-375 | each verification step leaves one check, in order: failed if it said so, passed if it reported a state, else unknown |
| Grading.StatusesRead | src/autoperf/preflight.py:231-252 | the statuses read (MATCHED or NOT_APPLICABLE)*, at most one that loses the screen, then UNRELIABLE* |
| Grading.NotIntrospectable | src/autoperf/preflight.py:313-325 | a platform without a published interface has nothing graded against it |
| Summaries.Summarise | src/autoperf/preflight.py:378-471 | the loops compute, per target in alphabetical order, the five lists, the failed verifications and the verdict |
| Summaries.BucketMeans | src/autoperf/preflight.py:419-449 | where a target is listed, said of how its graded checks came out |
| Summaries.FindingsCarryGrades | src/autoperf/preflight.py:443-449 | a finding carries the grades its target got, but matched; no other line carries any |
| Summaries.RecordNamesScenarios | src/autoperf/preflight.py:393-415 | a target's record names every scenario that checked it, graded or not |
| Summaries.OneBucketEach | src/autoperf/preflight.py:418-449 | every target of the reports is listed once in one of the five lists, and nothing else is |
| Summaries.ReportOrderIsIrrelevant | src/autoperf/preflight.py:378-471 | reordering the reports changes none of the five lists nor the verdict, and of the failed verifications only the order |
| Summaries.OkIff | src/autoperf/preflight.py:128-134 | the summary is ok if and only if every report is and no target was graded in two different ways |
| Summaries.MixedTargetNeedsAttention | src/autoperf/preflight.py:429-449 | two reports that are ok whose summary is not |
| Campaigns.AcceptedIff | src/autoperf/campaigns.py:58-84 | exactly which specifications are accepted |
| Campaigns.ValidatedAgain | src/autoperf/campaigns.py:58-84 | what is accepted is at most 500 runs and is accepted again unchanged; a soak is one run |
| Campaigns.TierPlanIsFair | src/autoperf/campaigns.py:86-104 | every prefix of length k of a tier's plan has each of its m scenarios floor(k/m) times or once more, the first k mod m once more |
| Campaigns.PlanOfOneScenario | src/autoperf/campaigns.py:99-104 | a soak is one run of its scenario, a repeated scenario is run as often as asked |
| Campaigns.CreateCampaign | src/autoperf/campaigns.py:107-133 | an invalid specification changes nothing; a valid one adds the campaign's row and a waiting row per planned run |
| Campaigns.ChildrenAreThere | src/autoperf/campaigns.py:124-132 | those rows stand in the order of the plan, each with its scenario, and no other row changed |
| Campaigns.ChildrenAreListed | src/autoperf/storage.py:923-929 | listing the campaign yields the created runs in the order of the plan |
| Campaigns.DispatchFollowsPlan | src/autoperf/storage.py:723-742 | when one child is handed out none before it still waits |
| CampaignRuns.ExecuteRun | src/autoperf/campaigns.py:176-190 | the tables one child leaves, whether its row is there or not, by its read, its claim and how it ends, whatever others do before the claim and while it runs; afterwards it is over or gone |
| CampaignRuns.ChildEndsAs | src/autoperf/campaigns.py:181-192 | how a child's row ends: completed, interrupted or failed, by its scenario, its device, its flag, its claim and its run |
| CampaignRuns.ExecuteCampaign | src/autoperf/campaigns.py:136-208 | for anything others do at any moment, the loop is the execution that the rows below speak of: the listing, each child's look for a cancel, its run or skip, and the status from a second listing |
| CampaignRuns.RunOnceInOrder | src/autoperf/campaigns.py:166-193 | the children that were not over in the listing are run, once each and in order, until a cancel is found |
| CampaignRuns.EveryTurnEnds | src/autoperf/campaigns.py:160-203 | whatever tame others do, deletions included: at every point the children that had their turn are over or gone |
| CampaignRuns.ExecutionAlone | src/autoperf/campaigns.py:160-203 | the execution itself changes no row but its unfinished children's, except to release abandoned ones |
| CampaignRuns.SecondExecutionRunsNothing | src/autoperf/campaigns.py:152-174 | a second execution after an uncancelled one runs nothing |
| CampaignRuns.ResumesWhereItStopped | src/autoperf/campaigns.py:152-174 | after an execution that stopped, between two turns or in one, only children that were left are not over |
| CampaignRuns.ExecutedStatusIsDerived | src/autoperf/campaigns.py:205-243 | the status an uncancelled execution writes is the one derived from the rows it lists last: completed if and only if a row is left |
| CampaignRuns.AllOverIff | src/autoperf/campaigns.py:221-224 | for any tables: completed is written if and only if a listing has rows and all of them are over |
| CampaignRuns.ComesBackIff | src/autoperf/runner.py:200-218 | a child comes back in a row outside its campaign if and only if its row is missing when the runner reads it, and is run there if its device is free |
| CampaignRuns.ComesBackBetweenIff | src/autoperf/campaigns.py:166-183 | when only the cancel deletes children: if and only if the row is deleted between the loop's look for a cancel and the runner's read |
| CampaignRuns.OneComesBack | src/autoperf/campaigns.py:166-173 | one cancel brings back one child at most, and nothing is run after it |
| CampaignRuns.CancelledExecutesNothing | src/autoperf/campaigns.py:166-173 | the execution after a cancel runs nothing and leaves the tables to the others |
| CampaignRuns.CancelCampaign | src/autoperf/campaigns.py:211-218 | the cancel's statements, with others at work ahead of each: its flag, the read of the queue, the children's flags, the deletions, the status |
| CampaignRuns.CancelFlagsFirst | src/autoperf/campaigns.py:211-218 | a cancel deletes no child before its flag is on record, and leaves the flag there |
| CampaignRuns.CancelBringsOneBack | src/autoperf/campaigns.py:166-190 | any waiting child on a free device can be cancelled in between, made again, and run to its end in a row of no campaign |
| CampaignRuns.DeletedCampaignGoesOn | src/autoperf/storage.py:931-942 | a campaign deleted while it is executed is found cancelled by no later turn, and every child that was left comes back outside it |
| Campaigns.SummaryAgrees | src/autoperf/campaigns.py:400-421 | the list of campaigns, from counts, and the page of one, from its runs, show the same status and progress; full progress is completed |
| Repeats.Analyse | src/autoperf/campaigns.py:271-342 | the counts, pass rate and flakiness of one scenario's runs |
| Repeats.RepeatAnalysis | src/autoperf/campaigns.py:265-343 | one analysis for each scenario, of its own runs, in alphabetical order |
| Repeats.RegressedMeans | src/autoperf/campaigns.py:292-307 | a run regressed if and only if a metric it shares with the baseline moved by more than the threshold's share |
| Repeats.CompletedAreVerified | src/autoperf/campaigns.py:282-284 | leaving out the unverified by id leaves the finished runs that were vouched for |
| Repeats.EveryRunIsCounted | src/autoperf/campaigns.py:327-337 | total = pending + completed + unverified + errored |
| Repeats.PassRateMeans | src/autoperf/campaigns.py:325-340 | the pass rate is a percentage of the runs that broke or completed, strictly between none and all exactly when flaky |
| Repeats.FlakyIff | src/autoperf/campaigns.py:325-340 | a scenario is flaky if and only if a run of it passed and a run of it failed |
| Repeats.BaselinePassesItself | src/autoperf/campaigns.py:292-307 | the run a baseline was taken from passes |
| DocsRenderer.AlignRowIsTheExpression | scripts/build-docs-html.py:330 | the alignment-row test accepts what the regular expression matches |
| DocsRenderer.Dedent | scripts/build-docs-html.py:356-361 | lines outside a fence lose their indentation, lines inside keep it |
| DocsRenderer.RenderBlocks | scripts/build-docs-html.py:345-455 | ends on every input; the blocks stand in order, each faithful to the lines it claims and no shorter than it could be, and every other line is blank or a separator |
| DocsRenderer.TakeFence | scripts/build-docs-html.py:371-377 | a fence takes the lines up to its closing mark, or all that are left, with the index one past the end |
| DocsRenderer.TakeParagraph | scripts/build-docs-html.py:435-450 | a paragraph takes the lines no other block starts with; a line nothing claims is taken alone |
| DocsRenderer.BlanksAreCut | scripts/build-docs-html.py:421-423 | a quoted line loses the blanks behind its mark and nothing else |
| DocsRenderer.EveryLineOnce | scripts/build-docs-html.py:362-455 | no line belongs to two blocks, and a line with anything to say belongs to one |
| DocsRenderer.BodiesAreInCode | scripts/build-docs-html.py:371-377 | the lines of the rendered fences' bodies are exactly those between the parser's own marks |
| DocsRenderer.FencesAreVerbatim | scripts/build-docs-html.py:356-377 | the bodies of a document's own fences are their lines as they were written if and only if no line that is code to the parser, and is indented, is taken for text by the dedenter |
| DocsRenderer.EveryFenceIsVerbatim | scripts/build-docs-html.py:345-430 | and so are those of every quote in it, however deep, each of which is dedented once more, under the same condition on the quote's lines |
| DocsRenderer.HalvesAgree | scripts/build-docs-html.py:356-377 | dedenter and parser agree at every line if and only if no mark inside a fence is indented |
| DocsRenderer.AgreeingHalvesKeepLayout | scripts/build-docs-html.py:356-377 | then all code keeps its layout |
| DocsRenderer.IndentedMarkLosesLayout | scripts/build-docs-html.py:356-377 | an input with such a mark, and the fence it is rendered to, whose code has lost its indentation |
| QueueSim.SimulateQueue | scripts/demo.py:599-617 | starts never overlap, run k ends at the maximum over j <= k of arrival j plus the work of j to k, and the schedule has the last run of every key |
| QueueSim.SlotsAre | scripts/demo.py:612-613 | a run begins six seconds after its beat or when the one before it ends, and keeps the worker for its duration and three seconds |
| Sorting.SortOrders | src/autoperf/runner.py:265 | sorting orders the items, keeps every one of them and leaves ordered items alone |
| Sorting.SortIsStable | src/autoperf/runner.py:265 | items that tie stay in the order they came in |
| Sorting.AlphabeticalIgnoresOrder | src/autoperf/preflight.py:418 | the alphabetical order of some strings does not depend on how they came |

## Left out

* Exclusivity (`LockProtocol.DeviceExclusivity`) is proved under hypotheses the code does not
  enforce, since a heartbeat rewrites the status unseen (`src/autoperf/runner.py:335`): a live run's
  heartbeats come less than 120 seconds apart, one worker claims a row, a claimed row is pending or
  was seen within 120 seconds, and nobody else changes a live run's status or re-creates its row.
  `LockProtocol.OneDriverPerDevice` also asks that preflights end within 900 seconds and that a live
  run's row is not deleted.
  What breaks without one of them is proved beside it: `LockProtocol.StaleResumeBreaksExclusivity`,
  `LockProtocol.CancelButtonBreaksExclusivity`, `LockProtocol.DeletingLiveRunFreesDevice`, and for two workers on
  one row `Starting.SecondDriverIff`.
* A call of the claim is two sweeps and one statement, between which nothing else happens in
  `Dashboard.BeginRun`; `LockProtocol` interleaves the three.
* `dispatch_pending` is one step of the protocol; its three statements could interleave with another
  dispatcher's.
* The samples, events and baselines tables are not rows of `Tables`; deleting a run there
  removes its run row only, and which run becomes a baseline is not modelled. A row that somebody else inserts
  between a read that misses it and the insert, which makes the insert raise, is not modelled either.
- Runner.TestRunner.Run: an exception in the middle of a pass, which ends the run as failed, is not modelled, because every call that can raise is then an outcome of its own; nor are the lifecycle events and the quieting of the device.
- Runner.TestRunner.Pass: a stop by Ctrl+C is not modelled, only the cancel flag.
- Runner.EverySubmissionIsSettled: what a collector's samples hold is not modelled, only that they were stored.
- BatchWriting.BatchWriter.Take: a pass of the writer is two steps, so that a put can fall between taking and deciding.
- Covering.GreedyBound: nothing better than the greedy guarantee is claimed of the number of scenarios.
- Grading.CheckScenario: waiting for a step's time, texts, and the nodes recorded for the reader are left out.
- Summaries.Summarise: the reader's texts, strategies and observed nodes are left out; the first of them does depend on the order of the reports.
- CampaignRuns.EveryTurnEnds: others bring no row under a child's name or into the campaign, move none out of it and set no child back that is over; the look, the read and every write are otherwise theirs to precede.
- CampaignRuns.ExecuteCampaign: the listing is a parameter, and baselines and the caller's progress reports are left out.
- Campaigns.CreateCampaign: its inserts are separate transactions, between which nobody acts here; all the names in them are fresh.
- Repeats.Analyse: the spread of each metric across runs is left out; it is the statistics of `Analyzer` over the runs' means.
- DocsRenderer.RenderBlocks: the HTML, the links and inline markup are left out; white space is ASCII.
- QueueSim.SimulateQueue: arrivals are not negative.
* Rounding of floating-point numbers, square roots (variances stand for standard deviations),
  timestamp formats, JSON and Unicode.
* Everything that talks to a device, a browser, a broker or a process: adb, websockets, Celery,
  Redis, ffmpeg, Django views, regular expressions over device output, selector and scenario tables.
* The live screen's handler, which depends on the order in which asyncio cancels tasks.
* Suites, soak analysis, version comparison, schema migrations and the command line, which would
  only add easy members.
