# Verified model of the futures bot's data plane

This project models, in Dafny 4.11, the parts of the futures bot that keep state, run loops or make
promises about whole runs, and proves those promises for all inputs and all runs.
`dafny verify dfyconfig.toml` checks everything. Each file holds one module:

| module | what it models |
|---|---|
| `DbWriter`, `DbWriterRuns`, `DbWriterSchedules`, `DbWriterMarkers`, `LogCleaner`, `DbWriterExamples` | the local DB writer: broker batches that overlap, repeat and are interrupted; durable log, checkpoint, sidecar and cursor written in a fixed order without a transaction; the log cleaner that relies on them; inputs at which simpler claims fail |
| `LatestSelection`, `SelectionOrder`, `HealthSelection`, `MarketFrame` | the folds that keep the latest observation of each stream and the latest health snapshot of each scope, when they do not depend on arrival order, and the frame that is built from them |
| `ReplayRun`, `DispatchPlan`, `Timeline`, `ReplayOrder` | replay runs with their two transition matrices, the dispatch plan of one event, the accepted order of a timeline, and the order in which whole runs dispatch |
| `SnapshotStore`, `Conversion` | the conversion-rate store with its pair index; conversion by one rate, an inverted rate or a chain of conversions |
| `LiveState` | stream slices, live snapshots, persisted-until markers, stitching a live tail onto history |
| `Instruments` | normalising instrument spellings |
| `OrderLifecycle` | the order transition table and its runs |
| `Ordering`, `Wrappers` | string order, sorting of distinct keys, `Option` and `Result` |

Code that changes state or loops is a class or a method with a loop, proved equal to a function of its
inputs; the theorems are about those functions. Exceptions are values of an error datatype.

## How a crash is modelled

`CommitConsumedBatch` takes one argument that the service's method does not have, `saves`: the process
stops after that many of the four saves (durable log, checkpoint, sidecar, cursor). With `saves >= 4`
the call runs to its end. `DbWriterSchedules.Play` runs any sequence of deliveries, each with its own
batch, clock value and stopping point. The port `commit_records` is not assumed: the in-memory store is modelled and
its merge is proved atomic and idempotent.

`Upstream` is the published log; `FromUpstream` says that every record of a batch is the published one,
with its true broker offset. Nothing else is assumed of a schedule.

## What turned out false, and exactly when it holds

- *The durable log is always gap-free.* Not before a run has a checkpoint: a first batch can be
  interrupted right after the log save, and the next delivery can start elsewhere
  (`AnInterruptedFirstBatchCanLeaveAGap`). `ExactlyOnce` gives the exact condition: the log is gap-free
  at every moment if and only if every delivery was `Safe`, that is, once the run has a checkpoint any
  batch will do, and before that a batch must overlap or touch what is already in the log.
- *A batch is accepted when `a <= c + 1` and what it repeats matches.* A batch that starts before the
  log's first record is refused (`ABatchBeforeTheLogIsRefused`), and so is one that runs into a gap of the
  log (`ABatchAcrossAGapIsRefused`). Records past the checkpoint can be in the log already, left by an
  interrupted delivery, and those must match too (`ALeftoverCanRefuseABatch`).
  `AcceptanceIsIntervalArithmetic` is the exact condition, for logs with and without gaps.
- *A batch may be split anywhere.* Not when the whole is refused for an offset the log lacks and the cut
  leaves that offset in the head: the tail by itself can go through (`ACutCanMatter`). `SplitExactlyWhen`
  says that this is the only cut that matters, in terms of what the stores hold before the call.
- *Redelivery ends where one undisturbed delivery ends.* `RedeliveryConvergesExactlyWhen` says when, for
  every stopping point: always, unless the first delivery brought something new, got past its checkpoint
  save and stopped there, before a configured sidecar or before a cursor that would have accepted. In that
  case the redelivery writes nothing (`RedeliveryWritesNothing`) and the marker stays behind
  (`ARedeliveryCanLeaveAMarkerBehind`).
- *The next batch with a new record brings all markers level.* It does so for log, checkpoint and sidecar.
  The cursor comes along exactly when its partition is not already as far or further
  (`NewRecordsRepair`, `SaveFailsExactlyWhen`); two runs that share a partition out of order make it refuse
  (`TheCursorCanRefuse`). `CursorsKeepUp` shows that one run per partition, in WAL order, rules that out
  for every schedule.
- *The cleaner deletes only what is durable.* A segment can reach back before the log's first record
  (`TheCleanerCanTakeWhatWasNeverDurable`), and a gap of the log can lie inside it
  (`TheCleanerCanTakeAGap`). `CleanerLosesNothingExactlyWhen` gives the condition: the segment's first
  offset is in the log and none of its offsets lies in a gap. It needs this writer to have a sidecar for the
  run; without one the cleaner does not wait for it (`TheCleanerDoesNotWaitForAnAbsentWriter`).
  `CleanerAfterSafeSchedule` adds that after safe schedules the first offset alone decides.
- *The latest observation does not depend on arrival order.* The comparison is not transitive across
  sessions (`OutOfTimeSequencesCycle`). `OrderIndependentExactly` gives the exact condition, and
  `TimelySequencesAreOrderIndependent` one that a feed can keep.
- *Selecting health snapshots does not depend on their order.* What is kept does not
  (`OrderNeverChangesWhatIsKept`), but whether it raises can (`OrderCanDecide`). It succeeds in every order
  if and only if all snapshots are admissible and no two of one scope are tied, however old
  (`SucceedsInEveryOrderExactly`); in some order if and only if all are admissible and every scope has one
  latest (`SucceedsInSomeOrderExactly`). Order decides for what lies between the two.
- *Every accepted step result comes from an accepted pair of states.* The result record compares receipt
  ids, which contain the index, so it accepts one event reported twice (`AResultCanRepeatAnEvent`);
  `RealisableExactly` gives the condition.
- *The stitcher answers for valid slices.* It raises for a tail that starts right behind the history with
  the wrong sequence number (`ASequenceJumpCannotBeStitched`), and for a state it would call tradable whose
  tail does not claim to be gap-free under a policy that does not ask for it
  (`AnUnclaimedTailCannotBeStitched`); `StitchesExactlyWhen` states when, both ways.
- *The ordering policies fix the order.* Two of them do (`OrderIsDeterminedByContent`); the others accept
  any two neighbours swapped (`OtherPoliciesFixNoOrder`).

## Model

| member | source | states |
|---|---|---|
| DbWriter.BatchErrorMeaning | src/futures_bot/db_writer/service.py:165-181 | batch validation accepts exactly the non-empty batches of one run and one broker partition whose offsets are consecutive in both logs |
| DbWriter.ValidateBatch | src/futures_bot/db_writer/service.py:165-181 | the validation loops report the first failing check, in the code's order |
| DbWriter.ValidateSortedContiguous | src/futures_bot/db_writer/service.py:247-258 | unsorted values are reported before gaps, and nothing else is reported |
| DbWriter.CommittedEventStore.Commit | src/futures_bot/infrastructure/db_writer/in_memory.py:26-56 | the staged merge is atomic: it equals the record-by-record merge or changes nothing, and returns the journal records passed in |
| DbWriter.CheckpointStore.Save | src/futures_bot/infrastructure/checkpoints/in_memory.py:62-85 | no checkpoint ever goes back, and at one offset its event stays; a save that succeeds can be read back; repeats are no-ops, a different event at the same offset is refused |
| DbWriter.CursorStore.Save | src/futures_bot/infrastructure/checkpoints/in_memory.py:107-143 | no cursor ever goes back in its partition, and at one broker offset its position stays; a save that succeeds can be read back; conflicts are refused |
| DbWriter.RequiredConsumerStore.Upsert | src/futures_bot/infrastructure/checkpoints/in_memory.py:182-205 | no sidecar ever goes back, and at one offset its cleaner role stays; a save that succeeds can be read back |
| DbWriter.LocalDbWriterService.CommitConsumedBatch | src/futures_bot/db_writer/service.py:74-154 | the call leaves the four stores and answers exactly as the specification `Deliver` says, wherever the process stops |
| DbWriter.LocalDbWriterService.WriteStores | src/futures_bot/db_writer/service.py:105-154 | durable log first, then checkpoint, then the two markers; a store that refuses leaves the earlier saves standing |
| DbWriter.LocalDbWriterService.WriteMarkers | src/futures_bot/db_writer/service.py:127-154 | the sidecar before the cursor, each only if configured |
| DbWriter.LocalDbWriterService.ValidateCheckpointDuplicates | src/futures_bot/db_writer/service.py:183-219 | reports the first record at or before the checkpoint that the log does not hold with the same event and broker offset |
| DbWriterRuns.CommitRecordsMeaning | src/futures_bot/infrastructure/db_writer/in_memory.py:26-56 | a commit succeeds exactly when no record conflicts; it then adds the free slots of the batch and changes nothing already there |
| DbWriterRuns.AbsorbMeaning | src/futures_bot/infrastructure/db_writer/in_memory.py:39-55 | the same for the merge loop alone, for any records with distinct slots |
| DbWriterRuns.AfterIsSuffix | src/futures_bot/db_writer/service.py:87-96 | the records filtered as past the checkpoint are a suffix of the batch |
| DbWriterRuns.AdmissionMeaning | src/futures_bot/db_writer/service.py:83-103 | against a checkpoint a batch is refused exactly for a hole before it or a repeat that does not match; otherwise the part past the checkpoint goes on |
| DbWriterRuns.SaveAllShape | src/futures_bot/db_writer/service.py:105-154 | once the log accepts the records, checkpoint and sidecar accept too: only the cursor can still refuse |
| DbWriterRuns.DeliverKeepsConsistent | src/futures_bot/db_writer/service.py:74-154 | every delivery, stopped anywhere, keeps sidecar <= checkpoint, cursor <= checkpoint <= log, and published records only in the log |
| DbWriterRuns.RefusalChangesNothing | src/futures_bot/db_writer/service.py:78-105 | a refused batch changes no store, for any stores, any records and any stopping point |
| DbWriterRuns.PendingExactlyWhen | src/futures_bot/db_writer/service.py:78-103 | published records have something to write exactly when they leave no hole behind the checkpoint, go past it, and what they repeat is in the log |
| DbWriterRuns.AcceptanceIsIntervalArithmetic | src/futures_bot/db_writer/service.py:78-105 | with a checkpoint c, a batch over [a, b] is accepted exactly when a <= c + 1, it starts inside the log or right behind c, it repeats no offset in a gap of the log, and every taken slot agrees; the checkpoint becomes max(b, c); a refusal changes no store |
| DbWriterSchedules.GapFreeIffSafe | src/futures_bot/db_writer/service.py:83-105 | one delivery leaves all runs gap-free exactly when the batch touches the log or the run has a checkpoint |
| DbWriterSchedules.MarkersStayOrdered | src/futures_bot/db_writer/service.py:105-152 | the marker order holds after every schedule of deliveries, repeats and crashes |
| DbWriterSchedules.ExactlyOnce | src/futures_bot/db_writer/service.py:74-125 | from empty stores, after any schedule the log holds exactly the records of the deliveries that were taken, each as published; it is gap-free throughout exactly when every delivery was safe |
| DbWriterSchedules.TakenIsDurable | src/futures_bot/db_writer/service.py:74-125 | one delivery adds exactly what it carried if it was taken, nothing otherwise |
| DbWriterSchedules.CheckpointIsHighestProcessed | src/futures_bot/db_writer/service.py:105-125 | after any schedule the checkpoint offset is the highest offset of a batch that got past its checkpoint save |
| DbWriterSchedules.SameOffsetSameCheckpoint | src/futures_bot/db_writer/service.py:111-124 | two histories that got equally far have the same checkpoint up to batch id and timestamp |
| DbWriterSchedules.SplitExactlyWhen | src/futures_bot/db_writer/service.py:78-154 | delivering a batch in two parts leaves the same stores as delivering it whole, up to batch ids and timestamps, exactly unless the head repeats an offset the log lacks while the tail starts inside what is committed and brings news |
| DbWriterSchedules.SplitOfAccepted | src/futures_bot/db_writer/service.py:78-154 | a batch that passes admission may be cut anywhere |
| DbWriterSchedules.RetryConverges | src/futures_bot/db_writer/service.py:105-125 | a delivery that died before its checkpoint save, redelivered, ends where one undisturbed delivery ends |
| DbWriterSchedules.RedeliveryConvergesExactlyWhen | src/futures_bot/db_writer/service.py:95-152 | for every stopping point, a delivery redelivered ends where one undisturbed delivery ends, up to batch ids and timestamps, exactly when it left no sidecar or cursor behind that would have moved |
| DbWriterSchedules.RedeliveryWritesNothing | src/futures_bot/db_writer/service.py:95-96 | once a delivery got past its checkpoint save, delivering the batch again is answered as nothing new and writes nothing |
| DbWriterSchedules.NewRecordsRepair | src/futures_bot/db_writer/service.py:111-152 | the first undisturbed delivery that brings something new brings log, checkpoint and sidecar to its last record, and the batch id names the new offsets; the cursor comes along, and the call succeeds, exactly when the cursor was behind |
| DbWriterSchedules.OverlapKeepsShift | src/futures_bot/db_writer/service.py:172-219 | one shared record is enough to keep the log's broker-minus-WAL shift, for any records |
| DbWriterMarkers.DeliveryNeverGoesBack | src/futures_bot/db_writer/service.py:105-152 | one delivery, of any records and stopped anywhere, takes back no durable record and lowers no checkpoint, sidecar or cursor |
| DbWriterMarkers.NothingGoesBack | src/futures_bot/db_writer/service.py:105-152 | the same over every schedule, from any stores |
| DbWriterMarkers.SaveFailsExactlyWhen | src/futures_bot/db_writer/service.py:139-152 | a delivery ends in a refused save exactly when it brings news, reaches the cursor save, and its partition's cursor is already as far |
| DbWriterMarkers.NeverFailsExactlyWhen | src/futures_bot/db_writer/service.py:139-152 | the same over whole schedules |
| DbWriterMarkers.CursorsKeepUp | src/futures_bot/db_writer/service.py:139-152 | cursors always stand at published records of their partition; with one run per partition, in WAL order, no delivery of any schedule ends in a refused save |
| LogCleaner.CleanerLosesNothingExactlyWhen | src/futures_bot/domain/sidecars.py:237-289 | while this writer counts, all offsets of an eligible segment are durable exactly when its first one is in the log and none lies in a gap of the log; durable means as published |
| LogCleaner.CleanerAfterSafeSchedule | src/futures_bot/domain/sidecars.py:237-289 | after any safe schedule from empty stores an eligible segment is durable exactly when its first offset was delivered |
| DbWriterExamples.AnInterruptedFirstBatchCanLeaveAGap | src/futures_bot/db_writer/service.py:83-84 | the concrete schedule that leaves a gap |
| DbWriterExamples.ABatchBeforeTheLogIsRefused | src/futures_bot/db_writer/service.py:199-204 | a batch that reaches back before the log's first record is refused although all it shares with the log matches |
| DbWriterExamples.ALeftoverCanRefuseABatch | src/futures_bot/infrastructure/db_writer/in_memory.py:42-51 | a batch that starts right behind the checkpoint is refused for what an interrupted delivery left |
| DbWriterExamples.ABatchAcrossAGapIsRefused | src/futures_bot/db_writer/service.py:199-204 | a batch that starts inside the log and runs into a gap is refused |
| DbWriterExamples.ARedeliveryCanLeaveAMarkerBehind | src/futures_bot/db_writer/service.py:95-96 | a delivery stopped after its checkpoint save and redelivered ends behind an undisturbed one |
| DbWriterExamples.ACutCanMatter | src/futures_bot/db_writer/service.py:183-204 | a batch that is refused whole and goes through in part |
| DbWriterExamples.TheCursorCanRefuse | src/futures_bot/infrastructure/checkpoints/in_memory.py:118-125 | two runs sharing a partition, where the cursor refuses the second |
| DbWriterExamples.TheCleanerCanTakeWhatWasNeverDurable | src/futures_bot/domain/sidecars.py:275-289 | an eligible segment whose first offsets were never durable |
| DbWriterExamples.TheCleanerCanTakeAGap | src/futures_bot/domain/sidecars.py:275-289 | an eligible segment whose first offset is durable and whose fourth never was |
| DbWriterExamples.TheCleanerDoesNotWaitForAnAbsentWriter | src/futures_bot/domain/sidecars.py:177-191 | with another consumer's sidecar only, a segment is eligible while nothing of it is durable |
| LatestSelection.SelectLatest | src/futures_bot/domain/market_data.py:829-852 | the dictionary loop and the sort compute the specification `Select`, failures included |
| LatestSelection.KeyLessStrictTotal | src/futures_bot/domain/market_data.py:890-898 | stream keys are strictly and totally ordered, so the sort has one result |
| LatestSelection.FoldCollects | src/futures_bot/domain/market_data.py:837-848 | observations of new, distinct streams are all collected |
| LatestSelection.IncrementalSelection | src/futures_bot/domain/market_data.py:837-852 | select(A + B) == select(select(A) + B) for all inputs, including when it raises |
| SelectionOrder.OrderIndependentExactly | src/futures_bot/domain/market_data.py:837-852 | selection succeeds alike for every input order exactly when same-stream observations are pairwise comparable and each stream has one that beats all others |
| SelectionOrder.WinnersMakeOrderIrrelevant | src/futures_bot/domain/market_data.py:837-852 | with such winners every permutation selects them |
| SelectionOrder.TimelySequencesAreOrderIndependent | src/futures_bot/domain/market_data.py:1079-1135 | sequence numbers that never contradict receive time inside a session are enough |
| SelectionOrder.NewerIsTransitive | src/futures_bot/domain/market_data.py:1079-1135 | under that condition the hybrid comparison is transitive |
| SelectionOrder.AmbiguityCanFail | src/futures_bot/domain/market_data.py:849-851 | any incomparable pair of one stream makes some input order raise |
| SelectionOrder.BeatenCanLose | src/futures_bot/domain/market_data.py:849-851 | any beaten observation is dropped by some input order |
| SelectionOrder.CyclesHaveNoWinner | src/futures_bot/domain/market_data.py:1079-1112 | a three-cycle of the comparison leaves a stream without a winner |
| SelectionOrder.OutOfTimeSequencesCycle | src/futures_bot/domain/market_data.py:1079-1112 | two observations of one session and one of another form such a cycle, and the answer depends on arrival order |
| MarketFrame.CheckSources | src/futures_bot/domain/market_data.py:860-872 | the descriptor loop accepts exactly one description per source id |
| MarketFrame.CheckInstruments | src/futures_bot/domain/market_data.py:874-887 | the instrument loop accepts exactly one reference per instrument id |
| HealthSelection.LatestHealth | src/futures_bot/market_data/frame_builder.py:68-94 | the dictionary loop computes the specification `WeighAll`, failures included |
| HealthSelection.KeptIsLatest | src/futures_bot/market_data/frame_builder.py:73-94 | a selection that succeeds keeps for every scope the one latest snapshot |
| HealthSelection.OrderNeverChangesWhatIsKept | src/futures_bot/market_data/frame_builder.py:73-94 | two orders that both succeed keep the same |
| HealthSelection.SucceedsInEveryOrderExactly | src/futures_bot/market_data/frame_builder.py:74-93 | selection succeeds in every order exactly when all snapshots are admissible and no two of one scope are tied |
| HealthSelection.SucceedsInSomeOrderExactly | src/futures_bot/market_data/frame_builder.py:74-93 | selection succeeds in some order exactly when all snapshots are admissible and every scope has one latest |
| HealthSelection.OrderCanDecide | src/futures_bot/market_data/frame_builder.py:87-93 | three snapshots of one scope that are selected in one order and raise in another |
| HealthSelection.HealthShape | src/futures_bot/market_data/frame_builder.py:51-52 | the sorted selection holds the latest snapshot of every scope, in strict scope order |
| MarketFrame.ScanObservations | src/futures_bot/domain/market_data.py:582-591 | the observation loop accepts exactly admissible records of distinct streams |
| MarketFrame.ScanHealth | src/futures_bot/domain/market_data.py:593-605 | the health loop accepts exactly admissible snapshots of distinct scopes |
| MarketFrame.ValidateFrame | src/futures_bot/domain/market_data.py:580-615 | the frame's checks accept exactly: admissible observations and health snapshots, strictly ascending by stream and by scope, with consistent authorities |
| MarketFrame.AuthoritySurvivesSelection | src/futures_bot/domain/market_data.py:855-887 | keeping fewer observations and snapshots creates no conflict |
| MarketFrame.SelectionShape | src/futures_bot/domain/market_data.py:837-852 | a selection holds one observation per input stream, taken from the input, in key order, none too new |
| MarketFrame.SelectionsMakeAFrame | src/futures_bot/domain/market_data.py:580-615 | built from consistent inputs, the two selections pass every check of the frame |
| MarketFrame.BuildFrame | src/futures_bot/market_data/frame_builder.py:41-65 | the builder answers exactly when authorities are consistent and both selections succeed; the frame's own checks never raise on its result |
| ReplayRun.MatricesAgree | src/futures_bot/domain/replay.py:2981-3058 | over a timeline with unique event ids, the state check and the result record's matrix accept the same pairs of valid states |
| ReplayRun.RealisableExactly | src/futures_bot/domain/replay.py:2905-2978 | an accepted step result comes from an accepted pair of states exactly when its receipts name distinct events |
| ReplayRun.AResultCanRepeatAnEvent | src/futures_bot/domain/replay.py:2905-2978 | a step result that reports one event twice is accepted |
| ReplayRun.EachIndexOnce | src/futures_bot/domain/replay.py:2905-2978 | along any linked chain of accepted results from CREATED the receipts carry the indexes 0, 1, 2, ... without gap or repeat, and the run is completed exactly when all are there |
| ReplayRun.RunSafety | src/futures_bot/domain/replay.py:3094-3181 | in any run from CREATED: revision counts the steps, progress never goes back, FAILED and INVALIDATED are unreachable, COMPLETED is terminal, start and completion are written once |
| ReplayRun.ProgressIsBounded | src/futures_bot/domain/replay.py:3168-3211 | every dispatching step uses up events: no run has more of them than events |
| ReplayRun.RunMakesAcceptedResults | src/futures_bot/domain/replay.py:2858-2978 | the step results of a run of states are accepted and linked |
| ReplayRun.RunDispatchesTimelinePrefix | src/futures_bot/domain/replay.py:3147-3211 | a run dispatches exactly the timeline's prefix up to its progress, in order, each event once |
| ReplayRun.CompletedMeansAllDispatched | src/futures_bot/domain/replay.py:3173-3177 | a run is COMPLETED exactly when it took a step and dispatched the whole timeline |
| DispatchPlan.ValidatePlan | src/futures_bot/domain/replay.py:2528-2556 | the plan validator accepts exactly the canonical plans |
| DispatchPlan.ScanRecords | src/futures_bot/domain/replay.py:2534-2550 | the record loop accepts exactly ascending keys in the right context, and collects each handler's indexes |
| DispatchPlan.CheckIndexes | src/futures_bot/domain/replay.py:2551-2555 | the index loop accepts exactly indexes 0, 1, 2, ... for every handler |
| DispatchPlan.ScannedExactlyBlocks | src/futures_bot/domain/replay.py:2533-2555 | scan and index check accept exactly the concatenations, in handler order, of blocks numbered from 0 |
| DispatchPlan.SlotsAreDistinct | src/futures_bot/domain/replay.py:2540-2555 | no two records of a canonical plan share handler and output index |
| DispatchPlan.KeyScanAloneAdmitsASharedSlot | src/futures_bot/domain/replay.py:2540-2546 | the key scan alone would admit two records of one slot |
| Timeline.SortedByIsSort | src/futures_bot/domain/replay.py:1149-1167 | sorting gives an ordered permutation, and equals its input exactly for ordered input |
| Timeline.OrderIsDeterminedByContent | src/futures_bot/domain/replay.py:1143-1167 | under either sorting policy two accepted timelines with the same events hold the same sequence |
| Timeline.TimeNeverGoesBack | src/futures_bot/domain/replay.py:649-655 | event time never decreases as the order index grows |
| Timeline.SortingMakesAnAcceptedTimeline | src/futures_bot/domain/replay.py:687-702 | any events that pass the content checks become an accepted timeline by sorting and numbering |
| Timeline.OtherPoliciesFixNoOrder | src/futures_bot/domain/replay.py:1143-1167 | under the remaining policies any two neighbours may be swapped |
| ReplayOrder.DispatchFollowsTime | src/futures_bot/domain/replay.py:3147-3211 | a run over a timeline accepted under a sorting policy dispatches its events by order index, each once, with times that never go back |
| ReplayOrder.CompletedRunsAgree | src/futures_bot/domain/replay.py:1143-1167 | two completed runs over accepted timelines of the same events dispatch the same events in the same order |
| SnapshotStore.InMemoryStore.Put | src/futures_bot/asset_conversion/in_memory.py:24-35 | a new snapshot is added, an equal one is a no-op, a collision changes nothing; index and map stay in step |
| SnapshotStore.InMemoryStore.LatestForPair | src/futures_bot/asset_conversion/in_memory.py:43-59 | the answer through the pair index is the brute-force maximum by (captured_at, id) over the whole store |
| SnapshotStore.InMemoryStore.ListSnapshots | src/futures_bot/asset_conversion/in_memory.py:61-64 | all snapshots, each once, in id order |
| SnapshotStore.LatestIsUnique | src/futures_bot/asset_conversion/in_memory.py:59 | there is one such maximum |
| SnapshotStore.FirstPutWins | src/futures_bot/asset_conversion/in_memory.py:24-35 | after any puts each id holds the first snapshot put with it |
| SnapshotStore.PutOrderDoesNotMatter | src/futures_bot/asset_conversion/in_memory.py:24-35 | order and repetition of puts do not change the store, when ids identify snapshots |
| SnapshotStore.AnswerIsMaximumOfHistory | src/futures_bot/asset_conversion/in_memory.py:43-59 | the answer is the maximum over everything ever put |
| Conversion.TriangulatedDecision | src/futures_bot/asset_conversion/policies.py:302-391 | the loop over the legs computes the specification `Triangulated` |
| Conversion.WalkMeaning | src/futures_bot/asset_conversion/policies.py:321-379 | the loop arrives exactly along connected paths of usable legs, with the product of their rates |
| Conversion.WalkBreaksAtFirstBadLeg | src/futures_bot/asset_conversion/policies.py:323-367 | a refusal names the first leg that cannot be taken |
| Conversion.ChainReadyExactlyOnPaths | src/futures_bot/asset_conversion/policies.py:22-134 | for distinct assets and legs only, READY holds exactly when policy and pair allow it and the legs are a path; the rate is the positive product |
| Conversion.AnswersAreValid | src/futures_bot/domain/asset_conversion.py:313-340 | every answer satisfies the decision record's own checks, so it can serve as a leg |
| Conversion.ChainsCompose | src/futures_bot/asset_conversion/policies.py:302-391 | two paths end to end convert at the product of their rates |
| Conversion.FlatteningKeepsTheAnswer | src/futures_bot/asset_conversion/policies.py:302-391 | replacing a nested chain by its own legs changes neither readiness nor rate |
| Conversion.InverseMirrorsDirect | src/futures_bot/asset_conversion/policies.py:237-299 | a rate usable forwards is usable backwards exactly when inversion is allowed, at the exact reciprocal |
| Conversion.PathsReturn | src/futures_bot/asset_conversion/policies.py:237-299 | the answers for a path of single rates turned round form a path back exactly when every rate's policy permits it, at the reciprocal product |
| Conversion.ThereAndBack | src/futures_bot/asset_conversion/policies.py:22-134 | when a chain of single rates is READY, the evaluator's answer for the chain turned round is READY exactly when the pair and every hop permit it, at the exact reciprocal rate |
| LiveState.ContiguousIsProgression | src/futures_bot/domain/live_state.py:709-712 | contiguous events advance by one in offset and sequence together |
| LiveState.GapFreeSliceIsDense | src/futures_bot/domain/live_state.py:459-487 | a non-empty gap-free slice holds to - from + 1 events, event i at offset from + i |
| LiveState.ContiguousIsOrdered | src/futures_bot/domain/live_state.py:703-712 | contiguity implies strict order |
| LiveState.ContiguousTailAppends | src/futures_bot/domain/live_state.py:572-604 | a tail that starts contiguously after gap-free history meets the stitched record's order, span and contiguity checks |
| LiveState.ChainsNeverRewrite | src/futures_bot/domain/live_state.py:420-432 | along any replacement chain offsets never go back and equal offsets carry equal payload hashes, however far apart |
| LiveState.LiveStateGateway.PutSnapshot | src/futures_bot/live_state/in_memory.py:26-32 | a put extends the accepted history of its id or changes nothing; that history is always a replacement chain |
| LiveState.PersistedNeverGoesBack | src/futures_bot/domain/live_state.py:266-278 | along any chain of database checkpoints the persisted position never goes back |
| LiveState.MergeEvents | src/futures_bot/live_state/stitcher.py:59-82 | the merge loop computes the specification `MergeFrom` |
| LiveState.MergeMeaning | src/futures_bot/live_state/stitcher.py:69-82 | the merge succeeds exactly when every overlapping tail event repeats history, and appends exactly the rest |
| LiveState.MergedIsOrdered | src/futures_bot/live_state/stitcher.py:59-82 | merged events are in order and in one partition |
| LiveState.MergedIsContiguous | src/futures_bot/live_state/stitcher.py:59-82 | without a gap the merged events are contiguous exactly when a tail starting at the boundary carries the sequence on |
| LiveState.StitchesExactlyWhen | src/futures_bot/live_state/stitcher.py:20-56 | for all valid slices of one partition the stitcher answers exactly when the overlap repeats history, a gap-free claim carries the sequence on, and the state would not be tradable over a tail that makes no such claim |
| LiveState.ASequenceJumpCannotBeStitched | src/futures_bot/domain/live_state.py:595-596 | valid slices that raise for their sequence numbers |
| LiveState.AnUnclaimedTailCannotBeStitched | src/futures_bot/domain/live_state.py:597-599 | valid, contiguous slices that raise for a claim the policy does not ask for |
| LiveState.HistoryAloneStitches | src/futures_bot/live_state/stitcher.py:20-56 | without a tail it always answers, with the history |
| LiveState.TradableIsDense | src/futures_bot/live_state/stitcher.py:20-56 | a stitched state that may be traded on has one event per offset and a tail that is fresh enough for the policy |
| Instruments.NormalizeKnownQuotes | src/futures_bot/domain/instruments.py:173-192 | the set loop and the sort compute the cleaned quotes, longest first |
| Instruments.QuoteSetMeaning | src/futures_bot/domain/instruments.py:176-189 | the known quotes are exactly the cleaned entries |
| Instruments.QuoteOrderDoesNotMatter | src/futures_bot/domain/instruments.py:173-192 | order and repeats in the quote list do not matter |
| Instruments.NormalizeCompact | src/futures_bot/domain/instruments.py:224-248 | the suffix loop computes the specification `Compact` |
| Instruments.NormalizeInstrumentSymbol | src/futures_bot/domain/instruments.py:79-90 | the entry point computes the specification `Normalize` |
| Instruments.BestIsFirst | src/futures_bot/domain/instruments.py:243-246 | the first match is the only one of its length, so the ambiguous branch is never taken |
| Instruments.CompactIsLongestSuffix | src/futures_bot/domain/instruments.py:224-248 | a compact symbol parses to base and quote exactly when they spell it and the quote is the longest known one that leaves a valid base |
| Instruments.PrintedFormIsFixed | src/futures_bot/domain/instruments.py:195-201 | the printed form of any symbol normalises to itself, for any accepted quote list |
| Instruments.SeparatedSpellingsAgree | src/futures_bot/domain/instruments.py:204-221 | hyphen and underscore spellings agree with the slash spelling exactly for known quotes |
| Instruments.CompactSpellingAgreesExactly | src/futures_bot/domain/instruments.py:224-248 | the compact spelling agrees with the slash spelling exactly when the quote is known and no longer known quote fits |
| Instruments.NormalizedIsValid | src/futures_bot/domain/instruments.py:55-90 | every result is a pair of valid assets and reads back from its printed form |
| OrderLifecycle.CloseTable | src/futures_bot/domain/order_lifecycle.py:744-747 | the module's loop adds UNKNOWN_ON_VENUE to the active rows and nothing else |
| OrderLifecycle.ClosingChangesNothing | src/futures_bot/domain/order_lifecycle.py:679-747 | the rows as written have it already |
| OrderLifecycle.RankFalls | src/futures_bot/domain/order_lifecycle.py:679-742 | a ranking falls on every transition except a repeated PARTIALLY_FILLED |
| OrderLifecycle.TenEventsAtMost | src/futures_bot/domain/order_lifecycle.py:511-523 | no run has more than ten events apart from those |
| OrderLifecycle.TenEventsHappen | src/futures_bot/domain/order_lifecycle.py:679-742 | ten is reached |
| OrderLifecycle.NothingFollowsClosed | src/futures_bot/domain/order_lifecycle.py:519-520 | CLOSED is final |
| OrderLifecycle.ClosedIsReachable | src/futures_bot/domain/order_lifecycle.py:679-742 | every state has a way to CLOSED |
| OrderLifecycle.EveryRunCanClose | src/futures_bot/domain/order_lifecycle.py:679-742 | every run can be continued to CLOSED |
| OrderLifecycle.FilledNeedsAcknowledgement | src/futures_bot/domain/order_lifecycle.py:679-742 | a full or partial fill comes after ACKNOWLEDGED_BY_VENUE |
| OrderLifecycle.NoFillAfterCancel | src/futures_bot/domain/order_lifecycle.py:724-727 | nothing is filled after CANCEL_REQUESTED |
| OrderLifecycle.UnknownClosesThroughReconciliation | src/futures_bot/domain/order_lifecycle.py:731-734 | UNKNOWN_ON_VENUE closes only through RECONCILIATION_REQUIRED, in exactly two steps |

## Left out

- Content digests: ids that are SHA-256 digests are plain values. Where identity by content matters, a lemma says so (`IdsIdentify`), or the id is kept as the values it is computed from (`ReceiptId`, `EventId`).
- Record validation by Pydantic: coercion, trimming, id formats, re-validation copies. Values are taken as well-formed; what a validator checks across fields is modelled.
- Times are integers and rates are reals: no time zones, no Decimal context precision, no floating point in the millisecond age.
- The DB writer's batch and transaction ids are kept as the values they are printed from; sidecar kind and notes, and type checks on records, are not modelled. `fail_next_commit` is one of the stopping points. `commit_published_batch`, which always raises, and replacing the whole sidecar set are left out.
- The log cleaner's choice between archive and delete, and its reason texts; only eligibility is modelled. Sidecars other than the DB writer's appear as further entries of the same map.
- Frame ids, and the content of health snapshots beyond source, instrument, kind and time.
- Replay receipts carry no handler ids or output record ids; output payloads are not modelled.
- Conversion decisions carry no ids or details; unsupported evidence types and the policy store are not modelled.
- Live state: payloads, sizes and slice ids, the historical slice reader and the flush policy; a database checkpoint is its persisted-until position, without commit times and lag.
- Instrument normalisation of values that are not strings, and quotes given as asset objects.
- Order records, fills and reconciliation markers: single-record field checks.
- Readiness ladders of collateral valuation and asset semantics, the decision replay adapter, enums and id types: field checks settled by reading one branch.
