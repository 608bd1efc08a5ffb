# Verification of the market-data terminal

A Dafny model of the stateful core of the terminal and of the algorithms whose exact
result it depends on, with proofs of what they promise. Each locked region of the
source is one atomic step; time is an integer number of microseconds, prices are exact
reals.

## What is modelled

- **History repair.** `HistoryContract` admits provider answers, `HistoryChunks` walks
  a target range in chunks and turns complete answers into coverage receipts,
  `HistoryCoverage` merges and subtracts them, `HistoryAttempt` is one fetch with its
  fences, `HistoryRuns` a whole repair, `HistoryGenerations` the generation it
  follows, `HistoryOwner` what the commit owner's replies add to it, `HistoryGaps` finds the holes that start one.
  `RepairLane` is the per-provider lane as a pure state machine; `RepairLaneInvariant`,
  `RepairLaneQueue`, `RepairLaneRuns`, `RepairLaneForeground`, `RepairLaneAdmissions`
  and `RepairLaneRefusals` prove its invariant, its queue discipline, its callback books,
  its answers and its refusals;
  `RepairOrchestrator` is the class that implements it.
- **Tick writer.** `TickWriter` is the state machine of producers, flusher and store,
  `LossLedger` the merged record of dropped ticks, `TickOutcomes` what a flush
  does and readers are told, `TickDurability` when a tick is stored twice, `TickAggregator` is the class.
- **Alert registry.** `AlertReplay` is the algebra of committed mutations, `QuoteInbox`
  the bounded event inbox, `AlertRegistry` the registry's steps and the class,
  `AlertHydration` the hydration protocol over a whole window.
- **Fenced caches.** `TradingHours`, `ContextCache` and `PaperJournal`;
  `TradingHoursReads` and `ContextReads` say what the first two answer, over the
  bounded tables of `RecencyTables`; `SessionStore`
  is the stored schedule behind the first, `SessionSlots`, `SessionPages` and
  `SessionVisits` the slots read from it.
- **Algorithms.** `DependencyOrder` and `IndicatorPipeline`, `BresenhamLine` and
  `PngCanvas`, `TradeSimulation`, `Backtest` and `BacktestTrades`, `JsonStrings`, `SettingsKeys`,
  `Decimals` and `PaperScope`.

Every state machine comes in three layers: pure step functions, lemmas over all runs of
those steps, and a class whose imperative methods are proved to perform exactly those
steps. The last layer's `ensures` equate the new fields with the step function, so the
run theorems hold of the objects.

## What the proofs turned up

- A snapshot that is ahead of the published mutations can be refused as a duplicate while
  an alert registry hydrates, although the durable store never held one
  (`AlertHydration.SnapshotAheadIsRefused`); the guard that decides is stated exactly
  (`AlertHydration.HydrationReachesDurableState`).
- At-most-once storage needs a store that never keeps a tick its answer sends back to be
  written again; that is enough (`TickDurability.CarefulStoreHoldsOnce`) and each
  exception is doubled by the next confirmed batch
  (`TickDurability.KeptAndRestoredIsDoubled`).
- A repair may only move past complete chunks. It does, because the commit owner reports
  a stored partial answer as incomplete (`HistoryOwner.AdvancedIsComplete`); without that
  rule chunks would be left behind (`HistoryChunks.UndemotedPartialIsLeftBehind`).
- A cursor without progress is refused until its chart has a newer generation because
  attempts are fenced by the chart's generation; an attempt at an older generation that
  ended without progress would lower the block (`RepairLaneRefusals.HeldBackStep`).
- The shared backtest agrees with single runs for all inputs exactly when the signal
  limit is absent or at least one (`Backtest.RunVariants`,
  `Backtest.SharedRunNeedsPositiveLimit`).
- Between a commit and its mark the paper-journal projection can mix two versions of
  the database, exactly when the commits between its two reads changed both orders and
  positions (`PaperJournal.TornIffBothChanged`, `PaperJournal.MixedIffBothChanged`); it
  is the database once the newest version is marked (`PaperJournal.QuietMeansExact`).
- Every page size reads all session slots exactly when no slot from the third distinct
  one onwards lies below an earlier visit (`SessionVisits.EveryPageSizeReadsIff`). The
  schedule store keeps sessions from overlapping, so whatever was stored is read
  completely (`SessionStore.StoredSessionsAreRead`); overlapping sessions would not be
  (`SessionPages.OverlapLosesASlot`).
- In the trading-hours cache the per-route epoch check never decides anything: the
  global sequence alone admits or refuses (`TradingHours.AdmittedIffNothingChanged`).

## Model

| member | source | states |
|---|---|---|
| `RepairLaneRuns.EveryReachableLane` | src/aef_terminal/data/history_repair.py:416-729 | In every reachable lane: at most one running request per provider, at most 32 queued, a non-empty queue has a running request, foreground before background, distinct queued keys, subscribers only on present keys; and every accepted callback has been invoked exactly once or still waits, in order, with an outcome of its own request |
| `RepairLaneRuns.SettledKeysAreServed` | src/aef_terminal/data/history_repair.py:457-583 | A key neither running nor queued owes nothing: the callbacks invoked for it are exactly the callbacks ever accepted for it, in order |
| `RepairLaneRuns.ScheduleBalances` | src/aef_terminal/data/history_repair.py:617-729 | Scheduling keeps the callback books: what was waiting plus what is accepted equals what is delivered plus what waits, for every key, including an eviction |
| `RepairLaneRuns.FinishBalances` | src/aef_terminal/data/history_repair.py:532-583 | The end of a run delivers every waiting callback of its key once and touches no other key |
| `RepairLaneRuns.CancelBalances` | src/aef_terminal/data/history_repair.py:557-568 | Cancelling a lane delivers the callbacks of the running and of every queued request exactly once |
| `RepairLaneInvariant.ScheduleKeeps` | src/aef_terminal/data/history_repair.py:617-729 | Every admission, refusal, join, eviction and start keeps the lane invariant |
| `RepairLaneInvariant.FinishKeeps` | src/aef_terminal/data/history_repair.py:532-583 | Every end of a run, with or without a continuation, keeps the lane invariant |
| `RepairLaneInvariant.CancelKeeps` | src/aef_terminal/data/history_repair.py:557-568 | Cancelling the running request with its queue keeps the lane invariant |
| `RepairLaneInvariant.IdleMeansServed` | src/aef_terminal/data/history_repair.py:457-583 | A provider with nothing running has nothing queued and nobody waiting |
| `RepairLaneInvariant.PrioritizeIsPartition` | src/aef_terminal/data/history_repair.py:470-479 | The priority sort is the stable partition: all foreground requests in their old order, then all background ones in theirs |
| `RepairLaneInvariant.RememberOk` | src/aef_terminal/data/history_repair.py:437-442 | The outcome memory stays a bounded map whose newest entry is last |
| `RepairLaneQueue.RememberKeepsOthers` | src/aef_terminal/data/history_repair.py:437-442 | Of the outcomes of other requests only the oldest is forgotten, and only when 256 of other requests are remembered |
| `RepairLaneQueue.InvShapes` | src/aef_terminal/data/history_repair.py:470-479 | Every reachable lane's queue is bounded and ordered as the queue-discipline results require |
| `RepairLaneQueue.EnqueueWithRoom` | src/aef_terminal/data/history_repair.py:684-720 | With room, a new request goes to the end of its own priority class and nothing else moves |
| `RepairLaneQueue.EnqueueWhenFull` | src/aef_terminal/data/history_repair.py:684-715 | A full queue refuses exactly when the request is background or no background request is queued; otherwise the newest background request is evicted and its subscribers are told it was superseded |
| `RepairLaneQueue.JoinDiscipline` | src/aef_terminal/data/history_repair.py:658-676 | Asking again in the foreground moves a queued background request to the end of the foreground class; any other repeat leaves the queue as it was |
| `RepairLaneQueue.RepeatTakesOver` | src/aef_terminal/data/history_repair.py:658-676 | A more urgent repeat keeps whom the queued request is for and takes over the intent, the handles and the sooner deadline; any other repeat leaves it as it was |
| `RepairLaneQueue.FinishDiscipline` | src/aef_terminal/data/history_repair.py:488-583 | After a run its own older chunk goes first, else the oldest foreground request, else the oldest background one; nothing else leaves the queue |
| `RepairLaneQueue.ScheduleLeavesOthers` | src/aef_terminal/data/history_repair.py:585-729 | Scheduling for one provider leaves every other provider's queue as it was |
| `RepairLaneForeground.ForegroundLeavesOnlyStartedOrCancelled` | src/aef_terminal/data/history_repair.py:488-729 | Over every run: a queued foreground request goes on waiting until the end of a run of its provider starts it, or its lane is cancelled |
| `RepairLaneRefusals.AwaitingIffHeldBack` | src/aef_terminal/data/history_repair.py:629-644 | A request is refused for want of a newer generation exactly when its cursor made no progress at its generation or a later one; the refusal changes nothing but lifting outdated blocks |
| `RepairLaneRefusals.HeldBackStep` | src/aef_terminal/data/history_repair.py:532-644 | A held-back cursor stays held back at a generation through any step, exactly unless a generation of its chart newer than the block is asked for, or an attempt on it at an older generation ends without progress |
| `RepairLaneRefusals.IdleCursorWaitsForItsChart` | src/aef_terminal/data/history_repair.py:532-644 | Over every run whose attempts are fenced by a chart generation that never falls: after an end without progress every request of the same cursor is refused, subscribing, starting and queueing nothing, until a newer generation of its chart is asked for |
| `RepairLaneRefusals.IdleEndSawItsGeneration` | src/aef_terminal/data/history_repair.py:270-276 | Only an attempt that saw its own generation as the current one can end without progress |
| `RepairLaneRefusals.EndedKeyWaitsForItsDeadline` | src/aef_terminal/data/history_repair.py:543-682 | Over every run: before the deadline set by its last end a key neither running nor queued is refused with exactly the time left, or as awaiting a generation if its cursor is held back, and nothing is subscribed, started or queued; how far off the deadline is, is RepairLaneRefusals.FailuresBackOff |
| `RepairLaneRefusals.FailuresBackOff` | src/aef_terminal/data/history_repair.py:542-682 | Over every run with a clock that does not go back: after a failed fetch, store or commit, a full commit queue or a malformed answer an ask for the key is refused until its cooldown or 300 seconds, whichever is longer, has passed; after any other end and after a cancellation it is throttled, with the time left, exactly until its cooldown has passed |
| `RepairLaneRefusals.NoProgressHoldsBack` | src/aef_terminal/data/history_repair.py:537-541 | The end of a run holds its cursor back exactly if it ended unchanged, incomplete or malformed with nothing written, deleted or newly covered |
| `RepairLaneAdmissions.AdmissionMeaning` | src/aef_terminal/data/history_repair.py:629-729 | Every answer of an admission and when it is given, by the first that applies: held back, running, queued, throttled, started, no room among 32 waiting requests, or newly queued; a subscriber is kept only while fewer than 32 are |
| `RepairLaneAdmissions.AdmissionForgets` | src/aef_terminal/data/history_repair.py:684-729 | A newly admitted request starts with nothing remembered of an earlier run of its key; any other answer leaves the memory alone, and only a start changes what runs |
| `RepairLaneAdmissions.EvictedIsRemembered` | src/aef_terminal/data/history_repair.py:703-709 | A request pushed out of a full queue is remembered as superseded |
| `RepairLaneAdmissions.FlushedAreRemembered` | src/aef_terminal/data/history_repair.py:557-568 | Every request of a cancelled queue is remembered as cancelled |
| `RepairLaneAdmissions.EndIsRemembered` | src/aef_terminal/data/history_repair.py:532-536 | The outcome of a run is remembered as the newest |
| `RepairLaneAdmissions.ContinuationKeepsHandles` | src/aef_terminal/data/history_repair.py:85-128 | The next chunk runs for the same instrument under the same authority, deadline and handles |
| `RepairLaneAdmissions.ContinuesIff` | src/aef_terminal/data/history_repair.py:85-100 | A walk goes on exactly after a commit, or after an unchanged chunk of which something was written, deleted or newly covered, above its target start and for an exact request |
| `RepairLaneQueue.FinishShrinksBacklog` | src/aef_terminal/data/history_repair.py:498-583 | Every finished chunk strictly lowers the provider's backlog of chunks, whatever its outcome |
| `RepairLaneQueue.LaneDrains` | src/aef_terminal/data/history_repair.py:498-583 | A lane left alone finishes at most its backlog of chunks, and is then idle, empty and owes no callback |
| `RepairOrchestrator.HistoryRepairOrchestrator.ScheduleRepair` | src/aef_terminal/data/history_repair.py:585-729 | Refuses exactly an untyped authority, a route mismatch, a missing fetch, commit or store, or a timeout that is no positive number, changing nothing; otherwise the new state, admission and superseded callbacks are those of the lane's schedule step, and the invariant holds |
| `RepairOrchestrator.HistoryRepairOrchestrator.FinishRun` | src/aef_terminal/data/history_repair.py:498-583 | The class method: the new state and the callbacks to invoke are those of the lane's finish or cancel step, whose deadlines RepairLaneRefusals.FailuresBackOff fixes, and the invariant holds |
| `RepairOrchestrator.HistoryRepairOrchestrator.LatestOutcome` | src/aef_terminal/data/history_repair.py:444-455 | The remembered outcome of exactly this intent, moved to the newest place; otherwise nothing changes |
| `RepairOrchestrator.HistoryRepairOrchestrator.FlushPendingLocked` | src/aef_terminal/data/history_repair.py:557-568 | Empties a provider's queue, delivering a cancelled outcome once to each waiting callback |
| `RepairOrchestrator.HistoryRepairOrchestrator.PopNextLocked` | src/aef_terminal/data/history_repair.py:488-496 | Takes the head of the provider's queue and drops an emptied queue |
| `HistoryAttempt.AttemptIsFenced` | src/aef_terminal/data/history_repair.py:220-400 | An attempt reports about its own intent; it reaches the commit owner exactly when the route and generation fences held before and after the fetch and there is something to commit; it hands over exactly the fetched bars, with receipts only for an authoritative complete result |
| `HistoryAttempt.EndsBeforeCommit` | src/aef_terminal/data/history_repair.py:220-375 | How an attempt that never reaches the commit owner ends: exactly when as a failed fetch, a stale generation or route, a failed store or commit, malformed, unchanged or incomplete |
| `HistoryAttempt.EndsAsCommitted` | src/aef_terminal/data/history_repair.py:376-400 | An attempt that reaches it ends as the owner replied, or as a failed commit if the owner raised or replied about something else |
| `HistoryAttempt.AnswerIsReported` | src/aef_terminal/data/history_repair.py:291-400 | The range, terminal and error code of a typed answer, and a generation met, are reported however the attempt ends |
| `HistoryAttempt.OnlyCommitsAdvance` | src/aef_terminal/data/history_repair.py:85-100 | The walk moves past a chunk only if the commit owner was asked about that chunk and answered for it |
| `HistoryAttempt.CommittedReceiptsCoverChunk` | src/aef_terminal/data/history_repair.py:338-400 | What is committed under exact authority carries receipts for exactly the chunk's instants if it came back complete, and for none otherwise |
| `HistoryChunks.SelectedIntent` | src/aef_terminal/engine/history_repair.py:95-151 | The first chunk is a legal intent ending at the target end, within the provider bound, from which a full walk takes ceil(target slots / slots per request) chunks |
| `HistoryChunks.SelectsIff` | src/aef_terminal/engine/history_repair.py:95-151 | Selection succeeds exactly for a non-empty elapsed aligned range, a span of whole seconds that holds a slot, and named identities; the intent carries the caller's identity, generation, priority and cooldown |
| `HistoryChunks.ContinuationIsLegal` | src/aef_terminal/data/history_repair.py:85-128 | The next chunk passes every intent check again, is adjacent, no longer than its predecessor, full unless last, and leaves one chunk less; its generation is the subject of HistoryGenerations |
| `HistoryChunks.WalkDescends` | src/aef_terminal/data/history_repair.py:85-128 | However its attempts end, a walk is a run of adjacent legal chunks of one envelope, at most ceil(target/chunk) of them, reaching the target start exactly when it has that many |
| `HistoryChunks.AdvancingWalkFinishes` | src/aef_terminal/data/history_repair.py:85-128 | If every attempt advances, the walk visits the whole target in exactly that many chunks |
| `HistoryChunks.DescentPartitions` | src/aef_terminal/data/history_repair.py:85-128 | The chunks visited hold exactly the instants from the last chunk's start to the first chunk's end |
| `HistoryChunks.RemainingIsStillToCome` | src/aef_terminal/data/provider_contract.py:647-663 | For any outcome that advances, whoever reports it: the remaining range is exactly the chunks still to come if and only if the chunk was provider-complete. That an advancing outcome always is, is HistoryOwner.AdvancedIsComplete |
| `HistoryChunks.UndemotedPartialIsLeftBehind` | src/aef_terminal/runtime/chart_commits.py:1620-1627 | Why the commit owner must report a stored partial answer as incomplete: reported as committed, it would let the walk go on below the chunk while its own instants stay listed as remaining and are in no later chunk |
| `HistoryChunks.CompleteResultCoversChunk` | src/aef_terminal/data/history_repair.py:183-217 | Receipts of an admitted complete result cover exactly the chunk's instants, share one contract, and count exactly the bars delivered |
| `HistoryChunks.WalkCoversTarget` | src/aef_terminal/data/history_repair.py:183-217 | End to end: the receipts along a walk that reaches the target start merge to the one interval from target start to first chunk end if and only if every chunk came back complete |
| `HistoryRuns.RepairCoversTarget` | src/aef_terminal/data/history_repair.py:220-400 | Attempts whose own outcomes decide where the walk goes, with any commit owner: a repair that reaches its target start has handed over receipts that merge to the one interval from the target start to its first chunk's end exactly when every attempt handed over a complete answer |
| `HistoryRuns.TriesWalk` | src/aef_terminal/data/history_repair.py:85-128 | The chunks attempted are exactly the walk of the outcomes those attempts produced |
| `HistoryGenerations.NextIsNotRefused` | src/aef_terminal/data/history_repair.py:109-128 | After an outcome that reports a generation, the next chunk's attempt is not refused as stale by a chart at that generation before and after the fetch |
| `HistoryGenerations.NextIsRefusedElsewhere` | src/aef_terminal/data/history_repair.py:270-276 | A chart at any other generation refuses it |
| `HistoryGenerations.UnreportedKeepsOwn` | src/aef_terminal/data/history_repair.py:115-122 | Where no generation is reported the next chunk keeps its own: it is not refused at that one, and is at any other |
| `HistoryGenerations.OwnCommitsNeverRefuse` | src/aef_terminal/data/history_repair.py:85-400 | A repair each of whose attempts sees the generation its predecessor's commit reported is never refused by the generation fence |
| `HistoryOwner.PartialAnswerStops` | src/aef_terminal/runtime/chart_commits.py:1573-1641 | With the repository's commit owner a partial answer never advances the walk, and its whole chunk stays in the remaining range whatever was stored of it |
| `HistoryOwner.AdvancedIsComplete` | src/aef_terminal/runtime/chart_commits.py:1573-1641 | With that owner and exact authority, an attempt that advances handed a complete answer to the owner and reports its chunk complete |
| `HistoryOwner.OwnerReportsProgress` | src/aef_terminal/runtime/chart_commits.py:1605-1641 | The owner's status for every end of the commit lane; its report counts as no progress exactly when nothing was written, deleted or newly covered and the lane changed nothing or stored part of an answer |
| `HistoryOwner.AdvancedLeavesTheRest` | src/aef_terminal/runtime/chart_commits.py:1573-1641 | After every attempt that advances, the remaining range is exactly the chunks still to come, with no condition on completeness |
| `HistoryOwner.AdvancingRepairCoversTarget` | src/aef_terminal/data/history_repair.py:220-400 | A repair whose attempts all advance reaches the target start, and its receipts merge to the one interval of the whole target |
| `HistoryOwner.FinishedRepairCoversTarget` | src/aef_terminal/data/history_repair.py:220-400 | A repair started from the selected first chunk that reaches its target start and whose last attempt advanced has handed over receipts that merge to the one interval of the whole target |
| `HistoryOwner.MisfitIsAdmitted` | src/aef_terminal/data/provider_contract.py:527-593 | The result constructor alone does not keep rolling terminals to rolling requests: under an exact identity a rolling-complete answer is admitted, counts as complete and hands over no receipts. That adapters never produce it is assumed, not proved |
| `HistoryContract.AdmitResult` | src/aef_terminal/data/provider_contract.py:455-593 | The result constructor accepts exactly the admissible answers and then holds the bars and completions sorted |
| `HistoryContract.CompletionsTile` | src/aef_terminal/data/provider_contract.py:557-585 | The cursor loop accepts exactly the completions that partition the chunk into aligned pieces whose counts match the bars inside them |
| `HistoryContract.PartitionCountsEveryBar` | src/aef_terminal/data/provider_contract.py:557-585 | A partition accounts for every bar, so the separate comparison of admitted and delivered counts can never be what fails |
| `HistoryContract.ExactError` | src/aef_terminal/data/provider_contract.py:555-593 | The checks on an exact answer pass exactly for the admissible terminal, completion and error combinations |
| `HistoryContract.RollingError` | src/aef_terminal/data/provider_contract.py:527-554 | The checks on a rolling answer pass exactly for the admissible bound, terminal and error combinations |
| `HistoryCoverage.HistoryCoverageUnion` | src/aef_terminal/data/history_coverage.py:187-203 | Refuses mixed contracts; otherwise returns sorted, strictly separated, non-empty ranges holding exactly the instants of the receipts |
| `HistoryCoverage.UnionIsCanonical` | src/aef_terminal/data/history_coverage.py:187-203 | The union depends on the covered instants alone: reordering, repeating or re-splitting receipts gives the same list |
| `HistoryCoverage.SeparatedIsCanonical` | src/aef_terminal/data/history_coverage.py:187-203 | Two separated lists with the same instants are equal |
| `HistoryCoverage.HistoryRangeIsCovered` | src/aef_terminal/data/history_coverage.py:206-221 | Refuses an empty range; otherwise true exactly when every instant of the range lies in some receipt |
| `HistoryCoverage.HistoryUncoveredRanges` | src/aef_terminal/data/history_coverage.py:224-252 | Refuses an empty range; otherwise the separated list holding exactly the range's instants in no receipt |
| `HistoryCoverage.UncoveredIsCanonical` | src/aef_terminal/data/history_coverage.py:224-252 | That list is the only separated complement |
| `HistoryGaps.ConfirmedHistoryGapRanges` | src/aef_terminal/engine/history_repair.py:34-92 | Refuses empty or misaligned ranges; otherwise the gaps are separated and hold exactly the range's instants in no counted bar's slot, less the prefix or tail not asked for |
| `TickWriter.EveryReachableWriter` | src/aef_terminal/data/tick_buffer.py:97-581 | Under every interleaving of producers and flusher: offered = written + lost + in flight + buffered as multisets; written, in-flight and buffered ticks are in acceptance order; the buffer and batch bounds hold; at most 29 batches are restored between two successful flushes; pruned plus retained loss counts equal the total dropped |
| `TickWriter.QuietMeansSettled` | src/aef_terminal/data/tick_buffer.py:189-217 | With nothing buffered or in flight every offered tick was written or dropped, and the counters add up |
| `TickWriter.DurableAtMostOnce` | src/aef_terminal/data/tick_buffer.py:354-407 | If the store never calls a kept batch not committed, what it durably holds is a sub-sequence of what was accepted, in order, and no tick more often than it was accepted |
| `TickWriter.DishonestStoreDuplicates` | src/aef_terminal/data/tick_buffer.py:354-407 | A run in which a store keeps a batch it reported as not committed ends with the tick stored twice: the at-most-once promise needs that condition |
| `TickDurability.DurableOnceIff` | src/aef_terminal/data/tick_buffer.py:354-407 | Of ticks offered once each, the store holds one twice exactly when it kept a tick whose answer sent it back to the buffer, and kept it again |
| `TickDurability.CarefulStoreHoldsOnce` | src/aef_terminal/data/tick_buffer.py:354-407 | What is asked of the store: if it never keeps a tick that goes back (a retryable not-committed reply, fewer than 30 errors, room in the buffer), it holds every tick at most once over every run, whatever else it replies |
| `TickDurability.KeptAndRestoredIsDoubled` | src/aef_terminal/data/tick_buffer.py:354-407 | And no less: from any reachable state, one tick kept although it goes back is in the next batch, and a store that confirms that batch holds it twice |
| `TickWriter.LossIsNeverHidden` | src/aef_terminal/data/tick_buffer.py:30-71 | In every reachable writer, a lost tick no older than the last drop less the retention makes every window around it read incomplete |
| `TickWriter.SettleFrame` | src/aef_terminal/data/tick_buffer.py:354-407 | A settled flush leaves nothing in flight and leaves the buffer alone unless the batch is restored |
| `TickOutcomes.EndMeaning` | src/aef_terminal/data/tick_buffer.py:354-407 | What a flush does to its batch: fully acknowledged it is written and clears every earlier failure; not committed, retryable and with fewer than 29 failures in a row it goes back in front as far as it fits; otherwise it is lost |
| `TickOutcomes.ErrorsAreFailedWrites` | src/aef_terminal/data/tick_buffer.py:354-407 | In every run the error count, own and published, is the number of flushes that failed since the last one that succeeded |
| `TickOutcomes.CompleteIff` | src/aef_terminal/data/tick_buffer.py:30-70 | In every run a window reads complete exactly when no flush has failed since the last success and no retained event of its route overlaps it |
| `TickOutcomes.EveryEventEndsAtLosses` | src/aef_terminal/data/tick_buffer.py:518-581 | In every run each event of the ledger reaches from one lost tick of its route to another |
| `TickOutcomes.MergesWithinAMinute` | src/aef_terminal/data/tick_buffer.py:550-581 | A loss joins the newest event of its instrument, route and reason that comes within a minute of it, spanning both, and otherwise stands alone |
| `TickOutcomes.LostForAReason` | src/aef_terminal/data/tick_buffer.py:366-396 | A tick lost by a flush is reported under the reason of the reply |
| `TickOutcomes.RefusedForAReason` | src/aef_terminal/data/tick_buffer.py:255-262 | A tick refused by a closed or full writer is reported under that reason |
| `LossLedger.RecordedReports` | src/aef_terminal/data/tick_buffer.py:518-581 | Recording a drop reports every tick just dropped and keeps every earlier report inside the retention window |
| `LossLedger.RecordedCounts` | src/aef_terminal/data/tick_buffer.py:518-581 | Counts leave the ledger only by pruning: forgotten plus recorded equals what was there plus the ticks dropped |
| `LossLedger.MergeKeepsShaped` | src/aef_terminal/data/tick_buffer.py:540-575 | Merging keeps every route's events disjoint in reach, and removing the merged event by equality removes the very event that was found |
| `LossLedger.GroupedFacts` | src/aef_terminal/data/tick_buffer.py:518-545 | Grouping a drop by instrument and route reports every tick and counts each once |
| `LossLedger.QualityMeaning` | src/aef_terminal/data/tick_buffer.py:30-71 | A window is complete exactly when no retained event of the route overlaps it and no write error is open; the count and last loss are those of the overlapping events |
| `LossLedger.QualityNewest` | src/aef_terminal/data/tick_buffer.py:30-70 | The last drop a reader is told of and its reason are those of one overlapping event |
| `LossLedger.RecentMembers` | src/aef_terminal/data/tick_buffer.py:548-549 | Forgetting takes out exactly the events that end before the cutoff |
| `LossLedger.ReportedMeansIncomplete` | src/aef_terminal/data/tick_buffer.py:30-71 | A reported tick makes every window around it incomplete |
| `TickAggregator.TickBulkAggregator.AddTick` | src/aef_terminal/data/tick_buffer.py:219-287 | The class method: accepted exactly when open with room, then appended; otherwise recorded as dropped |
| `TickAggregator.TickBulkAggregator.TakeBatch` | src/aef_terminal/data/tick_buffer.py:466-479 | Moves the oldest ticks, at most a batch, into flight |
| `TickAggregator.TickBulkAggregator.RestoreBatch` | src/aef_terminal/data/tick_buffer.py:485-506 | Puts a batch back in front of what arrived meanwhile; what no longer fits is recorded as dropped |
| `TickAggregator.TickBulkAggregator.SettleBatch` | src/aef_terminal/data/tick_buffer.py:354-407 | The new state is that of the settle step, described by TickOutcomes.EndMeaning, and the count is that of a fully acknowledged batch |
| `TickAggregator.TickBulkAggregator.RecordDropLocked` | src/aef_terminal/data/tick_buffer.py:518-581 | The loops over the ledger compute exactly the recorded ledger |
| `TickAggregator.TickBulkAggregator.FlushOnce` | src/aef_terminal/data/tick_buffer.py:315-407 | One flush with producers running: only the offered arrivals join the history, nothing stays in flight |
| `TickAggregator.TickBulkAggregator.DrainForShutdown` | src/aef_terminal/data/tick_buffer.py:213-217 | Terminates with the buffer empty unless a flush was cancelled |
| `TickAggregator.TickBulkAggregator.Stop` | src/aef_terminal/data/tick_buffer.py:189-211 | Afterwards the writer is closed and empty and offered = written + dropped, even if the drain was cancelled |
| `AlertReplay.ReplayConverges` | src/aef_terminal/alerts/runtime_registry.py:175-191 | A snapshot that already contains any prefix of the mutation log, run through the whole log in two parts, ends where the starting state does |
| `AlertReplay.LogIsIdempotent` | src/aef_terminal/alerts/runtime_registry.py:175-191 | Per key, applying a log of upserts, removals and scope removals twice is applying it once |
| `AlertReplay.UndecidedFilters` | src/aef_terminal/alerts/runtime_registry.py:181-191 | A log that never names a key can only remove its value, and does so exactly when a scope removal matches it |
| `AlertReplay.MutationLeaves` | src/aef_terminal/alerts/runtime_registry.py:204-287 | What each mutation leaves under every key, by the alerts' instruments, routes and timeframes |
| `AlertHydration.HydrationReachesDurableState` | src/aef_terminal/alerts/runtime_registry.py:139-287 | From a registry that holds no alert the durable store does not, over any durable history without inert rows or repeated definitions, publications in commit order and a snapshot holding any number of its mutations: nothing is refused exactly when no mix of the snapshot with a replayed part of the log, from installing until the snapshot is caught up with, holds a definition twice; then the registry equals the durable state. A snapshot not ahead of the publications is never refused |
| `AlertHydration.SnapshotAheadIsRefused` | src/aef_terminal/alerts/runtime_registry.py:175-192 | An alert is stored, deleted and replaced by one of the same definition; the snapshot holds the replacement while only the first commit is published: installing is refused as a duplicate, although history and snapshot are legal |
| `AlertHydration.PublishAllIff` | src/aef_terminal/alerts/runtime_registry.py:204-287 | A log of retained alerts is published without refusal exactly when none of its states holds a definition twice |
| `AlertHydration.RestPublishesIff` | src/aef_terminal/alerts/runtime_registry.py:192-211 | Installing and the publications after it go through exactly when no replayed mix holds a definition twice |
| `AlertRegistry.StaleTokenChangesNothing` | src/aef_terminal/alerts/runtime_registry.py:148-174 | Installing or cancelling with a token that is not the active one changes nothing |
| `AlertRegistry.EveryReachableRegistry` | src/aef_terminal/alerts/runtime_registry.py:111-130 | In every reachable registry the route index is a recount of live alerts, definitions are unique, keys match their rows, no inert row is held, and no log is kept without an active hydration |
| `AlertRegistry.RevisionsIdentifyAlerts` | src/aef_terminal/alerts/runtime_registry.py:111-130 | Between any two moments of a run the revision never falls, and equal revisions mean equal alerts |
| `AlertRegistry.AlertRuntimeRegistry.RebuildActiveRoutesLocked` | src/aef_terminal/alerts/runtime_registry.py:111-120 | The counting loop computes exactly the number of live alerts of every route that has any |
| `AlertRegistry.AlertRuntimeRegistry.Begin` | src/aef_terminal/alerts/runtime_registry.py:139-146 | Refused exactly while a hydration is active; otherwise a fresh token and an empty log |
| `AlertRegistry.AlertRuntimeRegistry.Cancel` | src/aef_terminal/alerts/runtime_registry.py:148-153 | Ends the hydration of exactly this token |
| `AlertRegistry.AlertRuntimeRegistry.HydrateFrom` | src/aef_terminal/alerts/runtime_registry.py:155-202 | Returns the revision or the source's error code, and the new state is that of the hydrate step; on error nothing changes |
| `AlertRegistry.AlertRuntimeRegistry.PublishCommitted` | src/aef_terminal/alerts/runtime_registry.py:204-287 | The same for an upsert, a removal or a scope removal |
| `AlertRegistry.AlertRuntimeRegistry.DefinitionsAreUnique` | src/aef_terminal/alerts/runtime_registry.py:192-211 | The scan accepts exactly the maps in which no definition occurs twice |
| `AlertRegistry.AlertRuntimeRegistry.PublishQuoteChanges` | src/aef_terminal/alerts/runtime_registry.py:399-435 | Appends exactly the changes whose route has a live alert, numbered onwards; the inbox stays the newest events |
| `AlertRegistry.QuotesOnlyExtend` | src/aef_terminal/alerts/runtime_registry.py:399-435 | Publishing leaves earlier events untouched, the numbering has no hole, and the new payloads are the live-route changes in order |
| `AlertRegistry.QuotesOfArmedPriceAlerts` | src/aef_terminal/alerts/runtime_registry.py:399-436 | A quote is published exactly when some alert of its route is enabled, armed and about prices |
| `AlertRegistry.PublishRefusesIff` | src/aef_terminal/alerts/runtime_registry.py:204-223 | An upsert is refused exactly when its alert is disabled or neither armed nor fired, or another alert has its definition; the revision moves exactly when the alerts change |
| `AlertRegistry.SnapshotReadsIff` | src/aef_terminal/alerts/runtime_registry.py:155-180 | A snapshot is read exactly when every row is enabled and armed or fired and no two are the same alert |
| `AlertRegistry.HydrateRefusesIff` | src/aef_terminal/alerts/runtime_registry.py:155-202 | Installing is refused exactly for an unreadable snapshot, a hydration other than the active one, or a repeated definition after replay; otherwise the registry holds the replayed snapshot |
| `AlertRegistry.AlertRuntimeRegistry.ReadQuoteEvents` | src/aef_terminal/alerts/runtime_registry.py:437-453 | Returns the page a reader at this cursor is entitled to from the full history |
| `QuoteInbox.ReaderSeesEverything` | src/aef_terminal/alerts/runtime_registry.py:437-453 | A cursor reader that polls while events arrive and is never told of an overflow has read every event after its start exactly once, in order |
| `QuoteInbox.OverflowMeaning` | src/aef_terminal/alerts/runtime_registry.py:445-453 | Overflow is reported exactly when an event the reader had not seen was evicted |
| `QuoteInbox.PushRetains` | src/aef_terminal/alerts/runtime_registry.py:417-424 | The bounded inbox always is the tail of everything published |
| `TradingHours.EveryReachableFence` | src/aef_terminal/data/provider_sessions.py:101-133 | In every reachable state: at most 2048 cached rows and 2048 completed generations, no route both pending and cached, every pending generation on record and none above the counter, and no cached row read before its route's latest invalidation or stale mark, whatever was pruned |
| `TradingHours.LookupIsCurrent` | src/aef_terminal/data/provider_sessions.py:298-326 | A lookup answers from the cache only with a row read after its route's last change, and reports refreshing exactly for pending routes |
| `TradingHoursReads.LookupHitsTheHeld` | src/aef_terminal/data/provider_sessions.py:314-324 | Over every run: a lookup answers with a row exactly when its route is not pending and the row is held: admitted by a read, its route neither changed nor read again since, no older than 300 seconds whenever old rows were forgotten and now, and always among the newest 2048 |
| `TradingHoursReads.AdmitsIff` | src/aef_terminal/data/provider_sessions.py:327-338 | A read that ends is cached exactly when no step since the one that began it changed any route |
| `TradingHoursReads.AdmittedIsFound` | src/aef_terminal/data/provider_sessions.py:327-338 | The next lookup of its route finds what a read has just cached |
| `RecencyTables.TableHoldsTheHeld` | src/aef_terminal/data/provider_sessions.py:101-110 | What a bounded table with a lifetime holds after any steps: exactly the rows put in, not taken out, never too old and never crowded out, in order |
| `TradingHours.AdmittedIffNothingChanged` | src/aef_terminal/data/provider_sessions.py:327-338 | A row read outside the lock is admitted exactly when no route at all changed since the read began; the pending and per-route epoch checks never decide |
| `TradingHours.StaleAcknowledgementIsRefused` | src/aef_terminal/data/provider_sessions.py:266-295 | A generation read before a stale mark never acknowledges that mark, at any later time |
| `TradingHours.MarkSurvives` | src/aef_terminal/data/provider_sessions.py:171-198 | A stale mark stays pending until a generation issued at or after it is acknowledged |
| `TradingHours.CurrentGenerationAcknowledges` | src/aef_terminal/data/provider_sessions.py:240-295 | The generation on record acknowledges a pending route and touches no other |
| `TradingHours.NextIsOneMore` | src/aef_terminal/data/provider_sessions.py:183-190 | A new generation is strictly above every earlier one; the defensive maximum over recorded generations changes nothing |
| `TradingHours.PrunedGenerations` | src/aef_terminal/data/provider_sessions.py:126-133 | Pruning keeps every pending generation and all but the excess of completed ones |
| `TradingHours.TradingHoursState.PruneLocked` | src/aef_terminal/data/provider_sessions.py:101-133 | The pruning loops leave the live, newest 2048 rows, the epochs still needed, and all but the oldest excess of completed generations |
| `TradingHours.TradingHoursState.InvalidateCache` | src/aef_terminal/data/provider_sessions.py:160-168 | New state: the row gone, both fences moved, tables pruned |
| `TradingHours.TradingHoursState.MarkRouteStale` | src/aef_terminal/data/provider_sessions.py:171-198 | New state: a fresh generation recorded and pending, the row gone, both fences moved, tables pruned; the stored row of exactly this route is to be deleted if a store was given |
| `TradingHours.TradingHoursState.AcknowledgeRefresh` | src/aef_terminal/data/provider_sessions.py:266-295 | True exactly when the route is pending under this generation, which is then no longer pending; otherwise nothing changes |
| `TradingHours.TradingHoursState.Begin` | src/aef_terminal/data/provider_sessions.py:314-326 | Performs the first read step, whose answer TradingHoursReads.LookupHitsTheHeld describes: refreshing, a cached row or a token |
| `TradingHours.TradingHoursState.Finish` | src/aef_terminal/data/provider_sessions.py:328-338 | New state and answer are those of the read's second step: the row is cached, or the fence refuses it and nothing changes |
| `SessionSlots.Verify` | src/aef_terminal/data/provider_sessions.py:668-711 | A schedule is verified for a range exactly when its rows are all sound, not cut off, and the snapshots behind them vouch for every instant; the verified prefix is the longest one they vouch for |
| `SessionSlots.SessionsAreVouched` | src/aef_terminal/data/provider_sessions.py:665-695 | Every instant of a counted session is vouched for by its own snapshot |
| `SessionSlots.Sweep` | src/aef_terminal/data/provider_sessions.py:697-705 | The loop over sorted horizons pushes the prefix exactly as far as they vouch without a hole |
| `SessionSlots.ContinuousPage` | src/aef_terminal/data/provider_sessions.py:576-604 | The page computed from a slot count and an index formula is the first slots of the range, with the next one as cursor |
| `SessionSlots.PagesAreEverything` | src/aef_terminal/data/provider_sessions.py:581-604 | Read from cursor to cursor, pages of any size are together every aligned slot that closes inside the range, each once, in order |
| `SessionPages.SlotCoverage` | src/aef_terminal/data/provider_sessions.py:600-754 | The whole answer for a range: unknown without a store, contract or time zone; empty and verified for an empty range; otherwise page, cursor, truncation, verification and the longest vouched prefix, with a row list cut off at its limit never verified and its last close the cursor when the page has none |
| `SessionPages.SessionSlotPage` | src/aef_terminal/data/provider_sessions.py:712-739 | The nested loops with their early exits compute the page of the visited slots, for any grid |
| `SessionPages.SessionBuckets` | src/aef_terminal/data/adapters/base.py:193-224 | The loop walks a session bucket by bucket on either stamping |
| `SessionPages.BucketsTile` | src/aef_terminal/data/adapters/base.py:158-224 | The buckets of a session cover it without a hole: on the boundaries of the timeframe, the last cut at the close, the first reaching back to its boundary or cut at the opening |
| `SessionPages.CandidatesAre` | src/aef_terminal/data/provider_sessions.py:712-733 | The slots of a session are the openings of its buckets, up to the first unusable one, that lie in the range from opening to close |
| `SessionPages.StreamHas` | src/aef_terminal/data/provider_sessions.py:712-733 | The slots visited are those of every session |
| `SessionPages.PageHolds` | src/aef_terminal/data/provider_sessions.py:734-739 | A page is in order; with a cursor, it and the cursor are exactly what was collected, the cursor last; without one it is everything |
| `SessionPages.PageKeepsIff` | src/aef_terminal/data/provider_sessions.py:712-739 | For every page size: every visited slot is on the page or at or past its cursor exactly when, more slots having been collected than fit, every slot not collected is at or above every collected one |
| `SessionPages.EverythingIsReadIff` | src/aef_terminal/data/provider_sessions.py:712-739 | For one page size: reading from cursor to cursor returns every slot exactly when no page on the way passes one over, so a slot once passed over is on no later page |
| `SessionVisits.EveryPageSizeReadsIff` | src/aef_terminal/data/provider_sessions.py:712-739 | Every page size returns every slot exactly when, from the third distinct slot visited onwards, none lies below one visited earlier: a condition on the visits alone |
| `SessionVisits.CollectIsPrefix` | src/aef_terminal/data/provider_sessions.py:712-739 | What a page collects is the first distinct visits, one more than fit |
| `SessionPages.ReadingIsOrdered` | src/aef_terminal/data/provider_sessions.py:712-739 | What is read from page to page is in order, without repetition, and only what there is |
| `SessionPages.InOrderIsClean` | src/aef_terminal/data/provider_sessions.py:712-739 | Visited slots that never go back are read completely, whatever the page size |
| `SessionPages.SessionInOrder` | src/aef_terminal/data/adapters/base.py:158-224 | Within a session the buckets never start earlier, on wall-clock boundaries or with the opening bar stamped at the session open |
| `SessionPages.DisjointSessionsAreRead` | src/aef_terminal/data/adapters/ibkr.py:352-376 | Sessions that do not overlap are read completely, each slot once and in order, with either stamping, every timeframe and page size, even when two share a bucket start |
| `SessionPages.OverlapLosesASlot` | src/aef_terminal/storage/session_intervals.py:106-117 | Why stored sessions must not overlap: with two that did, which the store refuses, the second session's opening bar would be passed over and never returned |
| `SessionStore.Normalize` | src/aef_terminal/storage/session_intervals.py:32-118 | Admits exactly the schedules with a non-empty coverage whose items are readable and inside it and of which no two of one kind overlap, sorting each kind and comparing neighbours; the separate duplicate check never decides |
| `SessionStore.KindsDecide` | src/aef_terminal/storage/session_intervals.py:106-117 | Checking each kind by itself decides whether a whole schedule is free of overlaps |
| `SessionStore.NeighboursDecide` | src/aef_terminal/storage/session_intervals.py:109-117 | Of sorted non-empty sessions no two overlap exactly when no two neighbours do |
| `SessionStore.ReplaceKeeps` | src/aef_terminal/storage/repos/trading_hours.py:584-640 | Deleting what overlaps the replaced horizons and inserting the schedule leaves exactly the schedule and the sessions outside those horizons, and no two of one kind overlap |
| `SessionStore.ObsoleteIff` | src/aef_terminal/storage/repos/trading_hours.py:584-603 | A stored session is taken out exactly when it overlaps the span from the first opening to the last close of its kind |
| `SessionStore.Upsert` | src/aef_terminal/storage/repos/trading_hours.py:493-640 | One upsert performs the store step: an admitted schedule that differs replaces, anything else changes nothing |
| `SessionStore.EveryReachableTable` | src/aef_terminal/storage/repos/trading_hours.py:18-640 | Whatever schedules arrive and whenever a route's schedule is deleted, stored sessions of one kind never overlap |
| `SessionStore.StoredIffBroughtLast` | src/aef_terminal/storage/repos/trading_hours.py:18-640 | A session is stored exactly when some admitted schedule brought it and no later event cleared its place without bringing it again |
| `SessionStore.SessionsReadBack` | src/aef_terminal/storage/repos/trading_hours.py:87-340 | Unless rows are cut off, the sessions read back for a window are exactly the open ones of the kind that overlap it, were brought last and are vouched for |
| `SessionStore.SelectedAreEarliest` | src/aef_terminal/storage/repos/trading_hours.py:191-206 | A row limit keeps the earliest sessions: what is left out opens only after all of what is kept has closed |
| `SessionStore.CutCursorSkipsNothing` | src/aef_terminal/data/provider_sessions.py:740-747 | The cursor of a cut-off row list lies at or after the close of every row given and no later than the opening of any row not given |
| `SessionStore.StoredSessionsAreRead` | src/aef_terminal/data/provider_sessions.py:653-739 | End to end: after any history of the store, the sessions read back, cut off at any row limit, are disjoint and in order, and paging returns all their slots, each once and in order, with either stamping, every timeframe and every page size |
| `ContextCache.EveryReachableCache` | src/aef_terminal/engine/context_cache.py:40-51 | In every reachable state: cache and timestamps have equal keys, at most eight; exactly the unfenced running builds are registered, each under its own key; and every cached context was built for its key by a build begun since the last clear |
| `ContextCache.OneBuildPerKey` | src/aef_terminal/engine/context_cache.py:115-129 | Two builds of one key run together only if a clear fenced one of them |
| `ContextCache.AnswersAreFresh` | src/aef_terminal/engine/context_cache.py:115-129 | A request is answered with an unexpired context, or a running build, of its own key begun since the last clear; otherwise it becomes the builder |
| `ContextReads.RequestHitsTheHeld` | src/aef_terminal/engine/context_cache.py:104-186 | Over every run: a request is answered from the cache exactly when a context is held for its key: stored by its registered build or handed out again, not cleared or rebuilt since, used at most 90 seconds before whenever old ones were forgotten and now, and always among the eight used last |
| `ContextReads.StoredIsFound` | src/aef_terminal/engine/context_cache.py:176-186 | The next request for its key is given what a registered build has just stored |
| `ContextReads.DeliversIff` | src/aef_terminal/engine/context_cache.py:160-194 | A build that returns is stored exactly when nothing was cleared since it began |
| `ContextCache.WaitersGetTheirBuild` | src/aef_terminal/engine/context_cache.py:128-186 | Whoever joins a build gets the very result or error that build's own builder produced for the requested key |
| `ContextCache.AnalysisContextCache.TrimLocked` | src/aef_terminal/engine/context_cache.py:40-51 | The trimming loops leave the unexpired, at most eight most recently used entries, and their timestamps |
| `ContextCache.AnalysisContextCache.Request` | src/aef_terminal/engine/context_cache.py:115-129 | New state and answer are those of the ask step, and the tables stay twinned and bounded |
| `ContextCache.AnalysisContextCache.Finish` | src/aef_terminal/engine/context_cache.py:175-186 | A registered build is stored between two trims; a fenced one changes nothing |
| `ContextCache.AnalysisContextCache.Fail` | src/aef_terminal/engine/context_cache.py:168-173 | A failed build unregisters exactly itself |
| `ContextCache.AnalysisContextCache.ClearAll` | src/aef_terminal/engine/context_cache.py:189-193 | Everything is forgotten, running builds become fenced |
| `PaperJournal.SnapshotIncludesItsPast` | src/aef_terminal/paper_journal_runtime.py:128-154 | A snapshot call returns rows read from the database at versions that include every mutation marked before the call started |
| `PaperJournal.AcceptedIsUpToDate` | src/aef_terminal/paper_journal_runtime.py:114-126 | An accepted refresh attempt leaves the current generation loaded |
| `PaperJournal.QuietMeansExact` | src/aef_terminal/paper_journal_runtime.py:91-126 | Once the newest version was marked and the projection is up to date, it equals the database |
| `PaperJournal.TakenIffUnmarked` | src/aef_terminal/paper_journal_runtime.py:97-126 | Rows are taken exactly when no mutation was marked since the attempt began, and otherwise nothing changes |
| `PaperJournal.PublishTakesIff` | src/aef_terminal/paper_journal_runtime.py:97-126 | Rows are taken exactly when orders are pending, positions open, all identified with ids of their own, and the generation is the current one |
| `PaperJournal.TornIffBothChanged` | src/aef_terminal/paper_journal_runtime.py:128-144 | For every commit between the two reads of a refresh, the up-to-date projection equals no version of the database exactly when the commit changed both the orders and the positions |
| `PaperJournal.MixedIffBothChanged` | src/aef_terminal/paper_journal_runtime.py:128-144 | In every run the rows shown are one of the two versions read exactly when the commits between the reads left orders or positions unchanged; two reads of one version show that version |
| `PaperJournal.EveryReachableJournal` | src/aef_terminal/paper_journal_runtime.py:81-126 | In every reachable state the rows shown are two reads of the database, orders first, both including every mutation announced by the loaded generation |
| `PaperJournal.PaperJournalRuntime.PublishSnapshot` | src/aef_terminal/paper_journal_runtime.py:97-126 | Refuses unacceptable rows and future generations, ignores stale ones, and otherwise shows the rows; errors change nothing |
| `PaperJournal.PaperJournalRuntime.FreezeRows` | src/aef_terminal/paper_journal_runtime.py:33-69 | Accepts exactly rows that are well identified, of the given status, with distinct ids |
| `DependencyOrder.OrdersIffAcyclic` | src/aef_terminal/engine/indicator_adapters.py:43-59 | Layered ordering succeeds exactly when the dependencies have no cycle, and then returns each spec once with its dependencies strictly earlier |
| `DependencyOrder.CycleHasNoOrder` | src/aef_terminal/engine/indicator_adapters.py:43-59 | With a cycle no order whatever puts every dependency first |
| `DependencyOrder.StuckMeansCyclic` | src/aef_terminal/engine/indicator_adapters.py:49-56 | An empty layer means that there is a cycle to follow |
| `DependencyOrder.OrderSpecsByDependencies` | src/aef_terminal/engine/indicator_adapters.py:43-59 | The ordering loop: success is an order of the specs by id, failure is exactly a cycle among them |
| `DependencyOrder.CollapsedKeepsLast` | src/aef_terminal/engine/indicator_adapters.py:46-46 | Of specs with one id the last given is kept |
| `IndicatorPipeline.DependenciesAre` | src/aef_terminal/engine/indicator_adapters.py:66-80 | Resolved dependencies are exactly the wanted ones present, each once |
| `IndicatorPipeline.DependencyOrderedSpecs` | src/aef_terminal/engine/indicator_adapters.py:62-81 | Returns the layered order of the specs with resolved dependencies, or the cycle error |
| `IndicatorPipeline.PipelineNeverMisses` | src/aef_terminal/engine/indicator_pipeline.py:106-148 | For every registry and list of specs whose ordering succeeds, no indicator ever reports a missing dependency |
| `IndicatorPipeline.FailuresStayOutside` | src/aef_terminal/engine/indicator_pipeline.py:106-148 | Provided hooks read nothing of the shared indicators but their declared dependencies: two runs in any two good orders, with hooks that differ (fail) only outside a self-contained part, agree on every indicator of the part; with one hook, the order does not matter |
| `IndicatorPipeline.NosyHookSeesTheOrder` | src/aef_terminal/engine/indicator_pipeline.py:106-148 | The proviso on hooks is needed: a hook that reads more than its dependencies gives two independent specs other indicators when their order is turned |
| `IndicatorPipeline.IndicatorAfter` | src/aef_terminal/engine/indicator_pipeline.py:106-148 | Each spec runs once in the context of its predecessors and its indicator is never replaced |
| `IndicatorPipeline.DependencyIsFinal` | src/aef_terminal/engine/indicator_pipeline.py:119-124 | What a spec sees of a dependency is that dependency's final indicator |
| `IndicatorPipeline.EverySpecHasIndicator` | src/aef_terminal/engine/indicator_pipeline.py:125-148 | A failed spec still has an indicator |
| `IndicatorPipeline.HookDecides` | src/aef_terminal/engine/indicator_pipeline.py:106-148 | A hook that ran leaves its content and appends its promoted candidates; one that raised leaves a failed indicator and promotes none |
| `IndicatorPipeline.CandidatesStay` | src/aef_terminal/engine/indicator_pipeline.py:106-148 | What was promoted stays in front of what is promoted later |
| `IndicatorPipeline.DependsOnIff` | src/aef_terminal/engine/indicator_adapters.py:62-82 | A spec comes to depend on what is present, declared for it in one of the tables or by itself, and enabled or declared by itself |
| `IndicatorPipeline.ExecuteIndicatorPipeline` | src/aef_terminal/engine/indicator_pipeline.py:97-148 | Ends early exactly when a spec fails and its error indicator cannot be built either; otherwise returns the indicators and promoted candidates of the run the lemmas above speak of |
| `BresenhamLine.EndsExactlyAtTheEnd` | src/aef_terminal/alerts/snapshot_rendering.py:260-285 | The walk is at the end point after exactly max(|dx|, |dy|) steps and at no earlier step |
| `BresenhamLine.EveryCentreIsOnTrack` | src/aef_terminal/alerts/snapshot_rendering.py:260-285 | After i and j steps |2(|dx| j - |dy| i)| is at most max(|dx|, |dy|), and the longer axis moves at every step |
| `BresenhamLine.NearestPoint` | src/aef_terminal/alerts/snapshot_rendering.py:260-285 | No integer is closer to the ideal line than the centre, along the shorter axis |
| `BresenhamLine.CentresTouch` | src/aef_terminal/alerts/snapshot_rendering.py:279-285 | Consecutive centres are distinct neighbours |
| `PngCanvas.OpaqueLine` | src/aef_terminal/alerts/snapshot_rendering.py:249-285 | With opaque ink the line is exactly the unclipped pixels within the brush of some centre |
| `PngCanvas.Canvas.DrawLine` | src/aef_terminal/alerts/snapshot_rendering.py:249-285 | Terminates, and each pixel of the canvas has been inked exactly once per centre, on the walk between the rounded end points, whose brush covers it, or not at all when clipped |
| `PngCanvas.RoundIsNearest` | src/aef_terminal/alerts/snapshot_rendering.py:260-260 | Rounding gives a nearest integer, an even one in a tie, and keeps integers |
| `PngCanvas.Canvas.Stamp` | src/aef_terminal/alerts/snapshot_rendering.py:269-276 | Inks each unclipped pixel of the square brush once and no other |
| `PngCanvas.Canvas.Pixel` | src/aef_terminal/alerts/snapshot_rendering.py:225-238 | Changes at most the one pixel, and nothing outside the canvas |
| `PngCanvas.CellsDiffer` | src/aef_terminal/alerts/snapshot_rendering.py:225-228 | Different pixels have different buffer cells |
| `PngCanvas.BlendStaysInRange` | src/aef_terminal/alerts/snapshot_rendering.py:208-216 | A blend of two bytes is a byte |
| `PngCanvas.BlendLaws` | src/aef_terminal/alerts/snapshot_rendering.py:208-216 | A blend is the base at zero, the overlay at one, between them otherwise and nearer the overlay the more opaque it is |
| `PngCanvas.StrokeLaws` | src/aef_terminal/alerts/snapshot_rendering.py:208-216 | A stroke is the ink when opaque, nothing at zero or below, and channel by channel a blend of the ink over what was there in between |
| `PngCanvas.OpaqueLineByDistance` | src/aef_terminal/alerts/snapshot_rendering.py:258-330 | An opaque line colours exactly the pixels within the radius of a centre and on or inside the clip |
| `Backtest.RunVariants` | src/aef_terminal/backtest/mvp.py:761-902 | With no signal limit or a positive one, the shared run succeeds exactly when every variant's single run does, and each variant's trades are those of its single run; with any other limit it returns no trades at all |
| `Backtest.ChosenAreLast` | src/aef_terminal/backtest/mvp.py:811-822 | A variant runs exactly when it has an id and no later variant has the same |
| `Backtest.SharedRunNeedsPositiveLimit` | src/aef_terminal/backtest/mvp.py:824-833 | For every limit below one there is a market on which the single run trades and the shared run does not, so the agreement holds for all inputs exactly under a positive or absent limit |
| `BacktestTrades.RunBacktest` | src/aef_terminal/backtest/mvp.py:577-716 | The loop returns the single run's trades or first error, for any source and edge filter; and the trades are exactly those of the signals it visits, each the first of its key, simulated on the bars that follow the signal's, as many as it may make |
| `BacktestTrades.TradesFrom` | src/aef_terminal/backtest/mvp.py:641-716 | From any index on: the trades come in order from visited signals, each over exactly the horizon bars after it or all faster bars inside them, none that makes a trade is left out, and the run ends early only when it is full |
| `BacktestTrades.NoTradeOpensOnItsSignal` | src/aef_terminal/backtest/mvp.py:476-492 | A trade opens on a later bar within the horizon, or on a faster bar that opens no earlier than the signal's bar closes |
| `BacktestTrades.FollowsIsExecution` | src/aef_terminal/backtest/mvp.py:476-492 | The bars a trade is simulated on are determined by those conditions |
| `BacktestTrades.FailsAtAnIndex` | src/aef_terminal/backtest/mvp.py:644-660 | A run that fails does so at an index it visits, where the analysis fails or the variant cannot widen its plan |
| `Backtest.LongerHistoryOnlyAppends` | src/aef_terminal/backtest/mvp.py:636-716 | No lookahead: the run over a longer history starts with exactly the trades of the run over its beginning |
| `Backtest.SameSignal` | src/aef_terminal/backtest/mvp.py:641-677 | A longer history leaves each signal's window and execution bars as they were; which bars those are is BacktestTrades.FollowsIsExecution |
| `TradeSimulation.SimulateTrade` | src/aef_terminal/backtest/mvp.py:493-574 | The loop computes the trade from first touch of the entry to first stop, target or last bar |
| `TradeSimulation.ExitIsFirst` | src/aef_terminal/backtest/mvp.py:515-547 | Entry is the first touch; no held bar before the exit hit stop or target; a target exit's bar did not hit the stop; a timeout closes at the last bar |
| `TradeSimulation.TradeByPrices` | src/aef_terminal/backtest/mvp.py:493-575 | By the prices: a trade opens on the first bar whose range holds the entry, closes on the first whose range reaches the stop or else the target, at that price or the last close, with its result and multiple measured from there |
| `TradeSimulation.OutcomeIsBounded` | src/aef_terminal/backtest/mvp.py:515-574 | For a well-formed plan the result lies between the excursions, a stop loses exactly the risk (R = -1), a target gains exactly the reward |
| `TradeSimulation.ExcursionsBound` | src/aef_terminal/backtest/mvp.py:522-529 | The excursions bound every bar held and are reached by one of them or zero |
| `TradeSimulation.ExcursionsByPrices` | src/aef_terminal/backtest/mvp.py:530-560 | The excursions are measured from the entry to the highs and lows of the bars held |
| `TradeSimulation.InversionLaws` | src/aef_terminal/backtest/mvp.py:370-378 | Inversion keeps plans well formed, swaps risk and reward, and undoes itself |
| `TradeSimulation.WideningLaws` | src/aef_terminal/backtest/mvp.py:381-420 | Widening scales the risk, keeps plans well formed and scales the reward only in the ratio-preserving mode |
| `TradeSimulation.WideningComposes` | src/aef_terminal/backtest/mvp.py:381-420 | Widening twice is widening by the product |
| `TradeSimulation.WideningRefusesIff` | src/aef_terminal/backtest/mvp.py:381-420 | Widening is refused exactly for a multiplier that is not positive or an unknown target mode, and by one leaves the plan alone |
| `JsonStrings.LoadsDumps` | src/aef_terminal/settings_contract.py:230-242 | Every array of strings is read back from its own compact text, escapes included |
| `JsonStrings.PlainArray` | src/aef_terminal/settings_contract.py:230-242 | Plain items are written between quotes, with a comma between two and no blanks |
| `JsonStrings.EscapesAre` | src/aef_terminal/settings_contract.py:230-242 | What quotes, backslashes and control characters become |
| `JsonStrings.CanonicalIffDumped` | src/aef_terminal/settings_contract.py:230-242 | A text is accepted as these items exactly when it is their one spelling |
| `SettingsKeys.InstrumentKeyMeaning` | src/aef_terminal/settings_contract.py:471-489 | A text parses as this instrument, mode and setting exactly when it is the key built from them, whatever the id contains |
| `SettingsKeys.BuildThenParse` | src/aef_terminal/settings_contract.py:397-419 | An accepted build parses back to the id given and the exact setting and mode |
| `SettingsKeys.BuildersAccept` | src/aef_terminal/settings_contract.py:397-431 | Which ids, settings and modes the indicator builders accept, and the text they build |
| `SettingsKeys.StripMeans` | src/aef_terminal/settings_contract.py:397-431 | Stripping takes off white space at both ends and nothing else |
| `SettingsKeys.BuildGlobalThenParse` | src/aef_terminal/settings_contract.py:422-430 | An accepted global build parses back to the exact setting |
| `SettingsKeys.BuildScalarThenParse` | src/aef_terminal/settings_contract.py:385-394 | An accepted scalar build parses back to its instrument and name |
| `SettingsKeys.GlobalKeyMeaning` | src/aef_terminal/settings_contract.py:490-499 | The same correspondence for global indicator keys |
| `SettingsKeys.ScalarKeyMeaning` | src/aef_terminal/settings_contract.py:360-394 | The same correspondence for the scalar settings of an instrument |
| `SettingsKeys.FamiliesAreDisjoint` | src/aef_terminal/settings_contract.py:360-382 | No text is both a scalar key and an indicator key |
| `SettingsKeys.KeysAreInjective` | src/aef_terminal/settings_contract.py:414-419 | Two different meanings never share a key |
| `Decimals.AcceptedIffSpelling` | src/aef_terminal/settings_contract.py:253-264 | The accepted number texts are exactly the spellings of canonical decimals |
| `Decimals.OneSpellingPerValue` | src/aef_terminal/settings_contract.py:253-264 | Two accepted texts of the same value are the same text |
| `PaperScope.ScopeKeyIsInjective` | src/aef_terminal/paper_contract.py:33-35 | Different part lists have different scope keys, whatever characters the parts contain |
| `PaperScope.ScopeKeySeparatesIdentities` | src/aef_terminal/paper_contract.py:143-160 | Two contracts share a scope key exactly when they agree on every keyed part |

## Left out

- TradingHoursReads.LookupHitsTheHeld: takes the pending routes from the state of the run; when a route is pending is the subject of the generation results.
- Threads, event loops, executors and their cancellation before a task's first step: each locked region is one step, and a cancelled run is one that was awaiting its attempt.
- Callbacks that raise, metrics, logging and display text.
- Provider adapters, the database and the network: their answers are arguments of the steps, in the order the source awaits them.
- TickAggregator.TickBulkAggregator.DrainForShutdown: does not state the reasons under which a shutdown drops ticks.
- Periodic purge of raw ticks and the health report: independent of the writer's buffer and ledger.
- A dropped count without ticks (the ledger's empty-identity entry): no caller in the modelled paths records one.
- The completed-task purge at the start of the repair lane's scheduling: a finished task removes itself first.
- Waiters of the alert registry (revision and quote events), and its sorted read-only snapshots: they add no state the theorems need.
- Alert and quote payload validation and freezing: an alert is a record with an opaque body, its definition identity a field.
- TradingHours.TradingHoursState.MarkRouteStale: does not model a deletion that fails, which the source only logs.
- TradingHours.Route: does not model a route key apart from its provider, because instrument identities are provider-qualified, so the source's per-provider tables are kept as one.
- SessionPages.SlotCoverage: does not model time zones or schedule revisions; whether a store, a contract and a time zone are there is an argument. The future-axis wrapper around it is left out.
- SessionStore.Normalize: does not model the parsing of a payload, only whether each item is readable and where it lies; one code stands for the ways an item can be unreadable.
- SessionStore.StoredSessionsAreRead: takes the horizons behind stored rows as any function, and reads one window from page to page where the source narrows the window to each page's days.
- HistoryOwner.AdvancedIsComplete: assumes that providers answer an exact request with an exact terminal, which is a property of their adapters; HistoryOwner.MisfitIsAdmitted shows that nothing else enforces it.
- RepairLaneRefusals.IdleCursorWaitsForItsChart: assumes that a chart's generation never falls; the table of generations forgets idle charts when it grows too large, which is not modelled.
- ContextCache.AnalysisContextCache.Request: does not model how the key is hashed from bars and settings; keys are compared as text and the hash is taken as injective.
- PaperJournal.PaperJournalRuntime.PublishSnapshot: does not model the separate checks of a row's identity, only whether they pass.
- The refresh loop of the paper journal is modelled as any number of concurrent attempts; that the loop ends is not claimed, since marks may keep arriving.
- IndicatorPipeline.ExecuteIndicatorPipeline: does not model timings.
- IndicatorPipeline.FailuresStayOutside: assumes that a hook reads only its declared dependencies; the pipeline itself hands every hook the whole dictionary, so this is a property of the hooks (IndicatorPipeline.NosyHookSeesTheOrder).
- PngCanvas.Canvas.DrawLine: does not model float rounding in blending; alpha is real.
- Backtest.RunVariants: does not model the order in which active variants are visited within one window, nor the feature dictionaries, summaries and progress callbacks; horizons are non-negative.
- TradeSimulation.SimulateTrade: does not model rounding of reported figures, and the confidence, daypart and symbol copied into a trade.
- Admission of bars and tick history for a backtest: the bars are given as admitted.
- SettingsKeys.BuildIndicatorKey: does not model case folding of non-ASCII letters in a mode, none of which can produce a known mode.
- JsonStrings.Loads: does not model JSON values other than arrays of strings, or escaped surrogate pairs; the canonical check refuses both.
- Decimals.ParseDecimal: does not model the range and step limits applied after a number is accepted, or the canonical integer and colour patterns.
- PaperScope.ScopeKey: does not model the validation of identity fields before a key is built.
- Workspace keys, settings payloads, drawings, the economic calendar, GEX layout, fonts and PNG compression: long but shallow checks or plain formatting.
