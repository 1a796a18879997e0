# Signal Observatory: verified model

A Dafny model of the parts of the observatory whose correctness spans many steps, with proofs
about whole histories of them. `dafny verify dfyconfig.toml` checks everything.

An instant is a whole number of microseconds since the epoch. The database is modelled as maps
keyed by its unique constraints, and every commit is one atomic step. A crash may fall between
any two commits and drops what was not committed.

| component | modules |
|---|---|
| resumable arXiv window protocol | `Windows`, `ArxivModel`, `ArxivEdits`, `ArxivHistory`, `ArxivPaging`, `ArxivCollector`, `RequestLimiter` |
| durable scheduler and its verifier | `Cron`, `SchedulerLedger`, `SchedulerProtocol`, `SchedulerExposure`, `Rounding`, `Punctuality` |
| topic registry and category tree | `Sorting`, `Canonical`, `UniqueNames`, `RegistrySync`, `CategoryForest`, `FeaturedTopics` |
| coverage projection | `Coverage`, `CoverageTable`, `BackfillCoverage` |
| GitHub snapshot log, verifiers, tree digest | `SnapshotLog`, `ArxivSoak`, `TreeStream` |

**arXiv.** `ArxivCollector.Collector` is the collector with its loops. Every write goes through one
method that appends the committed state to a ghost log, so a crash is a log cut short and
`ArxivHistory.CrashAndResume` glues such logs together. The invariant and the step relation of
`ArxivModel` hold with or without knowledge of the server: with a server that honours `start` and
`itemsPerPage` they say what is stored, without one they still give tiling, watermark and
termination. The main results are `SucceededWindowsUnion`, `NoPaperLost`, `PartitionAlwaysTiles`,
`Collect`, `Backfill` and the pass bounds of `CollectPartition` and `BackfillOne`.

**Scheduler.** `SchedulerLedger.Ledger` is the ledger, method by method, proved against functions on
its rows. `SchedulerProtocol` uses these functions in a state machine of hosts and job tasks that
interleave, hold execution locks, fail, stop, leave and crash. A host that waits for its tasks after a
stop gives up the leadership at the first exception, while other bodies may still run. What holds
nevertheless is proved of every history: bodies start at most once, a job has at most one running row,
terminal rows are final. `SchedulerExposure` proves exactly when such a leave can harm a body that is
still running. `Punctuality` proves what the read-only verdict means and that it is final.

**Registry.** The sync is proved to reach the fixpoint of its own diff wherever metadata survives the
database's JSON columns, and an empty diff to mean agreement with the registry. Both are modelled separately, entity by entity, the sync with the unique
keys it can fail on. `CategoryForest` proves that the loader's cycle report is exact, and that the web
client's upward path and downward closure agree.

**Coverage, snapshots, digest.** The incremental rebuild refines replace-all; the gap sweep is exact
on instants; the poll cache agrees with the append-only log; the hashed byte stream is uniquely
decodable.

Assumptions: one collector process at a time, which holds except after an early leave (below); settings that do not change between runs; a clock that
does not go back between runs; a fixed corpus and a fixed result list per query; leadership through
the PostgreSQL advisory lock, which ends when its holder gives it up or its process ends. `updated_at` is
a strictly increasing stamp.

Findings, each with a lemma that shows it:

- The page cursor advances by `itemsPerPage` even when a page has fewer entries. A page that is neither
  full nor last loses results, and the window still counts as collected (`ArxivPaging.ShortPageLoses`; the
  exact condition, on the page itself, is in `ArxivPaging.ShortPageSkips` and `PagingIsCompleteExactly`).
- A clock that falls back far enough leaves the incremental cursor on an empty window on which every
  later run fails (`ArxivHistory.ClockWedges`); one that falls back less takes the watermark back
  (`ArxivHistory.ClockRewinds`).
- The backfill cursor of a window that was split stays PARTIAL although all its parts are collected, and
  with it the coverage of the topic, for good (`BackfillCoverage.LargeStaysUnresolved`;
  `BackfillResolvesExactly` is the exact condition).
- After a stop, one task's exception makes the host give up its leadership while another body runs. The
  next host can interrupt that body's row and start another body of its source
  (`SchedulerExposure.EarlyLeaveInterrupts`; `SchedulerExposure.HarmExactly` is the exact condition).
- The on-time threshold lets half a millisecond more through, and whether exactly 500 microseconds pass
  depends on the threshold's binary expansion (`Punctuality.OnTimeExactly`).
- A topic or category that the registry dropped keeps its unique name, and two topics that exchange names
  meet the key half way; a validated registry then cannot be synced (`RegistrySync.RenamedSlugBlocks`,
  `RegistrySync.ExchangeBlocks`).
- The loader tells aliases apart by normalized form and case sensitivity, the database only by
  normalized form, so a validated registry can fail to sync (`RegistrySync.LoaderAdmitsClash`; the
  exact condition is in `RegistrySync.SyncAliases` and `RegistrySync.Store.Sync`).
- Topic and alias metadata is written to JSON columns as it was loaded. A date in it makes every sync
  fail, a number as a nested key makes every later diff report the topic again
  (`RegistrySync.UnwritableMetadataBlocks`, `RegistrySync.LostShapeNeverSettles`; the exact conditions are
  in `RegistrySync.Store.Sync` and `RegistrySync.SyncReachesFixpoint`).
- An observation on an earlier day than the newest snapshot makes the poll cache disagree with the
  log (`SnapshotLog.CacheAgreesExactly`, an exact condition), and a 304 snapshot can then carry facts
  from after its own day (`SnapshotLog.FallingTimesCarryLaterFacts`; the exact condition is in
  `SnapshotLog.RepeatsLastFullExactly`).
- Asking for zero featured topics selects all of them (`FeaturedTopics.SelectFeatured`).
- The arXiv soak verdict does not depend on which days are due once it passes (`ArxivSoak.Verify`).

## Model

| member | source | states |
|---|---|---|
| Windows.SplitExactly | collectors/arxiv/src/arxiv_collector/service.py:1169-1180 | a window can be split exactly when it is at least twice the minimum, whichever way an odd microsecond is rounded; the halves tile it and are long enough |
| Windows.SplitTile | collectors/arxiv/src/arxiv_collector/service.py:445-448 | splitting one tile in place keeps an ordered, gap-free, non-overlapping tiling of the root |
| Windows.TilesCount | collectors/arxiv/src/arxiv_collector/service.py:1169-1180 | a tiling of a root of length D by windows of at least m holds at most floor(D/m) windows |
| Windows.TilesCover | collectors/arxiv/src/arxiv_collector/service.py:415-460 | every instant of the root lies in one of its tiles |
| Windows.TilesIncrease | collectors/arxiv/src/arxiv_collector/service.py:415-460 | tiles are in increasing order and never overlap, so no two are equal |
| Windows.PartitionWindows | collectors/arxiv/src/arxiv_collector/service.py:362-374 | a backfill range is tiled by windows of the given number of days, only the last one shorter; no window for an empty range; fewer than one day is refused |
| Windows.SplitLosesTotalWeight | collectors/arxiv/src/arxiv_collector/service.py:221-265 | a split lowers the number of passes a list of windows can still cost, so the backfill loop ends with a real bound |
| ArxivEdits.WriteKeeps | collectors/arxiv/src/arxiv_collector/service.py:478-678 | a write that meets its condition takes a good committed state to a good one, one step further |
| ArxivEdits.DemoteWritable | collectors/arxiv/src/arxiv_collector/service.py:858-870 | pausing or failing a cursor is safe for every cursor that is not a completed child |
| ArxivEdits.LatestIsFree | collectors/arxiv/src/arxiv_collector/service.py:945-976 | the cursor written last, which error recording picks, is never a completed child of a partition |
| ArxivEdits.PageStored | collectors/arxiv/src/arxiv_collector/service.py:626-644 | storing an honest page keeps 'every result below next_start is stored', and reaching the total stores all results |
| ArxivEdits.PageWritable | collectors/arxiv/src/arxiv_collector/service.py:626-678 | so the commit after a page keeps the invariant, including a SUCCEEDED status |
| ArxivEdits.PartitionWritable | collectors/arxiv/src/arxiv_collector/service.py:889-905 | saving a partition on the parent keeps the invariant |
| ArxivEdits.NewPartitionOk | collectors/arxiv/src/arxiv_collector/service.py:405-413 | the first split of the root starts a correct partition |
| ArxivEdits.PendingIsFree | collectors/arxiv/src/arxiv_collector/service.py:417-422 | the next pending child shares its cursor with no completed child |
| ArxivEdits.CompletedPartitionOk | collectors/arxiv/src/arxiv_collector/service.py:458-460 | a child that succeeded moves from pending to completed and the tiling stays |
| ArxivEdits.SplitPartitionOk | collectors/arxiv/src/arxiv_collector/service.py:445-449 | a child that is split is replaced by its halves and the tiling stays |
| ArxivEdits.PartitionFits | collectors/arxiv/src/arxiv_collector/service.py:1169-1180 | a stored partition never holds more than floor(D/m) windows |
| ArxivEdits.ClosedWritable | collectors/arxiv/src/arxiv_collector/service.py:462-474 | closing a partition with nothing pending makes the parent SUCCEEDED with its watermark at the root's end, and keeps the invariant |
| ArxivEdits.ParentStartWritable | collectors/arxiv/src/arxiv_collector/service.py:828-856 | starting the incremental cursor, resumed or fresh, keeps the invariant: a resumed one keeps its window, a fresh one starts the overlap before the watermark |
| ArxivEdits.LeafStartWritable | collectors/arxiv/src/arxiv_collector/service.py:478-510 | starting a child or backfill cursor keeps the invariant |
| ArxivEdits.SucceededHasWatermark | collectors/arxiv/src/arxiv_collector/service.py:660-675 | a SUCCEEDED incremental cursor's watermark is its own window |
| ArxivHistory.CrashAndResume | collectors/arxiv/src/arxiv_collector/service.py:478-510 | a history cut after any commit and continued by a new run is again a history of good states and steps |
| ArxivHistory.SucceededParentCollects | collectors/arxiv/src/arxiv_collector/service.py:462-476 | a SUCCEEDED incremental cursor, split or not, means that every paper submitted in its window is stored |
| ArxivHistory.PartitionAlwaysTiles | collectors/arxiv/src/arxiv_collector/service.py:389-476 | in every committed state: completed then pending windows tile the root, every completed child has a SUCCEEDED cursor with exactly these bounds, and the parent is SUCCEEDED only with nothing pending |
| ArxivHistory.PapersStay | collectors/arxiv/src/arxiv_collector/service.py:626-634 | stored papers are never lost |
| ArxivHistory.WatermarkNeverFalls | collectors/arxiv/src/arxiv_collector/service.py:828-856 | last_query_until never decreases over a history |
| ArxivHistory.FirstSeen | collectors/arxiv/src/arxiv_collector/service.py:772-792 | a mapping's first incremental cursor has no watermark yet |
| ArxivHistory.UnionKept | collectors/arxiv/src/arxiv_collector/service.py:828-856 | in every state after a mapping's first window: the watermark ends where the last succeeded window ended, and the instants of succeeded windows reach from the first window's start exactly to it |
| ArxivHistory.SucceededWindowsUnion | collectors/arxiv/src/arxiv_collector/service.py:828-856 | whatever the server answers: an instant lies between the start of the first window and the current watermark exactly when it lies in a window with which the incremental cursor was SUCCEEDED in some earlier committed state |
| ArxivHistory.NoPaperLost | collectors/arxiv/src/arxiv_collector/service.py:828-856 | so, with a server that honours paging, every paper submitted between the start of the first incremental window and the current watermark is stored, over any runs, splits, pauses, errors and crashes |
| ArxivPaging.ShortPageSkips | collectors/arxiv/src/arxiv_collector/service.py:638-644 | what the paging assumption buys: for results without repetition, a page keeps 'everything below next_start is stored' for whatever is stored already exactly when it has itemsPerPage entries or ends at the total; these are the pages of a server that honours itemsPerPage |
| ArxivPaging.PagingIsCompleteExactly | collectors/arxiv/src/arxiv_collector/service.py:626-678 | over a whole window: pages that reach the total have brought in all results exactly when each of them was full or last |
| ArxivPaging.ShortPageLoses | collectors/arxiv/src/arxiv_collector/parser.py:46-53 | a page the parser accepts, one entry where itemsPerPage and total are two: the cursor is SUCCEEDED and a paper of the window is not stored |
| ArxivHistory.ClockWedges | collectors/arxiv/src/arxiv_collector/service.py:828-856 | what the clock assumption buys: a run plans an empty window exactly when its clock reads at most the watermark less the overlap; that run and all later ones then fail on the same window, whatever their clocks read, and neither the watermark nor the stored papers move again |
| ArxivHistory.ClockRewinds | collectors/arxiv/src/arxiv_collector/service.py:828-856 | and a clock that falls back by less than the overlap, exactly, plans a window that can be collected and then takes the watermark back |
| ArxivCollector.Collector.Get | collectors/arxiv/src/arxiv_collector/client.py:111-162 | a page is the body of the last counted request, answered with 2xx; every earlier attempt of the call was a transport failure or a transient status; which error is raised when, 403 without retry; at most the configured attempts; the request cap holds throughout |
| ArxivCollector.Collector.Limit | collectors/arxiv/src/arxiv_collector/service.py:518-528 | exactly which of the four limits is reported, in their order; none means a request, a page and a result are still allowed |
| ArxivCollector.Collector.Pause | collectors/arxiv/src/arxiv_collector/service.py:858-870 | a pause leaves the cursor PARTIAL with the given reason and sets the safety flag |
| ArxivCollector.Collector.StorePage | collectors/arxiv/src/arxiv_collector/service.py:626-678 | one page: either the window goes on with the invariant kept, or its cursor has settled as the outcome says |
| ArxivCollector.Collector.Turn | collectors/arxiv/src/arxiv_collector/service.py:530-678 | one pass of the page loop, with parse errors, pagination mismatches, large queries and storage failures; a pass that goes on has used up a request |
| ArxivCollector.Collector.CollectWindow | collectors/arxiv/src/arxiv_collector/service.py:478-678 | the outcome of a window is what its cursor says: SUCCEEDED, PARTIAL with the safety flag or a split, or not SUCCEEDED after an error; nothing else is written |
| ArxivCollector.Collector.SavePartition | collectors/arxiv/src/arxiv_collector/service.py:889-905 | the parent carries the partition and is PARTIAL |
| ArxivCollector.Collector.Fail | collectors/arxiv/src/arxiv_collector/service.py:935-943 | a failed cursor keeps its window and its partition |
| ArxivCollector.Collector.CollectChild | collectors/arxiv/src/arxiv_collector/service.py:417-460 | one pass over a partition completes one child, splits one child, or ends the run's work on it with the parent PARTIAL or an error |
| ArxivCollector.Collector.CollectPartition | collectors/arxiv/src/arxiv_collector/service.py:415-476 | the pending loop makes at most 2*floor(D/m)-2 passes, and a success puts the watermark on the root window |
| ArxivCollector.Collector.CollectIncrementalMapping | collectors/arxiv/src/arxiv_collector/service.py:376-476 | a mapping's window, in one piece or split: SUCCEEDED means the watermark is this window, PARTIAL means the safety flag is set |
| ArxivCollector.Collector.RecordError | collectors/arxiv/src/arxiv_collector/service.py:945-976 | marking the most recently updated cursor of the mapping keeps the invariant |
| ArxivCollector.Collector.CollectOne | collectors/arxiv/src/arxiv_collector/service.py:299-350 | a mapping without a counted error and without the safety flag has its planned window collected |
| ArxivCollector.Collector.Collect | collectors/arxiv/src/arxiv_collector/service.py:275-360 | a run reported SUCCEEDED has collected, for every selected mapping, the window it planned; with a known server every paper submitted in those windows is stored |
| ArxivCollector.Collector.BackfillWindow | collectors/arxiv/src/arxiv_collector/service.py:221-258 | a window that neither split nor stopped nor erred has its backfill cursor SUCCEEDED; other windows stay collected |
| ArxivCollector.Collector.BackfillOne | collectors/arxiv/src/arxiv_collector/service.py:217-263 | a mapping's range is tiled by SUCCEEDED cursors unless an error was counted or the run was stopped; the number of passes is bounded |
| ArxivCollector.Collector.Backfill | collectors/arxiv/src/arxiv_collector/service.py:167-273 | a backfill reported SUCCEEDED leaves every mapping's whole range tiled by windows whose cursors SUCCEEDED; with a known server every paper submitted in the range is stored, every planned window has a cursor, and where none of them is large they all SUCCEEDED and no other window was filed |
| BackfillCoverage.BackfillResolvesExactly | packages/operations/src/observatory_operations/coverage.py:184-219 | after such a backfill, where no other windows had been backfilled before, the topic is COMPLETE or EMPTY exactly when no planned window of any of its mappings is over the large-query threshold |
| BackfillCoverage.LargeStaysUnresolved | packages/operations/src/observatory_operations/coverage.py:184-219 | a large window that once got a backfill cursor keeps its topic from being COMPLETE or EMPTY after all later runs, also when all its parts are collected |
| RequestLimiter.Limiter.Acquire | collectors/arxiv/src/arxiv_collector/client.py:67-75 | granted request starts stay at least the interval apart, and none is delayed without need |
| RequestLimiter.SpreadOut | collectors/arxiv/src/arxiv_collector/client.py:51-75 | k requests take at least k-1 intervals |
| RequestLimiter.RateBound | collectors/arxiv/src/arxiv_collector/client.py:51-75 | a stretch of time sees at most one request more than the intervals that fit into it |
| Cron.ParseSchedule | apps/worker/src/signal_observatory_worker/main.py:28-47 | exactly the texts 'minute hour * * weekday' with fields in range are accepted |
| Cron.NextRunIsLeast | apps/worker/src/signal_observatory_worker/main.py:28-57 | next_cron_run is the least instant strictly after now that matches minute, hour and weekday (Sunday = 0, as in the POSIX crontab utility, section INPUT FILES) |
| Cron.ElapsedRuns | apps/worker/src/signal_observatory_worker/main.py:68-89 | elapsed_cron_runs gives exactly the firings in (after, until], in increasing order, and ends |
| Cron.LatestDueAgrees | packages/operations/src/observatory_operations/scheduler.py:83-88 | for a daily schedule the verifier's latest due window is the greatest firing up to now, and the worker's next run is one day after it |
| SchedulerLedger.Ledger.MaterializedWindows | packages/operations/src/observatory_operations/scheduler.py:132-145 | the known windows of a job, all of them, in order |
| SchedulerLedger.Ledger.Reconcile | packages/operations/src/observatory_operations/scheduler.py:147-186 | running rows become interrupted and due scheduled rows missed; the report lists exactly the rows that changed, oldest first |
| SchedulerLedger.Ledger.Plan | packages/operations/src/observatory_operations/scheduler.py:188-233 | the insert, the merge of missing metadata into a scheduled row, and the source mismatch |
| SchedulerLedger.Ledger.Start | packages/operations/src/observatory_operations/scheduler.py:235-254 | a claim succeeds exactly on a scheduled row |
| SchedulerLedger.Ledger.Finish | packages/operations/src/observatory_operations/scheduler.py:256-291 | finishing succeeds exactly with a collector outcome on a running row |
| SchedulerLedger.Ledger.FillGaps | apps/worker/src/signal_observatory_worker/main.py:148-156 | every elapsed window without a row gets one, no other row changes |
| SchedulerLedger.Ledger.Repair | apps/worker/src/signal_observatory_worker/main.py:143-163 | the startup block as one function of the ledger |
| SchedulerLedger.RestartRepair | apps/worker/src/signal_observatory_worker/main.py:143-163 | after it, every firing after the earliest known window up to the observed time has its row, every row due is terminal, none is running, terminal rows and other jobs' rows are unchanged, and every added row is a missed firing |
| SchedulerLedger.TerminalRowsStay | packages/operations/src/observatory_operations/scheduler.py:147-291 | a terminal row survives every ledger operation unchanged |
| SchedulerProtocol.StepKeeps | apps/worker/src/signal_observatory_worker/main.py:130-330 | every step of every host and task keeps the protocol invariant: crashes, failed tasks, both ways of waiting for the tasks, and a leave that frees the leadership while bodies are still running |
| SchedulerProtocol.AlwaysOk | apps/worker/src/signal_observatory_worker/main.py:130-330 | so it holds in every state of every run from a good state |
| SchedulerProtocol.BodyRunsAtMostOnce | apps/worker/src/signal_observatory_worker/main.py:171-183 | in every history, early leaves included: the body of a (job, window) is started at most once, and exactly for the rows that say so |
| SchedulerProtocol.AtMostOneRunning | packages/operations/src/observatory_operations/scheduler.py:104-291 | in every history, early leaves included: each job has at most one RUNNING row |
| SchedulerProtocol.PlansNeverMismatch | packages/operations/src/observatory_operations/scheduler.py:188-233 | no plan ever meets a row of another source |
| SchedulerProtocol.TerminalRowsNeverChange | packages/operations/src/observatory_operations/scheduler.py:104-291 | terminal rows are final over whole histories |
| SchedulerExposure.RowLostExactly | packages/operations/src/observatory_operations/scheduler.py:147-186 | in every history: the row of a live execution is not RUNNING exactly when, while it was live, a repair of its job ran |
| SchedulerExposure.HarmExactlyIfExposed | apps/worker/src/signal_observatory_worker/main.py:312-326 | from any good state: without a further noticed stop or failure in its host, a live execution can lose its row to the next host, and can be overlapped by a body of its own source there, exactly when its host has left or waits for all tasks after a stop with one of them raised |
| SchedulerExposure.ExposedExactly | apps/worker/src/signal_observatory_worker/main.py:312-326 | in every history that is the case exactly when the execution's host has noticed a stop and an exception has ended one of its tasks |
| SchedulerExposure.HarmExactly | apps/worker/src/signal_observatory_worker/main.py:312-326 | both together: over histories, a live execution can be harmed exactly when its host has noticed a stop and an exception has ended one of its tasks |
| SchedulerExposure.LiveRowIsRunning | packages/operations/src/observatory_operations/scheduler.py:256-291 | in any other host the row of a live execution is RUNNING until its own task ends it, so finishing does not fail |
| SchedulerExposure.SourcesExcludeEachOther | apps/worker/src/signal_observatory_worker/main.py:223-227 | two live executions of one source are in two hosts, one of which noticed a stop and had a task fail |
| SchedulerExposure.SettleSparesLiveExecutions | packages/operations/src/observatory_operations/scheduler.py:147-186 | a repair interrupts the row of a live execution only after its host gave up the leadership, having noticed a stop and had a task fail |
| SchedulerExposure.EarlyLeaveInterrupts | apps/worker/src/signal_observatory_worker/main.py:312-319 | a history of nineteen steps that ends with a live execution whose row is INTERRUPTED, so that its own finish fails |
| Rounding.ThousandthsAtMost | packages/operations/src/observatory_operations/scheduler.py:58-61 | rounding a delay, held as a double of 53 bits, to three decimals passes a whole number of milliseconds exactly up to 499 microseconds beyond it, or 500 where the double at the tie lies at or below it |
| Punctuality.OnTimeExactly | packages/operations/src/observatory_operations/scheduler.py:31-61 | so a row is on time exactly when it started at most 499 or 500 microseconds beyond the threshold, and which of the two the threshold decides |
| Punctuality.DefaultGrace | packages/operations/src/observatory_operations/scheduler.py:20-61 | 300 seconds, the default, let 500 microseconds more through, a threshold of zero 499 |
| Punctuality.TerminalOnTime | packages/operations/src/observatory_operations/scheduler.py:31-56 | terminal and on time together mean a collector outcome that started in time |
| Punctuality.FirstTagged | packages/operations/src/observatory_operations/scheduler.py:369-372 | the first tagged window, or none when nothing is tagged |
| Punctuality.JudgeWindow | packages/operations/src/observatory_operations/scheduler.py:391-416 | a window's counters are clean exactly when it has one tagged row, on time and ended by a collector |
| Punctuality.Verdict | packages/operations/src/observatory_operations/scheduler.py:369-428 | the verdict is passed exactly when the first N daily windows from the first tagged one are all due and punctual; failed only when a due one is not |
| Punctuality.VerdictIsAboutLedger | packages/operations/src/observatory_operations/scheduler.py:314-428 | the verdict on the listed rows is a verdict on the ledger |
| Punctuality.TagsLieAhead | apps/worker/src/signal_observatory_worker/main.py:165-167 | a tag is only ever put on a window that is still ahead |
| Punctuality.OncePassedStaysPassed | packages/operations/src/observatory_operations/scheduler.py:314-428 | once passed, the qualification stays passed after any later steps of the scheduler |
| Canonical.CanonicalFormDecides | packages/topic-registry/src/topic_registry/checksum.py:16-25 | two values have the same canonical form exactly when they are equal up to the order of lists and dictionary keys at every depth |
| Canonical.CanonicalIsEquivalent | packages/topic-registry/src/topic_registry/checksum.py:16-25 | a value is a rearrangement of its canonical form |
| Canonical.CanonicalizeIsIdempotent | packages/topic-registry/src/topic_registry/checksum.py:16-25 | the canonical form is its own canonical form |
| Canonical.CanonicalIsOrdered | packages/topic-registry/src/topic_registry/checksum.py:16-25 | every dictionary in a canonical form is in key order |
| Canonical.PayloadDecides | packages/topic-registry/src/topic_registry/checksum.py:28-52 | two registries have the same payload exactly when they hold the same definitions, up to order at every depth |
| RegistrySync.Compare | packages/topic-registry/src/topic_registry/diff.py:99-314 | the diff: changes and warnings as functions of database and registry, the registry-only change included |
| RegistrySync.CompareTopics | packages/topic-registry/src/topic_registry/diff.py:155-274 | its topic part, entity by entity |
| RegistrySync.EmptyDiffExactly | packages/topic-registry/src/topic_registry/diff.py:99-314 | the diff is empty exactly when every listed category, topic, alias and mapping is in the database as defined and the latest version has the registry's checksum and warnings |
| RegistrySync.SyncCategories | packages/topic-registry/src/topic_registry/sync.py:141-159 | it fails exactly when the flush meets a name that another row still holds; after both passes every listed category is as defined, parent included, and no other is touched |
| RegistrySync.SyncAliases | packages/topic-registry/src/topic_registry/sync.py:192-218 | the aliases go in exactly when no new normalized alias is repeated or taken by a source-scoped one and all metadata can be written as JSON; then the rows are the old ones overridden by the listed ones, with the metadata the column hands back |
| RegistrySync.SyncMappings | packages/topic-registry/src/topic_registry/sync.py:220-248 | every listed source is mapped as defined, no other mapping is touched |
| RegistrySync.SyncTopic | packages/topic-registry/src/topic_registry/sync.py:161-190 | one topic's row after the sync, with the deprecation time kept, set or cleared |
| RegistrySync.SyncTopics | packages/topic-registry/src/topic_registry/sync.py:161-190 | all topics, or a failure exactly when some topic's aliases or metadata do not fit or its normalized name is held by another row when its turn comes |
| RegistrySync.Store.Sync | packages/topic-registry/src/topic_registry/sync.py:72-116 | nothing to do, a committed sync, or a rollback that leaves the database as it was, and exactly when each happens: a sync that changes something commits exactly when aliases, metadata, category names and topic names fit and neither the version hook nor the connection fails |
| UniqueNames.FitsOneMore | db/src/observatory_db/models.py:107-134 | row by row: a write passes the unique key exactly when no other row holds its name by then |
| UniqueNames.Flush | db/src/observatory_db/models.py:107-134 | a flush goes through exactly when every row whose name is given to another one has been renamed before; the key then still holds |
| RegistrySync.DroppedTopicBlocks | packages/topic-registry/src/topic_registry/sync.py:161-190 | while the table keeps a topic that the registry has dropped, no sync brings in another topic of its name |
| RegistrySync.DroppedCategoryBlocks | packages/topic-registry/src/topic_registry/sync.py:141-159 | the same for a dropped category |
| RegistrySync.ExchangedTopicsBlock | packages/topic-registry/src/topic_registry/sync.py:161-190 | no sync lets two topics exchange their names |
| RegistrySync.RenamedSlugBlocks | packages/topic-registry/src/topic_registry/sync.py:161-190 | a validated registry whose aliases fit and that no sync can commit: a topic kept its name and changed its slug |
| RegistrySync.ExchangeBlocks | packages/topic-registry/src/topic_registry/sync.py:161-190 | another one: two topics exchange names, although the table they would leave obeys the key |
| RegistrySync.SyncReachesFixpoint | packages/topic-registry/src/topic_registry/sync.py:72-116 | after a committed sync the diff of the same registry has the same warnings, and it is empty exactly when the JSON columns hand all metadata back as it was |
| RegistrySync.LostShapeNeverSettles | packages/topic-registry/src/topic_registry/sync.py:161-190 | a validated topic with a number for a nested metadata key still counts as changed after every committed sync |
| RegistrySync.UnwritableMetadataBlocks | packages/topic-registry/src/topic_registry/sync.py:161-190 | a validated registry with unique names and no aliases that no sync can commit: its metadata cannot be written as JSON |
| RegistrySync.SyncRetains | packages/topic-registry/src/topic_registry/sync.py:72-116 | no category, topic, alias or mapping is lost, what the registry does not mention is untouched, and the version grows by exactly one |
| RegistrySync.LoaderAdmitsClash | packages/topic-registry/src/topic_registry/loader.py:149-159 | the loader admits a topic whose aliases no sync can insert |
| RegistrySync.NewTopicFits | packages/topic-registry/src/topic_registry/sync.py:192-218 | a new topic's aliases fit exactly when no two share a normalized form |
| CategoryForest.CycleFrom | packages/topic-registry/src/topic_registry/loader.py:246-256 | the walk from a category finds a cycle exactly when its parent chain repeats, and what it reports is a cycle on that chain |
| CategoryForest.CycleIssues | packages/topic-registry/src/topic_registry/loader.py:241-258 | no issue exactly when no chain repeats; every repeating chain has its cycle reported, every report is a real cycle, none is repeated |
| CategoryForest.CategoryIssues | packages/topic-registry/src/topic_registry/loader.py:92-124 | no issue exactly when slugs and names are unique, parents exist and no chain repeats; no issue is a false alarm |
| CategoryForest.CategoryPath | apps/web/src/lib/topics.ts:20-37 | on any list, cyclic or not, the path holds exactly the ancestors, root first, none twice; on a clean list it starts at a root |
| CategoryForest.CategoryDescendantSlugs | apps/web/src/lib/topics.ts:94-114 | the least set closed under children; with unique slugs exactly the slugs whose path contains the root |
| CategoryForest.LeastClosedIsBelow | apps/web/src/lib/topics.ts:94-114 | the connection between the two traversals |
| CategoryForest.RepeatedSlugDisagrees | apps/web/src/lib/topics.ts:20-114 | with a repeated slug the two traversals disagree |
| CategoryForest.RootCategorySlug | apps/web/src/lib/topics.ts:39-45 | on any list the last category on the way up from a known one, which has no known parent or one already passed, and a root on a clean list; stand-ins for an unknown or missing category |
| CategoryForest.RootsApart | apps/web/src/lib/topics.ts:116-135 | two roots have no descendant in common |
| CategoryForest.RootsCoverAll | apps/web/src/lib/topics.ts:116-135 | on a clean list every category lies below a root |
| CategoryForest.BuildTopicUniverse | apps/web/src/lib/topics.ts:116-135 | on any list each group gathers the topics of the least set below its root, and every root with such topics has a group; with unique slugs no topic is in two groups; on a clean list every topic of a known category is in one, and the counts add up to the number of such topics |
| FeaturedTopics.Leaders | apps/web/src/lib/topics.ts:47-64 | the first pass takes the first candidate of each root in order, as many roots as there are or fit, all before the topics of other roots |
| FeaturedTopics.SelectFeatured | apps/web/src/lib/topics.ts:3-72 | active topics only, as many as asked for (asking for none selects all), none twice; first the best ranked of as many different roots as there are or fit, ranked before every topic of a root left out; then the best ranked of the rest |
| Coverage.SweepStep | packages/operations/src/observatory_operations/coverage.py:410-420 | one step of the sweep keeps the gaps exact |
| Coverage.CursorGaps | packages/operations/src/observatory_operations/coverage.py:398-421 | for well-ordered windows the gaps are sorted, disjoint, non-empty and hold exactly the instants between earliest start and latest end that no window covers |
| Coverage.ArxivStatus | packages/operations/src/observatory_operations/coverage.py:185-236 | complete or empty exactly when there is a backfill cursor, all succeeded and no instant of the span is uncovered |
| Coverage.MissingBetween | packages/operations/src/observatory_operations/coverage.py:65-76 | exactly the unobserved dates strictly inside the observed span, in order; the span has as many days as observed and missing dates together, which is the expected count of the GitHub projection |
| CoverageTable.GroupMappings | packages/operations/src/observatory_operations/coverage.py:104-106 | mappings grouped by topic and source, in order |
| CoverageTable.Deriver.Write | packages/operations/src/observatory_operations/coverage.py:127-151 | the projections written so far and the counters kept with them |
| CoverageTable.Deriver.DeleteStale | packages/operations/src/observatory_operations/coverage.py:153-157 | exactly the supported rows that no projection called for are deleted and counted |
| CoverageTable.Deriver.Rebuild | packages/operations/src/observatory_operations/coverage.py:86-167 | the table after a rebuild and its report |
| CoverageTable.RebuiltRefinesReplaceAll | packages/operations/src/observatory_operations/coverage.py:104-167 | the rebuild has the same content as replacing all rows of supported sources; other sources' rows are untouched; a row keeps its derivation time exactly when nothing about it changed |
| CoverageTable.RebuiltTwice | packages/operations/src/observatory_operations/coverage.py:104-167 | a second rebuild from the same facts changes nothing |
| CoverageTable.ReportAddsUp | packages/operations/src/observatory_operations/coverage.py:127-167 | created+updated+unchanged is the number of projections, updated+unchanged+deleted the number of earlier supported rows |
| CoverageTable.SecondReport | packages/operations/src/observatory_operations/coverage.py:127-167 | a second rebuild reports nothing created, updated or deleted |
| SnapshotLog.Store.MarkPollSuccess | collectors/github/src/github_collector/persistence.py:271-290 | the poll state after a success, field by field |
| SnapshotLog.Store.MarkPollFailure | collectors/github/src/github_collector/persistence.py:292-308 | the poll state after a failure |
| SnapshotLog.Store.CreateFullSnapshot | collectors/github/src/github_collector/persistence.py:159-210 | a new snapshot exactly when the day has none; otherwise the day's own |
| SnapshotLog.Store.CreateUnchangedSnapshot | collectors/github/src/github_collector/persistence.py:212-269 | refused, with nothing written, exactly when there is no baseline; otherwise the newest snapshot is repeated unless the day has one |
| SnapshotLog.RecordsStay | collectors/github/src/github_collector/persistence.py:159-269 | whatever the clock does: snapshots are only added, each is filed under its own date, and no date has two |
| SnapshotLog.CacheAgreesExactly | collectors/github/src/github_collector/persistence.py:159-290 | after a successful observation last_snapshot_at names the newest snapshot exactly when the observation is not on an earlier day than it |
| SnapshotLog.NoSuccessNoChange | collectors/github/src/github_collector/persistence.py:292-308 | a failure, or a 304 without a baseline, records no snapshot and leaves the cached time alone |
| SnapshotLog.HistoryConsistent | collectors/github/src/github_collector/persistence.py:159-308 | with non-decreasing times: snapshots are recorded in date order, the cache always names the newest, and every 304 snapshot repeats the latest earlier full one |
| SnapshotLog.RepeatsLastFullExactly | collectors/github/src/github_collector/persistence.py:212-269 | in any history: the facts of a 304 snapshot are those of one full snapshot recorded before it, and that one is the latest full one exactly when no snapshot recorded before the latest full one carries a time as late |
| SnapshotLog.FallingTimesCarryLaterFacts | collectors/github/src/github_collector/persistence.py:230-260 | with times that fall a 304 snapshot can repeat facts from after its own day, and the cache is wrong |
| SnapshotLog.CheckRepository | packages/operations/src/observatory_operations/verification.py:57-80 | lists exactly the rows with a fabricated date and exactly the full rows that differ from the archived answer, and flags the cache exactly when it does not name the newest row; transitions are one fewer than rows |
| SnapshotLog.Verify | packages/operations/src/observatory_operations/verification.py:35-135 | the cross-day verdict: pending below two dates or without a repository of two days, otherwise passed exactly when every repository's rows and cache are sound and true to the archived answers, and the topic deltas hold |
| SnapshotLog.HistoryIsSound | packages/operations/src/observatory_operations/verification.py:57-80 | histories with non-decreasing times leave the verifier nothing to find |
| SnapshotLog.HistoryIsTrue | packages/operations/src/observatory_operations/verification.py:109-135 | and histories whose full answers were archived as they came leave no difference to the archive |
| ArxivSoak.EveryDayRun | packages/operations/src/observatory_operations/verification.py:267-267 | as many days with a run as required means every required day has one |
| ArxivSoak.Verify | packages/operations/src/observatory_operations/verification.py:212-278 | the soak passes exactly when each required day has exactly one run and that run has ended; what makes it fail |
| TreeStream.Stream | packages/operations/src/observatory_operations/backup.py:72-83 | the bytes fed to the digest and the total content length; an error exactly when a length does not fit in eight bytes |
| TreeStream.DecodeEncode | packages/operations/src/observatory_operations/backup.py:72-83 | a parser recovers the list of paths and contents from the stream |
| TreeStream.EncodeDecode | packages/operations/src/observatory_operations/backup.py:72-83 | and accepts nothing else |
| TreeStream.StreamDecidesTree | packages/operations/src/observatory_operations/backup.py:72-83 | two sorted listings give the same stream exactly when they list the same tree |

## Left out

- HTTP transport, XML, JSON and YAML parsing, SQL text, pydantic field checks and settings: inputs here are parsed values, and an answer of the server is a status code with a parsed or malformed body.
- SHA-256, gzip, Unicode normalization and date formats: paths are bytes, names and aliases come normalized, and the serialization key of the canonical form is a function that is one-to-one on values whose dictionaries are in key order. Fractional numbers are not told apart from whole ones in `Canonical`.
- Run rows, raw payload rows, quality counts, audit rows, log lines, issue message texts and the before/after payloads of a diff.
- Author, category and match upserts, and the merge of match metadata: a stored paper is a member of a set.
- Storage failures are injected only where a page is persisted; a failure to preserve a raw response ends the process and is a crash.
- Retry back-off times and jitter: only the number of attempts, their order and the spacing of request starts are modelled. In `RequestLimiter` a sleep lasts at least as long as asked.
- ArxivHistory.ClockWedges: the collector's methods assume that the clock does not go back, so the refused run is composed of the same two writes beside them.
- BackfillCoverage.BackfillResolvesExactly: speaks of a known server, whose totals decide which windows are large.
- ArxivCollector.Collector.Backfill: speaks of a tiling by cursors that succeeded, not of the cursor of a split window, because the code leaves that cursor PARTIAL after its halves have succeeded.
- Loss of the database connection that holds the leadership lock while its process goes on, and two collectors on one mapping at once: nothing in the code defends against them.
- SchedulerLedger.RestartRepair: speaks of the state after the startup block only, because a job that overruns its next firing leaves a gap until the next restart.
- Continuity counters, next-window fields and message texts of the scheduler status report.
- RegistrySync.Store.Sync: the order of the rows inside one flush is an order of updates by primary key and then of inserts, as the object-relational mapper writes them, with the primary keys any function of the slugs; column lengths of names, and the rows of sources, are not modelled. What a JSON column hands back for a piece of metadata is given with the registry.
- Punctuality.OnTimeExactly: the closed form is for thresholds below 2^33 seconds; beyond them the delay is still the rounded double, without a closed form.
- The loader's topic checks, alias collisions across topics and the collision allowlist: each is a single lookup; `RegistrySync` takes a registry that has passed them.
- Sorting inside topic groups, the first-five cut and `selectSupportingTopics`: a group holds its topics in the given order.
- FeaturedTopics.SelectFeatured: takes the root of a topic, and the order of slugs in the client's language, as functions.
- CategoryForest.BuildTopicUniverse: the groups are apart for unique slugs, which the category table guarantees; `CategoryForest.RepeatedSlugDisagrees` shows why.
- Coverage.CursorGaps: exactness is stated for windows that do not end before they start; no collector stores another kind, and the sweep is not exact for them.
- Coverage.ArxivStatus: the same restriction to well-ordered windows.
- CoverageTable.Deriver.Rebuild: a projection is any value computed from a group of mappings; its fields other than those in `Coverage` are not told apart.
- SnapshotLog.Verify: the topic-delta check enters as a count of failures; the archive is a function from an answer to its parsed payload, and a checksum mismatch or an unreadable file is an absent payload.
- Health classification, freshness, backup orchestration, API routes and React components: one branch settles each, or they are plumbing.
