# Report processor: a verified model of its change detection and dispatch

The report processor watches a set of folders. It scans each folder
periodically. It hands every new or changed report file to the handlers
subscribed to the folder's report types. This project models the
processor's core in Dafny and proves what it promises:

- **`MonitoredFolders`** (`monitored_folder.dfy`) models the per-folder
  change detector `MonitoredFolder`. A scan diffs the current directory
  listing against a table `path -> FileInfo`. It drops vanished paths
  without an event, and stores every new or changed snapshot. It reports
  only those stored snapshots whose creation or modification time is at or
  after the monitoring start bound. The scan is an imperative method over
  the table field. Pure functions specify it:
  - `Snapshot` is what the table becomes;
  - `Changes` is what the scan reports.
- **`ExecutorReportProcessors`** (`executor_report_processor.dfy`) models
  the engine `ExecutorReportProcessor` as a class. It holds:
  - the folder registry;
  - the handler registry (report type -> set of handlers);
  - the four-state lifecycle;
  - the delivery pool, as a FIFO queue of `(FileInfo, handler)` tasks with
    an "accepting" flag.

  One scheduled scan is one call of `Tick`. The pool running its oldest
  task is one call of `RunTask`. A task invokes its handler only if the
  handler is still registered for some report type when the task runs, and
  each invocation is appended to the `delivered` log.
- **`ReportHandlerWrappers`** (`report_handler_wrapper.dfy`) models the
  handler slot `ReportHandlerWrapper` as a stand-alone class. The engine
  never uses it: the engine keeps handlers in its own registry.
- **`Shared`** (`shared.dfy`) holds the file snapshot `FileInfo`, the
  paths, report types, times and handler identities. It also holds the
  collection of an array into a set (`Elements`), with its lemmas.

The directory listing, the clock and the handlers' own effects are
parameters:
- the file system is a map from folder path to listing (`FileSystem`);
- "now" is an integer argument;
- a handler is an identity (`HandlerId`), and invoking it appends to a log.

Where the source's own Javadoc says more than its code does, the model
follows the code:
- `MonitoredFolder` is documented as monitoring "during a configured time
  window" (src/main/java/report/processor/impl/MonitoredFolder.java:19).
  The code has only a start bound, and the window is `>=` that bound with no
  stop bound.
- `ReportHandlerWrapper` is documented as indicating whether a handler is
  registered in its report processor
  (src/main/java/report/processor/impl/ReportHandlerWrapper.java:11-12). The
  engine never uses it; it checks its own handler registry instead.
- `registerHandler` is documented as "the same handler can't be registered
  twice" (src/main/java/report/processor/ReportProcessor.java:30). The code
  answers false only if a listed report type already had the handler or a
  type is listed twice. Registering the same handler again for other report
  types adds it to them and answers true (`ReregisterResult`).

## Model

| member | source | states |
|---|---|---|
| Shared.ElementsMembers | src/main/java/report/processor/impl/MonitoredFolder.java:42 | collecting an array into a set keeps exactly its elements, and the set is no larger than the array |
| MonitoredFolders.IsInMonitoredWindow | src/main/java/report/processor/impl/MonitoredFolder.java:67-75 | a snapshot is in the window iff the later of its creation and modification times is at or after the start bound; equality counts as inside |
| MonitoredFolders.SnapshotEntries | src/main/java/report/processor/impl/MonitoredFolder.java:86-91 | the path-keyed table holds a path iff some listing entry with that path passes the filter, and maps it to such an entry filed under that path |
| MonitoredFolders.IndexListing | src/main/java/report/processor/impl/MonitoredFolder.java:86-91 | the map built from the listing is the filtered listing keyed by path, a later entry replacing an earlier one |
| MonitoredFolders.ChangesStep | src/main/java/report/processor/impl/MonitoredFolder.java:98-108 | storing one more path adds that path's snapshot to the report iff it is new or differs from the old one and is in the window |
| MonitoredFolders.FilteredOutPathIsIgnored | src/main/java/report/processor/impl/MonitoredFolder.java:87-91 | a path that fails the filter is never stored in the table and never reported |
| MonitoredFolders.RescanReportsNothing | src/main/java/report/processor/impl/MonitoredFolder.java:101 | scanning a listing unchanged since the last scan reports nothing |
| MonitoredFolders.DeletedThenRecreatedIsReported | src/main/java/report/processor/impl/MonitoredFolder.java:92-107 | a deleted file leaves the table without being reported; once re-created in the window it is reported again, even with the snapshot seen before the deletion |
| MonitoredFolders.LaterStartReportsLess | src/main/java/report/processor/impl/MonitoredFolder.java:67-75 | a later start bound reports a subset of what an earlier one reports |
| MonitoredFolders.MonitoredFolder.constructor | src/main/java/report/processor/impl/MonitoredFolder.java:39-44 | a new folder has an empty table, the given start bound and filter, and the given report types with duplicates collapsed |
| MonitoredFolders.MonitoredFolder.LimitMonitoringStartTime | src/main/java/report/processor/impl/MonitoredFolder.java:60-65 | the start bound becomes the maximum of the old bound and the requested one: it never moves backward |
| MonitoredFolders.MonitoredFolder.GetNewMonitoredChanges | src/main/java/report/processor/impl/MonitoredFolder.java:83-110 | after a scan the table is exactly the filtered listing keyed by path; the result holds exactly the new or changed snapshots in the window, no path twice |
| MonitoredFolders.MonitoredFolder.DropVanishedPaths | src/main/java/report/processor/impl/MonitoredFolder.java:92-97 | the table keeps exactly the stored paths still listed, with their old snapshots |
| MonitoredFolders.MonitoredFolder.StoreNewAndChanged | src/main/java/report/processor/impl/MonitoredFolder.java:98-108 | every new or changed snapshot is stored, so the table equals the new listing; the result holds exactly those in the window, no path twice |
| ReportHandlerWrappers.ReportHandlerWrapper.constructor | src/main/java/report/processor/impl/ReportHandlerWrapper.java:25-28 | a new slot is live, has invoked nothing, and holds the given handler and report types |
| ReportHandlerWrappers.ReportHandlerWrapper.MarkUnregistered | src/main/java/report/processor/impl/ReportHandlerWrapper.java:33-35 | the slot becomes inactive and nothing else changes |
| ReportHandlerWrappers.ReportHandlerWrapper.Handle | src/main/java/report/processor/impl/ReportHandlerWrapper.java:42-46 | the handler is invoked with the file info iff the slot is live; otherwise nothing happens |
| ReportHandlerWrappers.ReportHandlerWrapper.HandlesReportType | src/main/java/report/processor/impl/ReportHandlerWrapper.java:54-56 | true iff the report type was among those given to the constructor |
| ReportHandlerWrappers.UnregisterThenHandle | src/main/java/report/processor/impl/ReportHandlerWrapper.java:33-46 | unregistering twice leaves the slot inactive, and a later delivery invokes nothing |
| ExecutorReportProcessors.Step | src/main/java/report/processor/impl/ExecutorReportProcessor.java:111-139 | no request moves the lifecycle backward; only a start of an engine not yet started leads to Running; only forced shutdown acts in every state |
| ExecutorReportProcessors.LifecycleIsOneWay | src/main/java/report/processor/impl/ExecutorReportProcessor.java:111-139 | over any sequence of requests, an engine never returns to NotStarted, a stopping engine never runs again, and Stopping is final |
| ExecutorReportProcessors.RegisteredEntries | src/main/java/report/processor/impl/ExecutorReportProcessor.java:91-96 | after registration each listed type maps to its old set (or an empty one) plus the handler; unlisted types keep their sets |
| ExecutorReportProcessors.RegisterResultStep | src/main/java/report/processor/impl/ExecutorReportProcessor.java:95 | the answer stays true after one more type iff it was true and the handler was not yet in that type's set |
| ExecutorReportProcessors.RegisteredIsRegistered | src/main/java/report/processor/impl/ExecutorReportProcessor.java:88-98 | after registering for at least one type, the handler is registered |
| ExecutorReportProcessors.RegisterTwiceFails | src/main/java/report/processor/impl/ExecutorReportProcessor.java:88-98 | registering the same handler again for the same types answers false |
| ExecutorReportProcessors.ReregisterResult | src/main/java/report/processor/impl/ExecutorReportProcessor.java:88-98 | a second registration answers true iff it would have before the first one and lists none of the first one's types, so re-registering for other types answers true |
| ExecutorReportProcessors.UnregisterTwiceFails | src/main/java/report/processor/impl/ExecutorReportProcessor.java:101-108 | after unregistering, the handler is in no set, and unregistering again changes nothing |
| ExecutorReportProcessors.FanoutMember | src/main/java/report/processor/impl/ExecutorReportProcessor.java:159-168 | a task is in a pass's fan-out iff its change is reported and its handler is interested |
| ExecutorReportProcessors.FanoutCardinality | src/main/java/report/processor/impl/ExecutorReportProcessor.java:159-168 | a pass yields exactly changes x handlers distinct tasks |
| ExecutorReportProcessors.FanoutRowCardinality | src/main/java/report/processor/impl/ExecutorReportProcessor.java:160-167 | one change yields one task per interested handler |
| ExecutorReportProcessors.RegisteredJoinsFanout | src/main/java/report/processor/impl/ExecutorReportProcessor.java:155-158 | after registration, a handler is interested in a folder iff it already was or it registered for one of the folder's types |
| ExecutorReportProcessors.UnregisteredLeavesFanout | src/main/java/report/processor/impl/ExecutorReportProcessor.java:101-108 | after unregistration, the handler is interested in no folder and every other handler's interest is unchanged |
| ExecutorReportProcessors.ExecutorReportProcessor.constructor | src/main/java/report/processor/impl/ExecutorReportProcessor.java:56-60 | a new engine has empty registries and an empty queue, has delivered nothing, and has not started |
| ExecutorReportProcessors.ExecutorReportProcessor.AddMonitoredFolder | src/main/java/report/processor/impl/ExecutorReportProcessor.java:63-71 | answers true iff the path was not monitored; then a new folder with an empty table and start bound "now" is added; otherwise the registry and the folder already there are untouched |
| ExecutorReportProcessors.ExecutorReportProcessor.RemoveMonitoredFolder | src/main/java/report/processor/impl/ExecutorReportProcessor.java:74-85 | answers false, changing nothing, for an unknown path; otherwise the path leaves the registry and exactly one final pass over the folder is queued |
| ExecutorReportProcessors.ExecutorReportProcessor.RegisterHandler | src/main/java/report/processor/impl/ExecutorReportProcessor.java:88-98 | the registry becomes the registration of the handler for the listed types; the answer is true iff no type is listed twice and none already had the handler |
| ExecutorReportProcessors.ExecutorReportProcessor.UnregisterHandler | src/main/java/report/processor/impl/ExecutorReportProcessor.java:101-108 | the handler leaves every set and the types stay; the answer is true iff it was in at least one set |
| ExecutorReportProcessors.ExecutorReportProcessor.Start | src/main/java/report/processor/impl/ExecutorReportProcessor.java:111-119 | only an engine not yet started starts, and then every folder's start bound becomes the maximum of its old bound and "now" |
| ExecutorReportProcessors.ExecutorReportProcessor.Tick | src/main/java/report/processor/impl/ExecutorReportProcessor.java:116 | while the engine runs, one pass over every registered folder, each visited once, queuing each task it owes exactly once; otherwise nothing changes |
| ExecutorReportProcessors.ExecutorReportProcessor.Shutdown | src/main/java/report/processor/impl/ExecutorReportProcessor.java:122-131 | only a running engine stops gracefully, after one last pass over every folder, each visited once, queuing each task it owes exactly once; the pool then accepts nothing more |
| ExecutorReportProcessors.ExecutorReportProcessor.ShutdownNow | src/main/java/report/processor/impl/ExecutorReportProcessor.java:134-139 | from any state the engine is Stopping, the pool closes and the queued tasks are abandoned |
| ExecutorReportProcessors.ExecutorReportProcessor.RunTask | src/main/java/report/processor/impl/ExecutorReportProcessor.java:161-166 | the oldest task leaves the queue, and is delivered iff its handler is, at that moment, in some report type's set |
| ExecutorReportProcessors.ExecutorReportProcessor.Submit | src/main/java/report/processor/impl/ExecutorReportProcessor.java:161 | an accepting pool queues the task; a shut-down pool rejects it and queues nothing |
| ExecutorReportProcessors.ExecutorReportProcessor.CurrentHandlers | src/main/java/report/processor/impl/ExecutorReportProcessor.java:155-158 | the handlers interested in a folder are the union of the sets of its report types |
| ExecutorReportProcessors.ExecutorReportProcessor.SubmitToHandlers | src/main/java/report/processor/impl/ExecutorReportProcessor.java:160-167 | queues one distinct task per handler for the change, or nothing when the pool rejects |
| ExecutorReportProcessors.ExecutorReportProcessor.SubmitChanges | src/main/java/report/processor/impl/ExecutorReportProcessor.java:159-168 | queues exactly changes x handlers distinct tasks, one per pair, or nothing when the pool rejects |
| ExecutorReportProcessors.ExecutorReportProcessor.SubmitFileChanges | src/main/java/report/processor/impl/ExecutorReportProcessor.java:152-169 | one pass over a folder: its table becomes the filtered listing, and each task owed for its reported changes is queued once, or nothing when the pool rejects |
| ExecutorReportProcessors.ExecutorReportProcessor.SubmitRegisteredFolder | src/main/java/report/processor/impl/ExecutorReportProcessor.java:172-174 | the pass over one registered folder updates that folder's table only and queues each task it owes exactly once |
| ExecutorReportProcessors.ExecutorReportProcessor.SubmitPendingFolder | src/main/java/report/processor/impl/ExecutorReportProcessor.java:172-174 | a pass over one more folder extends the pass over all folders by a row holding each task the folder owes exactly once, with that folder no longer pending |
| ExecutorReportProcessors.QueuedStep | src/main/java/report/processor/impl/ExecutorReportProcessor.java:172-174 | visiting one more folder appends its row to the pass: the folders stay visited once each, and every row holds each task its folder owes exactly once |
| ExecutorReportProcessors.ExecutorReportProcessor.SubmitAllFileChanges | src/main/java/report/processor/impl/ExecutorReportProcessor.java:171-175 | after the pass, every folder's table is its filtered listing, and the queue grew by one row per folder, each folder visited once, each row holding each task its folder owes exactly once |

## Left out

- Concurrency: the scheduler thread, the worker pool's parallelism, `synchronized`, `volatile` and the concurrent maps. The model is sequential. Tasks run only when `RunTask` is called, and one scheduled scan is one call of `Tick`.
- The scan period and the fixed-delay scheduling are left out. So is `awaitTerminationMillis` (src/main/java/report/processor/impl/ExecutorReportProcessor.java:142-150), which is wall-clock waiting.
- The directory listing is the `fs` parameter. Reading the file system and its I/O faults are not modelled; `NioFileSystemHelper` is not part of this model.
- The clock is the `now` parameter. Times are unbounded integers, not `FileTime` values with their own precision.
- Handler behaviour is not modelled. A handler invocation is an entry in the `delivered` log, and isolating a failing handler is not modelled.
- Logging, the `ReportProcessors` factory and its XML path filter are left out. The filter is an arbitrary predicate.
- Iteration order over the folder registry, the handler sets and the scan's path map is unspecified, and the model picks each element by choice. The contracts therefore state membership, counts and absence of duplicates, never order.
- ExecutorReportProcessor.RemoveMonitoredFolder: a pool that has been shut down makes the submission throw; the model reports this as `rejected` instead. The folder has then already left the registry, and its table is updated.
- ExecutorReportProcessor.SubmitFileChanges: a rejected first submission is modelled as `rejected` with nothing queued, not as an exception.
- ExecutorReportProcessor.RunTask: the pool always runs the oldest queued task, one at a time. The worker pool may run queued tasks in any order and in parallel. No contract depends on this order, but the model covers only FIFO execution.
- ExecutorReportProcessor.ShutdownNow: the tasks not yet run are all abandoned. The pool may also let some of them finish, and that behaviour is not modelled.
- ExecutorReportProcessor.SubmitAllFileChanges: the folders are visited in an order the contract leaves open, and so are the tasks within one folder's row. The contract states which tasks each row holds and that each is queued exactly once, not their order.
- ExecutorReportProcessor.Tick: a scheduled scan that is still running after shutdown closes the pool needs concurrent interleaving, so it is not modelled. A tick therefore always meets an accepting pool.
- MonitoredFolder.GetReportTypes: a plain accessor with no contract of its own. The constructor's contract states the set it returns.
- ReportHandlerWrapper.Handle: the handler's own effect is the `handled` log.
