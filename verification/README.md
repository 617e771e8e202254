# Verified model of data_collect_dag

The repository records synchronised sensor samples: a parsed pipeline graph is executed node by node
for every main frame, inside a session that can be paused, limited in time, samples and disk use, and
that is driven by a serial command queue. This project models that runtime and the dataset tools beside
it in Dafny, and proves what they keep.

| file | models |
|---|---|
| `Graphs.dfy` | adjacency lists with repeated entries, paths, reachability, cycles |
| `PipelineConfig.dfy` | edge tables, Kahn's algorithm, the two depth-first searches, graph acceptance |
| `DagExecutor.dfy` | the sample scheduler, for every completion order and batching |
| `DuplicateEdges.dfy` | exactly when a repeated edge breaks the scheduler's promises |
| `Storage.dfy`, `StorageProtocol.dfy` | the storage tracker as a class, and all its interleavings |
| `Session.dfy`, `SessionProtocol.dfy` | the session's critical sections as a class, and all their interleavings |
| `FrameQueue.dfy` | the drop-oldest frame queue and the sentinel wake-up |
| `ControlLoop.dfy` | status view, session manager and command loop |
| `InputCache.dfy` | the per-topic cache and its queries |
| `FpsGate.dfy` | guard and marker nodes over the scheduler |
| `Transforms.dfy`, `Motion.dfy` | rotations, interpolation and motion compensation over the reals |
| `MessageTypes.dfy` | dependency collection for generated message types |
| `Dataset.dfy` | index validation, split, link batching and merge |
| `Options.dfy` | optional values |

Conventions. Threads are modelled as atomic steps at the granularity of the source's locks, interleaved
in any order; a run is a sequence of states joined by steps, and theorems about runs hold for every run.
A class holds the fields the source updates in place; its methods are proved against functions on a value
view of those fields, and the interleaving machines take their steps with the same functions. Clocks are
exact reals or integers. Library calls (`sqrt`, `cos`, `sin`, `arccos`) are parameters of which only their
defining laws are known.

## What the proofs found

- The parser keeps a repeated edge (`src/data_collect_dag/config.py:251-255`) and the scheduler's
  `completed` test does not see nodes already in `ready` (`src/data_collect_dag/dag.py:80-85`). At most one
  submission per node, and an outcome that is that of the last node not to return OK, hold in every run if
  and only if the pipeline has no *live duplicate*: an edge u to v listed at least twice such that no other predecessor
  of v is reachable from u. Lists without a repeated pair are safe. `DuplicateEdges` proves both directions
  and gives the two-node counterexample. In any pipeline the outcome is what the last report said that was
  not OK or came from the end node.
- With k sample workers the saved-sample limit m can be passed, by at most k - 1, and every saved count up to
  m + k - 1 is reached by some run; with one worker the limit is never passed.
- A COMPLETED command can reach the queue after a storage failure, because the completion callback is made
  outside the state lock (`src/data_collect_dag/session.py:632-637`). It can exactly when, at the moment the
  failure is recorded, a completion has been granted whose command is not out yet. After the FAILED command
  itself it can exactly when the duration monitor stands between its grant and its callback, since FAILED
  waits for granted workers. A session has such a run if and only if it has both a storage limit and a
  duration limit; without a storage limit FAILED is never sent.
- A storage failure does not close the active interval. Once a session refuses new samples its active time is
  final exactly when a completion was granted, the session is paused, or it is stopped; exactly in the
  configurations with a storage limit some run has sent FAILED while the active time still grows.
- With one enqueue at a time, an event can be lost exactly when there is a sample worker, which may drain the
  queue between the full test and the eviction; two concurrent enqueues can lose one without any worker.
- Shutdown wakes every sample worker in every run if and only if the frame queue has room for one sentinel
  a worker.
- A trajectory query at a time shared by several poses is answered by the last of them, except for a tie at
  the very end of the trajectory, which is answered by the last but one.

## Model

| member | source | states |
|---|---|---|
| `Graphs.DescentEnds` | src/data_collect_dag/config.py:333-344 | in an acyclic graph every non-empty finite set of nodes holds one with no neighbour in the set: the finite-descent step behind rejecting a graph Kahn's algorithm could not finish |
| `PipelineConfig.IndexNodes` | src/data_collect_dag/config.py:228-248 | the node table is built exactly when the node ids are distinct, and then lists them in the order of the section; otherwise the id of the first repeated entry is reported |
| `PipelineConfig.BuildTables` | src/data_collect_dag/config.py:249-255 | both edge tables hold every listed edge with its multiplicity, mirrored; the only reason to fail is an edge naming an unknown node, and the first such edge of the list is reported |
| `PipelineConfig.TablesMirror` | src/data_collect_dag/config.py:251-255 | an edge occurs as often among the successors of its source as among the predecessors of its target |
| `PipelineConfig.TargetsInListOrder` | src/data_collect_dag/config.py:249-255 | the neighbour lists keep the order of the edge list |
| `PipelineConfig.CollectIds` | src/data_collect_dag/config.py:256-257 | the ids of one node type, in table order |
| `PipelineConfig.ExactlyOne` | src/data_collect_dag/config.py:256-261 | counting one id of a type is the same as there being a unique node of the type |
| `PipelineConfig.Dfs` | src/data_collect_dag/config.py:498-507 | the search returns exactly the nodes reachable from its root, and terminates on any table |
| `PipelineConfig.InitialQueue` | src/data_collect_dag/config.py:333-334 | the in-degrees and the queue Kahn's loop starts with satisfy its invariant |
| `PipelineConfig.ReleaseSuccessors` | src/data_collect_dag/config.py:339-342 | the inner loop keeps Kahn's invariant, repeated edges included: a node is queued exactly when its last predecessor entry is taken off |
| `PipelineConfig.CompleteOrderIsAcyclic` | src/data_collect_dag/config.py:343-344 | a complete order in which every node follows its predecessors excludes cycles |
| `PipelineConfig.LeftoverMeansCycle` | src/data_collect_dag/config.py:343-344 | nodes left over by Kahn's algorithm contain a cycle |
| `PipelineConfig.KahnOrder` | src/data_collect_dag/config.py:333-344 | the visited list is a topological order without repeats, complete if and only if the graph is acyclic |
| `PipelineConfig.ValidatePipelineGraph` | src/data_collect_dag/config.py:325-353 | accepts exactly the acyclic graphs all of whose nodes are reachable from start and lead to end; the error names the first rule broken: a cycle, then exactly the nodes start does not reach, then exactly the nodes that do not reach end |
| `PipelineConfig.ParsePipeline` | src/data_collect_dag/config.py:228-276 | a node list and an edge list are accepted exactly when ids are distinct, edges known, start and end unique and the graph good, a condition stated on the lists alone; the tables returned are those of the edge list; an error names the first of these rules that is broken, in this order, with its exact ids |
| `PipelineConfig.StartIsOnlySource` | src/data_collect_dag/config.py:345-348 | in an accepted graph only start has no predecessors |
| `PipelineConfig.EndIsOnlySink` | src/data_collect_dag/config.py:349-353 | in an accepted graph only end has no successors |
| `PipelineConfig.EveryNodeLeadsToEnd` | src/data_collect_dag/config.py:349-353 | in an accepted graph every other node is a proper ancestor of end |
| `DagExecutor.BooksHold` | src/data_collect_dag/dag.py:25-86 | in every state of every run the log accounts for every future, the outcome table agrees with the reports, and each logged event was justified when it was logged |
| `DagExecutor.SubmittedAfterAncestors` | src/data_collect_dag/dag.py:80-85 | in every run, of an accepted graph or not, a node is submitted only after every transitive predecessor has reported OK |
| `DagExecutor.NothingSubmittedAfterFailure` | src/data_collect_dag/dag.py:72-77 | after a report other than OK no node is submitted |
| `DagExecutor.EverySubmissionCollected` | src/data_collect_dag/dag.py:32-43 | when a sample ends every submission has been collected, as often as it was made |
| `DagExecutor.SubmittedAtMostOnce` | src/data_collect_dag/dag.py:80-85 | without a live duplicate edge each node is submitted at most once, in every completion order and batching |
| `DagExecutor.DistinctEdgesAreSafe` | src/data_collect_dag/config.py:251-255 | a pipeline whose edge list repeats no pair has no live duplicate |
| `DagExecutor.CompletesWholeGraph` | src/data_collect_dag/dag.py:32-42 | every run on an accepted graph that ends without cancellation has completed exactly the nodes of the graph, repeated edges included |
| `DagExecutor.OutcomeOkIffWholeGraphOk` | src/data_collect_dag/dag.py:25-86 | the sample outcome is OK if and only if every node ran and returned OK |
| `DagExecutor.FinalIsLastWord` | src/data_collect_dag/dag.py:71-79 | in every run of any pipeline, repeated edges and cycles included, the outcome is what the last report said that was not OK or came from the end node, and OK without one |
| `DagExecutor.OutcomeIsLastFailure` | src/data_collect_dag/dag.py:71-86 | read off the log of a finished sample without live duplicates: the outcome is exactly the status of the last node that did not return OK, a skip as a skip and a cancel as a cancel, and OK only when every node returned OK |
| `DagExecutor.NothingReadyIsHeldBack` | src/data_collect_dag/dag.py:33-41 | in every run the scheduler waits only when it must: while nothing has failed, every node whose predecessors have all returned OK is submitted before the next wait |
| `DagExecutor.NoOvertaking` | src/data_collect_dag/dag.py:33-38 | without live duplicates nodes are submitted in the order in which they became ready, those released by one report in the order of its successor list |
| `DagExecutor.WaitFirstCompleted` | src/data_collect_dag/dag.py:41-43 | a wait returns some non-empty batch of the outstanding futures, in any order, and leaves the rest |
| `DagExecutor.ReadySuccessors` | src/data_collect_dag/dag.py:80-85 | the successor loop appends exactly the released successors, as often as they are listed |
| `DagExecutor.RunSample` | src/data_collect_dag/dag.py:25-86 | the scheduler loop terminates, its log and outcome are those of a run of the state machine; its outcome is what the last deciding report said, and without live duplicates that of the last node that did not return OK |
| `DuplicateEdges.AtMostOnceIff` | src/data_collect_dag/dag.py:80-85 | an accepted pipeline submits every node at most once in all runs if and only if it has no live duplicate: an edge u-v listed twice with no other predecessor of v reachable from u |
| `DuplicateEdges.OutcomeFaithfulIff` | src/data_collect_dag/dag.py:71-79 | the outcome is that of the last node that did not return OK in all runs, and already being right about OK in all runs, holds under the same condition and only under it |
| `DuplicateEdges.DoubleEdgeBreaksBothPromises` | src/data_collect_dag/config.py:251-255 | the two-node pipeline with its edge listed twice is accepted by the validator and breaks both promises |
| `StorageProtocol.ReportedSizeIsDiskUse` | src/data_collect_dag/storage.py:98-101 | with every file tracked and no write in progress the size that is shown is the real disk use; once an error is recorded no size is shown |
| `Storage.StorageTracker.Check` | src/data_collect_dag/storage.py:103-111 | a recorded error first, then the limit |
| `Storage.StorageTracker.TakeSnapshot` | src/data_collect_dag/storage.py:113-118 | the snapshot holds the revision and the paths being written |
| `Storage.StorageTracker.CommitPaths` | src/data_collect_dag/storage.py:122-126 | the commit loop installs, over all known and scanned paths in any order, the scanned size (0 when not found) of exactly the paths not written and not refreshed since the snapshot, and keeps every other size |
| `Storage.StorageTracker.Commit` | src/data_collect_dag/storage.py:122-127 | the whole effect of the second critical section on the tracker |
| `Storage.SumValues` | src/data_collect_dag/storage.py:127 | the total is recomputed as the sum of the cached sizes |
| `Storage.StorageTracker.Fail` | src/data_collect_dag/storage.py:130-133 | the latest error is kept and nothing else changes |
| `Storage.StorageTracker.Refresh` | src/data_collect_dag/storage.py:135-149 | a refresh installs the size seen, moves the total by the difference and stamps the path with a new revision; a missing file counts 0 |
| `Storage.StorageTracker.BeginWrite` | src/data_collect_dag/storage.py:151-156 | entering `writing` counts one more writer of the path |
| `Storage.StorageTracker.EndWrite` | src/data_collect_dag/storage.py:157-163 | leaving `writing` counts one writer fewer and forgets the path at zero |
| `Storage.SumUpdate` | src/data_collect_dag/storage.py:145-148 | changing one entry changes the sum of sizes by the difference |
| `StorageProtocol.TotalIsSum` | src/data_collect_dag/storage.py:113-163 | in every interleaving the cached total is the sum of the cached sizes, also after errors |
| `StorageProtocol.CommitAccurate` | src/data_collect_dag/storage.py:113-128 | a commit leaves every tracked path that no writer is changing with its disk size |
| `StorageProtocol.ReconcileTakesScan` | src/data_collect_dag/storage.py:113-128 | in every interleaving a path, tracked or not, that nobody was writing at the snapshot or at the commit and that was not refreshed in between is left by the commit with the size the scan last read for it, 0 when it found no file |
| `StorageProtocol.OutsideChangePickedUp` | src/data_collect_dag/storage.py:113-128 | so a change made outside the tracker is picked up: a path that has not changed on the disk since the scan read it is exact after the commit, whatever was cached before |
| `StorageProtocol.RefreshReadsDisk` | src/data_collect_dag/storage.py:135-149 | in every interleaving a refresh gives its path the size on the disk, or keeps the cached one when its stat fails, moves the total by the difference and leaves every other path |
| `StorageProtocol.NoStaleSize` | src/data_collect_dag/storage.py:113-163 | without errors, in every interleaving of writers (several per path), refreshes and scans, a tracked path that no writer is between begin and refresh of has its cached size equal to its disk size |
| `StorageProtocol.EndNeverBlocked` | src/data_collect_dag/storage.py:157-163 | a writer past its refresh always finds its path counted, so taking one off the count cannot fail |
| `StorageProtocol.VerdictIsAboutDisk` | src/data_collect_dag/storage.py:103-128 | with no write in progress the limit check compares the real disk use with the limit |
| `StorageProtocol.FaultsAreReported` | src/data_collect_dag/storage.py:98-149 | in every interleaving, once a scan or a stat has failed every check fails with the message of the last failure and no size is shown; without a failure no check fails |
| `Session.SessionRuntime.Start` | src/data_collect_dag/session.py:116-118 | activation opens the active interval |
| `Session.SessionRuntime.FailSetup` | src/data_collect_dag/session.py:161-189 | a failed setup closes the session to samples |
| `Session.SessionRuntime.Pause` | src/data_collect_dag/session.py:437-448 | the new state after a pause; refused once completing or inactive |
| `Session.SessionRuntime.Resume` | src/data_collect_dag/session.py:450-459 | the new state after a resume; refused when not paused |
| `Session.SessionRuntime.Stop` | src/data_collect_dag/session.py:204-217 | stopping folds the open interval and refuses further samples |
| `SessionProtocol.FramesTakenWhileRunning` | src/data_collect_dag/session.py:308-312 | in every interleaving a frame is taken exactly while the session is active, unpaused, not completed and not cancelled: the accepting flag adds nothing to the others |
| `SessionProtocol.NoFrameAfterEnd` | src/data_collect_dag/session.py:308-312 | after a grant, a storage failure, a stop or a cancel no frame is ever taken again |
| `Session.SessionRuntime.RequestCompletion` | src/data_collect_dag/session.py:620-637 | granted exactly when nothing has ended the session; folds the interval at the grant |
| `Session.SessionRuntime.CheckStorage` | src/data_collect_dag/session.py:392-408 | records the first failure and ends the session whatever is in flight; sends FAILED at once only when nothing is |
| `Session.SessionRuntime.FinishStorageStop` | src/data_collect_dag/session.py:410-417 | sends FAILED exactly when a failure is recorded, nothing is in flight, the session is not cancelled and it was not sent before |
| `Session.SessionRuntime.AdmitSample` | src/data_collect_dag/session.py:332-349 | a sample is admitted, and counted in flight, exactly when nothing has ended the session |
| `Session.SessionRuntime.ReleaseSample` | src/data_collect_dag/session.py:350-355 | the finished sample leaves the count and a drained failure is reported |
| `SessionProtocol.SessionObeysProtocol` | src/data_collect_dag/session.py:332-417 | the observable log of every interleaving: no sample starts after a grant or a storage failure, at most one COMPLETED, only after a grant for the very reason it carries, at most one FAILED and that only with nothing in flight, no grant after a failure, a duration grant only when the active time has reached the limit |
| `SessionProtocol.ReportedLimitWasReached` | src/data_collect_dag/session.py:596-637 | in every run each COMPLETED goes back to an earlier grant of the same reason at which the limit of that reason, duration or saved samples, was configured and reached |
| `SessionProtocol.SavedOvershootBounded` | src/data_collect_dag/session.py:332-370 | with k workers and limit m never more than m + k - 1 samples are saved |
| `SessionProtocol.SavedOvershootReached` | src/data_collect_dag/session.py:613-637 | for every limit, worker count and other limits each saved count up to m + k - 1 is reached by some run |
| `SessionProtocol.StorageFailureIsReported` | src/data_collect_dag/session.py:392-417 | whenever the lock is free, a recorded failure with nothing in flight and no cancel has been sent |
| `SessionProtocol.FailureIsRecorded` | src/data_collect_dag/session.py:392-408 | in every reachable state of a session with a storage limit a failed check is recorded, ends the session and is logged if and only if the session is active, not cancelled and has logged none, whatever is in flight; FAILED follows at once exactly when nothing is |
| `SessionProtocol.DrainReached` | src/data_collect_dag/session.py:332-417 | for every 1 <= n <= k some run of k workers admits n samples, records the failure with all n in flight and sends FAILED right after the n-th release |
| `SessionProtocol.AdmittedWhileUnended` | src/data_collect_dag/session.py:344-349 | in every reachable state of an active, uncancelled session a sample is admitted exactly while the log shows neither a grant nor a failure |
| `SessionProtocol.SavedLimitIsEnforced` | src/data_collect_dag/session.py:613-637 | in every reachable running state a worker that has saved a sample completes the session, with grant and COMPLETED, exactly when the saved count has reached the limit |
| `SessionProtocol.DurationIsEnforced` | src/data_collect_dag/session.py:596-637 | in every reachable unended state a monitor that looks asks exactly when the session is unpaused and its independently measured active time has reached the limit; the request is granted and COMPLETED sent |
| `SessionProtocol.PauseAndResume` | src/data_collect_dag/session.py:437-459 | in every reachable state of an active session pausing a running one and resuming a paused one take effect exactly while nothing has ended it, keep the active time, and otherwise change nothing |
| `SessionProtocol.StopEnds` | src/data_collect_dag/session.py:204-217 | a stop in any reachable state leaves the session inactive, taking no frame, and its active time final at its value |
| `SessionProtocol.CompletedStillComesIff` | src/data_collect_dag/session.py:620-637 | in any reachable state that refuses new samples some continuation sends COMPLETED if and only if one has been granted whose command is not out yet |
| `SessionProtocol.CompletedAfterFailureIff` | src/data_collect_dag/session.py:392-417 | in any reachable state that records a storage failure a COMPLETED can come after it if and only if a completion had been granted whose command was not out yet |
| `SessionProtocol.CompletedAfterFailedIff` | src/data_collect_dag/session.py:410-417 | once the FAILED command is out a COMPLETED can still follow it if and only if the duration monitor stands between its grant and its callback |
| `SessionProtocol.CompletedAfterFailureWasGrantedFirst` | src/data_collect_dag/session.py:620-637 | read off the observable log alone: a COMPLETED sent after a storage failure was granted, for its own reason, before that failure; the exact condition is the one above |
| `SessionProtocol.CompletedCanFollowFailed` | src/data_collect_dag/session.py:596-637 | for any number of workers, some run has FAILED out while COMPLETED can still follow if and only if the session has both a storage limit and a duration limit |
| `SessionProtocol.ActiveTimeIsUnpausedTime` | src/data_collect_dag/session.py:586-594 | the active time equals a clock that ticks exactly while the session is active, unpaused and not completed by request |
| `SessionProtocol.ActiveTimeFrozen` | src/data_collect_dag/session.py:586-594 | once closed, the active time never changes again |
| `SessionProtocol.GrantAndStopFreeze` | src/data_collect_dag/session.py:204-217 | a grant and a stop both close the interval, so both freeze it |
| `SessionProtocol.TimeFrozenIff` | src/data_collect_dag/session.py:586-594 | in any reachable state that refuses new samples the active time is final if and only if a completion was granted, the session is paused, or it is stopped |
| `SessionProtocol.TimeRunsOnAfterFailed` | src/data_collect_dag/session.py:392-408 | some run has sent FAILED while the active time still grows if and only if the session has a storage limit; without one FAILED is never sent |
| `FrameQueue.MainFrameQueue.PutNowait` | src/data_collect_dag/session.py:517-527 | a put succeeds exactly when there is room |
| `FrameQueue.MainFrameQueue.GetNowait` | src/data_collect_dag/session.py:528-545 | takes the oldest item, or nothing from an empty queue |
| `FrameQueue.MainFrameQueue.Enqueue` | src/data_collect_dag/session.py:517-564 | without a worker in between: the new event is always kept, a full queue loses its oldest, and both counters move accordingly |
| `FrameQueue.HoldsNewestInOrder` | src/data_collect_dag/session.py:517-564 | after any sequence of enqueues and takes the queue is the tail of all events put, oldest first, within capacity, with the last put at its end; its length is the puts less the deliveries and less the evictions, which happen only to a full queue |
| `FrameQueue.EventsConserved` | src/data_collect_dag/metrics.py:23-30 | in every interleaving of producers and workers, with no producer in mid-enqueue, main frame events equal queued plus taken plus dropped before shutdown, afterwards with the sentinels added to the events; the capacity is kept |
| `FrameQueue.FirstInFirstOut` | src/data_collect_dag/session.py:517-564 | in every interleaving, shutdown included, what left the queue, by a worker or by eviction, followed by what it holds is what was put, in the order in which it was put |
| `FrameQueue.PutsAndGets` | src/data_collect_dag/session.py:517-564 | in every interleaving a producer puts exactly the event it came with, shutdown puts sentinels, nothing else is put and never beyond capacity; a worker gets the head, goes on with a frame and ends on a sentinel |
| `FrameQueue.EndedWorkerStays` | src/data_collect_dag/session.py:332-336 | a worker that has taken a sentinel, or met the cancel mark at its loop test, never takes anything again |
| `FrameQueue.ArrivalsAccounted` | src/data_collect_dag/session.py:517-564 | in every interleaving each arrived event has been put and counted, was lost, or is still under way |
| `FrameQueue.LossNeedsWorker` | src/data_collect_dag/session.py:528-564 | with one enqueue at a time an event can be lost if and only if there is a worker, which may drain the queue between the full test and the eviction |
| `FrameQueue.LoseToProducer` | src/data_collect_dag/session.py:528-564 | two producers can lose an event without any worker, for every capacity |
| `FrameQueue.NoWorkerLeftBlocked` | src/data_collect_dag/session.py:253-268 | with capacity at least the worker count, after the sentinel loop the queue holds an item for every worker that may still call get, even where put_nowait found it full |
| `FrameQueue.WakeUpIffRoomForSentinels` | src/data_collect_dag/session.py:253-268 | every run wakes every worker if and only if the capacity is at least the worker count |
| `ControlLoop.StatusManager.MarkRunning` | src/data_collect_dag/status.py:17-33 | a started session is published with its id and pipeline and a cleared error |
| `ControlLoop.StatusManager.MarkPaused` | src/data_collect_dag/status.py:35-37 | only the tool state changes |
| `ControlLoop.StatusManager.MarkResumed` | src/data_collect_dag/status.py:39-41 | only the tool state changes |
| `ControlLoop.StatusManager.MarkIdle` | src/data_collect_dag/status.py:43-49 | the session is withdrawn from the view and its end recorded |
| `ControlLoop.StatusManager.SetLastError` | src/data_collect_dag/status.py:64-66 | only the last error changes |
| `ControlLoop.AppRuntime.SubmitCommand` | src/data_collect_dag/app.py:129-132 | the command joins the end of the queue, and a shutdown also sets the shutdown mark |
| `ControlLoop.ShutdownMarkedFirst` | src/data_collect_dag/app.py:129-132 | a shutdown is marked before it is queued: in every run one that is queued or being dispatched has been marked |
| `ControlLoop.AppRuntime.StartSession` | src/data_collect_dag/session.py:657-673 | an unknown pipeline raises before anything changes; otherwise the active session is stopped first, whatever its stop does |
| `ControlLoop.AppRuntime.StopSession` | src/data_collect_dag/session.py:675-682 | the active session is withdrawn even when its stop raises |
| `ControlLoop.AppRuntime.PauseSession` | src/data_collect_dag/session.py:684-687 | session and status are paused together, or neither |
| `ControlLoop.AppRuntime.ResumeSession` | src/data_collect_dag/session.py:689-692 | session and status are resumed together, or neither |
| `ControlLoop.AppRuntime.Perform` | src/data_collect_dag/app.py:155-187 | what each command does to manager and status |
| `ControlLoop.AppRuntime.ControlTurn` | src/data_collect_dag/app.py:134-154 | one turn of the control loop: an exception becomes the last error and the loop goes on; a shutdown ends it after its cleanup |
| `ControlLoop.StatusMatchesManager` | src/data_collect_dag/app.py:134-187 | between commands, failing ones included, the view says IDLE iff nothing is active, PAUSED iff the active session is paused, and names the active session |
| `ControlLoop.CommandsAreTaken` | src/data_collect_dag/app.py:134-155 | in every run commands are taken in the order of the queue and all of them act, except a start after a shutdown request or with ROS down, which in the latter case queues a shutdown |
| `ControlLoop.StopTakesEffect` | src/data_collect_dag/app.py:158-186 | in every run a dispatched stop or shutdown leaves nothing active and an idle view that records how the session ended, also when its own stop raises; a shutdown sets the stop event |
| `ControlLoop.StartTakesEffect` | src/data_collect_dag/session.py:657-673 | in every run a start of a known pipeline stops the active session first and then leaves exactly that pipeline running under a fresh id and without error, or nothing active and the failure as last error |
| `ControlLoop.PauseAndResumeTakeEffect` | src/data_collect_dag/app.py:164-169 | in every run a pause of a running and a resume of a paused session that is not completing take effect in session and view alike; at other moments they change nothing |
| `ControlLoop.CompleteTakesEffect` | src/data_collect_dag/app.py:170-179 | in every run a complete ends the session it names and publishes the status it carries, or FAILED when the stop raises; for any other session it changes nothing |
| `ControlLoop.RefusalIsLastError` | src/data_collect_dag/app.py:140-187 | in every run an unknown command and a start of an unknown pipeline leave their message as the last error and change nothing else |
| `ControlLoop.ShutdownIsKept` | src/data_collect_dag/app.py:129-187 | a requested shutdown is being put, queued or dispatched until the stop event; its cleanup happens at most once; nothing is active afterwards, even when the cleanup raises |
| `ControlLoop.QueuedShutdownIsServed` | src/data_collect_dag/app.py:134-187 | a queued shutdown is reached after the commands before it, however those fail |
| `ControlLoop.NoSessionAfterShutdownRequest` | src/data_collect_dag/app.py:150-166 | after a shutdown request no session is created, unless a start was already being dispatched |
| `ControlLoop.SessionsEvolve` | src/data_collect_dag/session.py:657-682 | over any stretch of a run session ids only grow, and the active session at its end is the one at its beginning or one started in between |
| `ControlLoop.StaleCompleteIgnored` | src/data_collect_dag/app.py:170-179 | when the complete of a session that was active earlier in the run is dispatched while another session is active, that other one is newer and stays active |
| `ControlLoop.RetiredSessionStays` | src/data_collect_dag/app.py:170-179 | a session that has ended, or never became active, never becomes active again, and its complete dispatched at any later time changes nothing |
| `ControlLoop.UnknownPipelineKeepsSession` | src/data_collect_dag/session.py:657-660 | in every run a step taken while a start of an unknown pipeline is dispatched, by name or by an unknown default, keeps the session, its pause state and the view, apart from the error text |
| `InputCache.Evict` | src/data_collect_dag/cache.py:32-46 | the two eviction loops leave the appended window and report one reason per dropped frame, age first |
| `InputCache.WindowMoves` | src/data_collect_dag/cache.py:36-44 | one append moves the window of the history to the window of the longer history |
| `InputCache.BufferIsWindow` | src/data_collect_dag/cache.py:32-46 | for non-decreasing receive times the buffer after any appends is exactly the frames young enough against the newest and among the last max_frames of the whole history |
| `InputCache.AppendInAnyOrder` | src/data_collect_dag/cache.py:32-46 | with no order of receive times: an append drops from the front the frames that are too old up to the first that is not, then those beyond max_frames, keeps the rest and adds the new frame last |
| `InputCache.WholeNanosecondAge` | src/data_collect_dag/cache.py:36-39 | for an age of whole nanoseconds the bound is the age itself |
| `InputCache.SessionInputCache.Append` | src/data_collect_dag/cache.py:32-46 | the topic's history grows by the frame and its reported drops by the reasons returned, which are exact and account for every evicted frame; the buffer is the incremental window and other topics stay; a topic without policy is refused |
| `InputCache.SessionInputCache.DropsAndRetained` | src/data_collect_dag/cache.py:32-46 | over a whole history of appends, in any order of receive times, all reported drops plus the frames still buffered equal the frames appended |
| `InputCache.SessionInputCache.QueryNearest` | src/data_collect_dag/cache.py:48-60 | the first frame at the least source distance within the limit, or none when there is none |
| `InputCache.SessionInputCache.QueryLatestBefore` | src/data_collect_dag/cache.py:62-71 | the frame of latest source time among those not after the time and at most the age before it, the last arrived among equals |
| `InputCache.RangeIsFilter` | src/data_collect_dag/cache.py:73-79 | a range query returns every buffered frame inside the bounds, as often as it is buffered, and no other |
| `InputCache.RangeSplits` | src/data_collect_dag/cache.py:73-79 | and keeps their order: the range of a concatenation is the concatenation of the ranges |
| `InputCache.SessionInputCache.QueriesSeeWindow` | src/data_collect_dag/cache.py:48-79 | over an ordered history all queries look at exactly the sliding window |
| `FpsGate.GateTable.Mark` | src/data_collect_dag/session.py:326-330 | a mark never moves a gate back and leaves other gates alone |
| `FpsGate.GateHoldsLatest` | src/data_collect_dag/session.py:326-330 | whatever order marks arrive in, as from several workers, the gate holds the latest timestamp |
| `FpsGate.GateTable.RunGuard` | src/data_collect_dag/nodes/common.py:69-88 | the guard skips exactly when less than the minimum interval has passed since the last mark |
| `FpsGate.MarkerNeedsGuard` | src/data_collect_dag/nodes/common.py:63-105 | in a complete scheduler run of any accepted pipeline, repeated edges included, the marker runs only if the guard let the sample through on the gate as it was before the sample |
| `FpsGate.MarksSpaced` | src/data_collect_dag/nodes/common.py:63-105 | for any accepted pipeline, consecutive marks of a one-worker session keep the minimum interval and the gate holds the last one |
| `FpsGate.RateBound` | src/data_collect_dag/nodes/common.py:69-105 | for any accepted pipeline, repeated edges included, any two marks i < j are at least (j - i) * 10^9 / max_fps apart and strictly increase, whatever order frames arrive in |
| `FpsGate.GuardDecides` | src/data_collect_dag/nodes/common.py:69-88 | in every one-worker session the guard skips a sample, and its marker does not run, when it comes less than 10^9 / max_fps after the last mark; in any other sample it returns OK, at least until the sample's own marker is submitted |
| `Transforms.NormalizeUnit` | src/data_collect_dag/transforms.py:8-13 | only the zero quaternion is refused; every other is scaled to norm one |
| `Transforms.RotationOrthogonal` | src/data_collect_dag/transforms.py:16-28 | the matrix of a unit quaternion is orthogonal: its transpose undoes it, on both sides |
| `Transforms.RotationIsConjugation` | src/data_collect_dag/transforms.py:16-28 | the matrix of a unit quaternion turns every vector as the quaternion itself does, by q v q* |
| `Transforms.OrthogonalIffOrthonormal` | src/data_collect_dag/transforms.py:72-78 | transposing undoes a matrix on both sides exactly when its rows and its columns are orthonormal, the condition under which the transpose may stand for the inverse |
| `Transforms.RotationOfNegative` | src/data_collect_dag/transforms.py:16-28 | a quaternion and its negative give the same matrix |
| `Transforms.MatrixOrthogonal` | src/data_collect_dag/transforms.py:16-28 | every nonzero quaternion, of any norm, gives an orthogonal matrix, and only the zero one an error |
| `Transforms.QuaternionToRotationMatrixMany` | src/data_collect_dag/transforms.py:31-62 | filled entry by entry for all rows, it agrees with the single form row by row and fails exactly when some row would |
| `Transforms.FillMatrices` | src/data_collect_dag/transforms.py:52-61 | the nine entry assignments build the rotation matrix of every row |
| `Transforms.TransformIsApply` | src/data_collect_dag/transforms.py:81-86 | the homogeneous product is rotation followed by translation |
| `Transforms.InvertUndoes` | src/data_collect_dag/transforms.py:72-86 | inverting an orthonormal transform undoes it, in both orders |
| `Transforms.SlerpUnit` | src/data_collect_dag/transforms.py:89-126 | interpolation with a ratio in [0, 1] fails exactly on a zero quaternion and otherwise yields a unit quaternion, in the linear and in the spherical branch |
| `Transforms.SlerpEnds` | src/data_collect_dag/transforms.py:89-126 | ratio 0 gives the first orientation, ratio 1 the second up to the sign of the quaternion, in both branches |
| `Transforms.SlerpAngle` | src/data_collect_dag/transforms.py:104-125 | up to a cosine of 0.9995 the result lies at the given fraction of the angle, seen from the first orientation; above it is the normalised linear blend |
| `Transforms.SlerpOnArc` | src/data_collect_dag/transforms.py:118-125 | on the spherical branch the result lies on the great circle through both orientations, on the side of the nearer form of the second |
| `Transforms.SlerpEqual` | src/data_collect_dag/transforms.py:104-118 | equal endpoints, or the two quaternions of one orientation, give that orientation at any ratio |
| `Motion.SearchSortedRight` | src/data_collect_dag/nodes/common.py:557 | the number of leading times at most the query |
| `Motion.SegmentBrackets` | src/data_collect_dag/nodes/common.py:557-561 | for sorted times and a query in range the chosen segment brackets the query |
| `Motion.RatioWithin` | src/data_collect_dag/nodes/common.py:560-564 | the ratio lies in [0, 1] and is 0 and 1 at the ends of a proper segment |
| `Motion.ConstantVelocityReproduced` | src/data_collect_dag/nodes/common.py:557-565 | for a vehicle moving at constant velocity the interpolated position is exact at every query in range, ties included |
| `Motion.SegmentIsStraight` | src/data_collect_dag/nodes/common.py:557-565 | between two knots the interpolated position is that of a vehicle moving at constant velocity from one to the other, whatever the rest of the trajectory does |
| `Motion.TurnRateConstant` | src/data_collect_dag/nodes/common.py:560-568 | between two knots the orientation has covered the same fraction of the angle as the query has of the time |
| `Motion.KnotReproduced` | src/data_collect_dag/nodes/common.py:551-569 | a query at a knot returns that knot's position and its orientation, up to scale and sign, when its time is separated from its neighbours'; among ties it returns the last knot, except that a tie at the end of the trajectory is answered by the last but one |
| `Motion.FrameExists` | src/data_collect_dag/nodes/common.py:332-347 | with no zero quaternion in a sorted trajectory, interpolating inside its range and building the rotation never fails |
| `Motion.CompensatesIffCovered` | src/data_collect_dag/nodes/common.py:285-336 | on a sorted trajectory without zero quaternions the node never raises and compensates exactly when two poses or more cover every point time and the reference time; otherwise it skips a required sample and passes any other on, with the exact reason |
| `Motion.CompensationIsRigid` | src/data_collect_dag/nodes/common.py:340-353 | for any trajectory the distance of any two compensated points is the distance of the places they were in; points sharing a timestamp keep their distance |
| `Motion.CompensationCarries` | src/data_collect_dag/nodes/common.py:340-353 | for any trajectory each output point, carried by the vehicle's pose at the reference time (position plus q v q*), lies where the input point lay when carried by the pose at its own time |
| `Motion.ConstantVelocityShift` | src/data_collect_dag/nodes/common.py:340-353 | for a vehicle of constant orientation and velocity the output is the point in base coordinates plus the way from the reference time to the point's time, seen from the vehicle |
| `Motion.ReferencePointUnmoved` | src/data_collect_dag/nodes/common.py:340-353 | a point stamped with the reference time does not move, whatever the trajectory |
| `Motion.StandingStill` | src/data_collect_dag/nodes/common.py:340-358 | for a trajectory of identical poses base-frame output equals the plain transform to the base frame and sensor-frame output equals the input |
| `MessageTypes.TypeCollector.Visit` | src/data_collect_dag/ros_messages.py:119-125 | one visit adds exactly what is newly reachable, ends with the visited type, and in the acyclic case keeps every type after its dependencies; it terminates on cyclic relations |
| `MessageTypes.CollectTypes` | src/data_collect_dag/ros_messages.py:115-127 | the list holds exactly the types reachable from the root, each once, the root last, dependencies first when the relation is acyclic |
| `MessageTypes.BuildMessageCat` | src/data_collect_dag/ros_messages.py:127-138 | the combined text names the root first and then every other reachable type exactly once |
| `Dataset.ReadDirectory` | tools/lib/dataset.py:22-30 | a directory is read exactly when it is no link, holds only ordinary files and repeats no stem; the error names the first entry that is wrong |
| `Dataset.CheckFrames` | tools/lib/dataset.py:34-37 | accepted exactly when every directory has the frames of camera_config; otherwise one that differs is named |
| `Dataset.ReadIndex` | tools/lib/dataset.py:14-38 | the index is returned exactly when every counted directory is good, camera_config is there and all hold the same frames; it maps each directory and stem to its file; the error names the first directory that is not good, or what is missing or differs |
| `Dataset.IndexedUnique` | tools/lib/dataset.py:20-38 | the listing determines the index |
| `Dataset.Partition` | tools/lib/dataset.py:128-141 | refused exactly for a bad count or no frames; otherwise consecutive parts whose concatenation is the frame list, sizes at most one apart, larger first |
| `Dataset.LinkBatch` | tools/lib/dataset.py:80-83 | a batch links its jobs in order and stops at the first target already there |
| `Dataset.LinkedAnyOrder` | tools/lib/dataset.py:108-111 | the order of links does not matter: every order of the same jobs gives the same directories, and a clash happens in every order or in none |
| `Dataset.LinkRound` | tools/lib/dataset.py:108-111 | the batches of a round, interleaved job by job in any way, end as if linked one after another, with the same count |
| `Dataset.TakeRound` | tools/lib/dataset.py:106-107 | a round takes the next jobs in at most two batches a worker, each non-empty and of at most 64 |
| `Dataset.DrainJobs` | tools/lib/dataset.py:105-114 | the rounds, each interleaved in any way, together link every job once and count them |
| `Dataset.JobsLinked` | tools/lib/dataset.py:103-114 | linking all jobs gives exactly the chosen frames in every directory; a frame listed twice, and only that, is a clash |
| `Dataset.ExecutePlan` | tools/lib/dataset.py:99-114 | the target holds the chosen frames of every directory and nothing else for any number of workers, and the number of links is frames times directories |
| `Dataset.MergePart` | tools/lib/dataset.py:158-161 | refused exactly when a frame of a directory is already there, and names such a directory; otherwise each directory gains the part's files |
| `Dataset.Merge` | tools/lib/dataset.py:151-161 | accepted exactly when the parts have the same directories and share no frame of a directory; the result joins them directory by directory; the error names the first part that does not fit those before it |
| `Dataset.MergeAcceptsIffDisjoint` | tools/lib/dataset.py:155-161 | selections of one dataset merge exactly when no frame is in two of them: overlapping parts are rejected |
| `Dataset.SplitThenMerge` | tools/lib/dataset.py:121-162 | merging what the parts of a split hold rebuilds the original index: every directory, frame and file |
| `Dataset.WriteAndRead` | tools/lib/dataset.py:14-38 | a complete dataset that was written out and is listed in any order is accepted by the index and reads back as itself |
| `Dataset.SplitLinkReadMerge` | tools/lib/dataset.py:86-162 | for every frame list, part count and number of workers, splitting, linking every part, reading the parts back, merging them, linking the merged dataset and reading that back gives the dataset again; it is refused exactly for a bad count or no frames |

## Left out

- ROS transport, subscriptions, XML-RPC probes, services, the control client, and the launcher with its signals and locks: foreign libraries and operating-system behaviour; frames and commands are inputs.
- OpenCV, model inference, file formats and writers, the HTML viewer and the template export: input/output and third-party numerics.
- Per-node parameter checks, topic prechecks, logging, summaries, crop masks and alignment checks: each is settled by reading one branch.
- DagExecutor.RunSample: takes the two facts the validator guarantees (well-formed tables, start without predecessors) and does not model node timings, warnings, node metadata, outcome reasons or the cancel event handed to nodes; a node that raises is one that returns FAIL_SAMPLE.
- DagExecutor.WaitFirstCompleted: futures are node ids, so two futures of one node are two equal entries.
- StorageProtocol.NoStaleSize: does not model renames, directory changes during a scan or the retry of a vanished directory; changes outside `writing` are allowed only to untracked paths; before the first reconcile it speaks of refreshed paths only; after an error the sizes are not claimed to be right, as the source itself then reports none.
- Storage.StorageTracker.Check: the change callback and the error texts' wording are not modelled.
- SessionProtocol.SessionObeysProtocol: a worker's steps before admission (waiting for a frame, testing cancel and pause) are one idle state, with a storage limit a check may find any verdict at any moment, and callbacks into the command queue are steps that only log.
- SessionProtocol.ActiveTimeIsUnpausedTime: excludes sessions whose setup failed, which never report an active time.
- Session.SessionRuntime.Stop: models the flags and the clock; joining threads, closing writers and building the summary are not modelled.
- FrameQueue.EventsConserved: the counters are compared when no enqueue is in progress; lost events are counted by FrameQueue.ArrivalsAccounted, the source itself does not count them.
- FrameQueue.NoWorkerLeftBlocked: states that enough items are queued; that the queue then hands them out is the library's promise. Workers use a blocking `get`, without a timeout.
- ControlLoop.StatusMatchesManager: metrics and storage numbers in the view, and errors written by other threads, are not modelled; how a session's own start or stop ends is a free choice of the environment.
- ControlLoop.NoSessionAfterShutdownRequest: a start that passed its test before the request still finishes.
- ControlLoop.StaleCompleteIgnored: session ids are fresh numbers, where the source joins the time of day and a random suffix; two equal ids are not modelled.
- InputCache.BufferIsWindow: needs non-decreasing receive times, as the source's cutoff does; one lock covers each call, so calls are sequential; float rounding of the cutoff is replaced by exact truncation.
- FpsGate.RateBound: one sample worker, and one marker for the gate, downstream of its guard; several workers are not rate limited by the source. A sample whose marker runs twice, by a repeated edge, is one mark.
- Motion.CompensationIsRigid: exact reals instead of floats; point timestamps are the integers the message parser produces, so the finite mask keeps every point.
- Motion.SearchSortedRight: on unsorted times the library's binary search may pick another segment; the rigidity, reference-point and standing-still theorems hold for any segment, the bracketing ones need sorted times.
- Motion.CompensatesIffCovered: the wait for pose coverage is left out; the trajectory is what the wait returned. The metadata the node records is not modelled.
- Transforms.SlerpUnit: broadcasting and shape errors of the array form are not modelled; one row is.
- MessageTypes.CollectTypes: the dependency relation is an input; reading message texts and parsing field types is not modelled.
- Dataset.ReadIndex: the listing of a root is an input, sorted or not; a root that is no directory is not modelled.
- Dataset.ExecutePlan: the target checks, free-device checks, progress output and a failing file system are not modelled.
- Dataset.Partition: the sorted frame list is an input.
- The `select` tool and the reports of the dataset tools: easy members.
