# Sandman control plane, verified

Sandman runs pipelines over versioned data. This project models the parts of
its control plane that keep state, race with each other and make promises about
whole runs, and proves those promises of the model.

Every module follows one component. Where the program updates things step by
step, the model is a class or a method with loops, proved against a
specification function; where several goroutines race, the atomic actions are
the steps of a transition system and the claims range over every interleaving;
pure code is functions and lemmas.

| module | component |
|---|---|
| `CommitGraph` | deleting a commit and everything derived from it, with parent and head repair |
| `JobGate`, `GateProtocol` | the cancellable first-in first-out job slot: its linked list, and its races |
| `Datums`, `WorkerPool`, `DatumCache` | dedup records, the bounded worker pool, skipping, merging: cached equals recomputed |
| `TopoOrder` | Kahn's ordering of staged pipelines |
| `FlushClosure` | the jobs downstream of a set of commits |
| `Trigger` | provenance, consistent pairings, one job per pairing |
| `Transaction`, `TxHold` | all-or-nothing commits, and no lost trigger under a hold |
| `GpuRegistry` | device leases and worker slices |
| `Enumerate`, `Chunking`, `DatumDigest`, `JoinDatums` | which files form which datums, and what their digests fix |
| `Wire`, `LogCapture` | the text protocol and the log line splitter |
| `Sequences`, `Sorting`, `Paths` | shared definitions |

## How the central claims are stated

- **Deletion.** The walk's result is characterised without the walk, as the
  least set closed under "a job consumed a member, so its output is a member".
  The repaired graph is characterised through histories: after the deletion
  every survivor's history is its old history with the removed commits taken
  out, in order. Preserved ancestry follows. `rank` is a ghost witness that the
  stored parent links have no cycle.
- **Job slot.** Thirteen kinds of atomic step by any number of jobs and cancel
  calls. The arrival history with unlinked jobs taken out always equals the
  grants followed by the queue, so order, exclusion and "never dropped" are
  all consequences of one invariant.
- **Incremental equals full.** The transform is an arbitrary function from its
  own digest and the datum, its identity as well as its content digest, to output
  files: a union datum's digest leaves out the path that the transform sees, and
  its identity supplies it. Attempts may fail, be cancelled or restarted, and a
  job may stop after any step. Over every sequence of jobs under one transform, a
  job without a failed datum merges to the directory that running all of its
  datums would give, including when both fail on conflicting paths.
- **Transactions.** `Finish` commits if and only if a stated condition on the
  operations and the live pipelines holds; the two outcomes are a full
  characterisation of the new state and equality with the old view.
- **Holds.** Any number of transactions on one pipeline name share the two
  flags, and may commit, abort or find their pipeline gone. The claims are made
  per trigger, so what happened to other triggers does not matter.

## What the proofs found

- **Statistics commits.** The deletion's description promises everything
  derived, but its closure follows outputs only. `CommitGraph.StatsFollowedExactly`:
  it removes everything derived if and only if no job that consumed a removed
  commit leaves a statistics commit behind. `CommitGraph.StatsStayBehind` gives a
  case where such a commit and the job that consumed it both stay. (A job without
  an output puts the empty id into the closure, which is harmless:
  `CommitGraph.NoneIsHarmless`.)
- **Aborted transactions.** Clearing a name's flags on an abort can lose a trigger
  that a different, committed transaction had suppressed
  (`TxHold.AbortLosesTriggers`). `TxHold.AbortExact`: it cannot, if and only if
  another committed transaction on the name is yet to read the heads, or the name
  is not held, or no coordinator stands between its read and its look at the
  pending mark; in every other reachable state `TxHold.AbortCanLose` continues
  the run to a lost trigger.
- **Transform changes.** The dedup table survives an update that keeps the input.
  `DatumCache.StaleCarryDiffers` builds, for any datum of which two transforms
  make different output, two successful jobs of which the second carries the old
  files. `DatumCache.RightByTransform`: when a successful job's files merge, its
  output is right for every program that could have written the records if and
  only if each datum it skipped was recorded under its own transform.
  `DatumCache.RightExactly` is the condition for merges that fail, too.
- **Heartbeats.** A heartbeat leaves leases exact if and only if it reports each
  leased device (`GpuRegistry.HeartbeatLeases`). Reporting a free device twice
  does no harm by itself; the next job that reserves all the host offers then
  runs two workers on that device (`GpuRegistry.RepeatShared`).
- **Globs.** Whatever the pattern matcher does, a file is in at most one datum if
  and only if at most one directory above it matches (`Enumerate.OnceExactly`).
  Under a bare `**` that means it lies in no directory
  (`Enumerate.DoubleStarRepeats`); the comments on enumeration promise more.
- **Digests.** With union sides the digest identifies the files if and only if no
  side is named, or no path is spelled, like a digest
  (`DatumDigest.IdentifiesExactly`); otherwise `DatumDigest.WrongSkip` gives two
  datums with equal digests and different bytes.
- **Crashes.** Payloads are allocated before they are read. An `OUT` line crashes
  the reader if and only if its length is a 64-bit number that is negative or
  above what can be allocated (`Wire.CrashExactly`); a `DATA` line crashes the
  daemon if and only if it has no length or one above that limit
  (`Wire.PumpCrashesExactly`). Streams and sessions are delivered if and only if
  every frame can be allocated. A request line survives the text protocol if and
  only if it has no newline and does not end in a carriage return
  (`Wire.LineSurvivesExactly`).
- The deletion's description also says that a survivor whose parent was removed
  becomes the first commit of its branch; the code links it to its nearest
  surviving ancestor, and so does the model.

## Model

| member | source | states |
|---|---|---|
| `CommitGraph.Store.DeleteCommit` | jobs.go:1466-1623 | a missing target changes nothing; otherwise exactly the least derived closure is removed, jobs that consumed a member go, and every surviving parent link and head becomes its nearest surviving ancestor or is cleared |
| `CommitGraph.Store.DerivedClosure` | jobs.go:1477-1493 | the stack walk terminates on every job graph and returns the least set holding the target and closed under consumption |
| `CommitGraph.Store.IndexByInput` | jobs.go:1477-1493 | the index lists an output under a commit exactly when some job consumed that commit and produced it |
| `CommitGraph.Store.NearestSurvivor` | jobs.go:1535-1604 | the ancestor walk ends at the first commit, from the start backwards, that is not deleted, or at none |
| `CommitGraph.Store.HeadFixes` | jobs.go:1535-1576 | captures exactly the heads that are deleted, each with its nearest survivor |
| `CommitGraph.Store.ParentFixes` | jobs.go:1581-1604 | captures exactly the surviving commits with a deleted parent, each with its nearest survivor |
| `CommitGraph.Store.RemoveJobs` | jobs.go:1502-1530 | the remaining jobs, in order, are those with no deleted input |
| `CommitGraph.SurvivingMembers` | jobs.go:1502-1530 | a job survives if and only if none of its inputs was removed |
| `CommitGraph.SurvivingConcat` | jobs.go:1502-1530 | each record stays or goes by its own inputs alone, in listing order and as often as listed |
| `CommitGraph.NearestHistory` | jobs.go:1535-1604 | the nearest survivor has exactly the surviving part of the history of the commit it replaces |
| `CommitGraph.PrunedRanked` | jobs.go:1581-1622 | repaired parent links are again free of cycles |
| `CommitGraph.HistoryPruned` | jobs.go:1466-1623 | every survivor's history is its old history with the removed commits taken out, in the same order |
| `CommitGraph.HeadHistoryPruned` | jobs.go:1535-1576 | a repaired head has the surviving part of the old head's history, and a ref is removed only if nothing of it survived |
| `CommitGraph.PrunedExactly` | jobs.go:1581-1622 | with every link stored: the commits left are the survivors, each with its repository and branch, and with the newest survivor of its parent's history as parent |
| `CommitGraph.HeadsExactly` | jobs.go:1535-1617 | with every link stored: a ref goes if and only if it had a head and nothing of that head's history survives; otherwise its head is the newest survivor |
| `CommitGraph.PrunedComplete` | jobs.go:1535-1622 | no link and no head is left dangling |
| `CommitGraph.HistoryIsAncestry` | jobs.go:1581-1604 | a commit is in a history if and only if a path of parent links leads to it |
| `CommitGraph.AncestryPreserved` | jobs.go:1466-1623 | between any two survivors ancestry is the same before and after |
| `CommitGraph.PrunedSameRepo` | jobs.go:1535-1622 | repaired links and heads stay in their repositories, so a deletion leaves a store that the next one can start from |
| `CommitGraph.NoneIsHarmless` | jobs.go:1477-1493 | jobs without an output add only the empty id: the other members are the least closure over producing jobs |
| `CommitGraph.StatsFollowedExactly` | jobs.go:1454-1493 | the closure is everything derived, statistics included, if and only if no job that consumed a member has a statistics commit outside it |
| `CommitGraph.StatsStayBehind` | jobs.go:1454-1493 | jobs for which a statistics commit and the job that consumed it survive the deletion |
| `JobGate.JobGate.Enter` | jobs.go:944-963 | the list stays well formed; the job joins the end of the queue, or takes a free slot at once |
| `JobGate.JobGate.Remove` | jobs.go:991-1010 | reports whether the node was queued, and unlinks that node and no other |
| `JobGate.JobGate.Release` | jobs.go:1014-1027 | the oldest waiter and nobody else is handed the slot, or the slot becomes free |
| `GateProtocol.StepKeeps` | jobs.go:944-1027 | each atomic step of enter, cancel, unlink, hand-off and release keeps exclusion, the exactness of `held`, the flag order and the arrival history |
| `GateProtocol.EveryStateSafe` | jobs.go:944-1027 | in every state of every interleaving at most one job owns the slot, `held` is true exactly when one does, and a free gate has no waiters |
| `GateProtocol.QueuedCancelNeverRuns` | jobs.go:1177-1213 | once a cancel took a job for merely queued, that job runs at no point of the whole run |
| `GateProtocol.UncancelledRuns` | jobs.go:944-988 | over whole runs, a job no cancel call was made for never turns away: it waits, holds the slot, runs, and settles only after running |
| `GateProtocol.EveryStateFair` | jobs.go:960-1213 | in every state only cancelled jobs turn away, only cancel calls cancel, and a call past its signal has closed the channel |
| `GateProtocol.CancelledCanLeave` | jobs.go:960-975 | once a cancel call has returned, a waiting job can leave the queue at once |
| `GateProtocol.CancelCompletes` | jobs.go:1177-1213 | from any state a cancel call runs through, to the kill loop exactly if the job has started, and moves no job |
| `GateProtocol.CallKeepsJob` | jobs.go:1163-1213 | a call cancels the job it was made for |
| `GateProtocol.OwnerCanFinish` | jobs.go:979-988 | from any state a job with the slot and no cancel call can run to its end |
| `GateProtocol.GrantedInArrivalOrder` | jobs.go:944-1027 | among jobs that no cancel unlinked, an earlier arrival is granted the slot earlier |
| `GateProtocol.NeverStuck` | jobs.go:960-985 | while some job is unsettled, some unsettled job can step, so a slot handed to a cancelled job is not dropped |
| `GateProtocol.StepsAreBounded` | jobs.go:944-988 | each job's own steps lower its rank and nobody else moves it |
| `Datums.WriteBlobsGrows` | datum_engine.go:1478-1488 | storing output keeps every blob, keeps blobs honest, and makes every produced content readable |
| `Datums.StoredReadsBack` | datum_engine.go:1478-1488 | the references a run stored read back as the files it produced |
| `Datums.GrownKeepsTable` | datum_engine.go:560-578 | a truthful dedup table stays truthful when blobs are added |
| `WorkerPool.HomeIsRoundRobin` | datum_engine.go:638-641 | datum i is fed to worker i modulo the pool size |
| `WorkerPool.StepPlaces` | datum_engine.go:604-652 | every step keeps settled, in-flight and queued datums a partition of those fed, within the queue bound |
| `WorkerPool.StepTable` | datum_engine.go:719-795 | every step keeps "a completed record holds the files its transform makes of that datum and content" |
| `WorkerPool.StepKeeps` | datum_engine.go:604-795 | every step of coordinator, workers, cancel and restart keeps the pool invariant: places and records |
| `WorkerPool.RunKeeps` | datum_engine.go:604-795 | the invariant holds in every state of every run, and blobs are never lost |
| `WorkerPool.FinishedSettlesAll` | datum_engine.go:638-652 | a drained pool has settled every datum, by worker i modulo the pool size, under its own digest; it reports failure if and only if some datum did not complete |
| `WorkerPool.TriesExact` | datum_engine.go:714-780 | over whole runs, no datum has more failed attempts since its last start than it has tries, and one recorded failed in a job not cancelled has exactly that many |
| `WorkerPool.RecordFinal` | datum_engine.go:719-795 | a settled datum stays settled and its record does not change |
| `WorkerPool.OutcomeRecorded` | datum_engine.go:764-777 | a completed attempt's outcome, files and transform are the datum's record from then on |
| `WorkerPool.FailureRecorded` | datum_engine.go:744-790 | a datum given up, on a cancel or after its last try, is recorded failed, without files or transform, from then on |
| `WorkerPool.NoWorkAfterCancel` | datum_engine.go:743-752 | a cancel is for good, and no attempt or restart begins after it |
| `WorkerPool.RestartWaits` | datum_engine.go:528-546 | a restart request waits until its own datum's worker answers it |
| `WorkerPool.LoopOrder` | datum_engine.go:743-763 | at the top of the loop a cancel comes first, then a restart, also after the last try, then the count of tries |
| `WorkerPool.NeverStuck` | datum_engine.go:620-646 | until the pool has drained, the coordinator or some worker can step |
| `WorkerPool.EveryStepDecreases` | datum_engine.go:604-795 | with finitely many restarts every step lowers a lexicographic measure, so every run ends |
| `DatumCache.Plan` | execute.go:441-465 | the skipped ids, the work list in datum order and the table with placeholders are exactly those the skip rule defines |
| `DatumCache.ToRunConcat` | execute.go:446-465 | each datum is decided by itself, in place: it runs if the pipeline reprocesses, or it is new, or its last run did not simply succeed, or its content changed |
| `DatumCache.PlaceholdersAll` | execute.go:452-463 | every datum of the job has a record: the one it had, or a placeholder with its content digest |
| `DatumCache.MergeAssembles` | datum_engine.go:1572-1593 | merging files one by one gives each path once with its writes concatenated in order, and fails exactly when two paths conflict |
| `DatumCache.JobExec.MergeFile` | datum_engine.go:1572-1593 | appends at the path, or fails on an unreadable blob or a path conflict |
| `DatumCache.JobExec.MergeOutputs` | datum_engine.go:1505-1553 | the two passes succeed exactly when the merge of all contributions does, and leave that directory |
| `DatumCache.MergedContent` | datum_engine.go:1505-1553 | across transform changes too: a path written by a datum that ran holds, in datum order, the files of those that ran and of the skipped ones whose record is this transform's or none; any other path those of all records |
| `DatumCache.MergedExactly` | datum_engine.go:1505-1593 | the merge succeeds if and only if every contributed file is readable and no contributed path lies under another |
| `DatumCache.AnsweredJobRecomputes` | datum_engine.go:1505-1593 | if every datum's record answers for it, the merge equals running all datums again, failures included |
| `DatumCache.TableStaysTrue` | datum_engine.go:719-795 | through every sequence of jobs, retries, cancels, restarts and crashes, completed records stay truthful |
| `DatumCache.SuccessfulJobRecomputes` | execute.go:441-465 | after any history, a successful job whose skipped records come from its own transform merges to the recomputed output |
| `DatumCache.CachedEqualsRecomputed` | execute.go:441-465 | over every sequence of jobs under one transform, each job without a failed datum merges to exactly the output of running all its datums |
| `DatumCache.StaleCarryDiffers` | pipeline.go:905-919 | for any two transforms that differ on a datum, a history of two successful jobs across the update in which the second merges the old files |
| `DatumCache.RightExactly` | datum_engine.go:1519-1538 | a merged output equals recomputation for every program that could have written the records if and only if it is the output of the recorded files and, when there is one, every datum's record answers for it under this transform |
| `DatumCache.RightByTransform` | execute.go:441-465 | for a successful job that merges: that holds if and only if each skipped datum's record comes from the job's own transform |
| `TopoOrder.Order` | transaction.go:358-390 | a permutation of the names with every dependency first and the names without any leading in name order; fails if and only if there is a cycle (or an unknown dependency), repeated listings included |
| `TopoOrder.OrderIsAcyclic` | transaction.go:358-390 | any such order excludes every cycle |
| `TopoOrder.StuckSetHasCycle` | transaction.go:386-388 | names left over, each waiting for another, contain a cycle |
| `TopoOrder.CountDeps` | transaction.go:359-366 | consumer lists mirror dependency lists with multiplicity, and each count is the number of listings |
| `TopoOrder.PlaceOne` | transaction.go:375-385 | one round places a new name after its dependencies and keeps every count equal to the unmet listings |
| `FlushClosure.DownstreamJobsSet` | client/client.go:1390-1477 | without duplicates, exactly the jobs in the least fixpoint of every given commit; no commits, no jobs |
| `FlushClosure.Closure` | client/client.go:1390-1477 | the indexed queue walk of one commit terminates and finds exactly its least fixpoint |
| `FlushClosure.DownstreamIsReachability` | client/client.go:1390-1477 | the fixpoint is reachability along chains of consumption |
| `FlushClosure.Index` | client/client.go:1390-1477 | with unique ids the two maps name each job and list it under each input exactly |
| `Trigger.ProvenanceOf` | jobs.go:719-732 | terminates on any job graph and returns each leaf source once, exactly those the derivation graph reaches |
| `Trigger.PairingConsistent` | jobs.go:695-714 | true if and only if no two source commits behind the heads share a repository and branch at different revisions |
| `Trigger.KeyInjective` | jobs.go:695-714 | with valid repository names the joined repo and branch key identifies both |
| `Trigger.HasRunningJobWithInputs` | jobs.go:624-650 | true if and only if an unsettled job of the pipeline has exactly this input set |
| `Trigger.NewInputs` | jobs.go:406-418 | a new record lists the nonempty heads, each once |
| `Trigger.NewInputsOrder` | jobs.go:406-418 | in side order, by first appearance |
| `Trigger.ByOutputFirst` | jobs.go:385-392 | a commit's producer is the first listed job with that output, and there is none only if no job has it |
| `Trigger.Daemon.TriggerPairing` | jobs.go:484-556 | a job is recorded if and only if there is no duplicate and the pairing is consistent; nothing else changes and no pairing is doubled |
| `Trigger.StepKeeps` | jobs.go:484-556 | settlements, deletions and store writes between check and save cannot invalidate the duplicate check |
| `Trigger.NeverTwoForOnePairing` | jobs.go:484-556 | over every interleaving no two unsettled jobs of one pipeline have the same input set |
| `Trigger.TriggerGoesThrough` | jobs.go:527-551 | from any state with the mutex free, a new and consistent pairing is recorded, queued and without output, and then refused as a duplicate |
| `Trigger.SettledFrees` | jobs.go:624-650 | once the unsettled job of a pairing settles or its record goes, the pairing can be triggered again |
| `Trigger.SavedPairingsAgree` | jobs.go:484-556 | every record the trigger saves lists the heads found consistent earlier under the same lock, and they are consistent at the save if nothing they derive from changed in between: jobs may settle with outputs no head derives from, records may go, commits may be written |
| `Transaction.Control.Stage` | transaction.go:92-118 | at finish a staged create passes exactly when the name is free, and a staged update exactly when the pipeline existed at staging and still has the version it had then |
| `Transaction.PredictExact` | transaction.go:169-204 | phase 1 admits the operations if and only if every create is new and every first update finds its baseline; each name then rises by as many versions as operations were staged on it |
| `Transaction.Control.Validate` | transaction.go:169-204 | phase 1 computes the predicted versions, or refuses |
| `Transaction.Control.Finish` | transaction.go:155-281 | commits if and only if, operation by operation, every create is new and every first update finds its baseline, inputs are repositories or staged, no staged definitions read each other in a circle, no update switches statistics off and every write succeeds; then every staged name has its old version plus its number of operations, its last definition and its old stopped flag, and the others are untouched; otherwise names, definitions and versions are as before; either way every live version stays archived |
| `Transaction.AcyclicExactly` | transaction.go:222-239 | the dependency graph is acyclic if and only if no closed walk of names exists in which each last staged definition reads the next, a different staged name |
| `Transaction.StagedInputsExact` | transaction.go:229-236 | a definition's dependencies are the other staged pipelines it reads, as often as it reads them |
| `Transaction.FinalExact` | transaction.go:225-228 | the final definitions are those of the last operation on each name |
| `Transaction.AppliesFromStart` | transaction.go:250-277 | all operations apply if and only if each write succeeds and no update switches off statistics that are on by then |
| `Transaction.Control.ApplyOp` | pipeline.go:558-596 | one operation (this create, or the update at pipeline.go:881-935) applies exactly, or leaves the live records alone, and never overwrites an archived copy of an earlier live version |
| `Transaction.Control.ApplyAll` | transaction.go:250-277 | all operations in staged order, or a full rollback |
| `Transaction.Control.Rollback` | transaction.go:310-329 | undoing newest first restores names, definitions and versions, repeated operations on a name included, and leaves no archived version of a created name |
| `Transaction.FirstTouch` | transaction.go:173-203 | an admitted first operation on a name finds it absent (create) or at its baseline (update) |
| `Transaction.CreateIsNew` | transaction.go:178-185 | an admitted create is the first operation on a name that is not live |
| `Transaction.OutsideChangeRefused` | transaction.go:186-200 | a pipeline changed since its first update was staged refuses the whole transaction |
| `Transaction.ApplyNext` | pipeline.go:881-935 | applying the next operation reaches the version phase 1 predicted for the longer prefix |
| `Transaction.DependenciesInside` | transaction.go:222-239 | the dependency graph handed to the ordering stays inside the staged names, so a failure there means a cycle |
| `TxHold.StepCovers` | transaction.go:345-430 | each hold, commit, clear, schedule, release and arrival keeps a suppressed trigger covered; a drop does if the trigger was read or another transaction on the name is yet to read |
| `TxHold.SuppressedTriggerIsRead` | transaction.go:399-430 | per trigger: in every finished run a suppressed trigger is followed by a later head read, if each later drop came after a read of it or while another transaction on the name was yet to read |
| `TxHold.CommittedTriggerIsRead` | transaction.go:399-430 | a trigger suppressed while some transaction had committed and not released is read, if later aborts are harmless by the coordinators' positions |
| `TxHold.AbortExact` | transaction.go:286-296 | an abort leaves every trigger that committed transactions answer for answered, whatever arrives right before it, if and only if it is harmless by the hold and the coordinators' positions |
| `TxHold.AbortCanLose` | transaction.go:286-296 | from every reachable state in which an abort is not harmless, some run loses a committed transaction's trigger |
| `TxHold.AbortLosesTriggers` | transaction.go:289-296 | a concrete run in which a committed transaction's suppressed trigger is never read |
| `TxHold.HeldThroughout` | transaction.go:244-420 | a transaction alone on its name holds it from the start of applying until its coordinator looks at the mark, and again after each clearing |
| `TxHold.Flags.NoteTrigger` | transaction.go:345-353 | the critical section is the arrival step of the protocol, and touches no other name |
| `TxHold.Flags.SetHold` | transaction.go:244-248 | the critical section is the hold step |
| `TxHold.Flags.Unhold` | transaction.go:432-437 | the critical section is the drop step |
| `TxHold.Flags.ClearPending` | transaction.go:412-415 | the critical section is the clear step |
| `TxHold.Flags.ReadAndRelease` | transaction.go:417-420 | the critical section is the release step, and loops exactly when a trigger arrived |
| `GpuRegistry.Registry.Register` | hosts.go:75-94 | capacity is replaced, and leases survive exactly for devices still reported: the heartbeat step of the fleet |
| `GpuRegistry.Registry.PickAndReserve` | hosts.go:120-172 | succeeds if and only if some live host with the label has enough free devices; takes the lowest indices of the one with the most free, the first by name among equals (by name alone without devices); marks exactly those: the reserve step of the fleet |
| `GpuRegistry.Registry.Release` | hosts.go:176-192 | frees exactly the given devices of the host: for a job's own lease, the settle step of the fleet |
| `GpuRegistry.OfferFacts` | hosts.go:120-172 | a host offers its reported devices that are not leased, each once, lowest first |
| `GpuRegistry.HeartbeatLeases` | hosts.go:75-94 | a heartbeat leaves the leases exact if and only if it reports every leased device |
| `GpuRegistry.ReserveExact` | hosts.go:120-172 | a reservation leaves the leases exact if and only if it takes no index twice |
| `GpuRegistry.RepeatLeasedTwice` | hosts.go:120-172 | on a host that reported a free device twice, a reservation of all it offers leases that device twice |
| `GpuRegistry.RepeatShared` | datum_engine.go:1094-1103 | from any reachable state, a heartbeat that repeats a free device leaves leases exact, but the next job that reserves everything runs two workers on it |
| `GpuRegistry.LeasesStayExact` | hosts.go:75-192 | over every such run leases are disjoint, have the requested size and make up exactly the busy devices |
| `GpuRegistry.SliceFits` | execute.go:187-202 | a reservation of parallelism times devices per datum gives every worker its full share |
| `GpuRegistry.SlicesRejoin` | datum_engine.go:1094-1103 | the workers' slices in order are the whole lease |
| `GpuRegistry.SlicesDisjoint` | datum_engine.go:1094-1103 | slices of different workers of a job share no device |
| `GpuRegistry.AttemptsNeverShare` | datum_engine.go:1094-1103 | attempts on one host, of any jobs and workers, share no device |
| `Enumerate.EnumerateDatums` | datum_engine.go:288-336 | in path order, the matching paths not inside a matching directory, each with exactly its file or its subtree in path order, whatever the library's matcher answers |
| `Enumerate.RootExactly` | datum_engine.go:268-276 | the root is selected by the patterns "", "/", "**", "/**" and by no other |
| `Enumerate.WholeCommit` | datum_engine.go:288-336 | the glob "/" makes one datum of all files |
| `Enumerate.CoveredExactly` | datum_engine.go:288-336 | the files in datums are exactly those at or under a matching path |
| `Enumerate.OnceExactly` | datum_engine.go:288-336 | a file is in at most one datum if and only if at most one directory above it matches |
| `Enumerate.MatchDepth` | datum_engine.go:268-282 | a match fixes the depth of the path |
| `Enumerate.OneDepth` | datum_engine.go:268-282 | of a file and the directories above it at most one matches |
| `Enumerate.ExactlyOnce` | datum_engine.go:288-336 | for a glob of literals, `?`, `*` and separators, each file at or under a matching path is in exactly one datum, and no other file in any |
| `Enumerate.DoubleStarRepeats` | datum_engine.go:288-336 | under a bare `**` a file is in exactly one datum if and only if it lies in no directory |
| `Enumerate.Candidates` | datum_engine.go:288-302 | the candidates are the root, every file and every directory above one |
| `Chunking.ChunkSideDatums` | datum_engine.go:1625-1661 | the file sequence is unchanged; a count gives equal runs of the least size that stays within it; a size is exceeded only by a single member, and a chunk closes only when the next member does not fit; nothing set changes nothing |
| `Chunking.JoinedConcat` | datum_engine.go:1596-1607 | a chunk's identity lists its members' identities, separated by commas |
| `Chunking.GroupByCount` | datum_engine.go:1629-1643 | nonempty runs covering the members in order, at most the target number |
| `Chunking.GroupBySize` | datum_engine.go:1644-1660 | nonempty runs covering the members in order, each within the limit or single, each closed only by a member that did not fit |
| `Chunking.MergeKeepsFiles` | datum_engine.go:1596-1607 | merging any grouping keeps the file sequence |
| `DatumDigest.DatumHash` | datum_engine.go:382-428 | the loops hash the name, path and part digests of every copy, each ended by NUL, an unreadable digest as an empty field |
| `DatumDigest.DigestSpelled` | datum_engine.go:411-422 | the digest of one plain file, byte by byte |
| `DatumDigest.FieldsUnique` | datum_engine.go:382-428 | NUL-ended fields parse in one way only |
| `DatumDigest.PlainNoWrongSkip` | datum_engine.go:382-428 | plain datums with equal digests have the same files with the same bytes |
| `DatumDigest.UnionNoWrongSkip` | datum_engine.go:81-123 | union datums with equal digests hand over the same bytes, however the branches split them |
| `DatumDigest.MergedNoWrongSkip` | datum_engine.go:1020-1045 | datums mixing plain and union sides too, unless both some side is named and some path is spelled like a digest |
| `DatumDigest.IdentifiesExactly` | datum_engine.go:382-428 | over given side names and paths, and all copies a datum can have, equal digests mean equal files if and only if no name, or no path, is spelled like a digest |
| `DatumDigest.WrongSkip` | datum_engine.go:391-407 | otherwise a path merged from one four-part copy and one merged from two copies have equal digests and different bytes |
| `JoinDatums.ProductExact` | datum_engine.go:349-377 | the product has every choice, nothing else, and the product of the sizes; distinct lists give distinct tuples |
| `JoinDatums.ProductOrder` | datum_engine.go:349-377 | the first side varies slowest |
| `JoinDatums.ProductForKey` | datum_engine.go:1304-1325 | one key's product is exactly the tuples joined on it, each once |
| `JoinDatums.InnerDatums` | datum_engine.go:1281-1283 | the inner datums are the joined tuples, each once and in key order |
| `JoinDatums.OuterDatums` | datum_engine.go:1285-1297 | one datum for each file of an outer member whose key is not in every member, each once |
| `JoinDatums.Join` | datum_engine.go:1254-1299 | the datums are the relational join plus the unmatched files of outer members, nothing twice and nothing else |
| `Wire.LineSurvivesExactly` | protocol.go:70-90 | a line comes back, with the reader at the next byte, if and only if it has no newline and no trailing carriage return |
| `Wire.RequestRoundTrip` | daemon.go:448-493 | the header parse recovers exactly the request the client wrote and stops at the first stream byte |
| `Wire.RequestOnWire` | client.go:79-92 | a request as it stands on the wire |
| `Wire.HeaderRefused` | daemon.go:467-485 | a blank line or an unknown word before CMD, or a stream that ends early, refuses the request |
| `Wire.NamelessRefused` | daemon.go:457-462 | so does an empty identity or image |
| `Wire.Writer.WriteRequest` | client.go:79-92 | the client's loops send exactly the request's bytes |
| `Wire.Reader.ReadRequest` | daemon.go:448-493 | the daemon's loops compute exactly the parse, and leave the reader where it ends |
| `Wire.AtoiItoa` | protocol.go:94-140 | a printed integer reads back as itself within 64 bits, is an error outside, and is a safe word |
| `Wire.StreamRoundTrip` | protocol.go:105-140 | any frames with any payload bytes, then EXIT, decode to the same events and leave the rest of the stream, if and only if each payload can be allocated |
| `Wire.Writer.WriteOutFrame` | protocol.go:105-113 | sends exactly one frame's bytes |
| `Wire.Reader.ReadEvent` | protocol.go:117-140 | decodes exactly one event and consumes exactly its bytes, or fails, or crashes |
| `Wire.CrashExactly` | protocol.go:126-135 | the reader crashes if and only if the line is an OUT frame whose length is a 64-bit number that cannot be allocated |
| `Wire.LengthExactly` | protocol.go:126-135 | for every integer length: crash, payload and rest, or error |
| `Wire.ControlRoundTrip` | protocol.go:137-139 | any other line is read as its first word and the rest |
| `Wire.FrameOnWire` | protocol.go:105-113 | an output frame and an exit line as they stand on the wire |
| `Wire.SessionRoundTrip` | daemon.go:523-556 | the container receives exactly the bytes sent, however framed, and the signals in order, up to EOF, if and only if each frame can be allocated |
| `Wire.Reader.PumpStdin` | daemon.go:523-556 | the stdin loop computes exactly the session's meaning, crashes included |
| `Wire.DataExactly` | daemon.go:537-549 | for every integer length: payload taken, job killed, or daemon crashed |
| `Wire.PumpIgnores` | daemon.go:536-556 | blank lines, unknown words and signals without a name are passed over |
| `Wire.MessageOnWire` | protocol.go:94-102 | an input frame, a signal and the end of input as they stand on the wire |
| `Wire.PumpCrashesExactly` | daemon.go:537-549 | after any messages, the next line crashes the daemon if and only if it is a DATA header without a length or with one above the limit |
| `LogCapture.SplitRejoins` | logs.go:60-76 | the lines are newline-free pieces that rejoin, with the held rest, to the stream |
| `LogCapture.SplitUnique` | logs.go:60-76 | no other newline-free lines and rest do |
| `LogCapture.LogExactly` | logs.go:60-93 | the log of any lines and rest: each line trimmed in order, and the rest as a last line unless empty |
| `LogCapture.TrimCrExactly` | logs.go:78-83 | one carriage return at the end goes, and nothing else |
| `LogCapture.Capture.Write` | logs.go:60-76 | after a write the log and the held rest are those of the whole stream so far |
| `LogCapture.Capture.Close` | logs.go:85-93 | the log is that of the whole stream, an empty last piece dropped |
| `LogCapture.CaptureAll` | logs.go:60-93 | however the stream is cut into writes, the emitted lines are the same |

## Left out

Nothing was executed; everything here is a statement about the model.

- Docker, processes, HTTP, discovery, file-system and JSON mechanics, the web and terminal interfaces: foreign calls, I/O and presentation.
- CommitGraph.Store.DeleteCommit: the listing of jobs is constant while a deletion runs; cancelling and waiting for a removed job before its record goes, and deletion of per-job files, are not modelled. A dangling parent that was not removed counts as a survivor, as in the code.
- TopoOrder.Order: does not state the order of later rounds, because it follows Go's map iteration; this contract and those in `Trigger`, `JoinDatums` and `CommitGraph` hold for any iteration order.
- Job slot: memory is sequentially consistent, and the kill loop after a cancel that saw the job started is represented by reaching that point; its retries and time budget are not modelled.
- Trigger.NeverTwoForOnePairing: head jobs, manual runs and late-head growth write records outside the trigger mutex and are excluded; a listing of job records is one atomic read; size triggers, standby and trigger-branch accumulation are not modelled.
- Datum engine: the transform is deterministic in its own digest, the datum's identity and its content, and a run that completes leaves the same files however it completed (an error handler's recovery included), timeouts are failed attempts, group inputs are not modelled, and no blob is collected between jobs.
- DatumCache.CachedEqualsRecomputed: ids are assumed distinct within a job, as the code's id-keyed table needs; building an id from paths is not modelled.
- Conflicting output paths: a merge fails when one written path is a directory of another; file modes and symbolic links are not modelled.
- SHA-256 is treated as injective; names and paths are free of NUL.
- Enumerate.ExactlyOnce: covers globs of literals, `?`, `*` and separators, on which the library's matcher is described by `Enumerate.Match`; its character classes and escapes are not described, and globs with them are covered by `Enumerate.OnceExactly`.
- Sizes, device counts and versions are unbounded integers: 64-bit overflow in sums and products is not modelled (numbers parsed from the wire are bounded).
- Transaction.Control.Finish: validation of a definition's own fields, cron and trigger-branch derivation, output repository creation, and spec commits with their deletion on rollback are not modelled; the claim assumes that each live version has its archived copy and that rollback's own writes succeed. Run state such as a stopped flag is outside the rolled-back view, because rollback restores the archived record.
- Coordinator: that exactly one head job processes the final heads, and its wait for dependencies, are not modelled; a step marks when it is ready.
- GpuRegistry.LeasesStayExact: liveness is a parameter; a dropped host loses its leases, so runs with drops are outside the claim; `GpuRegistry.Registry.Drop` only states what is removed.
- Wire: I/O errors in the middle of a write are not modelled; what can be allocated is a parameter.
- Log capture: timestamps and the file the lines go to are not modelled.
- Cluster gossip, size ledgers, cron tickers, spouts, patching, garbage collection, `LatestPerPipeline`, `InputSides`: they would only add easy members, or rest on file-system timing.
