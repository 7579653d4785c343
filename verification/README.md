# A verified model of the glusterd2 core

glusterd2 manages a cluster of Gluster storage peers. This project models the parts of it whose
correctness is hardest to see from the code, and proves what they promise:

- **Transactions, second engine** (`TxnEngine`, `TxnRuns`, `TxnBarrier`, `TxnRestart`, `TxnRollback`,
  `TxnDeletion`, `TxnOutcome`, `TxnProgress`). Peers work
  on their own and talk only through store keys: the transaction record, one status per peer and one
  last executed step per peer. `TxnEngine.Step` is a total transition function over single store
  operations and local events, so a list of actions in any order is a run, and a claim about
  `Run(t, acts)` for all `acts` holds in every interleaving, with crashes, restarts, lost writes and
  rollbacks. The other modules build runs, and prove the synchronization barrier and the meaning of a
  nil result of `Do`, the cost of restarts, when deleting failed transactions is sound, when the
  work behind a nil result is still there, and that barriers open, transactions succeed and what has
  ended is removed.
- **Transactions, first engine** (`TxnSaga`, `TxnContext`, `NodesUnion`): the saga of do and undo
  steps, the read and write cache of a transaction context, and the in-place removal of duplicate peers.
- **Brick planner** (`Disperse`, `BrickLayout`, `BrickAllocation`, `BrickOverlap`, `BrickArbiter`,
  `BrickPlanner`): redundancy, size arithmetic, the two-pass greedy choice of devices under zone
  constraints, with and without zone overlap, with and without arbiters, and all of it together.
- **Brick processes** (`PortMap`, `BrickMux`): the port registry and brick multiplexing.
- **Cluster plumbing** (`Nominations`, `RecordMarking`): the nomination round of the elastic etcd
  cluster, and the record marking of section 11 of RFC 5531.
- **Volfiles** (`Volfile`, `BrickNames`): the printer of translator graphs and the brick numbering its
  templates use.

Code that updates fields in place is a class, and a loop is a loop; each such method is proved equal to
a function of the old state, and the laws are proved about that function over all inputs or all runs.

## Where the code does less than its comments say

In each case the model follows the code, a lemma gives an input or a run that fails, and an equivalence
says exactly when the promise holds.

- `waitForCompletion` starts before `prepare` fills in the peer list, so `Do` can return nil with no
  step run anywhere: `TxnBarrier.HastyWaitReturnsNil`, `TxnBarrier.DoSoundExactlyWhenPreset`.
- A transaction can expire after all peers have succeeded, so that `Do` returns nil while the work is
  undone: `TxnOutcome.ExpiryUndoesNil`, `TxnOutcome.NilIsKeptExactly`; without such a mark it is not:
  `TxnOutcome.NilMeansKept`.
- A synchronized step whose wait times out proceeds, because the parent context has no error:
  `TxnBarrier.TimeoutOpensBarrier`, `TxnBarrier.BarrierExactly`; without a time-out it never does:
  `TxnBarrier.SyncStepsAreCounted`.
- A lost write of the Running status, or a rollback the executor does not notice, makes a restart begin
  at step 0: `TxnRestart.LostWriteRepeatsMore`, `TxnRestart.RollbackRepeatsMore`,
  `TxnRestart.FrugalExactly`.
- A failed transaction can be deleted with work left behind on any peer that has a step to run:
  `TxnDeletion.DeletionSafeExactly`. `TxnRollback.DeletedOnlyWhenUndone` says in which runs it is not,
  and for each kind of event these runs exclude `TxnDeletion` has a run in which everything else is as
  they demand and work is left behind.
- A `Set` on a stored key can be hidden from the next `Get`: `TxnContext.PendingSetIsHidden`,
  `TxnContext.GetExact`.
- The second planner pass assumes that the first filled a prefix; with a smaller brick after a bigger
  one the planner can report success with a brick left without a device:
  `BrickAllocation.SmallerBrickBreaksPlan`, `BrickAllocation.CompleteExactly`. So a volume with arbiters can
  be planned where there is no room for all its replicas: `BrickArbiter.UnusedArbiterPlanExactly`.
- With zone overlap every subvolume gets the same devices, whatever space they have left, and a device
  can be promised more than it has: `BrickOverlap.CrowdIsOverbooked`, `BrickOverlap.OverlapSafeExactly`,
  `BrickOverlap.OverbookedExactly`.
- Integer overflow, or a negative count, lets a disperse request through that has no majority of data
  bricks: `Disperse.OverflowIsAccepted`, `Disperse.CompleteExactly`.
- A brick that signs in on a second port leaves a stale entry behind, which can later remove the live
  one: `PortMap.UntidyRunLosesBrick`, `PortMap.StaleFreeExactly`, `PortMap.DisconnectExactly`.
- The multiplexing limit is tested for equality only, when a process is chosen and not when it is
  joined: `BrickMux.RacingAttachesOverfill`, `BrickMux.RacingAttachesExactly`, `BrickMux.LimitKeptExactly`.
- An entry that gets no type is left out of the volfile while its parent still names it:
  `Volfile.UntypedChildIsUndefined`, `Volfile.DefinedFirstExactly`.
- Decommissioned bricks are listed by their number within the subvolume while clients are named by their
  number within the volume: `BrickNames.WrongClientListed`, `BrickNames.ListedNameIsOwnExactly`.
- A record that needs a second fragment is not written, because the count of bytes written includes the
  headers: `RecordMarking.WriteFullRecord`.

## Model

| member | source | states |
|---|---|---|
| `TxnBarrier.SyncBarrier` | glusterd2/transactionv2/steprunner.go:56-92 | In every run, a synchronized step i about to start through the success count finds last step i-1 recorded by every peer of the transaction, and so steps 0..i-1 completed (or not theirs to run) on all of them |
| `TxnBarrier.SyncStepsAreCounted` | glusterd2/transactionv2/executor.go:97-118 | In every run in which no wait of a peer times out, each synchronized step that peer is ready to run was entered through the success count; that such entries happen is `TxnProgress.BarrierOpens` |
| `TxnBarrier.TimeoutOpensBarrier` | glusterd2/transactionv2/steprunner.go:84-90 | For every step but the first and any two peers, a run in which timed out waits let one peer get ready for it while the other has neither recorded nor completed the step before |
| `TxnBarrier.BarrierExactly` | glusterd2/transactionv2/steprunner.go:72-92 | In all runs, time-outs included, a peer ready for a synchronized step finds the step before recorded and all earlier ones completed on every peer, if and only if there is at most one peer or no synchronized step after the first |
| `TxnBarrier.RunKeeps` | glusterd2/transactionv2/executor.go:57-137 | The history invariant of every run: a recorded last step k means steps 0..k are completed on that peer, a stored success means all of them, watchers count one success per peer |
| `TxnBarrier.Pigeonhole` | glusterd2/transactionv2/steprunner.go:80-91 | n successes, one per watcher, out of n peers come from all of them |
| `TxnProgress.BarrierOpensExactly` | glusterd2/transactionv2/steprunner.go:72-92 | In any state, a peer that begins to wait at step i can come through the success count by reports and the count alone if and only if every peer has recorded step i-1 |
| `TxnProgress.BarrierOpens` | glusterd2/transactionv2/executor.go:97-118 | For every transaction, peer and synchronized step, a calm run without a timed out wait of any peer after which that peer has come through the success count of that step |
| `TxnBarrier.DoNilMeansAllDone` | glusterd2/transactionv2/transaction.go:134-169 | With the peer list given in advance, a nil result means that every peer has completed every step, in every interleaving with executors, restarts, rollbacks and clean-up |
| `TxnBarrier.HastyWaitReturnsNil` | glusterd2/transactionv2/transaction.go:236-254 | With the list left to `prepare`, a run in which `Do` returns nil and no step has been run |
| `TxnBarrier.DoSoundExactlyWhenPreset` | glusterd2/transactionv2/transaction.go:147-169 | Nil means completion everywhere in all runs if and only if the list is given in advance, or there are no peers or no steps |
| `TxnProgress.SuccessIsReachable` | glusterd2/transactionv2/transaction.go:134-169 | For every transaction with the peer list given in advance, a calm run without time-outs in which every peer runs all its steps once, in order, and `Do` returns nil |
| `TxnProgress.FailureIsStored` | glusterd2/transactionv2/executor.go:77-134 | For every peer and step of its own, a calm run in which the step fails, or its record is lost, and ends undone with the peer stored as failed and the step before as its last |
| `TxnProgress.NoticedStops` | glusterd2/transactionv2/executor.go:83-85 | In every run, once its executor has noticed the failure a peer stays at its step until it restarts, and starts at most the one body it was about to start |
| `TxnProgress.DoneRemoves` | glusterd2/transactionv2/transaction.go:102-124 | After success `Done` removes the keys of all peers and the record, and touches nothing else of a peer |
| `TxnProgress.CleanerRemoves` | glusterd2/transactionv2/txnmanager.go:416-420 | A clean-up that found the transaction rolled back does the same and is ready for the next |
| `TxnRestart.RunSteady` | glusterd2/transactionv2/engine.go:89-109 | The invariant of one peer over every run with successful Running writes and no rollback: where its executor stands, what it has recorded and how many bodies it has repeated |
| `TxnRestart.RestartsRepeatAtMostOne` | glusterd2/transactionv2/executor.go:43-95 | Over any number of crashes the bodies a peer starts begin at 0 and climb by at most one, so none is skipped; there are at most as many repeats as restarts; a stored success means that all were started |
| `TxnRestart.EachRestartRepeatsAtMostOne` | glusterd2/transactionv2/engine.go:89-109 | Between any two crashes the repeats of a peer grow by at most one, and only with the first body its executor starts |
| `TxnRestart.RepeatedBody` | glusterd2/transactionv2/executor.go:43-55 | A body about to be repeated is the last one started, before any other of this executor: step 0 when the status is Pending, the step after the recorded one when it is Running |
| `TxnRestart.LostWriteRepeatsMore` | glusterd2/transactionv2/executor.go:87-91 | For every transaction of two steps or more and every peer, a run in which the Running write is lost and the peer, after one crash, has run bodies 0, 1, 0 |
| `TxnRestart.RollbackRepeatsMore` | glusterd2/transactionv2/engine.go:129-143 | For every transaction of two steps or more and every peer, a run in which no Running write is lost and the peer, rolled back and crashed once, has run bodies 0, 1, 0 |
| `TxnRestart.FrugalExactly` | glusterd2/transactionv2/executor.go:57-95 | Over all runs, lost writes and rollbacks included, no step is skipped and no more bodies are repeated than there were restarts, if and only if there is no peer or at most one step |
| `TxnProgress.CrashesAreSurvived` | glusterd2/transactionv2/executor.go:47-55 | For every transaction and peer, a calm run in which the peer crashes after every step, resumes, runs all its steps once and in order, and reports success |
| `TxnRollback.NetEffect` | glusterd2/transactionv2/engine.go:136-141 | When each undo inverts its step, complete or not, a log of step functions has the effect of its runs not yet undone, last first |
| `TxnRollback.RunCalm` | glusterd2/transactionv2/txnmanager.go:399-422 | The invariant of every calm run: each peer's level of work, and that what the cleaner has read of a peer is still true of it |
| `TxnRollback.DoneStepsAreUpToLast` | glusterd2/transactionv2/executor.go:120-137 | In every calm run, with nothing in flight, the steps a peer has done and not undone are exactly its own steps among 0..last |
| `TxnRollback.DeletedOnlyWhenUndone` | glusterd2/transactionv2/txnmanager.go:399-422 | In every calm run the cleaner starts deleting a transaction only when every step function run on any peer has been undone, last first, and every peer's local state is what it was |
| `TxnRuns.Climb` | glusterd2/transactionv2/executor.go:74-92 | Any step of any peer can be reached, all earlier ones run and recorded, in a calm run in which no other peer does anything |
| `TxnDeletion.DeletionSafeExactly` | glusterd2/transactionv2/txnmanager.go:399-422 | Over all runs the cleaner deletes a transaction only when everything run was undone, if and only if no peer has a step to run |
| `TxnDeletion.CalmRunDeletes` | glusterd2/transactionv2/txnmanager.go:399-422 | Calm runs do delete: for every peer and step of its own, one in which the step is run, recorded and undone and the transaction deleted |
| `TxnDeletion.LateBodySurvives` | glusterd2/transactionv2/executor.go:74-92 | For every peer and step of its own, a run that is calm but for a body that runs after the failure mark, and a transaction deleted with that body not undone |
| `TxnDeletion.UnrecordedStepSurvives` | glusterd2/transactionv2/executor.go:120-134 | The same with a failure mark between a body and its record |
| `TxnDeletion.GivenUpStepSurvives` | glusterd2/transactionv2/transaction.go:157-175 | The same with `Do` giving up between a body and its record |
| `TxnDeletion.CrashInFlightSurvives` | glusterd2/transactionv2/executor.go:120-134 | The same with a crash between a body and its record |
| `TxnDeletion.CrashInRollbackSurvives` | glusterd2/transactionv2/engine.go:129-143 | The same with a crash during a rollback, which then undoes a step twice |
| `TxnDeletion.FailedUndoSurvives` | glusterd2/transactionv2/engine.go:136-141 | The same with an undo of a rollback that fails |
| `TxnDeletion.FailedOwnUndoSurvives` | glusterd2/transactionv2/executor.go:120-125 | The same with a failed undo of a step that failed |
| `TxnDeletion.LostEndSurvives` | glusterd2/transactionv2/engine.go:142 | The same with a lost write at the end of a rollback |
| `TxnDeletion.TwoRollbacksSurvive` | glusterd2/transactionv2/engine.go:120-125 | The same with two rollbacks at a time |
| `TxnDeletion.CrashBeforeRunningSurvives` | glusterd2/transactionv2/executor.go:87-91 | The same with a crash between the record of step 0 and the Running write |
| `TxnDeletion.LostRunningSurvives` | glusterd2/transactionv2/executor.go:87-91 | The same with a lost Running write |
| `TxnDeletion.LateAdvanceSurvives` | glusterd2/transactionv2/executor.go:87-91 | The same with a Running write after the failure mark |
| `TxnOutcome.NilMeansKept` | glusterd2/transactionv2/transaction.go:134-169 | With the peer list given in advance, in every calm run in which nobody but `Do` and the peers marks the transaction failed, nil means that every peer has run all its steps, in order, and none is undone |
| `TxnOutcome.ExpiryUndoesNil` | glusterd2/transactionv2/txnmanager.go:374-397 | For every peer, a calm run in which all peers succeed, the transaction is marked as expired and rolled back on that peer, and `Do` returns nil with nothing of its work left |
| `TxnOutcome.NilIsKeptExactly` | glusterd2/transactionv2/transaction.go:209-254 | With such marks, nil in calm runs means that the work is kept if and only if no peer has a step to run |
| `TxnRollback.PeerKeeps` | glusterd2/transactionv2/engine.go:129-143 | What every calm action, local or remote, does to one peer: its level stays right, a failed peer never comes alive again and a clean one stays clean |
| `TxnRollback.CleanerKeeps` | glusterd2/transactionv2/txnmanager.go:404-420 | The counting scan of the cleaner stays sound although the peers go on between its reads |
| `TxnEngine.PrepareRun` | glusterd2/transactionv2/transaction.go:177-207 | The four store operations of `prepare` leave every peer pending with last step -1, and only then the record |
| `TxnEngine.StepOnNode` | glusterd2/transactionv2/txnmanager.go:242-271 | One action changes one peer only by its own event or by a key write of a kind its precondition allows |
| `NodesUnion.Union` | glusterd2/transactionv2/transaction.go:256-267 | The in-place double loop leaves the first occurrences in order: no duplicates, nothing lost, nothing added |
| `NodesUnion.DropCopies` | glusterd2/transaction/transaction.go:183-194 | The inner loop drops all later copies of one element and changes nothing else of the result |
| `NodesUnion.DropCopy` | glusterd2/transaction/transaction.go:187-190 | Removing a later copy of an element anywhere leaves the list of first occurrences as it is |
| `TxnSaga.SagaRestores` | glusterd2/transaction/transaction.go:172-181 | For every step list, undoing steps k-1..0 after doing 0..k-1 restores the state of every peer, when each undo inverts its step, even one that failed half way |
| `TxnSaga.UndoneIsDoneMirrored` | glusterd2/transaction/transaction.go:172-181 | The rounds of an undo are the rounds done, reversed, without skipped steps and steps that have no undo function |
| `TxnSaga.RoundCancels` | glusterd2/transaction/step.go:43-49 | One undo round cancels one do round on all peers, also those listed several times |
| `TxnSaga.AllAnswered` | glusterd2/transaction/step.go:94-130 | Whatever the order of the answers, a round leaves the same cluster and the same verdict |
| `TxnSaga.Cluster.RunStep` | glusterd2/transaction/step.go:94-130 | The answer loop runs the step once per listing on every peer, and the error count is non-zero exactly when some peer is absent or fails |
| `TxnSaga.Cluster.UndoStep` | glusterd2/transaction/step.go:43-49 | The undo round, or nothing when the step has no undo function |
| `TxnSaga.Cluster.Undo` | glusterd2/transaction/transaction.go:172-181 | The backward loop makes exactly the undo rounds of steps n..0 |
| `TxnSaga.Cluster.RunSteps` | glusterd2/transaction/transaction.go:138-158 | Either no step fails on what the steps before it leave and all were run, or the first that does is reported, the rounds are the do rounds up to it and then the undo rounds, and with inverting undos the cluster is as it was |
| `TxnSaga.Cluster.Do` | glusterd2/transaction/transaction.go:122-158 | The whole transaction with its checks: it stops for a peer that is down exactly when one of the preset peers is, or without a preset list one of any step; exactly when it stops before the first step, and otherwise as above |
| `TxnContext.SyncExact` | glusterd2/transaction/context.go:97-108 | A sync keeps the cache coherent if and only if no pending Set is on a key stored with another value; it never changes the map the context stands for |
| `TxnContext.GetExact` | glusterd2/transaction/context.go:158-182 | Get answers from that map for every key if and only if the cache is clean or can be synced |
| `TxnContext.NewIsCoherent` | glusterd2/transaction/context.go:61-69 | A new context starts coherent, whatever the store holds |
| `TxnContext.RunIsPlainMap` | glusterd2/transaction/context.go:76-213 | Over every quiet run a context that is the only writer below its prefix is one plain map, and the rest of the store is untouched |
| `TxnContext.QuietRunAnswers` | glusterd2/transaction/context.go:110-182 | Every Get of a quiet run answers as the plain map does, and a Commit leaves exactly that map below the prefix; which runs stay quiet after a Get is `TxnContext.AnswersAfterGet` |
| `TxnContext.GetCleans` | glusterd2/transaction/context.go:162-169 | A successful Get leaves the cache clean and everything stored below the prefix in it, and changes nothing when it was clean |
| `TxnContext.AnswersAfterGet` | glusterd2/transaction/context.go:158-182 | After a successful Get on a clean cache, or one that can be synced, and any operations but Sync and Commit, every Get answers as the plain map does, also after a Set on a stored key |
| `TxnContext.CommitThenGetSeesStore` | glusterd2/transaction/context.go:144-169 | After a Commit of pending writes a Get answers with what is then stored, whoever stored it |
| `TxnContext.StoreDown` | glusterd2/transaction/context.go:110-213 | When the store fails, syncs and commits change nothing, a Get fails exactly on a dirty cache or a missing key, and a Delete clears its key from the caches only |
| `TxnContext.CommitKeeps` | glusterd2/transaction/context.go:110-148 | Commit keeps coherence and the map, and a successful one makes the store equal to it |
| `TxnContext.PendingSetIsHidden` | glusterd2/transaction/context.go:104-106 | A Set on a stored key of a fresh context followed by a Get answers with the old value |
| `TxnContext.Tctx.Put` | glusterd2/transaction/context.go:76-95 | Set goes to both caches |
| `TxnContext.Tctx.SyncCache` | glusterd2/transaction/context.go:97-108 | The copying loop overlays the read cache with everything stored below the prefix, and nothing when the store fails |
| `TxnContext.Tctx.Fetch` | glusterd2/transaction/context.go:158-182 | Get syncs a dirty cache first, leaves it clean (`TxnContext.GetCleans`) and answers from it, or reports the failure |
| `TxnContext.Tctx.Commit` | glusterd2/transaction/context.go:110-148 | All pending writes go to the store at once, or none and the context is unchanged |
| `TxnContext.Tctx.Delete` | glusterd2/transaction/context.go:197-213 | The key leaves both caches, and the store when it answers |
| `Disperse.GetRedundancy` | glusterd2/volume/volume-utils.go:37-49 | The shift loop finds the bricks beyond the largest power of two not above n, or one |
| `Disperse.RedundancyIsMinority` | glusterd2/volume/volume-utils.go:37-49 | For every n of at least 3, 1 <= r and 2r < n, and n-r is the largest power of two not above n, or n-1 when n is one itself |
| `Disperse.AcceptedExactly` | glusterd2/bricksplanner/planner.go:38-67 | A request that does not overflow and gives no lone negative count is accepted if and only if a strict majority of its bricks can hold data; what comes out is complete and keeps what was asked for |
| `Disperse.DefaultCounts` | glusterd2/bricksplanner/planner.go:53-60 | A request for n bricks and nothing else, n at least 3, gets as many data bricks as the largest power of two not above n, or n-1 when n is one itself, and the rest as redundancy |
| `Disperse.AcceptedOtherwise` | glusterd2/bricksplanner/planner.go:38-67 | Exactly which of all other 64-bit requests are accepted, and that none of them comes out complete |
| `Disperse.CompleteExactly` | glusterd2/bricksplanner/planner.go:38-67 | Any accepted 64-bit request ends with count = data + redundancy and data > redundancy >= 1 if and only if neither the total nor twice the redundancy overflows and a count given alone is not negative |
| `Disperse.OverflowIsAccepted` | glusterd2/bricksplanner/planner.go:62-64 | One data brick with 2^62 redundant ones is accepted, and so is a count of -4 |
| `Disperse.DisperseReq.Handle` | glusterd2/bricksplanner/planner.go:38-67 | The request's fields after the call, when it fails, and that small accepted requests are complete |
| `BrickLayout.LossBound` | pkg/lvmutils/utils.go:358-365 | Dividing a size among n subvolumes of d bricks and rounding down to blocks loses less than 512 bytes a brick |
| `BrickLayout.CeilDivIsLeast` | glusterd2/bricksplanner/planner.go:107-121 | The computed number of subvolumes is the least that holds the size |
| `BrickLayout.ShareFits` | glusterd2/bricksplanner/planner.go:107-132 | With that number no data brick exceeds the limit |
| `BrickLayout.VolCreateReq.HandleReplica` | glusterd2/bricksplanner/planner.go:22-36 | Exactly which replica and arbiter counts are accepted |
| `BrickLayout.VolCreateReq.ResolveType` | glusterd2/bricksplanner/planner.go:76-89 | Exactly which counts are accepted, and then the subvolume type and the disperse counts the request asks for, complete ones when dispersed |
| `BrickLayout.VolCreateReq.Number` | glusterd2/bricksplanner/planner.go:107-126 | The number of subvolumes: the least sufficient one when the size exceeds the brick limit, otherwise the one asked for, or one |
| `BrickLayout.VolCreateReq.Distribution` | glusterd2/bricksplanner/planner.go:91-126 | Exactly which limits are accepted, the limit that then applies, and that number |
| `BrickLayout.VolCreateReq.SubvolBricks` | glusterd2/bricksplanner/planner.go:148-177 | One data brick, or exactly the replicas and then the arbiter, or the bricks of a disperse set, each with its size and space; an error exactly when one of them is too small |
| `BrickLayout.VolCreateReq.ArbiterBounds` | glusterd2/bricksplanner/subvoltype_replicate.go:25-38 | An arbiter gets at least 100 MiB, or the share when that is less, and anything above that only from its file count |
| `BrickLayout.VolCreateReq.TooSmallExactly` | glusterd2/bricksplanner/planner.go:147-153 | Some brick is too small if and only if the share of a data brick is, so an arbiter never is alone |
| `BrickLayout.VolCreateReq.BrickSpace` | glusterd2/bricksplanner/planner.go:155-176 | Brick, pool and metadata sizes are the given ones rounded down to whole blocks, metadata at most 16 GiB, and a brick needs pool and metadata |
| `BrickLayout.VolCreateReq.BuildSubvols` | glusterd2/bricksplanner/planner.go:142-188 | n subvolumes of equal shape, each of the bricks above, every brick, arbiters included, with the size and space its share gives it; an error exactly when one is too small |
| `BrickLayout.VolCreateReq.Layout` | glusterd2/bricksplanner/planner.go:72-189 | A layout is made if and only if the counts and the limit are acceptable and the share of a data brick at that number of subvolumes is at least the minimum, or there are no bricks; it has that number of them, of the type and counts asked for, every brick, arbiters included, with the size and space the request's share gives it, loses less than 512 bytes a data brick, respects the limit and is uniform; all data bricks need the same space, and an arbiter only follows the replicas; a subvolume consists of one data brick, or of exactly the replicas and then the arbiter, or of data + redundancy data bricks |
| `BrickAllocation.PlanSubvol` | glusterd2/bricksplanner/planner.go:217-270 | The loops of both passes compute the greedy assignment, the second starting at the number placed; when it succeeds is said by `EnoughZonesSucceed`, `SubvolSucceedsExactly` and `BrickArbiter.ArbiterSucceedsExactly` |
| `BrickAllocation.PlanBricks` | glusterd2/bricksplanner/planner.go:192-280 | The whole loop, with the zone reset, and failure exactly when a subvolume fails or there are no devices; when that is follows from `EnoughZonesPlan`, `PlanNeedsZones`, `PlanExistsExactly` and `BrickArbiter` |
| `BrickAllocation.TwoPassesSound` | glusterd2/bricksplanner/planner.go:217-270 | Bricks assigned since the last zone reset lie in pairwise distinct zones that were free, on devices with room |
| `BrickAllocation.PlanUsesZonesOnce` | glusterd2/bricksplanner/planner.go:207-276 | Without zone overlap a whole plan uses each zone, and so each device, at most once, within its free space |
| `BrickAllocation.SubvolSucceedsExactly` | glusterd2/bricksplanner/planner.go:217-275 | A subvolume of equal bricks succeeds if and only if that many zones with a big enough device are free; the number used up is exact |
| `BrickAllocation.PlanExistsExactly` | glusterd2/bricksplanner/planner.go:207-276 | Without zone overlap and with one size, the greedy planner succeeds if and only if there are as many zones with a big enough device as bricks |
| `BrickAllocation.EnoughZonesSucceed` | glusterd2/bricksplanner/planner.go:217-275 | Whatever the sizes, a subvolume succeeds when as many zones as it has bricks are free and have a device with room for the largest |
| `BrickAllocation.EnoughZonesPlan` | glusterd2/bricksplanner/planner.go:207-276 | And so does a whole plan: without zone overlap with as many such zones as bricks, with it as many as a subvolume has |
| `BrickAllocation.PlanNeedsZones` | glusterd2/bricksplanner/planner.go:207-276 | Without zone overlap a plan of any sizes takes exactly as many zones as there are bricks, all with room for the smallest |
| `BrickAllocation.FirstPassFillsPrefix` | glusterd2/bricksplanner/planner.go:217-250 | With non-decreasing sizes the first pass fills a prefix |
| `BrickAllocation.SuccessIsComplete` | glusterd2/bricksplanner/planner.go:248-275 | Then success means that every brick has a device |
| `BrickAllocation.PlanIsComplete` | glusterd2/bricksplanner/planner.go:207-279 | And a whole plan of such subvolumes leaves no brick without a device |
| `BrickAllocation.SmallerBrickBreaksPlan` | glusterd2/bricksplanner/planner.go:250-275 | For every list of sizes with a descent, devices on which the planner succeeds with a brick left out |
| `BrickAllocation.CompleteExactly` | glusterd2/bricksplanner/planner.go:217-275 | Success means complete on all devices if and only if the sizes never decrease |
| `BrickOverlap.OverlapRepeats` | glusterd2/bricksplanner/planner.go:209-215 | With zone overlap n subvolumes of the same shape are placed exactly when one is, and all get the same devices |
| `BrickOverlap.CrowdIsOverbooked` | glusterd2/bricksplanner/planner.go:221-240 | For every shape that needs space, devices on which the plan of two or more such subvolumes promises more of one than it has |
| `BrickOverlap.OverlapSafeExactly` | glusterd2/bricksplanner/planner.go:209-240 | No devices are overbooked by any plan of n subvolumes of a shape if and only if n is at most one or the shape needs no space |
| `BrickOverlap.OverbookedExactly` | glusterd2/bricksplanner/planner.go:217-270 | On given devices, biggest first, a plan of n subvolumes of k bricks of size z overbooks one if and only if too few zones have an unused device, or after those any device, with room for n bricks |
| `BrickOverlap.UnusedOverbookedExactly` | glusterd2/bricksplanner/planner.go:217-240 | On unused devices, if and only if fewer than k zones have one with room for n bricks |
| `BrickArbiter.ArbiterSucceedsExactly` | glusterd2/bricksplanner/planner.go:217-275 | On any devices and with any zones taken, k replicas and an arbiter of another size succeed if and only if the zones can be counted out: enough for all bricks and for the replicas (or one less, when the first pass gives the arbiter a zone too small for one), and for a bigger arbiter one outside those the replicas take |
| `BrickArbiter.ArbiterPlanStep` | glusterd2/bricksplanner/planner.go:207-276 | Without zone overlap one such subvolume more is planned if and only if it fits, in that sense, beside the zones of those before it, one for each of their bricks |
| `BrickArbiter.UnusedArbiterExactly` | glusterd2/bricksplanner/planner.go:217-250 | On unused devices, biggest first, if and only if k+1 zones with room for an arbiter and k-1 with room for a replica are left |
| `BrickArbiter.UnusedArbiterPlanExactly` | glusterd2/bricksplanner/planner.go:207-276 | There n such subvolumes are planned if and only if n(k+1) zones have room for an arbiter and n(k+1)-2 for a replica |
| `BrickPlanner.AlikePlanExactly` | glusterd2/bricksplanner/planner.go:202-279 | A layout of n subvolumes of k equal bricks is placed, without zone overlap, if and only if n*k zones have a big enough device, and then completely |
| `BrickPlanner.ArbiterPlanExactly` | glusterd2/bricksplanner/subvoltype_replicate.go:41-59 | With an arbiter after the replicas, success means complete on all devices if and only if the arbiter needs no less space than a replica |
| `BrickPlanner.UniformIsAlike` | glusterd2/bricksplanner/planner.go:147-186 | A layout is that many subvolumes of one shape, so the results on zone overlap are about every layout |
| `BrickPlanner.ArbiterVolumeExactly` | glusterd2/bricksplanner/planner.go:202-279 | n subvolumes of k replicas and an arbiter are planned, with overlap or alone, if and only if one fits, and without overlap on unused devices if and only if the two counts of zones suffice |
| `BrickPlanner.PlanVolume` | glusterd2/bricksplanner/planner.go:192-280 | From request to plan: exactly when there is a layout, of exactly the bricks asked for, and exactly when a plan, which is the greedy one. Without arbiters and overlap that is when as many zones as bricks have a device with the space the share needs; with arbiters the layout is copies of the replicas and the arbiter, and planned, with overlap or alone, when one subvolume fits, and without overlap on unused devices when the two counts of zones suffice; for every layout enough zones for the largest brick suffice and enough for the smallest are needed. Without arbiters no brick is left out, and without overlap no zone or device is used twice |
| `PortMap.RunListed` | glusterd2/pmap/registry.go:54-183 | In every run a lookup answers with a port in 1024..65535 that lists the brick |
| `PortMap.ListedPidIsLast` | glusterd2/pmap/registry.go:54-89 | In every run a port lists a brick with the process that last signed it in there |
| `PortMap.StaleFreeExactly` | glusterd2/pmap/registry.go:54-183 | An operation keeps the two maps exact inverses if and only if the brick is not listed on another port |
| `PortMap.TidyRunIsLive` | glusterd2/pmap/registry.go:54-183 | In every tidy run the maps are exact inverses and a lookup is the last live sign-in, as a history without the registry defines it |
| `PortMap.DisconnectExactly` | glusterd2/pmap/registry.go:126-161 | A disconnect leaves all lookups of live bricks right if and only if the port of the connection lists no brick that has signed in elsewhere since |
| `PortMap.UntidyRunLosesBrick` | glusterd2/pmap/registry.go:129-161 | A run in which a live brick is no longer found |
| `PortMap.Registry.Update` | glusterd2/pmap/registry.go:54-89 | Sign-in on all three maps, or an error on a bad port |
| `PortMap.Registry.SearchByBrickPath` | glusterd2/pmap/registry.go:91-108 | The port of a brick; the empty path is never found |
| `PortMap.Registry.NumOfBricksOnPort` | glusterd2/pmap/registry.go:110-124 | The number of bricks on a known port |
| `PortMap.Registry.RemovePortByConn` | glusterd2/pmap/registry.go:126-161 | The loop removes exactly the bricks of the connection's port, and the port |
| `PortMap.Registry.Remove` | glusterd2/pmap/registry.go:163-183 | Sign-out on all three maps |
| `BrickMux.ValidateBmuxTarget` | glusterd2/brickmux/compat.go:19-57 | Finds another running, registered brick whose port is not exactly full, if the volume has one |
| `BrickMux.FindCompatibleBrick` | glusterd2/brickmux/compat.go:59-142 | It finds a brick if and only if there is one: in the own volume or a started one with equal options when there is a limit, in the target volume otherwise; whatever it returns is one |
| `BrickMux.SearchLimited` | glusterd2/brickmux/compat.go:85-121 | The search with a limit |
| `BrickMux.FirstCompatible` | glusterd2/brickmux/compat.go:85-131 | The volume chosen when there is no limit: the first compatible one of the list, or the own one when none is |
| `BrickMux.Multiplex` | glusterd2/brickmux/multiplex.go:27-108 | The brick is attached if and only if there is a brick to find and the attach request goes through; it then joins the port of a valid target and is found there, and otherwise the registry is unchanged |
| `BrickMux.LimitIsKept` | glusterd2/brickmux/compat.go:45-52 | For a fixed positive maximum, in every run of starts, atomic attaches, repeated sign-ins, sign-outs and disconnects no port holds more bricks than that |
| `BrickMux.RacingAttachesOverfill` | glusterd2/brickmux/multiplex.go:33-105 | Two attaches that choose the last place together overfill the process, which then counts as not full |
| `BrickMux.RacingAttachesExactly` | glusterd2/brickmux/multiplex.go:33-105 | Any list of bricks that choose the same process against one registry stays within the limit if and only if the bricks there and the list together do |
| `BrickMux.LimitKeptExactly` | glusterd2/brickmux/multiplex.go:33-105 | In every run in which choosing and joining are two steps with anything in between, the limit holds throughout if and only if at every join the brick is already there or the equality test would pass again |
| `RecordMarking.HeaderRoundTrip` | pkg/sunrpc/record.go:33-50 | Size and last mark survive a header |
| `RecordMarking.HeaderBytes` | pkg/sunrpc/record.go:41-50 | The first four bytes of a fragment: the top bit of the first marks the last fragment, the other 31 bits are the length, most significant byte first |
| `RecordMarking.SplitReadsAsOne` | pkg/sunrpc/record.go:96-131 | Any split into fragments, empty ones included, reads as the concatenation and leaves the rest of the stream, if and only if the record is at most 1 MiB |
| `RecordMarking.ReadIsSomeSplit` | pkg/sunrpc/record.go:96-131 | Whatever the reader accepts is the encoding of some fragments followed by the rest |
| `RecordMarking.TruncatedFails` | pkg/sunrpc/record.go:96-131 | No stream that stops before the end of a record is accepted, however the record was split; in its first fragment the error is end of stream, short header or short body by where it stops |
| `RecordMarking.BackToBack` | pkg/sunrpc/record.go:59-131 | Any sequence of records of at most 1 MiB written back to back is read back in order, the rest of the stream untouched |
| `RecordMarking.WriteFullRecord` | pkg/sunrpc/record.go:59-92 | The loop appends exactly the encoding of the record if and only if one header can describe it; a longer record leaves one unfinished fragment on the stream |
| `RecordMarking.ReadFullRecord` | pkg/sunrpc/record.go:94-131 | The loop ends on every finite stream with the parse of its front, and never buffers more than 1 MiB |
| `Nominations.DiffStringSlices` | pkg/elasticetcd/utils.go:67-83 | The items of the first list that are not in the second, in order |
| `Nominations.WithoutInOrder` | pkg/elasticetcd/utils.go:67-83 | The difference keeps the order, and an item stays if and only if it is not in the second list |
| `Nominations.CompareStringSlices` | pkg/elasticetcd/utils.go:53-65 | True if and only if the lists are equal |
| `Nominations.Leader.RemoveAll` | pkg/elasticetcd/leader.go:122-130 | Withdraws exactly the listed nominations |
| `Nominations.Leader.DropUnvolunteered` | pkg/elasticetcd/leader.go:117-135 | The nominees that still volunteer, and their number |
| `Nominations.Leader.NominateFrom` | pkg/elasticetcd/leader.go:153-168 | Adds the first of the listed volunteers, up to the ideal size or the end of the list |
| `Nominations.Leader.WithdrawFrom` | pkg/elasticetcd/leader.go:170-187 | Removes the first of the listed nominees down to the ideal size, never the leader |
| `Nominations.Leader.DoNominations` | pkg/elasticetcd/leader.go:92-190 | A round ends inside the volunteers, keeps the leader and as many of the others as fit, and only adds or only removes; those added are the first in the list of volunteers and those removed the first in the list of nominees |
| `Nominations.RoundReachesSize` | pkg/elasticetcd/leader.go:144-187 | With an ideal size of at least one a round ends with min(ideal, volunteers) nominees |
| `Nominations.SecondRoundIsIdle` | pkg/elasticetcd/leader.go:92-190 | A second round with the same volunteers changes nothing |
| `Volfile.SetTwice` | glusterd2/volgen/volgen.go:74-106 | Setting name and type twice is the same as once |
| `Volfile.TypeAndNameGiven` | glusterd2/volgen/volgen.go:74-88 | A type given goes before its template, and a name template before the name given; it fails exactly when a template that counts has an unknown variable |
| `Volfile.UnnamedIsCalled` | glusterd2/volgen/volgen.go:89-104 | What an entry without a name is called: its prefix, or the volume and its type, and then its suffix |
| `Volfile.SuffixesTellApart` | glusterd2/volgen/volgen.go:100-103 | Entries that differ only in the suffix have different names, whatever their prefix, type and variables |
| `Volfile.LinesExact` | glusterd2/volgen/volgen.go:141-170 | One option line for every option that is not ignored and whose text is not blank, in order; a template is filled in and any other text, key or value, stays as it is |
| `Volfile.OptionsFailExactly` | glusterd2/volgen/volgen.go:150-163 | The options cannot be printed exactly when a key or value of one that is not ignored has an unknown variable |
| `Volfile.GenInOrder` | glusterd2/volgen/volgen.go:108-180 | In every tree the blocks are those of all entries below the root that get a type, children before parents, each with its entry's name and type, its option lines and its children's names |
| `Volfile.OrderIsPostOrder` | glusterd2/volgen/volgen.go:112-124 | That order lists every entry that gets a type, no other, once, and after all its descendants |
| `Volfile.DefinedBeforeUse` | glusterd2/volgen/volgen.go:172-175 | The name of a typed child on a subvolumes line is the name of an earlier block |
| `Volfile.VolfileWellFormed` | glusterd2/volgen/volgen.go:69-72 | The whole file under an untyped root: a block for every entry that gets a type, with its own options, exactly once and after its descendants |
| `Volfile.DefinedFirstExactly` | glusterd2/volgen/volgen.go:126-175 | Every name is defined before it is used when no typed entry has a child without a type, and, when different places have different names, only then |
| `Volfile.AllPrintedExactly` | glusterd2/volgen/volgen.go:126-128 | A printed file never has more blocks than there are entries, and as many if and only if every entry gets a type |
| `Volfile.UntypedChildIsUndefined` | glusterd2/volgen/volgen.go:126-128 | A parent that names a child that is not printed |
| `Volfile.GenerateOptions` | glusterd2/volgen/volgen.go:141-170 | The text of exactly those lines, or an error exactly when an option that is not ignored has an unknown variable |
| `Volfile.Generate` | glusterd2/volgen/volgen.go:108-180 | The text is that of the blocks above, and it fails exactly when they cannot be made |
| `BrickNames.GetExtraStringMaps` | glusterd2/volgen/common.go:172-221 | Each brick gets the decimal number of bricks before it in the volume, each subvolume the changelog names made from them, the volume the list of decommissioned names |
| `BrickNames.ItoaRoundTrip` | glusterd2/volgen/common.go:189-191 | Decimal numbers read back |
| `BrickNames.IndexOrder` | glusterd2/volgen/common.go:182-209 | Indices follow the order of the bricks, below their number |
| `BrickNames.IndexOnto` | glusterd2/volgen/common.go:182-209 | Every number below it is the index of a brick |
| `BrickNames.ClientNamesDistinct` | glusterd2/volgen/defaults.go:182-187 | Default client names are equal if and only if the bricks are the same, whatever the subvolumes are called |
| `BrickNames.XattrNamesDistinct` | glusterd2/volgen/common.go:199-213 | Changelog names are equal if and only if the bricks are the same, and one is the name of the brick's client if and only if the subvolume is called like the volume and the brick is no thin arbiter |
| `BrickNames.ListedNameMeans` | glusterd2/volgen/common.go:192-197 | Exactly whose client the name listed for a decommissioned brick is |
| `BrickNames.ListedNameIsOwnExactly` | glusterd2/volgen/common.go:192-197 | It is the brick's own if and only if all earlier subvolumes are empty |
| `BrickNames.WrongClientListed` | glusterd2/volgen/common.go:192-197 | A volume for which a healthy brick is listed instead |

## Left out

- TxnBarrier.SyncBarrier: covers exits through the success count; with time-outs the barrier is what `TxnBarrier.BarrierExactly` says.
- TxnBarrier.DoNilMeansAllDone: speaks of steps completed at some time; whether they are still in place is the matter of `TxnOutcome`. Peers are numbered 0..n-1, so a caller's list with duplicates is not modelled; the list left empty is.
- TxnRestart.RestartsRepeatAtMostOne: assumes that the Running write succeeds and that no rollback has started on the peer, and so do `EachRestartRepeatsAtMostOne` and `RepeatedBody`; all runs are covered by `TxnRestart.FrugalExactly`.
- TxnRollback.DeletedOnlyWhenUndone: only for calm runs, and a step without an undo function must change nothing; all runs are covered by `TxnDeletion.DeletionSafeExactly`.
- TxnSaga.Cluster.Do: only with the liveness check on; the type assertion behind `DontCheckAlive` never succeeds on the value returned, so that path is not modelled.
- TxnContext.RunIsPlainMap: only for quiet runs with a store that answers; values stand for their JSON encoding, and marshalling errors are not modelled.
- BrickLayout.VolCreateReq.Layout: requires disperse counts that `Disperse.CompleteExactly` shows to come out complete, since the program may divide by zero on others; sizes are naturals, so 64-bit overflow of sizes is not modelled; the floating point factors are parameters.
- BrickPlanner.PlanVolume: has the same precondition as the layout.
- RecordMarking.WriteFullRecord: the record fills its buffer, and write errors are not modelled.
- Nominations.Leader.DoNominations: error-free rounds only; member additions and removals, and malformed URLs, are not modelled.
- BrickMux.Multiplex: the attach request, socket link and pid file are one parameter.
- Volfile.Generate: options are visited in a given order, template substitution and the last path component are parameters, and entries are values, so the name written back to a typed root is not modelled.
- etcd itself: the store is a linearizable map with the history of what was stored, a watcher may see any value ever stored, and locks and leases are left out.
- Channels and goroutines of the second engine are events of a transition system instead of imperative code; time-outs may happen at any time, and the expiry of old transactions is a failure mark at any time.
- Two executors for one transaction on one peer.
- Filtering and sorting of devices, brick paths, device paths and mount options.
- `volumegraph` and the template files beyond the default client name.
- firewalld, daemons, LVM, mounts, REST handlers, command line, events and the plugins: calls into other programs or plumbing around the core.
