# ReticulumPi: verified model

A Dafny model of the stateful core of ReticulumPi, with machine-checked proofs
about it: the plugin dependency graph and lifecycle of the application, the
transactional installer with its crash recovery, the concurrent queues and
subscriptions, and the writers and readers that must undo each other.

`dafny verify dfyconfig.toml` checks the project.

## How it is organised

| file | component |
|---|---|
| `Prelude.dfy`, `Names.dfy`, `DependencyGraph.dfy` | stock definitions; names in Python's sort order; graphs, paths, cycles |
| `Tarjan.dfy` | the hard-cycle search of `_topo_sort_plugins` |
| `StartOrder.dfy` | the depth-first start order of `_topo_sort_plugins` |
| `Lifecycle.dfy`, `PluginApp.dfy` | startup, readiness loss, enable, disable, shutdown of `ReticulumPiApp` |
| `FileTree.dfy`, `StateRoots.dfy`, `StateRestore.dfy` | state roots on a file tree and the multi-root restore |
| `Transaction.dfy` | apply, rollback, the journal and power-loss recovery |
| `TreeMerge.dfy` | the conflict-refusing merge of legacy trees |
| `BackupRetention.dfy` | backup pruning and the retained legacy predecessor |
| `DaemonExecutor.dfy`, `AnnounceDispatch.dfy`, `EventBus.dfy` | bounded executor, announce dispatcher, event bus |
| `ArContainer.dfy`, `Utf8Mtu.dfy`, `TreeManifest.dfy` | Debian ar container, UTF-8 truncation, exact tree manifest |

Objects whose methods change fields are classes (`Tarjan.Search`,
`StartOrder.Walker`, `PluginApp.ReticulumPiApp`, `StateRestore.Disk`,
`Transaction.Machine`, `DaemonExecutor.BoundedDaemonExecutor`,
`AnnounceDispatch.AnnounceDispatcher`, `EventBus.Bus`).  Each method is tied by
its contract to a function of the old state, and the theorems are about that
function.  Concurrency is an arbitrary interleaving of atomic steps.

## Assumptions

- Loading, migrating, starting and stopping a plugin end as the environment
  decides (`Attempt`, `StopResult`, `Env`); so do disk operations
  (`Disk.fault`, `Disk.debris`).
- Startup turns, enable, disable and readiness loss are atomic steps.  The
  source serialises only enable, disable and the entry to shutdown
  (src/reticulumpi/app.py:364-367).
- `PluginBase` is modelled from src/reticulumpi/plugin_base.py:287-446: its
  lifecycle state and the transitions the application uses.
- A journal write, a file write and a completed root restore are each one
  durable step of a transaction; `_switch_release` is one step for a power loss,
  and for an exception it may also raise after its rename.
- Before a transaction the installed manifest and the release pointer agree:
  both absent, or both naming the same release (`Consistent`).
- Every mutation of a transaction is at a place its backup saved
  (`Txn.CoversAll`); `StateRoots.SelectCovers` says when a candidate directory
  is inside a saved root.
- Generated sibling names are unused and occur in no root path.

## Findings

Properties that turn out false of the code as it stands, each with a concrete
instance and the exact condition under which the code meets it:

- A soft cycle can place a plugin before its own hard dependency, and startup
  then blocks a plugin whose whole hard closure could start
  (`SoftCycleInverts`, `SoftCycleBlocks`).  Exact: a dependency comes first under
  every loading order if and only if no walked path leads back from it
  (`OrderedInEveryListing`), and a plugin is ready under every loading order if
  and only if its closure can start and has no such path
  (`StartupExactEveryListing`).
- An upgrade that adds a feature cannot be recovered after a power loss: the
  backup records requested and installed features together, and recovery
  compares that union with the restored manifest, forever
  (`AddedFeatureIsRefused`, `RefusalIsPermanent`; exact: `ApplyRecoverable`).
- If `_switch_release` raises after its rename, apply's undo leaves the pointer
  on the release it removes and closes the journal
  (`SwitchFailureStrands`; exact: `InProcessUndo`, `Machine.ApplyRelease`).
- If the legacy merge fails and then fails again while moving the original back,
  its `finally` block deletes the displaced original: the merged tree or nothing
  is left at the destination (`TwoFaultsDefeat`; exact: `MergeTreeAtomically`
  with `UndoDefeated` and `Lost`).
- If moving a root's original back fails during the undo of a multi-root
  restore, the sweep that follows deletes that original
  (`FailedMoveBackDeletes`; exact: `RestoreStateBackup` with `AfterRaise`,
  `OriginalSurvives`).  The call then reports an incomplete restoration.
- A legacy directory above an already chosen state root is left out of the
  backup (`SwallowedCandidateIsLost`).  Exact, on the candidate list:
  `SelectCovers` with `OuterFirst`.
- With the clock set back, or with equal modification times, pruning can delete
  the backup just taken (`FreshLostToClock`, `FreshLostToTie`; exact:
  `SurvivesExactly`).
- Cancelling one of two equal registrations removes the first equal entry, which
  changes the delivery order (`CancelMovesDelivery`).  Exact: the order is kept
  if and only if no other listener's registration on that event stands between an
  earlier equal registration and the cancelled one (`CancelKeepsOrder`).
- `unsubscribe_all` on a callback registered both directly and offloaded leaves
  listeners without handles (exact: `UnsubscribeAllExact`).
- `truncate_bytes` with a negative limit keeps a prefix measured from the end
  (exact: `TruncateBytesExact`).
- A manifest with a file name that holds a line break or a backslash is written
  but does not verify (exact: `WriteThenVerify`).

## Model

| member | source | states |
|---|---|---|
| `Tarjan.CycleMap` | src/reticulumpi/app.py:1368-1428 | for every graph, a name is a key exactly when it reaches itself by a non-empty hard path, and its value is exactly its strongly connected component, sorted |
| `Tarjan.Search.StrongConnect` | src/reticulumpi/app.py:1393-1420 | one call keeps the whole search invariant, and its lowlink is attained by a stacked name and bounds every edge back into the old stack |
| `Tarjan.Search.PopComponent` | src/reticulumpi/app.py:1411-1417 | the loop pops exactly the part of the stack from the root upwards |
| `Tarjan.PoppedIsComponent` | src/reticulumpi/app.py:1409-1420 | the popped names are the strongly connected component of the root |
| `Tarjan.CycleTest` | src/reticulumpi/app.py:1418-1420 | having another member or a self edge decides, for every member, whether it is on a cycle |
| `StartOrder.OrderCorrect` | src/reticulumpi/app.py:1430-1472 | the order is a permutation of the loaded names with hard-cycle members first; outside hard cycles each hard or soft dependency comes first unless it leads back to its dependent |
| `StartOrder.StartOrderOf` | src/reticulumpi/app.py:1430-1472 | the walk as it runs returns that order |
| `StartOrder.Walker.VisitName` | src/reticulumpi/app.py:1434-1462 | the recursive visit with its mutated sets computes the specified walk |
| `StartOrder.SoftCycleInverts` | src/reticulumpi/app.py:1438-1459 | a soft edge against a hard edge makes the order invert the hard edge |
| `StartOrder.OrderedInEveryListing` | src/reticulumpi/app.py:1430-1472 | outside hard cycles a dependency comes first under every listing of the plugins exactly when no hard or soft path leads back from it |
| `StartOrder.ListedFirst` | src/reticulumpi/app.py:1434-1472 | a plugin listed first is placed after everything it can reach |
| `StartOrder.ListingKept` | src/reticulumpi/app.py:1430-1472 | a listing in which no walked dependency comes after its dependent is kept: cycle members, then the others as listed |
| `StartOrder.HardBeforeSoft` | src/reticulumpi/app.py:1448-1459 | of two leaf dependencies the hard one is placed first, whatever the listing says |
| `Lifecycle.DependentsExact` | src/reticulumpi/app.py:831-867 | the ready plugins blocked on a loss are exactly those with a hard path to the lost provider |
| `Lifecycle.LoseReadyKeeps` | src/reticulumpi/app.py:831-867 | after a loss every ready plugin again has all hard dependencies ready and earlier |
| `Lifecycle.LoseReadyExact` | src/reticulumpi/app.py:831-867 | the provider is in the state it left for, exactly the ready plugins with a hard path to it are blocked, and no other plugin and no position changes |
| `Lifecycle.StartOneKeeps` | src/reticulumpi/app.py:203-276 | a startup turn, however it ends, keeps every ready plugin supported and touches no other plugin |
| `Lifecycle.StartOneExact` | src/reticulumpi/app.py:203-276 | how each ending of a turn leaves its plugin: blocked when not tried, ready, left not ready, hung, or dropped, with the other plugins and their order unchanged |
| `Lifecycle.ReadyAfterTurns` | src/reticulumpi/app.py:203-276 | after any number of turns exactly the names with an eligible, correctly ordered hard closure among the turns taken are ready |
| `Lifecycle.GoodIsClosure` | src/reticulumpi/app.py:773-787 | the turn-by-turn condition is the same as one on everything hard-reachable |
| `PluginApp.StartupExact` | src/reticulumpi/app.py:198-279 | for every registry and environment, ready after startup means: the whole hard closure is loaded, valid, acyclic, migrates and starts, and the start order of this registry respects its hard edges |
| `PluginApp.StartupExactAcyclic` | src/reticulumpi/app.py:198-279 | when nothing in the plugin's hard closure is on a hard-plus-soft cycle outside the hard cycles, the order condition disappears |
| `PluginApp.StartupExactEveryListing` | src/reticulumpi/app.py:198-279 | a plugin is ready under every loading order exactly when its hard closure can start and no walked path leads back along one of the closure's hard edges |
| `PluginApp.StartupIsRun` | src/reticulumpi/app.py:198-279 | startup as a whole is the run of one turn for each name in start order, and ends with a supported registry |
| `PluginApp.HardEdgesExact` | src/reticulumpi/app.py:1368-1392 | a hard edge counts for cycles exactly when both plugins are loaded and the dependent has valid metadata |
| `PluginApp.WalkedExact` | src/reticulumpi/app.py:1438-1459 | an edge orders the start exactly when it is a hard or soft dependency of a well-described plugin and neither end is on a hard cycle |
| `PluginApp.SoftCycleBlocks` | src/reticulumpi/app.py:203-217 | for any two names, the inverted order blocks a plugin whose closure could start |
| `PluginApp.StepKeeps` | src/reticulumpi/app.py:1155-1301 | startup turn, end of startup, loss, enable and disable each keep the lifecycle invariant |
| `PluginApp.EveryRunSupported` | src/reticulumpi/app.py:198-279 | over every run each ready plugin has all hard dependencies registered, ready and earlier in the order |
| `PluginApp.TurnExact` | src/reticulumpi/app.py:203-276 | in a run, a startup turn has the outcome of its attempt for its plugin only |
| `PluginApp.FinishExact` | src/reticulumpi/app.py:275-276 | the end of startup puts the registry in start order and changes no plugin |
| `PluginApp.LostExact` | src/reticulumpi/app.py:831-867 | in a run, a loss of readiness blocks exactly the plugins with a hard path to it, at any time |
| `PluginApp.CommandExact` | src/reticulumpi/app.py:1155-1301 | in a run, enable and disable have their outcomes on the running application and change nothing before |
| `PluginApp.EnableExact` | src/reticulumpi/app.py:1155-1258 | a new plugin with valid metadata and ready hard dependencies that starts is ready at the end of the registry; blocked, failed and hung instances stay registered; a refusal or a cleanly stopped failure changes nothing |
| `PluginApp.SecondEnableRefused` | src/reticulumpi/app.py:1155-1183 | an instance left registered, in whatever state, makes a later enable of its name change nothing, and exactly a refused or cleanly stopped one is not left |
| `PluginApp.DisableExact` | src/reticulumpi/app.py:1260-1301 | refused exactly when the plugin is unknown, hung or needed by a ready one; a clean stop unregisters it, another leaves it failed or hung, and no other plugin changes |
| `PluginApp.ShutdownExact` | src/reticulumpi/app.py:382-432 | which of hung, failed and stopped each plugin ends in, by its state, its turn and how its stop ends |
| `PluginApp.ReadyAcyclic` | src/reticulumpi/app.py:773-787 | hence no ready plugin is on a cycle of ready hard dependencies |
| `PluginApp.ShutdownOrder` | src/reticulumpi/app.py:382-384 | the reversed registry puts each dependent before its providers |
| `PluginApp.ShutdownKeepsSupport` | src/reticulumpi/app.py:382-432 | at every point of shutdown, also after its deadline, a plugin still ready has all hard dependencies ready, and at the end none is ready |
| `PluginApp.DisableBlocksNothing` | src/reticulumpi/app.py:1260-1301 | an accepted disable has no ready dependent, direct or transitive, to block |
| `PluginApp.FixpointExact` | src/reticulumpi/app.py:843-867 | a settled set grown only by dependents is the whole set of dependents |
| `PluginApp.ReticulumPiApp.TopoSort` | src/reticulumpi/app.py:1361-1472 | records exactly the hard cycles and returns the specified order |
| `PluginApp.ReticulumPiApp.BlockInvalidMetadata` | src/reticulumpi/app.py:820-829 | blocks exactly the loaded plugins with invalid metadata |
| `PluginApp.ReticulumPiApp.BlockDependencyCycles` | src/reticulumpi/app.py:1474-1488 | blocks exactly the recorded cycle members |
| `PluginApp.ReticulumPiApp.Start` | src/reticulumpi/app.py:198-279 | the startup loop reaches the registry of which `StartupExact` speaks |
| `PluginApp.ReticulumPiApp.OnPluginReadyLost` | src/reticulumpi/app.py:831-867 | the repeat-until-stable loop terminates and blocks exactly the dependents; during shutdown nothing |
| `PluginApp.ReticulumPiApp.EnablePlugin` | src/reticulumpi/app.py:1155-1258 | answers true exactly when the plugin is new and admitted and its attempt starts it, and then it is ready at the end of the order; whole new registry for every other ending |
| `PluginApp.ReticulumPiApp.DisablePlugin` | src/reticulumpi/app.py:1260-1301 | whole new registry; succeeds exactly when allowed and the stop is clean |
| `PluginApp.ReticulumPiApp.Shutdown` | src/reticulumpi/app.py:359-432 | the first call runs every shutdown turn in reverse order, later calls change nothing |
| `FileTree.MovedAt` | src/reticulumpi/admin_cli.py:3585-3591 | a rename between separate places moves one subtree and changes no other separate place |
| `StateRoots.SelectApart` | src/reticulumpi/admin_cli.py:1940-1985 | chosen roots are pairwise non-nested and extend the canonical ones |
| `StateRoots.SelectCovers` | src/reticulumpi/admin_cli.py:1940-1985 | every candidate is inside a chosen root exactly when, on the candidate list, whatever precedes a directory that strictly contains it is itself preceded by something containing that directory |
| `StateRoots.CoveredUnlessSwallowed` | src/reticulumpi/admin_cli.py:1960-1975 | the one way to be left out is a chosen root strictly inside the candidate |
| `StateRoots.SwallowedCandidateIsLost` | src/reticulumpi/admin_cli.py:1960-1975 | a candidate above a chosen root is not covered |
| `StateRoots.SelectRoots` | src/reticulumpi/admin_cli.py:1940-1985 | the loop makes that choice, apart and covering exactly under the condition on the list |
| `StateRoots.MergeRoots` | src/reticulumpi/admin_cli.py:1988-2009 | the merge refuses exactly when some uncovered addition has the name of a root merged before it, naming the first such; otherwise it makes the same choice |
| `StateRoots.SiblingApart` | src/reticulumpi/admin_cli.py:3559-3592 | a generated sibling is never inside a state root nor the other way round |
| `StateRestore.GeneratedSeparate` | src/reticulumpi/admin_cli.py:3559-3592 | non-nested roots with fresh generated names make all places of the restore separate |
| `StateRestore.RestoreStateBackup` | src/reticulumpi/admin_cli.py:3533-3658 | for any number of roots and any pattern of failures: it succeeds exactly when nothing fails before the turn, with every root equal to its backup or absent; otherwise it raises, incomplete exactly when something fails after the turn, never with a single failure; complete means every root is exactly as before, incomplete leaves each root as `AfterRaise` says; nothing else on disk changes |
| `StateRestore.OriginalSurvives` | src/reticulumpi/admin_cli.py:3613-3640 | after a raised call an original is still at its root or its displaced name exactly when it could be moved back or equals the backup |
| `StateRestore.FailedMoveBackDeletes` | src/reticulumpi/admin_cli.py:3623-3640 | a failed move back is followed by the deletion of the displaced original |
| `StateRestore.StageAll` | src/reticulumpi/admin_cli.py:3546-3570 | staging touches only the generated copies and fails exactly on a fault |
| `StateRestore.SwitchAll` | src/reticulumpi/admin_cli.py:3572-3592 | after a failure each root is swapped, half swapped or untouched, as the flags say |
| `StateRestore.UndoStage` | src/reticulumpi/admin_cli.py:3615-3629 | undoing one stage, for each failing rename |
| `StateRestore.UndoAll` | src/reticulumpi/admin_cli.py:3613-3629 | the undo reports an error exactly on a fault, and says per root what each failing rename leaves |
| `StateRestore.Sweep` | src/reticulumpi/admin_cli.py:3630-3640 | the sweep keeps every root and removes the displaced originals still recorded |
| `Transaction.CrashState` | src/reticulumpi/admin_cli.py:5147-5351 | where a power loss after any step can leave the machine |
| `Transaction.AllOrNothing` | src/reticulumpi/admin_cli.py:4841-4993 | after a power loss at any step recovery restores the pointer, every managed file and every root, or leaves a completed transaction alone; it finishes exactly when manifest, pointer and recorded features agreed |
| `Transaction.RestoreIsExact` | src/reticulumpi/admin_cli.py:4943-4945 | restoring files, pointer and roots from the backup gives back the whole installation from any torn state |
| `Transaction.RecoverTorn` | src/reticulumpi/admin_cli.py:4924-4993 | recovery from any torn state, accepted or refused |
| `Transaction.RecoveryConverges` | src/reticulumpi/admin_cli.py:4841-4993 | after a power loss at any step and any number of recoveries each stopped after any of their own steps or in the middle of a root swap, a full recovery ends in exactly the world of one uninterrupted recovery |
| `Transaction.TornRecoveryConverges` | src/reticulumpi/admin_cli.py:4924-4993 | the same after any tearing of covered places and of the candidate, by undo attempts as well |
| `Transaction.RecoveryTears` | src/reticulumpi/admin_cli.py:4943-4992 | recovery's own steps, up to the note that closes the journal, are such tearings |
| `Transaction.RecoverTwice` | src/reticulumpi/admin_cli.py:4841-4860 | a finished recovery is not repeated and a refused one refuses again, in the same world |
| `Transaction.RecoverFinishes` | src/reticulumpi/admin_cli.py:4841-4966 | when recovery can finish: no open journal, or nothing moved yet, or the named backup is there and its restoration acceptable |
| `Transaction.AcceptsExact` | src/reticulumpi/admin_cli.py:4947-4966 | recovery accepts exactly an installation whose manifest and pointer agree and whose features are the recorded ones |
| `Transaction.InProcessUndo` | src/reticulumpi/admin_cli.py:5352-5483 | the undo of a failed transaction restores everything exactly when the pointer is restored or never moved |
| `Transaction.UndoneExactly` | src/reticulumpi/admin_cli.py:5352-5483 | for a failure at any step, before or after its effect, the undo is complete exactly when the failure is not the raised switch |
| `Transaction.SwitchFailureStrands` | src/reticulumpi/admin_cli.py:4579-4590 | a switch that raises after its rename leaves the pointer on a removed release for good |
| `Transaction.ApplyRecoverable` | src/reticulumpi/admin_cli.py:5015-5020 | recovery of an apply is accepted exactly when the requested features were installed or nothing was |
| `Transaction.ApplyOutcome` | src/reticulumpi/admin_cli.py:5147-5351 | a completed apply, on a fresh or an installed machine: the machine points to the new release, the configuration root is the one with the new manifest, the two agree, and files and roots no mutation names are as before |
| `Transaction.RollbackRecoverable` | src/reticulumpi/admin_cli.py:5771-5837 | a rollback is always accepted and covered by its backup |
| `Transaction.RollbackOutcome` | src/reticulumpi/admin_cli.py:5803-5837 | a completed rollback: release pointer and manifest name the target, the manifest also the release left, and all other files and roots and the releases are as before |
| `Transaction.RollbackTwice` | src/reticulumpi/admin_cli.py:5803-5837 | rolling back and then rolling back again gives the installation it started from, except that its manifest names the release in between as its previous one |
| `Transaction.LegacyRecoverable` | src/reticulumpi/admin_cli.py:5570-5740 | a legacy rollback is covered exactly when its backup saved each place the predecessor restores |
| `Transaction.LegacyOutcome` | src/reticulumpi/admin_cli.py:5637-5670 | a completed legacy rollback: no pointer, the saved files and roots of the predecessor in place, no drop-in it did not have, everything else as before |
| `Transaction.RefusalIsPermanent` | src/reticulumpi/admin_cli.py:4947-4966 | a refused recovery refuses again |
| `Transaction.AddedFeatureIsRefused` | src/reticulumpi/admin_cli.py:4962-4966 | an interrupted upgrade with one new feature is refused |
| `Transaction.Machine.RecoverInterrupted` | src/reticulumpi/admin_cli.py:4841-4993 | the imperative recovery computes the specified one |
| `Transaction.Machine.ApplyRelease` | src/reticulumpi/admin_cli.py:5147-5491 | apply with an exception at any step: completes, or undoes everything except in the stranding case |
| `Transaction.Machine.RestoreFiles` | src/reticulumpi/admin_cli.py:3259-3268 | each snapshot is written back or removed |
| `TreeMerge.MergeAllExact` | src/reticulumpi/admin_cli.py:2590-2601 | merging succeeds exactly when no two trees conflict, and the result is exactly their union |
| `TreeMerge.MergeOrderIrrelevant` | src/reticulumpi/admin_cli.py:2590-2601 | any order of the legacy trees gives the same result or the same refusal |
| `TreeMerge.MergeEntries` | src/reticulumpi/admin_cli.py:2509-2530 | the entry loop computes the union or refuses on a conflict |
| `TreeMerge.MergeTreeAtomically` | src/reticulumpi/admin_cli.py:2493-2587 | exactly when the merge succeeds, refuses and fails; on success the union, on refusal the old tree, on failure the old tree exactly when the faults do not defeat the undo, and otherwise the merged tree or nothing, with the displaced original deleted unless that fails too |
| `TreeMerge.SwapIn` | src/reticulumpi/admin_cli.py:2546-2587 | the swap of the merged copy, for every pattern of faults |
| `TreeMerge.OneFaultIsUndone` | src/reticulumpi/admin_cli.py:2549-2587 | one fault never defeats the undo |
| `TreeMerge.TwoFaultsDefeat` | src/reticulumpi/admin_cli.py:2552-2587 | a failed rename and a failed rename back defeat the undo |
| `BackupRetention.AtMostThreeOthers` | src/reticulumpi/admin_cli.py:2802-2820 | at most three unprotected backups survive a prune |
| `BackupRetention.ProtectedSurvives` | src/reticulumpi/admin_cli.py:2810-2820 | the protected backup survives |
| `BackupRetention.OldestGoFirst` | src/reticulumpi/admin_cli.py:2802-2820 | no deleted backup is newer than a kept unprotected one |
| `BackupRetention.SurvivesExactly` | src/reticulumpi/admin_cli.py:2802-2820 | an unprotected backup survives exactly when at most two other unprotected ones are later, or equally old and listed after it |
| `BackupRetention.FreshLostToClock` | src/reticulumpi/admin_cli.py:2802-2820 | a clock set back lets the prune delete the fresh backup |
| `BackupRetention.FreshLostToTie` | src/reticulumpi/admin_cli.py:2802-2820 | three equally old backups listed later make the prune delete the fresh one |
| `BackupRetention.PruneBackups` | src/reticulumpi/admin_cli.py:2818-2820 | the deletion loop leaves exactly the specified backups |
| `BackupRetention.PredecessorRetained` | src/reticulumpi/admin_cli.py:3322-3356 | over every history without a legacy rollback, whatever order the directory lists backups in, once a manifest names a predecessor backup each later one names it and it is never deleted |
| `BackupRetention.HappenKeeps` | src/reticulumpi/admin_cli.py:5293-5318 | one transaction, committed or undone, keeps the named predecessor |
| `BackupRetention.HappenExact` | src/reticulumpi/admin_cli.py:5293-5318 | what one transaction leaves: a committed bridge names its backup, a first install and a legacy rollback none, others keep the name; which backups stay |
| `BackupRetention.BridgeEvidenceLasts` | src/reticulumpi/admin_cli.py:3322-3356 | over every history after a completed bridge without a legacy rollback its backup stays named and present |
| `DaemonExecutor.EveryInterleaving` | src/reticulumpi/daemon_executor.py:35-88 | in every interleaving the bounded queue is untaken work in order followed by stop marks, no worker returns while accepted work is untaken, and no future is settled twice |
| `DaemonExecutor.NothingLost` | src/reticulumpi/daemon_executor.py:46-82 | each accepted future is queued, in hand or settled, so all are settled once all workers have returned |
| `DaemonExecutor.OneWorkerSuffices` | src/reticulumpi/daemon_executor.py:46-62 | from any reachable state the turns of one idle worker settle all queued work, oldest first, each future done unless it was cancelled |
| `DaemonExecutor.DrainingCancels` | src/reticulumpi/daemon_executor.py:69-80 | a cancelling shutdown settles all queued work as cancelled, in order, and leaves taken work alone |
| `DaemonExecutor.SubmitExact` | src/reticulumpi/daemon_executor.py:35-44 | accepted exactly while open and with room, as the last of the queue; otherwise nothing changes |
| `DaemonExecutor.TakeExact` | src/reticulumpi/daemon_executor.py:46-52 | an idle worker takes the oldest item: work goes into its hands, a stop mark ends it |
| `DaemonExecutor.BeginExact` | src/reticulumpi/daemon_executor.py:46-56 | work in hand runs exactly when its future is still pending, and is dropped when it was cancelled |
| `DaemonExecutor.FinishExact` | src/reticulumpi/daemon_executor.py:56-62 | finished work settles its own future and frees its worker |
| `DaemonExecutor.DrainExact` | src/reticulumpi/daemon_executor.py:69-80 | one turn of the draining loop cancels the oldest queued work |
| `DaemonExecutor.CancelExact` | src/reticulumpi/daemon_executor.py:69-80 | a future is cancelled exactly while it is pending |
| `DaemonExecutor.ShutdownExact` | src/reticulumpi/daemon_executor.py:64-69 | only the first shutdown counts, and a cancelling one drains before it posts |
| `DaemonExecutor.PutStopExact` | src/reticulumpi/daemon_executor.py:81-85 | a stop mark is posted while one is owed and the queue has room; otherwise posting ends |
| `DaemonExecutor.BoundedDaemonExecutor.SubmitWork` | src/reticulumpi/daemon_executor.py:35-44 | a submission is one step of the model, accepted exactly while open and with room, and then the last of the queue |
| `DaemonExecutor.BoundedDaemonExecutor.ShutDown` | src/reticulumpi/daemon_executor.py:64-88 | shutdown's loops are steps of the model and leave exactly the remaining work and as many stop marks as fit; a cancelling one settles all queued work as cancelled |
| `AnnounceDispatch.EveryInterleaving` | src/reticulumpi/announce_dispatcher.py:160-285 | in every interleaving callbacks see matching accepted announces in order, each match has exactly one of five fates, and the drop counters add up |
| `AnnounceDispatch.UntroubledDelivers` | src/reticulumpi/announce_dispatcher.py:160-285 | over every run, a subscription that is never stopped, tripped or offered a match with a full mailbox has each match delivered or still in its mailbox, in order |
| `AnnounceDispatch.OfferExact` | src/reticulumpi/announce_dispatcher.py:239-262 | an offered match is the last mail exactly when the breaker is closed and the mailbox has room; skipped exactly when the breaker is open, lost exactly when it is full; another announce changes nothing |
| `AnnounceDispatch.ReceiveExact` | src/reticulumpi/announce_dispatcher.py:160-190 | the oldest mail: delivered exactly when active and the breaker is closed, skipped or discarded otherwise, and the stop mark ends the thread |
| `AnnounceDispatch.ReturnExact` | src/reticulumpi/announce_dispatcher.py:170-203 | slow callbacks count, a quick one resets the count, one that raised changes nothing, and the breaker opens exactly at the threshold |
| `AnnounceDispatch.EnqueueExact` | src/reticulumpi/announce_dispatcher.py:205-226 | an announce is accepted exactly while the queue has room and is counted as dropped otherwise |
| `AnnounceDispatch.FetchExact` | src/reticulumpi/announce_dispatcher.py:228-240 | the loop takes the oldest announce, for exactly the subscriptions registered then |
| `AnnounceDispatch.RestExact` | src/reticulumpi/announce_dispatcher.py:228-240 | with nobody left to offer to the loop rests, and nothing else changes |
| `AnnounceDispatch.NoticeExact` | src/reticulumpi/announce_dispatcher.py:160-169 | a thread leaves its loop without mail exactly when its subscription was stopped |
| `AnnounceDispatch.NewIsHealthy` | src/reticulumpi/announce_dispatcher.py:120-136 | a new subscription is registered, untripped, without mail and without fates, and leaves the others alone |
| `AnnounceDispatch.UnsubscribeExact` | src/reticulumpi/announce_dispatcher.py:138-158 | a stop deactivates one subscription and posts the stop mark if there is room |
| `AnnounceDispatch.MatchedIsOffered` | src/reticulumpi/announce_dispatcher.py:239-256 | the announces with a fate are exactly the matching ones among those offered, in order |
| `AnnounceDispatch.EveryTargetOffered` | src/reticulumpi/announce_dispatcher.py:228-240 | a fetched announce is offered to every subscription of the snapshot before the loop rests |
| `AnnounceDispatch.StepKeeps` | src/reticulumpi/announce_dispatcher.py:120-285 | every step of every thread keeps the invariant of every subscription |
| `AnnounceDispatch.AnnounceDispatcher.DispatchOne` | src/reticulumpi/announce_dispatcher.py:228-285 | one turn is a run of model steps that takes the head of a non-empty queue and gives each registered subscription, and no other, the outcome of an offer: mailed, skipped, lost or unmatched, by its breaker, mailbox and filter |
| `AnnounceDispatch.AnnounceDispatcher.CallbackEnded` | src/reticulumpi/announce_dispatcher.py:170-203 | the timing of one callback: the count and the breaker after it, and nothing else |
| `EventBus.EveryRun` | src/reticulumpi/event_bus.py:156-290 | after any operations the listeners per event are, as a multiset, the live handles' listeners; wrappers exist exactly for listed offloaded callbacks; no handle is cancelled twice |
| `EventBus.CancelKeeps` | src/reticulumpi/event_bus.py:209-221 | cancel succeeds exactly for a live handle, keeps the bookkeeping, and otherwise changes nothing |
| `EventBus.SubscribeOutcome` | src/reticulumpi/event_bus.py:156-165 | one handle and one list entry are added at the end; nothing on a bus that is shut down |
| `EventBus.SubscribeOffloadedOutcome` | src/reticulumpi/event_bus.py:167-201 | the same with the callback's wrapper, which is shared if there is one and new and listed nowhere otherwise |
| `EventBus.CancelOutcome` | src/reticulumpi/event_bus.py:209-221 | a live handle goes with the first entry of its listener, and its wrapper goes exactly with its last entry; no other listener, event or handle changes |
| `EventBus.CancelUndoesSubscribe` | src/reticulumpi/event_bus.py:156-221 | cancelling a fresh registration, direct or offloaded, puts every count, handle and wrapper back |
| `EventBus.UnsubscribeKeeps` | src/reticulumpi/event_bus.py:223-240 | unsubscribe succeeds exactly when its listener is listed, and keeps the bookkeeping |
| `EventBus.UnsubscribeOutcome` | src/reticulumpi/event_bus.py:223-240 | when the callback's listener is on the list its first registration goes, handle, entry and unused wrapper; otherwise nothing changes |
| `EventBus.ReleasedCounts` | src/reticulumpi/event_bus.py:203-240 | such a removal lowers the listed and the live count of one listener on one event by one and no other count |
| `EventBus.UnsubscribeAllExact` | src/reticulumpi/event_bus.py:272-290 | it keeps the bookkeeping exactly when the callback is not registered both ways |
| `EventBus.UnsubscribeAllOutcome` | src/reticulumpi/event_bus.py:272-290 | no entry of the callback's listener and no handle of the callback is left, in any event; other entries and handles stay, in order |
| `EventBus.ShutdownIsFinal` | src/reticulumpi/event_bus.py:260-270 | shutdown empties the bus and no later sequence of calls changes it |
| `EventBus.CancelMovesDelivery` | src/reticulumpi/event_bus.py:209-221 | cancelling the later of two equal registrations with another between them reorders delivery |
| `EventBus.CancelKeepsOrder` | src/reticulumpi/event_bus.py:209-221 | cancelling a live handle keeps delivery in registration order exactly when no other listener stands between an earlier equal registration and it |
| `EventBus.StepKeepsOrder` | src/reticulumpi/event_bus.py:156-290 | of all operations exactly the cancels out of turn disturb the delivery order |
| `EventBus.EveryOrderlyRun` | src/reticulumpi/event_bus.py:156-290 | over every run without them each event is delivered in registration order |
| `EventBus.Bus.CancelHandle` | src/reticulumpi/event_bus.py:209-221 | whole new state and result |
| `EventBus.Bus.UnsubscribeFrom` | src/reticulumpi/event_bus.py:223-240 | the new state and result are those of which `UnsubscribeOutcome` and `UnsubscribeKeeps` speak |
| `EventBus.Bus.UnsubscribeEverywhere` | src/reticulumpi/event_bus.py:272-290 | whole new state; the count returned is the number of live handles of the removed listener |
| `EventBus.Bus.SubscribeOffloadedTo` | src/reticulumpi/event_bus.py:167-201 | whole new state, sharing an existing wrapper |
| `EventBus.Bus.PublishTo` | src/reticulumpi/event_bus.py:242-258 | calls exactly the listeners of the event, in list order, and none after shutdown |
| `ArContainer.ArRoundTrip` | tools/build_admin_deb.py:471-501 | writing succeeds for all sizes and dates that fit, and a package within the limit reads back as exactly its three members |
| `ArContainer.WriteDebExact` | tools/build_admin_deb.py:455-501 | writing succeeds exactly when date and sizes fit, and gives the magic and three members in order, debian-binary, control.tar.gz, data.tar.gz, with every header column, content and padding as laid out |
| `ArContainer.Literals` | tools/build_admin_deb.py:457-481 | the bytes of the magic, the names, the version and the mode |
| `ArContainer.DecimalExact` | tools/build_admin_deb.py:457-464 | sizes and dates are written with their value, in digits, without a leading zero |
| `ArContainer.ReadDebExact` | tools/prepare_release_assets.py:162-208 | a file is accepted exactly when it is within the limit and is the magic and three well-formed chunks with the three names, in any order, and the right version; the result is their contents by name |
| `ArContainer.HeaderRepresentable` | tools/build_admin_deb.py:455-468 | a header can be written exactly when name, date and size fit their columns |
| `ArContainer.ReadWritten` | tools/prepare_release_assets.py:176-204 | reading a written member gives back its name, its bytes and what follows |
| `ArContainer.AcceptedIsPartitioned` | tools/prepare_release_assets.py:162-208 | an accepted file is the magic and three chunks of header, content and odd-size padding with nothing left over, and the result is their contents |
| `ArContainer.ArMembers` | tools/prepare_release_assets.py:162-208 | the loop over the running offset computes the specified parse and accepts exactly those files |
| `ArContainer.WriteArchive` | tools/build_admin_deb.py:471-501 | the appending loop computes that package: it succeeds exactly when date and sizes fit, with the members in order |
| `Utf8Mtu.RoundTrip` | src/reticulumpi/mtu.py:17-26 | decoding an encoding gives the text back |
| `Utf8Mtu.EncodeCharExact` | src/reticulumpi/mtu.py:17-26 | each character has the shortest form, with lead byte, continuation bytes and value as in RFC 3629 |
| `Utf8Mtu.CutKeepsFit` | src/reticulumpi/mtu.py:17-26 | cutting an encoding anywhere and decoding keeps exactly the characters that fit |
| `Utf8Mtu.TruncateBytesExact` | src/reticulumpi/mtu.py:17-26 | the longest fitting prefix for a non-negative limit; a negative limit is never met |
| `Utf8Mtu.FitIsLongest` | src/reticulumpi/mtu.py:17-26 | the prefix fits and one more character would not |
| `Utf8Mtu.MtuHeaderOnly` | src/reticulumpi/mtu.py:29-56 | a header filling the budget is cut to its longest fitting prefix |
| `Utf8Mtu.MtuNoEllipsis` | src/reticulumpi/mtu.py:29-56 | without room for the ellipsis: the header and the longest fitting body prefix |
| `Utf8Mtu.MtuEllipsis` | src/reticulumpi/mtu.py:29-56 | otherwise the longest body prefix that leaves room for the ellipsis |
| `Utf8Mtu.TruncateForMtuFits` | src/reticulumpi/mtu.py:29-56 | every result fits the budget, and text that fits is unchanged |
| `TreeManifest.WriteThenVerify` | tools/offline_release.py:332-352 | a written manifest verifies exactly when it is within the size limit and all names are free of line breaks and backslashes |
| `TreeManifest.VerifiedTreesAgree` | tools/offline_release.py:342-352 | two trees accepted against the same bytes have the same files, digests and directories |
| `TreeManifest.RenderReads` | tools/offline_release.py:309-339 | reading rendered text gives back every name with its digest |
| `TreeManifest.ReadManifestExact` | tools/offline_release.py:309-329 | reading accepts exactly the texts that are the lines of a non-empty list of entries with digests and safe clean names in strictly ascending order, in ASCII and within the limit; unsafe, repeated and unsorted names are refused |
| `TreeManifest.ParseLineExact` | tools/offline_release.py:45-45 | a line gives an entry exactly when it is the digest, two spaces, the name and a newline, with no backslash or line end in the name |
| `TreeManifest.SafeNameExact` | tools/offline_release.py:295-306 | a name is safe exactly when no component between slashes is empty, a dot or two dots and it has no backslash; a lone dot passes |
| `TreeManifest.AncestorsExact` | tools/offline_release.py:116-153 | a directory is an ancestor of a file exactly when its path and a slash begin the path of the file |
| `Names.TextLeqExact` | tools/offline_release.py:327-328 | the order of names: a prefix first, otherwise by the first difference |
| `TreeManifest.ReadNamesClean` | tools/offline_release.py:309-329 | whatever reads back has clean names |
| `TreeManifest.ReadLines` | tools/offline_release.py:309-329 | the line loop computes the specified parse and accepts exactly the manifests |
| `TreeManifest.SafeTreeFiles` | tools/offline_release.py:116-153 | refuses exactly unsafe or repeated entries and directories without a file, and otherwise returns exactly the listed tree |

## Left out

- Wall-clock timeouts: a deadline is a decision of the environment, and one
  reading of the clock stands for two close ones in `_dispatch_loop`.
- Races of readiness loss with a plugin still inside `start` or `enable_plugin`,
  and enable or disable calls during startup.
- Plugin loading, degraded health, managed threads and subprocess signalling.
- `Machine.ApplyRelease`: the undo block's own actions succeed; when several of
  them fail the source only reports incompleteness.
- `MergeTreeAtomically`: one rename or copy is one operation, and verification
  of the copy is part of writing it.
- `RestoreStateBackup`: the check that a displaced name is unused is one of the
  verifications that may fail; the kinds of verification are not told apart.
- Dashboard credential rotation, whose secrets may lie outside the backed-up
  roots, and `_prune_releases`.
- YAML, MeshChat and unit-file rewriting: each is a mutation of one managed file
  or root.
- systemctl, pip, venv, minisign and sqlite calls, identity hashes and service
  states.
- File modes, owners, symbolic links and directory times; digests are abstract.
- `_aspect_matches`: which announce matches which filter is a parameter.
- The event bus worker pool, its drop counter and its warnings; passing a
  wrapper object itself as a callback; generated handle ids are counters.
- Joining threads after an executor shutdown and counting abandoned ones.
- `ArMembers`: Python's `int` and `strip` are modelled for ASCII text.
- `ReadLines`: only nested manifests; the flat form adds one test on the number
  of components.
- Source modules for radio, messaging, web, configuration and release tooling
  other than the files named above.
