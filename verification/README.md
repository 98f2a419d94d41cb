# Nexus durable operations, modelled and verified

Nexus keeps several multi-step changes safe against errors, crashes and overlapping requests. This
project models the parts of the Agent and of the launcher that carry that burden, in Dafny, and
proves what they promise.

| file | what it covers |
|---|---|
| `Wrappers.dfy`, `Sequences.dfy`, `Faults.dfy` | an option type; what it means to be part of a list; a device whose every durable step may work, fail before or after taking effect, or crash before or after |
| `ColdRecords.dfy`, `ColdStore.dfy` | publishing a version through a write-ahead record, and the recovery that replays it, over five stores |
| `ColdOwner.dfy` | the coordinator around it: admission, the background task, cancellation, failure, release, maintenance, restart |
| `OwnedDirectory.dfy` | deleting an owned directory with an explicit stack |
| `SnapshotRestore.dfy`, `CheckpointRestore.dfy` | the two-level checkpoint restore: a content ticket inside a journal that decides |
| `Bisection.dfy`, `CanaryHistory.dfy` | the Canary search with an untrusted checker, and its bounded history |
| `PluginIsolation.dfy`, `PluginOrder.dfy` | disabling and enabling plugins, and when the order is restored |
| `StableJson.dfy`, `RequestClient.dfy` | the canonical request text and the identity of unresolved requests |
| `Refresh.dfy`, `Notices.dfy` | refresh coalescing and completion notices in the launcher |

Code that updates state is modelled by classes and loops. In the two transactions every durable step
goes through `Faults.Device`, so one method contract speaks about every place where a run can be cut. The device
counts its faults, so the same contract says what happens without one. Whole runs
are methods with an arbitrary step list (`Run`, `…AcrossCrashes`, `ArchiveAll`); what a run keeps is
in their `ensures`. Their nondeterminism (`*`) stands for everything the machine, the user, the
child processes and the scheduler may do. Publication recovery, for example, is not checked at
chosen cuts: `RecoverAcrossCrashes` covers any number of process lives, each cut at any step.

## Where the code falls short of a natural promise

Seven statements one would like to make are false of the code. Each is kept as it is, with a concrete
case and the exact condition.

* **A candidate can be deleted under a live process.** `dependency_registry_hint`
  (crates/nexus-agent/src/cold.rs:1139-1149) rewraps the error of a failed dependency installation
  when the registry is the official one; the rewrapped error no longer says that processes were left
  behind, so `settle_failure` takes the owner for quiescent and deletes the candidate. For every
  failing command, when nothing else fails, `FailAndSettle` shows that the candidate goes under a live
  process if and only if the command was an installation from the official registry that left one
  (`Hides`); `OfficialInstallRun` is a whole run from an empty coordinator, clone included. Such
  processes are remembered one by one in `misread` until they exit. `Run` shows that nothing else
  enters that set and that files go only while no other process is alive.
* **A retry can commit mixed content.** `apply_restore` trusts a ticket that says Applied
  (crates/nexus-snapshots/src/restore.rs:381-560), and an interrupted rollback leaves the ticket
  Applied with some files already put back (crates/nexus-snapshots/src/restore.rs:269-363). `Retry`
  ends with the desired content exactly when the ticket was not Applied before, or was and every
  file still had its desired content; `RetryAfterInterruptedRollback` shows the mixture. The damage
  is confined to that restore: `mixed` is cleared when the next one begins.
* **An abort can leave a restored file behind.** A rollback passes over every file that the ticket
  counts as undone (crates/nexus-snapshots/src/restore.rs:295-301). A retry after an interrupted
  rollback writes such a file again, if it was not there before the restore, and notes that only
  afterwards (crates/nexus-snapshots/src/restore.rs:425-555). Cut in between, the ticket is rolled
  back with the file still there: `RollbackAfterReapply`. `Abort` and `Rollback` put every file back
  exactly when no file counted as undone differs from its original (`Intact`); `dirty` confines the
  damage to that restore.
* **An abort can become impossible.** When that retry could note the file, it stands beside the copy
  that the rollback had moved aside, and the rollback refuses the pair
  (crates/nexus-snapshots/src/restore.rs:850-855): `AbortAfterReapply`. Without a fault `Abort` and
  the recovery at startup end exactly when no file stands beside its discarded content (`Undoable`).
* **The order of enabling plugins matters.** From `[a, b, core]`, disable b, disable a, enable b,
  enable a gives `[b, a, core]` (`EnableOrderMatters`). With the last plugin never disabled, every
  enable order restores the list if and only if, of two disabled neighbours, the front one was
  always disabled first (`EnableOrderIsFree`); otherwise `SomeEnableOrderBreaks` builds an order that
  does not.
* **A cancelled operation can end Failed.** After an Agent restart a record in Cancelling becomes
  Failed (crates/nexus-agent/src/cold.rs:168-184): `RestartAfterCancel` says so of every cancelled
  record, and `CancelInstallation` leads to one. Without a
  publication to replay, a successful recovery turns exactly the records that are neither terminal
  nor awaiting confirmation into Failed and keeps every other phase (`Recover`, `AfterVanishing`);
  without a restart a beaten operation can only end Cancelled (`Run`).
* **The request client can write what its own reader rejects**, when the clock stands before 1970.
  With a storage that works, the map stays readable if and only if the request already has an id, the
  map is full, or the second of issue is not negative (`Post`); `ClockBefore1970` is the run that locks
  the client out, and by `Run` it stays locked out.

## Model

| member | source | states |
|---|---|---|
| ColdStore.Store.ReconcilePublication | crates/nexus-agent/src/cold.rs:392-466 | From any state between the previous and the target tuple recovery stays between them and, when it finishes, stands on the side the committed bit names with the candidate gone; its own writes never raise its conflict guards; an outside change of settings or profiles leaves every store untouched; a preserved publication changes only the update record; the final record reads Cancelled, Failed, Prepared or Succeeded by what the intent says |
| ColdStore.Store.ReplayProfiles | crates/nexus-agent/src/cold.rs:398-407 | The conflict with outside settings is reported exactly then and before the first write; the profiles reach the side the committed bit names |
| ColdStore.Store.Replay | crates/nexus-agent/src/cold.rs:398-463 | The replay of an ordinary intent: between the tuples under every fault, and at its end on the side the committed bit names with the candidate gone |
| ColdStore.Store.RollForward | crates/nexus-agent/src/cold.rs:411-429 | The committed half stays between the tuples under every fault and reaches the target; a prepare-only record never moves settings or pointers |
| ColdStore.Store.RollBack | crates/nexus-agent/src/cold.rs:430-461 | The uncommitted half stays between the tuples under every fault and reaches the previous tuple exactly |
| ColdStore.Store.RestoreSelection | crates/nexus-agent/src/cold.rs:431-438 | Settings, pointers and update record return to the previous tuple |
| ColdStore.Store.RemoveOwned | crates/nexus-agent/src/cold.rs:439-454 | Slot, runtime and environment owned by the publication are removed and nothing else; a runtime that does not carry the name of the operation is never deleted |
| ColdStore.Store.FinishPreserved | crates/nexus-agent/src/cold.rs:274-312 | The intent is archived once, an archive is never replaced by a different one, and only the update record changes |
| ColdStore.IdsAreFileNames | crates/nexus-agent/src/cold.rs:277-280 | An accepted id is a plain file name, and every id the coordinator makes is accepted |
| ColdStore.Store.FinishPublication | crates/nexus-agent/src/cold.rs:387-390 | The intent disappears only after the final operation record is durable |
| ColdStore.Store.RecoverPublication | crates/nexus-agent/src/cold.rs:380-385 | Either the whole chosen tuple and the final record are on disk, or the same intent remains with the stores between its two tuples; without a fault it finishes; the record reads Cancelled if the user kept the state, else Failed unless committed, else Prepared or Succeeded, and success is recorded only with the whole target on disk |
| ColdStore.Store.RecoverExplicit | crates/nexus-agent/src/cold.rs:314-327 | A stale operation id changes nothing; keeping the current state touches no file, pointer or setting, ends Cancelled, and works for every id that can name a free archive; a retry keeps atomicity and records Failed, Prepared or Succeeded by the committed bit |
| ColdStore.Store.PreparePublication | crates/nexus-agent/src/cold.rs:346-376 | The intent on disk captures exactly the tuple it was taken from, and a slot that already exists refuses a new one |
| ColdStore.Store.CommitAndRecover | crates/nexus-agent/src/cold.rs:975-977 | Writing the committed bit is the only decision: afterwards the intent is pending on one of its sides or the target is complete; the success record appears only over the complete target |
| ColdStore.Store.PrepareRepairSlot | crates/nexus-agent/src/cold.rs:970-978 | Under every fault settings and pointers are unchanged; success adds exactly the built slot and the Prepared record, and only a fault, a taken slot or a missing candidate prevents it |
| ColdStore.Store.ReusePrepared | crates/nexus-agent/src/cold.rs:1041-1065 | The most recently installed slot of the tag is taken; no slot, setting or pointer changes; only a fault or a missing slot prevents it |
| ColdStore.Store.InitializeSelected | crates/nexus-agent/src/cold.rs:1014-1023 | Launch settings and selection are published together or not at all, with a healthy fallback if there is one; only a fault, an unregistered release, or a selection without a way back that nobody confirmed prevents it |
| ColdStore.Store.PublishImport | crates/nexus-agent/src/offline.rs:294-337 | Whenever the import was decided or changed anything for good, its target is the explicit tuple of environment, runtime, slot, settings, selection and profiles; only a fault, a taken slot or a missing way back prevents it |
| ColdStore.Store.Promote | crates/nexus-core/src/lib.rs:1868-1910 | A release is selected only if it is registered and either a healthy fallback exists, nothing could be lost, or the user confirmed |
| ColdStore.Store.VerifiedFallback | crates/nexus-core/src/lib.rs:1526-1536 | A healthy registered release other than the selected one, exactly when there is one |
| ColdStore.Store.Latest | crates/nexus-agent/src/cold.rs:1051-1058 | The latest installation among the slots of the tag |
| ColdStore.Store.StageImport | crates/nexus-agent/src/offline.rs:306-327 | Every prefix of the import's own steps lies between the two tuples, and at their end settings and selection are the wanted ones |
| ColdStore.Store.RegisterPrepared | crates/nexus-core/src/lib.rs:1694-1790 | The manifest comes last: an interrupted registration leaves at most an unselectable slot, an existing slot is never overwritten, and the candidate is gone exactly when the slot is there |
| ColdStore.Store.MoveSlot | crates/nexus-core/src/lib.rs:1694-1790 | The directory becomes a slot without a manifest, in one step with the disappearance of the candidate |
| ColdStore.Store.WriteIfCurrent | crates/nexus-core/src/lib.rs:6934-6942 | Settings are replaced only if they still are the captured ones |
| ColdStore.Store.RecoverAcrossCrashes | crates/nexus-agent/src/cold.rs:380-466 | Over any number of lives cut anywhere, the first recovery to finish leaves the tuple named by the committed bit with the record that says so; one life without a fault settles it |
| ColdStore.Store.KeepAcrossCrashes | crates/nexus-agent/src/cold.rs:274-312 | Once keeping the current state is durable, every later recovery takes that path, moves no store but the update record and ends Cancelled |
| ColdStore.Store.PublishAcrossCrashes | crates/nexus-agent/src/cold.rs:346-466 | Publish any of the four jobs, crash anywhere, recover through any number of crashes: the result is the old tuple with a Failed record, or the explicit target of that job (`Aims`) with its success record, chosen by the committed bit found on disk |
| ColdOwner.OwnershipSurvivesReporting | crates/nexus-agent/src/cold.rs:893-902 | The failure path sees an owner as quiescent exactly when it is, except for official-registry installations that left processes |
| ColdOwner.OfficialInstallHidesLiveOwner | crates/nexus-agent/src/cold.rs:1139-1149 | The concrete error that loses its owner |
| ColdOwner.OfficialInstallRun | crates/nexus-agent/src/cold.rs:893-902 | A whole run in which a candidate that was cloned is deleted while its process lives |
| ColdOwner.Coordinator.FailAndSettle | crates/nexus-agent/src/cold.rs:893-915 | For every failing command: its candidate is deleted under a live process if and only if it was an official-registry installation that left one |
| ColdOwner.Coordinator.RestartAfterCancel | crates/nexus-agent/src/cold.rs:153-202 | Every cancelled record that its task did not settle before a restart ends Failed |
| ColdOwner.CancelInstallation | crates/nexus-agent/src/cold.rs:574-643 | A run from an empty coordinator to such a record |
| ColdOwner.Coordinator.PublishThenBegin | crates/nexus-agent/src/cold.rs:736-744 | After a publication without a fault and its release the next operation is admitted |
| ColdOwner.Coordinator.FailThenBegin | crates/nexus-agent/src/cold.rs:736-744 | So it is after a failure whose processes are gone, with or without a publication to replay |
| ColdOwner.Coordinator.StartCommand | crates/nexus-agent/src/cold.rs:773-790 | A cancelled task starts nothing, and a clone refuses a candidate that exists |
| ColdOwner.Coordinator.Begin | crates/nexus-agent/src/cold.rs:574-643 | Admission only when no owner is active, nothing is pending and the previous operation is terminal and settled; otherwise nothing changes |
| ColdOwner.Coordinator.ReleaseSettledOwner | crates/nexus-agent/src/cold.rs:123-135 | A late completion releases only its own settled operation, never a successor; and the owner of a quiescent record that is terminal or awaits confirmation is released |
| ColdOwner.Coordinator.Update | crates/nexus-agent/src/cold.rs:510-542 | A record that is Cancelling stays so and the task's update fails; otherwise only a fault stops the update |
| ColdOwner.Coordinator.EndCommand | crates/nexus-agent/src/cold.rs:893-915 | Exactly which failing command makes which live process unknown to the failure path; a finished clone has its candidate |
| ColdOwner.Coordinator.PublishBuilt | crates/nexus-agent/src/cold.rs:943-967 | With the token cancelled, the record not Verifying or the operation beaten, the publishing section changes nothing; otherwise the published tuple stays or becomes exactly the target with the new slot, and only a fault, a taken slot or a missing candidate stops it |
| ColdOwner.Coordinator.PublishReused | crates/nexus-agent/src/cold.rs:1032-1065 | The same for a tag that is already installed, whose target has the same slots |
| ColdOwner.Coordinator.WriteFailurePending | crates/nexus-agent/src/cold.rs:483-508 | Only the operation's own record is turned into a pending failure, and it is unless something fails |
| ColdOwner.Coordinator.SettleFailure | crates/nexus-agent/src/cold.rs:1508-1614 | An unquiescent failure keeps every store and candidate and is noted; a quiescent one without a publication removes the candidate and reads Cancelled or Failed; a pending publication is replayed to the side its committed bit names, with the record that says so |
| ColdOwner.Coordinator.DeleteCandidate | crates/nexus-agent/src/cold.rs:1600-1609 | A candidate is cleaned up outside a replay only where no process is known to be alive |
| ColdOwner.Coordinator.Cancel | crates/nexus-agent/src/cold.rs:657-734 | A running operation becomes Cancelling with its files kept, and is beaten if no intent is on disk; one that awaits confirmation ends Cancelled; a finished one ends clean and unowned; a stale id changes nothing; nothing is deleted while a process is known to be alive; refusal has no other cause than a stale id, a fault, or living processes of an unquiescent owner |
| ColdOwner.Coordinator.CancelTerminal | crates/nexus-agent/src/cold.rs:678-706 | Processes first: an unquiescent owner whose processes are not reconciled keeps leftovers, record and owner; the phase is preserved |
| ColdOwner.Coordinator.ClearFinished | crates/nexus-agent/src/cold.rs:544-563 | A record is forgotten only when settled, unowned and unpublished |
| ColdOwner.Coordinator.PruneHistory | crates/nexus-agent/src/cold.rs:204-232 | Without a fault exactly a settled record whose candidate and release are both gone is pruned, and with it the update record that names it |
| ColdOwner.Coordinator.Recover | crates/nexus-agent/src/cold.rs:153-202 | With a process left nothing is deleted or replayed; success leaves a settled record, no intent and no live owner, with Failed exactly for a vanished owner whose candidate is then gone; a replayed publication reads Cancelled, Failed, Prepared or Succeeded; the published tuple stays, is replayed to one side, or has its update record set idle |
| ColdOwner.Coordinator.TryAcquireMaintenance | crates/nexus-agent/src/cold.rs:137-151 | Maintenance proceeds only over a terminal, quiescent, clean installation without owner or intent; it recovers only what a vanished owner left, and is refused for no other reason |
| ColdOwner.Coordinator.RecoverExplicit | crates/nexus-agent/src/cold.rs:314-327 | Refused without any change while the owner lives; files go only without a live process; the tuple ends kept as it is or on the side the committed bit names, with the record that says so; a retry fails only by a fault, and keeping also if another record is archived under the id |
| ColdOwner.Coordinator.Restart | crates/nexus-agent/src/cold.rs:110-117 | Whatever survives a crash satisfies the full invariant again once volatile fields are dropped |
| ColdOwner.Coordinator.Perform | crates/nexus-agent/src/cold.rs:110-735 | Every step of every party keeps the ownership invariant and the law of steps (`Lawful`): files go only where no process is known to be alive, a process is lost from sight exactly by a failing official-registry installation, the published tuple moves only to a publication's target, to the side a replay names, or to an idle update record, and success is recorded only for a decided publication whose whole target is on disk; and every step does what it is for unless something fails (`Advances`) |
| ColdOwner.Coordinator.Run | crates/nexus-agent/src/cold.rs:110-735 | Over every interleaving, at every moment: one settled or live owner, stores that hold a whole published tuple or can be replayed to one, and each step lawful and effective; an operation cancelled before publication never reaches Prepared or Succeeded and, without a restart, ends only Cancelled |
| OwnedDirectory.FileSystem.RemoveOwned | crates/nexus-agent/src/cold.rs:1616-1688 | Success removes exactly the subtree and pops exactly two turns per directory and one per other entry; any result leaves a tree that lost only paths under the target; the bounds can stop it only above 2,000,000 turns or 1,000,000 entries |
| OwnedDirectory.FileSystem.Turn | crates/nexus-agent/src/cold.rs:1650-1686 | One turn keeps the stack invariant and costs one visit |
| OwnedDirectory.FileSystem.Unlink | crates/nexus-agent/src/cold.rs:1660-1685 | Only a path without children may be removed, and only that path goes |
| OwnedDirectory.BelowIsUnderDirectory | crates/nexus-agent/src/cold.rs:1658-1685 | Whatever lies below a path lies below a directory, so unlinking a link loses nothing behind it |
| OwnedDirectory.OpenTurn | crates/nexus-agent/src/cold.rs:1664-1678 | Opening a directory keeps the invariant, one turn further and within both bounds |
| OwnedDirectory.UnlinkTurn | crates/nexus-agent/src/cold.rs:1660-1685 | When the loop removes an entry nothing is left below it |
| OwnedDirectory.TurnsAreBounded | crates/nexus-agent/src/cold.rs:1648-1652 | The count of turns never exceeds the visits of the original subtree |
| OwnedDirectory.StackIsBounded | crates/nexus-agent/src/cold.rs:1669-1677 | The stack never exceeds the number of original entries |
| SnapshotRestore.Snapshots.Prepare | crates/nexus-snapshots/src/restore.rs:118-196 | Nothing of the profile changes; the new ticket has one pending entry for each file, over the content found, and asks for the package manager exactly if one of the first three files is to change |
| SnapshotRestore.Snapshots.Apply | crates/nexus-snapshots/src/restore.rs:381-560 | An apply that is not trusted ends with every file desired and noted; without a fault it ends exactly if each file is in a state it can go on from; a ticket already Applied is believed without looking at its files |
| SnapshotRestore.Snapshots.ApplyOne | crates/nexus-snapshots/src/restore.rs:425-556 | One file moves through its steps under every fault and no other file is touched; without a fault it ends exactly if the ticket did not undo it |
| SnapshotRestore.Snapshots.MakeCopy | crates/nexus-snapshots/src/restore.rs:455-497 | The original moves to its undo copy in one step, and only from its own place |
| SnapshotRestore.Snapshots.Fill | crates/nexus-snapshots/src/restore.rs:510-549 | The desired content is written only where nothing else stands |
| SnapshotRestore.OriginalsSurvive | crates/nexus-snapshots/src/restore.rs:381-560 | Until the commit every original is in its place or in its undo copy, wherever an apply or a rollback was cut |
| SnapshotRestore.EndsAsAsked | crates/nexus-snapshots/src/restore.rs:147-196 | What desired and original mean for the ticket of a restore, in terms of the files found and the files asked for |
| SnapshotRestore.Snapshots.Commit | crates/nexus-snapshots/src/restore.rs:229-263 | Only an applied and materialized ticket, or one already committing, becomes Committed, and no undo copy goes before that decision is durable; without a fault those always do |
| SnapshotRestore.Snapshots.Rollback | crates/nexus-snapshots/src/restore.rs:269-363 | Success restores every file that the ticket does not count as undone, hence every original exactly if those are intact; it ends exactly if no file stands beside its discarded content; nothing but putting originals back ever happens to a file; a committing ticket refuses; an interrupted run keeps its status |
| SnapshotRestore.Snapshots.UndoOne | crates/nexus-snapshots/src/restore.rs:295-355 | One file goes back to its original, or stays when its discarded content stands beside it |
| SnapshotRestore.Snapshots.Discard | crates/nexus-snapshots/src/restore.rs:831-886 | A file that was not there before is moved aside once |
| SnapshotRestore.Snapshots.MarkMaterialized | crates/nexus-snapshots/src/restore.rs:205-223 | Only an Applied ticket is marked, and a needed materialization only after the package manager ran |
| CheckpointRestore.Checkpoints.RestoreContent | crates/nexus-agent/src/checkpoint_api.rs:510-607 | Success means target selection, every file of the snapshot as it asks, a committed ticket, a run of the package manager if a manifest changed, and no journal, whatever happened before; without a journal the files are all as asked or all as they were; any other end needs a fault or an unfinished earlier ticket; without a durable journal nothing changed |
| CheckpointRestore.Checkpoints.Carry | crates/nexus-agent/src/checkpoint_api.rs:530-607 | The common way of a restore and its retry: without a fault it ends exactly from an Applied or resumable ticket, and spoils content only over a trusted ticket with a file put back |
| CheckpointRestore.Checkpoints.SelectOrUndo | crates/nexus-agent/src/checkpoint_api.rs:558-568 | A single failing step of the selection is undone completely, files and selection, if the files can be undone |
| CheckpointRestore.Checkpoints.Decide | crates/nexus-agent/src/checkpoint_api.rs:569-596 | After a failed commit write the journal is read again: Committed goes forward, only Prepared is rolled back |
| CheckpointRestore.Checkpoints.Abandon | crates/nexus-agent/src/checkpoint_api.rs:558-567 | Content and selection are each undone regardless of the other, and the journal goes only when both are; without a fault it goes exactly if the content can be undone |
| CheckpointRestore.Checkpoints.RollbackSelection | crates/nexus-agent/src/checkpoint_api.rs:1124-1155 | One failing store does not keep the two others from being put back; success puts back all of them |
| CheckpointRestore.Checkpoints.CommitDecided | crates/nexus-agent/src/checkpoint_api.rs:598-606 | From a Committed journal the only way is forward; without the commit the restore is parked |
| CheckpointRestore.Checkpoints.Retry | crates/nexus-agent/src/checkpoint_api.rs:733-840 | A retry whose steps succeed ends on target without a journal; from Committed it only finishes; exactly when its content is the desired one; without a fault it fails exactly on a ticket that is neither Applied nor resumable |
| CheckpointRestore.Checkpoints.Abort | crates/nexus-agent/src/checkpoint_api.rs:842-916 | From Prepared it ends on the previous selection without a journal, with every original back exactly if no file counted as undone has changed; without a fault it ends exactly if no file stands beside its discarded content; Committed is refused unchanged |
| CheckpointRestore.Checkpoints.RestoreSelection | crates/nexus-agent/src/checkpoint_api.rs:1011-1112 | The restore without content takes the same single decision, touches no content, and changes nothing without a durable journal |
| CheckpointRestore.Checkpoints.Settle | crates/nexus-agent/src/lib.rs:721-770 | A pending restore without content is settled by its phase; one with content is left alone |
| CheckpointRestore.Checkpoints.Startup | crates/nexus-agent/src/lib.rs:646-700 | Recovery at startup follows the journal's phase, or leaves the same journal; without a fault a journal stays exactly when its rollback cannot end |
| CheckpointRestore.Checkpoints.Run | crates/nexus-agent/src/checkpoint_api.rs:510-1112 | Over every sequence of requests, faults and restarts: without a journal the last begun restore is wholly undone or wholly kept; a Committed journal is never followed by a rollback; only a retry over an Applied ticket with a file put back commits a mixture, only a rollback over a file applied again leaves one, each of its own restore alone; and every request does what it is for unless something fails (`Advances`) |
| CheckpointRestore.RetryAfterInterruptedRollback | crates/nexus-snapshots/src/restore.rs:269-400 | The concrete ticket from which a retry commits a mixture |
| CheckpointRestore.RollbackAfterReapply | crates/nexus-snapshots/src/restore.rs:295-363 | The ticket, the cut and the recovery after which a file that was not there before is still there |
| CheckpointRestore.AbortAfterReapply | crates/nexus-snapshots/src/restore.rs:850-855 | The ticket from which no abort can end |
| Bisection.Bisect | crates/nexus-agent/src/canary.rs:186-211 | With no assumption on the checker: a reported combination is a subsequence of the candidates that failed in the last round, the empty set passed, and leaving out any one member was observed to pass, all on one source identity; every other end is what it says; at most n(n+1)/2 + 3 rounds |
| Bisection.RunCanary | crates/nexus-agent/src/canary.rs:182-212 | At most 20 rounds, a search exactly when it was asked for and the full set failed, and an answer whenever the candidates are few, the clock holds and every round runs on one source |
| Bisection.RemovingKeepsOrder | crates/nexus-agent/src/canary.rs:209 | Leaving one member out of a subsequence gives a subsequence |
| Bisection.TriangleClosedForm | crates/nexus-agent/src/canary.rs:191-210 | The cost recurrence of the search is n(n+1)/2 |
| CanaryHistory.StreamStep | crates/nexus-agent/src/canary.rs:257-263 | Push, sort and truncate keeps exactly the newest ten of all records seen |
| CanaryHistory.StreamNewest | crates/nexus-agent/src/canary.rs:254-265 | For every order of arrival the streamed list is the first ten of the fully sorted history |
| CanaryHistory.SortedSorts | crates/nexus-agent/src/canary.rs:260 | The sort orders newest first and keeps the records |
| CanaryHistory.NewestIsPrefix | crates/nexus-agent/src/canary.rs:256-264 | The newest k are the first k of the fully sorted history, hence independent of the directory order |
| CanaryHistory.NewestOthers | crates/nexus-agent/src/canary.rs:297 | Nine of the newest ten after leaving out the report's id are the nine newest others |
| CanaryHistory.NewestOfPart | crates/nexus-agent/src/canary.rs:280-303 | Being among the newest survives the removal of other records |
| CanaryHistory.CompanionsAreNewest | crates/nexus-agent/src/canary.rs:297-301 | The nine others kept finished later than every other report dropped, or at the same time under the larger id |
| CanaryHistory.PruneMakesRoom | crates/nexus-agent/src/canary.rs:286-296 | A complete pruning of a full directory always leaves room, so the second capacity refusal never follows a complete pruning |
| CanaryHistory.TrimIsExact | crates/nexus-agent/src/canary.rs:299-301 | Pruning below the last companion leaves the report and its companions only |
| CanaryHistory.StillNewest | crates/nexus-agent/src/canary.rs:280-303 | One archive, complete or not, loses none of the nine newest reports ever stored |
| CanaryHistory.History.Inventory | crates/nexus-agent/src/canary.rs:232-265 | A readable directory yields the newest ten reports and the exact count, in whatever order it is listed |
| CanaryHistory.History.Prune | crates/nexus-agent/src/canary.rs:270-279 | Whichever deletion fails, only older reports of other ids are gone; a complete run removes all of them |
| CanaryHistory.History.Archive | crates/nexus-agent/src/canary.rs:280-303 | The count never exceeds the larger of 64 and what was there; a complete archive leaves exactly the report and the nine newest others; a failed one keeps those nine; and a full directory accepts the next report as soon as deletions work again |
| CanaryHistory.History.ArchiveAll | crates/nexus-agent/src/canary.rs:280-303 | Over any sequence of archives with any failures the count stays within the larger of 64 and what was there, every report that fits reaches a reliable directory, and while an id names one report the nine newest reports ever stored are still there |
| PluginIsolation.Profile.SetPluginDisabled | crates/nexus-agent/src/compatibility.rs:135-191 | Refusal exactly for reserved or unknown packages and invalid former policies, without change; otherwise one atomic step to the specified manifest unless the write fails |
| PluginIsolation.Profile.ImportLegacy | crates/nexus-agent/src/compatibility.rs:150-166 | The former policy is taken over entry by entry, or rejected for a reserved name |
| PluginIsolation.Profile.DisabledPlugins | crates/nexus-agent/src/compatibility.rs:109-133 | The list shows exactly the recorded packages that are not active, and unmigrated former entries, without repetition |
| PluginIsolation.OrderOfOthersKept | crates/nexus-agent/src/compatibility.rs:171-183 | No change reorders the other plugins |
| PluginIsolation.OnlyOwnPackageChanges | crates/nexus-agent/src/compatibility.rs:171-183 | A change shows or hides its own package and no other, and keeps all other records |
| PluginIsolation.ImportHidesKnown | crates/nexus-agent/src/compatibility.rs:157-165 | Taking over the former policy hides exactly those of its packages that the profile knows |
| PluginIsolation.EnableUndoesDisable | crates/nexus-agent/src/compatibility.rs:171-183 | Enabling right after disabling restores order and records exactly |
| PluginIsolation.PlaceBefore | crates/nexus-agent/src/compatibility.rs:176-183 | An enabled plugin returns in front of the first of its recorded successors that is active |
| PluginIsolation.PlaceWithout | crates/nexus-agent/src/compatibility.rs:176-183 | Without one it returns at its recorded index, or at the end of a shorter list |
| PluginIsolation.RearTwice | crates/nexus-agent/src/compatibility.rs:171-183 | Two plugins, disabled and enabled from the rear, end as they began |
| PluginIsolation.NestedChangesRestore | crates/nexus-agent/src/compatibility.rs:171-183 | Every well-nested sequence of changes restores order and records exactly |
| PluginOrder.EnableOrderIsFree | crates/nexus-agent/src/compatibility.rs:171-183 | With the last plugin never disabled, every enable order restores list and records if and only if, of two disabled neighbours, the front one was always disabled first |
| PluginOrder.AnyEnableOrderRestores | crates/nexus-agent/src/compatibility.rs:171-183 | The sufficient half, for any covering sequence of enables with repetitions |
| PluginOrder.SomeEnableOrderBreaks | crates/nexus-agent/src/compatibility.rs:171-183 | The necessary half: a covering enable order that does not restore the list |
| PluginOrder.DisablingMakesHistory | crates/nexus-agent/src/compatibility.rs:171-175 | After any disables the list is the original without them, and each record holds its successors without those disabled earlier |
| PluginOrder.HistoryRemembers | crates/nexus-agent/src/compatibility.rs:173 | Under the condition each record lists every successor up to the first that is never disabled |
| PluginOrder.EnableRemembers | crates/nexus-agent/src/compatibility.rs:176-183 | From such a state enabling any plugin puts it at its original place among the active ones |
| PluginOrder.RearFirst | crates/nexus-agent/src/compatibility.rs:176-183 | Enabling the rear of two swapped neighbours first leaves the front one behind it |
| PluginOrder.EnablingKeepsOrder | crates/nexus-agent/src/compatibility.rs:176-183 | Two plugins without records keep their relative order under any further enabling |
| PluginOrder.EnableOrderMatters | crates/nexus-agent/src/compatibility.rs:171-183 | The smallest case, with three plugins |
| StableJson.StableIsCanonical | apps/nexus-launcher/src/request-client.ts:16-27 | Two values have the same text exactly when they are equal up to the order of object keys |
| StableJson.ValueReadable | apps/nexus-launcher/src/request-client.ts:16-27 | Unique readability: texts that begin alike begin with the same value, properly ended |
| StableJson.FieldsReadable | apps/nexus-launcher/src/request-client.ts:20-24 | The same for the sorted fields of an object |
| StableJson.ItemsReadable | apps/nexus-launcher/src/request-client.ts:17-19 | The same for the items of a list |
| StableJson.EscapedReadable | apps/nexus-launcher/src/request-client.ts:23-26 | Quoted strings of arbitrary UTF-16 code units, lone surrogates included, are uniquely readable |
| StableJson.EscapingReadsBack | apps/nexus-launcher/src/request-client.ts:23-26 | A JSON reader takes every quoted string back to the code units it was made of |
| StableJson.EscapedIsEncodable | apps/nexus-launcher/src/request-client.ts:107 | A quoted string has no lone surrogate, so the encoding to bytes before the digest replaces nothing in it |
| StableJson.SameText | apps/nexus-launcher/src/request-client.ts:20-24 | Reordering keys anywhere does not change the text |
| StableJson.MatchedSorted | apps/nexus-launcher/src/request-client.ts:21-22 | Objects with matching entries sort to lists that agree position by position |
| StableJson.SortAscends | apps/nexus-launcher/src/request-client.ts:22 | The sort by code units orders distinct keys strictly |
| StableJson.StableOnOneLine | apps/nexus-launcher/src/request-client.ts:16-27 | The text never contains a line break |
| StableJson.ObjectExample | apps/nexus-launcher/src/request-client.ts:16-27 | The text of one object, character by character |
| StableJson.PayloadIdentifiesRequest | apps/nexus-launcher/src/request-client.ts:107 | Two requests share the digested payload exactly when path and body agree up to key order |
| RequestClient.IdsFollowRequests | apps/nexus-launcher/src/request-client.ts:105-127 | The same request keeps its id until it is settled, and no id serves two different requests |
| RequestClient.StoringKeeps | apps/nexus-launcher/src/request-client.ts:112-124 | A stored id is distinct from every pending one and the map stays within 64 |
| RequestClient.SettlingKeeps | apps/nexus-launcher/src/request-client.ts:94-100 | Settling an id, even when the storage fails it, keeps every other identity |
| RequestClient.Client.Post | apps/nexus-launcher/src/request-client.ts:105-127 | A refusal sends nothing; a send carries an id already stored under its request; each refusal holds exactly under its condition; and the exact condition, checkable beforehand, under which the stored map stays readable |
| RequestClient.ClockBefore1970 | apps/nexus-launcher/src/request-client.ts:68-124 | A run in which one request issued before 1970 makes the client refuse every later one |
| RequestClient.Client.Forget | apps/nexus-launcher/src/request-client.ts:94-100 | Exactly the entries of the id go, or the storage error leaves them |
| RequestClient.Client.Answered | apps/nexus-launcher/src/request-client.ts:126-141 | A completed or missing receipt, a domain failure or a proven previous failure gives the id up; an unknown transport outcome or an unfinished receipt keeps it |
| RequestClient.Client.PostAgain | apps/nexus-launcher/src/request-client.ts:105-141 | A request posted again carries the same id after an unknown outcome, and a new one after a proven outcome |
| RequestClient.Client.Run | apps/nexus-launcher/src/request-client.ts:54-144 | Over every interleaving of posts, answers, forgetting and restarts, at any clock, the identity invariant holds at every moment and every event has its effect (`Advances`); past 1970 the map stays readable; once unreadable nothing is stored or sent any more |
| Refresh.JoiningKeeps | apps/nexus-launcher/src/App.tsx:325-331 | A call joining or starting a drain keeps the freshness invariant |
| Refresh.EndingKeeps | apps/nexus-launcher/src/App.tsx:334-458 | So does the end of a pass: a batch is withheld exactly when a call arrived while it was read, and each resolved call saw a published pass begun no earlier than it |
| Refresh.Refresher.Call | apps/nexus-launcher/src/App.tsx:325-337 | One drain at a time; a call during a pass makes another pass due |
| Refresh.Refresher.PassEnds | apps/nexus-launcher/src/App.tsx:345-454 | What is shown changes only by an offline, failed or current batch |
| Refresh.Refresher.Run | apps/nexus-launcher/src/App.tsx:325-458 | Over every interleaving the log is the one of these events, passes never exceed calls, and when no drain runs every call is resolved |
| Notices.AdvanceNotices | apps/nexus-launcher/src/operation-status.ts:19-53 | One poll yields one notice for each announced record, in the order of the records, none twice under one id, and for each listed id the flag of its last record |
| Notices.AnnouncedMeans | apps/nexus-launcher/src/operation-status.ts:26-45 | The six phases and six statuses of an announcement |
| Notices.NoticesSelect | apps/nexus-launcher/src/operation-status.ts:24-50 | The notices are the records at exactly the announced positions |
| Notices.NoticesDiffer | apps/nexus-launcher/src/operation-status.ts:45-49 | No operation is announced twice in one poll |
| Notices.FlagOfRecord | apps/nexus-launcher/src/operation-status.ts:34-50 | The flag of a listed id follows from its last record |
| Notices.FlagMeansExecuting | apps/nexus-launcher/src/operation-status.ts:34-50 | The flag of an id is set exactly when it was seen running in an earlier poll, listed ever since and not announced since |
| Notices.NoticeMeansWatchedExecution | apps/nexus-launcher/src/operation-status.ts:34-50 | A record is announced exactly when it has ended and its execution was being watched |
| Notices.OncePerExecution | apps/nexus-launcher/src/operation-status.ts:45-50 | Between two notices of one id it was seen running again, so they stand in different polls |
| Notices.FinishedOnArrivalStaysSilent | apps/nexus-launcher/src/operation-status.ts:34-47 | What is only ever seen finished is never announced |

## Left out

- ColdOwner.Coordinator.Begin: the source looks for a pending publication before it takes the gate; the model looks in the same step as admission, because a publication that begins in between has an active owner and is refused by the gate-held test.
- ColdOwner.Coordinator.Run: the background task is the one for tags (clone and build, or reuse), and retries inside the git worker are part of one command. The offline import and the first selection are modelled as publications in `ColdStore` but not as background tasks, and exports not at all.
- ColdOwner.Coordinator.ReconcileProcesses: process registries, job objects and the reboot rule for records of older versions are one nondeterministic answer.
- ColdStore.Store.WriteConfig: the settings store's own small journal is one atomic write.
- ColdStore.Store.VerifiedFallback: which releases are healthy is fixed for a run, and among several any may be taken where the source takes the most recently verified. Pointers are the release store's own view, in which a fallback without matching evidence counts as absent; a rollback restores that view.
- ColdStore.Store.PublishImport: starts, like `InitializeSelected`, from pointers that name registered releases and from free names for its runtime and environment; the release store refuses to load any others (crates/nexus-core/src/lib.rs:1405-1438), and the import checks the names before it writes its record.
- OwnedDirectory.FileSystem.RemoveOwned: path canonicalisation, permission repair and Windows reparse details; the tree changes only through the loop itself.
- SnapshotRestore.Snapshots.ApplyOne: a file changed by somebody else during a restore, which the source refuses to touch; the model's files change only through the transaction itself. File modes and the checks of paths and hashes are left out.
- SnapshotRestore.Snapshots.Rollback: packages installed while a profile is materialized are not part of the content that is put back, in the source as in the model.
- CheckpointRestore.Checkpoints.RestoreContent: leases on profiles, the package manager and the process check are single steps that may fail; checkpoint lookup and HTTP answers are left out.
- Bisection.RunCanary: staging the checker and the comparison of the settings revision at the end, which only turns a report into an error.
- CanaryHistory.History.Archive: the contents of a report beyond time and id; no other process deletes reports meanwhile.
- PluginIsolation.Profile.SetPluginDisabled: bundle entries that are not strings, and the resolution of a profile's source.
- StableJson.Stable: numbers are their canonical decimal text (negative zero prints as zero), and values that are not JSON, such as `undefined`, do not occur.
- RequestClient.Client.Post: the digest is taken to be injective, so the payload itself is the key; requests that need no id are passed on unchanged and are not modelled; nobody else edits the stored map.
- Refresh.Refresher.PassEnds: what a batch contains, and the merge of a busy batch with the previous one.
- `mergeRequestHistory`, poll delays, settings helpers, React views, translations and the Electron bridge: display and single-branch code.
- Timestamps, progress numbers, diagnostic texts, digests and the wall clock of the deadlines, which appear as nondeterministic early ends.
