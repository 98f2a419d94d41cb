/** The coordinator of cold installations: who owns the one operation record, when the owner
    is released, and what may be deleted. Every method is one step that runs while the gate
    is held (or one unlocked signal); steps of different tasks interleave freely. */
module ColdOwner {
  import opened Wrappers
  import opened ColdRecords
  import opened ColdStore

  /** An error as the failure path sees it: only a command failure carries the fact
      whether its processes are known to be gone. */
  datatype IoError = Plain | CommandFailure(ownerQuiescent: bool)

  function OwnerQuiescent(error: IoError): bool {
    error.Plain? || error.ownerQuiescent
  }

  /** The hint added to a failed dependency download. */
  function DependencyRegistryHint(error: IoError, source: RuntimeSource): IoError {
    if source.Official? then Plain else error
  }

  /** The commands of a task: the clone makes the candidate directory, the dependency
      installation may have its error reworded. */
  datatype Command = Clone | Install | Other

  /** The error a failed command hands to the failure path. */
  function Surfaced(error: IoError, command: Command, source: RuntimeSource): IoError {
    if command.Install? then DependencyRegistryHint(error, source) else error
  }

  /** The failure path believes a command to be gone exactly when it is, unless the command
      is a dependency installation from the official registry that left processes behind. */
  lemma OwnershipSurvivesReporting(error: IoError, command: Command, source: RuntimeSource)
    ensures OwnerQuiescent(Surfaced(error, command, source)) == OwnerQuiescent(error)
      <==> !(command.Install? && source.Official?) || OwnerQuiescent(error)
  {
  }

  lemma OfficialInstallHidesLiveOwner()
    ensures !OwnerQuiescent(CommandFailure(false))
    ensures OwnerQuiescent(Surfaced(CommandFailure(false), Install, Official))
  {
  }

  datatype Token = Token(id: Id, cancelled: bool)

  /** The background task of one operation. */
  datatype Worker =
    | Working
    | Commanding(command: Command)
    | Failing(error: IoError)
    | Closing
  {
    /** The task may still run commands, or may have left processes it knows about. */
    predicate Active() {
      Working? || Commanding? || (Failing? && !OwnerQuiescent(error))
    }
  }

  /** What the ownership argument needs of the disk and of the Agent's memory. */
  datatype View = View(
    operation: Option<Operation>, publishing: Option<Id>, leases: set<Id>, misread: set<Id>,
    ownerActive: bool, cancellation: Option<Token>, workers: map<Id, Worker>,
    used: set<Id>, lastBegun: Option<Id>, beaten: set<Id>, beatenNow: set<Id>)
  {
    predicate Records(id: Id) {
      operation.Some? && operation.value.id == id
    }

    /** The record announces a finished publication. */
    predicate Claims() {
      operation.Some? && (operation.value.phase.Prepared? || operation.value.phase.Succeeded?)
    }

    /** No process is alive but those that were reported as gone. */
    predicate Quiet() {
      leases <= misread
    }

    /** A failure of this command would hide the processes it leaves. */
    predicate Hides(id: Id) {
      && id in leases && id in workers && workers[id] == Commanding(Install)
      && operation.Some? && operation.value.source.Official?
    }

    /** The record on disk, and the intent beside it. */
    ghost predicate RecordOk() {
      && (if operation.None? then Quiet() else
            var op := operation.value;
            && op.id in used
            && (op.phase.IsTerminal() && !op.ownerQuiescent ==> op.cleanupPending)
            && (op.ownerQuiescent || op.phase.AwaitingConfirmation? ==> Quiet())
            && (op.id in beaten ==> !op.phase.Prepared? && !op.phase.Succeeded?)
            && (op.id in beatenNow && op.phase.IsTerminal() ==> op.phase.Cancelled?))
      && (publishing.Some? ==> Records(publishing.value) && publishing.value !in beaten && Quiet())
      && (forall l <- leases :: l in misread || Records(l))
      && misread <= leases <= used
      && beatenNow <= beaten <= used
    }

    /** At most one operation of this lifetime is owned, and a released one is settled. */
    ghost predicate OwnerOk() {
      && (lastBegun.Some? ==> lastBegun.value in used)
      && (ownerActive ==> lastBegun.Some? && Records(lastBegun.value))
      && (!ownerActive && lastBegun.Some? && Records(lastBegun.value) ==> operation.value.Settled())
      && (operation.Some? && operation.value.id in beatenNow ==> lastBegun == Some(operation.value.id))
    }

    ghost predicate WorkerOk(id: Id, worker: Worker) {
      && id in used
      // An active task owns the record: it is running, unpublished, and holds the current token.
      && (worker.Active() ==>
            && ownerActive && Records(id) && publishing.None? && operation.value.Running()
            && cancellation.Some? && cancellation.value.id == id
            && id !in misread
            && (id in beaten ==> id in beatenNow && cancellation.value.cancelled))
      && (worker.Working? || (Records(id) && worker.Failing? && !worker.Active()) ==> Quiet())
      && (id in beatenNow && !worker.Closing? ==>
            ownerActive && Records(id) && operation.value.phase.Cancelling?)
    }

    ghost predicate Consistent() {
      RecordOk() && OwnerOk() && forall id <- workers :: WorkerOk(id, workers[id])
    }
  }

  /** Over a settled predecessor a new record is consistent, with and without its owner. */
  lemma BeginningKeeps(v: View, op: Operation)
    requires v.Consistent() && v.publishing.None? && !v.ownerActive && op.id !in v.used
    requires v.operation.Some? ==> v.operation.value.phase.IsTerminal() && !v.operation.value.cleanupPending
    requires op.phase.Queued? && !op.ownerQuiescent && !op.cleanupPending
    ensures v.Quiet()
    ensures var w := v.(used := v.used + {op.id});
      && w.Consistent()
      && w.(operation := Some(op)).Consistent()
      && w.(operation := Some(op), ownerActive := true, cancellation := Some(Token(op.id, false)),
            lastBegun := Some(op.id), workers := v.workers[op.id := Working]).Consistent()
  {
  }

  /** A running record may become Cancelling; without a publication it is beaten then. */
  lemma CancellingKeeps(v: View, beat: bool)
    requires v.Consistent() && v.operation.Some? && (beat ==> v.publishing.None?)
    requires !v.operation.value.phase.IsTerminal() && !v.operation.value.phase.AwaitingConfirmation?
    requires v.cancellation.Some? && v.cancellation.value.id == v.operation.value.id ==> v.cancellation.value.cancelled
    ensures var id := v.operation.value.id;
      v.(operation := Some(v.operation.value.(phase := Cancelling)),
         beaten := if beat then v.beaten + {id} else v.beaten,
         beatenNow := if beat && v.lastBegun == Some(id) then v.beatenNow + {id} else v.beatenNow).Consistent()
  {
  }

  /** What is left of a command that ended, by the state its task enters. */
  lemma CommandEndKeeps(v: View, id: Id, next: Worker, hidden: bool)
    requires v.Consistent() && id in v.workers && v.workers[id].Commanding?
    requires next.Working? || next.Failing?
    requires hidden ==> next.Failing? && !next.Active()
    ensures v.(leases := if hidden || (next.Failing? && next.Active()) then v.leases else v.leases - {id},
               misread := if hidden then v.misread + v.leases * {id} else v.misread,
               workers := v.workers[id := next]).Consistent()
  {
  }

  /** The final record of a publication may stand beside its intent and without it. */
  lemma FinishingKeeps(v: View, settled: Operation)
    requires v.Consistent() && v.publishing == Some(settled.id)
    requires settled.ownerQuiescent && !settled.cleanupPending && settled.phase.IsTerminal()
    ensures v.(operation := Some(settled)).Consistent()
    ensures v.(operation := Some(settled), publishing := None).Consistent()
  {
  }

  lemma FailingKeeps(v: View, id: Id)
    requires v.Consistent() && id in v.workers && v.workers[id].Working?
    ensures v.(workers := v.workers[id := Failing(Plain)]).Consistent()
  {
  }

  /** A publishing section of an operation nobody cancelled may end in any of its states. */
  lemma PublishingKeeps(v: View, id: Id, op: Operation, publishing: Option<Id>, done: bool)
    requires v.Consistent() && id in v.workers && v.workers[id].Working? && !v.cancellation.value.cancelled
    requires op.id == id && (op.Running() || op == op.Finished(Prepared))
    requires publishing.Some? ==> publishing.value == id
    requires done ==> op.phase.Prepared? && publishing.None?
    ensures v.(operation := Some(op), publishing := publishing,
               workers := v.workers[id := if done then Closing else Failing(Plain)]).Consistent()
  {
  }

  /** What a failing task leaves: a cancelled record ends Cancelled, every other one Failed. */
  function FailedRecord(op: Operation, ownerQuiescent: bool): Operation {
    op.(phase := if op.phase.Cancelling? then Cancelled else Phase.Failed,
        ownerQuiescent := ownerQuiescent, cleanupPending := true)
  }

  /** A finished task may record its failure once nothing of it is alive. */
  lemma FailureKeeps(v: View, pending: bool)
    requires v.Consistent() && v.Quiet() && v.operation.Some?
    requires v.operation.value.id in v.workers && v.workers[v.operation.value.id].Closing?
    requires v.operation.value.id in v.beatenNow ==> v.operation.value.phase.Cancelling?
    ensures v.(operation := Some(FailedRecord(v.operation.value, true).(cleanupPending := pending))).Consistent()
  {
  }

  /** A task may also stop with its failure only noted, or not even that. */
  lemma PostponingKeeps(v: View, id: Id)
    requires v.Consistent() && id in v.workers && v.workers[id].Failing?
    ensures var w := v.(workers := v.workers[id := Closing]);
      && w.Consistent()
      && (v.Records(id) ==>
            w.(operation := Some(FailedRecord(v.operation.value, OwnerQuiescent(v.workers[id].error)))).Consistent())
  {
  }

  lemma ProcessesGone(v: View)
    requires v.Consistent()
    ensures v.(leases := {}, misread := {}).Consistent()
  {
  }

  lemma ReleasingKeeps(v: View)
    requires v.Consistent() && v.operation.Some? && v.operation.value.phase.IsTerminal() && v.operation.value.ownerQuiescent
    ensures v.(ownerActive := false).Consistent()
  {
  }

  /** With nothing alive a terminal record may be marked clean. */
  lemma CleaningKeeps(v: View, pending: bool)
    requires v.Consistent() && v.Quiet() && v.operation.Some? && v.operation.value.phase.IsTerminal()
    ensures
      var op := v.operation.value.(ownerQuiescent := true, cleanupPending := pending);
      v.(operation := Some(op)).Consistent()
  {
  }

  /** One moment of a run: the ownership view, the files, the published tuple with the tuple it
      started from, the intent on disk, and the state of the machine. */
  datatype Moment = Moment(
    view: View, candidates: set<Id>, tuple: Tuple, base: Tuple, intent: Option<Intent>, crashed: bool, faults: nat)
  {
    /** The stores hold the whole `base`, or lie between it and the target of the intent. A
        publication the user chose to keep as it is has left both. */
    ghost predicate Whole() {
      match intent
      case None => tuple == base
      case Some(i) => i.preserveCurrent || (i.TakenFrom(base) && i.Between(base, tuple))
    }

    /** The user chose to end the pending publication by keeping what is there. */
    predicate Kept() {
      intent.Some? && intent.value.preserveCurrent
    }

    /** `later` records a success that was not recorded before. */
    predicate NewClaim(later: Moment) {
      later.view.Claims() && !(view.Claims() && view.operation.value.id == later.view.operation.value.id)
    }

    /** The success `later` records was decided, and its whole target is on disk. */
    ghost predicate Earned(later: Moment) {
      match later.intent
      case Some(i) => i.committed && !i.preserveCurrent && later.tuple == i.Target(later.base)
      case None => intent.Some? && intent.value.committed && !intent.value.preserveCurrent && later.base == intent.value.Target(base)
    }

    /** Files owned by installations are gone or replaced in `later`. */
    predicate Loses(later: Moment) {
      || !(candidates <= later.candidates)
      || tuple.slots != later.tuple.slots || tuple.runtimes != later.tuple.runtimes
      || tuple.environments != later.tuple.environments
    }
  }

  /** The tuple a finished recovery of `i` leaves: kept, or the side its committed bit names. */
  ghost predicate Replayed(i: Intent, base: Tuple, now: Tuple, after: Tuple) {
    after == if i.preserveCurrent then now.(update := after.update) else i.Final(base)
  }

  /** A publication that was decided, and is complete whether or not its intent is still there. */
  ghost predicate Won(i: Option<Intent>, base: Tuple, after: Tuple, left: Option<Intent>) {
    && i.Some? && i.value.committed && !i.value.preserveCurrent
    && after == i.value.Target(base) && (left == i || left.None?)
  }

  /** One move of any party. */
  datatype Step =
    | DoBegin(id: Id, tag: string, source: RuntimeSource, releaseId: Id, startedAt: nat)
    | DoRelease(id: Id)
    | DoUpdate(id: Id, phase: Phase)
    | DoAbort(id: Id)
    | DoStart(id: Id, command: Command)
    | DoEnd(id: Id, succeeded: bool, survivors: bool)
    | DoPublish(id: Id, reuse: bool)
    | DoSettle(id: Id, updaterBusy: bool)
    | DoSignal(id: Id)
    | DoCancel(id: Id)
    | DoClear(id: Id)
    | DoMaintenance
    | DoRecover
    | DoExplicit(id: Id, preserve: bool)
    | DoExit(id: Id)
    | DoRestart

  /** A party can make this move now. */
  predicate Enabled(step: Step, used: set<Id>, workers: map<Id, Worker>, ownerActive: bool) {
    match step
    case DoBegin(id, _, _, _, _) => id !in used
    case DoRelease(id) => id in workers && workers[id].Closing?
    case DoUpdate(id, phase) =>
      id in workers && workers[id].Working? && !phase.IsTerminal() && !phase.AwaitingConfirmation? && !phase.Cancelling?
    case DoAbort(id) => id in workers && workers[id].Working?
    case DoStart(id, _) => id in workers && workers[id].Working?
    case DoEnd(id, _, _) => id in workers && workers[id].Commanding?
    case DoPublish(id, _) => id in workers && workers[id].Working?
    case DoSettle(id, _) => id in workers && workers[id].Failing?
    case DoRecover => !ownerActive
    case _ => true
  }

  class Coordinator {
    const store: Store
    // Processes started for an operation that are still alive; they outlive the Agent.
    var leases: set<Id>
    // Volatile.
    var ownerActive: bool
    var cancellation: Option<Token>
    var workers: map<Id, Worker>
    // Every id ever given out: ids come from a clock and are never reused.
    var used: set<Id>
    // History.
    ghost var lastBegun: Option<Id>     // the last operation admitted in this Agent lifetime
    ghost var beaten: set<Id>           // cancelled while no intent was on disk
    ghost var beatenNow: set<Id>        // those of them begun in this lifetime
    ghost var misread: set<Id>          // live processes that were reported as gone
    ghost var base: Tuple               // the last tuple that was published as a whole

    ghost predicate NoLiveOwner()
      reads this
    {
      leases <= misread
    }

    ghost function Shown(): View
      reads this, store
    {
      View(store.operation, if store.intent.Some? then Some(store.intent.value.operation.id) else None, leases, misread,
        ownerActive, cancellation, workers, used, lastBegun, beaten, beatenNow)
    }

    ghost function Here(): Moment
      reads this, store, store.device
    {
      Moment(Shown(), store.candidates, store.Now(), base, store.intent, store.device.crashed, store.device.faults)
    }

    ghost predicate Whole()
      reads this`base, store`config, store`pointers, store`profiles, store`update, store`slots, store`runtimes,
            store`environments, store`intent
    {
      if store.intent.None? then store.Now() == base else store.intent.value.preserveCurrent || store.Pending(base)
    }

    ghost predicate Inv()
      reads this, store
    {
      Shown().Consistent() && Whole()
    }

    constructor (store: Store)
      requires store.operation.None? && store.intent.None?
      ensures this.store == store && Inv() && misread == {} && leases == {} && used == {} && !ownerActive && workers == map[]
    {
      this.store := store;
      leases, ownerActive, cancellation, workers := {}, false, None, map[];
      used, lastBegun, beaten, beatenNow, misread := {}, None, {}, {}, {};
      base := store.Now();
    }

    // ----- admission and release -----

    method Begin(id: Id, tag: string, source: RuntimeSource, releaseId: Id, startedAt: nat) returns (ok: bool)
      requires Inv() && id !in used
      modifies this`used, this`ownerActive, this`cancellation, this`workers, this`lastBegun,
               store`operation, store.device
      ensures Inv()
      ensures old(store.device.faults) <= store.device.faults
      // Admission needs the previous operation to be over, with no process and no publication left.
      ensures ok ==>
        && !old(ownerActive) && store.intent.None? && old(NoLiveOwner())
        && (old(store.operation).Some? ==> old(store.operation).value.Settled() && old(store.operation).value.phase.IsTerminal())
        && ownerActive && lastBegun == Some(id) && cancellation == Some(Token(id, false))
        && workers == old(workers)[id := Working]
        && store.operation == Some(Operation(id, tag, source, releaseId, startedAt, Queued, false, false))
      ensures !ok ==> ownerActive == old(ownerActive) && lastBegun == old(lastBegun) && workers == old(workers)
      ensures !ok && store.device.faults == old(store.device.faults) ==>
        || ownerActive || store.intent.Some?
        || (old(store.operation).Some?
            && (old(store.operation).value.cleanupPending || !old(store.operation).value.phase.IsTerminal()))
      ensures store.operation == old(store.operation)
        || store.operation == Some(Operation(id, tag, source, releaseId, startedAt, Queued, false, false))
    {
      ok := store.device.Attempt();
      ok := ok && store.intent.None? && !ownerActive
        && (store.operation.Some? ==> !store.operation.value.cleanupPending && store.operation.value.phase.IsTerminal());
      if ok {
        ok := Admit(Operation(id, tag, source, releaseId, startedAt, Queued, false, false));
      }
    }

    method Admit(op: Operation) returns (ok: bool)
      requires Shown().Consistent() && op.id !in used && store.intent.None? && !ownerActive
      requires store.operation.Some? ==> store.operation.value.phase.IsTerminal() && !store.operation.value.cleanupPending
      requires op.phase.Queued? && !op.ownerQuiescent && !op.cleanupPending
      modifies this`used, this`ownerActive, this`cancellation, this`workers, this`lastBegun,
               store`operation, store.device
      ensures Shown().Consistent() && NoLiveOwner()
      ensures old(store.device.faults) <= store.device.faults
      ensures ok ==> ownerActive && lastBegun == Some(op.id) && cancellation == Some(Token(op.id, false))
                     && workers == old(workers)[op.id := Working] && store.operation == Some(op)
      ensures !ok ==> ownerActive == old(ownerActive) && lastBegun == old(lastBegun) && workers == old(workers)
      ensures ok || store.device.faults > old(store.device.faults)
      ensures store.operation == old(store.operation) || store.operation == Some(op)
    {
      BeginningKeeps(Shown(), op);
      used := used + {op.id};
      ok := store.WriteOperation(op);
      if ok {
        cancellation, ownerActive, lastBegun := Some(Token(op.id, false)), true, Some(op.id);
        workers := workers[op.id := Working];
      }
    }

    /** The last act of a background task. It releases the owner only if the record is still
        its own, so a late completion never frees a successor. */
    method ReleaseSettledOwner(id: Id)
      requires Inv() && id in workers && workers[id].Closing?
      modifies this`ownerActive, this`workers, store.device
      ensures Inv()
      ensures old(store.device.faults) <= store.device.faults
      // Only the owner of this record is released ...
      ensures ownerActive == old(ownerActive) || (!ownerActive && lastBegun == Some(id) && store.operation.value.Settled())
      // ... and it is, once its record says that nothing of it is left to wait for.
      ensures Shown().Records(id) && store.operation.value.ownerQuiescent
              && (store.operation.value.phase.IsTerminal() || store.operation.value.phase.AwaitingConfirmation?)
              && store.device.faults == old(store.device.faults) ==>
        !ownerActive
      ensures workers == old(workers) - {id}
    {
      var readable := store.device.Attempt();
      if readable && store.operation.Some? && store.operation.value.id == id && store.operation.value.ownerQuiescent
         && (store.operation.value.phase.IsTerminal() || store.operation.value.phase.AwaitingConfirmation?) {
        ownerActive := false;
      }
      workers := workers - {id};
    }

    // ----- the background task -----

    /** Moves the record to the task's next phase, unless it is terminal or being cancelled. */
    method Update(id: Id, phase: Phase)
      requires Inv() && id in workers && workers[id].Working?
      requires !phase.IsTerminal() && !phase.AwaitingConfirmation? && !phase.Cancelling?
      modifies this`workers, store`operation, store.device
      ensures Inv()
      ensures old(store.device.faults) <= store.device.faults
      ensures old(store.operation).value.phase.Cancelling? ==>
        store.operation == old(store.operation) && workers == old(workers)[id := Failing(Plain)]
      ensures store.operation == old(store.operation) || store.operation == Some(old(store.operation).value.(phase := phase))
      ensures workers == old(workers) || workers == old(workers)[id := Failing(Plain)]
      ensures !old(store.operation).value.phase.Cancelling? && store.device.faults == old(store.device.faults) ==>
        store.operation == Some(old(store.operation).value.(phase := phase)) && workers == old(workers)
      ensures workers == old(workers) ==> store.operation == Some(old(store.operation).value.(phase := phase))
    {
      var ok := store.device.Attempt();
      var op := store.operation.value;
      ok := ok && !op.phase.Cancelling?;
      if ok {
        ok := store.WriteOperation(op.(phase := phase));
      }
      if !ok {
        workers := workers[id := Failing(Plain)];
      }
    }

    /** Any other error of the task. */
    method Abort(id: Id)
      requires Inv() && id in workers && workers[id].Working?
      modifies this`workers
      ensures Inv()
      ensures workers == old(workers)[id := Failing(Plain)]
    {
      workers := workers[id := Failing(Plain)];
    }

    /** A clone refuses a candidate that exists; from its start on the directory may appear. */
    method StartCommand(id: Id, command: Command)
      requires Inv() && id in workers && workers[id].Working?
      modifies this`workers, this`leases, store`candidates
      ensures Inv()
      ensures store.candidates == old(store.candidates) || (command.Clone? && store.candidates == old(store.candidates) + {id})
      ensures !cancellation.value.cancelled && !(command.Clone? && id in old(store.candidates)) ==>
        workers == old(workers)[id := Commanding(command)] && leases == old(leases) + {id}
      ensures cancellation.value.cancelled || (command.Clone? && id in old(store.candidates)) ==>
        leases == old(leases) && workers == old(workers)[id := Failing(Plain)] && store.candidates == old(store.candidates)
    {
      if cancellation.value.cancelled || (command.Clone? && id in store.candidates) {
        workers := workers[id := Failing(Plain)];
      } else {
        leases := leases + {id};
        workers := workers[id := Commanding(command)];
        var early: bool := *;
        if command.Clone? && early {
          store.candidates := store.candidates + {id};
        }
      }
    }

    /** A command that fails may leave processes behind; its error says so until it is reworded. */
    method EndCommand(id: Id, succeeded: bool, survivors: bool)
      requires Inv() && id in workers && workers[id].Commanding?
      modifies this`workers, this`leases, this`misread, store`candidates
      ensures Inv()
      ensures misread == old(misread) + if !succeeded && survivors && old(Shown()).Hides(id) then {id} else {}
      ensures leases == if !succeeded && survivors then old(leases) else old(leases) - {id}
      ensures store.candidates == old(store.candidates) + if succeeded && old(workers[id].command).Clone? then {id} else {}
      ensures workers == old(workers)[id := if succeeded then Working
        else Failing(Surfaced(CommandFailure(!survivors), old(workers[id]).command, store.operation.value.source))]
    {
      ghost var before := Shown();
      if succeeded {
        CommandEndKeeps(before, id, Working, false);
        leases := leases - {id};
        if workers[id].command.Clone? {
          store.candidates := store.candidates + {id};
        }
        workers := workers[id := Working];
      } else {
        if !survivors {
          leases := leases - {id};
        }
        var error := Surfaced(CommandFailure(!survivors), workers[id].command, store.operation.value.source);
        CommandEndKeeps(before, id, Failing(error), survivors && OwnerQuiescent(error));
        if survivors && OwnerQuiescent(error) {
          misread := misread + leases * {id};
        }
        workers := workers[id := Failing(error)];
      }
    }

    /** What a publication needs: the tag installed, or its candidate built and the slot free. */
    predicate CanPublish(op: Operation, reuse: bool)
      reads store
    {
      if reuse then exists release <- store.slots :: store.slots[release] == Ready(op.tag)
      else op.releaseId !in store.slots && op.id in store.candidates
    }

    method PublishSlot(op: Operation, reuse: bool) returns (ok: bool)
      requires store.intent.None? && store.Now() == base
      modifies this`base, store, store.device
      ensures old(store.device.faults) <= store.device.faults
      ensures store.operation == old(store.operation)
        || (store.operation.Some? && store.operation.value == op.(releaseId := store.operation.value.releaseId).Finished(Prepared))
      ensures store.intent.Some? ==> store.intent.value.operation.id == op.id
      ensures ok ==>
        && store.intent.None? && store.operation.Some?
        && store.operation.value == op.(releaseId := store.operation.value.releaseId).Finished(Prepared)
      ensures ok || store.device.faults > old(store.device.faults) || !old(CanPublish(op, reuse))
      ensures Whole() && (base == old(base) || Published(op, reuse, old(base), base))
      ensures ok ==> Published(op, reuse, old(base), base)
      ensures Shown().Claims() && store.operation != old(store.operation) ==>
        if store.intent.None? then Published(op, reuse, old(base), base)
        else store.intent.value.committed && !store.intent.value.preserveCurrent && store.Now() == store.intent.value.Target(base)
    {
      var outcome;
      ghost var goal;
      if reuse {
        outcome, goal := store.ReusePrepared(op);
      } else {
        outcome, goal := store.PrepareRepairSlot(op);
      }
      ok := outcome.Done?;
      if store.intent.None? {
        base := store.Now();
      }
      assert base != old(base) || ok ==> store.Aims(if reuse then Reuse else RepairSlot, op, old(base), goal);
    }

    /** The end of a build, under the gate. */
    method RegisterAndPublish(op: Operation) returns (ok: bool)
      requires store.operation == Some(op) && store.intent.None? && store.Now() == base
      modifies this`base, store, store.device
      ensures old(store.device.faults) <= store.device.faults
      ensures store.operation.Some?
      ensures store.operation.value == op || store.operation.value == op.(phase := Registering)
        || store.operation.value == op.(releaseId := store.operation.value.releaseId).Finished(Prepared)
      ensures store.intent.Some? ==> store.intent.value.operation.id == op.id
      ensures ok ==> store.intent.None? && store.operation == Some(op.(releaseId := store.operation.value.releaseId).Finished(Prepared))
      ensures ok || store.device.faults > old(store.device.faults) || !old(CanPublish(op, false))
      ensures Whole() && (base == old(base) || Published(op, false, old(base), base))
      ensures ok ==> Published(op, false, old(base), base)
      ensures Shown().Claims() && store.operation != old(store.operation) ==>
        if store.intent.None? then Published(op, false, old(base), base)
        else store.intent.value.committed && !store.intent.value.preserveCurrent && store.Now() == store.intent.value.Target(base)
    {
      var registering := op.(phase := Registering);
      ok := store.WriteOperation(registering);
      if ok {
        ok := PublishSlot(registering, false);
        PhaseIsNoAim(op, Registering, old(base), base);
      }
    }

    lemma PhaseIsNoAim(op: Operation, phase: Phase, before: Tuple, after: Tuple)
      ensures Published(op.(phase := phase), false, before, after) ==> Published(op, false, before, after)
    {
      if goal :| store.Aims(RepairSlot, op.(phase := phase), before, goal) && after == goal.Target(before) {
        assert store.Aims(RepairSlot, op, before, goal);
      }
    }

    /** `after` is the whole tuple this publication aims at. */
    ghost predicate Published(op: Operation, reuse: bool, before: Tuple, after: Tuple) {
      exists goal :: store.Aims(if reuse then Reuse else RepairSlot, op, before, goal) && after == goal.Target(before)
    }

    /** The publishing section of a freshly built tag. */
    method PublishBuilt(id: Id)
      requires Inv() && id in workers && workers[id].Working?
      modifies this`workers, this`base, store, store.device
      ensures Inv()
      ensures old(store.device.faults) <= store.device.faults
      ensures base == old(base) || Published(old(store.operation).value, false, old(base), base)
      ensures old(cancellation).value.cancelled || !old(store.operation).value.phase.Verifying? || id in beaten ==>
        store.Now() == old(store.Now()) && store.operation == old(store.operation) && store.intent.None?
      ensures id in workers && (workers[id].Closing? ==>
        store.operation.Some? && store.intent.None? && Published(old(store.operation).value, false, old(base), base)
        && store.operation.value.id == id && store.operation.value.phase.Prepared? && store.operation.value.ownerQuiescent
        && !store.operation.value.cleanupPending)
      ensures old(!cancellation.value.cancelled && store.operation.value.phase.Verifying? && !store.operation.value.cleanupPending) ==>
        workers[id].Closing? || store.device.faults > old(store.device.faults) || !old(CanPublish(store.operation.value, false))
      ensures Shown().Claims() ==>
        if store.intent.None? then Published(old(store.operation).value, false, old(base), base)
        else store.intent.value.committed && !store.intent.value.preserveCurrent && store.Now() == store.intent.value.Target(base)
      ensures workers == old(workers)[id := Closing] || workers == old(workers)[id := Failing(Plain)]
    {
      var ok := store.device.Attempt();
      var op := store.operation.value;
      ghost var before := Shown();
      ok := ok && !cancellation.value.cancelled && op.phase.Verifying? && !op.cleanupPending;
      if ok {
        ok := RegisterAndPublish(op);
      }
      if !before.cancellation.value.cancelled && op.phase.Verifying? {
        PublishingKeeps(before, id, store.operation.value, Shown().publishing, ok);
      } else {
        FailingKeeps(before, id);
      }
      workers := workers[id := if ok then Closing else Failing(Plain)];
    }

    /** The publishing section when the tag is already installed. */
    method PublishReused(id: Id)
      requires Inv() && id in workers && workers[id].Working?
      modifies this`workers, this`base, store, store.device
      ensures Inv()
      ensures old(store.device.faults) <= store.device.faults
      ensures base == old(base) || Published(old(store.operation).value, true, old(base), base)
      ensures old(cancellation).value.cancelled || id in beaten ==>
        store.Now() == old(store.Now()) && store.operation == old(store.operation) && store.intent.None?
      ensures id in workers && (workers[id].Closing? ==>
        store.operation.Some? && store.intent.None? && Published(old(store.operation).value, true, old(base), base)
        && store.operation.value.id == id && store.operation.value.phase.Prepared? && store.operation.value.ownerQuiescent
        && !store.operation.value.cleanupPending)
      ensures old(!cancellation.value.cancelled) ==>
        workers[id].Closing? || store.device.faults > old(store.device.faults) || !old(CanPublish(store.operation.value, true))
      ensures Shown().Claims() ==>
        if store.intent.None? then Published(old(store.operation).value, true, old(base), base)
        else store.intent.value.committed && !store.intent.value.preserveCurrent && store.Now() == store.intent.value.Target(base)
      ensures workers == old(workers)[id := Closing] || workers == old(workers)[id := Failing(Plain)]
    {
      var ok := store.device.Attempt();
      ghost var before := Shown();
      ok := ok && !cancellation.value.cancelled;
      if ok {
        ok := PublishSlot(store.operation.value, true);
      }
      if !before.cancellation.value.cancelled {
        PublishingKeeps(before, id, store.operation.value, Shown().publishing, ok);
      } else {
        FailingKeeps(before, id);
      }
      workers := workers[id := if ok then Closing else Failing(Plain)];
    }

    // ----- failure -----

    method WriteFailurePending(id: Id, ownerQuiescent: bool)
      modifies store`operation, store.device
      ensures store.operation == old(store.operation)
        || (old(Shown()).Records(id) && store.operation == Some(FailedRecord(old(store.operation).value, ownerQuiescent)))
      ensures old(Shown()).Records(id) && store.device.faults == old(store.device.faults) ==>
        store.operation == Some(FailedRecord(old(store.operation).value, ownerQuiescent))
      ensures old(store.device.faults) <= store.device.faults
    {
      var ok := store.device.Attempt();
      if ok && store.operation.Some? && store.operation.value.id == id {
        var _ := store.WriteOperation(FailedRecord(store.operation.value, ownerQuiescent));
      }
    }

    /** Deletion happens only where nothing is known to be running. */
    method DeleteCandidate(id: Id) returns (ok: bool)
      requires NoLiveOwner()
      modifies store`candidates, store.device
      ensures store.candidates == old(store.candidates) || store.candidates == old(store.candidates) - {id}
      ensures ok ==> id !in store.candidates
      ensures !ok ==> store.device.faults > old(store.device.faults)
      ensures old(store.device.faults) <= store.device.faults
    {
      ok := store.CleanupCandidate(id);
    }

    method SettleFailure(id: Id, updaterBusy: bool)
      requires Inv() && id in workers && workers[id].Failing?
      modifies this`workers, this`base, store, store.device
      ensures Inv()
      ensures old(Here()).Loses(Here()) ==> NoLiveOwner()
      ensures base == old(base) || (old(store.intent).Some? && store.intent.None?
        && Replayed(old(store.intent).value, old(base), old(store.Now()), base))
      ensures old(store.device.faults) <= store.device.faults
      ensures workers == old(workers)[id := Closing]
      // An unquiescent failure keeps every file.
      ensures !OwnerQuiescent(old(workers[id]).error) ==>
        store.Now() == old(store.Now()) && store.candidates == old(store.candidates) && store.intent == old(store.intent)
      // A quiescent one without a publication loses its candidate and reads Cancelled or Failed ...
      ensures OwnerQuiescent(old(workers[id]).error) && old(store.intent).None? && old(Shown()).Records(id)
              && !updaterBusy && store.device.faults == old(store.device.faults) ==>
        && id !in store.candidates
        && store.operation == Some(old(store.operation).value.(
             phase := if old(store.operation).value.phase.Cancelling? then Cancelled else Phase.Failed,
             ownerQuiescent := true, cleanupPending := false))
      // ... one with a publication ends on the side its committed bit names ...
      ensures OwnerQuiescent(old(workers[id]).error) && !updaterBusy && old(store.intent).Some?
              && !old(store.intent).value.preserveCurrent && store.device.faults == old(store.device.faults) ==>
        && store.intent.None? && Shown().Records(old(store.intent).value.operation.id)
        && store.operation.value.ownerQuiescent && !store.operation.value.cleanupPending
        && store.operation.value.phase == (
             if !old(store.intent).value.committed then Phase.Failed
             else if old(store.intent).value.prepareOnly then Prepared else Succeeded)
        && base == if old(store.intent).value.committed then old(store.intent).value.Target(old(base)) else old(base)
      // ... and every other one is noted for a later cleanup.
      ensures (updaterBusy || !OwnerQuiescent(old(workers[id]).error)) && old(Shown()).Records(id)
              && store.device.faults == old(store.device.faults) ==>
        store.operation == Some(old(store.operation).value.(
          phase := if old(store.operation).value.phase.Cancelling? then Cancelled else Phase.Failed,
          ownerQuiescent := OwnerQuiescent(old(workers[id]).error), cleanupPending := true))
      ensures updaterBusy ==> store.Now() == old(store.Now()) && store.candidates == old(store.candidates) && store.intent == old(store.intent)
      ensures Shown().Claims() && store.operation != old(store.operation) ==>
        Won(old(store.intent), old(base), store.Now(), store.intent)
      ensures old(store.intent).None? ==> store.intent.None?
    {
      var quiescent := OwnerQuiescent(workers[id].error);
      if updaterBusy || !quiescent {
        PostponeFailure(id, quiescent);
      } else {
        workers := workers[id := Closing];
        SettleQuiescent(id);
      }
    }

    method PostponeFailure(id: Id, quiescent: bool)
      requires Shown().Consistent() && id in workers && workers[id].Failing? && quiescent == OwnerQuiescent(workers[id].error)
      modifies this`workers, store`operation, store.device
      ensures Shown().Consistent() && workers == old(workers)[id := Closing]
      ensures old(store.device.faults) <= store.device.faults
      ensures old(Shown()).Records(id) && store.device.faults == old(store.device.faults) ==>
        store.operation == Some(FailedRecord(old(store.operation).value, quiescent))
      ensures Shown().Claims() ==> store.operation == old(store.operation)
    {
      PostponingKeeps(Shown(), id);
      workers := workers[id := Closing];
      WriteFailurePending(id, quiescent);
    }

    method SettleQuiescent(id: Id)
      requires Inv() && id in workers && workers[id].Closing?
      requires Shown().Records(id) || store.intent.Some? ==> NoLiveOwner()
      requires id in beatenNow ==> Shown().Records(id) && store.operation.value.phase.Cancelling? && store.intent.None?
      modifies this`base, store, store.device
      ensures Inv()
      ensures old(Here()).Loses(Here()) ==> NoLiveOwner()
      ensures base == old(base) || (old(store.intent).Some? && store.intent.None?
        && Replayed(old(store.intent).value, old(base), old(store.Now()), base))
      ensures old(store.device.faults) <= store.device.faults
      ensures old(store.intent).None? && old(Shown()).Records(id) && store.device.faults == old(store.device.faults) ==>
        id !in store.candidates
        && store.operation == Some(FailedRecord(old(store.operation).value, true).(cleanupPending := false))
      ensures Shown().Claims() && store.operation != old(store.operation) ==>
        Won(old(store.intent), old(base), store.Now(), store.intent)
      ensures old(store.intent).Some? && !old(store.intent).value.preserveCurrent && store.device.faults == old(store.device.faults) ==>
        && store.intent.None? && Shown().Records(old(store.intent).value.operation.id)
        && store.operation.value.ownerQuiescent && !store.operation.value.cleanupPending
        && store.operation.value.phase == (
             if !old(store.intent).value.committed then Phase.Failed
             else if old(store.intent).value.prepareOnly then Prepared else Succeeded)
        && base == if old(store.intent).value.committed then old(store.intent).value.Target(old(base)) else old(base)
      ensures old(store.intent).None? ==> store.intent.None?
    {
      var over := SettlePublication(id);
      if !over {
        FailOwnRecord(id);
      }
    }

    /** Replays a publication the task left; `over` when nothing remains to be recorded. */
    method SettlePublication(id: Id) returns (over: bool)
      requires Inv() && id in workers && workers[id].Closing?
      requires Shown().Records(id) || store.intent.Some? ==> NoLiveOwner()
      requires id in beatenNow ==> Shown().Records(id) && store.operation.value.phase.Cancelling? && store.intent.None?
      modifies this`base, store, store.device
      ensures Inv()
      ensures old(Here()).Loses(Here()) ==> NoLiveOwner()
      ensures base == old(base) || (old(store.intent).Some? && store.intent.None?
        && Replayed(old(store.intent).value, old(base), old(store.Now()), base))
      ensures old(store.device.faults) <= store.device.faults
      ensures Shown().Records(id) == old(Shown()).Records(id)
      ensures !over && id in beatenNow ==> store.operation == old(store.operation)
      ensures old(store.intent).None? ==> store.intent.None?
      ensures old(store.intent).None? && store.device.faults == old(store.device.faults) ==> !over && store.operation == old(store.operation)
      ensures Shown().Claims() && store.operation != old(store.operation) ==>
        Won(old(store.intent), old(base), store.Now(), store.intent)
      ensures old(store.intent).Some? && !old(store.intent).value.preserveCurrent && store.device.faults == old(store.device.faults) ==>
        && store.intent.None? && store.operation == Some(old(store.intent).value.Result())
        && over == old(store.intent).value.committed && base == old(store.intent).value.Final(old(base))
      // A replay that cannot finish is noted for a later recovery.
      ensures over && !Shown().Claims() && old(Shown()).Records(id) && store.device.faults == old(store.device.faults) + 1
              && !old(store.intent.Some? && store.intent.value.preserveCurrent) ==>
        store.operation.value.phase.IsTerminal() && store.operation.value.ownerQuiescent && store.operation.value.cleanupPending
    {
      var ok;
      ok, over := ReplayLeft(id);
      if !ok {
        RecordPending(id);
      }
    }

    method ReplayLeft(id: Id) returns (ok: bool, over: bool)
      requires Inv() && id in workers && workers[id].Closing?
      requires Shown().Records(id) || store.intent.Some? ==> NoLiveOwner()
      requires id in beatenNow ==> Shown().Records(id) && store.operation.value.phase.Cancelling? && store.intent.None?
      modifies this`base, store, store.device
      ensures Inv()
      ensures old(Here()).Loses(Here()) ==> NoLiveOwner()
      ensures base == old(base) || (old(store.intent).Some? && store.intent.None?
        && Replayed(old(store.intent).value, old(base), old(store.Now()), base))
      ensures old(store.device.faults) <= store.device.faults
      ensures Shown().Records(id) == old(Shown()).Records(id)
      ensures Shown().Records(id) ==> NoLiveOwner()
      ensures old(store.intent).None? ==> store.intent.None? && store.operation == old(store.operation)
      ensures !ok ==> over && (store.device.faults > old(store.device.faults) || old(store.intent.Some? && store.intent.value.preserveCurrent))
      ensures ok && old(store.intent).None? ==> !over
      ensures ok && old(store.intent).Some? ==>
        && store.intent.None? && store.operation == Some(old(store.intent).value.Result())
        && over == (store.operation.value.phase.Succeeded? || store.operation.value.phase.Prepared?)
      ensures ok && old(store.intent).Some? && !old(store.intent).value.preserveCurrent ==> base == old(store.intent).value.Final(old(base))
      ensures Shown().Claims() && store.operation != old(store.operation) ==>
        Won(old(store.intent), old(base), store.Now(), store.intent)
    {
      var outcome, settled := store.ReconcilePublication(base);
      ok, over := outcome.Done?, true;
      if ok && settled.Some? {
        ok := PublishSettled(settled.value);
        over := !ok || settled.value.phase.Succeeded? || settled.value.phase.Prepared?;
      } else if ok {
        over := false;
      }
    }

    method PublishSettled(settled: Operation) returns (ok: bool)
      requires Inv() && Shown().publishing == Some(settled.id)
      requires settled.ownerQuiescent && !settled.cleanupPending && settled.phase.IsTerminal()
      requires store.intent.value.preserveCurrent || store.Now() == store.intent.value.Final(base)
      modifies this`base, store`operation, store`intent, store.device
      ensures Inv() && Shown().Records(settled.id)
      ensures if store.intent.None? then base == store.Now() else base == old(base)
      ensures old(store.device.faults) <= store.device.faults
      ensures !ok ==> store.device.faults > old(store.device.faults)
      ensures store.operation == old(store.operation) || store.operation == Some(settled)
      ensures store.intent == old(store.intent) || store.intent.None?
      ensures ok ==> store.intent.None? && store.operation == Some(settled)
    {
      FinishingKeeps(Shown(), settled);
      ok := store.device.Attempt(); // publishing the selection to the running Agent
      if ok {
        ok := store.FinishPublication(settled);
      }
      if store.intent.None? {
        base := store.Now();
      }
    }

    method RecordPending(id: Id)
      requires Shown().Consistent() && id in workers && workers[id].Closing?
      requires Shown().Records(id) ==> NoLiveOwner()
      requires id in beatenNow && Shown().Records(id) ==> store.operation.value.phase.Cancelling?
      modifies store`operation, store.device
      ensures Shown().Consistent()
      ensures Shown().Records(id) == old(Shown()).Records(id)
      ensures old(store.device.faults) <= store.device.faults
      ensures Shown().Claims() ==> store.operation == old(store.operation)
      ensures old(Shown()).Records(id) && store.device.faults == old(store.device.faults) ==>
        store.operation == Some(FailedRecord(old(store.operation).value, true))
    {
      if Shown().Records(id) {
        FailureKeeps(Shown(), true);
      }
      WriteFailurePending(id, true);
    }

    method FailOwnRecord(id: Id)
      requires Shown().Consistent() && id in workers && workers[id].Closing?
      requires Shown().Records(id) ==> NoLiveOwner()
      requires id in beatenNow && Shown().Records(id) ==> store.operation.value.phase.Cancelling?
      modifies store`operation, store`candidates, store.device
      ensures Shown().Consistent()
      ensures store.candidates == old(store.candidates) || (NoLiveOwner() && store.candidates == old(store.candidates) - {id})
      ensures old(store.device.faults) <= store.device.faults
      ensures old(Shown()).Records(id) && store.device.faults == old(store.device.faults) ==>
        id !in store.candidates
        && store.operation == Some(FailedRecord(old(store.operation).value, true).(cleanupPending := false))
      ensures Shown().Claims() ==> store.operation == old(store.operation)
      ensures !old(Shown()).Records(id) ==> store.operation == old(store.operation)
      // The failure is on record before the candidate goes.
      ensures store.candidates != old(store.candidates) ==>
        store.operation.Some? && store.operation.value.(cleanupPending := true) == FailedRecord(old(store.operation).value, true)
    {
      var ok := store.device.Attempt();
      if !ok || store.operation.None? || store.operation.value.id != id {
        return;
      }
      var op := FailedRecord(store.operation.value, true);
      FailureKeeps(Shown(), true);
      FailureKeeps(Shown(), false);
      ok := store.WriteOperation(op);
      if !ok { return; }
      ok := DeleteCandidate(id);
      var _ := store.WriteOperation(op.(cleanupPending := !ok));
    }

    // ----- requests -----

    /** The unlocked half of a cancel: it reaches only the current token. */
    method Signal(id: Id)
      requires Shown().Consistent()
      modifies this`cancellation
      ensures Shown().Consistent()
      ensures cancellation == if old(cancellation).Some? && old(cancellation).value.id == id then Some(Token(id, true)) else old(cancellation)
    {
      if cancellation.Some? && cancellation.value.id == id {
        cancellation := Some(Token(id, true));
      }
    }

    /** Reads the process registry: it succeeds only when every recorded process is gone. */
    method ReconcileProcesses() returns (ok: bool)
      requires Shown().Consistent()
      modifies this`leases, this`misread, store.device
      ensures Shown().Consistent()
      ensures leases <= old(leases) && misread == old(misread) * leases
      ensures ok ==> leases == {}
      ensures leases == old(leases) || ok
      ensures ok || store.device.faults > old(store.device.faults) || leases != {}
      ensures old(store.device.faults) <= store.device.faults
    {
      ok := store.device.Attempt();
      var gone: bool := *;
      gone := gone || leases == {};
      ProcessesGone(Shown());
      if ok && gone {
        leases, misread := {}, {};
      }
      ok := ok && gone;
    }

    /** The locked half. A running operation becomes Cancelling; if no publication has begun it
        is `beaten`. A terminal one gets its leftover files removed and its owner released. */
    method Cancel(id: Id) returns (ok: bool)
      requires Shown().Consistent()
      modifies this`cancellation, this`leases, this`misread, this`ownerActive, this`beaten, this`beatenNow,
               store`operation, store`candidates, store.device
      ensures Shown().Consistent()
      ensures old(store.device.faults) <= store.device.faults
      ensures leases <= old(leases) && misread == old(misread) * leases
      // Nothing is deleted while a process is known to be alive.
      ensures store.candidates == old(store.candidates)
        || (NoLiveOwner() && store.candidates == old(store.candidates) - {id} && old(Shown()).Records(id))
      ensures ok ==> old(Shown()).Records(id)
      ensures !old(Shown()).Records(id) ==> store.operation == old(store.operation) && ownerActive == old(ownerActive)
      ensures old(beaten) <= beaten <= old(beaten) + {id} && old(beatenNow) <= beatenNow
      ensures ok && !old(store.operation).value.phase.IsTerminal() && !old(store.operation).value.phase.AwaitingConfirmation? ==>
        && store.operation == Some(old(store.operation).value.(phase := Cancelling)) && store.candidates == old(store.candidates)
        && (store.intent.None? ==> id in beaten && (lastBegun == Some(id) ==> id in beatenNow))
      ensures old(ownerActive) && !ownerActive ==> store.operation.Some? && store.operation.value.id == id && store.operation.value.Settled()
      ensures ok ==> store.operation.Some?
      ensures ok && old(store.operation).value.phase.AwaitingConfirmation? ==>
        Shown().Records(id) && store.operation.value.phase.Cancelled? && store.operation.value.ownerQuiescent
        && (store.operation.value.cleanupPending || id !in store.candidates)
      // A finished operation that is clean, or whose cleanup meets no fault, ends clean and unowned.
      ensures ok && old(store.operation).value.phase.IsTerminal() && store.device.faults == old(store.device.faults)
              && (old(store.operation).value.ownerQuiescent || old(store.operation).value.cleanupPending) ==>
        && !ownerActive && store.operation.value.phase == old(store.operation).value.phase && !store.operation.value.cleanupPending
        && (old(store.operation).value.cleanupPending ==> id !in store.candidates)
      ensures ok || store.device.faults > old(store.device.faults) || !old(Shown()).Records(id)
        || (leases != {} && old(store.operation).value.phase.IsTerminal() && !old(store.operation).value.ownerQuiescent)
      ensures Shown().Claims() ==> old(Shown()).Claims() && Shown().Records(old(store.operation).value.id)
    {
      ok := store.device.Attempt();
      if !ok || store.operation.None? || store.operation.value.id != id {
        return false;
      }
      if store.operation.value.phase.IsTerminal() {
        ok := CancelTerminal(id);
      } else if store.operation.value.phase.AwaitingConfirmation? {
        ok := CancelAwaiting(id);
      } else {
        Signal(id);
        ok := CancelRunning(id);
      }
    }

    method CancelAwaiting(id: Id) returns (ok: bool)
      requires Shown().Consistent() && Shown().Records(id) && store.operation.value.phase.AwaitingConfirmation?
      modifies store`operation, store`candidates, store.device
      ensures Shown().Consistent() && Shown().Records(id)
      ensures old(store.device.faults) <= store.device.faults
      ensures store.candidates == old(store.candidates) || store.candidates == old(store.candidates) - {id}
      ensures ok ==> store.operation.value.phase.Cancelled? && store.operation.value.ownerQuiescent
                     && (store.operation.value.cleanupPending || id !in store.candidates)
      ensures store.device.faults == old(store.device.faults) ==> !store.operation.value.cleanupPending
      ensures ok || store.device.faults > old(store.device.faults)
      ensures Shown().Claims() ==> old(Shown()).Claims() && Shown().Records(old(store.operation).value.id)
    {
      var removed := DeleteCandidate(id);
      ok := store.WriteOperation(store.operation.value.(phase := Cancelled, ownerQuiescent := true, cleanupPending := !removed));
    }

    method CancelRunning(id: Id) returns (ok: bool)
      requires Shown().Consistent() && Shown().Records(id)
      requires !store.operation.value.phase.IsTerminal() && !store.operation.value.phase.AwaitingConfirmation?
      requires cancellation.Some? && cancellation.value.id == id ==> cancellation.value.cancelled
      modifies this`beaten, this`beatenNow, store`operation, store.device
      ensures Shown().Consistent()
      ensures old(store.device.faults) <= store.device.faults
      ensures store.operation == old(store.operation) || store.operation == Some(old(store.operation).value.(phase := Cancelling))
      ensures ok ==> store.operation.value.phase.Cancelling?
      ensures ok || store.device.faults > old(store.device.faults)
      ensures old(beaten) <= beaten <= old(beaten) + {id} && old(beatenNow) <= beatenNow
      ensures ok && store.intent.None? ==> id in beaten && (lastBegun == Some(id) ==> id in beatenNow)
      ensures Shown().Claims() ==> old(Shown()).Claims() && Shown().Records(old(store.operation).value.id)
    {
      ghost var before := Shown();
      CancellingKeeps(before, store.intent.None?);
      ok := store.WriteOperation(store.operation.value.(phase := Cancelling));
      if store.intent.None? && store.operation.value.phase.Cancelling? {
        beaten := beaten + {id};
        beatenNow := if lastBegun == Some(id) then beatenNow + {id} else beatenNow;
        assert Shown().operation == Some(before.operation.value.(phase := Cancelling));
      }
      assert Shown() == before || Shown() == before.(
        operation := Some(before.operation.value.(phase := Cancelling)), beaten := beaten, beatenNow := beatenNow);
    }

    method CancelTerminal(id: Id) returns (ok: bool)
      requires Shown().Consistent() && Shown().Records(id) && store.operation.value.phase.IsTerminal()
      modifies this`leases, this`misread, this`ownerActive, store`operation, store`candidates, store.device
      ensures Shown().Consistent()
      ensures old(store.device.faults) <= store.device.faults
      ensures leases <= old(leases) && misread == old(misread) * leases
      // Processes first: without their reconciliation an unquiescent owner keeps its leftovers.
      ensures store.candidates == old(store.candidates) || (NoLiveOwner() && store.candidates == old(store.candidates) - {id})
      ensures !old(store.operation).value.ownerQuiescent && leases != {} ==>
        !ok && store.candidates == old(store.candidates) && store.operation == old(store.operation) && ownerActive == old(ownerActive)
      ensures store.operation.Some? && store.operation.value.id == id && store.operation.value.phase == old(store.operation).value.phase
      ensures ownerActive == old(ownerActive) || (!ownerActive && store.operation.value.Settled())
      ensures ok && !store.operation.value.cleanupPending && old(store.operation).value.cleanupPending ==> id !in store.candidates
      ensures ok || store.device.faults > old(store.device.faults) || (leases != {} && !old(store.operation).value.ownerQuiescent)
      ensures ok && old(store.operation).value.cleanupPending && store.device.faults == old(store.device.faults) ==>
        !ownerActive && id !in store.candidates && !store.operation.value.cleanupPending
      ensures ok && old(store.operation).value.ownerQuiescent ==> !ownerActive
      ensures !old(store.operation).value.cleanupPending ==> store.operation == old(store.operation)
      ensures Shown().Claims() ==> old(Shown()).Claims() && Shown().Records(old(store.operation).value.id)
    {
      var op := store.operation.value;
      var quiescent := op.ownerQuiescent;
      if op.cleanupPending && !quiescent {
        quiescent := ReconcileProcesses();
        if !quiescent {
          return false;
        }
      }
      ok := true;
      if op.cleanupPending {
        ok := CleanTerminal(id);
      }
      if ok && quiescent {
        ReleasingKeeps(Shown());
        ownerActive := false;
      }
    }

    /** Removes what a terminal operation left, now that its processes are gone. */
    method CleanTerminal(id: Id) returns (ok: bool)
      requires Shown().Consistent() && Shown().Records(id) && store.operation.value.phase.IsTerminal() && NoLiveOwner()
      modifies store`operation, store`candidates, store.device
      ensures Shown().Consistent() && Shown().Records(id) && store.operation.value.phase == old(store.operation).value.phase
      ensures store.candidates == old(store.candidates) || store.candidates == old(store.candidates) - {id}
      ensures ok ==> store.operation.value.ownerQuiescent
      ensures ok && !store.operation.value.cleanupPending ==> id !in store.candidates
      ensures ok || store.device.faults > old(store.device.faults)
      ensures store.device.faults == old(store.device.faults) ==> !store.operation.value.cleanupPending
      ensures old(store.device.faults) <= store.device.faults
    {
      ghost var before := Shown();
      var removed := DeleteCandidate(id);
      CleaningKeeps(before, !removed);
      ok := store.WriteOperation(store.operation.value.(ownerQuiescent := true, cleanupPending := !removed));
    }

    /** Forgets a finished attempt; slots and settings survive it. */
    method ClearFinished(id: Id) returns (ok: bool)
      requires Inv()
      modifies store`operation, store.device
      ensures Inv()
      ensures old(store.device.faults) <= store.device.faults
      ensures store.operation == old(store.operation) || (store.operation.None? && old(Shown()).Records(id)
        && old(store.operation).value.Settled() && !ownerActive && store.intent.None? && NoLiveOwner())
      ensures ok ==> store.operation.None?
      ensures ok || store.device.faults > old(store.device.faults) || ownerActive || store.intent.Some? || !old(Shown()).Records(id)
        || !old(store.operation).value.phase.IsTerminal() || old(store.operation).value.cleanupPending
    {
      ok := store.device.Attempt();
      ok := ok && store.operation.Some? && store.operation.value.id == id && store.operation.value.phase.IsTerminal()
        && !store.operation.value.cleanupPending && !ownerActive && store.intent.None?;
      if ok {
        ok := store.RemoveOperation();
      }
    }

    /** The record of a settled attempt of which nothing is installed or left. */
    predicate Obsolete()
      reads this, store
    {
      && store.operation.Some? && store.intent.None? && !ownerActive
      && var op := store.operation.value;
      && op.phase.IsTerminal() && op.ownerQuiescent && !op.cleanupPending
      && op.id !in store.candidates && op.releaseId !in store.slots && !store.update.state.Running?
    }

    predicate UpdateNames(op: Operation)
      reads store
    {
      store.update.release == Some(op.releaseId) && store.update.startedAt == Some(op.startedAt)
    }

    /** Drops the record of an attempt whose release is not installed. */
    method PruneHistory()
      requires Inv()
      modifies this`base, store`operation, store`update, store.device
      ensures Inv()
      ensures old(store.device.faults) <= store.device.faults
      ensures base == old(base) || (store.intent.None? && base == old(base).(update := UpdateInfo(Idle, None, None)))
      ensures store.operation == old(store.operation) || (store.operation.None? && store.intent.None? && !ownerActive
        && old(store.operation).value.Settled() && old(store.operation).value.phase.IsTerminal()
        && !old(store.operation).value.cleanupPending && old(store.operation).value.id !in store.candidates
        && old(store.operation).value.releaseId !in store.slots)
      ensures store.intent.Some? ==> store.update == old(store.update)
      // Without a fault exactly such a record goes, and with it the update record that names it.
      ensures store.device.faults == old(store.device.faults) ==>
        && (store.operation.None? <==> old(store.operation.None? || Obsolete()))
        && store.update == (if old(Obsolete() && UpdateNames(store.operation.value)) then UpdateInfo(Idle, None, None) else old(store.update))
    {
      var ok := store.device.Attempt();
      if !ok || store.intent.Some? || ownerActive || store.operation.None? {
        return;
      }
      var op := store.operation.value;
      if !op.phase.IsTerminal() || op.cleanupPending || !op.ownerQuiescent || op.id in store.candidates
         || op.releaseId in store.slots || store.update.state.Running? {
        return;
      }
      if store.update.release == Some(op.releaseId) && store.update.startedAt == Some(op.startedAt) {
        ok := store.WriteUpdate(UpdateInfo(Idle, None, None));
        base := store.Now();
      }
      if ok {
        var _ := store.RemoveOperation();
      }
    }

    /** How a recovery without an owner moves the published tuple. */
    ghost predicate Recovered(before: Moment, after: Tuple) {
      match before.intent
      case Some(i) => after == before.base || Replayed(i, before.base, before.tuple, after)
      case None => after == before.base || after == before.base.(update := UpdateInfo(Idle, None, None))
    }

    /** Startup, or a maintenance request with no owner: processes first, then the publication,
        then whatever the vanished owner left. */
    method Recover() returns (ok: bool)
      requires Inv() && !ownerActive
      modifies this`leases, this`misread, this`base, store, store.device
      ensures Inv()
      ensures old(store.device.faults) <= store.device.faults
      ensures leases <= old(leases) && misread == old(misread) * leases
      ensures leases != {} ==> !ok && !old(Here()).Loses(Here()) && store.intent == old(store.intent)
      ensures old(Here()).Loses(Here()) ==> leases == {}
      ensures Recovered(old(Here()), base)
      ensures ok && store.operation.Some? ==> store.operation.value.Settled() && NoLiveOwner() && store.intent.None?
      // Without a publication a vanished owner's record becomes Failed; every other keeps its phase.
      ensures ok && old(store.intent).None? && store.operation.Some? ==>
        && old(Shown()).Records(store.operation.value.id)
        && store.operation.value.phase == (
             if old(store.operation).value.phase.IsTerminal() || old(store.operation).value.phase.AwaitingConfirmation?
             then old(store.operation).value.phase else Phase.Failed)
      ensures ok && old(store.operation).Some? && (!old(store.operation).value.phase.IsTerminal() || old(store.operation).value.cleanupPending) ==>
        store.operation.Some?
      // Without a fault nothing is left to clean, and a leftover candidate is gone.
      ensures store.device.faults == old(store.device.faults) && ok && store.operation.Some? ==> !store.operation.value.cleanupPending
      ensures ok && old(store.intent).None? && old(Leftover(store.operation)) && !store.operation.value.cleanupPending ==>
        store.operation.value.id !in store.candidates
      ensures ok || store.device.faults > old(store.device.faults) || leases != {}
        || (old(store.intent).Some? && old(store.intent).value.preserveCurrent)
      ensures Shown().Claims() && !(old(Shown()).Claims() && Shown().Records(old(store.operation).value.id)) ==>
        Won(old(store.intent), old(base), store.Now(), store.intent)
      ensures ok && old(store.intent).Some? ==>
        && Shown().Records(old(store.intent).value.operation.id)
        && store.operation.value.phase == (
             if old(store.intent).value.preserveCurrent then Cancelled
             else if !old(store.intent).value.committed then Phase.Failed
             else if old(store.intent).value.prepareOnly then Prepared else Succeeded)
      ensures ok && store.device.faults == old(store.device.faults) && old(Obsolete()) ==> store.operation.None?
    {
      PruneHistory();
      ok := ReconcileProcesses();
      if ok {
        ok := RecoverQuiet();
      }
    }

    /** Recovery once no process is left. */
    method RecoverQuiet() returns (ok: bool)
      requires Inv() && !ownerActive && leases == {}
      modifies this`base, store, store.device
      ensures Inv()
      ensures old(store.device.faults) <= store.device.faults
      ensures base == old(base) || (old(store.intent).Some? && store.intent.None?
        && Replayed(old(store.intent).value, old(base), old(store.Now()), base))
      ensures ok ==> store.intent.None? && (store.operation.Some? ==> store.operation.value.Settled())
      ensures old(store.intent).None? ==> store.intent.None? && (store.operation.Some? <==> old(store.operation).Some?)
      ensures old(store.operation).Some? ==> store.operation.Some?
      ensures old(store.intent).None? && store.operation.Some? ==>
        && old(Shown()).Records(store.operation.value.id)
        && (ok ==> store.operation.value.phase == AfterVanishing(old(store.operation).value.phase))
      ensures store.device.faults == old(store.device.faults) && ok && store.operation.Some? ==> !store.operation.value.cleanupPending
      ensures ok && old(store.intent).None? && old(Leftover(store.operation)) && !store.operation.value.cleanupPending ==>
        store.operation.value.id !in store.candidates
      ensures ok || store.device.faults > old(store.device.faults) || (old(store.intent).Some? && old(store.intent).value.preserveCurrent)
      ensures Shown().Claims() && !(old(Shown()).Claims() && Shown().Records(old(store.operation).value.id)) ==>
        Won(old(store.intent), old(base), store.Now(), store.intent)
      ensures ok && old(store.intent).Some? ==>
        && Shown().Records(old(store.intent).value.operation.id)
        && store.operation.value.phase == (
             if old(store.intent).value.preserveCurrent then Cancelled
             else if !old(store.intent).value.committed then Phase.Failed
             else if old(store.intent).value.prepareOnly then Prepared else Succeeded)
    {
      ok := ReplayVanished();
      if ok {
        ok := SettleVanished();
      }
    }

    /** The publication a vanished owner left. */
    method ReplayVanished() returns (ok: bool)
      requires Inv() && !ownerActive && leases == {}
      modifies this`base, store, store.device
      ensures Inv()
      ensures old(store.device.faults) <= store.device.faults
      ensures base == old(base) || (old(store.intent).Some? && store.intent.None?
        && Replayed(old(store.intent).value, old(base), old(store.Now()), base))
      ensures old(store.intent).None? ==>
        store.intent.None? && store.operation == old(store.operation) && store.candidates == old(store.candidates)
      ensures old(store.operation).Some? ==> store.operation.Some?
      ensures ok ==> store.intent.None?
      ensures ok || store.device.faults > old(store.device.faults) || (old(store.intent).Some? && old(store.intent).value.preserveCurrent)
      ensures Shown().Claims() && store.operation != old(store.operation) ==>
        Won(old(store.intent), old(base), store.Now(), store.intent)
      ensures ok && old(store.intent).Some? ==>
        && Shown().Records(old(store.intent).value.operation.id)
        && store.operation.value.phase == (
             if old(store.intent).value.preserveCurrent then Cancelled
             else if !old(store.intent).value.committed then Phase.Failed
             else if old(store.intent).value.prepareOnly then Prepared else Succeeded)
    {
      if store.intent.Some? {
        FinishingKeeps(Shown(), store.intent.value.Result());
      }
      var outcome := store.RecoverPublication(base);
      ok := outcome.Done?;
      if store.intent.None? {
        base := store.Now();
      }
    }

    function AfterVanishing(phase: Phase): Phase {
      if phase.IsTerminal() || phase.AwaitingConfirmation? then phase else Phase.Failed
    }

    /** A record whose owner vanished before it was finished or cleaned. */
    predicate Leftover(operation: Option<Operation>) {
      operation.Some? && (operation.value.cleanupPending
                          || (!operation.value.phase.IsTerminal() && !operation.value.phase.AwaitingConfirmation?))
    }

    method SettleVanished() returns (ok: bool)
      requires Shown().Consistent() && !ownerActive && leases == {} && store.intent.None?
      modifies store`operation, store`candidates, store.device
      ensures Shown().Consistent()
      ensures store.operation.Some? <==> old(store.operation).Some?
      ensures store.operation.Some? ==> old(Shown()).Records(store.operation.value.id)
      ensures ok && store.operation.Some? ==>
        store.operation.value.Settled() && store.operation.value.phase == AfterVanishing(old(store.operation).value.phase)
      ensures ok || store.device.faults > old(store.device.faults)
      ensures store.device.faults == old(store.device.faults) && store.operation.Some? ==> !store.operation.value.cleanupPending
      // A record turns clean only with its candidate gone; a clean one is left alone.
      ensures ok && old(Leftover(store.operation)) && !store.operation.value.cleanupPending ==> store.operation.value.id !in store.candidates
      ensures !old(Leftover(store.operation)) ==> store.operation == old(store.operation) && store.candidates == old(store.candidates)
      ensures old(store.device.faults) <= store.device.faults
      ensures Shown().Claims() ==> old(Shown()).Claims()
      // The verdict is on record before the candidate goes.
      ensures store.candidates != old(store.candidates) ==>
        && store.operation.Some? && store.operation.value.phase == AfterVanishing(old(store.operation).value.phase)
        && (old(store.operation).value.phase.IsTerminal() || old(store.operation).value.phase.AwaitingConfirmation?
            || store.operation.value.ownerQuiescent)
    {
      ok := store.device.Attempt();
      if !ok || store.operation.None? {
        return;
      }
      var op := store.operation.value;
      if !op.phase.IsTerminal() && !op.phase.AwaitingConfirmation? {
        op := op.(phase := Phase.Failed, ownerQuiescent := true, cleanupPending := true);
        ok := store.WriteOperation(op);
        if !ok { return; }
      }
      if op.cleanupPending {
        var removed := DeleteCandidate(op.id);
        ok := store.WriteOperation(op.(ownerQuiescent := true, cleanupPending := !removed));
      }
    }

    predicate Unsettled()
      reads store
    {
      store.operation.Some? && (store.operation.value.cleanupPending
        || (!store.operation.value.ownerQuiescent && !store.operation.value.phase.AwaitingConfirmation?))
    }

    /** Other mutations of the data root may proceed only over a settled installation. */
    method TryAcquireMaintenance() returns (ok: bool)
      requires Inv()
      modifies this`leases, this`misread, this`base, store, store.device
      ensures Inv()
      ensures old(store.device.faults) <= store.device.faults
      ensures leases <= old(leases) && misread == old(misread) * leases
      ensures old(Here()).Loses(Here()) ==> NoLiveOwner()
      ensures Recovered(old(Here()), base)
      ensures ok ==>
        && !ownerActive && store.intent.None? && NoLiveOwner()
        && (store.operation.Some? ==> store.operation.value.phase.IsTerminal() && store.operation.value.ownerQuiescent
                                      && !store.operation.value.cleanupPending)
      ensures Shown().Claims() && !(old(Shown()).Claims() && Shown().Records(old(store.operation).value.id)) ==>
        Won(old(store.intent), old(base), store.Now(), store.intent)
      // It recovers only what a vanished owner left, and is refused for no other reason than these.
      ensures ownerActive || !old(Unsettled()) ==>
        && store.operation == old(store.operation) && store.intent == old(store.intent) && store.candidates == old(store.candidates)
        && store.Now() == old(store.Now()) && leases == old(leases)
      ensures store.device.faults == old(store.device.faults) && leases == {}
              && !old(store.intent.Some? && store.intent.value.preserveCurrent) ==>
        (ok <==> !ownerActive && store.intent.None?
                 && (store.operation.None? || (store.operation.value.phase.IsTerminal() && store.operation.value.ownerQuiescent)))
      ensures store.device.faults == old(store.device.faults) && leases == {} && !ownerActive && old(Unsettled())
              && !old(store.intent.Some? && store.intent.value.preserveCurrent) ==>
        && (store.operation.Some? ==> !store.operation.value.cleanupPending)
        && (ok || old(store.operation.value.phase.AwaitingConfirmation?))
    {
      ok := store.device.Attempt();
      if ok && !ownerActive && store.operation.Some? && (store.operation.value.cleanupPending
          || (!store.operation.value.ownerQuiescent && !store.operation.value.phase.AwaitingConfirmation?)) {
        ok := Recover();
      }
      ok := ok && !ownerActive && store.intent.None?
        && (store.operation.Some? ==> store.operation.value.phase.IsTerminal() && !store.operation.value.cleanupPending
                                      && store.operation.value.ownerQuiescent);
    }

    /** The user's decision about a pending publication; refused while its owner lives. */
    method RecoverExplicit(id: Id, preserve: bool) returns (ok: bool)
      requires Inv()
      modifies this`base, store, store.device
      ensures Inv()
      ensures old(store.device.faults) <= store.device.faults
      ensures ownerActive ==> !ok && store.Now() == old(store.Now()) && store.intent == old(store.intent)
      ensures old(Here()).Loses(Here()) ==> NoLiveOwner()
      ensures base == old(base) || (old(store.intent).Some? && store.intent.None?
        && Replayed(Decided(old(store.intent).value, preserve), old(base), old(store.Now()), base))
      ensures ok ==> store.intent.None? && Shown().Records(id)
      // When the intent goes, the record says what became of the publication.
      ensures old(store.intent).Some? && store.intent.None? ==>
        && Shown().Records(id) && store.operation.value.ownerQuiescent && !store.operation.value.cleanupPending
        && store.operation.value.phase == (
             if preserve || old(store.intent).value.preserveCurrent then Cancelled
             else if !old(store.intent).value.committed then Failed
             else if old(store.intent).value.prepareOnly then Prepared else Succeeded)
      // A retry fails only by a fault; keeping also needs an archive name nobody else holds.
      ensures !ownerActive && old(store.intent).Some? && old(store.intent).value.operation.id == id
              && (preserve || old(store.intent).value.preserveCurrent ==> old(Archivable(id))) ==>
        ok || store.device.faults > old(store.device.faults)
      ensures Shown().Claims() && store.operation != old(store.operation) ==>
        !preserve && Won(old(store.intent), old(base), store.Now(), store.intent)
    {
      ok := false;
      if !ownerActive {
        ghost var before := Shown();
        if store.intent.Some? {
          FinishingKeeps(before, Decided(store.intent.value, preserve).Result());
        }
        var outcome := store.RecoverExplicit(id, preserve, base);
        ok := outcome.Done?;
        if store.intent.None? {
          base := store.Now();
        }
        assert Shown() == before.(operation := store.operation, publishing := if store.intent.None? then None else before.publishing);
      }
    }

    /** The pending intent can be archived under this id. */
    predicate Archivable(id: Id)
      requires store.intent.Some?
      reads store
    {
      ValidId(id) && (id in store.archives ==> store.archives[id] == store.intent.value.(preserveCurrent := true))
    }

    function Decided(i: Intent, preserve: bool): Intent {
      i.(preserveCurrent := preserve || i.preserveCurrent)
    }

    // ----- the world -----

    /** The Agent process ends and a new one starts; child processes and the disk remain. */
    method Restart()
      requires Durably()
      modifies this`ownerActive, this`cancellation, this`workers, this`lastBegun, this`beatenNow, store.device, store.device.lives
      ensures Inv() && !store.device.crashed && store.device.faults == 0
      ensures !ownerActive && workers == map[] && lastBegun.None?
    {
      store.device.Restart();
      ownerActive, cancellation, workers := false, None, map[];
      lastBegun, beatenNow := None, {};
    }

    /** What a crash leaves. */
    ghost predicate Durably()
      reads this, store
    {
      Shown().RecordOk() && Whole()
    }

    method ProcessExits(id: Id)
      requires Inv()
      modifies this`leases, this`misread
      ensures Inv() && leases == old(leases) - {id} && misread == old(misread) - {id}
    {
      leases, misread := leases - {id}, misread - {id};
    }

    // ----- runs -----

    /** How one step may move the published tuple: to the target of the task's publication, to
        the side a recovered publication names, or to an idle update record. */
    ghost predicate Moves(step: Step, before: Moment, after: Tuple) {
      match step
      case DoPublish(id, reuse) =>
        before.view.operation.Some? && Published(before.view.operation.value, reuse, before.base, after)
      case DoSettle(_, _) => before.intent.Some? && Replayed(before.intent.value, before.base, before.tuple, after)
      case DoExplicit(_, preserve) =>
        before.intent.Some? && Replayed(Decided(before.intent.value, preserve), before.base, before.tuple, after)
      case DoRecover => Recovered(before, after)
      case DoMaintenance => Recovered(before, after)
      case _ => false
    }

    /** What every step obeys. */
    ghost predicate Lawful(step: Step, before: Moment, after: Moment) {
      // Files go only where no process is known to be alive.
      && (before.Loses(after) ==> after.view.Quiet())
      // A live process is lost from sight exactly by a failing installation from the official registry.
      && after.view.misread == before.view.misread * after.view.leases
           + (if step.DoEnd? && !step.succeeded && step.survivors && before.view.Hides(step.id) then {step.id} else {})
      && (after.base == before.base || Moves(step, before, after.base))
      // Success is recorded only for a decided publication whose whole target is on disk.
      && (before.NewClaim(after) ==>
            if step.DoPublish? && after.intent.None? then
              before.view.operation.Some? && Published(before.view.operation.value, step.reuse, before.base, after.base)
            else before.Earned(after))
    }

    /** What every step achieves, unless the machine fails it. */
    ghost predicate Advances(step: Step, before: Moment, after: Moment) {
      var v, w := before.view, after.view;
      match step
      case DoBegin(id, _, _, _, _) =>
        before.intent.None? && !v.ownerActive && (v.operation.Some? ==> v.operation.value.phase.IsTerminal() && !v.operation.value.cleanupPending) ==>
          w.Records(id) || after.faults > before.faults
      case DoRelease(id) => id !in w.workers
      case DoUpdate(id, phase) => id in w.workers && (w.workers[id].Failing? || (w.operation.Some? && w.operation.value.phase == phase))
      case DoAbort(id) => id in w.workers && w.workers[id].Failing?
      case DoStart(id, _) => id in w.workers && (w.workers[id].Commanding? || w.workers[id].Failing?)
      case DoEnd(id, succeeded, _) => id in w.workers && if succeeded then w.workers[id].Working? else w.workers[id].Failing?
      case DoPublish(id, _) => id in w.workers && (w.workers[id].Closing? || w.workers[id].Failing?)
      case DoSettle(id, _) => id in w.workers && w.workers[id].Closing?
      case DoSignal(id) => w == v.(cancellation :=
        if v.cancellation.Some? && v.cancellation.value.id == id then Some(Token(id, true)) else v.cancellation)
      case DoCancel(id) =>
        v.Records(id) && !v.operation.value.phase.IsTerminal() ==>
          || (w.Records(id) && w.operation.value.phase == if v.operation.value.phase.AwaitingConfirmation? then Cancelled else Cancelling)
          || after.faults > before.faults
      case DoClear(id) =>
        v.Records(id) && v.operation.value.phase.IsTerminal() && !v.operation.value.cleanupPending && !v.ownerActive && before.intent.None? ==>
          w.operation.None? || after.faults > before.faults
      case DoMaintenance =>
        !v.ownerActive && v.operation.Some? && v.operation.value.cleanupPending && w.leases == {} && !before.Kept() ==>
          (w.operation.Some? ==> !w.operation.value.cleanupPending) || after.faults > before.faults
      case DoRecover =>
        w.leases == {} && !before.Kept() ==>
          (after.intent.None? && (w.operation.Some? ==> w.operation.value.Settled())) || after.faults > before.faults
      case DoExplicit(id, preserve) =>
        !v.ownerActive && v.publishing == Some(id) && !preserve && !before.Kept() ==> after.intent.None? || after.faults > before.faults
      case DoExit(id) => w == v.(leases := v.leases - {id}, misread := v.misread - {id})
      case DoRestart => !w.ownerActive && w.workers == map[] && !after.crashed
    }

    method PerformProgress(step: Step)
      requires Inv() && Enabled(step, used, workers, ownerActive) && (step.DoUpdate? || step.DoAbort?)
      modifies this`workers, store`operation, store.device
      ensures Inv() && Lawful(step, old(Here()), Here()) && Advances(step, old(Here()), Here())
    {
      if step.DoUpdate? {
        Update(step.id, step.phase);
      } else {
        Abort(step.id);
      }
    }

    method PerformCommand(step: Step)
      requires Inv() && Enabled(step, used, workers, ownerActive) && (step.DoStart? || step.DoEnd?)
      modifies this`workers, this`leases, this`misread, store`candidates
      ensures Inv() && Lawful(step, old(Here()), Here()) && Advances(step, old(Here()), Here())
    {
      if step.DoStart? {
        StartCommand(step.id, step.command);
      } else {
        EndCommand(step.id, step.succeeded, step.survivors);
      }
    }

    method PerformPublication(step: Step)
      requires Inv() && Enabled(step, used, workers, ownerActive) && step.DoPublish?
      modifies this`workers, this`base, store, store.device
      ensures Inv() && Lawful(step, old(Here()), Here()) && Advances(step, old(Here()), Here())
    {
      if step.reuse {
        PublishReused(step.id);
      } else {
        PublishBuilt(step.id);
      }
    }

    method PerformSettlement(step: Step)
      requires Inv() && Enabled(step, used, workers, ownerActive) && step.DoSettle?
      modifies this`workers, this`base, store, store.device
      ensures Inv() && Lawful(step, old(Here()), Here()) && Advances(step, old(Here()), Here())
    {
      SettleFailure(step.id, step.updaterBusy);
    }

    method PerformExplicit(step: Step)
      requires Inv() && Enabled(step, used, workers, ownerActive) && step.DoExplicit?
      modifies this`base, store, store.device
      ensures Inv() && Lawful(step, old(Here()), Here()) && Advances(step, old(Here()), Here())
    {
      var _ := RecoverExplicit(step.id, step.preserve);
    }

    method PerformMaintenance(step: Step)
      requires Inv() && step.DoMaintenance?
      modifies this`leases, this`misread, this`base, store, store.device
      ensures Inv() && Lawful(step, old(Here()), Here()) && Advances(step, old(Here()), Here())
    {
      var _ := TryAcquireMaintenance();
    }

    method PerformRecovery(step: Step)
      requires Inv() && Enabled(step, used, workers, ownerActive) && step.DoRecover?
      modifies this`leases, this`misread, this`base, store, store.device
      ensures Inv() && Lawful(step, old(Here()), Here()) && Advances(step, old(Here()), Here())
    {
      var _ := Recover();
    }

    method PerformAdmission(step: Step)
      requires Inv() && Enabled(step, used, workers, ownerActive) && (step.DoBegin? || step.DoRelease? || step.DoClear?)
      modifies this, store`operation, store.device
      ensures Inv() && beaten == old(beaten) && beatenNow == old(beatenNow)
      ensures Lawful(step, old(Here()), Here()) && Advances(step, old(Here()), Here())
    {
      if step.DoBegin? {
        var _ := Begin(step.id, step.tag, step.source, step.releaseId, step.startedAt);
      } else if step.DoRelease? {
        ReleaseSettledOwner(step.id);
      } else {
        var _ := ClearFinished(step.id);
      }
    }

    method PerformCancel(step: Step)
      requires Inv() && Enabled(step, used, workers, ownerActive) && (step.DoSignal? || step.DoCancel?)
      modifies this, store`operation, store`candidates, store.device
      ensures Inv() && old(beaten) <= beaten && old(beatenNow) <= beatenNow
      ensures Lawful(step, old(Here()), Here()) && Advances(step, old(Here()), Here())
    {
      if step.DoSignal? {
        Signal(step.id);
      } else {
        var _ := Cancel(step.id);
      }
    }

    /** The steps of a background task. */
    method PerformTask(step: Step)
      requires Inv() && Enabled(step, used, workers, ownerActive)
      requires step.DoUpdate? || step.DoAbort? || step.DoStart? || step.DoEnd? || step.DoPublish? || step.DoSettle?
      modifies this`workers, this`leases, this`misread, this`base, store, store.device
      ensures Inv() && Lawful(step, old(Here()), Here()) && Advances(step, old(Here()), Here())
    {
      if step.DoUpdate? || step.DoAbort? {
        PerformProgress(step);
      } else if step.DoStart? || step.DoEnd? {
        PerformCommand(step);
      } else if step.DoPublish? {
        PerformPublication(step);
      } else {
        PerformSettlement(step);
      }
    }

    /** The steps of requests. */
    method PerformRequest(step: Step)
      requires Inv() && Enabled(step, used, workers, ownerActive)
      requires step.DoBegin? || step.DoRelease? || step.DoClear? || step.DoSignal? || step.DoCancel?
      modifies this, store`operation, store`candidates, store.device
      ensures Inv() && old(beaten) <= beaten && old(beatenNow) <= beatenNow
      ensures Lawful(step, old(Here()), Here()) && Advances(step, old(Here()), Here())
    {
      if step.DoSignal? || step.DoCancel? {
        PerformCancel(step);
      } else {
        PerformAdmission(step);
      }
    }

    /** The steps of recovery. */
    method PerformUpkeep(step: Step)
      requires Inv() && Enabled(step, used, workers, ownerActive) && (step.DoMaintenance? || step.DoRecover? || step.DoExplicit?)
      modifies this`workers, this`leases, this`misread, this`base, store, store.device
      ensures Inv() && Lawful(step, old(Here()), Here()) && Advances(step, old(Here()), Here())
    {
      if step.DoExplicit? {
        PerformExplicit(step);
      } else if step.DoMaintenance? {
        PerformMaintenance(step);
      } else {
        PerformRecovery(step);
      }
    }

    /** The steps of the machine. */
    method PerformWorld(step: Step)
      requires Inv() && Enabled(step, used, workers, ownerActive) && (step.DoExit? || step.DoRestart?)
      modifies this, store.device, store.device.lives
      ensures Inv() && beaten == old(beaten) && (step.DoExit? ==> beatenNow == old(beatenNow))
      ensures Lawful(step, old(Here()), Here()) && Advances(step, old(Here()), Here())
    {
      if step.DoExit? {
        ProcessExits(step.id);
      } else {
        Restart();
      }
    }

    method Perform(step: Step)
      requires Inv() && Enabled(step, used, workers, ownerActive)
      modifies this, store, store.device, store.device.lives
      ensures Inv() && old(beaten) <= beaten
      ensures !step.DoRestart? ==> old(beatenNow) <= beatenNow
      ensures Lawful(step, old(Here()), Here()) && Advances(step, old(Here()), Here())
    {
      if step.DoExit? || step.DoRestart? {
        PerformWorld(step);
      } else if step.DoMaintenance? || step.DoRecover? || step.DoExplicit? {
        PerformUpkeep(step);
      } else if step.DoBegin? || step.DoRelease? || step.DoClear? || step.DoSignal? || step.DoCancel? {
        PerformRequest(step);
      } else {
        PerformTask(step);
      }
    }

    /** One entry of the log of a run: after a crash only the world moves. Requests and the world
        need no permission; a task takes the steps its state allows. */
    ghost predicate Moved(step: Step, before: Moment, after: Moment) {
      if step.DoExit? || step.DoRestart?
         || (!before.crashed && (step.DoSignal? || step.DoCancel? || step.DoClear? || step.DoMaintenance? || step.DoExplicit?
                                 || Enabled(step, before.view.used, before.view.workers, before.view.ownerActive))) then
        Lawful(step, before, after) && Advances(step, before, after)
      else
        after == before
    }

    method Take(step: Step)
      requires Inv()
      modifies this, store, store.device, store.device.lives
      ensures Inv() && old(beaten) <= beaten
      ensures !step.DoRestart? ==> old(beatenNow) <= beatenNow
      ensures Moved(step, old(Here()), Here())
    {
      if (step.DoRestart? || step.DoExit? || !store.device.crashed) && Enabled(step, used, workers, ownerActive) {
        Perform(step);
      }
    }

    /** Every interleaving of any length. Steps that are not enabled are skipped, and after a
        crash only the world moves until the Agent restarts. `log` holds every moment. */
    method Run(steps: seq<Step>) returns (ghost log: seq<Moment>)
      requires Inv()
      modifies this, store, store.device, store.device.lives
      ensures Inv() && old(beaten) <= beaten
      ensures |log| == |steps| + 1 && log[0] == old(Here()) && log[|steps|] == Here()
      // At every moment the ownership rules hold and the tuple is whole or replayable ...
      ensures forall n :: 0 <= n <= |steps| ==> log[n].view.Consistent() && log[n].Whole()
      // ... and every step obeys the rules of deletion, sight and publication.
      // ... and an enabled step of a live party does what it is for.
      ensures forall n :: 0 <= n < |steps| ==> Moved(steps[n], log[n], log[n + 1])
      // Single owner: a released operation of this lifetime is over.
      ensures !ownerActive && lastBegun.Some? && Shown().Records(lastBegun.value) ==> store.operation.value.Settled()
      // Cancel beats publication, in every continuation.
      ensures forall id <- old(beaten) :: Shown().Records(id) ==>
        !store.operation.value.phase.Prepared? && !store.operation.value.phase.Succeeded? && store.intent.None?
      ensures DoRestart !in steps ==> forall id <- old(beatenNow) ::
        Shown().Records(id) && store.operation.value.phase.IsTerminal() ==> store.operation.value.phase.Cancelled?
    {
      log := [Here()];
      for n := 0 to |steps|
        invariant Inv() && old(beaten) <= beaten
        invariant DoRestart !in steps[..n] ==> old(beatenNow) <= beatenNow
        invariant |log| == n + 1 && log[0] == old(Here()) && log[n] == Here()
        invariant forall m :: 0 <= m <= n ==> log[m].view.Consistent() && log[m].Whole()
        invariant forall m :: 0 <= m < n ==> Moved(steps[m], log[m], log[m + 1])
      {
        Take(steps[n]);
        log := log + [Here()];
        assert steps[..n + 1] == steps[..n] + [steps[n]];
      }
      assert steps[..|steps|] == steps;
    }

    /** A restart forgets a cancellation that its task did not settle: the record ends Failed. */
    method RestartAfterCancel(id: Id)
      requires Inv() && Shown().Records(id) && id in beaten && store.operation.value.phase.Cancelling?
      modifies this, store, store.device, store.device.lives
      ensures Inv() && id in beaten
      ensures store.device.faults == 0 && leases == {} ==> Shown().Records(id) && store.operation.value.phase.Failed?
    {
      Restart();
      var _ := Recover();
    }

    /** The next operation is admitted after a publication and its release. */
    method PublishThenBegin(id: Id, reuse: bool, next: Id, tag: string, releaseId: Id) returns (ok: bool)
      requires Inv() && id in workers && workers[id].Working? && next !in used
      modifies this, store, store.device
      ensures Inv()
      ensures ok ==> ownerActive && Shown().Records(next)
      ensures old(!cancellation.value.cancelled && CanPublish(store.operation.value, reuse)
                  && (reuse || (store.operation.value.phase.Verifying? && !store.operation.value.cleanupPending)))
              && store.device.faults == old(store.device.faults) ==>
        ok
    {
      if reuse {
        PublishReused(id);
      } else {
        PublishBuilt(id);
      }
      ok := false;
      if workers[id].Closing? {
        ReleaseSettledOwner(id);
        ok := Begin(next, tag, Official, releaseId, 0);
      }
    }

    /** The next operation is admitted after a failure whose processes are gone. */
    method FailThenBegin(id: Id, next: Id, tag: string, releaseId: Id) returns (ok: bool)
      requires Inv() && id in workers && workers[id].Failing? && OwnerQuiescent(workers[id].error) && next !in used
      modifies this, store, store.device
      ensures Inv()
      ensures ok ==> ownerActive && Shown().Records(next)
      ensures old(Shown().Records(id) && (store.intent.Some? ==> !store.intent.value.preserveCurrent))
              && store.device.faults == old(store.device.faults) ==>
        ok
    {
      SettleFailure(id, false);
      ReleaseSettledOwner(id);
      ok := Begin(next, tag, Official, releaseId, 0);
    }

    /** When a command fails and nothing else does, its candidate is deleted under a live process
        exactly if it was an installation from the official registry that left one behind. */
    method FailAndSettle(id: Id, survivors: bool)
      requires Inv() && id in workers && workers[id].Commanding?
      modifies this, store, store.device
      ensures Inv() && old(store.device.faults) <= store.device.faults
      ensures misread == old(misread) + if survivors && old(Shown()).Hides(id) then {id} else {}
      ensures leases == if survivors then old(leases) else old(leases) - {id}
      ensures id in old(store.candidates) && store.device.faults == old(store.device.faults) ==>
        (id in leases && id !in store.candidates <==> survivors && old(Shown()).Hides(id))
    {
      EndCommand(id, false, survivors);
      SettleFailure(id, false);
    }
  }

  /** The first steps of an installation from the official registry, up to the finished clone. */
  method StartInstallation(store: Store, id: Id, tag: string, releaseId: Id) returns (c: Coordinator, ok: bool)
    requires store.operation.None? && store.intent.None? && id !in store.candidates
    modifies store, store.device
    ensures old(store.device.faults) <= store.device.faults
    ensures fresh(c) && c.store == store && c.Inv() && c.misread == {}
    ensures ok ==> id in c.workers && c.workers[id].Working? && id in store.candidates && !c.cancellation.value.cancelled
                   && store.operation.value.source.Official?
    ensures ok || store.device.faults > old(store.device.faults)
  {
    c := new Coordinator(store);
    ok := c.Begin(id, tag, Official, releaseId, 0);
    if ok {
      c.StartCommand(id, Clone);
      c.EndCommand(id, true, false);
    }
  }

  /** A run in which a candidate is deleted under a live process: a dependency installation
      from the official registry fails and leaves a process behind. `present` tells whether the
      candidate was there before. */
  method OfficialInstallRun(store: Store, id: Id, tag: string, releaseId: Id) returns (c: Coordinator, ghost present: bool)
    requires store.operation.None? && store.intent.None? && id !in store.candidates
    modifies store, store.device
    ensures fresh(c) && c.store == store && c.Inv()
    ensures store.device.faults == old(store.device.faults) ==> present && id in c.leases && id !in store.candidates && c.misread == {id}
  {
    var ok;
    c, ok := StartInstallation(store, id, tag, releaseId);
    present := id in store.candidates;
    if ok {
      c.StartCommand(id, Install);
      c.FailAndSettle(id, true);
    }
  }

  /** The first steps of an installation that the user cancels at once. */
  method CancelInstallation(store: Store, id: Id, tag: string, releaseId: Id) returns (c: Coordinator)
    requires store.operation.None? && store.intent.None?
    modifies store, store.device
    ensures fresh(c) && c.store == store && c.Inv() && c.leases == {}
    ensures store.device.faults == old(store.device.faults) ==>
      id in c.beaten && c.Shown().Records(id) && store.operation.value.phase.Cancelling?
  {
    c := new Coordinator(store);
    var ok := c.Begin(id, tag, Npmmirror, releaseId, 0);
    if ok {
      ok := c.Cancel(id);
    }
  }
}
