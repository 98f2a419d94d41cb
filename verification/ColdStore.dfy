/** The data root of a cold installation: the stores a publication touches, the intent
    record that guards them, and the recovery that replays it. */
module ColdStore {
  import opened Wrappers
  import opened ColdRecords
  import opened Faults

  datatype Outcome = Done | Conflict | Failure

  /** The four ways the Agent publishes a version. */
  datatype Job =
    | RepairSlot
    | Reuse
    | SelectFirst(config: Config, confirmed: bool)
    | Import(config: Config, runtime: bool, environment: bool, catalog: Option<ProfileCatalog>)

  class Store {
    const device: Device
    // Facts about release ids: when each was installed, and which have passed their health check.
    const installedAt: Id -> nat
    const healthy: set<Id>
    // Durable: survives a crash.
    var config: Config
    var pointers: Pointers
    var profiles: ProfileCatalog
    var update: UpdateInfo
    var slots: Catalog
    var runtimes: set<string>
    var environments: set<Id>
    var candidates: set<Id>
    var intent: Option<Intent>
    var operation: Option<Operation>
    var archives: map<Id, Intent>

    ghost function Now(): Tuple
      reads this`config, this`pointers, this`profiles, this`update, this`slots, this`runtimes, this`environments
    {
      Tuple(config, pointers, profiles, update, slots, runtimes, environments)
    }

    /** An ordinary intent is on disk and the stores lie between `base` and its target. */
    ghost predicate Pending(base: Tuple)
      reads this`config, this`pointers, this`profiles, this`update, this`slots, this`runtimes, this`environments,
            this`intent
    {
      && intent.Some?
      && !intent.value.preserveCurrent
      && intent.value.TakenFrom(base)
      && intent.value.Between(base, Now())
    }

    /** Recovery must not touch a selection that somebody else changed. */
    predicate Conflicts()
      reads this
    {
      && intent.Some?
      && var i := intent.value;
      && !i.preserveCurrent
      && ((!i.prepareOnly && config != i.previousConfig && config != i.targetConfig)
          || (i.MovesProfiles() && profiles != i.previousProfiles.value && profiles != i.targetProfiles.value))
    }

    constructor (device: Device, installedAt: Id -> nat, healthy: set<Id>, config: Config, pointers: Pointers,
                 profiles: ProfileCatalog, update: UpdateInfo, slots: Catalog)
      ensures Now() == Tuple(config, pointers, profiles, update, slots, {}, {})
      ensures intent.None? && operation.None? && candidates == {} && archives == map[] && this.device == device
      ensures this.installedAt == installedAt && this.healthy == healthy
    {
      this.config, this.pointers, this.profiles, this.update, this.slots := config, pointers, profiles, update, slots;
      runtimes, environments, candidates := {}, {}, {};
      intent, operation, archives := None, None, map[];
      this.device, this.installedAt, this.healthy := device, installedAt, healthy;
    }

    // ----- single durable steps -----

    method WriteConfig(document: Config) returns (ok: bool)
      modifies this`config, device
      ensures config == old(config) || config == Published(old(config), document)
      ensures ok ==> config == Published(old(config), document) && !device.crashed
      ensures ok && old(config).update != document.update && old(config).attempt == document.attempt ==>
        config == document.(attempt := None)
      ensures ok && (old(config).update == document.update || old(config).attempt != document.attempt) ==> config == document
      ensures old(device.crashed) ==> device.crashed && config == old(config)
      ensures device.faults == old(device.faults) + if ok then 0 else 1
    {
      var applied;
      applied, ok := device.Step();
      if applied {
        config := Published(config, document);
      }
    }

    method RestorePointers(wanted: Pointers) returns (ok: bool)
      modifies this`pointers, device
      ensures pointers == old(pointers) || pointers == wanted
      ensures ok ==> pointers == wanted && Resolves(slots, wanted) && !device.crashed
      ensures ok ==>
        && (wanted.current.Some? ==> wanted.current.value in slots && slots[wanted.current.value].Ready?)
        && (wanted.lastKnownGood.Some? ==> wanted.lastKnownGood.value in slots && slots[wanted.lastKnownGood.value].Ready?)
      ensures old(device.crashed) ==> device.crashed && pointers == old(pointers)
      ensures old(device.faults) <= device.faults
      ensures ok ==> device.faults == old(device.faults)
      ensures !ok ==> device.faults > old(device.faults) || !Resolves(slots, wanted)
    {
      ok := device.Attempt();
      if !ok || !Resolves(slots, wanted) {
        return false;
      }
      if pointers != wanted {
        var applied;
        applied, ok := device.Step();
        if applied {
          pointers := wanted;
        }
      }
    }

    method WriteProfiles(catalog: ProfileCatalog) returns (ok: bool)
      modifies this`profiles, device
      ensures profiles == old(profiles) || profiles == catalog
      ensures ok ==> profiles == catalog && !device.crashed
      ensures old(device.crashed) ==> device.crashed && profiles == old(profiles)
      ensures device.faults == old(device.faults) + if ok then 0 else 1
    {
      var applied;
      applied, ok := device.Step();
      if applied {
        profiles := catalog;
      }
    }

    method WriteUpdate(info: UpdateInfo) returns (ok: bool)
      modifies this`update, device
      ensures update == old(update) || update == info
      ensures ok ==> update == info && !device.crashed
      ensures old(device.crashed) ==> device.crashed && update == old(update)
      ensures device.faults == old(device.faults) + if ok then 0 else 1
    {
      var applied;
      applied, ok := device.Step();
      if applied {
        update := info;
      }
    }

    method WriteIntent(record: Intent) returns (ok: bool)
      modifies this`intent, device
      ensures intent == old(intent) || intent == Some(record)
      ensures ok ==> intent == Some(record) && !device.crashed
      ensures old(device.crashed) ==> device.crashed && intent == old(intent)
      ensures device.faults == old(device.faults) + if ok then 0 else 1
    {
      var applied;
      applied, ok := device.Step();
      if applied {
        intent := Some(record);
      }
    }

    method RemoveIntent() returns (ok: bool)
      modifies this`intent, device
      ensures intent == old(intent) || intent.None?
      ensures ok ==> intent.None? && !device.crashed
      ensures old(device.crashed) ==> device.crashed && intent == old(intent)
      ensures device.faults == old(device.faults) + if ok then 0 else 1
    {
      var applied;
      applied, ok := device.Step();
      if applied {
        intent := None;
      }
    }

    method WriteOperation(record: Operation) returns (ok: bool)
      modifies this`operation, device
      ensures operation == old(operation) || operation == Some(record)
      ensures ok ==> operation == Some(record) && !device.crashed
      ensures old(device.crashed) ==> device.crashed && operation == old(operation)
      ensures device.faults == old(device.faults) + if ok then 0 else 1
    {
      var applied;
      applied, ok := device.Step();
      if applied {
        operation := Some(record);
      }
    }

    method RemoveOperation() returns (ok: bool)
      modifies this`operation, device
      ensures operation == old(operation) || operation.None?
      ensures ok ==> operation.None? && !device.crashed
      ensures old(device.crashed) ==> device.crashed && operation == old(operation)
      ensures device.faults == old(device.faults) + if ok then 0 else 1
    {
      var applied;
      applied, ok := device.Step();
      if applied {
        operation := None;
      }
    }

    /** Deleting a tree takes many steps: a failure may leave a slot without its manifest. */
    method RemoveSlot(id: Id) returns (ok: bool)
      modifies this`slots, device
      ensures slots == old(slots) || slots == old(slots) - {id} || (id in old(slots) && slots == old(slots)[id := Partial])
      ensures ok ==> id !in slots && !device.crashed
      ensures old(device.crashed) ==> device.crashed && slots == old(slots)
      ensures device.faults == old(device.faults) + if ok then 0 else 1
    {
      var alive, begun: bool := !device.crashed, *;
      var applied;
      applied, ok := device.Step();
      if applied {
        slots := slots - {id};
      } else if alive && begun && id in slots {
        slots := slots[id := Partial];
      }
    }

    method RemoveRuntime(name: string) returns (ok: bool)
      modifies this`runtimes, device
      ensures runtimes == old(runtimes) || runtimes == old(runtimes) - {name}
      ensures ok ==> runtimes == old(runtimes) - {name} && !device.crashed
      ensures old(device.crashed) ==> device.crashed && runtimes == old(runtimes)
      ensures device.faults == old(device.faults) + if ok then 0 else 1
    {
      var applied;
      applied, ok := device.Step();
      if applied {
        runtimes := runtimes - {name};
      }
    }

    method RemoveEnvironment(id: Id) returns (ok: bool)
      modifies this`environments, device
      ensures environments == old(environments) || environments == old(environments) - {id}
      ensures ok ==> environments == old(environments) - {id} && !device.crashed
      ensures old(device.crashed) ==> device.crashed && environments == old(environments)
      ensures device.faults == old(device.faults) + if ok then 0 else 1
    {
      var applied;
      applied, ok := device.Step();
      if applied {
        environments := environments - {id};
      }
    }

    method CleanupCandidate(id: Id) returns (ok: bool)
      modifies this`candidates, device
      ensures candidates == old(candidates) || candidates == old(candidates) - {id}
      ensures ok ==> id !in candidates && !device.crashed
      ensures old(device.crashed) ==> device.crashed && candidates == old(candidates)
      ensures device.faults == old(device.faults) + if ok then 0 else 1
    {
      var applied;
      applied, ok := device.Step();
      if applied {
        candidates := candidates - {id};
      }
    }

    // ----- recovery -----

    /** The committed half of `ReconcilePublication`. */
    method RollForward(ghost base: Tuple) returns (ok: bool)
      requires intent.Some? && intent.value.committed && !intent.value.preserveCurrent
      modifies this`config, this`pointers, this`update, device
      ensures old(device.faults) <= device.faults
      ensures ok ==> device.faults == old(device.faults)
      ensures old(Pending(base)) && !ok ==> device.faults > old(device.faults)
      ensures old(Pending(base)) ==> Pending(base)
      ensures ok ==> !device.crashed
      ensures ok && old(Pending(base)) && profiles == intent.value.Target(base).profiles ==> Now() == intent.value.Target(base)
      ensures intent.value.prepareOnly ==> config == old(config) && pointers == old(pointers)
    {
      var i := intent.value;
      if !i.prepareOnly {
        ok := WriteConfig(i.targetConfig);
        if !ok { return; }
        ok := RestorePointers(i.TargetPointers());
        if !ok { return; }
      }
      ok := WriteUpdate(i.TargetUpdate());
    }

    /** The uncommitted half of `ReconcilePublication`. */
    method RollBack(ghost base: Tuple) returns (ok: bool)
      requires intent.Some? && !intent.value.committed && !intent.value.preserveCurrent
      modifies this`config, this`pointers, this`update, this`slots, this`runtimes, this`environments, device
      ensures old(device.faults) <= device.faults
      ensures ok ==> device.faults == old(device.faults)
      ensures old(Pending(base)) && !ok ==> device.faults > old(device.faults)
      ensures old(Pending(base)) ==> Pending(base)
      ensures ok ==> !device.crashed
      ensures ok && old(Pending(base)) && profiles == base.profiles ==> Now() == base
      ensures intent.value.prepareOnly ==> config == old(config) && pointers == old(pointers)
    {
      ok := RestoreSelection(base);
      if ok {
        ok := RemoveOwned(base);
      }
    }

    method RestoreSelection(ghost base: Tuple) returns (ok: bool)
      requires intent.Some? && !intent.value.committed && !intent.value.preserveCurrent
      modifies this`config, this`pointers, this`update, device
      ensures old(device.faults) <= device.faults
      ensures ok ==> device.faults == old(device.faults)
      ensures old(Pending(base)) && !ok ==> device.faults > old(device.faults)
      ensures old(Pending(base)) ==> Pending(base)
      ensures ok ==> !device.crashed
      ensures ok && old(Pending(base)) ==> config == base.config && pointers == base.pointers && update == base.update
      ensures intent.value.prepareOnly ==> config == old(config) && pointers == old(pointers)
    {
      var i := intent.value;
      if !i.prepareOnly {
        ok := WriteConfig(i.previousConfig);
        if !ok { return; }
        ok := RestorePointers(i.previousPointers);
        if !ok { return; }
      }
      ok := WriteUpdate(i.previousUpdate);
    }

    method RemoveOwned(ghost base: Tuple) returns (ok: bool)
      requires !device.crashed && intent.Some? && !intent.value.committed && !intent.value.preserveCurrent
      modifies this`slots, this`runtimes, this`environments, device
      ensures old(device.faults) <= device.faults
      ensures ok ==> device.faults == old(device.faults)
      ensures old(Pending(base)) && !ok ==> device.faults > old(device.faults)
      ensures old(Pending(base)) ==> Pending(base)
      ensures ok ==> !device.crashed
      ensures ok && old(Pending(base)) ==>
        slots == base.slots && runtimes == base.runtimes && environments == base.environments
      ensures runtimes == old(runtimes) || (intent.value.ownedRuntime == Some(RuntimeName(intent.value.operation.id))
                                            && runtimes == old(runtimes) - {RuntimeName(intent.value.operation.id)})
      ensures ok && intent.value.ownedRuntime.Some? ==> intent.value.ownedRuntime.value == RuntimeName(intent.value.operation.id)
    {
      ok := RemoveOwnedSlot(base);
      if ok {
        ok := RemoveOwnedRuntime(base);
      }
      if ok && intent.value.ownedEnvironment {
        ok := RemoveEnvironment(intent.value.operation.id);
      }
    }

    method RemoveOwnedSlot(ghost base: Tuple) returns (ok: bool)
      requires !device.crashed && intent.Some? && !intent.value.committed && !intent.value.preserveCurrent
      modifies this`slots, device
      ensures old(device.faults) <= device.faults
      ensures ok ==> device.faults == old(device.faults)
      ensures ok || device.faults > old(device.faults)
      ensures old(Pending(base)) ==> Pending(base)
      ensures ok ==> !device.crashed
      ensures ok && old(Pending(base)) ==> slots == base.slots
      ensures slots - {intent.value.operation.releaseId} == old(slots) - {intent.value.operation.releaseId}
      ensures !intent.value.newSlot ==> slots == old(slots)
    {
      var i := intent.value;
      ok := true;
      if i.newSlot {
        ok := RemoveSlot(i.operation.releaseId);
        assert ok ==> slots - {i.operation.releaseId} == slots;
      }
    }

    method RemoveOwnedRuntime(ghost base: Tuple) returns (ok: bool)
      requires !device.crashed && intent.Some? && !intent.value.committed && !intent.value.preserveCurrent
      modifies this`runtimes, device
      ensures old(device.faults) <= device.faults
      ensures ok ==> device.faults == old(device.faults)
      ensures old(Pending(base)) && !ok ==> device.faults > old(device.faults)
      ensures old(Pending(base)) ==> Pending(base)
      ensures ok ==> !device.crashed
      ensures ok && old(Pending(base)) ==> runtimes == base.runtimes
      // A runtime that does not carry this operation's name is never deleted.
      ensures runtimes == old(runtimes) || (intent.value.ownedRuntime == Some(RuntimeName(intent.value.operation.id))
                                            && runtimes == old(runtimes) - {RuntimeName(intent.value.operation.id)})
      ensures ok && intent.value.ownedRuntime.Some? ==> intent.value.ownedRuntime.value == RuntimeName(intent.value.operation.id)
    {
      var i := intent.value;
      ok := true;
      if i.ownedRuntime.Some? {
        if i.ownedRuntime.value != RuntimeName(i.operation.id) {
          return false;
        }
        ok := RemoveRuntime(i.ownedRuntime.value);
      }
    }

    /** Ends a publication by keeping whatever is on disk: the intent is archived, only the
        update record changes, and no file, pointer or setting is touched. */
    method FinishPreserved() returns (ok: bool)
      requires intent.Some?
      modifies this`update, this`archives, device
      ensures old(device.faults) <= device.faults
      ensures ok ==> device.faults == old(device.faults)
      ensures ok ==> !device.crashed && update.state.UpdateFailed? && update.release.None?
      ensures ok ==> intent.value.operation.id in archives && archives[intent.value.operation.id] == intent.value
      ensures archives == old(archives)
        || (intent.value.operation.id !in old(archives) && archives == old(archives)[intent.value.operation.id := intent.value])
      ensures !ok ==> device.faults > old(device.faults) || !ValidId(intent.value.operation.id) || old(ArchiveDiffers())
    {
      var i := intent.value;
      ok := device.Attempt();
      if !ok || !ValidId(i.operation.id) || ArchiveDiffers() {
        return false;
      }
      if i.operation.id !in archives {
        var applied;
        applied, ok := device.Step();
        if applied {
          archives := archives[i.operation.id := i];
        }
        if !ok { return; }
      }
      ok := WriteUpdate(UpdateInfo(UpdateFailed, None, Some(i.operation.startedAt)));
    }

    /** An archive of the same operation already holds another record. */
    predicate ArchiveDiffers()
      requires intent.Some?
      reads this
    {
      intent.value.operation.id in archives && archives[intent.value.operation.id] != intent.value
    }

    /** The checks that come before the first write, and the profiles. */
    method ReplayProfiles(ghost base: Tuple) returns (outcome: Outcome)
      requires intent.Some? && !intent.value.preserveCurrent
      modifies this`profiles, device
      ensures old(device.faults) <= device.faults
      ensures outcome.Done? ==> device.faults == old(device.faults)
      ensures old(Conflicts()) ==> !outcome.Done? && profiles == old(profiles)
      ensures outcome.Conflict? ==> old(Conflicts())
      ensures outcome.Conflict? <==>
        !intent.value.prepareOnly && old(config) != intent.value.previousConfig && old(config) != intent.value.targetConfig
      ensures old(Pending(base)) ==> Pending(base) && !outcome.Conflict?
      ensures old(Pending(base)) && outcome.Done? ==>
        profiles == if intent.value.committed then intent.value.Target(base).profiles else base.profiles
      ensures old(Pending(base)) && !outcome.Done? ==> device.faults > old(device.faults)
    {
      var i := intent.value;
      if !i.prepareOnly && config != i.previousConfig && config != i.targetConfig {
        return Conflict;
      }
      if i.MovesProfiles() {
        if profiles != i.previousProfiles.value && profiles != i.targetProfiles.value {
          return Failure;
        }
        var ok := WriteProfiles(if i.committed then i.targetProfiles.value else i.previousProfiles.value);
        if !ok {
          return Failure;
        }
      }
      return Done;
    }

    /** Replays an ordinary intent: the profiles, then the half its committed bit names. */
    method Replay(ghost base: Tuple) returns (outcome: Outcome)
      requires intent.Some? && !intent.value.preserveCurrent
      modifies this`config, this`pointers, this`profiles, this`update, this`slots, this`runtimes,
               this`environments, this`candidates, device
      ensures old(device.faults) <= device.faults
      ensures outcome.Done? ==> device.faults == old(device.faults)
      ensures outcome.Done? ==> !device.crashed
      ensures old(Conflicts()) ==> !outcome.Done? && Now() == old(Now()) && candidates == old(candidates)
      ensures outcome.Conflict? ==> old(Conflicts())
      ensures outcome.Conflict? <==>
        !intent.value.prepareOnly && old(config) != intent.value.previousConfig && old(config) != intent.value.targetConfig
      ensures old(Pending(base)) ==> Pending(base) && !outcome.Conflict?
      ensures old(Pending(base)) && outcome.Done? ==>
        Now() == (if intent.value.committed then intent.value.Target(base) else base)
        && intent.value.operation.id !in candidates
      ensures old(Pending(base)) && !outcome.Done? ==> device.faults > old(device.faults)
      ensures intent.value.prepareOnly ==> config == old(config) && pointers == old(pointers)
    {
      outcome := ReplayProfiles(base);
      if !outcome.Done? { return; }
      var ok;
      if intent.value.committed {
        ok := RollForward(base);
      } else {
        ok := RollBack(base);
      }
      if ok {
        ok := CleanupCandidate(intent.value.operation.id);
      }
      outcome := if ok then Done else Failure;
    }

    /** Brings an intent to its end. `settled` is the final operation record; the intent stays
        until `FinishPublication` removes it. */
    method ReconcilePublication(ghost base: Tuple) returns (outcome: Outcome, settled: Option<Operation>)
      modifies this`config, this`pointers, this`profiles, this`update, this`slots, this`runtimes,
               this`environments, this`candidates, this`archives, device
      ensures old(device.faults) <= device.faults
      ensures outcome.Done? ==> device.faults == old(device.faults)
      ensures outcome.Done? ==> !device.crashed && settled == (if intent.Some? then Some(intent.value.Result()) else None)
      // The record says whether the user kept the state, whether it was decided, and what for.
      ensures outcome.Done? && intent.Some? ==>
        && settled.value.phase == (
             if intent.value.preserveCurrent then Cancelled
             else if !intent.value.committed then Failed
             else if intent.value.prepareOnly then Prepared else Succeeded)
        && settled.value.ownerQuiescent && !settled.value.cleanupPending && settled.value.id == intent.value.operation.id
      ensures intent.None? ==> Now() == old(Now()) && candidates == old(candidates) && (!outcome.Done? ==> device.faults > old(device.faults))
      // An outside change stops recovery before its first write.
      ensures old(Conflicts()) ==>
        !outcome.Done? && Now() == old(Now()) && candidates == old(candidates) && archives == old(archives)
      ensures outcome.Conflict? ==> old(Conflicts())
      ensures intent.Some? && !intent.value.preserveCurrent && device.faults == old(device.faults) ==>
        (outcome.Conflict? <==>
        !intent.value.prepareOnly && old(config) != intent.value.previousConfig && old(config) != intent.value.targetConfig)
      // Without one, recovery stays between the two tuples and ends on the chosen one.
      ensures old(Pending(base)) ==> Pending(base) && !outcome.Conflict?
      ensures old(Pending(base)) && outcome.Done? ==>
        Now() == intent.value.Final(base) && intent.value.operation.id !in candidates
      ensures old(Pending(base)) && !outcome.Done? ==> device.faults > old(device.faults)
      ensures intent.Some? && intent.value.prepareOnly ==> config == old(config) && pointers == old(pointers)
      // A preserved publication keeps everything but the update record.
      ensures intent.Some? && intent.value.preserveCurrent ==>
        Now() == old(Now()).(update := update) && candidates == old(candidates)
      ensures intent.Some? && intent.value.preserveCurrent && outcome.Done? ==>
        intent.value.operation.id in archives && archives[intent.value.operation.id] == intent.value
      ensures intent.Some? && intent.value.preserveCurrent && !outcome.Done? ==>
        device.faults > old(device.faults) || !ValidId(intent.value.operation.id) || old(ArchiveDiffers())
      ensures intent.Some? && (!intent.value.preserveCurrent || !old(ArchiveDiffers())) ==>
        archives == old(archives) || archives == old(archives)[intent.value.operation.id := intent.value]
    {
      settled := None;
      var ok := device.Attempt();
      if !ok {
        return Failure, None;
      }
      if intent.None? {
        return Done, None;
      }
      if intent.value.preserveCurrent {
        ok := FinishPreserved();
        outcome := if ok then Done else Failure;
      } else {
        outcome := Replay(base);
      }
      if outcome.Done? {
        settled := Some(intent.value.Result());
      }
    }

    method FinishPublication(settled: Operation) returns (ok: bool)
      modifies this`operation, this`intent, device
      ensures device.faults == old(device.faults) + if ok then 0 else 1
      ensures intent == old(intent) || (intent.None? && operation == Some(settled))
      ensures operation == old(operation) || operation == Some(settled)
      ensures ok ==> intent.None? && operation == Some(settled) && !device.crashed
      ensures old(device.crashed) ==> device.crashed && intent == old(intent) && operation == old(operation)
    {
      ok := WriteOperation(settled);
      if ok {
        ok := RemoveIntent();
      }
    }

    /** Replay to the end. From any state a crash or an earlier failed replay left, the tuple
        named by the committed bit is reached, or the same intent is still there to retry. */
    method RecoverPublication(ghost base: Tuple) returns (outcome: Outcome)
      modifies this, device
      ensures old(device.faults) <= device.faults
      ensures outcome.Done? ==> device.faults == old(device.faults)
      ensures outcome.Done? ==> !device.crashed && intent.None?
      ensures intent == old(intent) || intent.None?
      ensures operation == old(operation) || (old(intent).Some? && operation == Some(old(intent).value.Result()))
      ensures intent.None? && old(intent).Some? ==> operation == Some(old(intent).value.Result())
      // What the record then says: kept by the user, rolled back, prepared or published.
      ensures intent.None? && old(intent).Some? ==>
        && operation.value.phase == (
             if old(intent).value.preserveCurrent then Cancelled
             else if !old(intent).value.committed then Failed
             else if old(intent).value.prepareOnly then Prepared else Succeeded)
        && operation.value.ownerQuiescent && !operation.value.cleanupPending
        && operation.value.id == old(intent).value.operation.id
      // Success is recorded only for a decided publication whose whole target is on disk.
      ensures old(Pending(base)) && operation != old(operation) && (operation.value.phase.Prepared? || operation.value.phase.Succeeded?) ==>
        old(intent).value.committed && Now() == old(intent).value.Target(base)
      ensures old(intent).None? ==>
        Now() == old(Now()) && operation == old(operation) && candidates == old(candidates) && (!outcome.Done? ==> device.faults > old(device.faults))
      ensures old(Conflicts()) ==> !outcome.Done? && Now() == old(Now()) && intent == old(intent)
                                   && operation == old(operation) && candidates == old(candidates)
      ensures old(Pending(base)) ==>
        if intent.Some? then Pending(base) && !outcome.Done?
        else Now() == old(intent).value.Final(base) && operation == Some(old(intent).value.Result())
             && old(intent).value.operation.id !in candidates
      ensures old(Pending(base)) && !outcome.Done? ==> device.faults > old(device.faults) && !outcome.Conflict?
      ensures old(intent).Some? && old(intent).value.prepareOnly ==> config == old(config) && pointers == old(pointers)
      ensures old(intent).Some? && old(intent).value.preserveCurrent ==>
        Now() == old(Now()).(update := update) && candidates == old(candidates)
      ensures old(intent).Some? && old(intent).value.preserveCurrent && outcome.Done? ==>
        old(intent).value.operation.id in archives && archives[old(intent).value.operation.id] == old(intent).value
      ensures old(intent).Some? && old(intent).value.preserveCurrent && !outcome.Done? ==>
        device.faults > old(device.faults) || !ValidId(old(intent).value.operation.id) || old(ArchiveDiffers())
      ensures old(intent).Some? && old(intent).value.preserveCurrent && !old(ArchiveDiffers()) && intent.Some? ==>
        !ArchiveDiffers()
    {
      var settled;
      outcome, settled := ReconcilePublication(base);
      if outcome.Done? && settled.Some? {
        var ok := FinishPublication(settled.value);
        if !ok {
          outcome := Failure;
        }
      }
    }

    /** The user's choice between retrying a pending recovery and keeping what is there. */
    method RecoverExplicit(id: Id, preserve: bool, ghost base: Tuple) returns (outcome: Outcome)
      modifies this, device
      ensures old(intent).None? || old(intent).value.operation.id != id ==>
        !outcome.Done? && Now() == old(Now()) && intent == old(intent) && operation == old(operation)
        && candidates == old(candidates)
      ensures old(device.faults) <= device.faults
      ensures outcome.Done? ==> device.faults == old(device.faults)
      ensures outcome.Done? ==> intent.None?
      // When the intent goes, the record says what became of it.
      ensures intent.None? && old(intent).Some? ==>
        && operation.Some? && operation.value.id == old(intent).value.operation.id == id
        && operation.value.phase == (
             if preserve || old(intent).value.preserveCurrent then Cancelled
             else if !old(intent).value.committed then Failed
             else if old(intent).value.prepareOnly then Prepared else Succeeded)
        && operation.value.ownerQuiescent && !operation.value.cleanupPending
      ensures old(Pending(base)) && operation != old(operation) && operation.Some?
              && (operation.value.phase.Prepared? || operation.value.phase.Succeeded?) ==>
        !preserve && old(intent).value.committed && Now() == old(intent).value.Target(base)
      ensures old(intent).Some? && (preserve || old(intent).value.preserveCurrent) ==>
        Now() == old(Now()).(update := update) && candidates == old(candidates)
      // Keeping works for every id that can name an archive, unless another record is archived under it.
      ensures old(intent).Some? && (preserve || old(intent).value.preserveCurrent) && old(intent).value.operation.id == id && ValidId(id)
              && (id in old(archives) ==> old(archives)[id] == old(intent).value.(preserveCurrent := true)) ==>
        outcome.Done? || device.faults > old(device.faults)
      ensures intent.None? || intent == old(intent) || intent == Some(old(intent).value.(preserveCurrent := true))
      ensures operation == old(operation) || (old(intent).Some? &&
        operation == Some(old(intent).value.(preserveCurrent := preserve || old(intent).value.preserveCurrent).Result()))
      ensures intent.None? && old(intent).Some? ==>
        operation == Some(old(intent).value.(preserveCurrent := preserve || old(intent).value.preserveCurrent).Result())
      ensures preserve && intent.Some? && !intent.value.preserveCurrent ==> Now() == old(Now()) && intent == old(intent)
      ensures !preserve && old(Pending(base)) ==>
        if intent.Some? then Pending(base) else Now() == old(intent).value.Final(base)
      ensures !preserve && old(Pending(base)) && old(intent).value.operation.id == id ==> outcome.Done? || device.faults > old(device.faults)
    {
      var ok := device.Attempt();
      if !ok || intent.None? || intent.value.operation.id != id {
        return Failure;
      }
      if preserve && !intent.value.preserveCurrent {
        ok := WriteIntent(intent.value.(preserveCurrent := true));
        if !ok {
          return Failure;
        }
      }
      outcome := RecoverPublication(base);
    }

    // ----- publication -----

    /** The state after a publication attempt: nothing on disk, or a pending intent that
        aims at `Target`, or everything done. */
    ghost predicate Attempted(base: Tuple, goal: Intent)
      reads this
    {
      if intent.Some? then Pending(base) && intent.value == goal.(committed := intent.value.committed)
      else Now() == base || Now() == goal.Target(base)
    }

    /** What each way of publishing is for, as the whole tuple it leaves. */
    ghost predicate Aims(job: Job, op: Operation, base: Tuple, goal: Intent) {
      match job
      case RepairSlot =>
        && op.releaseId !in base.slots
        && goal.Target(base) == base.(
             update := UpdateInfo(UpdatePrepared, Some(op.releaseId), Some(op.startedAt)),
             slots := base.slots[op.releaseId := Ready(op.tag)])
      case Reuse =>
        && LatestOf(base.slots, goal.operation.releaseId, op.tag)
        && goal.Target(base) == base.(
             update := UpdateInfo(UpdatePrepared, Some(goal.operation.releaseId), Some(op.startedAt)))
      case SelectFirst(wanted, confirmed) =>
        && Registered(base.slots, Some(op.releaseId))
        && IsFallback(base.slots, op.releaseId, goal.targetLkg)
        && goal.Target(base) == base.(
             config := wanted.(attempt := None),
             pointers := Pointers(Some(op.releaseId), goal.targetLkg),
             update := UpdateInfo(UpdateSucceeded, Some(op.releaseId), Some(op.startedAt)))
      case Import(wanted, runtime, environment, catalog) =>
        && (runtime ==> op.releaseId !in base.slots && IsFallback(base.slots, op.releaseId, goal.targetLkg))
        && goal.Target(base) == Tuple(
             wanted.(attempt := None),
             if runtime then Pointers(Some(op.releaseId), goal.targetLkg) else base.pointers,
             if catalog.Some? then catalog.value else base.profiles,
             UpdateInfo(UpdateSucceeded, Some(op.releaseId), Some(op.startedAt)),
             if runtime then base.slots[op.releaseId := Ready(op.tag)] else base.slots,
             if runtime then base.runtimes + {RuntimeName(op.id)} else base.runtimes,
             if environment then base.environments + {op.id} else base.environments)
    }

    /** A publication that was decided, or has already changed something for good. */
    ghost predicate Effective(base: Tuple, goal: Intent, outcome: Outcome)
      reads this
    {
      outcome.Done? || (if intent.Some? then intent.value.committed else Now() != base)
    }

    /** A registered release other than `selected` that has passed its health check. */
    predicate Offers(catalog: Catalog, selected: Id, other: Id) {
      other in catalog && catalog[other].Ready? && other != selected && other in healthy
    }

    /** A fallback exactly when there is one to offer. */
    ghost predicate IsFallback(catalog: Catalog, selected: Id, fallback: Option<Id>) {
      match fallback
      case Some(other) => Offers(catalog, selected, other)
      case None => forall other <- catalog :: !Offers(catalog, selected, other)
    }

    predicate HasFallback(selected: Id)
      reads this
    {
      exists other <- slots :: Offers(slots, selected, other)
    }

    /** Selecting `id` keeps a way back, or there is nothing to go back to. */
    predicate Protected(id: Id)
      reads this
    {
      pointers.current == Some(id) || pointers == Pointers(None, None) || HasFallback(id)
    }

    /** A healthy release other than `selected`, if there is one. */
    method VerifiedFallback(selected: Id) returns (ok: bool, fallback: Option<Id>)
      modifies device
      ensures ok ==> !device.crashed && IsFallback(slots, selected, fallback)
      ensures device.faults == old(device.faults) + if ok then 0 else 1
      ensures fallback.Some? ==>
        fallback.value in healthy && fallback.value in slots && slots[fallback.value].Ready? && fallback.value != selected
      ensures ok && fallback.None? ==> forall other <- healthy :: other != selected && other in slots ==> slots[other].Partial?
    {
      ok := device.Attempt();
      fallback := None;
      if ok && HasFallback(selected) {
        var other :| other in slots && Offers(slots, selected, other);
        fallback := Some(other);
      }
    }

    method PreparePublication(op: Operation, newSlot: bool, wanted: Config, prepareOnly: bool) returns (record: Option<Intent>)
      requires intent.None?
      modifies this`intent, device
      ensures old(device.faults) <= device.faults
      ensures record.Some? ==> device.faults == old(device.faults)
      ensures record.Some? ==> !device.crashed && intent == record
      ensures record.None? ==> device.faults > old(device.faults) || (newSlot && op.releaseId in slots)
      ensures intent.Some? ==>
        && (newSlot ==> op.releaseId !in slots)
        && intent.value == Intent(prepareOnly, None, None, false, false, None, false, false, op, config,
             if prepareOnly then wanted else wanted.(attempt := None), pointers, intent.value.targetLkg, update, newSlot)
        && Registered(slots, intent.value.targetLkg)
        && (!prepareOnly ==> IsFallback(slots, op.releaseId, intent.value.targetLkg))
    {
      var ok := device.Attempt();
      if !ok || (newSlot && op.releaseId in slots) {
        return None;
      }
      var lkg := None;
      if !prepareOnly {
        ok, lkg := VerifiedFallback(op.releaseId);
        if !ok {
          return None;
        }
      }
      var i := Intent(prepareOnly, None, None, false, false, None, false, false, op, config,
        if prepareOnly then wanted else wanted.(attempt := None), pointers, lkg, update, newSlot);
      ok := WriteIntent(i);
      return if ok then Some(i) else None;
    }

    /** Renames the prepared directory to its slot, which is not a release before its manifest. */
    method MoveSlot(id: Id, candidate: Option<Id>) returns (ok: bool)
      requires id !in slots && (candidate.Some? ==> candidate.value in candidates)
      modifies this`slots, this`candidates, device
      ensures device.faults == old(device.faults) + if ok then 0 else 1
      ensures (slots == old(slots) && candidates == old(candidates))
        || (slots == old(slots)[id := Partial] && candidates == old(candidates) - if candidate.Some? then {candidate.value} else {})
      ensures ok ==> id in slots && !device.crashed
      ensures old(device.crashed) ==> device.crashed && slots == old(slots)
    {
      var applied;
      applied, ok := device.Step();
      if applied {
        slots := slots[id := Partial];
        candidates := if candidate.Some? then candidates - {candidate.value} else candidates;
      }
    }

    method WriteManifest(id: Id, version: string) returns (ok: bool)
      requires id in slots && slots[id].Partial?
      modifies this`slots, device
      ensures device.faults == old(device.faults) + if ok then 0 else 1
      ensures slots == old(slots) || slots == old(slots)[id := Ready(version)]
      ensures ok ==> slots[id] == Ready(version) && !device.crashed
    {
      var applied;
      applied, ok := device.Step();
      if applied {
        slots := slots[id := Ready(version)];
      }
    }

    /** Moves a prepared directory into the releases and writes its manifest last. */
    method RegisterPrepared(id: Id, version: string, candidate: Option<Id>) returns (ok: bool)
      modifies this`slots, this`candidates, device
      ensures old(device.faults) <= device.faults
      ensures ok ==> device.faults == old(device.faults)
      ensures old(id in slots) ==> !ok && slots == old(slots)
      ensures slots == old(slots) || slots == old(slots)[id := Partial] || slots == old(slots)[id := Ready(version)]
      ensures candidates == old(candidates) - if candidate.Some? && slots != old(slots) then {candidate.value} else {}
      ensures ok ==> slots == old(slots)[id := Ready(version)] && !device.crashed
      ensures !ok ==> device.faults > old(device.faults) || id in old(slots) || (candidate.Some? && candidate.value !in old(candidates))
    {
      ok := device.Attempt();
      if !ok || id in slots || (candidate.Some? && candidate.value !in candidates) {
        return false;
      }
      ok := MoveSlot(id, candidate);
      if ok {
        ok := WriteManifest(id, version);
      }
    }

    /** Selects a registered release and keeps only a verified fallback beside it. Without a
        fallback the selection is refused, unless the user confirmed that risk. */
    method Promote(id: Id, confirmed: bool) returns (ok: bool)
      modifies this`pointers, device
      ensures old(device.faults) <= device.faults
      ensures ok ==> device.faults == old(device.faults)
      ensures ok ==> !device.crashed && Registered(slots, Some(id)) && (confirmed || old(Protected(id)))
      ensures !ok ==> device.faults > old(device.faults) || !Registered(slots, Some(id)) || (!confirmed && !old(Protected(id)))
      ensures pointers == old(pointers) || pointers.current == Some(id)
      ensures ok ==> pointers.current == Some(id)
      // Without the user's word there must be a way back, or nothing to lose.
      ensures ok && !confirmed ==>
        old(pointers).current == Some(id) || old(pointers) == Pointers(None, None)
        || exists other <- healthy :: other != id && other in slots && slots[other].Ready?
      ensures Registered(slots, Some(id))
              && (confirmed || old(pointers).current == Some(id) || old(pointers) == Pointers(None, None)
                  || exists other <- healthy :: other != id && other in slots && slots[other].Ready?) ==>
        ok || device.faults > old(device.faults)
    {
      var fallback;
      ok, fallback := VerifiedFallback(id);
      if !ok || id !in slots || !slots[id].Ready? || (!confirmed && !Protected(id)) {
        return false;
      }
      if pointers.current != Some(id) {
        var applied;
        applied, ok := device.Step();
        if applied {
          pointers := Pointers(Some(id), fallback);
        }
      }
    }

    /** The last two steps of every publication: the durable decision and its replay. */
    method CommitAndRecover(i: Intent, ghost base: Tuple) returns (outcome: Outcome)
      requires intent == Some(i) && !i.committed && Pending(base)
      requires Now().slots == i.Target(base).slots
      requires runtimes == i.Target(base).runtimes && environments == i.Target(base).environments
      requires !i.prepareOnly ==> Resolves(slots, i.Target(base).pointers)
      modifies this, device
      ensures old(device.faults) <= device.faults
      ensures outcome.Done? ==> device.faults == old(device.faults)
      ensures Attempted(base, i)
      ensures operation == old(operation)
        || (operation == Some(i.operation.Finished(if i.prepareOnly then Prepared else Succeeded)) && Now() == i.Target(base)
            && (intent.Some? ==> intent.value.committed))
      ensures outcome.Done? ==>
        !device.crashed && intent.None? && Now() == i.Target(base)
        && operation == Some(i.operation.Finished(if i.prepareOnly then Prepared else Succeeded))
      ensures outcome.Done? || device.faults > old(device.faults)
    {
      var ok := WriteIntent(i.(committed := true));
      assert Pending(base);
      if !ok {
        return Failure;
      }
      outcome := RecoverPublication(base);
    }

    /** A freshly built tag becomes a slot; selection and settings stay as they are. */
    method PrepareRepairSlot(op: Operation) returns (outcome: Outcome, ghost goal: Intent)
      requires intent.None?
      modifies this, device
      ensures old(device.faults) <= device.faults
      ensures outcome.Done? ==> device.faults == old(device.faults)
      ensures goal.prepareOnly && !goal.committed && goal.operation == op && !goal.preserveCurrent
      ensures Effective(old(Now()), goal, outcome) || operation != old(operation) ==> Aims(RepairSlot, op, old(Now()), goal)
      ensures Attempted(old(Now()), goal)
      ensures outcome.Done? ==> intent.None? && Now() == goal.Target(old(Now())) && operation == Some(op.Finished(Prepared))
      ensures outcome.Done? || device.faults > old(device.faults) || op.releaseId in old(slots) || op.id !in old(candidates)
      ensures operation == old(operation) || (operation == Some(op.Finished(Prepared)) && Now() == goal.Target(old(Now()))
                                              && (intent.Some? ==> intent.value.committed))
      ensures config == old(config) && pointers == old(pointers)
    {
      ghost var base := Now();
      goal := Intent(true, None, None, false, false, None, false, false, op, config, config, pointers, None, update, true);
      var record := PreparePublication(op, true, config, true);
      if intent.Some? {
        goal := intent.value;
      }
      if record.None? {
        return Failure, goal;
      }
      var ok := RegisterPrepared(op.releaseId, op.tag, Some(op.id));
      if !ok {
        return Failure, goal;
      }
      outcome := CommitAndRecover(record.value, base);
    }

    /** The most recently installed release of this tag. */
    predicate LatestOf(catalog: Catalog, release: Id, tag: string) {
      && release in catalog && catalog[release] == Ready(tag)
      && forall other <- catalog :: catalog[other] == Ready(tag) ==> installedAt(other) <= installedAt(release)
    }

    method Latest(tag: string) returns (release: Id)
      requires exists other <- slots :: slots[other] == Ready(tag)
      ensures LatestOf(slots, release, tag)
    {
      release :| release in slots && slots[release] == Ready(tag);
      var unseen := slots.Keys;
      while unseen != {}
        invariant unseen <= slots.Keys && release in slots && slots[release] == Ready(tag)
        invariant forall other <- slots :: other !in unseen && slots[other] == Ready(tag) ==>
          installedAt(other) <= installedAt(release)
        decreases unseen
      {
        var other :| other in unseen;
        unseen := unseen - {other};
        if slots[other] == Ready(tag) && installedAt(release) < installedAt(other) {
          release := other;
        }
      }
    }

    /** The tag is already installed: only the update and operation records change. */
    method ReusePrepared(op: Operation) returns (outcome: Outcome, ghost goal: Intent)
      requires intent.None?
      modifies this, device
      ensures old(device.faults) <= device.faults
      ensures outcome.Done? ==> device.faults == old(device.faults)
      ensures goal.prepareOnly && !goal.committed && goal.operation == op.(releaseId := goal.operation.releaseId) && !goal.preserveCurrent
      ensures goal.Target(old(Now())) == old(Now()).(update := goal.TargetUpdate())
      ensures Attempted(old(Now()), goal)
      ensures Effective(old(Now()), goal, outcome) || operation != old(operation) ==> Aims(Reuse, op, old(Now()), goal)
      ensures outcome.Done? ==>
        && operation == Some(op.(releaseId := goal.operation.releaseId).Finished(Prepared))
        && intent.None? && Now() == goal.Target(old(Now()))
      ensures outcome.Done? || device.faults > old(device.faults) || forall release <- slots :: slots[release] != Ready(op.tag)
      ensures operation == old(operation)
        || (operation == Some(op.(releaseId := goal.operation.releaseId).Finished(Prepared)) && Now() == goal.Target(old(Now()))
            && (intent.Some? ==> intent.value.committed))
      ensures config == old(config) && pointers == old(pointers) && slots == old(slots)
    {
      ghost var base := Now();
      goal := Intent(true, None, None, false, false, None, false, false, op, config, config, pointers, None, update, false);
      var ok := device.Attempt();
      if !ok || forall release <- slots :: slots[release] != Ready(op.tag) {
        return Failure, goal;
      }
      var release := Latest(op.tag);
      var record := PreparePublication(op.(releaseId := release), false, config, true);
      if intent.Some? {
        goal := intent.value;
      }
      if record.None? {
        return Failure, goal;
      }
      outcome := CommitAndRecover(record.value, base);
    }

    /** First use: launch settings and selection are published together. */
    method InitializeSelected(op: Operation, wanted: Config, confirmed: bool) returns (outcome: Outcome, ghost goal: Intent)
      requires intent.None? && Resolves(slots, pointers)
      modifies this, device
      ensures old(device.faults) <= device.faults
      ensures outcome.Done? ==> device.faults == old(device.faults)
      ensures !goal.prepareOnly && !goal.committed && goal.operation == op && !goal.preserveCurrent
      ensures Effective(old(Now()), goal, outcome) ==> Aims(SelectFirst(wanted, confirmed), op, old(Now()), goal)
      ensures Attempted(old(Now()), goal)
      ensures outcome.Done? ==> intent.None? && Now() == goal.Target(old(Now())) && operation == Some(op.Finished(Succeeded))
      ensures operation == old(operation) || (operation == Some(op.Finished(Succeeded)) && Now() == goal.Target(old(Now())))
      ensures outcome.Done? || device.faults > old(device.faults) || !Registered(old(slots), Some(op.releaseId))
        || (!confirmed && !old(Protected(op.releaseId)))
    {
      ghost var base := Now();
      goal := Intent(false, None, None, false, false, None, false, false, op, config, wanted.(attempt := None),
                     pointers, None, update, false);
      var record := PreparePublication(op, false, wanted, false);
      if intent.Some? {
        goal := intent.value;
      }
      if record.None? {
        return Failure, goal;
      }
      var ok := Promote(op.releaseId, confirmed);
      if !ok {
        return Failure, goal;
      }
      outcome := CommitAndRecover(record.value, base);
    }

    /** Moves the imported environment and runtime out of the candidate. */
    method MoveImported(i: Intent) returns (ok: bool)
      requires i.ownedEnvironment ==> i.operation.id !in environments
      requires i.ownedRuntime.Some? ==> i.ownedRuntime.value !in runtimes
      modifies this`runtimes, this`environments, device
      ensures old(device.faults) <= device.faults
      ensures ok ==> device.faults == old(device.faults)
      ensures environments == old(environments) || (i.ownedEnvironment && environments == old(environments) + {i.operation.id})
      ensures runtimes == old(runtimes) || (i.ownedRuntime.Some? && runtimes == old(runtimes) + {i.ownedRuntime.value})
      ensures ok && i.ownedEnvironment ==> i.operation.id in environments
      ensures ok && i.ownedRuntime.Some? ==> i.ownedRuntime.value in runtimes
      ensures ok || device.faults > old(device.faults)
    {
      ok := true;
      var applied;
      if i.ownedEnvironment {
        applied, ok := device.Step();
        if applied {
          environments := environments + {i.operation.id};
        }
        if !ok { return; }
      }
      if i.ownedRuntime.Some? {
        applied, ok := device.Step();
        if applied {
          runtimes := runtimes + {i.ownedRuntime.value};
        }
      }
    }

    /** `write_if_current`: publishes only over the captured settings. */
    method WriteIfCurrent(expected: Config, document: Config) returns (ok: bool)
      modifies this`config, device
      ensures old(device.faults) <= device.faults
      ensures ok ==> device.faults == old(device.faults)
      ensures config == old(config) || (old(config) == expected && config == document.(attempt := None))
      ensures ok ==> !device.crashed && config == document.(attempt := None)
      ensures !ok ==> device.faults > old(device.faults) || old(config) != expected
    {
      if config != expected {
        return false;
      }
      ok := WriteConfig(document.(attempt := None));
    }

    /** The files of an import: nothing is selected yet. */
    method StageFiles(i: Intent, ghost base: Tuple) returns (ok: bool)
      requires intent == Some(i) && !i.committed && !i.prepareOnly && Pending(base) && Now() == base
      modifies this`slots, this`runtimes, this`environments, this`candidates, device
      ensures old(device.faults) <= device.faults
      ensures ok ==> device.faults == old(device.faults)
      ensures Pending(base)
      ensures ok ==> slots == i.Target(base).slots && runtimes == i.Target(base).runtimes && environments == i.Target(base).environments
      ensures ok || device.faults > old(device.faults)
    {
      ok := MoveImported(i);
      if ok && i.newSlot {
        ok := RegisterPrepared(i.operation.releaseId, i.operation.tag, None);
      }
    }

    /** Everything an import does between its intent and its commit. */
    method StageImport(i: Intent, wanted: Config, ghost base: Tuple) returns (ok: bool)
      requires intent == Some(i) && !i.committed && !i.prepareOnly && Pending(base) && Now() == base
      requires i.targetConfig == wanted.(attempt := None) && i.preserveRelease == !i.newSlot
      requires Registered(slots, i.targetLkg) && (i.newSlot ==> Protected(i.operation.releaseId))
      modifies this`config, this`pointers, this`slots, this`runtimes, this`environments, this`candidates, device
      ensures old(device.faults) <= device.faults
      ensures ok ==> device.faults == old(device.faults)
      ensures Pending(base)
      ensures ok ==> !device.crashed && slots == i.Target(base).slots && runtimes == i.Target(base).runtimes
                     && environments == i.Target(base).environments && Resolves(slots, i.Target(base).pointers)
      ensures ok || device.faults > old(device.faults)
      ensures ok ==> config == i.targetConfig && (i.newSlot ==> pointers.current == Some(i.operation.releaseId))
    {
      ok := StageFiles(i, base);
      if !ok { return; }
      ok := device.Attempt(); // the finalize helper
      if !ok { return; }
      ok := WriteIfCurrent(i.previousConfig, wanted);
      if !ok { return; }
      if i.newSlot {
        ok := Promote(i.operation.releaseId, false);
      }
    }

    method StageAndCommit(i: Intent, wanted: Config, ghost base: Tuple) returns (outcome: Outcome)
      requires intent == Some(i) && !i.committed && !i.prepareOnly && Pending(base) && Now() == base
      requires i.targetConfig == wanted.(attempt := None) && i.preserveRelease == !i.newSlot
      requires Registered(slots, i.targetLkg) && (i.newSlot ==> Protected(i.operation.releaseId))
      modifies this, device
      ensures old(device.faults) <= device.faults
      ensures outcome.Done? ==> device.faults == old(device.faults)
      ensures Attempted(base, i)
      ensures outcome.Done? ==> intent.None? && Now() == i.Target(base) && operation == Some(i.operation.Finished(Succeeded))
      ensures operation == old(operation) || (operation == Some(i.operation.Finished(Succeeded)) && Now() == i.Target(base))
      ensures outcome.Done? || device.faults > old(device.faults)
    {
      var ok := StageImport(i, wanted, base);
      if !ok {
        return Failure;
      }
      outcome := CommitAndRecover(i, base);
    }

    /** Imports a verified offline package. With `runtime` it also installs and selects a
        release; otherwise only settings, environment and profiles move. */
    method PublishImport(op: Operation, wanted: Config, runtime: bool, environment: bool, catalog: Option<ProfileCatalog>)
      returns (outcome: Outcome, ghost goal: Intent)
      requires intent.None? && Resolves(slots, pointers)
      requires environment ==> op.id !in environments
      requires runtime ==> RuntimeName(op.id) !in runtimes
      modifies this, device
      ensures old(device.faults) <= device.faults
      ensures outcome.Done? ==> device.faults == old(device.faults)
      ensures !goal.prepareOnly && !goal.committed && goal.operation == op && !goal.preserveCurrent
      ensures Effective(old(Now()), goal, outcome) ==>
        Aims(Import(wanted, runtime, environment, catalog), op, old(Now()), goal)
      ensures Attempted(old(Now()), goal)
      ensures outcome.Done? ==> intent.None? && Now() == goal.Target(old(Now())) && operation == Some(op.Finished(Succeeded))
      ensures operation == old(operation) || (operation == Some(op.Finished(Succeeded)) && Now() == goal.Target(old(Now())))
      ensures outcome.Done? || device.faults > old(device.faults)
        || (runtime && (op.releaseId in old(slots) || !old(Protected(op.releaseId))))
    {
      ghost var base := Now();
      goal := Intent(false, None, None, false, false, None, false, false, op, config, wanted.(attempt := None),
                     pointers, None, update, runtime);
      if runtime && !Protected(op.releaseId) {
        return Failure, goal;
      }
      var record := PreparePublication(op, runtime, wanted, false);
      if intent.Some? {
        goal := intent.value;
      }
      if record.None? {
        return Failure, goal;
      }
      outcome, goal := ImportRecorded(record.value, op, wanted, runtime, environment, catalog);
    }

    /** The import from its first record on: the record is completed before anything moves. */
    method ImportRecorded(record: Intent, op: Operation, wanted: Config, runtime: bool, environment: bool, catalog: Option<ProfileCatalog>)
      returns (outcome: Outcome, ghost goal: Intent)
      requires intent == Some(record) && Resolves(slots, pointers) && Registered(slots, record.targetLkg)
      requires record == Intent(false, None, None, false, false, None, false, false, op, config, wanted.(attempt := None),
                                pointers, record.targetLkg, update, runtime)
      requires environment ==> op.id !in environments
      requires runtime ==> RuntimeName(op.id) !in runtimes && op.releaseId !in slots && Protected(op.releaseId)
                           && IsFallback(slots, op.releaseId, record.targetLkg)
      modifies this, device
      ensures old(device.faults) <= device.faults
      ensures outcome.Done? ==> device.faults == old(device.faults)
      ensures !goal.prepareOnly && !goal.committed && goal.operation == op && !goal.preserveCurrent
      ensures Effective(old(Now()), goal, outcome) ==>
        Aims(Import(wanted, runtime, environment, catalog), op, old(Now()), goal)
      ensures Attempted(old(Now()), goal)
      ensures outcome.Done? ==> intent.None? && Now() == goal.Target(old(Now())) && operation == Some(op.Finished(Succeeded))
      ensures operation == old(operation) || (operation == Some(op.Finished(Succeeded)) && Now() == goal.Target(old(Now())))
      ensures outcome.Done? || device.faults > old(device.faults)
    {
      ghost var base := Now();
      var i := record.(ownedRuntime := if runtime then Some(RuntimeName(op.id)) else None,
        ownedEnvironment := environment, preserveRelease := !runtime,
        previousProfiles := if catalog.Some? then Some(profiles) else None, targetProfiles := catalog);
      var ok := WriteIntent(i);
      goal := intent.value;
      if !ok {
        return Failure, goal;
      }
      outcome := StageAndCommit(i, wanted, base);
    }

    // ----- runs -----

    /** Any number of process lives, each cut at any durable step of its recovery. */
    method RecoverAcrossCrashes(lives: nat, ghost base: Tuple) returns (settled: bool)
      requires Pending(base)
      modifies this, device, device.lives
      ensures intent.Some? ==> intent == old(intent) && Pending(base) && !settled
      ensures intent.None? ==> Now() == if old(intent).value.committed then old(intent).value.Target(base) else base
      ensures settled ==> intent.None?
      ensures intent.None? ==> operation == Some(old(intent).value.operation.Finished(
        if !old(intent).value.committed then Failed else if old(intent).value.prepareOnly then Prepared else Succeeded))
      ensures lives > 0 && device.faults == 0 ==> settled
      ensures old(intent).value.prepareOnly ==> config == old(config) && pointers == old(pointers)
      ensures device.lives.count == old(device.lives.count) + lives
    {
      settled := false;
      for life := 0 to lives
        invariant device.lives.count == old(device.lives.count) + life
        invariant intent.Some? ==> intent == old(intent) && Pending(base) && !settled
        invariant intent.None? ==> Now() == old(intent).value.Final(base)
        invariant intent.None? ==> operation == Some(old(intent).value.operation.Finished(
          if !old(intent).value.committed then Failed else if old(intent).value.prepareOnly then Prepared else Succeeded))
        invariant intent.None? && life > 0 && device.faults == 0 ==> settled
        invariant intent.Some? && life > 0 ==> device.faults > 0
        invariant old(intent).value.prepareOnly ==> config == old(config) && pointers == old(pointers)
      {
        device.Restart();
        var outcome := RecoverPublication(base);
        settled := outcome.Done?;
      }
    }

    /** The same for a publication the user chose to end by keeping the current state. */
    method KeepAcrossCrashes(lives: nat, ghost base: Tuple)
      requires intent.Some? && intent.value.preserveCurrent && !ArchiveDiffers()
      modifies this, device, device.lives
      ensures Now() == old(Now()).(update := update) && candidates == old(candidates)
      ensures intent == old(intent) || intent.None?
      ensures intent.None? ==> operation.Some? && operation.value.id == old(intent).value.operation.id && operation.value.phase.Cancelled?
      ensures lives > 0 && device.faults == 0 && ValidId(old(intent).value.operation.id) ==> intent.None?
      ensures device.lives.count == old(device.lives.count) + lives
    {
      for life := 0 to lives
        invariant device.lives.count == old(device.lives.count) + life
        invariant intent == old(intent) || intent.None?
        invariant intent.Some? ==> !ArchiveDiffers()
        invariant intent.None? ==> operation.Some? && operation.value.id == old(intent).value.operation.id && operation.value.phase.Cancelled?
        invariant Now() == old(Now()).(update := update) && candidates == old(candidates)
        invariant life > 0 && device.faults == 0 && ValidId(old(intent).value.operation.id) ==> intent.None?
      {
        device.Restart();
        var _ := RecoverPublication(base);
      }
    }

    method Publish(job: Job, op: Operation) returns (outcome: Outcome, ghost goal: Intent)
      requires intent.None? && (job.SelectFirst? || job.Import? ==> Resolves(slots, pointers))
      requires job.Import? ==> op.id !in environments && RuntimeName(op.id) !in runtimes
      modifies this, device
      ensures old(device.faults) <= device.faults
      ensures outcome.Done? ==> device.faults == old(device.faults)
      ensures goal.prepareOnly == (job.RepairSlot? || job.Reuse?) && !goal.preserveCurrent
      ensures Effective(old(Now()), goal, outcome) ==> Aims(job, op, old(Now()), goal)
      ensures Attempted(old(Now()), goal)
      ensures outcome.Done? ==> intent.None? && Now() == goal.Target(old(Now()))
      ensures goal.operation.id == op.id
      ensures outcome.Done? ==> operation == Some(goal.operation.Finished(if goal.prepareOnly then Prepared else Succeeded))
      ensures operation == old(operation)
        || (operation == Some(goal.operation.Finished(if goal.prepareOnly then Prepared else Succeeded)) && Now() == goal.Target(old(Now())))
      ensures goal.prepareOnly ==> config == old(config) && pointers == old(pointers)
    {
      match job
      case RepairSlot =>
        outcome, goal := PrepareRepairSlot(op);
      case Reuse =>
        outcome, goal := ReusePrepared(op);
      case SelectFirst(wanted, confirmed) =>
        outcome, goal := InitializeSelected(op, wanted, confirmed);
      case Import(wanted, runtime, environment, catalog) =>
        outcome, goal := PublishImport(op, wanted, runtime, environment, catalog);
    }

    /** Atomicity of a whole run: publish, crash anywhere, and recover through any number of
        further crashes. `decision` is the committed bit found on disk after the attempt. */
    method PublishAcrossCrashes(job: Job, op: Operation, lives: nat)
      returns (published: bool, settled: bool, ghost goal: Intent, ghost decision: Option<bool>)
      requires intent.None? && (job.SelectFirst? || job.Import? ==> Resolves(slots, pointers))
      requires job.Import? ==> op.id !in environments && RuntimeName(op.id) !in runtimes
      modifies this, device, device.lives
      ensures intent.None? ==> Now() == old(Now()) || Now() == goal.Target(old(Now()))
      ensures published ==> Now() == goal.Target(old(Now()))
      ensures published || decision == Some(true) || (intent.None? && Now() != old(Now())) ==> Aims(job, op, old(Now()), goal)
      ensures settled ==> intent.None?
      ensures settled && decision.Some? ==>
        Now() == (if decision.value then goal.Target(old(Now())) else old(Now()))
      ensures settled && decision.Some? ==> operation == Some(goal.operation.Finished(
        if !decision.value then Failed else if goal.prepareOnly then Prepared else Succeeded))
      ensures lives > 0 && device.faults == 0 ==> settled
      ensures job.RepairSlot? || job.Reuse? ==> config == old(config) && pointers == old(pointers)
      // The lives are spent exactly when the attempt left its intent behind.
      ensures device.lives.count == old(device.lives.count) + if decision.Some? then lives else 0
      ensures decision.None? ==> settled
    {
      ghost var base := Now();
      var outcome;
      outcome, goal := Publish(job, op);
      published, decision := outcome.Done?, None;
      if intent.None? {
        return published, true, goal, None;
      }
      decision := Some(intent.value.committed);
      settled := RecoverAcrossCrashes(lives, base);
    }
  }

  /** Operation ids become file names. */
  predicate ValidId(id: Id) {
    1 <= |id| <= 160
    && forall c <- id :: 'a' <= c <= 'z' || 'A' <= c <= 'Z' || '0' <= c <= '9' || c == '-'
  }

  /** No id escapes its directory, and every id the coordinator makes is one. */
  lemma IdsAreFileNames(id: Id, digits: string)
    ensures ValidId(id) ==> id != "" && |id| <= 160 && '/' !in id && '\\' !in id && '.' !in id && ':' !in id
    ensures |digits| <= 155 && (forall c <- digits :: '0' <= c <= '9') ==> ValidId("cold-" + digits)
  {
    var made := "cold-" + digits;
    assert forall c <- made :: c in "cold-" || c in digits;
  }
}
