/** The records a cold installation keeps on disk. Timestamps, progress numbers and
    diagnostic text are left out; everything that decides a branch is kept. */
module ColdRecords {
  import opened Wrappers

  type Id = string

  datatype Phase =
    | Queued | Cloning | Planning | AwaitingConfirmation | Supplying | Installing | Building
    | Verifying | Registering | Promoting | Cancelling
    | Prepared | Succeeded | Cancelled | Failed
  {
    predicate IsTerminal() {
      Prepared? || Succeeded? || Cancelled? || Failed?
    }
  }

  /** The dependency registry chosen for an installation. */
  datatype RuntimeSource = Official | Npmmirror

  datatype Operation = Operation(
    id: Id, tag: string, source: RuntimeSource, releaseId: Id, startedAt: nat,
    phase: Phase, ownerQuiescent: bool, cleanupPending: bool)
  {
    /** The owner of this operation is gone and may be released. */
    predicate Settled() {
      (ownerQuiescent && phase.IsTerminal()) || phase.AwaitingConfirmation?
    }

    predicate Running() {
      !phase.IsTerminal() && !phase.AwaitingConfirmation? && !ownerQuiescent
    }

    /** A finished record that leaves nothing behind to clean. */
    function Finished(result: Phase): Operation {
      this.(phase := result, ownerQuiescent := true, cleanupPending := false)
    }
  }

  /** `update` and `attempt` are the two fields the config store itself inspects. */
  datatype Config = Config(update: nat, attempt: Option<nat>, document: nat)

  /** What the config store puts on disk when asked to write `wanted` over `stored`: an
      update section that changes while keeping its attempt id loses the attempt id. */
  function Published(stored: Config, wanted: Config): Config {
    if stored.update != wanted.update && stored.attempt == wanted.attempt then wanted.(attempt := None) else wanted
  }

  datatype ProfileCatalog = ProfileCatalog(active: string, profiles: seq<string>)

  datatype Pointers = Pointers(current: Option<Id>, lastKnownGood: Option<Id>)

  datatype UpdateState = Idle | Running | UpdatePrepared | UpdateSucceeded | UpdateFailed

  datatype UpdateInfo = UpdateInfo(state: UpdateState, release: Option<Id>, startedAt: Option<nat>)

  /** A release directory: `Partial` while it has no manifest, `Ready` once it has one. */
  datatype Slot = Partial | Ready(version: string)

  type Catalog = map<Id, Slot>

  predicate Registered(slots: Catalog, id: Option<Id>) {
    id.Some? ==> id.value in slots && slots[id.value].Ready?
  }

  predicate Resolves(slots: Catalog, pointers: Pointers) {
    Registered(slots, pointers.current) && Registered(slots, pointers.lastKnownGood)
  }

  /** Everything a publication replaces as one unit. */
  datatype Tuple = Tuple(
    config: Config, pointers: Pointers, profiles: ProfileCatalog, update: UpdateInfo,
    slots: Catalog, runtimes: set<string>, environments: set<Id>)

  /** The write-ahead record of one publication. */
  datatype Intent = Intent(
    prepareOnly: bool, previousProfiles: Option<ProfileCatalog>, targetProfiles: Option<ProfileCatalog>,
    committed: bool, preserveCurrent: bool, ownedRuntime: Option<string>, ownedEnvironment: bool,
    preserveRelease: bool, operation: Operation, previousConfig: Config, targetConfig: Config,
    previousPointers: Pointers, targetLkg: Option<Id>, previousUpdate: UpdateInfo, newSlot: bool)
  {
    predicate MovesProfiles() {
      previousProfiles.Some? && targetProfiles.Some?
    }

    function TargetPointers(): Pointers {
      if preserveRelease then previousPointers else Pointers(Some(operation.releaseId), targetLkg)
    }

    /** The update record a committed publication leaves. */
    function TargetUpdate(): UpdateInfo {
      UpdateInfo(if prepareOnly then UpdatePrepared else UpdateSucceeded,
                 Some(operation.releaseId), Some(operation.startedAt))
    }

    /** The operation record that recovery of this intent ends with. */
    function Result(): Operation {
      operation.Finished(
        if preserveCurrent then Cancelled
        else if !committed then Failed
        else if prepareOnly then Prepared
        else Succeeded)
    }

    /** The whole tuple this publication aims at, seen from the tuple it started from. */
    ghost function Target(base: Tuple): Tuple {
      Tuple(
        if prepareOnly then base.config else targetConfig,
        if prepareOnly then base.pointers else TargetPointers(),
        if MovesProfiles() then targetProfiles.value else base.profiles,
        TargetUpdate(),
        if newSlot then base.slots[operation.releaseId := Ready(operation.tag)] else base.slots,
        if ownedRuntime.Some? then base.runtimes + {ownedRuntime.value} else base.runtimes,
        if ownedEnvironment then base.environments + {operation.id} else base.environments)
    }

    /** The only decision is the committed bit. */
    ghost function Final(base: Tuple): Tuple {
      if committed then Target(base) else base
    }

    /** The record was taken from `base` and can be replayed in both directions. */
    ghost predicate TakenFrom(base: Tuple) {
      && previousConfig == base.config
      && previousPointers == base.pointers
      && previousUpdate == base.update
      && (previousProfiles.Some? <==> targetProfiles.Some?)
      && (MovesProfiles() ==> previousProfiles.value == base.profiles)
      && (prepareOnly ==> targetConfig == base.config && !MovesProfiles() && !preserveRelease)
      && (!prepareOnly ==> targetConfig.attempt.None? && Resolves(base.slots, base.pointers))
      && (newSlot ==> operation.releaseId !in base.slots)
      && (ownedRuntime.Some? ==> ownedRuntime.value == RuntimeName(operation.id) && ownedRuntime.value !in base.runtimes)
      && (ownedEnvironment ==> operation.id !in base.environments)
    }

    /** A state between `base` and the target: what an interrupted publication, or an
        interrupted recovery of it, may leave on disk. */
    ghost predicate Between(base: Tuple, now: Tuple) {
      var target := Target(base);
      && (if prepareOnly then now.config == base.config else now.config == base.config || now.config == targetConfig)
      && (prepareOnly || preserveRelease ==> now.pointers == base.pointers)
      && (now.profiles == base.profiles || now.profiles == target.profiles)
      && (now.update == base.update || (committed && now.update == target.update))
      && (if newSlot then now.slots - {operation.releaseId} == base.slots else now.slots == base.slots)
      && (now.runtimes == base.runtimes || now.runtimes == target.runtimes)
      && (now.environments == base.environments || now.environments == target.environments)
      && (committed ==> now.slots == target.slots && now.runtimes == target.runtimes && now.environments == target.environments)
      && (committed && !prepareOnly ==> Resolves(target.slots, target.pointers))
    }
  }

  function RuntimeName(id: Id): string {
    "offline-" + id
  }
}
