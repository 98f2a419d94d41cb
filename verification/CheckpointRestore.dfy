/** Checkpoint restore: an outer journal decides, an inner ticket moves profile files, and
    three stores carry the Harness selection. */
module CheckpointRestore {
  import opened Wrappers
  import opened Faults
  import opened SnapshotRestore

  type Release = Option<string>

  datatype Catalog = Catalog(active: string, profiles: seq<string>)

  datatype Selection = Selection(current: Release, lastKnownGood: Release, catalog: Catalog)

  /** The selection as the running Agent reports it. */
  datatype AgentView = AgentView(profile: string, release: Release)

  function ViewOf(s: Selection): AgentView {
    AgentView(s.catalog.active, s.current)
  }

  /** `content` marks a restore with a snapshot ticket. */
  datatype Intent = Intent(previous: Selection, target: Selection, content: bool)

  datatype Phase = PreparedPhase | CommittedPhase

  datatype Journal = Journal(phase: Phase, intent: Intent)

  datatype Outcome = Restored | Parked | Failed

  class Checkpoints {
    const snapshots: Snapshots
    const device: Device
    // Durable: the release pointers, the profile catalog and the journal.
    var current: Release
    var lastKnownGood: Release
    var catalog: Catalog
    var journal: Option<Journal>
    // The Agent's own view, and whether startup has set it.
    var agent: AgentView
    var online: bool
    // The last intent whose journal became durable.
    ghost var last: Option<Intent>
    // A retry of the last restore trusted an Applied ticket some of whose files had been put back.
    ghost var mixed: bool
    // A rollback of the last restore passed over a file that was applied again after it was undone.
    ghost var dirty: bool

    function Stored(): Selection
      reads this
    {
      Selection(current, lastKnownGood, catalog)
    }

    predicate Live()
      reads this, device
    {
      online && !device.crashed
    }

    /** Each store holds its old or its new value. */
    ghost predicate Between(i: Intent)
      reads this
    {
      && ((current == i.previous.current && lastKnownGood == i.previous.lastKnownGood)
          || (current == i.target.current && lastKnownGood == i.target.lastKnownGood))
      && (catalog == i.previous.catalog || catalog == i.target.catalog)
    }

    ghost predicate RolledBack(i: Intent)
      reads this, snapshots, device
    {
      && Stored() == i.previous
      && (Live() ==> agent == ViewOf(i.previous))
      && (i.content ==> snapshots.Sized() && snapshots.ticket.status.RolledBack? && (dirty || snapshots.AllOriginal()))
    }

    ghost predicate Kept(i: Intent)
      reads this, snapshots, device
    {
      && Stored() == i.target
      && (Live() ==> agent == ViewOf(i.target))
      && (i.content ==> snapshots.Sized() && snapshots.ticket.status.Committed? && (mixed || snapshots.AllDesired())
                        && (snapshots.ticket.Demands() ==> snapshots.installed))
    }

    ghost predicate JournalOk(j: Journal)
      reads this, snapshots, device
    {
      match j.phase
      case PreparedPhase =>
        && Between(j.intent)
        && (j.intent.content ==> !snapshots.ticket.status.Committing? && !snapshots.ticket.status.Committed?)
      case CommittedPhase =>
        && Stored() == j.intent.target
        && (Live() ==> agent == ViewOf(j.intent.target))
        && (j.intent.content ==>
              && (snapshots.ticket.status.Applied? || snapshots.ticket.status.Committing? || snapshots.ticket.status.Committed?)
              && !snapshots.ticket.materializationPending && snapshots.Sized()
              && (mixed || snapshots.AllDesired()))
    }

    /** A pending restore is between its two sides; a finished one is wholly on one of them. */
    ghost predicate Inv()
      reads this, snapshots, device
    {
      && snapshots.device == device && snapshots.Valid()
      && match journal
         case Some(j) => last == Some(j.intent) && JournalOk(j)
         case None => last.Some? ==> RolledBack(last.value) || Kept(last.value)
    }

    constructor (snapshots: Snapshots, current: Release, lastKnownGood: Release, catalog: Catalog)
      requires snapshots.Valid()
      ensures Inv() && journal.None? && online && !mixed && !dirty && Stored() == Selection(current, lastKnownGood, catalog)
      ensures this.snapshots == snapshots && device == snapshots.device
    {
      this.snapshots, this.device := snapshots, snapshots.device;
      this.current, this.lastKnownGood, this.catalog := current, lastKnownGood, catalog;
      journal, agent, online := None, AgentView(catalog.active, current), true;
      last, mixed, dirty := None, false, false;
    }

    // ----- single durable steps -----

    method WritePointers(s: Selection) returns (ok: bool)
      modifies this`current, this`lastKnownGood, device
      ensures (current == old(current) && lastKnownGood == old(lastKnownGood)) || (current == s.current && lastKnownGood == s.lastKnownGood)
      ensures ok ==> current == s.current && lastKnownGood == s.lastKnownGood && !device.crashed
      ensures device.faults == old(device.faults) + if ok then 0 else 1
      ensures old(device.crashed) ==> device.crashed && current == old(current) && lastKnownGood == old(lastKnownGood)
    {
      var applied;
      applied, ok := device.Step();
      if applied {
        current, lastKnownGood := s.current, s.lastKnownGood;
      }
    }

    method WriteCatalog(c: Catalog) returns (ok: bool)
      modifies this`catalog, device
      ensures catalog == old(catalog) || catalog == c
      ensures ok ==> catalog == c && !device.crashed
      ensures device.faults == old(device.faults) + if ok then 0 else 1
      ensures old(device.crashed) ==> device.crashed && catalog == old(catalog)
    {
      var applied;
      applied, ok := device.Step();
      if applied {
        catalog := c;
      }
    }

    method UpdateAgent(view: AgentView) returns (ok: bool)
      modifies this`agent, device
      ensures agent == old(agent) || agent == view
      ensures ok ==> agent == view && !device.crashed
      ensures device.faults == old(device.faults) + if ok then 0 else 1
      ensures old(device.crashed) ==> device.crashed
    {
      var applied;
      applied, ok := device.Step();
      if applied {
        agent := view;
      }
    }

    method WriteJournal(j: Option<Journal>) returns (ok: bool)
      modifies this`journal, device
      ensures journal == old(journal) || journal == j
      ensures ok ==> journal == j && !device.crashed
      ensures device.faults == old(device.faults) + if ok then 0 else 1
      ensures old(device.crashed) ==> device.crashed && journal == old(journal)
    {
      var applied;
      applied, ok := device.Step();
      if applied {
        journal := j;
      }
    }

    // ----- selection -----

    method ApplySelection(s: Selection) returns (ok: bool)
      modifies this`current, this`lastKnownGood, this`catalog, this`agent, device
      ensures (current == old(current) && lastKnownGood == old(lastKnownGood)) || (current == s.current && lastKnownGood == s.lastKnownGood)
      ensures catalog == old(catalog) || catalog == s.catalog
      ensures ok ==> Stored() == s && agent == ViewOf(s) && !device.crashed
      ensures device.faults == old(device.faults) + if ok then 0 else 1
      ensures old(device.crashed) ==> device.crashed && Stored() == old(Stored())
    {
      ok := WritePointers(s);
      if !ok { return; }
      ok := WriteCatalog(s.catalog);
      if !ok { return; }
      ok := UpdateAgent(ViewOf(s));
    }

    /** Tries all three stores even when one of them fails. */
    method RollbackSelection(s: Selection) returns (ok: bool)
      modifies this`current, this`lastKnownGood, this`catalog, this`agent, device
      ensures (current == old(current) && lastKnownGood == old(lastKnownGood)) || (current == s.current && lastKnownGood == s.lastKnownGood)
      ensures catalog == old(catalog) || catalog == s.catalog
      ensures ok ==> Stored() == s && agent == ViewOf(s) && !device.crashed
      ensures old(device.faults) <= device.faults
      ensures !ok ==> device.faults > old(device.faults)
      ensures old(device.crashed) ==> device.crashed && Stored() == old(Stored())
      // One failing store does not keep the two others from being tried.
      ensures device.faults == old(device.faults) + 1 && !device.crashed ==>
        || (current == s.current && lastKnownGood == s.lastKnownGood && (catalog == s.catalog || agent == ViewOf(s)))
        || (catalog == s.catalog && agent == ViewOf(s))
    {
      var first := WritePointers(s);
      var second := WriteCatalog(s.catalog);
      var third := UpdateAgent(ViewOf(s));
      ok := first && second && third;
    }

    /** The content half of every undo. */
    method UndoContent(i: Intent) returns (ok: bool)
      requires Inv() && journal == Some(Journal(PreparedPhase, i)) && i.content
      modifies this`dirty, snapshots`ticket, snapshots`files, snapshots`copies, snapshots`discards, device
      ensures Inv()
      ensures snapshots.ticket.entries == old(snapshots.ticket.entries)
      ensures ok ==> !device.crashed && snapshots.ticket.status.RolledBack? && (dirty || snapshots.AllOriginal()) && snapshots.Reverted()
      ensures snapshots.OnlyReverting()
      ensures dirty ==> old(dirty) || !old(snapshots.Intact())
      ensures old(device.faults) <= device.faults
      ensures device.faults == old(device.faults) ==> (ok <==> old(snapshots.Undoable()))
    {
      ok := snapshots.Rollback();
      dirty := dirty || (ok && !snapshots.AllOriginal());
    }

    /** Undoes content and selection, each regardless of the other, and clears the journal only
        when both are undone. Only a journal that still says Prepared allows it. */
    method Abandon(i: Intent)
      requires Inv() && Live() && journal == Some(Journal(PreparedPhase, i))
      modifies this`current, this`lastKnownGood, this`catalog, this`agent, this`journal, this`dirty,
               snapshots`ticket, snapshots`files, snapshots`copies, snapshots`discards, device
      ensures Inv() && online
      ensures journal.Some? ==> journal == old(journal)
      ensures journal.None? ==> RolledBack(i)
      ensures old(device.faults) <= device.faults
      ensures device.faults == old(device.faults) ==> (journal.None? <==> !i.content || old(snapshots.Undoable()))
      ensures !i.content ==> snapshots.ticket == old(snapshots.ticket) && snapshots.files == old(snapshots.files)
      ensures device.faults == old(device.faults) + 1 && !device.crashed ==>
        Stored() == i.previous || (i.content && old(snapshots.Undoable()) ==> snapshots.ticket.status.RolledBack?)
      ensures snapshots.ticket.entries == old(snapshots.ticket.entries) && |snapshots.files| == |old(snapshots.files)|
      ensures dirty ==> old(dirty) || !old(snapshots.Intact())
      ensures !i.content ==> dirty == old(dirty)
    {
      var content := true;
      if i.content {
        content := UndoContent(i);
      }
      var selection := RollbackSelection(i.previous);
      if content && selection {
        var _ := WriteJournal(None);
      }
    }

    // ----- the common end of a restore -----

    /** Moves the journal to Committed. After an error the journal itself is read again, since
        the write may have become durable; an unreadable journal is left alone. */
    method Decide(i: Intent) returns (decided: bool)
      requires Inv() && Live() && journal == Some(Journal(PreparedPhase, i)) && Stored() == i.target && agent == ViewOf(i.target)
      requires i.content ==> snapshots.ticket.status.Applied? && !snapshots.ticket.materializationPending && (mixed || snapshots.AllDesired())
      modifies this`current, this`lastKnownGood, this`catalog, this`agent, this`journal, this`dirty,
               snapshots`ticket, snapshots`files, snapshots`copies, snapshots`discards, device
      ensures Inv() && online
      ensures decided ==>
        && Live() && journal == Some(Journal(CommittedPhase, i)) && snapshots.ticket == old(snapshots.ticket)
        && snapshots.files == old(snapshots.files)
      ensures !decided ==> device.faults > old(device.faults) && (journal.Some? ==> journal.value.intent == i) && (journal.None? ==> RolledBack(i))
      ensures old(device.faults) <= device.faults
      ensures !i.content ==> snapshots.ticket == old(snapshots.ticket) && snapshots.files == old(snapshots.files)
      ensures !decided && device.faults == old(device.faults) + 1 && !device.crashed ==>
        journal.None? || (i.content && !old(snapshots.Undoable()))
      ensures snapshots.ticket.entries == old(snapshots.ticket.entries) && |snapshots.files| == |old(snapshots.files)|
      ensures dirty ==> old(dirty) || !old(snapshots.Intact())
      ensures !i.content ==> dirty == old(dirty)
    {
      decided := WriteJournal(Some(Journal(CommittedPhase, i)));
      if decided { return; }
      var readable := device.Attempt();
      if readable && journal.value.phase.CommittedPhase? {
        return true;
      }
      if readable {
        Abandon(i);
      }
    }

    /** The selection of a restore. A single failing step of it is undone completely. */
    method SelectOrUndo(i: Intent) returns (ok: bool)
      requires Inv() && Live() && journal == Some(Journal(PreparedPhase, i))
      modifies this`current, this`lastKnownGood, this`catalog, this`agent, this`journal, this`dirty,
               snapshots`ticket, snapshots`files, snapshots`copies, snapshots`discards, device
      ensures Inv() && online
      ensures ok ==> Live() && Stored() == i.target && agent == ViewOf(i.target) && journal == old(journal)
                     && snapshots.ticket == old(snapshots.ticket) && snapshots.files == old(snapshots.files)
      ensures !ok ==> device.faults > old(device.faults) && (journal == old(journal) || (journal.None? && RolledBack(i)))
      ensures !ok && device.faults == old(device.faults) + 1 && !device.crashed ==>
        journal.None? || (i.content && !old(snapshots.Undoable()))
      ensures old(device.faults) <= device.faults
      ensures !i.content ==> snapshots.ticket == old(snapshots.ticket) && snapshots.files == old(snapshots.files)
      ensures snapshots.ticket.entries == old(snapshots.ticket.entries) && |snapshots.files| == |old(snapshots.files)|
      ensures dirty ==> old(dirty) || !old(snapshots.Intact())
      ensures !i.content ==> dirty == old(dirty)
    {
      ok := ApplySelection(i.target);
      if !ok && !device.crashed {
        Abandon(i);
      }
    }

    /** Selection, decision, content commit, journal removal. */
    method Finish(i: Intent) returns (outcome: Outcome)
      requires Inv() && Live() && i.content && journal == Some(Journal(PreparedPhase, i))
      requires snapshots.ticket.status.Applied? && !snapshots.ticket.materializationPending && (mixed || snapshots.AllDesired())
      modifies this`current, this`lastKnownGood, this`catalog, this`agent, this`journal, this`dirty,
               snapshots`ticket, snapshots`files, snapshots`copies, snapshots`discards, device
      ensures Inv() && online
      ensures outcome.Restored? ==> Live() && journal.None? && Kept(i) && snapshots.files == old(snapshots.files)
      ensures journal.Some? ==> journal.value.intent == i
      ensures journal.None? ==> RolledBack(i) || Kept(i)
      ensures old(device.faults) <= device.faults
      ensures device.faults == old(device.faults) ==> outcome.Restored?
      ensures outcome.Parked? ==> journal.Some? && !device.crashed
      ensures snapshots.ticket.entries == old(snapshots.ticket.entries) && |snapshots.files| == |old(snapshots.files)|
      ensures dirty ==> old(dirty) || !old(snapshots.Intact())
    {
      outcome := Failed;
      var ok := SelectOrUndo(i);
      if ok {
        ok := Decide(i);
        if ok {
          outcome := CommitDecided(i);
        }
      }
    }

    /** From a Committed journal the only way is forward. */
    method CommitDecided(i: Intent) returns (outcome: Outcome)
      requires Inv() && Live() && i.content && journal == Some(Journal(CommittedPhase, i))
      modifies this`journal, snapshots`ticket, snapshots`copies, snapshots`discards, device
      ensures Inv()
      ensures outcome.Restored? ==> Live() && journal.None? && Kept(i)
      ensures journal.Some? ==> journal == old(journal)
      ensures journal.None? ==> Kept(i)
      ensures old(device.faults) <= device.faults
      ensures device.faults == old(device.faults) ==> outcome.Restored?
      ensures outcome.Parked? ==> journal.Some? && !device.crashed
      // Without the commit the restore is parked; only a journal that will not go is a failure.
      ensures device.faults == old(device.faults) + 1 && !snapshots.ticket.status.Committed? ==> outcome.Parked?
      ensures snapshots.ticket.entries == old(snapshots.ticket.entries)
    {
      var ok := snapshots.Commit();
      if ok {
        ok := WriteJournal(None);
        return if ok then Restored else Failed;
      }
      ok := WriteJournal(journal); // records the diagnostic only
      return if ok then Parked else Failed;
    }

    method Park() returns (outcome: Outcome)
      requires Inv() && journal.Some? && online
      modifies this`journal, device
      ensures Inv() && journal == old(journal) && !outcome.Restored?
      ensures old(device.faults) <= device.faults
      ensures device.faults == old(device.faults) ==> outcome.Parked?
      ensures outcome.Parked? ==> !device.crashed
    {
      var ok := WriteJournal(journal); // records the diagnostic only
      return if ok then Parked else Failed;
    }

    /** Brings the ticket to Applied and materialized. */
    method BringContent() returns (ok: bool)
      requires Inv() && journal.Some? && journal.value.phase.PreparedPhase? && journal.value.intent.content
      modifies snapshots, device
      ensures Inv()
      ensures ok ==> snapshots.ticket.status.Applied? && !snapshots.ticket.materializationPending && !device.crashed
      ensures ok && old(snapshots.ticket).status.Applied? ==> snapshots.files == old(snapshots.files)
      ensures ok ==> (snapshots.AllDesired() <==> !old(snapshots.ticket).status.Applied? || old(snapshots.AllDesired()))
      ensures old(device.faults) <= device.faults
      ensures device.faults == old(device.faults) ==> (ok <==> old(snapshots.ticket).status.Applied? || old(snapshots.Resumable()))
      ensures snapshots.ticket.entries == old(snapshots.ticket.entries) && |snapshots.files| == |old(snapshots.files)|
      ensures ok && (!old(snapshots.ticket).status.Applied? || old(snapshots.Intact())) ==> snapshots.Intact()
      ensures old(snapshots.Straight()) ==> snapshots.Straight()
    {
      ok := snapshots.Apply();
      if !ok { return; }
      if snapshots.ticket.materializationPending {
        ok := snapshots.Materialize();
        if !ok { return; }
        ok := snapshots.MarkMaterialized();
      }
    }

    // ----- requests -----

    /** Writes the journal over a prepared ticket, or gives the ticket up. */
    method Announce(i: Intent) returns (ok: bool)
      requires Inv() && Live() && journal.None? && last.None? && i.content && i.previous == Stored()
      requires snapshots.ticket.status.Prepared? && snapshots.Straight()
      modifies this`journal, this`last,
               snapshots`ticket, snapshots`files, snapshots`copies, snapshots`discards, device
      ensures Inv()
      ensures ok ==> Live() && journal == Some(Journal(PreparedPhase, i)) && last == Some(i)
                     && snapshots.ticket == old(snapshots.ticket) && snapshots.files == old(snapshots.files)
      ensures !ok ==> device.faults > old(device.faults) && (journal.None? ==> last.None?)
      ensures !ok && device.faults == old(device.faults) + 1 && !device.crashed ==> snapshots.ticket.status.RolledBack?
      ensures journal.Some? ==> journal.value == Journal(PreparedPhase, i)
      ensures snapshots.files == old(snapshots.files) && snapshots.ticket.entries == old(snapshots.ticket.entries)
      ensures snapshots.Straight() || snapshots.ticket.status.RolledBack?
      ensures old(device.faults) <= device.faults
    {
      ok := WriteJournal(Some(Journal(PreparedPhase, i)));
      last := if journal.Some? then Some(i) else None;
      if !ok {
        var _ := snapshots.Rollback();
      }
    }

    /** A restore of files and selection. It ends with every file as the snapshot wants it, or leaves
        a journal, or has put every file back. */
    method RestoreContent(target: Selection, wanted: seq<Wanted>) returns (outcome: Outcome)
      requires Inv() && Live() && journal.None? && |wanted| == |snapshots.files|
      modifies this`current, this`lastKnownGood, this`catalog, this`agent, this`journal, this`last, this`mixed, this`dirty, snapshots, device
      ensures Inv() && online && !mixed && !dirty
      ensures outcome.Restored? ==> last == Some(Intent(old(Stored()), target, true)) && Kept(last.value) && journal.None?
      ensures outcome.Restored? ==> Stored() == target && snapshots.ticket.status.Committed?
      // Every file of the snapshot is restored, and the package manager has run if a manifest changed.
      ensures outcome.Restored? ==> AsWanted(old(snapshots.files), wanted, snapshots.files)
      ensures outcome.Restored?
              && (exists i :: 0 <= i < 3 && i < |wanted| && wanted[i].Put? && wanted[i].content != old(snapshots.files)[i]) ==>
        snapshots.installed
      ensures journal.None? ==> snapshots.files == old(snapshots.files) || AsWanted(old(snapshots.files), wanted, snapshots.files)
      ensures outcome.Parked? ==> journal.Some?
      ensures last.None? ==>
        Stored() == old(Stored()) && agent == old(agent) && journal.None? && snapshots.files == old(snapshots.files)
      ensures journal.Some? ==> journal.value.intent == Intent(old(Stored()), target, true)
      ensures |snapshots.files| == |old(snapshots.files)|
      ensures outcome.Restored? || device.faults > old(device.faults) || !old(snapshots.ticket).Over()
    {
      last, mixed, dirty := None, false, false;
      ghost var before := snapshots.files;
      outcome := Failed;
      var ok := device.Attempt();
      if ok {
        ok := snapshots.Prepare(wanted);
      }
      if ok {
        outcome := CarryPrepared(Intent(Stored(), target, true));
        EndsAsAsked(snapshots, before, wanted);
      }
    }

    /** A restore from its prepared ticket on. */
    method CarryPrepared(i: Intent) returns (outcome: Outcome)
      requires Inv() && Live() && journal.None? && last.None? && i.content && i.previous == Stored() && !mixed && !dirty
      requires snapshots.ticket.status.Prepared? && snapshots.Straight()
      modifies this`current, this`lastKnownGood, this`catalog, this`agent, this`journal, this`last, this`mixed, this`dirty, snapshots, device
      ensures Inv() && online && !mixed && !dirty
      ensures snapshots.ticket.entries == old(snapshots.ticket.entries) && |snapshots.files| == |old(snapshots.files)|
      ensures outcome.Restored? ==> last == Some(i) && Kept(i) && journal.None?
      ensures journal.None? && last.Some? ==> last == Some(i)
      ensures outcome.Parked? ==> journal.Some?
      ensures last.None? ==> Stored() == old(Stored()) && agent == old(agent) && journal.None? && snapshots.files == old(snapshots.files)
      ensures journal.Some? ==> journal.value.intent == i
      ensures old(device.faults) <= device.faults
      ensures outcome.Restored? || device.faults > old(device.faults)
    {
      outcome := Failed;
      var ok := Announce(i);
      if ok {
        outcome := Carry(i);
      }
    }

    /** A restore from its journal on. */
    method Carry(i: Intent) returns (outcome: Outcome)
      requires Inv() && Live() && i.content && journal == Some(Journal(PreparedPhase, i))
      modifies this`current, this`lastKnownGood, this`catalog, this`agent, this`journal, this`mixed, this`dirty, snapshots, device
      ensures Inv() && online
      ensures snapshots.ticket.entries == old(snapshots.ticket.entries) && |snapshots.files| == |old(snapshots.files)|
      ensures outcome.Restored? ==> Live() && journal.None? && Kept(i)
      ensures outcome.Restored? ==> (snapshots.AllDesired() <==> !old(snapshots.ticket).status.Applied? || old(snapshots.AllDesired()))
      ensures outcome.Restored? && old(snapshots.ticket).status.Applied? ==> snapshots.files == old(snapshots.files)
      ensures mixed ==> old(mixed) || (old(snapshots.ticket).status.Applied? && !old(snapshots.AllDesired()))
      ensures dirty ==> old(dirty) || !old(snapshots.Intact())
      ensures journal.Some? ==> journal.value.intent == i
      ensures journal.None? ==> RolledBack(i) || Kept(i)
      ensures outcome.Parked? ==> journal.Some?
      ensures old(device.faults) <= device.faults
      ensures device.faults == old(device.faults) ==>
        (outcome.Restored? <==> old(snapshots.ticket).status.Applied? || old(snapshots.Resumable()))
    {
      var ok := BringContent();
      if !ok {
        outcome := Park();
        return;
      }
      mixed := mixed || !snapshots.AllDesired();
      outcome := Finish(i);
    }

    /** Retry moves a Prepared restore forward and finishes a Committed one. It ends with the
        desired content exactly when the ticket was not Applied, or was and every file still
        has that content: an Applied ticket is not checked again. */
    method Retry() returns (outcome: Outcome)
      requires Inv() && Live()
      modifies this`current, this`lastKnownGood, this`catalog, this`agent, this`journal, this`dirty, this`mixed, snapshots, device
      ensures Inv() && online
      ensures old(journal).None? ==> outcome.Failed? && journal.None? && mixed == old(mixed)
      ensures outcome.Restored? ==> old(journal).Some? && journal.None? && Kept(old(journal).value.intent)
      ensures outcome.Restored? && old(journal).value.phase.PreparedPhase? ==>
        && (snapshots.AllDesired() <==> !old(snapshots.ticket).status.Applied? || old(snapshots.AllDesired()))
        && (old(snapshots.ticket).status.Applied? ==> snapshots.files == old(snapshots.files))
      ensures mixed ==> old(mixed) || (old(snapshots.ticket).status.Applied? && !old(snapshots.AllDesired()))
      ensures old(journal).Some? && old(journal).value.phase.CommittedPhase? ==>
        Stored() == old(Stored()) && snapshots.files == old(snapshots.files)
        && (journal == old(journal) || (journal.None? && Kept(old(journal).value.intent)))
      // Without a fault it fails exactly on a ticket that is neither Applied nor resumable.
      ensures old(journal).Some? && old(journal).value.intent.content && device.faults == old(device.faults) ==>
        (outcome.Restored? <==> old(journal).value.phase.CommittedPhase? || old(snapshots.ticket).status.Applied? || old(snapshots.Resumable()))
      ensures outcome.Parked? ==> journal.Some?
      ensures snapshots.ticket.entries == old(snapshots.ticket.entries) && |snapshots.files| == |old(snapshots.files)|
      ensures dirty ==> old(dirty) || !old(snapshots.Intact())
      ensures old(device.faults) <= device.faults
    {
      var ok := device.Attempt();
      if !ok || journal.None? || !journal.value.intent.content {
        return Failed;
      }
      var i := journal.value.intent;
      if journal.value.phase.CommittedPhase? {
        if Stored() != i.target {
          return Failed;
        }
        outcome := CommitDecided(i);
        return;
      }
      outcome := Carry(i);
    }

    /** Abort undoes a Prepared restore and refuses a Committed one. */
    method Abort() returns (ok: bool)
      requires Inv() && Live()
      modifies this`current, this`lastKnownGood, this`catalog, this`agent, this`journal, this`dirty,
               snapshots`ticket, snapshots`files, snapshots`copies, snapshots`discards, device
      ensures Inv() && online
      ensures ok ==> old(journal).Some? && journal.None? && RolledBack(old(journal).value.intent)
      ensures old(journal).None? || old(journal).value.phase.CommittedPhase? ==>
        !ok && journal == old(journal) && Stored() == old(Stored()) && snapshots.files == old(snapshots.files)
      // It puts back every file exactly if the ticket counts no changed file as undone, and it can
      // end exactly if no file stands beside its own discarded content.
      ensures ok ==> (snapshots.AllOriginal() <==> old(snapshots.Intact()))
      ensures old(journal).Some? && old(journal).value.phase.PreparedPhase? && old(journal).value.intent.content
              && device.faults == old(device.faults) ==>
        (ok <==> old(snapshots.Undoable()))
      ensures journal.Some? ==> journal == old(journal)
      ensures device.faults == old(device.faults) && !ok ==> journal == old(journal)
      ensures snapshots.Sized() && old(snapshots.Sized()) && (old(journal).Some? ==> snapshots.OnlyReverting())
      ensures snapshots.ticket.entries == old(snapshots.ticket.entries) && |snapshots.files| == |old(snapshots.files)|
      ensures dirty ==> old(dirty) || !old(snapshots.Intact())
      ensures old(device.faults) <= device.faults
    {
      ok := device.Attempt();
      if !ok || journal.None? || !journal.value.intent.content || journal.value.phase.CommittedPhase? {
        return false;
      }
      var i := journal.value.intent;
      ok := UndoContent(i);
      if !ok { return; }
      ok := RollbackSelection(i.previous);
      if !ok { return; }
      ok := WriteJournal(None);
    }

    /** A restore without a snapshot: the same decision, and a leftover Committed journal is
        accepted, since it only waits to be validated. */
    method RestoreSelection(target: Selection) returns (ok: bool)
      requires Inv() && Live() && journal.None?
      modifies this`current, this`lastKnownGood, this`catalog, this`agent, this`journal, this`last, this`mixed, this`dirty, snapshots, device
      ensures Inv() && online && !mixed && snapshots.ticket == old(snapshots.ticket) && snapshots.files == old(snapshots.files)
      ensures last.None? ==> Stored() == old(Stored()) && agent == old(agent) && journal.None?
      ensures ok ==> last == Some(Intent(old(Stored()), target, false)) && Stored() == target
                     && (journal.None? || journal.value.phase.CommittedPhase?)
      ensures journal.Some? ==> journal.value.intent == Intent(old(Stored()), target, false)
      ensures ok || device.faults > old(device.faults)
      ensures !dirty && (device.faults == old(device.faults) ==> journal.None?)
      ensures old(device.faults) <= device.faults
    {
      last, mixed, dirty := None, false, false;
      var i := Intent(Stored(), target, false);
      ok := WriteJournal(Some(Journal(PreparedPhase, i)));
      last := if journal.Some? then Some(i) else None;
      if !ok { return; }
      ok := SelectOrUndo(i);
      if !ok { return; }
      ok := Decide(i);
      if ok {
        var _ := WriteJournal(None);
      }
    }

    /** Before any other change of the selection, a pending restore without content is settled. */
    method Settle() returns (ok: bool)
      requires Inv() && Live()
      modifies this`current, this`lastKnownGood, this`catalog, this`agent, this`journal, device
      ensures Inv() && online
      ensures ok && old(journal).Some? && !old(journal).value.intent.content ==> journal.None?
      ensures old(journal).Some? && old(journal).value.intent.content ==> journal == old(journal) && Stored() == old(Stored())
      ensures old(journal).Some? && !old(journal).value.intent.content && journal.None? ==>
        if old(journal).value.phase.PreparedPhase? then RolledBack(old(journal).value.intent) else Kept(old(journal).value.intent)
      ensures ok || device.faults > old(device.faults)
      ensures old(journal).Some? && old(journal).value.phase.CommittedPhase? ==>
        Stored() == old(Stored()) && (journal.None? || journal == old(journal))
    {
      ok := device.Attempt();
      if !ok || journal.None? || journal.value.intent.content {
        return;
      }
      var i := journal.value.intent;
      if journal.value.phase.PreparedPhase? {
        ok := WritePointers(i.previous);
        if !ok { return; }
        ok := WriteCatalog(i.previous.catalog);
        if !ok { return; }
        ok := UpdateAgent(ViewOf(i.previous));
      } else {
        if Stored() != i.target {
          return false;
        }
        ok := UpdateAgent(ViewOf(i.target));
      }
      if !ok { return; }
      ok := WriteJournal(None);
    }

    // ----- process lives -----

    /** A new process: recovery follows the journal, whatever happens the Agent comes up, and
        its own view is taken from the stores. */
    method Startup()
      requires Inv()
      modifies this,
               snapshots`ticket, snapshots`files, snapshots`copies, snapshots`discards, device, device.lives
      ensures !device.crashed ==> online
      ensures old(journal).None? ==> !device.crashed && device.faults == 0
      ensures Inv() && mixed == old(mixed) && last == old(last)
      ensures journal.Some? ==> journal == old(journal)
      ensures old(journal).Some? && journal.None? ==>
        if old(journal).value.phase.PreparedPhase? then RolledBack(last.value) else Kept(last.value)
      // Without a fault it leaves a journal exactly when a rollback cannot end.
      ensures device.faults == 0 ==>
        (journal.None? <==> old(journal).None? || old(journal).value.phase.CommittedPhase? || !old(journal).value.intent.content
                            || old(snapshots.Undoable()))
      ensures snapshots.ticket.entries == old(snapshots.ticket.entries) && |snapshots.files| == |old(snapshots.files)|
      ensures dirty ==> old(dirty) || !old(snapshots.Intact())
      ensures old(journal).Some? && old(journal).value.phase.CommittedPhase? ==>
        Stored() == old(Stored()) && snapshots.files == old(snapshots.files)
      ensures old(snapshots.Sized()) && snapshots.Sized() && snapshots.OnlyReverting()
      ensures old(journal).Some? && old(journal).value.phase.PreparedPhase? && old(journal).value.intent.content && journal.None? ==>
        snapshots.Reverted()
      ensures device.lives.count == old(device.lives.count) + 1
    {
      device.Restart();
      online := false;
      if journal.Some? {
        if journal.value.phase.PreparedPhase? {
          RecoverPrepared(journal.value.intent);
        } else {
          RecoverCommitted(journal.value.intent);
        }
      }
      if !device.crashed {
        agent := ViewOf(Stored());
        online := true;
      }
    }

    method RecoverPrepared(i: Intent)
      requires Inv() && !online && journal == Some(Journal(PreparedPhase, i))
      modifies this`current, this`lastKnownGood, this`catalog, this`journal, this`dirty,
               snapshots`ticket, snapshots`files, snapshots`copies, snapshots`discards, device
      ensures Inv()
      ensures journal.Some? ==> journal == old(journal)
      ensures journal.None? ==> RolledBack(i)
      ensures old(device.faults) <= device.faults
      ensures device.faults == old(device.faults) ==> (journal.None? <==> !i.content || old(snapshots.Undoable()))
      ensures snapshots.ticket.entries == old(snapshots.ticket.entries) && |snapshots.files| == |old(snapshots.files)|
      ensures dirty ==> old(dirty) || !old(snapshots.Intact())
      ensures old(snapshots.Sized()) && snapshots.Sized() && snapshots.OnlyReverting()
      ensures i.content && journal.None? ==> snapshots.Reverted()
    {
      var ok := true;
      if i.content {
        ok := UndoContent(i);
        if !ok { return; }
      }
      ok := WritePointers(i.previous);
      if !ok { return; }
      ok := WriteCatalog(i.previous.catalog);
      if !ok { return; }
      ok := WriteJournal(None);
    }

    method RecoverCommitted(i: Intent)
      requires Inv() && !online && journal == Some(Journal(CommittedPhase, i))
      modifies this`journal, snapshots`ticket, snapshots`copies, snapshots`discards, device
      ensures Inv()
      ensures journal.Some? ==> journal == old(journal)
      ensures journal.None? ==> Kept(i)
      ensures journal.None? || device.faults > old(device.faults)
      ensures snapshots.ticket.entries == old(snapshots.ticket.entries)
    {
      var ok := true;
      if i.content {
        ok := snapshots.Commit();
        if !ok { return; }
      }
      ok := WriteJournal(None);
    }

    // ----- runs -----

    ghost function Here(): Moment
      reads this, snapshots, device
    {
      Moment(Stored(), journal, last, mixed, dirty, Live(), device.faults, snapshots.ticket, snapshots.files, snapshots.discards)
    }

    method PerformRestore(step: Request)
      requires Inv() && Live() && (step.DoContent? || step.DoSelection?)
      modifies this, snapshots, device
      ensures Inv()
      ensures Lawful(step, old(Here()), Here()) && Advances(step, old(Here()), Here())
    {
      if journal.None? {
        if step.DoSelection? {
          var _ := RestoreSelection(step.target);
        } else if |step.wanted| == |snapshots.files| {
          var _ := RestoreContent(step.target, step.wanted);
        }
      }
    }

    method PerformEnding(step: Request)
      requires Inv() && Live() && (step.DoRetry? || step.DoAbort? || step.DoSettle?)
      modifies this, snapshots, device
      ensures Inv()
      ensures Lawful(step, old(Here()), Here()) && Advances(step, old(Here()), Here())
    {
      if step.DoRetry? {
        var _ := Retry();
      } else if step.DoAbort? {
        var _ := Abort();
      } else {
        var _ := Settle();
      }
    }

    method Perform(step: Request)
      requires Inv()
      modifies this, snapshots, device, device.lives
      ensures Inv()
      ensures Lawful(step, old(Here()), Here()) && Advances(step, old(Here()), Here())
    {
      if !Live() || step.DoStartup? {
        Startup();
      } else if step.DoContent? || step.DoSelection? {
        PerformRestore(step);
      } else {
        PerformEnding(step);
      }
    }

    /** Any sequence of requests, each cut by any faults, with restarts in between: a request to
        a dead Agent starts it again. Whenever no journal is left, the last begun restore is
        wholly undone or wholly kept. `log` holds every moment. */
    method Run(steps: seq<Request>) returns (ghost log: seq<Moment>)
      requires Inv()
      modifies this, snapshots, device, device.lives
      ensures Inv()
      ensures journal.None? && last.Some? ==> RolledBack(last.value) || Kept(last.value)
      ensures mixed ==> old(mixed) || DoRetry in steps
      ensures |log| == |steps| + 1 && log[0] == old(Here()) && log[|steps|] == Here()
      ensures forall n :: 0 <= n < |steps| ==> Lawful(steps[n], log[n], log[n + 1]) && Advances(steps[n], log[n], log[n + 1])
    {
      log := [Here()];
      for n := 0 to |steps|
        invariant Inv()
        invariant mixed ==> old(mixed) || DoRetry in steps[..n]
        invariant |log| == n + 1 && log[0] == old(Here()) && log[n] == Here()
        invariant forall m :: 0 <= m < n ==> Lawful(steps[m], log[m], log[m + 1]) && Advances(steps[m], log[m], log[m + 1])
      {
        Perform(steps[n]);
        log := log + [Here()];
        assert steps[..n + 1] == steps[..n] + [steps[n]];
      }
      assert steps[..|steps|] == steps;
    }
  }

  /** One moment of a run. */
  datatype Moment = Moment(
    stored: Selection, journal: Option<Journal>, last: Option<Intent>, mixed: bool, dirty: bool, live: bool,
    faults: nat, ticket: Ticket, files: seq<Content>, discards: seq<Content>)
  {
    predicate Decided() {
      journal.Some? && journal.value.phase.CommittedPhase?
    }

    /** Only a retry that trusts this ticket can spoil the content. */
    predicate Misleading() {
      ticket.status.Applied? && exists i :: 0 <= i < |files| && i < |ticket.entries| && files[i] != ticket.entries[i].Desired()
    }

    predicate Undoable() {
      forall i :: 0 <= i < |files| && i < |ticket.entries| && i < |ticket.progress| && i < |discards| ==>
        CanUndo(ticket.entries[i], ticket.progress[i], files[i], discards[i])
    }

    /** A file the ticket counts as undone has been written again. */
    predicate Reapplied() {
      exists i :: 0 <= i < |files| && i < |ticket.entries| && i < |ticket.progress| &&
        ticket.progress[i].Undone? && files[i] != ticket.entries[i].original
    }
  }

  /** What every step obeys: a Committed journal is never followed by a rollback; a retry over a
      misleading ticket is all that can commit a mixture, and a rollback over a file applied again
      all that can leave one, each for that restore alone. */
  ghost predicate Lawful(step: Request, before: Moment, after: Moment) {
    && (before.Decided() ==>
          && after.stored == before.stored == before.journal.value.intent.target && after.files == before.files
          && (after.journal == before.journal || after.journal.None?))
    && (after.mixed ==> before.mixed || (step.DoRetry? && before.Misleading()))
    && (after.dirty ==> before.dirty || before.Reapplied())
    && (after.last != before.last ==> !after.mixed && !after.dirty)
    && |after.files| == |before.files|
  }

  /** What every step achieves, unless the machine fails it. A request to a dead Agent starts it. */
  ghost predicate Advances(step: Request, before: Moment, after: Moment) {
    if !before.live || step.DoStartup? then
      if before.journal.None? then after.live
      else after.journal.None? || after.faults > 0
           || (!before.Decided() && before.journal.value.intent.content && !before.Undoable())
    else
      || after.faults > before.faults
      || match step
         case DoContent(target, wanted) =>
           before.journal.None? && |wanted| == |before.files| && before.ticket.Over() ==>
             after.journal.None? && after.stored == target && AsWanted(before.files, wanted, after.files)
         case DoSelection(target) =>
           before.journal.None? ==> after.journal.None? && after.stored == target
         case DoRetry =>
           before.journal.Some? && before.journal.value.intent.content && (before.Decided() || before.ticket.status.Applied?) ==>
             after.journal.None? && after.stored == before.journal.value.intent.target
         case DoAbort =>
           before.journal.Some? && !before.Decided() && before.journal.value.intent.content && before.Undoable() ==>
             after.journal.None? && after.stored == before.journal.value.intent.previous
         case DoSettle =>
           before.journal.Some? && !before.journal.value.intent.content ==> after.journal.None?
  }

  datatype Request =
    | DoContent(target: Selection, wanted: seq<Wanted>)
    | DoSelection(target: Selection)
    | DoRetry
    | DoAbort
    | DoSettle
    | DoStartup

  /** A Checkpoints object in the middle of a content restore with this ticket. */
  method InTheMiddle(device: Device, target: Selection, ticket: Ticket, files: seq<Content>, copies: seq<Content>, discards: seq<Content>)
    returns (c: Checkpoints)
    requires |ticket.entries| == |ticket.progress| == |files| == |copies| == |discards|
    requires ticket.status.Applying? || (ticket.status.Applied? && !ticket.materializationPending)
    requires forall i :: 0 <= i < |files| ==> EntryOk(ticket.entries[i], ticket.progress[i], files[i], copies[i], discards[i])
    ensures fresh(c) && fresh(c.snapshots) && c.device == device && c.Inv() && c.online
    ensures c.journal.Some? && c.journal.value.phase.PreparedPhase? && c.journal.value.intent == Intent(c.Stored(), target, true)
    ensures c.snapshots.ticket == ticket && c.snapshots.files == files && c.snapshots.copies == copies && c.snapshots.discards == discards
  {
    var s: Snapshots := new Snapshots(device, files);
    c := new Checkpoints(s, None, None, Catalog("web", ["web"]));
    s.ticket, s.copies, s.discards, s.installed := ticket, copies, discards, true;
    var i := Intent(c.Stored(), target, true);
    c.journal, c.last := Some(Journal(PreparedPhase, i)), Some(i);
  }

  /** The state an interrupted rollback leaves: the ticket still says Applied, one file is back.
      Retrying from it commits a mixture. */
  method RetryAfterInterruptedRollback(device: Device, target: Selection) returns (c: Checkpoints, outcome: Outcome)
    requires !device.crashed
    modifies device
    ensures fresh(c)
    ensures device.faults == old(device.faults) ==>
      && outcome.Restored? && c.Stored() == target
      && c.snapshots.ticket.status.Committed? && c.snapshots.files == [Some(3), Some(2)]
  {
    c := InTheMiddle(device, target,
      Ticket(Applied, false, [Entry(Some(1), Put(Some(3))), Entry(Some(2), Put(Some(4)))], [Finished, Undone]),
      [Some(3), Some(2)], [Some(1), None], [None, None]);
    outcome := c.Retry();
  }

  /** After an interrupted rollback of a file that was not there before, a retry writes it again and
      is cut before it can note that. The next rollback ends without removing the file. `faults` is
      the count of faults at the cut. */
  method RollbackAfterReapply(device: Device, target: Selection) returns (c: Checkpoints, ghost faults: nat)
    requires !device.crashed
    modifies device, device.lives
    ensures fresh(c)
    ensures faults == old(device.faults) && device.faults == 0 ==>
      && c.journal.None? && c.snapshots.ticket.status.RolledBack? && c.snapshots.files == [Some(5)]
      && c.snapshots.ticket.entries == [Entry(None, Put(Some(5)))]
  {
    c := InTheMiddle(device, target, Ticket(Applying, true, [Entry(None, Put(Some(5)))], [Undone]), [None], [None], [Some(5)]);
    var _ := c.snapshots.Fill(0); // the next step of a resumed apply
    faults := device.faults;
    c.Startup();
  }

  /** When the retry could note it, the file stands beside its own discarded content, and no abort
      can end any more. */
  method AbortAfterReapply(device: Device, target: Selection) returns (c: Checkpoints, ok: bool)
    requires !device.crashed
    modifies device
    ensures fresh(c)
    ensures device.faults == old(device.faults) ==> !ok && c.journal.Some? && c.snapshots.files == [Some(5)]
  {
    c := InTheMiddle(device, target, Ticket(Applied, false, [Entry(None, Put(Some(5)))], [Finished]), [Some(5)], [None], [Some(5)]);
    assert !CanUndo(c.snapshots.ticket.entries[0], c.snapshots.ticket.progress[0], c.snapshots.files[0], c.snapshots.discards[0]);
    ok := c.Abort();
  }
}
