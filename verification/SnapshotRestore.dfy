/** The inner transaction of a checkpoint restore: a ticket that moves profile files from
    their original to their desired content, one file at a time, and can undo it. */
module SnapshotRestore {
  import opened Faults
  import opened Wrappers

  /** What stands under a path; `None` when there is no file. */
  type Content = Option<nat>

  datatype Status = Prepared | Applying | Applied | Committing | Committed | RolledBack

  /** One file's progress. */
  datatype Progress = Pending | Moving | BackedUp | Finished | Undone

  /** What a snapshot asks for: a file it omits stays as it is. */
  datatype Wanted = Keep | Put(content: Content)

  datatype Entry = Entry(original: Content, wanted: Wanted) {
    function Desired(): Content {
      if wanted.Keep? then original else wanted.content
    }
  }

  datatype Ticket = Ticket(status: Status, materializationPending: bool, entries: seq<Entry>, progress: seq<Progress>) {
    /** Only then may the next transaction start. */
    predicate Over() {
      status.Committed? || status.RolledBack?
    }

    /** The manifests come first among the files; a change to them needs the package manager. */
    predicate Demands() {
      exists i :: 0 <= i < 3 && i < |entries| && entries[i].Desired() != entries[i].original
    }
  }

  /** What the file, its undo copy and its discarded content may be at this progress. */
  ghost predicate EntryOk(e: Entry, p: Progress, file: Content, copy: Content, discard: Content) {
    if e.wanted.Keep? then
      !p.Moving? && !p.BackedUp? && file == e.original && copy.None? && discard.None?
    else if e.original.Some? then
      && discard.None?
      // The original is in its place, or in its undo copy.
      && ((file == e.original && copy.None?)
          || (copy == e.original && (match p
                                     case Moving => file.None?
                                     case BackedUp => file.None? || file == e.Desired()
                                     case Finished => file == e.Desired()
                                     case _ => false)))
    else
      && copy.None? && (file.None? || file == e.Desired()) && (discard.None? || discard == e.Desired())
      && (p.Pending? || p.Moving? ==> file.None? && discard.None?)
      && (p.Finished? ==> file == e.Desired() || discard == e.Desired())
  }

  ghost predicate NeverUndone(e: Entry, p: Progress, copy: Content, discard: Content) {
    && !p.Undone? && discard.None?
    && ((p.BackedUp? || p.Finished?) && e.wanted.Put? ==> copy == e.original)
  }

  /** Applying can continue with this file. */
  predicate CanApply(e: Entry, p: Progress, file: Content, copy: Content) {
    match p
    case Pending => true
    case Moving => true
    case BackedUp => e.original.Some? ==> copy.Some?
    case Finished => file == e.Desired()
    case Undone => e.wanted.Keep? || e.original.None?
  }

  /** Undoing can continue with this file. */
  predicate CanUndo(e: Entry, p: Progress, file: Content, discard: Content) {
    p.Pending? || p.Undone? || e.original.Some? || file.None? || discard.None?
  }

  class Snapshots {
    const device: Device
    var ticket: Ticket
    var files: seq<Content>
    // The backup directory of the transaction.
    var copies: seq<Content>
    var discards: seq<Content>
    // The package manager has run since the files of this transaction were applied.
    ghost var installed: bool

    predicate AllDesired()
      requires |ticket.entries| == |files|
      reads this`files, this`ticket
    {
      forall i :: 0 <= i < |files| ==> files[i] == ticket.entries[i].Desired()
    }

    predicate AllOriginal()
      requires |ticket.entries| == |files|
      reads this`files, this`ticket
    {
      forall i :: 0 <= i < |files| ==> files[i] == ticket.entries[i].original
    }

    predicate BackupsGone()
      requires |copies| == |files| == |discards|
      reads this`files, this`copies, this`discards
    {
      forall i :: 0 <= i < |files| ==> copies[i].None? && discards[i].None?
    }

    ghost predicate Sized()
      reads this`ticket, this`files, this`copies, this`discards
    {
      |ticket.entries| == |ticket.progress| == |files| == |copies| == |discards|
    }

    /** Before the commit each file agrees with its progress; afterwards the backups go. A
        materialization that is needed is ticked off only after it ran. */
    ghost predicate Valid()
      reads this
    {
      && Sized()
      && (ticket.status.Committing? || ticket.status.Committed? || forall i :: 0 <= i < |files| ==>
            EntryOk(ticket.entries[i], ticket.progress[i], files[i], copies[i], discards[i]))
      && (ticket.status.Prepared? ==> forall i :: 0 <= i < |files| ==> ticket.progress[i].Pending?)
      && (ticket.status.RolledBack? ==> forall i :: 0 <= i < |files| ==> ticket.progress[i].Pending? || ticket.progress[i].Undone?)
      && (ticket.status.RolledBack? || ticket.status.Committed? ==> BackupsGone())
      && (ticket.Demands() && !ticket.materializationPending && !ticket.status.RolledBack? ==> installed)
      && (ticket.status.Committing? || ticket.status.Committed? ==> !ticket.materializationPending)
    }

    /** A file counted as undone has its original content. */
    predicate Intact()
      requires Sized()
      reads this
    {
      forall i :: 0 <= i < |files| ==> ticket.progress[i].Undone? ==> files[i] == ticket.entries[i].original
    }

    predicate Resumable()
      requires Sized()
      reads this
    {
      && (ticket.status.Prepared? || ticket.status.Applying?)
      && forall i :: 0 <= i < |files| ==> CanApply(ticket.entries[i], ticket.progress[i], files[i], copies[i])
    }

    predicate Undoable()
      requires Sized()
      reads this
    {
      forall i :: 0 <= i < |files| ==> CanUndo(ticket.entries[i], ticket.progress[i], files[i], discards[i])
    }

    /** Nothing of this transaction was ever undone. */
    ghost predicate Straight()
      requires Sized()
      reads this
    {
      forall i :: 0 <= i < |files| ==> NeverUndone(ticket.entries[i], ticket.progress[i], copies[i], discards[i])
    }

    constructor (device: Device, files: seq<Content>)
      ensures this.device == device && Valid() && this.files == files && ticket.status.RolledBack? && AllOriginal()
    {
      this.device, this.files := device, files;
      ticket := Ticket(RolledBack, false, seq(|files|, i requires 0 <= i < |files| => Entry(files[i], Keep)), seq(|files|, _ => Undone));
      copies, discards, installed := seq(|files|, _ => None), seq(|files|, _ => None), false;
    }

    // ----- single durable steps -----

    method WriteTicket(record: Ticket) returns (ok: bool)
      modifies this`ticket, device
      ensures ticket == old(ticket) || ticket == record
      ensures ok ==> ticket == record && !device.crashed
      ensures old(device.crashed) ==> device.crashed && ticket == old(ticket)
      ensures device.faults == old(device.faults) + if ok then 0 else 1
    {
      var applied;
      applied, ok := device.Step();
      if applied {
        ticket := record;
      }
    }

    method Record(i: nat, p: Progress) returns (ok: bool)
      requires Sized() && i < |files|
      modifies this`ticket, device
      ensures ticket == old(ticket) || ticket == old(ticket).(progress := old(ticket).progress[i := p])
      ensures ok ==> ticket.progress == old(ticket).progress[i := p] && !device.crashed
      ensures device.faults == old(device.faults) + if ok then 0 else 1
    {
      ok := WriteTicket(ticket.(progress := ticket.progress[i := p]));
    }

    // ----- prepare -----

    /** Starts a transaction: nothing of the profile changes. The profile as it stands becomes
        the original content. */
    method Prepare(wanted: seq<Wanted>) returns (ok: bool)
      requires Valid() && |wanted| == |files|
      modifies this`ticket, this`installed, device
      ensures Valid() && old(device.faults) <= device.faults
      ensures ok ==> old(ticket).Over() && ticket.status.Prepared? && !device.crashed
      ensures ok || device.faults > old(device.faults) || !old(ticket).Over()
      // The ticket stays, or it has one pending entry for each file.
      ensures (ticket == old(ticket) && installed == old(installed)) ||
        (old(ticket).Over() && ticket.status.Prepared? && Straight() && !installed
         && Asks(ticket.entries, files, wanted)
         && (ticket.materializationPending <==>
               exists i :: 0 <= i < 3 && i < |files| && wanted[i].Put? && wanted[i].content != files[i]))
    {
      ok := device.Attempt();
      if !ok || !ticket.Over() {
        return false;
      }
      var now := files;
      var next := Ticket(Prepared, false,
        seq(|now|, i requires 0 <= i < |now| => Entry(now[i], wanted[i])), seq(|now|, _ => Pending));
      ok := WriteTicket(next.(materializationPending := next.Demands()));
      if ticket.status.Prepared? {
        installed := false;
      }
    }

    // ----- apply -----

    /** Applies, or resumes applying. A ticket that already says Applied is believed. */
    method Apply() returns (ok: bool)
      requires Valid()
      modifies this`ticket, this`files, this`copies, device
      ensures Valid() && old(device.faults) <= device.faults
      ensures ticket.entries == old(ticket).entries && ticket.materializationPending == old(ticket).materializationPending
      ensures old(ticket).status.Applied? ==> ticket == old(ticket) && files == old(files)
      ensures !(old(ticket).status.Applied? || old(ticket).status.Prepared? || old(ticket).status.Applying?) ==>
        !ok && ticket == old(ticket) && files == old(files)
      ensures ok ==> ticket.status.Applied? && !device.crashed
      ensures !old(ticket).status.Applied? && ticket.status.Applied? ==>
        AllDesired() && forall i :: 0 <= i < |files| ==> ticket.progress[i].Finished?
      ensures ticket.status == old(ticket).status || ticket.status.Applying? || ticket.status.Applied?
      ensures device.faults == old(device.faults) ==> (ok <==> old(ticket).status.Applied? || old(Resumable()))
      ensures old(Straight()) ==> Straight()
      ensures old(device.crashed) ==> device.crashed && ticket == old(ticket) && files == old(files)
    {
      ok := device.Attempt();
      if !ok || ticket.status.Applied? {
        return;
      }
      if !ticket.status.Prepared? && !ticket.status.Applying? {
        return false;
      }
      if ticket.status.Prepared? {
        ok := WriteTicket(ticket.(status := Applying));
        if !ok { return; }
      }
      ok := ApplyAll();
      if !ok { return; }
      ok := WriteTicket(ticket.(status := Applied));
    }

    method ApplyAll() returns (ok: bool)
      requires Valid() && ticket.status.Applying? && !device.crashed
      modifies this`ticket, this`files, this`copies, device
      ensures Valid() && |files| == |old(files)| && ticket == old(ticket).(progress := ticket.progress)
      ensures ok ==> AllDesired() && !device.crashed && forall i :: 0 <= i < |files| ==> ticket.progress[i].Finished?
      ensures old(device.faults) <= device.faults
      ensures device.faults == old(device.faults) ==> (ok <==> old(Resumable()))
      ensures old(Straight()) ==> Straight()
    {
      ok := true;
      for i := 0 to |files|
        invariant Valid() && |files| == |old(files)| && ticket == old(ticket).(progress := ticket.progress)
        invariant forall j :: 0 <= j < i ==> files[j] == ticket.entries[j].Desired() && ticket.progress[j].Finished?
        invariant forall j :: i <= j < |files| ==>
          files[j] == old(files[j]) && copies[j] == old(copies[j]) && ticket.progress[j] == old(ticket.progress[j])
        invariant ok && !device.crashed && old(device.faults) <= device.faults
        invariant device.faults == old(device.faults) ==>
          forall j :: 0 <= j < i ==> old(CanApply(ticket.entries[j], ticket.progress[j], files[j], copies[j]))
        invariant old(Straight()) ==> Straight()
      {
        ok := ApplyOne(i);
        if !ok { return; }
      }
    }

    /** Everything about one file that an apply leaves alone, or changes only at `i`. */
    twostate predicate OnlyAt(i: nat)
      requires old(Sized()) && Sized()
      reads this
    {
      && |files| == |old(files)|
      && ticket == old(ticket).(progress := ticket.progress)
      && forall j :: 0 <= j < |files| && j != i ==>
           files[j] == old(files[j]) && copies[j] == old(copies[j]) && discards[j] == old(discards[j])
           && ticket.progress[j] == old(ticket.progress[j])
    }

    method ApplyOne(i: nat) returns (ok: bool)
      requires Valid() && i < |files| && ticket.status.Applying? && !device.crashed
      modifies this`ticket, this`files, this`copies, device
      ensures Valid() && OnlyAt(i)
      ensures ok ==> files[i] == ticket.entries[i].Desired() && ticket.progress[i].Finished? && !device.crashed
      ensures old(device.faults) <= device.faults
      ensures device.faults == old(device.faults) ==>
        (ok <==> old(CanApply(ticket.entries[i], ticket.progress[i], files[i], copies[i])))
      ensures old(Straight()) ==> Straight()
    {
      if ticket.progress[i].Finished? {
        ok := device.Attempt(); // the file still has the content that was applied
        return ok && files[i] == ticket.entries[i].Desired();
      }
      ok := true;
      if ticket.entries[i].wanted.Put? {
        ok := Replace(i);
      }
      if ok {
        ok := Record(i, Finished);
      }
    }

    method Replace(i: nat) returns (ok: bool)
      requires Valid() && i < |files| && ticket.status.Applying? && !device.crashed
      requires ticket.entries[i].wanted.Put? && !ticket.progress[i].Finished?
      modifies this`ticket, this`files, this`copies, device
      ensures Valid() && OnlyAt(i)
      ensures ok ==>
        && !device.crashed && files[i] == ticket.entries[i].Desired() && (ticket.progress[i].BackedUp? || ticket.progress[i].Undone?)
        && (ticket.entries[i].original.Some? ==> copies[i] == ticket.entries[i].original)
      ensures old(device.faults) <= device.faults
      ensures device.faults == old(device.faults) ==>
        (ok <==> old(CanApply(ticket.entries[i], ticket.progress[i], files[i], copies[i])))
      ensures old(Straight()) ==> Straight()
    {
      ok := BackUp(i);
      if ok {
        ok := Fill(i);
      }
    }

    /** Sees to the undo copy of a file, once. */
    method BackUp(i: nat) returns (ok: bool)
      requires Valid() && i < |files| && ticket.status.Applying? && !device.crashed
      requires ticket.entries[i].wanted.Put? && !ticket.progress[i].Finished?
      modifies this`ticket, this`files, this`copies, device
      ensures Valid() && OnlyAt(i)
      ensures ok ==>
        && !device.crashed && (ticket.progress[i].BackedUp? || ticket.progress[i].Undone?)
        && (ticket.entries[i].original.Some? ==> copies[i] == ticket.entries[i].original)
      ensures old(device.faults) <= device.faults
      ensures device.faults == old(device.faults) ==>
        (ok <==> old(CanApply(ticket.entries[i], ticket.progress[i], files[i], copies[i])))
      ensures old(Straight()) ==> Straight()
    {
      ok := true;
      if ticket.progress[i].Pending? {
        if files[i] != ticket.entries[i].original {
          return false;
        }
        ok := Record(i, Moving);
        if !ok { return; }
      }
      if ticket.progress[i].Moving? {
        ok := MakeCopy(i);
        if !ok { return; }
      }
      // An undo copy that went back to its file is not made again.
      ok := ticket.entries[i].original.Some? ==> copies[i].Some?;
    }

    method MakeCopy(i: nat) returns (ok: bool)
      requires Valid() && i < |files| && ticket.status.Applying? && ticket.progress[i].Moving? && !device.crashed
      modifies this`ticket, this`files, this`copies, device
      ensures Valid() && OnlyAt(i)
      ensures ok ==> !device.crashed && ticket.progress[i].BackedUp? && copies[i] == ticket.entries[i].original
      ensures old(device.faults) <= device.faults
      ensures ok || device.faults > old(device.faults)
      ensures old(Straight()) ==> Straight()
    {
      ok := true;
      if ticket.entries[i].original.Some? && copies[i].None? {
        if files[i] != ticket.entries[i].original {
          return false;
        }
        ok := MoveAside(i);
      }
      if ok {
        ok := Record(i, BackedUp);
      }
    }

    /** One rename. */
    method MoveAside(i: nat) returns (ok: bool)
      requires Valid() && i < |files| && ticket.status.Applying? && ticket.progress[i].Moving?
      requires ticket.entries[i].original.Some? && files[i] == ticket.entries[i].original && copies[i].None?
      modifies this`files, this`copies, device
      ensures Valid() && OnlyAt(i) && (old(Straight()) ==> Straight())
      ensures ok ==> !device.crashed && copies[i] == ticket.entries[i].original
      ensures device.faults == old(device.faults) + if ok then 0 else 1
    {
      var applied;
      applied, ok := device.Step();
      if applied {
        copies, files := copies[i := files[i]], files[i := None];
      }
    }

    /** Writes the desired content where nothing stands. */
    method Fill(i: nat) returns (ok: bool)
      requires Valid() && i < |files| && ticket.status.Applying? && !device.crashed
      requires ticket.entries[i].wanted.Put? && (ticket.progress[i].BackedUp? || ticket.progress[i].Undone?)
      requires ticket.entries[i].original.Some? ==> copies[i] == ticket.entries[i].original
      modifies this`files, device
      ensures Valid() && |files| == |old(files)| && forall j :: 0 <= j < |files| && j != i ==> files[j] == old(files[j])
      ensures ok ==> files[i] == ticket.entries[i].Desired() && !device.crashed
      ensures files[i] == old(files[i]) || files[i] == ticket.entries[i].Desired()
      ensures old(device.faults) <= device.faults
      ensures ok || device.faults > old(device.faults)
      ensures old(Straight()) ==> Straight()
    {
      var desired := ticket.entries[i].Desired();
      ok := true;
      if files[i] != desired {
        if files[i].Some? {
          return false;
        }
        var applied;
        applied, ok := device.Step();
        if applied {
          files := files[i := desired];
        }
      }
    }

    // ----- commit -----

    /** The package manager installs what the applied files ask for. */
    method Materialize() returns (ok: bool)
      requires Valid() && ticket.status.Applied?
      modifies this`installed, device
      ensures Valid() && (installed <==> old(installed) || ok)
      ensures ok ==> !device.crashed
      ensures device.faults == old(device.faults) + if ok then 0 else 1
    {
      ok := device.Attempt();
      installed := installed || ok;
    }

    /** The caller reports that the package manager has run. */
    method MarkMaterialized() returns (ok: bool)
      requires Valid() && (ticket.Demands() ==> installed)
      modifies this`ticket, device
      ensures Valid()
      ensures ticket == old(ticket) || (old(ticket).status.Applied? && ticket == old(ticket).(materializationPending := false))
      ensures ok ==> !ticket.materializationPending && !device.crashed
      ensures old(device.faults) <= device.faults
      ensures device.faults == old(device.faults) ==>
        (ok <==> old(ticket).status.Applied? || (old(ticket).status.Committed? && !old(ticket).materializationPending))
    {
      ok := device.Attempt();
      if !ok || (ticket.status.Committed? && !ticket.materializationPending) {
        return;
      }
      if !ticket.status.Applied? {
        return false;
      }
      ok := WriteTicket(ticket.(materializationPending := false));
    }

    /** Deletes the backup directory, file by file. */
    method RemoveBackups() returns (ok: bool)
      requires Valid() && !device.crashed
      requires ticket.status.Committing? || ticket.status.Committed?
        || forall i :: 0 <= i < |files| ==> ticket.progress[i].Pending? || ticket.progress[i].Undone?
      modifies this`copies, this`discards, device
      ensures Valid() && (ok ==> BackupsGone() && !device.crashed)
      ensures old(device.faults) <= device.faults
      ensures ok || device.faults > old(device.faults)
    {
      ok := true;
      for i := 0 to |files|
        invariant Valid() && ok && !device.crashed && old(device.faults) <= device.faults
        invariant forall j :: 0 <= j < i ==> copies[j].None? && discards[j].None?
      {
        var applied;
        applied, ok := device.Step();
        if applied {
          copies := copies[i := None];
        }
        if !ok { return; }
        applied, ok := device.Step();
        if applied {
          discards := discards[i := None];
        }
        if !ok { return; }
      }
    }

    /** Gives up the undo copies. */
    method Commit() returns (ok: bool)
      requires Valid()
      modifies this`ticket, this`copies, this`discards, device
      ensures Valid()
      ensures ticket == old(ticket)
        || (((old(ticket).status.Applied? && !old(ticket).materializationPending) || old(ticket).status.Committing?)
            && (ticket == old(ticket).(status := Committing) || ticket == old(ticket).(status := Committed)))
      ensures ok ==> ticket.status.Committed? && !device.crashed
      // No undo copy goes before the decision is durable.
      ensures ticket.status.Applied? ==> copies == old(copies) && discards == old(discards)
      ensures old(device.faults) <= device.faults
      ensures device.faults == old(device.faults) ==>
        (ok <==> old(ticket).status.Committed? || old(ticket).status.Committing?
                 || (old(ticket).status.Applied? && !old(ticket).materializationPending))
    {
      ok := device.Attempt();
      if !ok {
        return;
      }
      if ticket.status.Committed? {
        ok := RemoveBackups();
        return;
      }
      if ticket.status.Applied? && !ticket.materializationPending {
        ok := WriteTicket(ticket.(status := Committing));
        if !ok { return; }
      }
      if !ticket.status.Committing? {
        return false;
      }
      ok := RemoveBackups();
      if ok {
        ok := WriteTicket(ticket.(status := Committed));
      }
    }

    // ----- rollback -----

    /** What a complete rollback makes of the files: one counted as undone is not looked at again. */
    twostate predicate Reverted()
      requires old(Sized()) && Sized()
      reads this
    {
      |files| == |old(files)| && forall i :: 0 <= i < |files| ==>
        files[i] == if old(ticket.progress[i]).Undone? then old(files[i]) else ticket.entries[i].original
    }

    /** No rollback, complete or not, does anything to a file but putting its original back. */
    twostate predicate OnlyReverting()
      requires old(Sized()) && Sized()
      reads this
    {
      |files| == |old(files)| && forall i :: 0 <= i < |files| ==>
        && (files[i] == old(files[i]) || files[i] == ticket.entries[i].original)
        && (!old(CanUndo(ticket.entries[i], ticket.progress[i], files[i], discards[i])) ==> files[i] == old(files[i]))
    }

    /** Puts the originals back, last file first. An interrupted run keeps the ticket's status. A
        file the ticket counts as undone is not looked at again. */
    method Rollback() returns (ok: bool)
      requires Valid()
      modifies this`ticket, this`files, this`copies, this`discards, device
      ensures Valid() && ticket.entries == old(ticket).entries
      ensures ok ==> ticket.status.RolledBack? && !device.crashed
      ensures ok ==> Reverted()
      ensures ok ==> (AllOriginal() <==> old(Intact()))
      ensures old(Intact()) ==> Intact()
      ensures OnlyReverting()
      ensures ticket.status == old(ticket).status || (ticket.status.RolledBack? && Reverted())
      ensures old(ticket).status.Committing? || old(ticket).status.Committed? ==>
        !ok && ticket == old(ticket) && files == old(files)
      ensures old(device.crashed) ==> device.crashed && ticket == old(ticket) && files == old(files)
      ensures old(device.faults) <= device.faults
      ensures device.faults == old(device.faults) ==>
        (ok <==> !old(ticket).status.Committing? && !old(ticket).status.Committed? && old(Undoable()))
      ensures ticket.materializationPending ==> old(ticket).materializationPending
    {
      ok := device.Attempt();
      if !ok {
        return;
      }
      if ticket.status.RolledBack? {
        ok := RemoveBackups();
        return;
      }
      if ticket.status.Committing? || ticket.status.Committed? {
        return false;
      }
      if ticket.status.Prepared? {
        ok := WriteTicket(ticket.(status := RolledBack, materializationPending := false));
        return;
      }
      ok := UndoAll();
      if !ok { return; }
      ok := RemoveBackups();
      if ok {
        ok := WriteTicket(ticket.(status := RolledBack, materializationPending := false));
      }
    }

    method UndoAll() returns (ok: bool)
      requires Valid() && (ticket.status.Applying? || ticket.status.Applied?) && !device.crashed
      modifies this`ticket, this`files, this`copies, this`discards, device
      ensures Valid() && |files| == |old(files)| && ticket == old(ticket).(progress := ticket.progress)
      ensures ok ==> !device.crashed && Reverted() && forall i :: 0 <= i < |files| ==>
        ticket.progress[i].Pending? || ticket.progress[i].Undone?
      ensures OnlyReverting()
      ensures old(Intact()) ==> Intact()
      ensures old(device.faults) <= device.faults
      ensures device.faults == old(device.faults) ==> (ok <==> old(Undoable()))
    {
      ok := true;
      for i := |files| downto 0
        invariant Valid() && |files| == |old(files)| && ticket == old(ticket).(progress := ticket.progress)
        invariant forall j :: i <= j < |files| ==>
          && (ticket.progress[j].Pending? || ticket.progress[j].Undone?)
          && files[j] == (if old(ticket.progress[j]).Undone? then old(files[j]) else ticket.entries[j].original)
        invariant forall j :: 0 <= j < i ==>
          files[j] == old(files[j]) && discards[j] == old(discards[j]) && ticket.progress[j] == old(ticket.progress[j])
        invariant !device.crashed && ok && old(device.faults) <= device.faults
        invariant forall j :: i <= j < |files| ==> old(CanUndo(ticket.entries[j], ticket.progress[j], files[j], discards[j]))
      {
        if !ticket.progress[i].Pending? && !ticket.progress[i].Undone? {
          ok := UndoOne(i);
          if !ok { return; }
        }
      }
    }

    method UndoOne(i: nat) returns (ok: bool)
      requires Valid() && i < |files| && (ticket.status.Applying? || ticket.status.Applied?) && !device.crashed
      requires !ticket.progress[i].Pending? && !ticket.progress[i].Undone?
      modifies this`ticket, this`files, this`copies, this`discards, device
      ensures Valid() && OnlyAt(i)
      ensures ok ==> files[i] == ticket.entries[i].original && ticket.progress[i].Undone? && !device.crashed
      ensures files[i] == old(files[i]) || files[i] == ticket.entries[i].original
      ensures ticket.progress[i].Undone? ==> files[i] == ticket.entries[i].original
      ensures old(device.faults) <= device.faults
      ensures device.faults == old(device.faults) ==>
        (ok <==> old(CanUndo(ticket.entries[i], ticket.progress[i], files[i], discards[i])))
      ensures !old(CanUndo(ticket.entries[i], ticket.progress[i], files[i], discards[i])) ==> !ok && files[i] == old(files[i])
    {
      if copies[i].Some? {
        ok := PutBack(i);
      } else if ticket.entries[i].original.Some? {
        ok := files[i] == ticket.entries[i].original;
      } else {
        ok := Discard(i);
      }
      if ok {
        ok := Record(i, Undone);
      }
    }

    /** The undo copy replaces the file. */
    method PutBack(i: nat) returns (ok: bool)
      requires Valid() && i < |files| && (ticket.status.Applying? || ticket.status.Applied?)
      requires copies[i].Some? && !ticket.progress[i].Pending? && !ticket.progress[i].Undone?
      modifies this`files, this`copies, device
      ensures Valid() && OnlyAt(i)
      ensures ok ==> files[i] == ticket.entries[i].original && copies[i].None? && !device.crashed
      ensures files[i] == old(files[i]) || files[i] == ticket.entries[i].original
      ensures device.faults == old(device.faults) + if ok then 0 else 1
    {
      var applied;
      applied, ok := device.Step();
      if applied {
        files, copies := files[i := copies[i]], copies[i := None];
      }
    }

    /** A file that was not there before is moved aside, once. */
    method Discard(i: nat) returns (ok: bool)
      requires Valid() && i < |files| && (ticket.status.Applying? || ticket.status.Applied?) && !device.crashed
      requires ticket.entries[i].original.None? && !ticket.progress[i].Pending? && !ticket.progress[i].Undone?
      modifies this`files, this`discards, device
      ensures Valid() && OnlyAt(i)
      ensures ok ==> files[i].None? && !device.crashed
      ensures files[i] == old(files[i]) || files[i].None?
      ensures old(device.faults) <= device.faults
      ensures device.faults == old(device.faults) ==> (ok <==> old(files[i]).None? || old(discards[i]).None?)
      ensures old(files[i]).Some? && old(discards[i]).Some? ==> !ok && files[i] == old(files[i])
    {
      var e := ticket.entries[i];
      var expected := if ticket.progress[i].Moving? then None else e.Desired();
      if files[i].Some? && discards[i].Some? {
        return false;
      }
      if discards[i].Some? {
        return discards[i] == expected;
      }
      if files[i].None? {
        return !(ticket.progress[i].Finished? && expected.Some?);
      }
      if files[i] != expected {
        return false;
      }
      var applied;
      applied, ok := device.Step();
      if applied {
        discards, files := discards[i := files[i]], files[i := None];
      }
    }
  }

  /** The files a snapshot asks for, over the files it found. */
  ghost predicate AsWanted(before: seq<Content>, wanted: seq<Wanted>, after: seq<Content>) {
    && |before| == |wanted| == |after|
    && forall i :: 0 <= i < |after| ==> after[i] == if wanted[i].Keep? then before[i] else wanted[i].content
  }

  /** The entries of a ticket that was prepared over `before`. */
  ghost predicate Asks(entries: seq<Entry>, before: seq<Content>, wanted: seq<Wanted>) {
    |entries| == |before| == |wanted| && forall i :: 0 <= i < |entries| ==> entries[i] == Entry(before[i], wanted[i])
  }

  lemma EndsAsAsked(s: Snapshots, before: seq<Content>, wanted: seq<Wanted>)
    requires s.Sized() && Asks(s.ticket.entries, before, wanted)
    ensures s.AllDesired() ==> AsWanted(before, wanted, s.files)
    ensures s.AllOriginal() <==> s.files == before
    ensures s.ticket.Demands() <==> exists i :: 0 <= i < 3 && i < |wanted| && wanted[i].Put? && wanted[i].content != before[i]
  {
  }

  /** Until the commit, every original is in its place or in its undo copy. */
  lemma OriginalsSurvive(s: Snapshots, i: nat)
    requires s.Valid() && i < |s.files| && !s.ticket.status.Committing? && !s.ticket.status.Committed?
    ensures s.ticket.entries[i].original.Some? ==>
      s.files[i] == s.ticket.entries[i].original || s.copies[i] == s.ticket.entries[i].original
  {
    assert EntryOk(s.ticket.entries[i], s.ticket.progress[i], s.files[i], s.copies[i], s.discards[i]);
  }
}
