/** The launcher's refresh: overlapping calls share one drain, which runs another pass whenever
    a call arrived during the last one. */
module Refresh {
  import opened Wrappers

  /** How a pass ends: the Agent is offline, the pass threw, or the whole batch was read. */
  datatype Ending = Offline | Failed | Read

  /** A pass that ended, on the common count of events. */
  datatype Pass = Pass(begun: nat, ended: nat, ending: Ending, published: bool)

  /** A call whose promise resolved, with the pass it can rely on. */
  datatype Answer = Answer(at: nat, pass: nat)

  /** Everything that happened: the times of all calls, the passes, and the resolved calls. */
  datatype Log = Log(
    inFlight: bool, pending: bool, now: nat, begun: nat,
    calls: seq<nat>, passes: seq<Pass>, answered: seq<Answer>)
  {
    ghost predicate InTime() {
      && begun <= now
      && (forall i :: 0 <= i < |calls| ==> calls[i] <= now)
      && (forall i :: 0 <= i < |passes| ==> passes[i].begun < passes[i].ended <= if inFlight then begun else now)
      && (forall i, j :: 0 <= i < j < |passes| ==> passes[i].ended <= passes[j].begun)
    }

    /** Another pass is due exactly when a call arrived after the running pass began. */
    ghost predicate Fresh() {
      && (pending ==> inFlight)
      && (inFlight ==> (pending <==> exists i :: 0 <= i < |calls| && calls[i] > begun))
    }

    /** Calls resolve in order, each after a published pass that began no earlier than it did. */
    ghost predicate Answered() {
      && |answered| <= |calls| && (!inFlight ==> |answered| == |calls|)
      && forall i :: 0 <= i < |answered| ==>
        var answer := answered[i];
        && answer.at == calls[i] && answer.pass < |passes|
        && answer.at <= passes[answer.pass].begun && passes[answer.pass].published
    }

    ghost predicate Overtaken(pass: Pass) {
      exists i :: 0 <= i < |calls| && pass.begun < calls[i] <= pass.ended
    }

    /** A batch is withheld exactly when a call arrived while it was being read. */
    ghost predicate NothingStale() {
      forall i :: 0 <= i < |passes| ==>
        (passes[i].published <==> !(passes[i].ending.Read? && Overtaken(passes[i])))
    }

    /** Every pass, running or due, is owed to a call of its own. */
    ghost predicate PaidFor() {
      |passes| + (if inFlight then 1 else 0) + (if pending then 1 else 0) <= |calls|
    }

    ghost predicate Consistent() {
      InTime() && Fresh() && Answered() && NothingStale() && PaidFor()
    }
  }

  ghost function Joined(log: Log): Log {
    var now := log.now + 1;
    log.(now := now, calls := log.calls + [now], pending := log.inFlight, begun := if log.inFlight then log.begun else now, inFlight := true)
  }

  lemma JoiningKeeps(log: Log)
    requires log.Consistent()
    ensures Joined(log).Consistent()
  {
    var after := Joined(log);
    assert after.calls[|log.calls|] == after.now;
    forall i | 0 <= i < |log.passes| ensures after.Overtaken(log.passes[i]) <==> log.Overtaken(log.passes[i]) {
      assert log.passes[i].ended <= log.now;
      assert forall k :: 0 <= k < |log.calls| ==> after.calls[k] == log.calls[k];
    }
  }

  /** The pass ends; the next one begins at once, or the drain resolves for all who wait. */
  ghost function Ended(log: Log, ending: Ending): Log {
    var now := log.now + 1;
    var pass := Pass(log.begun, now, ending, !(ending.Read? && log.pending));
    if log.pending then
      log.(now := now, passes := log.passes + [pass], begun := now, pending := false)
    else
      log.(now := now, passes := log.passes + [pass], inFlight := false,
           answered := seq(|log.calls|, i requires 0 <= i < |log.calls| =>
             if i < |log.answered| then log.answered[i] else Answer(log.calls[i], |log.passes|)))
  }

  lemma EndingKeeps(log: Log, ending: Ending)
    requires log.Consistent() && log.inFlight
    ensures Ended(log, ending).Consistent()
  {
    var after := Ended(log, ending);
    var pass := after.passes[|log.passes|];
    assert after.Overtaken(pass) <==> log.pending;
    forall i | 0 <= i < |log.passes| ensures after.Overtaken(log.passes[i]) <==> log.Overtaken(log.passes[i]) {
    }
  }

  datatype Event = Called | Over(ending: Ending)

  /** The log after a run. */
  ghost function Played(log: Log, events: seq<Event>): Log {
    if events == [] then log
    else
      var before := Played(log, events[..|events| - 1]);
      match events[|events| - 1]
      case Called => Joined(before)
      case Over(ending) => if before.inFlight then Ended(before, ending) else before
  }

  class Refresher {
    var inFlight: bool
    var pending: bool
    /** What the last published pass showed. */
    var shown: Option<Ending>
    ghost var log: Log

    ghost predicate Valid()
      reads this
    {
      log.Consistent() && log.inFlight == inFlight && log.pending == pending
    }

    constructor ()
      ensures Valid() && log == Log(false, false, 0, 0, [], [], []) && shown.None?
    {
      inFlight, pending, shown := false, false, None;
      log := Log(false, false, 0, 0, [], [], []);
    }

    /** A call up to its first wait. */
    method Call()
      requires Valid()
      modifies this`inFlight, this`pending, this`log
      ensures Valid() && log == Joined(old(log))
      ensures |log.calls| == |old(log).calls| + 1 && log.passes == old(log).passes
      ensures inFlight && pending == old(inFlight)
    {
      JoiningKeeps(log);
      log := Joined(log);
      if inFlight {
        pending := true;
      } else {
        pending := false;
        inFlight := true;
      }
    }

    /** The reads of the running pass are over. */
    method PassEnds(ending: Ending)
      requires Valid() && inFlight
      modifies this
      ensures Valid() && log == Ended(old(log), ending)
      ensures |log.passes| == |old(log).passes| + 1 && log.calls == old(log).calls
      ensures inFlight == old(pending) && !pending
      ensures shown == if ending.Read? && old(pending) then old(shown) else Some(ending)
    {
      EndingKeeps(log, ending);
      log := Ended(log, ending);
      if !(ending.Read? && pending) {
        shown := Some(ending);
      }
      if pending {
        pending := false;
      } else {
        inFlight := false;
      }
    }

    /** Any interleaving of calls and pass endings. */
    method Run(events: seq<Event>)
      requires Valid()
      modifies this
      ensures Valid() && log == Played(old(log), events)
      ensures |log.passes| <= |log.calls|
      ensures !inFlight ==> |log.answered| == |log.calls|
    {
      for n := 0 to |events|
        invariant Valid() && log == Played(old(log), events[..n])
      {
        assert events[..n + 1][..n] == events[..n];
        match events[n]
        case Called => Call();
        case Over(ending) => if inFlight { PassEnds(ending); }
      }
      assert events[..|events|] == events;
    }
  }
}
