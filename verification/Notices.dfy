/** Completion notices: an operation is announced once for each time it was seen executing. */
module Notices {
  import opened Sequences

  datatype Summary = Summary(id: string, phase: string, status: string)

  const TERMINAL_PHASES: set<string> :=
    {"prepared", "succeeded", "completed", "failed", "cancelled", "interrupted"}

  const FINAL_STATUSES: set<string> :=
    {"Prepared; awaiting manual confirmation", "Completed", "Cancelled", "Failed", "Partially failed", "Interrupted"}

  predicate Terminal(item: Summary) {
    item.phase in TERMINAL_PHASES
  }

  predicate Final(item: Summary) {
    item.status in FINAL_STATUSES
  }

  predicate Armed(flags: map<string, bool>, id: string) {
    id in flags && flags[id]
  }

  predicate Announced(item: Summary, previous: map<string, bool>) {
    Armed(previous, item.id) && Terminal(item) && Final(item)
  }

  /** Which records are announced: those of a watched operation that ended with a final status. */
  lemma AnnouncedMeans(item: Summary, previous: map<string, bool>)
    ensures Announced(item, previous) <==>
      && item.id in previous && previous[item.id]
      && (item.phase == "prepared" || item.phase == "succeeded" || item.phase == "completed" || item.phase == "failed"
          || item.phase == "cancelled" || item.phase == "interrupted")
      && (item.status == "Prepared; awaiting manual confirmation" || item.status == "Completed" || item.status == "Cancelled"
          || item.status == "Failed" || item.status == "Partially failed" || item.status == "Interrupted")
    ensures Terminal(item) <==> item.phase in {"prepared", "succeeded", "completed", "failed", "cancelled", "interrupted"}
  {
  }

  function NoticesOf(records: seq<Summary>, previous: map<string, bool>): seq<Summary> {
    if records == [] then []
    else
      var last := records[|records| - 1];
      NoticesOf(records[..|records| - 1], previous) + if Announced(last, previous) then [last] else []
  }

  function FlagsAfter(records: seq<Summary>, previous: map<string, bool>): map<string, bool> {
    if records == [] then map[]
    else
      var last := records[|records| - 1];
      FlagsAfter(records[..|records| - 1], previous)[
        last.id := (Armed(previous, last.id) || !Terminal(last)) && !Announced(last, previous)]
  }

  /** One poll of the operations. */
  method AdvanceNotices(records: seq<Summary>, previous: map<string, bool>)
    returns (pending: map<string, bool>, notices: seq<Summary>)
    ensures pending == FlagsAfter(records, previous) && notices == NoticesOf(records, previous)
    // One notice for each announced record, in the order of the records.
    ensures Selected(notices, records, previous)
    ensures UniqueIds(records) ==> UniqueIds(notices)
    // The flag of an id follows from its last record.
    ensures forall id :: id in pending <==> Present(records, id)
    ensures forall i :: 0 <= i < |records| && Latest(records, i) ==>
      (Armed(pending, records[i].id) <==>
      (Armed(previous, records[i].id) || !Terminal(records[i])) && !Announced(records[i], previous))
  {
    pending, notices := map[], [];
    var n := 0;
    while n < |records|
      invariant n <= |records|
      invariant pending == FlagsAfter(records[..n], previous) && notices == NoticesOf(records[..n], previous)
    {
      var item := records[n];
      assert records[..n + 1][..n] == records[..n];
      var eligible := Armed(previous, item.id) || !Terminal(item);
      if eligible && Terminal(item) && Final(item) {
        notices := notices + [item];
        eligible := false;
      }
      pending := pending[item.id := eligible];
      n := n + 1;
    }
    assert records[..n] == records;
    PollMeans(records, previous);
  }

  // ------------------------------------------------------------------ runs of polls

  predicate UniqueIds(records: seq<Summary>) {
    forall i, j :: 0 <= i < j < |records| ==> records[i].id != records[j].id
  }

  ghost predicate Present(records: seq<Summary>, id: string) {
    exists i :: 0 <= i < |records| && records[i].id == id
  }

  ghost predicate SeenRunning(records: seq<Summary>, id: string) {
    exists i :: 0 <= i < |records| && records[i].id == id && !Terminal(records[i])
  }

  /** The flags before poll `k`. */
  function Flags(polls: seq<seq<Summary>>, k: nat): map<string, bool>
    requires k <= |polls|
  {
    if k == 0 then map[] else FlagsAfter(polls[k - 1], Flags(polls, k - 1))
  }

  function NoticesAt(polls: seq<seq<Summary>>, k: nat): seq<Summary>
    requires k < |polls|
  {
    NoticesOf(polls[k], Flags(polls, k))
  }

  ghost predicate NoticeFor(polls: seq<seq<Summary>>, k: nat, id: string)
    requires k < |polls|
  {
    exists i :: 0 <= i < |NoticesAt(polls, k)| && NoticesAt(polls, k)[i].id == id
  }

  /** Seen running in poll `j`, listed ever since, and not announced since. */
  ghost predicate ExecutingSince(polls: seq<seq<Summary>>, j: nat, k: nat, id: string)
    requires k <= |polls|
  {
    && j < k && SeenRunning(polls[j], id)
    && forall m :: j <= m < k ==> Present(polls[m], id) && !NoticeFor(polls, m, id)
  }

  /** The notices are the records at exactly the announced positions, in their order. */
  ghost predicate Selected(notices: seq<Summary>, records: seq<Summary>, previous: map<string, bool>) {
    exists where: seq<nat> :: Picks(notices, records, where) && Covers(records, previous, where)
  }

  ghost predicate Covers(records: seq<Summary>, previous: map<string, bool>, where: seq<nat>) {
    forall i: nat :: i < |records| ==> (i in where <==> Announced(records[i], previous))
  }

  lemma CoveringOn(records: seq<Summary>, last: Summary, previous: map<string, bool>, where: seq<nat>)
    requires Covers(records, previous, where) && forall w <- where :: w < |records|
    ensures Covers(records + [last], previous, where + if Announced(last, previous) then [|records|] else [])
  {
    var longer, all := records + [last], where + if Announced(last, previous) then [|records|] else [];
    forall i: nat | i < |longer| ensures i in all <==> Announced(longer[i], previous) {
      if i < |records| {
        assert i in all <==> i in where;
      }
    }
  }

  lemma {:induction false} NoticesSelect(records: seq<Summary>, previous: map<string, bool>)
    ensures Selected(NoticesOf(records, previous), records, previous)
  {
    if records == [] {
      var none: seq<nat> := [];
      assert Picks([], records, none) && Covers(records, previous, none);
    } else {
      var rest, last := records[..|records| - 1], records[|records| - 1];
      NoticesSelect(rest, previous);
      SelectingOn(NoticesOf(rest, previous), rest, last, previous);
      assert records == rest + [last];
    }
  }

  lemma SelectingOn(notices: seq<Summary>, records: seq<Summary>, last: Summary, previous: map<string, bool>)
    requires Selected(notices, records, previous)
    ensures Selected(notices + if Announced(last, previous) then [last] else [], records + [last], previous)
  {
    var where: seq<nat> :| Picks(notices, records, where) && Covers(records, previous, where);
    PickingOn(notices, records, where, last);
    CoveringOn(records, last, previous, where);
    if Announced(last, previous) {
      assert Picks(notices + [last], records + [last], where + [|records|]);
    } else {
      assert notices + [] == notices && where + [] == where;
    }
  }

  /** No operation is announced twice in one poll. */
  lemma NoticesDiffer(records: seq<Summary>, previous: map<string, bool>)
    requires UniqueIds(records)
    ensures UniqueIds(NoticesOf(records, previous))
  {
    NoticesSelect(records, previous);
    var where: seq<nat> :| Picks(NoticesOf(records, previous), records, where);
  }

  lemma {:induction false} NoticesMembers(records: seq<Summary>, previous: map<string, bool>)
    ensures forall x :: x in NoticesOf(records, previous) <==> x in records && Announced(x, previous)
  {
    if records != [] {
      NoticesMembers(records[..|records| - 1], previous);
    }
  }

  lemma {:induction false} FlagsPresent(records: seq<Summary>, previous: map<string, bool>, id: string)
    ensures id in FlagsAfter(records, previous) <==> Present(records, id)
  {
    if records != [] {
      var rest, last := records[..|records| - 1], records[|records| - 1];
      FlagsPresent(rest, previous, id);
      if Present(rest, id) {
        var i :| 0 <= i < |rest| && rest[i].id == id;
        assert records[i].id == id;
      }
      assert last.id == id ==> Present(records, id);
    }
  }

  /** No later record of the poll has the same id. */
  predicate Latest(records: seq<Summary>, i: nat)
    requires i < |records|
  {
    forall j :: i < j < |records| ==> records[j].id != records[i].id
  }

  /** The flag of a listed id follows from its last record. */
  lemma {:induction false} FlagOfRecord(records: seq<Summary>, previous: map<string, bool>, i: nat)
    requires i < |records| && Latest(records, i)
    ensures Armed(FlagsAfter(records, previous), records[i].id) <==>
            (Armed(previous, records[i].id) || !Terminal(records[i])) && !Announced(records[i], previous)
  {
    if i < |records| - 1 {
      FlagOfRecord(records[..|records| - 1], previous, i);
    }
  }

  /** One poll as a whole: one notice for each announced record, in the order of the records, and
      for each listed id the flag of its last record. */
  lemma PollMeans(records: seq<Summary>, previous: map<string, bool>)
    ensures Selected(NoticesOf(records, previous), records, previous)
    ensures UniqueIds(records) ==> UniqueIds(NoticesOf(records, previous))
    ensures forall id :: id in FlagsAfter(records, previous) <==> Present(records, id)
    ensures forall i :: 0 <= i < |records| && Latest(records, i) ==>
      (Armed(FlagsAfter(records, previous), records[i].id) <==>
      (Armed(previous, records[i].id) || !Terminal(records[i])) && !Announced(records[i], previous))
  {
    NoticesSelect(records, previous);
    if UniqueIds(records) {
      NoticesDiffer(records, previous);
    }
    forall id ensures id in FlagsAfter(records, previous) <==> Present(records, id) {
      FlagsPresent(records, previous, id);
    }
    forall i | 0 <= i < |records| && Latest(records, i)
      ensures Armed(FlagsAfter(records, previous), records[i].id) <==>
              (Armed(previous, records[i].id) || !Terminal(records[i])) && !Announced(records[i], previous)
    {
      FlagOfRecord(records, previous, i);
    }
  }

  lemma NoticeOfRecord(polls: seq<seq<Summary>>, k: nat, i: nat)
    requires k < |polls| && UniqueIds(polls[k]) && i < |polls[k]|
    ensures NoticeFor(polls, k, polls[k][i].id) <==> Announced(polls[k][i], Flags(polls, k))
  {
    var notices, item := NoticesAt(polls, k), polls[k][i];
    NoticesMembers(polls[k], Flags(polls, k));
    if NoticeFor(polls, k, item.id) {
      var n :| 0 <= n < |notices| && notices[n].id == item.id;
      assert notices[n] in polls[k];
    }
    if item in notices {
      var n :| 0 <= n < |notices| && notices[n] == item;
    }
  }

  /** The one flag kept per id means: seen executing, listed and not announced since. */
  lemma {:induction false} FlagMeansExecuting(polls: seq<seq<Summary>>, k: nat, id: string)
    requires k <= |polls| && forall m :: 0 <= m < k ==> UniqueIds(polls[m])
    ensures Armed(Flags(polls, k), id) <==> exists j :: ExecutingSince(polls, j, k, id)
  {
    if k > 0 {
      var p := k - 1;
      FlagMeansExecuting(polls, p, id);
      FlagsPresent(polls[p], Flags(polls, p), id);
      var listed := Present(polls[p], id);
      assert forall j: nat :: ExecutingSince(polls, j, k, id) ==> listed;
      if listed {
        var i :| 0 <= i < |polls[p]| && polls[p][i].id == id;
        FlagOfRecord(polls[p], Flags(polls, p), i);
        NoticeOfRecord(polls, p, i);
        if Armed(Flags(polls, k), id) {
          if Terminal(polls[p][i]) {
            var j :| ExecutingSince(polls, j, p, id);
            assert ExecutingSince(polls, j, k, id);
          } else {
            assert ExecutingSince(polls, p, k, id);
          }
        }
        if j: nat :| ExecutingSince(polls, j, k, id) {
          assert j < p ==> ExecutingSince(polls, j, p, id);
          assert !NoticeFor(polls, p, id);
        }
      }
    }
  }

  /** A record is announced exactly when it ended and its execution was being watched. */
  lemma NoticeMeansWatchedExecution(polls: seq<seq<Summary>>, k: nat, i: nat)
    requires k < |polls| && (forall m :: 0 <= m <= k ==> UniqueIds(polls[m])) && i < |polls[k]|
    ensures NoticeFor(polls, k, polls[k][i].id) <==>
      Terminal(polls[k][i]) && Final(polls[k][i]) && exists j :: ExecutingSince(polls, j, k, polls[k][i].id)
  {
    FlagMeansExecuting(polls, k, polls[k][i].id);
    NoticeOfRecord(polls, k, i);
  }

  /** Between two notices of one operation it was seen running again; so they stand in different
      polls. `a` and `b` are their places among the notices of their polls. */
  lemma OncePerExecution(polls: seq<seq<Summary>>, first: nat, a: nat, second: nat, b: nat) returns (j: nat)
    requires first <= second < |polls| && forall m :: 0 <= m <= second ==> UniqueIds(polls[m])
    requires a < |NoticesAt(polls, first)| && b < |NoticesAt(polls, second)| && (first == second ==> a != b)
    requires NoticesAt(polls, first)[a].id == NoticesAt(polls, second)[b].id
    ensures first < j < second && SeenRunning(polls[j], NoticesAt(polls, second)[b].id)
  {
    var id := NoticesAt(polls, second)[b].id;
    if first == second {
      NoticesDiffer(polls[first], Flags(polls, first));
    }
    NoticesMembers(polls[second], Flags(polls, second));
    assert NoticesAt(polls, second)[b] in polls[second];
    var i :| 0 <= i < |polls[second]| && polls[second][i] == NoticesAt(polls, second)[b];
    NoticeMeansWatchedExecution(polls, second, i);
    assert NoticeFor(polls, first, id) && NoticeFor(polls, second, id);
    j :| ExecutingSince(polls, j, second, id);
  }

  /** What is only ever seen finished is never announced. */
  lemma FinishedOnArrivalStaysSilent(polls: seq<seq<Summary>>, k: nat, id: string)
    requires k < |polls| && forall m :: 0 <= m <= k ==> UniqueIds(polls[m])
    requires forall m :: 0 <= m < k ==> !SeenRunning(polls[m], id)
    ensures !NoticeFor(polls, k, id)
  {
    NoticesMembers(polls[k], Flags(polls, k));
    if NoticeFor(polls, k, id) {
      var n :| 0 <= n < |NoticesAt(polls, k)| && NoticesAt(polls, k)[n].id == id;
      assert NoticesAt(polls, k)[n] in polls[k];
      var i :| 0 <= i < |polls[k]| && polls[k][i] == NoticesAt(polls, k)[n];
      NoticeMeansWatchedExecution(polls, k, i);
    }
  }
}
