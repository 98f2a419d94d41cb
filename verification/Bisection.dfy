/** The Canary bisection: it shrinks a failing set of plugins with a checker that may answer
    anything, and reports a combination only together with the rounds that justify it. */
module Bisection {
  import opened Sequences
  import opened Wrappers

  datatype Verdict = Passed | Broken | Undecided

  /** A recorded round; `identity` is the fingerprint of the checked source and its patches. */
  datatype Round<T> = Round(subset: seq<T>, verdict: Verdict, identity: nat)

  /** `RoundError` ends the whole run with an error: a round could not run, or the source or
      the patches changed between rounds. */
  datatype Reason =
    Confirmed | BudgetExceeded | BaselineBroken | NotReproduced | RoundUndecided | RoundError

  datatype Report<T> = Report(suspects: Option<seq<T>>, reason: Reason)

  const ROUND_LIMIT: nat := 20

  function RemoveAt<T>(s: seq<T>, i: nat): seq<T>
    requires i < |s|
  {
    s[..i] + s[i + 1..]
  }

  lemma RemovingKeepsOrder<T(!new)>(part: seq<T>, whole: seq<T>, i: nat)
    requires Subsequence(part, whole) && i < |part|
    ensures Subsequence(RemoveAt(part, i), whole)
  {
    var where: seq<nat> :| Picks(part, whole, where);
    assert Picks(RemoveAt(part, i), whole, RemoveAt(where, i));
  }

  /** Some round ran exactly this set, on the source of the first round, with this verdict. */
  predicate Observed<T(==)>(rounds: seq<Round<T>>, subset: seq<T>, verdict: Verdict) {
    rounds != [] && Round(subset, verdict, rounds[0].identity) in rounds
  }

  /** Each of the first `n` ways to leave out one suspect was seen to pass. */
  ghost predicate EachNeeded<T>(rounds: seq<Round<T>>, suspects: seq<T>, n: nat)
    requires n <= |suspects|
  {
    forall i :: 0 <= i < n ==> Observed(rounds, RemoveAt(suspects, i), Passed)
  }

  /** 1 + 2 + … + n, as the search spends it: one pass over each size. */
  function Triangle(n: nat): nat {
    if n == 0 then 0 else Triangle(n - 1) + n
  }

  lemma {:induction false} TriangleClosedForm(n: nat)
    ensures Triangle(n) == n * (n + 1) / 2
  {
    if n > 0 {
      TriangleClosedForm(n - 1);
      assert n * (n + 1) == (n - 1) * n + 2 * n;
    }
  }

  /** The rounds that may still follow. */
  function Left(baseline: bool, confirmed: bool, size: nat, index: nat): int {
    if baseline then Triangle(size) + 2 else if confirmed then 1 else Triangle(size) - index + 1
  }

  /** One round of the checker. Nothing is assumed of its answer. In a `steady` run every round
      does run and the checked source stays `source`. */
  method Probe<T>(subset: seq<T>, steady: bool, source: nat) returns (round: Option<Round<T>>)
    ensures round.Some? ==> round.value.subset == subset
    ensures steady ==> round.Some? && round.value.identity == source
  {
    var ran: bool, verdict: Verdict, identity: nat := *, *, *;
    round := if steady then Some(Round(subset, verdict, source))
             else if ran then Some(Round(subset, verdict, identity))
             else None;
  }

  /** Runs after the full set has failed once. `limit` is the round budget; the clock may end
      the search before any round when `slow`. */
  method Bisect<T(==,!new)>(first: Round<T>, limit: nat, slow: bool, steady: bool) returns (report: Report<T>, rounds: seq<Round<T>>)
    requires first.verdict.Broken?
    ensures rounds != [] && rounds[0] == first
    ensures forall i :: 0 <= i < |rounds| ==> rounds[i].identity == first.identity
    // A reported combination failed again just now, and leaving out any one member of it passed.
    ensures report.suspects.Some? <==> report.reason.Confirmed?
    ensures report.suspects.Some? ==>
      var suspects := report.suspects.value;
      && Subsequence(suspects, first.subset)
      && rounds[|rounds| - 1] == Round(suspects, Broken, first.identity)
      && Observed(rounds, [], Passed)
      && EachNeeded(rounds, suspects, |suspects|)
    // The other ends are what they say.
    ensures report.reason.BudgetExceeded? ==> |rounds| >= limit || slow
    ensures report.reason.BaselineBroken? ==>
      |rounds| == 2 && rounds[1].subset == [] && !rounds[1].verdict.Passed?
    ensures report.reason.NotReproduced? ==>
      var last := rounds[|rounds| - 1];
      !last.verdict.Broken? && Subsequence(last.subset, first.subset) && EachNeeded(rounds, last.subset, |last.subset|)
      && Observed(rounds, last.subset, Broken)
    // Only a trial is given up as undecided: every failing set so far was larger.
    ensures report.reason.RoundUndecided? ==>
      var last := rounds[|rounds| - 1];
      && last.verdict.Undecided?
      && forall i :: 0 <= i < |rounds| && rounds[i].verdict.Broken? ==> |last.subset| < |rounds[i].subset|
    ensures report.reason.RoundError? ==> !steady
    // Cost.
    ensures |rounds| <= limit || |rounds| == 1
    ensures |rounds| <= Triangle(|first.subset|) + 3
  {
    ghost var candidates := first.subset;
    rounds := [first];
    var suspects, trial: seq<T> := first.subset, [];
    var baseline, confirmed, index := true, false, 0;
    ghost var everywhere: seq<nat> := seq(|candidates|, i => i);
    assert Picks(candidates, candidates, everywhere);
    while true
      invariant rounds != [] && rounds[0] == first
      invariant forall i :: 0 <= i < |rounds| ==> rounds[i].identity == first.identity
      invariant |rounds| <= limit || |rounds| == 1
      invariant Subsequence(suspects, candidates)
      invariant index <= |suspects| && EachNeeded(rounds, suspects, index)
      invariant Observed(rounds, suspects, Broken)
      invariant forall i :: 0 <= i < |rounds| && rounds[i].verdict.Broken? ==> |suspects| <= |rounds[i].subset|
      invariant baseline ==> index == 0 && !confirmed && trial == [] && |rounds| == 1
      invariant !baseline ==> Observed(rounds, [], Passed)
      invariant confirmed ==> trial == suspects && index == |suspects|
      invariant !baseline && !confirmed ==> index < |suspects| && trial == RemoveAt(suspects, index)
      invariant |rounds| + Left(baseline, confirmed, |suspects|, index) <= Triangle(|candidates|) + 3
      decreases !confirmed, baseline, |suspects|, |suspects| - index
    {
      var timeout: bool := *;
      if |rounds| >= limit || (slow && timeout) {
        return Report(None, BudgetExceeded), rounds;
      }
      var ran := Probe(trial, steady, first.identity);
      if ran.None? || ran.value.identity != first.identity {
        return Report(None, RoundError), rounds;
      }
      var next := ran.value;
      rounds := rounds + [next];
      if baseline {
        if !next.verdict.Passed? {
          return Report(None, BaselineBroken), rounds;
        }
        baseline := false;
      } else if confirmed {
        return if next.verdict.Broken? then Report(Some(suspects), Confirmed) else Report(None, NotReproduced), rounds;
      } else {
        if next.verdict.Broken? {
          RemovingKeepsOrder(suspects, candidates, index);
          suspects, index := trial, 0;
        } else if next.verdict.Passed? {
          index := index + 1;
        } else {
          return Report(None, RoundUndecided), rounds;
        }
      }
      if index >= |suspects| {
        trial, confirmed := suspects, true;
      } else {
        trial := RemoveAt(suspects, index);
      }
    }
  }

  /** A whole Canary run: the full set first, then the search when it was asked for and the
      full set failed. A run without a search carries no report. */
  method RunCanary<T(==,!new)>(candidates: seq<T>, bisect: bool, slow: bool, steady: bool, source: nat)
    returns (report: Option<Report<T>>, rounds: seq<Round<T>>)
    ensures |rounds| <= 20 && |rounds| <= Triangle(|candidates|) + 3
    ensures rounds != [] ==> rounds[0].subset == candidates
    ensures steady ==> rounds != []
    ensures report.Some? <==> bisect && rounds != [] && rounds[0].verdict.Broken?
    ensures report.None? ==> |rounds| <= 1
    // A steady, fast search over few enough candidates ends with an answer.
    ensures steady && !slow && bisect && Triangle(|candidates|) + 3 < 20 ==>
      rounds != [] && (report.Some? ==> !report.value.reason.BudgetExceeded? && !report.value.reason.RoundError?)
    ensures report.Some? && report.value.suspects.Some? ==>
      var suspects := report.value.suspects.value;
      && Subsequence(suspects, candidates)
      && Observed(rounds, suspects, Broken)
      && Observed(rounds, [], Passed)
      && EachNeeded(rounds, suspects, |suspects|)
  {
    var first := Probe(candidates, steady, source);
    report, rounds := None, [];
    if first.Some? {
      rounds := [first.value];
      if bisect && first.value.verdict.Broken? {
        var found;
        found, rounds := Bisect(first.value, ROUND_LIMIT, slow, steady);
        report := Some(found);
      }
    }
  }
}
