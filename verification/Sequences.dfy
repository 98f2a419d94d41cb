/** What it means for a list to be part of another one, in its order. */
module Sequences {

  /** `where` lists, in order, the positions of `whole` that make up `part`. */
  ghost predicate Picks<T>(part: seq<T>, whole: seq<T>, where: seq<nat>) {
    && |where| == |part|
    && (forall i :: 0 <= i < |where| ==> where[i] < |whole| && whole[where[i]] == part[i])
    && (forall i, j :: 0 <= i < j < |where| ==> where[i] < where[j])
  }

  ghost predicate Subsequence<T(!new)>(part: seq<T>, whole: seq<T>) {
    exists where: seq<nat> :: Picks(part, whole, where)
  }

  lemma PickingOn<T>(part: seq<T>, whole: seq<T>, where: seq<nat>, last: T)
    requires Picks(part, whole, where)
    ensures Picks(part, whole + [last], where) && Picks(part + [last], whole + [last], where + [|whole|])
  {
  }
}
