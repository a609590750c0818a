/** Mutual exclusion among processes that are each at one place of their code. */
module Exclusion {
  /** No process is in one of these places. */
  ghost predicate Free<Pc>(pcs: seq<Pc>, places: set<Pc>) {
    forall j :: 0 <= j < |pcs| ==> pcs[j] !in places
  }

  /** At most one process is. */
  ghost predicate AtMostOne<Pc>(pcs: seq<Pc>, places: set<Pc>) {
    forall i, j :: 0 <= i < j < |pcs| ==> !(pcs[i] in places && pcs[j] in places)
  }

  /** A process may enter when it was in already or nobody is. */
  lemma MoveKeepsOne<Pc>(pcs: seq<Pc>, i: nat, pc: Pc, places: set<Pc>)
    requires AtMostOne(pcs, places) && i < |pcs| && (pc in places ==> pcs[i] in places || Free(pcs, places))
    ensures AtMostOne(pcs[i := pc], places)
  {
  }

  lemma OnlyOne<Pc>(pcs: seq<Pc>, i: nat, places: set<Pc>)
    requires AtMostOne(pcs, places) && i < |pcs| && pcs[i] in places
    ensures forall j :: 0 <= j < |pcs| && j != i ==> pcs[j] !in places
  {
  }

  /** The same when other processes may leave at the same time. */
  lemma ChangeKeepsOne<Pc>(before: seq<Pc>, after: seq<Pc>, i: nat, places: set<Pc>)
    requires AtMostOne(before, places) && i < |before| == |after|
    requires after[i] in places ==> before[i] in places || Free(before, places)
    requires forall k :: 0 <= k < |before| && k != i && after[k] in places ==> before[k] in places
    ensures AtMostOne(after, places)
  {
  }
}
