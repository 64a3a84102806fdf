/** Findings and the rule that picks the deciding one (internal/eval/executor.go). */
module Findings {
  import opened Schema

  const DRIVER_NONE := 0
  const DRIVER_CLAUSE := 1
  const DRIVER_SEMANTIC := 2
  const DRIVER_MISSING_REFERENCE := 3
  const DRIVER_NO_APPLICABLE := 4

  /** One thing found out about a request. `edge` is one plus a position in the request's own
      evidence id list, zero when the finding is not about a reference. */
  datatype Finding = Finding(
    outcome: nat, kind: nat, requirement: nat, clause: nat, reason: nat, field: nat, edge: nat)

  const NOTHING_FOUND := Finding(OUTCOME_APPROVE, DRIVER_NONE, 0, 0, REASON_SATISFIED, 0, 0)

  /** Reject > Escalate > Revise > Approve. */
  const COMPILED_PRECEDENCE := [1, 4, 2, 3]

  predicate OutcomeKnown(f: Finding) {
    1 <= f.outcome <= OUTCOME_COUNT
  }

  predicate AllKnown(fs: seq<Finding>) {
    forall i :: 0 <= i < |fs| ==> OutcomeKnown(fs[i])
  }

  function Rank(precedence: seq<nat>, f: Finding): nat {
    if 1 <= f.outcome <= |precedence| then precedence[f.outcome - 1] else 0
  }

  /** Scanning keeps a finding only when it outranks everything seen so far. */
  function Best(precedence: seq<nat>, fs: seq<Finding>): (w: Finding)
    ensures AllKnown(fs) ==> OutcomeKnown(w)
  {
    if fs == [] then NOTHING_FOUND
    else
      var w := Best(precedence, fs[..|fs| - 1]);
      var f := fs[|fs| - 1];
      if Rank(precedence, f) > Rank(precedence, w) then f else w
  }

  /** w is the first finding of the highest rank above Approve, or nothing when none is above. */
  predicate FirstAtHighestRank(precedence: seq<nat>, fs: seq<Finding>, w: Finding) {
    if forall i :: 0 <= i < |fs| ==> Rank(precedence, fs[i]) <= Rank(precedence, NOTHING_FOUND) then
      w == NOTHING_FOUND
    else
      exists i :: 0 <= i < |fs| && FirstAt(precedence, fs, i) && fs[i] == w
  }

  predicate FirstAt(precedence: seq<nat>, fs: seq<Finding>, i: nat)
    requires i < |fs|
  {
    && Rank(precedence, fs[i]) > Rank(precedence, NOTHING_FOUND)
    && (forall j :: 0 <= j < i ==> Rank(precedence, fs[j]) < Rank(precedence, fs[i]))
    && (forall j :: i <= j < |fs| ==> Rank(precedence, fs[j]) <= Rank(precedence, fs[i]))
  }

  lemma {:induction false} BestWitness(precedence: seq<nat>, fs: seq<Finding>) returns (i: int)
    ensures -1 <= i < |fs|
    ensures i >= 0 ==> FirstAt(precedence, fs, i) && fs[i] == Best(precedence, fs)
    ensures i < 0 ==> Best(precedence, fs) == NOTHING_FOUND
    ensures i < 0 ==> forall j :: 0 <= j < |fs| ==> Rank(precedence, fs[j]) <= Rank(precedence, NOTHING_FOUND)
  {
    if fs == [] {
      i := -1;
    } else {
      var front := fs[..|fs| - 1];
      i := BestWitness(precedence, front);
      assert forall j :: 0 <= j < |front| ==> fs[j] == front[j];
      if Rank(precedence, fs[|fs| - 1]) > Rank(precedence, Best(precedence, front)) { i := |fs| - 1; }
    }
  }

  lemma {:induction false} FirstAtOnce(precedence: seq<nat>, fs: seq<Finding>, i: nat, j: nat)
    requires i < |fs| && j < |fs|
    requires FirstAt(precedence, fs, i) && FirstAt(precedence, fs, j)
    ensures i == j && Rank(precedence, fs[i]) > Rank(precedence, NOTHING_FOUND)
  {
  }

  /** The scan computes the first finding of the highest rank, and that determines it. */
  lemma {:induction false} BestIsFirstAtHighestRank(precedence: seq<nat>, fs: seq<Finding>, w: Finding)
    ensures w == Best(precedence, fs) <==> FirstAtHighestRank(precedence, fs, w)
  {
    hide Best, FirstAt;
    var i := BestWitness(precedence, fs);
    if i >= 0 {
      assert Rank(precedence, fs[i]) > Rank(precedence, NOTHING_FOUND) by { FirstAtOnce(precedence, fs, i, i); }
      if FirstAtHighestRank(precedence, fs, w) {
        var j :| 0 <= j < |fs| && FirstAt(precedence, fs, j) && fs[j] == w;
        FirstAtOnce(precedence, fs, i, j);
      }
    }
  }

  lemma {:induction false} BestAppend(precedence: seq<nat>, fs: seq<Finding>, f: Finding)
    ensures AllKnown(fs) && OutcomeKnown(f) ==> AllKnown(fs + [f])
    ensures Best(precedence, fs + [f])
         == if Rank(precedence, f) > Rank(precedence, Best(precedence, fs)) then f else Best(precedence, fs)
  {
    assert (fs + [f])[..|fs|] == fs;
  }
}
