/** Four-valued verdicts with one reason, shared by the reference semantics and by the evaluator's
    per-row specification. */
module Verdicts {
  import opened Schema

  datatype Verdict = Verdict(pos: bool, neg: bool, reason: nat)

  /** What a plane shows for a row or an instruction that was never written. */
  const BLANK := Verdict(false, false, 0)

  const SATISFIED := Verdict(true, false, REASON_SATISFIED)
  const FALSE := Verdict(false, true, REASON_FALSE)
  const MISSING := Verdict(false, false, REASON_MISSING)
  const UNCLEAR := Verdict(false, false, REASON_UNCLEAR)

  /** A verdict is coherent when its reason says what its truth bits say: Satisfied, False and
      Conflict are exactly (1,0), (0,1) and (1,1), and an undecided verdict is Missing, Stale,
      InvalidEvidence or Unclear, never Unverifiable. */
  predicate Coherent(v: Verdict) {
    && (v.reason == REASON_SATISFIED <==> v.pos && !v.neg)
    && (v.reason == REASON_FALSE <==> !v.pos && v.neg)
    && (v.reason == REASON_CONFLICT <==> v.pos && v.neg)
    && (v.reason in {REASON_MISSING, REASON_STALE, REASON_INVALID_EVIDENCE, REASON_UNCLEAR}
        <==> !v.pos && !v.neg)
  }

  predicate AllPositive(vs: seq<Verdict>) {
    forall i :: 0 <= i < |vs| ==> vs[i].pos
  }

  predicate SomeNegative(vs: seq<Verdict>) {
    exists i :: 0 <= i < |vs| && vs[i].neg
  }

  predicate SomeReason(vs: seq<Verdict>, reason: nat) {
    exists i :: 0 <= i < |vs| && vs[i].reason == reason
  }

  /** The order in which an undecided conjunction picks its reason. */
  const PRIORITY := [REASON_CONFLICT, REASON_STALE, REASON_INVALID_EVIDENCE, REASON_UNCLEAR,
                     REASON_MISSING, REASON_UNVERIFIABLE]

  /** The first reason of the priority list, from position k on, that some operand has. */
  function PriorityReason(vs: seq<Verdict>, k: nat): nat
    requires k <= |PRIORITY|
    decreases |PRIORITY| - k
  {
    if k == |PRIORITY| then REASON_UNVERIFIABLE
    else if SomeReason(vs, PRIORITY[k]) then PRIORITY[k]
    else PriorityReason(vs, k + 1)
  }

  function TruthReason(pos: bool, neg: bool, undecided: nat): nat {
    if pos && neg then REASON_CONFLICT
    else if neg then REASON_FALSE
    else if pos then REASON_SATISFIED
    else undecided
  }

  /** The conjunction of the operands' verdicts. */
  function Conj(vs: seq<Verdict>): Verdict {
    Verdict(AllPositive(vs), SomeNegative(vs),
            TruthReason(AllPositive(vs), SomeNegative(vs), PriorityReason(vs, 0)))
  }

  // Grades of one evidence record against one predicate, weakest first; a list of records has the
  // grade of its best record on this chain.
  const GRADE_MISSING := 0
  const GRADE_WRONG := 1
  const GRADE_SATISFIED := 2
  const GRADE_UNCLEAR := 3
  const GRADE_REVOKED := 4
  const GRADE_STALE := 5
  const GRADE_CONFLICT := 6

  function Max(a: nat, b: nat): nat {
    if a < b then b else a
  }

  function GradeVerdict(g: nat): Verdict {
    if g == GRADE_CONFLICT then Verdict(true, true, REASON_CONFLICT)
    else if g == GRADE_STALE then Verdict(false, false, REASON_STALE)
    else if g == GRADE_REVOKED then Verdict(false, false, REASON_INVALID_EVIDENCE)
    else if g == GRADE_UNCLEAR then UNCLEAR
    else if g == GRADE_SATISFIED then SATISFIED
    else if g == GRADE_WRONG then Verdict(false, false, REASON_INVALID_EVIDENCE)
    else MISSING
  }

  // ----- the conjunction depends only on which verdicts occur

  lemma {:induction false} PriorityReasonFirst(vs: seq<Verdict>, k: nat)
    requires k <= |PRIORITY|
    ensures var r := PriorityReason(vs, k);
      (SomeReason(vs, r) && exists j :: k <= j < |PRIORITY| && PRIORITY[j] == r
                                     && forall i :: k <= i < j ==> !SomeReason(vs, PRIORITY[i]))
      || (r == REASON_UNVERIFIABLE && forall j :: k <= j < |PRIORITY| ==> !SomeReason(vs, PRIORITY[j]))
    decreases |PRIORITY| - k
  {
    if k < |PRIORITY| && !SomeReason(vs, PRIORITY[k]) { PriorityReasonFirst(vs, k + 1); }
  }

  lemma {:induction false} PriorityReasonAgrees(vs: seq<Verdict>, ws: seq<Verdict>, k: nat)
    requires k <= |PRIORITY|
    requires forall j :: k <= j < |PRIORITY| ==> SomeReason(vs, PRIORITY[j]) == SomeReason(ws, PRIORITY[j])
    ensures PriorityReason(vs, k) == PriorityReason(ws, k)
    decreases |PRIORITY| - k
  {
    if k < |PRIORITY| { PriorityReasonAgrees(vs, ws, k + 1); }
  }

  /** Permuting or duplicating the operands changes nothing. */
  lemma {:induction false} ConjOfSameSet(vs: seq<Verdict>, ws: seq<Verdict>)
    requires forall v :: v in vs <==> v in ws
    ensures Conj(vs) == Conj(ws)
  {
    assert AllPositive(vs) == AllPositive(ws) by {
      if !AllPositive(vs) { var i :| 0 <= i < |vs| && !vs[i].pos; assert vs[i] in ws; }
      if !AllPositive(ws) { var i :| 0 <= i < |ws| && !ws[i].pos; assert ws[i] in vs; }
    }
    assert SomeNegative(vs) == SomeNegative(ws) by {
      if SomeNegative(vs) { var i :| 0 <= i < |vs| && vs[i].neg; assert vs[i] in ws; }
      if SomeNegative(ws) { var i :| 0 <= i < |ws| && ws[i].neg; assert ws[i] in vs; }
    }
    forall r: nat
      ensures SomeReason(vs, r) == SomeReason(ws, r)
    {
      if SomeReason(vs, r) { var i :| 0 <= i < |vs| && vs[i].reason == r; assert vs[i] in ws; }
      if SomeReason(ws, r) { var i :| 0 <= i < |ws| && ws[i].reason == r; assert ws[i] in vs; }
    }
    PriorityReasonAgrees(vs, ws, 0);
  }

  lemma {:induction false} ConjCoherent(vs: seq<Verdict>)
    requires vs != [] && forall i :: 0 <= i < |vs| ==> Coherent(vs[i])
    ensures Coherent(Conj(vs))
  {
    if !AllPositive(vs) && !SomeNegative(vs) {
      var i :| 0 <= i < |vs| && !vs[i].pos;
      assert SomeReason(vs, vs[i].reason);
      PriorityReasonFirst(vs, 0);
      var r := PriorityReason(vs, 0);
      if SomeReason(vs, r) {
        var j :| 0 <= j < |vs| && vs[j].reason == r;
        assert Coherent(vs[j]) && !vs[j].neg;
      } else {
        assert exists j :: 0 <= j < |PRIORITY| && PRIORITY[j] == vs[i].reason;
      }
    }
  }

  /** A one-operand conjunction is its operand. */
  lemma {:induction false} ConjSingle(v: Verdict)
    requires Coherent(v)
    ensures Conj([v]) == v
  {
    ConjCoherent([v]);
    assert [v][0] == v;
    forall r: nat
      ensures SomeReason([v], r) == (r == v.reason)
    {}
    PriorityReasonFirst([v], 0);
    if !v.pos && !v.neg {
      assert exists j :: 0 <= j < |PRIORITY| && PRIORITY[j] == v.reason;
    }
  }
}
