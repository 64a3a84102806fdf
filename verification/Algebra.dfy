/** The algebra of `all`, and what expressions without evidence can and cannot say. */
module Algebra {
  import opened Schema
  import opened Ast
  import opened Verdicts
  import opened Reference

  predicate AllCoherent(vs: seq<Verdict>) {
    forall i :: 0 <= i < |vs| ==> Coherent(vs[i])
  }

  lemma {:induction false} ReasonsFlatten(xs: seq<Verdict>, ys: seq<Verdict>, zs: seq<Verdict>, r: nat)
    ensures SomeReason(xs + ys + zs, r) <==> SomeReason(xs, r) || SomeReason(ys, r) || SomeReason(zs, r)
  {
    SomeReasonAppend(xs, ys, r);
    SomeReasonAppend(xs + ys, zs, r);
  }

  lemma {:induction false} SomeReasonAppend(xs: seq<Verdict>, ys: seq<Verdict>, r: nat)
    ensures SomeReason(xs + ys, r) <==> SomeReason(xs, r) || SomeReason(ys, r)
  {
    if SomeReason(xs, r) { var i :| 0 <= i < |xs| && xs[i].reason == r; assert (xs + ys)[i].reason == r; }
    if SomeReason(ys, r) { var i :| 0 <= i < |ys| && ys[i].reason == r; assert (xs + ys)[|xs| + i].reason == r; }
  }

  lemma {:induction false} TruthAppend(xs: seq<Verdict>, ys: seq<Verdict>)
    ensures AllPositive(xs + ys) <==> AllPositive(xs) && AllPositive(ys)
    ensures SomeNegative(xs + ys) <==> SomeNegative(xs) || SomeNegative(ys)
  {
    if AllPositive(xs + ys) {
      assert forall i :: 0 <= i < |xs| ==> xs[i] == (xs + ys)[i];
      assert forall i :: 0 <= i < |ys| ==> ys[i] == (xs + ys)[|xs| + i];
    }
    if SomeNegative(xs) { var i :| 0 <= i < |xs| && xs[i].neg; assert (xs + ys)[i].neg; }
    if SomeNegative(ys) { var i :| 0 <= i < |ys| && ys[i].neg; assert (xs + ys)[|xs| + i].neg; }
  }

  /** When no operand is negative, picking the reason in two stages or in one gives the same. */
  lemma {:induction false} PriorityFlattens(vs: seq<Verdict>, ws: seq<Verdict>, ys: seq<Verdict>, inner: nat, k: nat)
    requires k <= |PRIORITY|
    requires inner == (if AllPositive(ys) then REASON_SATISFIED else PriorityReason(ys, 0))
    requires AllCoherent(ys) && !SomeNegative(ys)
    requires forall r: nat :: SomeReason(ws, r) <==> SomeReason(vs, r) || r == inner
    requires forall j :: 0 <= j < k ==> !SomeReason(ys, PRIORITY[j])
    ensures PriorityReason(ws, k) == PriorityOfEither(vs, ys, k)
    decreases |PRIORITY| - k
  {
    PriorityReasonFirst(ys, 0);
    if k < |PRIORITY| {
      var r := PRIORITY[k];
      if SomeReason(ys, r) {
        assert inner == r by {
          var i :| 0 <= i < |ys| && ys[i].reason == r;
          assert Coherent(ys[i]) && !ys[i].neg && !ys[i].pos;
        }
      } else {
        if inner != r && !SomeReason(vs, r) { PriorityFlattens(vs, ws, ys, inner, k + 1); }
      }
    }
  }

  /** The first priority reason from k on that occurs in either list. */
  function PriorityOfEither(vs: seq<Verdict>, ys: seq<Verdict>, k: nat): nat
    requires k <= |PRIORITY|
    decreases |PRIORITY| - k
  {
    if k == |PRIORITY| then REASON_UNVERIFIABLE
    else if SomeReason(vs, PRIORITY[k]) || SomeReason(ys, PRIORITY[k]) then PRIORITY[k]
    else PriorityOfEither(vs, ys, k + 1)
  }

  lemma {:induction false} EitherIsAppend(vs: seq<Verdict>, ys: seq<Verdict>, all: seq<Verdict>, k: nat)
    requires k <= |PRIORITY| && forall r: nat :: SomeReason(all, r) <==> SomeReason(vs, r) || SomeReason(ys, r)
    ensures PriorityReason(all, k) == PriorityOfEither(vs, ys, k)
    decreases |PRIORITY| - k
  {
    if k < |PRIORITY| { EitherIsAppend(vs, ys, all, k + 1); }
  }

  /** Flattening a nested conjunction preserves truth and reason. */
  lemma {:induction false} ConjFlattens(xs: seq<Verdict>, ys: seq<Verdict>, zs: seq<Verdict>)
    requires ys != [] && AllCoherent(xs) && AllCoherent(ys) && AllCoherent(zs)
    ensures Conj(xs + [Conj(ys)] + zs) == Conj(xs + ys + zs)
  {
    hide PriorityReason;
    var c := Conj(ys);
    ConjCoherent(ys);
    TruthAppend(xs, ys); TruthAppend(xs + ys, zs);
    TruthAppend(xs, [c]); TruthAppend(xs + [c], zs);
    assert AllPositive([c]) == c.pos by { assert [c][0] == c; }
    assert SomeNegative([c]) == c.neg by { assert [c][0] == c; }
    if !SomeNegative(ys) && !SomeNegative(xs) && !SomeNegative(zs) {
      var vs := xs + zs;
      forall r: nat
        ensures SomeReason(xs + [c] + zs, r) <==> SomeReason(vs, r) || r == c.reason
        ensures SomeReason(xs + ys + zs, r) <==> SomeReason(vs, r) || SomeReason(ys, r)
      {
        ReasonsFlatten(xs, [c], zs, r);
        ReasonsFlatten(xs, ys, zs, r);
        SomeReasonAppend(xs, zs, r);
        assert SomeReason([c], r) <==> r == c.reason by { assert [c][0] == c; }
      }
      PriorityFlattens(vs, xs + [c] + zs, ys, c.reason, 0);
      EitherIsAppend(vs, ys, xs + ys + zs, 0);
    }
  }

  // ----- expressions

  function AllOf(es: seq<Expression>): Expression {
    Expression(All, "", "", [], es, NO_EVIDENCE)
  }

  function EvalAll(es: seq<Expression>, request: Request, pack: seq<Evidence>): (vs: seq<Verdict>)
    ensures |vs| == |es|
  {
    seq(|es|, i requires 0 <= i < |es| => EvalExpression(es[i], request, pack))
  }

  lemma {:induction false} AllIsConj(es: seq<Expression>, request: Request, pack: seq<Evidence>)
    ensures EvalExpression(AllOf(es), request, pack) == Conj(EvalAll(es, request, pack))
  {
    hide Conj;
    var e := AllOf(es);
    assert seq(|e.children|, i requires 0 <= i < |e.children| => EvalExpression(e.children[i], request, pack))
        == EvalAll(es, request, pack);
  }

  /** Every well-formed expression has a coherent verdict: one reason, the one its truth bits call for,
      and never Unverifiable. */
  lemma {:induction false} EvalCoherent(e: Expression, depth: nat, allowEvidence: bool, request: Request,
                                        pack: seq<Evidence>)
    requires ExpressionValid(e, depth, allowEvidence)
    ensures Coherent(EvalExpression(e, request, pack))
    decreases e
  {
    hide Trim, ValidFieldValue, LookupField, SetValid, ListGrade, Conj;
    if e.op.All? {
      var vs := seq(|e.children|, i requires 0 <= i < |e.children| => EvalExpression(e.children[i], request, pack));
      forall i | 0 <= i < |vs|
        ensures Coherent(vs[i])
      {
        EvalCoherent(e.children[i], depth + 1, allowEvidence, request, pack);
      }
      ConjCoherent(vs);
    }
  }

  predicate AllValid(es: seq<Expression>, depth: nat, allowEvidence: bool) {
    forall i :: 0 <= i < |es| ==> ExpressionValid(es[i], depth, allowEvidence)
  }

  lemma {:induction false} VerdictsCoherent(es: seq<Expression>, depth: nat, allowEvidence: bool, request: Request,
                                            pack: seq<Evidence>)
    requires AllValid(es, depth, allowEvidence)
    ensures AllCoherent(EvalAll(es, request, pack))
  {
    hide ExpressionValid;
    forall i | 0 <= i < |es|
      ensures Coherent(EvalAll(es, request, pack)[i])
    {
      EvalCoherent(es[i], depth, allowEvidence, request, pack);
    }
  }

  /** Flattening a nested `all` preserves truth and reason on every request. */
  lemma {:induction false} FlattenNested(xs: seq<Expression>, ys: seq<Expression>, zs: seq<Expression>, depth: nat,
                                         allowEvidence: bool,
                      request: Request, pack: seq<Evidence>)
    requires ys != [] && AllValid(xs, depth, allowEvidence)
    requires AllValid(ys, depth, allowEvidence) && AllValid(zs, depth, allowEvidence)
    ensures EvalExpression(AllOf(xs + [AllOf(ys)] + zs), request, pack)
         == EvalExpression(AllOf(xs + ys + zs), request, pack)
  {
    hide AllValid, AllCoherent, Conj, EvalExpression;
    var vx, vy, vz := EvalAll(xs, request, pack), EvalAll(ys, request, pack), EvalAll(zs, request, pack);
    VerdictsCoherent(xs, depth, allowEvidence, request, pack);
    VerdictsCoherent(ys, depth, allowEvidence, request, pack);
    VerdictsCoherent(zs, depth, allowEvidence, request, pack);
    AllIsConj(ys, request, pack);
    AllIsConj(xs + [AllOf(ys)] + zs, request, pack);
    AllIsConj(xs + ys + zs, request, pack);
    assert EvalAll(xs + [AllOf(ys)] + zs, request, pack) == vx + [Conj(vy)] + vz;
    assert EvalAll(xs + ys + zs, request, pack) == vx + vy + vz;
    ConjFlattens(vx, vy, vz);
  }

  lemma {:induction false} VerdictMoves(xs: seq<Expression>, ys: seq<Expression>, request: Request,
                                        pack: seq<Evidence>, v: Verdict)
    requires (forall e :: e in xs ==> e in ys) && v in EvalAll(xs, request, pack)
    ensures v in EvalAll(ys, request, pack)
  {
    hide EvalExpression;
    var i :| 0 <= i < |xs| && EvalAll(xs, request, pack)[i] == v;
    assert xs[i] in ys;
    var j :| 0 <= j < |ys| && ys[j] == xs[i];
    assert EvalAll(ys, request, pack)[j] == v;
  }

  /** Permuting or repeating the children of an `all` changes nothing. */
  lemma {:induction false} ReorderChildren(xs: seq<Expression>, ys: seq<Expression>, request: Request, pack: seq<Evidence>)
    requires forall e :: e in xs <==> e in ys
    ensures EvalExpression(AllOf(xs), request, pack) == EvalExpression(AllOf(ys), request, pack)
  {
    hide Conj, EvalExpression;
    AllIsConj(xs, request, pack);
    AllIsConj(ys, request, pack);
    var vs, ws := EvalAll(xs, request, pack), EvalAll(ys, request, pack);
    forall v
      ensures v in vs <==> v in ws
    {
      if v in vs { VerdictMoves(xs, ys, request, pack, v); }
      if v in ws { VerdictMoves(ys, xs, request, pack, v); }
    }
    ConjOfSameSet(vs, ws);
  }

  /** An `all` of one child is that child. */
  lemma {:induction false} SingleChild(e: Expression, depth: nat, allowEvidence: bool, request: Request,
                                       pack: seq<Evidence>)
    requires ExpressionValid(e, depth, allowEvidence)
    ensures EvalExpression(AllOf([e]), request, pack) == EvalExpression(e, request, pack)
  {
    hide Conj, EvalExpression, ExpressionValid;
    AllIsConj([e], request, pack);
    EvalCoherent(e, depth, allowEvidence, request, pack);
    assert EvalAll([e], request, pack) == [EvalExpression(e, request, pack)];
    ConjSingle(EvalExpression(e, request, pack));
  }

  /** Without evidence an expression is three-valued: it never conflicts, its reason is Satisfied,
      False, Missing or Unclear, and no evidence can change it. */
  lemma {:induction false} EvidenceFreeIsThreeValued(e: Expression, depth: nat, request: Request, pack: seq<Evidence>,
                                                     other: seq<Evidence>, ids: seq<string>)
    requires ExpressionValid(e, depth, false)
    ensures var v := EvalExpression(e, request, pack);
      && !(v.pos && v.neg) && v.reason in {REASON_SATISFIED, REASON_FALSE, REASON_MISSING, REASON_UNCLEAR}
      && v == EvalExpression(e, request.(evidenceIDs := ids), other)
    decreases e
  {
    hide Trim, ValidFieldValue, LookupField, SetValid, ListGrade, Conj;
    if e.op.All? {
      var moved := request.(evidenceIDs := ids);
      var vs := EvalAll(e.children, request, pack);
      forall i | 0 <= i < |vs|
        ensures ThreeValued(vs[i]) && vs[i] == EvalExpression(e.children[i], moved, other)
        ensures Coherent(vs[i])
      {
        EvidenceFreeIsThreeValued(e.children[i], depth + 1, request, pack, other, ids);
        EvalCoherent(e.children[i], depth + 1, false, request, pack);
      }
      assert vs == EvalAll(e.children, moved, other);
      assert vs == seq(|e.children|, i requires 0 <= i < |e.children| => EvalExpression(e.children[i], request, pack));
      assert vs == seq(|e.children|, i requires 0 <= i < |e.children| => EvalExpression(e.children[i], moved, other));
      ConjThreeValued(vs);
    } else {
      FieldApart(request, ids, LookupField(e.field));
    }
  }

  predicate ThreeValued(v: Verdict) {
    !(v.pos && v.neg) && v.reason in {REASON_SATISFIED, REASON_FALSE, REASON_MISSING, REASON_UNCLEAR}
  }

  lemma {:induction false} FieldApart(request: Request, ids: seq<string>, f: nat)
    ensures request.(evidenceIDs := ids).Field(f) == request.Field(f)
  {}

  lemma {:induction false} ConjThreeValued(vs: seq<Verdict>)
    requires vs != [] && AllCoherent(vs) && forall i :: 0 <= i < |vs| ==> ThreeValued(vs[i])
    ensures ThreeValued(Conj(vs))
  {
    ConjCoherent(vs);
    PriorityReasonFirst(vs, 0);
  }
}
