/** What the compiled precedence Reject > Escalate > Revise > Approve means for a request: exact
    conditions for each outcome, stated on the source policy. */
module Precedence {
  import opened Schema
  import opened Ast
  import opened Findings
  import opened Reference
  import opened Coding
  import opened Algebra

  /** The outcome that clause j of requirement i resolves to. */
  function ClauseOutcome(rs: seq<Requirement>, i: nat, j: nat, request: Request, pack: seq<Evidence>): Outcome
    requires i < |rs| && j < |rs[i].clauses|
  {
    rs[i].clauses[j].resolution.At(EvalExpression(rs[i].clauses[j].assertion, request, pack).reason)
  }

  predicate ClauseResolves(rs: seq<Requirement>, i: nat, j: nat, request: Request, pack: seq<Evidence>, o: Outcome) {
    i < |rs| && j < |rs[i].clauses| && Applies(rs[i], request, pack) && ClauseOutcome(rs, i, j, request, pack) == o
  }

  /** Some clause of an applicable requirement resolves to o. */
  ghost predicate SomeClauseResolves(rs: seq<Requirement>, request: Request, pack: seq<Evidence>, o: Outcome) {
    exists i: nat, j: nat :: ClauseResolves(rs, i, j, request, pack, o)
  }

  /** Every field has a valid value and every reference names a record. */
  predicate WellReferenced(request: Request, pack: seq<Evidence>) {
    && (forall f :: 1 <= f < FIELD_COUNT ==> !FieldIssue(request, f))
    && forall k :: 0 <= k < |request.evidenceIDs| ==> Resolve(pack, request.evidenceIDs[k]) != 0
  }

  predicate SomeApplies(rs: seq<Requirement>, request: Request, pack: seq<Evidence>) {
    exists i :: 0 <= i < |rs| && Applies(rs[i], request, pack)
  }

  // ----- which findings there are

  lemma {:induction false} NoIssueFound(request: Request, f: nat)
    requires 1 <= f <= FIELD_COUNT
    ensures FirstIssue(request, f) == 0 <==> forall g :: f <= g < FIELD_COUNT ==> !FieldIssue(request, g)
    decreases FIELD_COUNT - f
  {
    hide FieldIssue;
    if f < FIELD_COUNT { NoIssueFound(request, f + 1); }
  }

  lemma {:induction false} ReferenceFindingsShape(pack: seq<Evidence>, ids: seq<string>, k: nat)
    requires k <= |ids|
    ensures ReferenceFindings(pack, ids, k) == [] <==> forall j :: 0 <= j < k ==> Resolve(pack, ids[j]) != 0
    ensures forall f :: f in ReferenceFindings(pack, ids, k) ==>
      f.outcome == OUTCOME_ESCALATE && f.kind == DRIVER_MISSING_REFERENCE
  {
    hide Resolve;
    if k > 0 { ReferenceFindingsShape(pack, ids, k - 1); }
  }

  /** f is the finding of clause j of requirement i. */
  predicate FindingOf(rs: seq<Requirement>, i: nat, j: nat, request: Request, pack: seq<Evidence>, f: Finding) {
    && i < |rs| && j < |rs[i].clauses|
    && f == SourceFinding(rs[i].clauses[j], i, |Clauses(rs, i)| + j + 1, request, pack)
  }

  lemma {:induction false} ClauseFindingsAt(rs: seq<Requirement>, i: nat, k: nat, request: Request, pack: seq<Evidence>)
    requires i < |rs| && k <= |rs[i].clauses|
    ensures |ClauseFindings(rs, i, k, request, pack)| == k
    ensures forall j :: 0 <= j < k ==> FindingOf(rs, i, j, request, pack, ClauseFindings(rs, i, k, request, pack)[j])
  {
    hide EvalExpression, Clauses;
    if k > 0 { ClauseFindingsAt(rs, i, k - 1, request, pack); }
  }

  /** A finding in the requirement list comes from a clause of an applicable requirement. */
  lemma {:induction false} FindingFromClause(rs: seq<Requirement>, k: nat, request: Request, pack: seq<Evidence>,
                                             f: Finding)
    returns (i: nat, j: nat)
    requires k <= |rs| && f in RequirementFindings(rs, k, request, pack)
    ensures i < k && FindingOf(rs, i, j, request, pack, f) && Applies(rs[i], request, pack)
  {
    hide FindingOf, Applies, ClauseFindings;
    if k > 0 {
      if f in RequirementFindings(rs, k - 1, request, pack) {
        i, j := FindingFromClause(rs, k - 1, request, pack, f);
      } else {
        i := k - 1;
        var fs := ClauseFindings(rs, i, |rs[i].clauses|, request, pack);
        ClauseFindingsAt(rs, i, |rs[i].clauses|, request, pack);
        j :| 0 <= j < |fs| && fs[j] == f;
      }
    }
  }

  /** Every clause of an applicable requirement has its finding in the list. */
  lemma {:induction false} FindingOfClause(rs: seq<Requirement>, k: nat, i: nat, j: nat, request: Request,
                                           pack: seq<Evidence>)
    returns (f: Finding)
    requires i < k <= |rs| && j < |rs[i].clauses| && Applies(rs[i], request, pack)
    ensures f in RequirementFindings(rs, k, request, pack) && FindingOf(rs, i, j, request, pack, f)
  {
    hide FindingOf, Applies, ClauseFindings;
    if i < k - 1 {
      f := FindingOfClause(rs, k - 1, i, j, request, pack);
    } else {
      ClauseFindingsAt(rs, i, |rs[i].clauses|, request, pack);
      f := ClauseFindings(rs, i, |rs[i].clauses|, request, pack)[j];
    }
  }

  lemma {:induction false} OutcomeIDInjective(o: Outcome, q: Outcome)
    requires !o.UnknownOutcome? && !q.UnknownOutcome?
    ensures OutcomeID(o) == OutcomeID(q) <==> o == q
  {}

  /** Resolutions of a valid policy are known outcomes. */
  lemma {:induction false} ResolutionKnown(policy: Policy, i: nat, j: nat, request: Request, pack: seq<Evidence>)
    requires PolicyValid(policy) && i < |policy.requirements| && j < |policy.requirements[i].clauses|
    ensures !ClauseOutcome(policy.requirements, i, j, request, pack).UnknownOutcome?
    ensures ClauseOutcome(policy.requirements, i, j, request, pack) == Revise
            ==> policy.requirements[i].clauses[j].remediations != []
  {
    hide Trim, Clauses, PolicyNodes, Distinct, EvalExpression, ExpressionValid, RemediationValid;
    var c := policy.requirements[i].clauses[j];
    assert RequirementValid(policy.requirements[i]);
    assert ClauseValid(c);
    EvalCoherent(c.assertion, 1, true, request, pack);
    var reason := EvalExpression(c.assertion, request, pack).reason;
    assert StateValid(c.resolution.At(reason), c.explanations.At(reason));
  }

  lemma {:induction false} AppliedNone(rs: seq<Requirement>, k: nat, request: Request, pack: seq<Evidence>)
    requires k <= |rs|
    ensures Applied(rs, k, request, pack) == [] <==> forall i :: 0 <= i < k ==> !Applies(rs[i], request, pack)
  {
    hide Applies;
    if k > 0 { AppliedNone(rs, k - 1, request, pack); }
  }

  // ----- outcomes

  /** Some finding has this outcome. */
  predicate SomeFinding(fs: seq<Finding>, outcome: nat) {
    exists x :: 0 <= x < |fs| && fs[x].outcome == outcome
  }

  /** The winner's outcome is the best-ranked outcome that occurs, or Approve. */
  lemma {:induction false} BestOutcome(fs: seq<Finding>)
    requires AllKnown(fs)
    ensures Best(COMPILED_PRECEDENCE, fs).outcome
         == if SomeFinding(fs, OUTCOME_REJECT) then OUTCOME_REJECT
            else if SomeFinding(fs, OUTCOME_ESCALATE) then OUTCOME_ESCALATE
            else if SomeFinding(fs, OUTCOME_REVISE) then OUTCOME_REVISE
            else OUTCOME_APPROVE
    ensures Best(COMPILED_PRECEDENCE, fs) == NOTHING_FOUND || Best(COMPILED_PRECEDENCE, fs) in fs
  {
    hide Best;
    var i := BestWitness(COMPILED_PRECEDENCE, fs);
  }

  /** An outcome other than Escalate occurs among the findings exactly when some applicable clause
      resolves to it. */
  lemma {:induction false} ClauseOutcomeFound(policy: Policy, request: Request, pack: seq<Evidence>, o: Outcome)
    requires PolicyValid(policy) && !o.UnknownOutcome? && o != Escalate
    ensures SomeFinding(AllFindings(policy, request, pack), OutcomeID(o))
       <==> SomeClauseResolves(policy.requirements, request, pack, o)
  {
    hide PolicyValid, ClauseOutcome, Applies, Resolve, FirstIssue, RequirementFindings, ReferenceFindings,
         Clauses, FindingOf;
    var rs, fs := policy.requirements, AllFindings(policy, request, pack);
    if SomeClauseResolves(rs, request, pack, o) {
      var i: nat, j: nat :| ClauseResolves(rs, i, j, request, pack, o);
      var f := FindingOfClause(rs, |rs|, i, j, request, pack);
      FindingOutcome(rs, i, j, request, pack, f);
      assert f in fs;
    }
    if SomeFinding(fs, OutcomeID(o)) {
      var x :| 0 <= x < |fs| && fs[x].outcome == OutcomeID(o);
      ReferenceFindingsShape(pack, request.evidenceIDs, |request.evidenceIDs|);
      FindingsApart(policy, request, pack, fs[x]);
      var i, j := FindingFromClause(rs, |rs|, request, pack, fs[x]);
      FindingOutcome(rs, i, j, request, pack, fs[x]);
      ResolutionKnown(policy, i, j, request, pack);
      OutcomeIDInjective(o, ClauseOutcome(rs, i, j, request, pack));
      assert ClauseResolves(rs, i, j, request, pack, o);
    }
  }

  lemma {:induction false} FindingOutcome(rs: seq<Requirement>, i: nat, j: nat, request: Request, pack: seq<Evidence>,
                                          f: Finding)
    requires FindingOf(rs, i, j, request, pack, f)
    ensures i < |rs| && j < |rs[i].clauses|
    ensures f.outcome == OutcomeID(ClauseOutcome(rs, i, j, request, pack)) && f.kind == DRIVER_CLAUSE
    ensures f.clause == |Clauses(rs, i)| + j + 1
  {
    hide Clauses, EvalExpression;
  }

  /** Findings that are not about clauses all escalate. */
  lemma {:induction false} FindingsApart(policy: Policy, request: Request, pack: seq<Evidence>, f: Finding)
    requires f in AllFindings(policy, request, pack)
    ensures f in RequirementFindings(policy.requirements, |policy.requirements|, request, pack)
         || (f.outcome == OUTCOME_ESCALATE && f.kind != DRIVER_CLAUSE)
  {
    hide Applies, Resolve, FirstIssue, RequirementFindings, ReferenceFindings, FieldIssue;
    ReferenceFindingsShape(pack, request.evidenceIDs, |request.evidenceIDs|);
  }

  /** Every finding on a valid policy has a known outcome. */
  lemma {:induction false} FindingsKnown(policy: Policy, request: Request, pack: seq<Evidence>)
    requires PolicyValid(policy)
    ensures AllKnown(AllFindings(policy, request, pack))
  {
    hide PolicyValid, ClauseOutcome, Applies, AllFindings, RequirementFindings, Clauses, FindingOf;
    var rs, fs := policy.requirements, AllFindings(policy, request, pack);
    forall x | 0 <= x < |fs|
      ensures OutcomeKnown(fs[x])
    {
      FindingsApart(policy, request, pack, fs[x]);
      if fs[x] in RequirementFindings(rs, |rs|, request, pack) {
        var i, j := FindingFromClause(rs, |rs|, request, pack, fs[x]);
        FindingOutcome(rs, i, j, request, pack, fs[x]);
        ResolutionKnown(policy, i, j, request, pack);
      }
    }
  }

  /** Reject exactly when some applicable clause resolves to Reject. */
  lemma {:induction false} RejectExactly(policy: Policy, request: Request, pack: seq<Evidence>)
    requires PolicyValid(policy)
    ensures Decide(policy, request, pack).driver.outcome == OUTCOME_REJECT
       <==> SomeClauseResolves(policy.requirements, request, pack, Reject)
  {
    hide PolicyValid, AllFindings, SomeClauseResolves, Best, SomeFinding, Used, Applied;
    FindingsKnown(policy, request, pack);
    BestOutcome(AllFindings(policy, request, pack));
    ClauseOutcomeFound(policy, request, pack, Reject);
  }

  /** Nothing escalates exactly when the request is well referenced, something applies and no clause
      escalates. */
  lemma {:induction false} EscalationFound(policy: Policy, request: Request, pack: seq<Evidence>)
    requires PolicyValid(policy)
    ensures !SomeFinding(AllFindings(policy, request, pack), OUTCOME_ESCALATE)
       <==> WellReferenced(request, pack) && SomeApplies(policy.requirements, request, pack)
            && !SomeClauseResolves(policy.requirements, request, pack, Escalate)
  {
    hide PolicyValid, ClauseOutcome, Applies, Resolve, FirstIssue, RequirementFindings, ReferenceFindings,
         Clauses, FindingOf, FieldIssue, Applied;
    var rs, fs := policy.requirements, AllFindings(policy, request, pack);
    var ids := request.evidenceIDs;
    NoIssueFound(request, FIELD_REQUESTER);
    ReferenceFindingsShape(pack, ids, |ids|);
    AppliedNone(rs, |rs|, request, pack);
    if SomeFinding(fs, OUTCOME_ESCALATE) && WellReferenced(request, pack) && SomeApplies(rs, request, pack) {
      var x :| 0 <= x < |fs| && fs[x].outcome == OUTCOME_ESCALATE;
      assert fs == RequirementFindings(rs, |rs|, request, pack);
      var i, j := FindingFromClause(rs, |rs|, request, pack, fs[x]);
      FindingOutcome(rs, i, j, request, pack, fs[x]);
      ResolutionKnown(policy, i, j, request, pack);
      assert ClauseResolves(rs, i, j, request, pack, Escalate);
    }
    if SomeClauseResolves(rs, request, pack, Escalate) {
      var i: nat, j: nat :| ClauseResolves(rs, i, j, request, pack, Escalate);
      var f := FindingOfClause(rs, |rs|, i, j, request, pack);
      FindingOutcome(rs, i, j, request, pack, f);
      assert f in fs;
    }
    if !WellReferenced(request, pack) || !SomeApplies(rs, request, pack) {
      EscalationsListed(policy, request, pack);
    }
  }

  lemma {:induction false} EscalationsListed(policy: Policy, request: Request, pack: seq<Evidence>)
    ensures var rs, ids := policy.requirements, request.evidenceIDs;
      SemanticFindings(request) != [] || ReferenceFindings(pack, ids, |ids|) != [] || Applied(rs, |rs|, request, pack) == []
      ==> SomeFinding(AllFindings(policy, request, pack), OUTCOME_ESCALATE)
  {
    hide Applies, Resolve, FirstIssue, RequirementFindings, ReferenceFindings, FieldIssue, Applied;
    var rs, ids, fs := policy.requirements, request.evidenceIDs, AllFindings(policy, request, pack);
    var sem, refs := SemanticFindings(request), ReferenceFindings(pack, ids, |ids|);
    ReferenceFindingsShape(pack, ids, |ids|);
    if sem != [] {
      assert fs[0] == sem[0];
    } else if refs != [] {
      assert refs[0] in refs;
      assert fs[0] == refs[0];
    } else if Applied(rs, |rs|, request, pack) == [] {
      assert fs[|fs| - 1] == NO_APPLICABLE;
    }
  }

  /** Approve exactly when the request is well referenced, some requirement applies, and every clause
      of every applicable requirement resolves to Approve. */
  lemma {:induction false} ApproveExactly(policy: Policy, request: Request, pack: seq<Evidence>)
    requires PolicyValid(policy)
    ensures Decide(policy, request, pack).driver.outcome == OUTCOME_APPROVE
       <==> WellReferenced(request, pack) && SomeApplies(policy.requirements, request, pack)
            && forall i: nat, j: nat :: OnlyApproves(policy.requirements, i, j, request, pack)
  {
    hide PolicyValid, AllFindings, Best, SomeFinding, Used, Applied, ClauseOutcome, Applies, WellReferenced,
         SomeApplies;
    var rs := policy.requirements;
    FindingsKnown(policy, request, pack);
    BestOutcome(AllFindings(policy, request, pack));
    ClauseOutcomeFound(policy, request, pack, Reject);
    ClauseOutcomeFound(policy, request, pack, Revise);
    EscalationFound(policy, request, pack);
    if !SomeClauseResolves(rs, request, pack, Reject) && !SomeClauseResolves(rs, request, pack, Revise)
       && !SomeClauseResolves(rs, request, pack, Escalate) {
      forall i: nat, j: nat
        ensures OnlyApproves(rs, i, j, request, pack)
      {
        if i < |rs| && j < |rs[i].clauses| && Applies(rs[i], request, pack) {
          ResolutionKnown(policy, i, j, request, pack);
          var o := ClauseOutcome(rs, i, j, request, pack);
          assert ClauseResolves(rs, i, j, request, pack, o);
        }
      }
    } else {
      var o := if SomeClauseResolves(rs, request, pack, Reject) then Reject
               else if SomeClauseResolves(rs, request, pack, Revise) then Revise else Escalate;
      NotOnlyApproves(rs, request, pack, o);
    }
  }

  lemma {:induction false} NotOnlyApproves(rs: seq<Requirement>, request: Request, pack: seq<Evidence>, o: Outcome)
    requires SomeClauseResolves(rs, request, pack, o) && o != Approve
    ensures exists i: nat, j: nat :: !OnlyApproves(rs, i, j, request, pack)
  {
    hide ClauseOutcome, Applies;
    var i: nat, j: nat :| ClauseResolves(rs, i, j, request, pack, o);
    assert !OnlyApproves(rs, i, j, request, pack);
  }

  predicate OnlyApproves(rs: seq<Requirement>, i: nat, j: nat, request: Request, pack: seq<Evidence>) {
    i < |rs| && j < |rs[i].clauses| && Applies(rs[i], request, pack) ==> ClauseOutcome(rs, i, j, request, pack) == Approve
  }

  /** Remediation is offered exactly on Revise. */
  lemma {:induction false} RemediationExactly(policy: Policy, request: Request, pack: seq<Evidence>)
    requires PolicyValid(policy)
    ensures Decide(policy, request, pack).remediation != []
       <==> Decide(policy, request, pack).driver.outcome == OUTCOME_REVISE
  {
    hide PolicyValid, AllFindings, Best, SomeFinding, Used, Applied, ClauseOutcome, Applies, Clauses,
         Remediations, FindingOf;
    var rs := policy.requirements;
    FindingsKnown(policy, request, pack);
    var w := Best(COMPILED_PRECEDENCE, AllFindings(policy, request, pack));
    BestOutcome(AllFindings(policy, request, pack));
    if w.outcome == OUTCOME_REVISE {
      FindingsApart(policy, request, pack, w);
      var i, j := FindingFromClause(rs, |rs|, request, pack, w);
      FindingOutcome(rs, i, j, request, pack, w);
      ClausePlace(rs, i, j, request, pack, w);
      ResolutionKnown(policy, i, j, request, pack);
    }
  }

  lemma {:induction false} ClausePlace(rs: seq<Requirement>, i: nat, j: nat, request: Request, pack: seq<Evidence>,
                                       f: Finding)
    requires FindingOf(rs, i, j, request, pack, f)
    ensures 1 <= f.clause <= |Clauses(rs, |rs|)| && Clauses(rs, |rs|)[f.clause - 1] == rs[i].clauses[j]
  {
    hide EvalExpression, Clauses;
    ClauseNumbers(rs, i, j);
  }
}
