/** Evidence that no applicable clause asks for cannot influence a decision. */
module Noninterference {
  import opened Schema
  import opened Ast
  import opened Verdicts
  import opened Findings
  import opened Reference
  import opened Algebra
  import opened Precedence

  /** The packs list the same ids in the same order. */
  predicate SameIDs(pack: seq<Evidence>, other: seq<Evidence>) {
    |pack| == |other| && forall i :: 0 <= i < |pack| ==> pack[i].id == other[i].id
  }

  /** Every record that has this kind in either pack is the same in both. */
  predicate AgreeOnKind(pack: seq<Evidence>, other: seq<Evidence>, kind: string)
    requires |pack| == |other|
  {
    forall i :: 0 <= i < |pack| ==> (pack[i].kind == kind || other[i].kind == kind ==> pack[i] == other[i])
  }

  lemma {:induction false} SameRecordFound(pack: seq<Evidence>, other: seq<Evidence>, id: string, k: nat)
    requires SameIDs(pack, other) && k <= |pack|
    ensures FindRecord(pack, id, k) == FindRecord(other, id, k)
  {
    hide SameIDs, FindRecord;
    SameIDAt(pack, other, k);
    FindRecordGrows(pack, id, k);
    FindRecordGrows(other, id, k);
    if k > 0 { SameRecordFound(pack, other, id, k - 1); }
  }

  /** The search over one more record. */
  lemma {:induction false} FindRecordGrows(pack: seq<Evidence>, id: string, k: nat)
    requires k <= |pack|
    ensures k == 0 ==> FindRecord(pack, id, k) == 0
    ensures var before := if k > 0 then FindRecord(pack, id, k - 1) else 0;
      FindRecord(pack, id, k) == if before != 0 || k == 0 then before else if pack[k - 1].id == id then k else 0
  {}

  lemma {:induction false} SameIDAt(pack: seq<Evidence>, other: seq<Evidence>, k: nat)
    requires SameIDs(pack, other) && k <= |pack|
    ensures |pack| == |other| && (k > 0 ==> pack[k - 1].id == other[k - 1].id)
  {}

  lemma {:induction false} SameListGrade(want: EvidencePredicate, pack: seq<Evidence>, other: seq<Evidence>,
                                         ids: seq<string>)
    requires SameIDs(pack, other) && AgreeOnKind(pack, other, want.kind)
    ensures ListGrade(want, pack, ids) == ListGrade(want, other, ids)
  {
    hide ReferenceGrade, SameIDs, AgreeOnKind;
    if ids != [] {
      SameListGrade(want, pack, other, ids[..|ids| - 1]);
      SameReferenceGrade(want, pack, other, ids[|ids| - 1]);
    }
  }

  lemma {:induction false} SameReferenceGrade(want: EvidencePredicate, pack: seq<Evidence>, other: seq<Evidence>,
                                              id: string)
    requires SameIDs(pack, other) && AgreeOnKind(pack, other, want.kind)
    ensures ReferenceGrade(want, pack, id) == ReferenceGrade(want, other, id)
  {
    hide FindRecord, QualifierGrade, Evidence.Conflicting, Evidence.Stale, Evidence.Revoked;
    SameRecordFound(pack, other, id, |pack|);
  }

  /** The packs agree on every kind that e names. */
  ghost predicate AgreeOn(e: Expression, pack: seq<Evidence>, other: seq<Evidence>)
    requires |pack| == |other|
  {
    forall kind :: NamesKind(e, kind) ==> AgreeOnKind(pack, other, kind)
  }

  lemma {:induction false} VerdictUnaffected(e: Expression, request: Request, pack: seq<Evidence>, other: seq<Evidence>)
    requires SameIDs(pack, other) && AgreeOn(e, pack, other)
    ensures EvalExpression(e, request, pack) == EvalExpression(e, request, other)
    decreases e
  {
    hide ValidFieldValue, LookupField, ListGrade, Conj, AgreeOnKind, SameIDs, FieldVerdict;
    if e.op.All? {
      forall i | 0 <= i < |e.children|
        ensures EvalExpression(e.children[i], request, pack) == EvalExpression(e.children[i], request, other)
      {
        assert forall kind :: NamesKind(e.children[i], kind) ==> NamesKind(e, kind);
        VerdictUnaffected(e.children[i], request, pack, other);
      }
      assert seq(|e.children|, i requires 0 <= i < |e.children| => EvalExpression(e.children[i], request, pack))
          == seq(|e.children|, i requires 0 <= i < |e.children| => EvalExpression(e.children[i], request, other));
    } else if e.op.EvidenceMatches? {
      assert NamesKind(e, e.evidence.kind);
      SameListGrade(e.evidence, pack, other, request.evidenceIDs);
    }
  }

  /** Whether a requirement applies never depends on evidence. */
  lemma {:induction false} ApplicabilityIgnoresEvidence(r: Requirement, request: Request, ids: seq<string>,
                                                        pack: seq<Evidence>, other: seq<Evidence>)
    requires RequirementValid(r)
    ensures Applies(r, request, pack) == Applies(r, request.(evidenceIDs := ids), other)
  {
    hide EvalExpression, ExpressionValid, ClauseValid, Trim;
    EvidenceFreeIsThreeValued(r.applicability, 1, request, pack, other, ids);
  }

  lemma {:induction false} SameApplicability(policy: Policy, request: Request, pack: seq<Evidence>,
                                             other: seq<Evidence>, i: nat)
    requires PolicyValid(policy) && i < |policy.requirements|
    ensures Applies(policy.requirements[i], request, pack) == Applies(policy.requirements[i], request, other)
  {
    hide Applies, RequirementValid, Trim, Clauses, Distinct, PolicyNodes;
    assert RequirementValid(policy.requirements[i]);
    ApplicabilityIgnoresEvidence(policy.requirements[i], request, request.evidenceIDs, pack, other);
    assert request.(evidenceIDs := request.evidenceIDs) == request;
  }

  lemma {:induction false} SameKindsRequired(policy: Policy, request: Request, pack: seq<Evidence>,
                                             other: seq<Evidence>, kind: string)
    requires PolicyValid(policy)
    ensures KindRequired(policy, request, pack, kind) == KindRequired(policy, request, other, kind)
  {
    hide Applies, PolicyValid, ClauseNames;
    forall i | 0 <= i < |policy.requirements|
      ensures Applies(policy.requirements[i], request, pack) == Applies(policy.requirements[i], request, other)
    {
      SameApplicability(policy, request, pack, other, i);
    }
  }

  /** The packs differ only in records of kinds that no applicable clause asks for. */
  ghost predicate Irrelevant(policy: Policy, request: Request, pack: seq<Evidence>, other: seq<Evidence>) {
    SameIDs(pack, other) && forall kind :: KindRequired(policy, request, pack, kind) ==> AgreeOnKind(pack, other, kind)
  }

  lemma {:induction false} SameClauses(policy: Policy, i: nat, k: nat, request: Request, pack: seq<Evidence>,
                                       other: seq<Evidence>)
    requires Irrelevant(policy, request, pack, other) && i < |policy.requirements| && k <= |policy.requirements[i].clauses|
    requires Applies(policy.requirements[i], request, pack)
    ensures ClauseFindings(policy.requirements, i, k, request, pack)
         == ClauseFindings(policy.requirements, i, k, request, other)
  {
    hide EvalExpression, AgreeOnKind, Applies, Clauses, NamesKind;
    if k > 0 {
      SameClauses(policy, i, k - 1, request, pack, other);
      var c := policy.requirements[i].clauses[k - 1];
      forall kind | NamesKind(c.assertion, kind)
        ensures AgreeOnKind(pack, other, kind)
      {
        assert ClauseNames(policy.requirements[i], kind);
        assert KindRequired(policy, request, pack, kind);
      }
      VerdictUnaffected(c.assertion, request, pack, other);
    }
  }

  lemma {:induction false} SameRequirements(policy: Policy, k: nat, request: Request, pack: seq<Evidence>,
                                            other: seq<Evidence>)
    requires PolicyValid(policy) && Irrelevant(policy, request, pack, other) && k <= |policy.requirements|
    ensures RequirementFindings(policy.requirements, k, request, pack)
         == RequirementFindings(policy.requirements, k, request, other)
    ensures Applied(policy.requirements, k, request, pack) == Applied(policy.requirements, k, request, other)
  {
    hide Irrelevant, Applies, PolicyValid, ClauseFindings;
    if k > 0 {
      SameRequirements(policy, k - 1, request, pack, other);
      SameApplicability(policy, request, pack, other, k - 1);
      if Applies(policy.requirements[k - 1], request, pack) {
        SameClauses(policy, k - 1, |policy.requirements[k - 1].clauses|, request, pack, other);
      }
    }
  }

  lemma {:induction false} SameReferences(pack: seq<Evidence>, other: seq<Evidence>, ids: seq<string>, k: nat)
    requires SameIDs(pack, other) && k <= |ids|
    ensures ReferenceFindings(pack, ids, k) == ReferenceFindings(other, ids, k)
  {
    hide FindRecord, SameIDs;
    if k > 0 {
      SameReferences(pack, other, ids, k - 1);
      SameResolve(pack, other, ids[k - 1]);
    }
  }

  lemma {:induction false} SameResolve(pack: seq<Evidence>, other: seq<Evidence>, id: string)
    requires SameIDs(pack, other)
    ensures Resolve(pack, id) == Resolve(other, id)
  {
    hide FindRecord;
    SameRecordFound(pack, other, id, |pack|);
  }

  lemma {:induction false} SameUsed(policy: Policy, request: Request, pack: seq<Evidence>, other: seq<Evidence>, k: nat)
    requires PolicyValid(policy) && Irrelevant(policy, request, pack, other) && k <= |request.evidenceIDs|
    ensures Used(policy, request, pack, k) == Used(policy, request, other, k)
  {
    hide PolicyValid, KindRequired, Resolve, Irrelevant;
    if k > 0 {
      SameUsed(policy, request, pack, other, k - 1);
      SamePacks(policy, request, pack, other);
      SameResolve(pack, other, request.evidenceIDs[k - 1]);
      var r := Resolve(pack, request.evidenceIDs[k - 1]);
      if r != 0 { SameAsked(policy, request, pack, other, r - 1); }
    }
  }

  lemma {:induction false} SamePacks(policy: Policy, request: Request, pack: seq<Evidence>, other: seq<Evidence>)
    requires Irrelevant(policy, request, pack, other)
    ensures SameIDs(pack, other)
  {}

  lemma {:induction false} SameAsked(policy: Policy, request: Request, pack: seq<Evidence>, other: seq<Evidence>, i: nat)
    requires PolicyValid(policy) && Irrelevant(policy, request, pack, other) && i < |pack|
    ensures |other| == |pack|
    ensures KindRequired(policy, request, pack, pack[i].kind) == KindRequired(policy, request, other, other[i].kind)
  {
    hide PolicyValid, KindRequired;
    SameKindsRequired(policy, request, pack, other, pack[i].kind);
    SameKindsRequired(policy, request, pack, other, other[i].kind);
    if KindRequired(policy, request, pack, pack[i].kind) {
      assert AgreeOnKind(pack, other, pack[i].kind);
    }
  }

  /** Noninterference: packs with the same ids that agree on every record whose kind some clause of an
      applicable requirement names, in either pack, lead to the same whole decision. */
  lemma {:induction false} IrrelevantEvidenceIsIgnored(policy: Policy, request: Request, pack: seq<Evidence>,
                                                       other: seq<Evidence>)
    requires PolicyValid(policy) && Irrelevant(policy, request, pack, other)
    ensures Decide(policy, request, pack) == Decide(policy, request, other)
  {
    hide PolicyValid, KindRequired, RequirementFindings, ReferenceFindings, Applied, Best, Used,
         SemanticFindings, Clauses, Remediations, AgreeOnKind;
    FindingsKnown(policy, request, pack);
    FindingsKnown(policy, request, other);
    SameRequirements(policy, |policy.requirements|, request, pack, other);
    SameReferences(pack, other, request.evidenceIDs, |request.evidenceIDs|);
    SameUsed(policy, request, pack, other, |request.evidenceIDs|);
  }
}
