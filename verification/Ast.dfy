/** Source policies (internal/ast/policy.go, internal/ast/expression.go) and what makes one
    publishable, stated declaratively. */
module Ast {
  import opened Schema

  const MAX_EXPRESSION_DEPTH := 32
  const MAX_EXPRESSION_NODES := 4096
  const MAX_EXPLANATION_BYTES := 1024
  const MAX_TEXT_BYTES := 4096

  datatype Operator = All | Equal | In | EvidenceMatches | UnknownOperator(text: string)

  datatype EvidencePredicate = EvidencePredicate(
    kind: string, status: string, timing: string, reviewer: string, timestampState: string,
    subject: string, attestationState: string, scope: string, adjustmentType: string)
  {
    function Wanted(q: nat): string {
      if q == QUALIFIER_STATUS then status
      else if q == QUALIFIER_TIMING then timing
      else if q == QUALIFIER_REVIEWER then reviewer
      else if q == QUALIFIER_TIMESTAMP_STATE then timestampState
      else if q == QUALIFIER_SUBJECT then subject
      else if q == QUALIFIER_ATTESTATION_STATE then attestationState
      else if q == QUALIFIER_SCOPE then scope
      else if q == QUALIFIER_ADJUSTMENT_TYPE then adjustmentType
      else ""
    }
  }

  const NO_EVIDENCE := EvidencePredicate("", "", "", "", "", "", "", "", "")

  datatype Expression = Expression(
    op: Operator, field: string, value: string, values: seq<string>,
    children: seq<Expression>, evidence: EvidencePredicate)

  /** One entry for each reason state. */
  datatype States<T> = States(
    satisfied: T, isFalse: T, missing: T, invalid: T, stale: T, unclear: T, unverifiable: T,
    conflict: T)
  {
    function At(reason: nat): T {
      if reason == REASON_SATISFIED then satisfied
      else if reason == REASON_FALSE then isFalse
      else if reason == REASON_MISSING then missing
      else if reason == REASON_INVALID_EVIDENCE then invalid
      else if reason == REASON_STALE then stale
      else if reason == REASON_UNCLEAR then unclear
      else if reason == REASON_UNVERIFIABLE then unverifiable
      else conflict
    }
  }

  datatype Outcome = Approve | Reject | Revise | Escalate | UnknownOutcome(text: string)

  datatype RemediationAction = AddEvidence | SetField | UnknownAction(text: string)

  datatype Remediation = Remediation(
    action: RemediationAction, evidenceKind: string, description: string, field: string,
    value: string)

  datatype Clause = Clause(
    id: string, assertion: Expression, resolution: States<Outcome>, explanations: States<string>,
    remediations: seq<Remediation>)

  datatype Requirement = Requirement(id: string, applicability: Expression, clauses: seq<Clause>)

  datatype Policy = Policy(name: string, version: string, requirements: seq<Requirement>)

  // ----- counting and flattening

  function NodeCount(e: Expression): nat
    decreases e, |e.children| + 1
  {
    1 + NodesUpTo(e, |e.children|)
  }

  /** Nodes in the first k children of e. */
  function NodesUpTo(e: Expression, k: nat): nat
    requires k <= |e.children|
    decreases e, k
  {
    if k == 0 then 0 else NodesUpTo(e, k - 1) + NodeCount(e.children[k - 1])
  }

  function ClauseNodes(cs: seq<Clause>, k: nat): nat
    requires k <= |cs|
  {
    if k == 0 then 0 else ClauseNodes(cs, k - 1) + NodeCount(cs[k - 1].assertion)
  }

  function PolicyNodes(rs: seq<Requirement>, k: nat): nat
    requires k <= |rs|
  {
    if k == 0 then 0
    else PolicyNodes(rs, k - 1) + NodeCount(rs[k - 1].applicability)
         + ClauseNodes(rs[k - 1].clauses, |rs[k - 1].clauses|)
  }

  /** The clauses of the first k requirements, in policy order. */
  function Clauses(rs: seq<Requirement>, k: nat): seq<Clause>
    requires k <= |rs|
  {
    if k == 0 then [] else Clauses(rs, k - 1) + rs[k - 1].clauses
  }

  /** The remediations of the first k clauses, in policy order. */
  function Remediations(cs: seq<Clause>, k: nat): seq<Remediation>
    requires k <= |cs|
  {
    if k == 0 then [] else Remediations(cs, k - 1) + cs[k - 1].remediations
  }

  // ----- well-formedness

  predicate NodeValid(e: Expression, allowEvidence: bool) {
    match e.op
    case All =>
      e.children != [] && e.field == "" && e.value == "" && e.values == [] && e.evidence == NO_EVIDENCE
    case Equal =>
      && LookupField(e.field) != 0 && Trim(e.value) != ""
      && ValidFieldValue(LookupField(e.field), e.value)
      && e.values == [] && e.children == [] && e.evidence == NO_EVIDENCE
    case In =>
      && LookupField(e.field) != 0 && e.values != []
      && e.value == "" && e.children == [] && e.evidence == NO_EVIDENCE
      && SetValid(LookupField(e.field), e.values, |e.values|)
    case EvidenceMatches =>
      && allowEvidence && Trim(e.evidence.kind) != "" && ValidEvidenceKind(e.evidence.kind)
      && e.field == "" && e.value == "" && e.values == [] && e.children == []
    case UnknownOperator(_) => false
  }

  predicate SetValid(field: nat, values: seq<string>, k: nat)
    requires k <= |values|
  {
    && (forall i :: 0 <= i < k ==> Trim(values[i]) != "" && ValidFieldValue(field, values[i]))
    && (forall i, j :: 0 <= i < j < k ==> values[i] != values[j])
  }

  predicate ExpressionValid(e: Expression, depth: nat, allowEvidence: bool)
    decreases e
  {
    && depth <= MAX_EXPRESSION_DEPTH
    && NodeValid(e, allowEvidence)
    && forall i :: 0 <= i < |e.children| ==> ExpressionValid(e.children[i], depth + 1, allowEvidence)
  }

  predicate StateValid(outcome: Outcome, explanation: string) {
    && !outcome.UnknownOutcome?
    && |explanation| <= MAX_EXPLANATION_BYTES
    && (outcome != Approve ==> Trim(explanation) != "")
  }

  predicate HasRevise(c: Clause) {
    exists r :: 1 <= r <= REASON_COUNT && c.resolution.At(r) == Revise
  }

  predicate RemediationValid(r: Remediation) {
    && |r.description| <= MAX_TEXT_BYTES
    && match r.action
       case AddEvidence =>
         Trim(r.evidenceKind) != "" && ValidEvidenceKind(r.evidenceKind) && r.field == "" && r.value == ""
       case SetField =>
         && LookupField(r.field) != 0 && Trim(r.value) != ""
         && ValidFieldValue(LookupField(r.field), r.value) && r.evidenceKind == ""
       case UnknownAction(_) => false
  }

  predicate ResolutionValid(c: Clause) {
    && (forall r :: 1 <= r <= REASON_COUNT ==> StateValid(c.resolution.At(r), c.explanations.At(r)))
    && (HasRevise(c) <==> c.remediations != [])
    && (forall k :: 0 <= k < |c.remediations| ==> RemediationValid(c.remediations[k]))
  }

  predicate ClauseValid(c: Clause) {
    Trim(c.id) != "" && ExpressionValid(c.assertion, 1, true) && ResolutionValid(c)
  }

  predicate RequirementValid(r: Requirement) {
    && Trim(r.id) != "" && r.clauses != [] && ExpressionValid(r.applicability, 1, false)
    && forall j :: 0 <= j < |r.clauses| ==> ClauseValid(r.clauses[j])
  }

  function RequirementIDs(rs: seq<Requirement>): seq<string> {
    seq(|rs|, i requires 0 <= i < |rs| => Trim(rs[i].id))
  }

  function ClauseIDs(cs: seq<Clause>): seq<string> {
    seq(|cs|, i requires 0 <= i < |cs| => Trim(cs[i].id))
  }

  predicate Distinct<T(==)>(xs: seq<T>) {
    forall i, j :: 0 <= i < j < |xs| ==> xs[i] != xs[j]
  }

  predicate PolicyValid(p: Policy) {
    && Trim(p.name) != "" && Trim(p.version) != "" && p.requirements != []
    && (forall i :: 0 <= i < |p.requirements| ==> RequirementValid(p.requirements[i]))
    && Distinct(RequirementIDs(p.requirements))
    && Distinct(ClauseIDs(Clauses(p.requirements, |p.requirements|)))
    && PolicyNodes(p.requirements, |p.requirements|) <= MAX_EXPRESSION_NODES
  }

  lemma {:induction false} DistinctAppend<T>(xs: seq<T>, x: T)
    ensures Distinct(xs + [x]) <==> Distinct(xs) && x !in xs
  {
    var ys := xs + [x];
    assert forall i :: 0 <= i < |xs| ==> ys[i] == xs[i];
    if Distinct(ys) {
      assert forall i :: 0 <= i < |xs| ==> ys[i] != ys[|xs|];
    }
  }

  lemma {:induction false} DistinctPrefix<T>(xs: seq<T>, ys: seq<T>)
    requires xs <= ys && Distinct(ys)
    ensures Distinct(xs)
  {}

  // ----- monotonicity of the counts

  lemma {:induction false} NodesUpToGrow(e: Expression, j: nat, k: nat)
    requires j <= k <= |e.children|
    ensures NodesUpTo(e, j) + (k - j) <= NodesUpTo(e, k)
  {
    if j < k { NodesUpToGrow(e, j, k - 1); }
  }

  lemma {:induction false} ClauseNodesGrow(cs: seq<Clause>, j: nat, k: nat)
    requires j <= k <= |cs|
    ensures ClauseNodes(cs, j) + (k - j) <= ClauseNodes(cs, k)
  {
    if j < k { ClauseNodesGrow(cs, j, k - 1); }
  }

  lemma {:induction false} PolicyNodesGrow(rs: seq<Requirement>, j: nat, k: nat)
    requires j <= k <= |rs|
    ensures PolicyNodes(rs, j) + (k - j) <= PolicyNodes(rs, k)
    ensures Clauses(rs, j) <= Clauses(rs, k)
  {
    if j < k { PolicyNodesGrow(rs, j, k - 1); }
  }

  /** Every clause costs a node, and so does every requirement. */
  lemma {:induction false} ClausesBelowNodes(rs: seq<Requirement>, k: nat)
    requires k <= |rs|
    ensures |Clauses(rs, k)| + k <= PolicyNodes(rs, k)
  {
    if k > 0 {
      ClausesBelowNodes(rs, k - 1);
      ClauseNodesGrow(rs[k - 1].clauses, 0, |rs[k - 1].clauses|);
    }
  }

  /** A requirement costs at least two nodes, its applicability and a clause. */
  lemma {:induction false} RequirementsBelowNodes(rs: seq<Requirement>, k: nat)
    requires k <= |rs| && forall i :: 0 <= i < k ==> rs[i].clauses != []
    ensures 2 * k <= PolicyNodes(rs, k)
  {
    if k > 0 {
      RequirementsBelowNodes(rs, k - 1);
      ClauseNodesGrow(rs[k - 1].clauses, 0, |rs[k - 1].clauses|);
    }
  }

  lemma {:induction false} RequirementCount(policy: Policy)
    requires PolicyValid(policy)
    ensures 2 * |policy.requirements| <= MAX_EXPRESSION_NODES
  {
    hide Trim, ExpressionValid, ClauseValid, Clauses, Distinct, PolicyNodes;
    var rs := policy.requirements;
    forall i | 0 <= i < |rs|
      ensures rs[i].clauses != []
    {
      assert RequirementValid(rs[i]);
    }
    RequirementsBelowNodes(rs, |rs|);
  }
}
