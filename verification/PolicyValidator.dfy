/** Policy.Validate (internal/ast/validate.go): a walk with a shared node counter that accepts
    exactly the policies Ast.PolicyValid describes. */
module PolicyValidator {
  import opened Schema
  import opened Ast

  method ValidateSet(field: nat, values: seq<string>) returns (ok: bool)
    ensures ok <==> SetValid(field, values, |values|)
  {
    hide Trim, ValidFieldValue;
    var seen: set<string> := {};
    for i := 0 to |values|
      invariant SetValid(field, values, i)
      invariant forall v :: v in seen <==> exists j :: 0 <= j < i && values[j] == v
    {
      if Trim(values[i]) == "" || values[i] in seen || !ValidFieldValue(field, values[i]) {
        return false;
      }
      seen := seen + {values[i]};
    }
    return true;
  }

  method ValidateExpression(e: Expression, depth: nat, nodes: nat, allowEvidence: bool)
    returns (ok: bool, nodes': nat)
    ensures ok <==> ExpressionValid(e, depth, allowEvidence) && nodes + NodeCount(e) <= MAX_EXPRESSION_NODES
    ensures ok ==> nodes' == nodes + NodeCount(e)
    decreases e
  {
    hide Trim, LookupField, ValidFieldValue, ValidEvidenceKind, SetValid;
    nodes' := nodes;
    if depth > MAX_EXPRESSION_DEPTH { return false, nodes'; }
    nodes' := nodes' + 1;
    if nodes' > MAX_EXPRESSION_NODES { return false, nodes'; }
    match e.op {
      case All =>
        if e.children == [] { return false, nodes'; }
        if e.field != "" || e.value != "" || e.values != [] || e.evidence != NO_EVIDENCE {
          return false, nodes';
        }
        for i := 0 to |e.children|
          invariant nodes' == nodes + 1 + NodesUpTo(e, i) <= MAX_EXPRESSION_NODES
          invariant forall j :: 0 <= j < i ==> ExpressionValid(e.children[j], depth + 1, allowEvidence)
        {
          NodesUpToGrow(e, i + 1, |e.children|);
          ok, nodes' := ValidateExpression(e.children[i], depth + 1, nodes', allowEvidence);
          if !ok { return; }
        }
      case Equal =>
        if LookupField(e.field) == 0 { return false, nodes'; }
        if Trim(e.value) == "" { return false, nodes'; }
        if !ValidFieldValue(LookupField(e.field), e.value) { return false, nodes'; }
        if e.values != [] { return false, nodes'; }
        if e.children != [] || e.evidence != NO_EVIDENCE { return false, nodes'; }
      case In =>
        if LookupField(e.field) == 0 { return false, nodes'; }
        if e.values == [] { return false, nodes'; }
        if e.value != "" || e.children != [] || e.evidence != NO_EVIDENCE { return false, nodes'; }
        var set_ok := ValidateSet(LookupField(e.field), e.values);
        if !set_ok { return false, nodes'; }
      case EvidenceMatches =>
        if !allowEvidence { return false, nodes'; }
        if Trim(e.evidence.kind) == "" { return false, nodes'; }
        if !ValidEvidenceKind(e.evidence.kind) { return false, nodes'; }
        if e.field != "" || e.value != "" || e.values != [] || e.children != [] { return false, nodes'; }
      case UnknownOperator(_) =>
        return false, nodes';
    }
    return true, nodes';
  }

  method ValidateRemediation(r: Remediation) returns (ok: bool)
    ensures ok <==> RemediationValid(r)
  {
    hide Trim, LookupField, ValidFieldValue, ValidEvidenceKind;
    if |r.description| > MAX_TEXT_BYTES { return false; }
    match r.action {
      case AddEvidence =>
        if Trim(r.evidenceKind) == "" { return false; }
        if !ValidEvidenceKind(r.evidenceKind) { return false; }
        return r.field == "" && r.value == "";
      case SetField =>
        if LookupField(r.field) == 0 { return false; }
        if Trim(r.value) == "" { return false; }
        if !ValidFieldValue(LookupField(r.field), r.value) { return false; }
        return r.evidenceKind == "";
      case UnknownAction(_) =>
        return false;
    }
  }

  method ValidateResolution(c: Clause) returns (ok: bool)
    ensures ok <==> ResolutionValid(c)
  {
    hide Trim, RemediationValid, States.At;
    var hasRevise := false;
    for r := 1 to REASON_COUNT + 1
      invariant forall s :: 1 <= s < r ==> StateValid(c.resolution.At(s), c.explanations.At(s))
      invariant hasRevise <==> exists s :: 1 <= s < r && c.resolution.At(s) == Revise
    {
      var outcome, explanation := c.resolution.At(r), c.explanations.At(r);
      if outcome.UnknownOutcome? || |explanation| > MAX_EXPLANATION_BYTES
         || (outcome != Approve && Trim(explanation) == "") {
        assert !StateValid(c.resolution.At(r), c.explanations.At(r));
        return false;
      }
      if outcome == Revise { hasRevise := true; }
    }
    assert hasRevise == HasRevise(c);
    if hasRevise && c.remediations == [] { return false; }
    if !hasRevise && c.remediations != [] { return false; }
    for k := 0 to |c.remediations|
      invariant forall m :: 0 <= m < k ==> RemediationValid(c.remediations[m])
    {
      ok := ValidateRemediation(c.remediations[k]);
      if !ok { return; }
    }
    return true;
  }

  lemma {:induction false} NoneDistinct()
    ensures Distinct<string>([])
  {}

  lemma {:induction false} RequirementStep(rs: seq<Requirement>, rids: seq<string>, i: nat)
    requires i < |rs| && |rids| == i && rids <= RequirementIDs(rs) && Distinct(rids)
    ensures var id := Trim(rs[i].id);
      && rids + [id] <= RequirementIDs(rs)
      && (if id in rids then !Distinct(RequirementIDs(rs)) else Distinct(rids + [id]))
  {
    hide Trim;
    var id := Trim(rs[i].id);
    DistinctAppend(rids, id);
    assert RequirementIDs(rs)[i] == id;
    assert rids + [id] == RequirementIDs(rs)[..i + 1];
    if Distinct(RequirementIDs(rs)) { DistinctPrefix(rids + [id], RequirementIDs(rs)); }
  }

  /** Policy.Validate decides publishability. */
  method Validate(p: Policy) returns (ok: bool)
    ensures ok <==> PolicyValid(p)
  {
    hide Trim, ExpressionValid, ResolutionValid, NodeCount, Distinct, ClauseValid;
    NoneDistinct();
    if Trim(p.name) == "" || Trim(p.version) == "" || p.requirements == [] { return false; }
    var rs := p.requirements;
    ghost var all := Clauses(rs, |rs|);
    ghost var rids: seq<string>, cids: seq<string> := [], [];
    var requirementIDs: set<string>, clauseIDs: set<string>, nodes := {}, {}, 0;
    for i := 0 to |rs|
      invariant nodes == PolicyNodes(rs, i) <= MAX_EXPRESSION_NODES
      invariant forall m :: 0 <= m < i ==> RequirementValid(rs[m])
      invariant Distinct(rids) && Distinct(cids)
      invariant |rids| == i && rids <= RequirementIDs(rs)
      invariant |cids| == |Clauses(rs, i)| && cids <= ClauseIDs(all)
      invariant requirementIDs == (set t | t in rids) && clauseIDs == (set t | t in cids)
    {
      var r := rs[i];
      PolicyNodesGrow(rs, i + 1, |rs|);
      RequirementStep(rs, rids, i);
      if Trim(r.id) == "" { assert !RequirementValid(r); return false; }
      if Trim(r.id) in requirementIDs { return false; }
      if r.clauses == [] { assert !RequirementValid(r); return false; }
      requirementIDs, rids := requirementIDs + {Trim(r.id)}, rids + [Trim(r.id)];
      ok, nodes := ValidateExpression(r.applicability, 1, nodes, false);
      ClauseNodesGrow(r.clauses, 0, |r.clauses|);
      if !ok { assert !RequirementValid(r) || PolicyNodes(rs, i + 1) > MAX_EXPRESSION_NODES; return; }
      ok, clauseIDs, nodes, cids := ValidateClauses(rs, i, clauseIDs, nodes, cids);
      if !ok { return; }
      assert RequirementValid(r);
    }
    assert cids == ClauseIDs(all) && rids == RequirementIDs(rs);
    return true;
  }

  /** The inner loop of Policy.Validate, over the clauses of requirement i. */
  method ValidateClauses(rs: seq<Requirement>, i: nat, seen: set<string>, nodes: nat, ghost cids: seq<string>)
    returns (ok: bool, seen': set<string>, nodes': nat, ghost cids': seq<string>)
    requires i < |rs| && Distinct(cids) && seen == (set t | t in cids)
    requires |cids| == |Clauses(rs, i)| && cids <= ClauseIDs(Clauses(rs, |rs|))
    requires nodes == PolicyNodes(rs, i) + NodeCount(rs[i].applicability) <= MAX_EXPRESSION_NODES
    ensures ok ==> forall j :: 0 <= j < |rs[i].clauses| ==> ClauseValid(rs[i].clauses[j])
    ensures ok ==> nodes' == PolicyNodes(rs, i + 1) <= MAX_EXPRESSION_NODES
    ensures ok ==> Distinct(cids') && seen' == (set t | t in cids')
    ensures ok ==> |cids'| == |Clauses(rs, i + 1)| && cids' <= ClauseIDs(Clauses(rs, |rs|))
    ensures !ok ==> (exists j :: 0 <= j < |rs[i].clauses| && !ClauseValid(rs[i].clauses[j]))
                    || PolicyNodes(rs, i + 1) > MAX_EXPRESSION_NODES
                    || !Distinct(ClauseIDs(Clauses(rs, |rs|)))
  {
    hide Trim, ExpressionValid, ResolutionValid, NodeCount;
    var cs := rs[i].clauses;
    ghost var all := ClauseIDs(Clauses(rs, |rs|));
    PolicyNodesGrow(rs, i + 1, |rs|);
    seen', nodes', cids' := seen, nodes, cids;
    for j := 0 to |cs|
      invariant nodes' == nodes + ClauseNodes(cs, j) <= MAX_EXPRESSION_NODES
      invariant forall m :: 0 <= m < j ==> ClauseValid(cs[m])
      invariant Distinct(cids') && seen' == (set t | t in cids')
      invariant |cids'| == |cids| + j && cids' <= all
    {
      var id := Trim(cs[j].id);
      ClauseNodesGrow(cs, j + 1, |cs|);
      assert Clauses(rs, i + 1)[|cids'|] == cs[j];
      assert all[|cids'|] == id;
      assert cids' + [id] == all[..|cids'| + 1];
      DistinctAppend(cids', id);
      if id == "" { assert !ClauseValid(cs[j]); return false, seen', nodes', cids'; }
      if id in seen' {
        if Distinct(all) { DistinctPrefix(cids' + [id], all); }
        return false, seen', nodes', cids';
      }
      seen', cids' := seen' + {id}, cids' + [id];
      ok, nodes' := ValidateExpression(cs[j].assertion, 1, nodes', true);
      if !ok { assert !ClauseValid(cs[j]) || PolicyNodes(rs, i + 1) > MAX_EXPRESSION_NODES; return; }
      ok := ValidateResolution(cs[j]);
      if !ok { assert !ClauseValid(cs[j]); return; }
    }
    ok := true;
  }
}
