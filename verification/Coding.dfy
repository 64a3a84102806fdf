/** What it means that a program stands for a source policy, and why resolving a request with the
    program gives the decision of the reference procedure. */
module Coding {
  import opened Schema
  import opened Ast
  import opened Findings
  import opened Reference
  import opened Programs
  import opened Rows
  import opened Lowering
  import opened Resolution

  /** The evidence kinds that e names, added to acc in order of first mention. */
  function AddKinds(acc: seq<string>, e: Expression): seq<string>
    decreases e, |e.children| + 1
  {
    if e.op.All? then AddKindsUpTo(acc, e, |e.children|)
    else if e.op.EvidenceMatches? && e.evidence.kind !in acc then acc + [e.evidence.kind]
    else acc
  }

  function AddKindsUpTo(acc: seq<string>, e: Expression, k: nat): seq<string>
    requires k <= |e.children|
    decreases e, k
  {
    if k == 0 then acc else AddKinds(AddKindsUpTo(acc, e, k - 1), e.children[k - 1])
  }

  predicate TextCoded(syms: seq<string>, explanations: seq<nat>, id: nat, text: string) {
    if text == "" then id == 0
    else ValidID(id, |explanations|) && Names(syms, explanations[id - 1], text)
  }

  predicate StateCoded(t: Tables, syms: seq<string>, explanations: seq<nat>, k: nat, reason: nat, c: Clause)
    requires 1 <= reason
  {
    && StateIndex(k, reason) < |t.outcomeIDs| && StateIndex(k, reason) < |t.explanationIDs|
    && t.outcomeIDs[StateIndex(k, reason)] == OutcomeID(c.resolution.At(reason))
    && TextCoded(syms, explanations, t.explanationIDs[StateIndex(k, reason)], c.explanations.At(reason))
  }

  predicate KindsListed(c: Code, t: Tables, syms: seq<string>, start: nat, count: nat, texts: seq<string>) {
    && count == |texts| && ValidRange(start, count, |t.evidenceKinds|)
    && forall j :: 0 <= j < count ==> KindNames(c, syms, t.evidenceKinds[start + j], texts[j])
  }

  /** Entry k of the clause columns stands for clause c, whose remediations come after `before`
      others in the policy. */
  predicate ClauseCoded(code: Code, t: Tables, explanations: seq<nat>, syms: seq<string>, k: nat, c: Clause, before: nat) {
    && k < |t.clauseSymbols| && k < |t.assertionRoots| && k < |t.remediationStarts| && k < |t.remediationCounts|
    && k < |t.evidenceKindStarts| && k < |t.evidenceKindCounts|
    && Names(syms, t.clauseSymbols[k], c.id)
    && Codes(code, syms, t.assertionRoots[k], c.assertion)
    && (forall reason :: 1 <= reason <= REASON_COUNT ==> StateCoded(t, syms, explanations, k, reason, c))
    && t.remediationStarts[k] == before && t.remediationCounts[k] == |c.remediations|
    && KindsListed(code, t, syms, t.evidenceKindStarts[k], t.evidenceKindCounts[k], AddKinds([], c.assertion))
  }

  /** Entry i of the requirement columns stands for requirement r, whose clauses come after `before`
      others in the policy. */
  predicate RequirementCoded(code: Code, t: Tables, syms: seq<string>, i: nat, r: Requirement, before: nat) {
    && i < |t.requirementSymbols| && i < |t.applicabilityRoots| && i < |t.clauseStarts| && i < |t.clauseCounts|
    && Names(syms, t.requirementSymbols[i], r.id)
    && Codes(code, syms, t.applicabilityRoots[i], r.applicability)
    && t.clauseStarts[i] == before && t.clauseCounts[i] == |r.clauses|
  }

  predicate RemediationCoded(code: Code, explanations: seq<nat>, syms: seq<string>, s: RemediationSpec, r: Remediation) {
    && TextCoded(syms, explanations, s.description, r.description)
    && match r.action
       case AddEvidence =>
         s.action == REMEDIATION_ADD_EVIDENCE && KindNames(code, syms, s.evidenceKind, r.evidenceKind)
         && s.field == 0 && s.value == 0
       case SetField =>
         s.action == REMEDIATION_SET_FIELD && s.field == LookupField(r.field) && Names(syms, s.value, r.value)
         && s.evidenceKind == 0
       case UnknownAction(_) => false
  }

  predicate HeaderCoded(p: Program, syms: seq<string>, policy: Policy) {
    && p.name == policy.name && p.version == policy.version
    && Spells(p.symbols, syms) && Interned(syms) && KindsCoded(p.code, syms)
    && p.catalogues.precedence == COMPILED_PRECEDENCE
  }

  predicate NumberingCoded(t: Tables, remediations: nat, rs: seq<Requirement>) {
    var cs := Clauses(rs, |rs|);
    && TablesAligned(t) && |t.requirementSymbols| == |rs|
    && |t.clauseSymbols| == |cs| && t.clauseIDs == Counting(0, |cs|)
    && remediations == |Remediations(cs, |cs|)| && t.remediationIDs == Counting(0, remediations)
  }

  predicate RequirementsCoded(code: Code, t: Tables, syms: seq<string>, rs: seq<Requirement>, n: nat)
    requires n <= |rs|
  {
    forall i {:trigger RequirementCoded(code, t, syms, i, rs[i], |Clauses(rs, i)|)} ::
      0 <= i < n ==> RequirementCoded(code, t, syms, i, rs[i], |Clauses(rs, i)|)
  }

  predicate ClausesCoded(code: Code, t: Tables, explanations: seq<nat>, syms: seq<string>, cs: seq<Clause>) {
    forall k {:trigger ClauseCoded(code, t, explanations, syms, k, cs[k], |Remediations(cs, k)|)} ::
      0 <= k < |cs| ==> ClauseCoded(code, t, explanations, syms, k, cs[k], |Remediations(cs, k)|)
  }

  predicate RemediationsCoded(code: Code, c: Catalogues, syms: seq<string>, ms: seq<Remediation>) {
    |c.remediations| == |ms| &&
    forall x :: 0 <= x < |ms| ==> RemediationCoded(code, c.explanationSymbols, syms, c.remediations[x], ms[x])
  }

  /** The program stands for the policy: every root codes its expression, the clause and remediation
      catalogues follow policy order, and the symbols spell the interned texts. */
  predicate PolicyCoded(p: Program, syms: seq<string>, policy: Policy) {
    var rs := policy.requirements;
    var cs := Clauses(rs, |rs|);
    && HeaderCoded(p, syms, policy)
    && NumberingCoded(p.tables, |p.catalogues.remediations|, rs)
    && RequirementsCoded(p.code, p.tables, syms, rs, |rs|)
    && ClausesCoded(p.code, p.tables, p.catalogues.explanationSymbols, syms, cs)
    && RemediationsCoded(p.code, p.catalogues, syms, Remediations(cs, |cs|))
  }

  /** A runnable program that stands for a publishable policy. */
  predicate Linked(p: Program, syms: seq<string>, policy: Policy) {
    Executable(p) && PolicyCoded(p, syms, policy) && PolicyValid(policy)
  }

  function ViewRow(p: Program, request: Request, pack: seq<Evidence>): RowView {
    SymbolicRow(p.symbols, request, pack)
  }

  function ViewRecords(p: Program, pack: seq<Evidence>): seq<Record> {
    SymbolicRecords(p.symbols, p.code.evidenceKindSymbols, pack)
  }

  // ----- kinds

  lemma {:induction false} AddKindsMembers(acc: seq<string>, e: Expression, depth: nat, kind: string)
    requires ExpressionValid(e, depth, true)
    ensures kind in AddKinds(acc, e) <==> kind in acc || NamesKind(e, kind)
    decreases e, |e.children| + 1
  {
    hide Trim, ValidEvidenceKind, LookupField, ValidFieldValue, SetValid;
    if e.op.All? {
      AddKindsUpToMembers(acc, e, depth, kind, |e.children|);
    }
  }

  lemma {:induction false} AddKindsUpToMembers(acc: seq<string>, e: Expression, depth: nat, kind: string, k: nat)
    requires k <= |e.children| && ExpressionValid(e, depth, true)
    ensures kind in AddKindsUpTo(acc, e, k)
      <==> kind in acc || exists i :: 0 <= i < k && NamesKind(e.children[i], kind)
    decreases e, k
  {
    hide NamesKind, NodeValid;
    if k > 0 {
      AddKindsUpToMembers(acc, e, depth, kind, k - 1);
      AddKindsMembers(AddKindsUpTo(acc, e, k - 1), e.children[k - 1], depth + 1, kind);
    }
  }

  // ----- numbering

  /** The clauses of requirement i are numbered right after those of the requirements before it. */
  lemma {:induction false} ClauseNumbers(rs: seq<Requirement>, i: nat, j: nat)
    requires i < |rs| && j < |rs[i].clauses|
    ensures |Clauses(rs, i)| + j < |Clauses(rs, |rs|)|
    ensures Clauses(rs, |rs|)[|Clauses(rs, i)| + j] == rs[i].clauses[j]
  {
    PolicyNodesGrow(rs, i + 1, |rs|);
    assert Clauses(rs, i + 1)[|Clauses(rs, i)| + j] == rs[i].clauses[j];
  }

  lemma {:induction false} RemediationNumbersGrow(cs: seq<Clause>, j: nat, k: nat)
    requires j <= k <= |cs|
    ensures Remediations(cs, j) <= Remediations(cs, k)
  {
    if j < k { RemediationNumbersGrow(cs, j, k - 1); }
  }

  lemma {:induction false} ClauseRangeIsCounting(t: Tables, rs: seq<Requirement>, i: nat)
    requires TablesAligned(t) && |t.requirementSymbols| == |rs| && i < |rs|
    requires t.clauseIDs == Counting(0, |Clauses(rs, |rs|)|)
    requires t.clauseStarts[i] == |Clauses(rs, i)| && t.clauseCounts[i] == |rs[i].clauses|
    ensures ClauseRange(t, i) == Counting(|Clauses(rs, i)|, |rs[i].clauses|)
  {
    hide Clauses, Counting;
    ClausesSplit(rs, i);
    CountingSlice(|Clauses(rs, i)|, |rs[i].clauses|, |Clauses(rs, |rs|)|);
  }

  lemma {:induction false} ClausesSplit(rs: seq<Requirement>, i: nat)
    requires i < |rs|
    ensures |Clauses(rs, i)| + |rs[i].clauses| <= |Clauses(rs, |rs|)|
  {
    hide PolicyNodes;
    PolicyNodesGrow(rs, i + 1, |rs|);
    assert |Clauses(rs, i + 1)| == |Clauses(rs, i)| + |rs[i].clauses|;
  }

  lemma {:induction false} CountingSlice(base: nat, n: nat, total: nat)
    requires base + n <= total
    ensures Counting(0, total)[base..base + n] == Counting(base, n)
  {}

  // ----- findings agree

  lemma {:induction false} IssueFieldAgrees(t: SymbolTable, request: Request, pack: seq<Evidence>, f: nat)
    requires 1 <= f <= FIELD_COUNT
    ensures IssueField(SymbolicRow(t, request, pack), f) == FirstIssue(request, f)
    decreases FIELD_COUNT - f
  {
    hide SymbolicRow, FieldIssue, LookupSymbol, Request.Field;
    if f < FIELD_COUNT {
      SymbolicRowAt(t, request, pack, f);
      IssueFieldAgrees(t, request, pack, f + 1);
    }
  }

  lemma {:induction false} SemanticsAgree(t: SymbolTable, request: Request, pack: seq<Evidence>)
    ensures RowSemantics(SymbolicRow(t, request, pack)) == SemanticFindings(request)
  {
    hide SymbolicRow, FieldIssue, LookupSymbol, Request.Field;
    IssueFieldAgrees(t, request, pack, FIELD_REQUESTER);
    var f := FirstIssue(request, FIELD_REQUESTER);
    FirstIssueRange(request, FIELD_REQUESTER);
    if f != 0 { SymbolicRowAt(t, request, pack, f); }
  }

  lemma {:induction false} FirstIssueRange(request: Request, f: nat)
    requires f <= FIELD_COUNT
    ensures var g := FirstIssue(request, f); g == 0 || (f <= g < FIELD_COUNT && FieldIssue(request, g))
    decreases FIELD_COUNT - f
  {
    if f < FIELD_COUNT { FirstIssueRange(request, f + 1); }
  }

  lemma {:induction false} ReferencesAgree(pack: seq<Evidence>, ids: seq<string>, refs: seq<nat>, k: nat)
    requires |refs| == |ids| && k <= |ids|
    requires forall j :: 0 <= j < |ids| ==> refs[j] == Resolve(pack, ids[j])
    ensures RowReferences(refs, k) == ReferenceFindings(pack, ids, k)
  {
    if k > 0 { ReferencesAgree(pack, ids, refs, k - 1); }
  }

  lemma {:induction false} AppliesAgrees(p: Program, syms: seq<string>, policy: Policy, i: nat, request: Request,
                                         pack: seq<Evidence>)
    requires Linked(p, syms, policy) && i < |policy.requirements|
    ensures i < |p.tables.requirementSymbols|
    ensures RowApplies(p, ViewRow(p, request, pack), ViewRecords(p, pack), i)
         == Applies(policy.requirements[i], request, pack)
  {
    hide Codes, Spells, Interned, KindsCoded, ClausesCoded, RemediationsCoded, ExpressionValid, SymbolicRow,
         SymbolicRecords, CodeSafe, VerdictAt, EvalExpression, Trim;
    var r := policy.requirements[i];
    assert RequirementValid(r);
    assert RequirementCoded(p.code, p.tables, syms, i, r, |Clauses(policy.requirements, i)|);
    CompiledExpressionMeans(p.symbols, p.code, syms, p.tables.applicabilityRoots[i], r.applicability, 1, false,
                            request, pack);
  }

  /** Clause k of the policy, by number. */
  lemma {:induction false} ClauseIsValid(rs: seq<Requirement>, n: nat, k: nat)
    requires n <= |rs| && k < |Clauses(rs, n)|
    requires forall i :: 0 <= i < |rs| ==> RequirementValid(rs[i])
    ensures ClauseValid(Clauses(rs, n)[k])
  {
    hide ClauseValid, ExpressionValid, Trim;
    if k < |Clauses(rs, n - 1)| { ClauseIsValid(rs, n - 1, k); } else { assert RequirementValid(rs[n - 1]); }
  }

  /** The 16-bit id of a source requirement is its number. */
  lemma {:induction false} RequirementNumberFits(policy: Policy, i: nat)
    requires PolicyValid(policy) && i < |policy.requirements|
    ensures U16(i + 1) == i + 1
  {
    hide PolicyValid;
    RequirementCount(policy);
    NarrowingLossless(i + 1);
  }

  /** The finding of clause k as the reference states it. */
  function SourceFinding(c: Clause, i: nat, id: nat, request: Request, pack: seq<Evidence>): Finding {
    var reason := EvalExpression(c.assertion, request, pack).reason;
    Finding(OutcomeID(c.resolution.At(reason)), DRIVER_CLAUSE, i + 1, id, reason, 0, 0)
  }

  lemma {:induction false} ReasonAgrees(p: Program, syms: seq<string>, policy: Policy, k: nat, request: Request,
                                        pack: seq<Evidence>)
    requires Linked(p, syms, policy) && k < |Clauses(policy.requirements, |policy.requirements|)|
    ensures k < |p.tables.clauseSymbols|
    ensures ClauseReason(p, ViewRow(p, request, pack), ViewRecords(p, pack), k + 1)
         == EvalExpression(Clauses(policy.requirements, |policy.requirements|)[k].assertion, request, pack).reason
  {
    hide Codes, Spells, Interned, KindsCoded, RequirementsCoded, RemediationsCoded, ExpressionValid,
         SymbolicRow, SymbolicRecords, CodeSafe, VerdictAt, EvalExpression, Trim, KindsListed, StateCoded,
         ResolutionValid;
    var rs := policy.requirements;
    var cs := Clauses(rs, |rs|);
    ClauseIsValid(rs, |rs|, k);
    assert ClauseCoded(p.code, p.tables, p.catalogues.explanationSymbols, syms, k, cs[k], |Remediations(cs, k)|);
    CompiledExpressionMeans(p.symbols, p.code, syms, p.tables.assertionRoots[k], cs[k].assertion, 1, true, request, pack);
  }

  lemma {:induction false} ClauseFindingAgrees(p: Program, syms: seq<string>, policy: Policy, i: nat, k: nat,
                                               request: Request, pack: seq<Evidence>)
    requires Linked(p, syms, policy) && k < |Clauses(policy.requirements, |policy.requirements|)|
    requires i < |policy.requirements|
    ensures k < |p.tables.clauseSymbols|
    ensures ClauseFinding(p, ViewRow(p, request, pack), ViewRecords(p, pack), i, k + 1)
         == SourceFinding(Clauses(policy.requirements, |policy.requirements|)[k], i, k + 1, request, pack)
  {
    hide Codes, HeaderCoded, RequirementsCoded, RemediationsCoded, ViewRow, ViewRecords, EvalExpression,
         KindsListed, ClauseReason, TextCoded, PolicyValid, States.At, OutcomeID, Executable;
    var rs := policy.requirements;
    var cs := Clauses(rs, |rs|);
    ReasonAgrees(p, syms, policy, k, request, pack);
    RequirementNumberFits(policy, i);
    assert ClauseCoded(p.code, p.tables, p.catalogues.explanationSymbols, syms, k, cs[k], |Remediations(cs, k)|);
    assert StateCoded(p.tables, syms, p.catalogues.explanationSymbols, k,
                      ClauseReason(p, ViewRow(p, request, pack), ViewRecords(p, pack), k + 1), cs[k]);
  }

  // ----- decisions agree

  lemma {:induction false} ClauseFindingsAgree(p: Program, syms: seq<string>, policy: Policy, i: nat, k: nat,
                                               request: Request, pack: seq<Evidence>)
    requires Linked(p, syms, policy)
    requires i < |policy.requirements| && k <= |policy.requirements[i].clauses|
    ensures i < |p.tables.requirementSymbols| && |ClauseRange(p.tables, i)| == |policy.requirements[i].clauses|
    ensures RowClauses(p, ViewRow(p, request, pack), ViewRecords(p, pack), i, k)
         == ClauseFindings(policy.requirements, i, k, request, pack)
  {
    hide HeaderCoded, ClausesCoded, RemediationsCoded, ViewRow, ViewRecords, EvalExpression, PolicyValid,
         CodeSafe, ClauseFinding, Codes, RequirementSafe, ClauseSafe, Clauses, Remediations, Counting,
         ClauseRange, States.At, OutcomeID;
    var rs := policy.requirements;
    assert RequirementCoded(p.code, p.tables, syms, i, rs[i], |Clauses(rs, i)|);
    ClauseRangeIsCounting(p.tables, rs, i);
    if k > 0 {
      ClauseFindingsAgree(p, syms, policy, i, k - 1, request, pack);
      ClauseNumbers(rs, i, k - 1);
      ClauseFindingAgrees(p, syms, policy, i, |Clauses(rs, i)| + k - 1, request, pack);
    }
  }

  lemma {:induction false} RequirementFindingsAgree(p: Program, syms: seq<string>, policy: Policy, k: nat,
                                                    request: Request, pack: seq<Evidence>)
    requires Linked(p, syms, policy) && k <= |policy.requirements|
    ensures k <= |p.tables.requirementSymbols|
    ensures RowRequirements(p, ViewRow(p, request, pack), ViewRecords(p, pack), k)
         == RequirementFindings(policy.requirements, k, request, pack)
    ensures RowApplied(p, ViewRow(p, request, pack), ViewRecords(p, pack), k)
         == Applied(policy.requirements, k, request, pack)
  {
    hide PolicyCoded, ViewRow, ViewRecords, PolicyValid, RowApplies, Applies, RowClauses, ClauseFindings,
         Executable, ClauseRange;
    if k > 0 {
      RequirementNumberFits(policy, k - 1);
      RequirementFindingsAgree(p, syms, policy, k - 1, request, pack);
      AppliesAgrees(p, syms, policy, k - 1, request, pack);
      ClauseFindingsAgree(p, syms, policy, k - 1, |policy.requirements[k - 1].clauses|, request, pack);
    } else {
    }
  }

  lemma {:induction false} FindingsAgree(p: Program, syms: seq<string>, policy: Policy, request: Request,
                                         pack: seq<Evidence>)
    requires Linked(p, syms, policy)
    ensures RowFindings(p, ViewRow(p, request, pack), ViewRecords(p, pack)) == AllFindings(policy, request, pack)
  {
    hide SymbolicRecords, PolicyValid, RowRequirements, RowApplied, RowReferences, RowSemantics, Executable,
         HeaderCoded, RequirementsCoded, ClausesCoded, RemediationsCoded;
    SemanticsAgree(p.symbols, request, pack);
    ReferencesAgree(pack, request.evidenceIDs, ViewRow(p, request, pack).refs, |request.evidenceIDs|);
    RequirementFindingsAgree(p, syms, policy, |policy.requirements|, request, pack);
  }

  /** A kind is in the range of clause k exactly when the clause's assertion names its text. */
  lemma {:induction false} KindRangeAgrees(p: Program, syms: seq<string>, policy: Policy, k: nat, text: string)
    requires Linked(p, syms, policy) && k < |Clauses(policy.requirements, |policy.requirements|)|
    ensures k < |p.tables.clauseSymbols|
    ensures var kind := NarrowedKind(p.symbols, p.code.evidenceKindSymbols, text);
      kind in KindRange(p.tables, k)
      <==> NamesKind(Clauses(policy.requirements, |policy.requirements|)[k].assertion, text)
  {
    hide Codes, Spells, Interned, KindsCoded, RequirementsCoded, RemediationsCoded, ExpressionValid, CodeSafe,
         Trim, StateCoded, ResolutionValid, NarrowedKind, LookupSymbol, KindNames, AddKinds, NamesKind;
    var rs := policy.requirements;
    var cs := Clauses(rs, |rs|);
    ClauseIsValid(rs, |rs|, k);
    assert ClauseCoded(p.code, p.tables, p.catalogues.explanationSymbols, syms, k, cs[k], |Remediations(cs, k)|);
    var kind := NarrowedKind(p.symbols, p.code.evidenceKindSymbols, text);
    var texts := AddKinds([], cs[k].assertion);
    AddKindsMembers([], cs[k].assertion, 1, text);
    forall j | 0 <= j < |texts|
      ensures KindRange(p.tables, k)[j] == kind <==> texts[j] == text
    {
      KindEquality(p.symbols, p.code, syms, text, p.tables.evidenceKinds[p.tables.evidenceKindStarts[k] + j], texts[j]);
    }
  }

  lemma {:induction false} AsksAgrees(p: Program, syms: seq<string>, policy: Policy, i: nat, text: string)
    requires Linked(p, syms, policy) && i < |policy.requirements|
    ensures i < |p.tables.requirementSymbols|
    ensures RequirementAsks(p.tables, i,
              NarrowedKind(p.symbols, p.code.evidenceKindSymbols, text))
         == ClauseNames(policy.requirements[i], text)
  {
    hide HeaderCoded, ClausesCoded, RemediationsCoded, PolicyValid, Executable, NarrowedKind, LookupSymbol,
         KindRange, NamesKind, Codes, Clauses, ClauseRange, TablesAligned, Remediations;
    var rs, t := policy.requirements, p.tables;
    var kind := NarrowedKind(p.symbols, p.code.evidenceKindSymbols, text);
    assert RequirementCoded(p.code, t, syms, i, rs[i], |Clauses(rs, i)|);
    ClauseRangeIsCounting(t, rs, i);
    forall j | 0 <= j < |rs[i].clauses|
      ensures ClauseAsks(t, ClauseRange(t, i)[j], kind) == NamesKind(rs[i].clauses[j].assertion, text)
    {
      ClauseNumbers(rs, i, j);
      KindRangeAgrees(p, syms, policy, |Clauses(rs, i)| + j, text);
    }
  }

  lemma {:induction false} AppliedMembers(rs: seq<Requirement>, k: nat, request: Request, pack: seq<Evidence>)
    requires k <= |rs|
    ensures forall i :: 0 <= i < k ==> (i + 1 in Applied(rs, k, request, pack) <==> Applies(rs[i], request, pack))
  {
    hide Applies;
    if k > 0 { AppliedMembers(rs, k - 1, request, pack); }
  }

  lemma {:induction false} AskedAgrees(p: Program, syms: seq<string>, policy: Policy, request: Request,
                                       pack: seq<Evidence>, text: string)
    requires Linked(p, syms, policy)
    ensures TablesAligned(p.tables)
    ensures Asked(p.tables, Applied(policy.requirements, |policy.requirements|, request, pack),
                  NarrowedKind(p.symbols, p.code.evidenceKindSymbols, text))
         == KindRequired(policy, request, pack, text)
  {
    hide HeaderCoded, RequirementsCoded, RemediationsCoded, PolicyValid, ClausesCoded, CodeSafe, NarrowedKind,
         LookupSymbol, Applies, RequirementAsks, ClauseNames, Applied, RequirementSafe, ClauseSafe;
    var rs := policy.requirements;
    var applied := Applied(rs, |rs|, request, pack);
    var kind := NarrowedKind(p.symbols, p.code.evidenceKindSymbols, text);
    AppliedMembers(rs, |rs|, request, pack);
    forall i | 0 <= i < |rs|
      ensures RequirementAsks(p.tables, i, kind) == ClauseNames(rs[i], text)
    {
      AsksAgrees(p, syms, policy, i, text);
    }
    if Asked(p.tables, applied, kind) {
      var k :| 0 <= k < |applied| && AskedBy(p.tables, applied[k], kind);
      var i := applied[k] - 1;
      assert i + 1 in applied;
      assert Applies(rs[i], request, pack) && ClauseNames(rs[i], text);
    }
    if KindRequired(policy, request, pack, text) {
      var i :| 0 <= i < |rs| && Applies(rs[i], request, pack) && ClauseNames(rs[i], text);
      assert i + 1 in applied;
      var k :| 0 <= k < |applied| && applied[k] == i + 1;
      AskedKindExists(p, syms, policy, i, text);
      assert AskedBy(p.tables, applied[k], kind);
    }
  }

  /** A kind that some clause names has an id. */
  lemma {:induction false} AskedKindExists(p: Program, syms: seq<string>, policy: Policy, i: nat, text: string)
    requires Linked(p, syms, policy) && i < |policy.requirements| && ClauseNames(policy.requirements[i], text)
    ensures NarrowedKind(p.symbols, p.code.evidenceKindSymbols, text) != 0
  {
    hide Codes, Spells, Interned, KindsCoded, RequirementsCoded, RemediationsCoded, ExpressionValid, CodeSafe,
         Trim, StateCoded, ResolutionValid, NarrowedKind, LookupSymbol, AddKinds, NamesKind, KindRange;
    var rs := policy.requirements;
    var cs := Clauses(rs, |rs|);
    var j :| 0 <= j < |rs[i].clauses| && NamesKind(rs[i].clauses[j].assertion, text);
    ClauseNumbers(rs, i, j);
    var k := |Clauses(rs, i)| + j;
    assert ClauseCoded(p.code, p.tables, p.catalogues.explanationSymbols, syms, k, cs[k], |Remediations(cs, k)|);
    KindRangeAgrees(p, syms, policy, k, text);
    KindRangeNonZero(p, syms, k, cs[k], |Remediations(cs, k)|);
  }

  lemma {:induction false} KindRangeNonZero(p: Program, syms: seq<string>, k: nat, c: Clause, before: nat)
    requires TablesAligned(p.tables) && k < |p.tables.clauseSymbols|
    requires ClauseCoded(p.code, p.tables, p.catalogues.explanationSymbols, syms, k, c, before)
    ensures 0 !in KindRange(p.tables, k)
  {
    hide Codes, StateCoded, AddKinds;
    var t := p.tables;
    forall j | 0 <= j < |KindRange(t, k)|
      ensures KindRange(t, k)[j] != 0
    {
      assert KindNames(p.code, syms, t.evidenceKinds[t.evidenceKindStarts[k] + j], AddKinds([], c.assertion)[j]);
    }
  }

  lemma {:induction false} ViewReferences(p: Program, request: Request, pack: seq<Evidence>)
    ensures |ViewRow(p, request, pack).refs| == |request.evidenceIDs|
    ensures forall k :: 0 <= k < |request.evidenceIDs| ==>
      ViewRow(p, request, pack).refs[k] == Resolve(pack, request.evidenceIDs[k])
    ensures |ViewRecords(p, pack)| == |pack|
    ensures forall i :: 0 <= i < |pack| ==>
      (ViewRecords(p, pack)[i].kind == NarrowedKind(p.symbols, p.code.evidenceKindSymbols, pack[i].kind))
  {
    hide SymbolicCell, SymbolicMark, NarrowedKind, LookupSymbol, Resolve;
  }

  lemma {:induction false} UsedAgrees(p: Program, syms: seq<string>, policy: Policy, request: Request,
                                      pack: seq<Evidence>, k: nat)
    requires Linked(p, syms, policy) && k <= |request.evidenceIDs|
    ensures TablesAligned(p.tables)
    ensures RowUsed(p.tables, ViewRecords(p, pack), Applied(policy.requirements, |policy.requirements|, request, pack),
                    ViewRow(p, request, pack).refs, k)
         == Used(policy, request, pack, k)
  {
    hide PolicyCoded, PolicyValid, CodeSafe, NarrowedKind, LookupSymbol, Applied, Asked, KindRequired, ViewRow,
         ViewRecords, RequirementSafe, ClauseSafe, Executable, Resolve;
    ViewReferences(p, request, pack);
    NumberingSizes(p, syms, policy);
    if k > 0 {
      UsedAgrees(p, syms, policy, request, pack, k - 1);
      var r := Resolve(pack, request.evidenceIDs[k - 1]);
      if r != 0 {
        AskedAgrees(p, syms, policy, request, pack, pack[r - 1].kind);
      }
    }
  }

  lemma {:induction false} RemediationsSplit(cs: seq<Clause>, k: nat)
    requires k < |cs|
    ensures |Remediations(cs, k)| + |cs[k].remediations| <= |Remediations(cs, |cs|)|
  {
    RemediationNumbersGrow(cs, k + 1, |cs|);
    assert |Remediations(cs, k + 1)| == |Remediations(cs, k)| + |cs[k].remediations|;
  }

  lemma {:induction false} RemediationAgrees(p: Program, syms: seq<string>, policy: Policy, w: Finding)
    requires Linked(p, syms, policy)
    ensures TablesAligned(p.tables)
    ensures RowRemediation(p.tables, w)
         == RemediationNumbers(Clauses(policy.requirements, |policy.requirements|), w)
  {
    hide HeaderCoded, RequirementsCoded, RemediationsCoded, PolicyValid, CodeSafe, KindsListed, StateCoded,
         Codes, Counting, RequirementSafe, ClauseSafe, Remediations, Clauses;
    var rs, t := policy.requirements, p.tables;
    var cs := Clauses(rs, |rs|);
    if w.outcome == OUTCOME_REVISE && w.kind == DRIVER_CLAUSE && ValidID(w.clause, |t.clauseSymbols|) {
      var k := w.clause - 1;
      assert ClauseCoded(p.code, t, p.catalogues.explanationSymbols, syms, k, cs[k], |Remediations(cs, k)|);
      RemediationsSplit(cs, k);
      CountingSlice(|Remediations(cs, k)|, |cs[k].remediations|, |Remediations(cs, |cs|)|);
    }
  }

  /** End to end: resolving the symbolic view of a request with the compiled program gives the
      decision of the reference procedure on the source policy and the raw strings. */
  lemma {:induction false} CompiledDecisionMeans(p: Program, syms: seq<string>, policy: Policy, request: Request,
                                                 pack: seq<Evidence>)
    requires Linked(p, syms, policy)
    ensures RowDecision(p, ViewRow(p, request, pack), ViewRecords(p, pack)) == Decide(policy, request, pack)
  {
    hide PolicyValid, CodeSafe, TablesSafe, Spells, Interned, KindsCoded, NumberingCoded, RequirementsCoded,
         ClausesCoded, RemediationsCoded, RowFindings, AllFindings, RowApplied, Applied, RowUsed, Used,
         ViewRecords;
    FindingsAgree(p, syms, policy, request, pack);
    RowFindingsKnown(p, ViewRow(p, request, pack), ViewRecords(p, pack));
    RequirementFindingsAgree(p, syms, policy, |policy.requirements|, request, pack);
    UsedAgrees(p, syms, policy, request, pack, |request.evidenceIDs|);
    RemediationAgrees(p, syms, policy, Best(COMPILED_PRECEDENCE, AllFindings(policy, request, pack)));
    NumberingSizes(p, syms, policy);
  }

  lemma {:induction false} NumberingSizes(p: Program, syms: seq<string>, policy: Policy)
    requires PolicyCoded(p, syms, policy)
    ensures |p.tables.requirementSymbols| == |policy.requirements|
    ensures TablesAligned(p.tables)
  {}
}
