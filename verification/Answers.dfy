/** The answer to one request stated on the source policy and the raw strings, and why decoding the
    compiled program's decision gives it. */
module Answers {
  import opened Schema
  import opened Ast
  import opened Findings
  import opened Reference
  import opened Programs
  import opened Rows
  import opened Lowering
  import opened Resolution
  import opened Coding
  import opened Rendering
  import opened Totality
  import opened Evaluator

  /** Some comparison inside e reads the field. */
  predicate MentionsField(e: Expression, f: nat)
    decreases e
  {
    || ((e.op.Equal? || e.op.In?) && LookupField(e.field) == f)
    || (e.op.All? && exists i :: 0 <= i < |e.children| && MentionsField(e.children[i], f))
  }

  function ClauseAnswer(c: Clause, reason: nat): Message {
    var text, kinds := Explained(c.explanations.At(reason)), AddKinds([], c.assertion);
    if kinds == [] then Message(text, NoNote, NoDoubt)
    else if reason == REASON_FALSE && MentionsField(c.assertion, FIELD_ENVIRONMENT) then
      Message(text, WrongEnvironment(kinds[0]), EnvironmentDoubt)
    else StateMessage(text, kinds[0], reason)
  }

  function DriverAnswer(cs: seq<Clause>, request: Request, w: Finding): Message {
    if w.kind == DRIVER_SEMANTIC then Message(SemanticProblem(request, w.field), NoNote, ValuesDoubt)
    else if w.kind == DRIVER_MISSING_REFERENCE && 1 <= w.edge <= |request.evidenceIDs| then
      var id := request.evidenceIDs[w.edge - 1];
      Message(LostReference(id), LostRecord(id), RecordDoubt)
    else if w.kind == DRIVER_NO_APPLICABLE then Message(NoRequirement, NoNote, RequirementDoubt)
    else if w.kind == DRIVER_CLAUSE && 1 <= w.clause <= |cs| then ClauseAnswer(cs[w.clause - 1], w.reason)
    else Message(AllSatisfied, NoNote, NoDoubt)
  }

  function AnswerItem(r: Remediation): Item {
    if r.action.AddEvidence? then Item("add_evidence", r.evidenceKind, r.description, "", "")
    else Item("set_field", "", "", r.field, r.value)
  }

  /** A Revise driver offers exactly the remediations of its own clause. */
  function Offered(cs: seq<Clause>, w: Finding): seq<Item> {
    if w.outcome == OUTCOME_REVISE && w.kind == DRIVER_CLAUSE && 1 <= w.clause <= |cs|
    then var ms := cs[w.clause - 1].remediations; seq(|ms|, j requires 0 <= j < |ms| => AnswerItem(ms[j]))
    else []
  }

  function AppliedNames(rs: seq<Requirement>, ns: seq<nat>): seq<string>
    requires AllValidIDs(ns, |rs|)
  {
    seq(|ns|, j requires 0 <= j < |ns| => rs[ns[j] - 1].id)
  }

  /** The whole answer, by walking the policy. */
  function Answer(policy: Policy, request: Request, pack: seq<Evidence>): Report {
    var rs := policy.requirements;
    var cs, d := Clauses(rs, |rs|), Decide(policy, request, pack);
    var m := DriverAnswer(cs, request, d.driver);
    MembersAreIDs(d.applied, |rs|);
    MembersAreIDs(d.used, |pack|);
    Report(request.id, OutcomeName(d.driver.outcome), m.rationale, AppliedNames(rs, d.applied), RecordNames(pack, d.used),
           Entries(m.note, NoNote), [FieldsAreFaithful], Entries(m.doubt, NoDoubt), Offered(cs, d.driver))
  }

  lemma {:induction false} MembersAreIDs(ns: seq<nat>, count: nat)
    requires forall n :: n in ns ==> 1 <= n <= count
    ensures AllValidIDs(ns, count)
  {
    assert forall i :: 0 <= i < |ns| ==> ns[i] in ns;
  }

  // ----- field mentions agree

  lemma {:induction false} FieldUseAgrees(c: Code, n: nat, syms: seq<string>, id: nat, e: Expression, f: nat)
    requires CodeValid(c, n) && CodeSafe(c) && Codes(c, syms, id, e) && f != 0
    ensures InstructionUsesField(c, id, f) == MentionsField(e, f)
    decreases e, |e.children| + 1
  {
    hide LookupField, Names, SpecCodes, StepSafe;
    assert InstructionValid(c, n, id - 1);
    if e.op.All? {
      OperandUseAgrees(c, n, syms, id, e, |e.children|, f);
    }
  }

  lemma {:induction false} OperandUseAgrees(c: Code, n: nat, syms: seq<string>, id: nat, e: Expression, k: nat, f: nat)
    requires CodeValid(c, n) && CodeSafe(c) && Codes(c, syms, id, e) && e.op.All? && k <= |e.children| && f != 0
    ensures OperandsUseField(c, id, k, f) == exists i :: 0 <= i < k && MentionsField(e.children[i], f)
    decreases e, k
  {
    hide MentionsField, InstructionUsesField, InstructionValid, AllValidIDs, SpecValid;
    if k > 0 {
      assert StepSafe(c, id - 1) && OperandValid(c, id - 1, k - 1);
      OperandUseAgrees(c, n, syms, id, e, k - 1, f);
      FieldUseAgrees(c, n, syms, c.operands[c.operandStarts[id - 1] + k - 1], e.children[k - 1], f);
    }
  }

  // ----- texts agree

  lemma {:induction false} NamedText(t: SymbolTable, syms: seq<string>, id: nat, text: string)
    requires Spells(t, syms) && Names(syms, id, text)
    ensures Symbol(t, id) == text
  {
    hide Symbol, SpellsAt;
    SymbolsSpelled(t, syms);
    if text == "" { ZeroSymbol(t); }
  }

  lemma {:induction false} ZeroSymbol(t: SymbolTable)
    ensures Symbol(t, 0) == ""
  {}

  lemma {:induction false} CodedText(p: Program, syms: seq<string>, id: nat, text: string)
    requires Spells(p.symbols, syms) && TextCoded(syms, p.catalogues.explanationSymbols, id, text)
    ensures ExplanationText(p, id) == text
  {
    hide Symbol, Spells;
    if text != "" { NamedText(p.symbols, syms, p.catalogues.explanationSymbols[id - 1], text); }
  }

  lemma {:induction false} CodedKind(p: Program, syms: seq<string>, kind: nat, text: string)
    requires Spells(p.symbols, syms) && KindNames(p.code, syms, kind, text)
    ensures EvidenceKindName(p, kind) == text
  {
    hide Symbol, Spells;
    NamedText(p.symbols, syms, p.code.evidenceKindSymbols[kind - 1], text);
  }

  lemma {:induction false} ClauseMessageAgrees(p: Program, syms: seq<string>, policy: Policy, k: nat, reason: nat)
    requires Linked(p, syms, policy) && CodeValid(p.code, |p.symbols.starts|)
    requires k < |Clauses(policy.requirements, |policy.requirements|)| && 1 <= reason <= REASON_COUNT
    ensures k < |p.tables.clauseSymbols|
    ensures ClauseMessage(p, k, reason) == ClauseAnswer(Clauses(policy.requirements, |policy.requirements|)[k], reason)
  {
    hide Codes, Spells, Interned, KindsCoded, RequirementsCoded, RemediationsCoded, PolicyValid, CodeSafe,
         KindNames, AddKinds, StateMessage, ExplanationText, EvidenceKindName, InstructionUsesField,
         MentionsField, TextCoded, CodeValid, Clauses, Remediations, States.At, OutcomeID, StateIndex,
         RequirementSafe, StateSafe;
    var rs := policy.requirements;
    var c, before := Clauses(rs, |rs|)[k], |Remediations(Clauses(rs, |rs|), k)|;
    assert ClauseCoded(p.code, p.tables, p.catalogues.explanationSymbols, syms, k, c, before);
    assert StateCoded(p.tables, syms, p.catalogues.explanationSymbols, k, reason, c);
    CodedText(p, syms, p.tables.explanationIDs[StateIndex(k, reason)], c.explanations.At(reason));
    FieldUseAgrees(p.code, |p.symbols.starts|, syms, p.tables.assertionRoots[k], c.assertion, FIELD_ENVIRONMENT);
    var kinds := AddKinds([], c.assertion);
    if kinds != [] {
      assert KindNames(p.code, syms, p.tables.evidenceKinds[p.tables.evidenceKindStarts[k] + 0], kinds[0]);
      CodedKind(p, syms, p.tables.evidenceKinds[p.tables.evidenceKindStarts[k]], kinds[0]);
    }
  }

  lemma {:induction false} ItemAgrees(p: Program, syms: seq<string>, s: RemediationSpec, r: Remediation)
    requires Spells(p.symbols, syms) && RemediationCoded(p.code, p.catalogues.explanationSymbols, syms, s, r)
    requires RemediationValid(r)
    ensures RenderItem(p, s) == AnswerItem(r)
  {
    hide Trim, ValidFieldValue, ValidEvidenceKind, Symbol, Spells, KindNames, TextCoded, LookupField,
         FieldName, ExplanationText, EvidenceKindName;
    CodedText(p, syms, s.description, r.description);
    if r.action.AddEvidence? {
      CodedKind(p, syms, s.evidenceKind, r.evidenceKind);
    } else {
      NamedText(p.symbols, syms, s.value, r.value);
      FieldNameAgrees(r);
    }
  }

  lemma {:induction false} FieldNameAgrees(r: Remediation)
    requires RemediationValid(r) && r.action.SetField?
    ensures FieldName(LookupField(r.field)) == r.field
  {
    hide Trim, ValidFieldValue;
    FieldNameOfLookup(r.field);
  }

  /** A remediation keeps its place in the policy-wide list. */
  lemma {:induction false} RemediationPlace(cs: seq<Clause>, n: nat, k: nat, j: nat)
    requires k < n <= |cs| && j < |cs[k].remediations|
    ensures |Remediations(cs, k)| + j < |Remediations(cs, n)|
    ensures Remediations(cs, n)[|Remediations(cs, k)| + j] == cs[k].remediations[j]
  {
    if k + 1 < n { RemediationPlace(cs, n - 1, k, j); }
  }

  lemma {:induction false} OfferedAgrees(p: Program, syms: seq<string>, policy: Policy, w: Finding)
    requires Linked(p, syms, policy)
    ensures TablesAligned(p.tables)
    ensures var ids := RowRemediation(p.tables, w);
      AllValidIDs(ids, |p.catalogues.remediations|) && RenderItems(p, ids) == Offered(Clauses(policy.requirements,
          |policy.requirements|), w)
  {
    hide Spells, Interned, KindsCoded, RequirementsCoded, RemediationCoded, CodeSafe, Codes, RequirementSafe,
         ClauseSafe, Remediations, Clauses, ClausesCoded, RenderItem, AnswerItem, RowRemediation, PolicyValid,
         Counting;
    var rs := policy.requirements;
    var cs := Clauses(rs, |rs|);
    var ids := RowRemediation(p.tables, w);
    RemediationAgrees(p, syms, policy, w);
    if w.outcome == OUTCOME_REVISE && w.kind == DRIVER_CLAUSE && 1 <= w.clause <= |cs| {
      var k := w.clause - 1;
      forall j | 0 <= j < |ids|
        ensures ValidID(ids[j], |p.catalogues.remediations|)
        ensures RenderItem(p, p.catalogues.remediations[ids[j] - 1]) == AnswerItem(cs[k].remediations[j])
      {
        OfferedItemAgrees(p, syms, policy, k, j);
      }
    }
  }

  lemma {:induction false} OfferedItemAgrees(p: Program, syms: seq<string>, policy: Policy, k: nat, j: nat)
    requires Linked(p, syms, policy)
    requires var cs := Clauses(policy.requirements, |policy.requirements|); k < |cs| && j < |cs[k].remediations|
    ensures var cs := Clauses(policy.requirements, |policy.requirements|);
      var x := |Remediations(cs, k)| + j;
      x < |p.catalogues.remediations| && RenderItem(p, p.catalogues.remediations[x]) == AnswerItem(cs[k].remediations[j])
  {
    hide Spells, Interned, KindsCoded, RequirementsCoded, RemediationCoded, Executable, Codes, Remediations,
         Clauses, ClausesCoded, RenderItem, AnswerItem, Trim, ExpressionValid, RemediationValid, StateValid;
    var rs := policy.requirements;
    var cs := Clauses(rs, |rs|);
    var x := |Remediations(cs, k)| + j;
    RemediationPlace(cs, |cs|, k, j);
    ClauseIsValid(rs, |rs|, k);
    ItemAgrees(p, syms, p.catalogues.remediations[x], cs[k].remediations[j]);
  }

  lemma {:induction false} AppliedNamesAgree(p: Program, syms: seq<string>, policy: Policy, ns: seq<nat>)
    requires Linked(p, syms, policy) && AllValidIDs(ns, |policy.requirements|)
    ensures AllValidIDs(ns, |p.tables.requirementSymbols|)
    ensures RequirementNames(p, ns) == AppliedNames(policy.requirements, ns)
  {
    hide Spells, Interned, KindsCoded, ClausesCoded, RemediationsCoded, Executable, PolicyValid, Codes, Symbol,
         Clauses, Remediations;
    var rs := policy.requirements;
    forall j | 0 <= j < |ns|
      ensures Symbol(p.symbols, p.tables.requirementSymbols[ns[j] - 1]) == rs[ns[j] - 1].id
    {
      var i := ns[j] - 1;
      assert RequirementCoded(p.code, p.tables, syms, i, rs[i], |Clauses(rs, i)|);
      NamedText(p.symbols, syms, p.tables.requirementSymbols[i], rs[i].id);
    }
  }

  lemma {:induction false} DriverMessageAgrees(p: Program, syms: seq<string>, policy: Policy, request: Request, w: Finding)
    requires Linked(p, syms, policy) && CodeValid(p.code, |p.symbols.starts|)
    requires DriverPrintable(p, request, |request.evidenceIDs|, w)
    ensures DriverMessage(p, request, |request.evidenceIDs|, w)
         == DriverAnswer(Clauses(policy.requirements, |policy.requirements|), request, w)
  {
    hide HeaderCoded, RequirementsCoded, RemediationsCoded, ClausesCoded, PolicyValid, CodeValid, CodeSafe,
         ClauseMessage, ClauseAnswer, Clauses, Remediations, Counting, ExplanationText, RequirementSafe,
         ClauseSafe, SemanticProblem;
    if w.kind == DRIVER_CLAUSE { ClauseMessageAgrees(p, syms, policy, w.clause - 1, w.reason); }
  }

  /** A compiled program has at most 2048 requirements. */
  lemma {:induction false} CompiledIDsFit(p: Program, syms: seq<string>, policy: Policy)
    requires Linked(p, syms, policy)
    ensures RequirementIDsFit(p)
  {
    hide PolicyValid, HeaderCoded, RequirementsCoded, ClausesCoded, RemediationsCoded, Executable;
    RequirementCount(policy);
    NumberingSizes(p, syms, policy);
  }

  /** Decoding the decision of the compiled program gives the answer that walking the policy gives. */
  lemma {:induction false} CompiledAnswerMeans(p: Program, syms: seq<string>, policy: Policy, request: Request,
                                               pack: seq<Evidence>)
    requires Linked(p, syms, policy) && ProgramValid(p)
    ensures var edges, d := |request.evidenceIDs|, RowDecision(p, ViewRow(p, request, pack), ViewRecords(p, pack));
      Printable(p, request, pack, edges, d) && Render(p, request, pack, edges, d) == Answer(policy, request, pack)
  {
    hide PolicyCoded, PolicyValid, CodeValid, TablesValid, CataloguesValid, SymbolsValid, Executable, ViewRow,
         ViewRecords, AllFindings, RowDecision, Applied, Used, DriverPrintable, DriverMessage, DriverAnswer,
         RequirementNames, AppliedNames, RecordNames, RenderItems, Offered, RowRemediation, RemediationNumbers,
         Best, Clauses, AllValidIDs, OutcomeName;
    var d := RowDecision(p, ViewRow(p, request, pack), ViewRecords(p, pack));
    CompiledDecisionMeans(p, syms, policy, request, pack);
    ViewReferences(p, request, pack);
    CompiledIDsFit(p, syms, policy);
    DecisionsArePrintable(p, ViewRow(p, request, pack), ViewRecords(p, pack), request, pack);
    DecisionRemediation(p, ViewRow(p, request, pack), ViewRecords(p, pack));
    MembersAreIDs(d.applied, |policy.requirements|);
    AppliedNamesAgree(p, syms, policy, d.applied);
    DriverMessageAgrees(p, syms, policy, request, d.driver);
    OfferedAgrees(p, syms, policy, d.driver);
  }

  lemma {:induction false} DecisionRemediation(p: Program, row: RowView, records: seq<Record>)
    requires Executable(p)
    ensures RowDecision(p, row, records).remediation == RowRemediation(p.tables, RowDecision(p, row, records).driver)
  {
    hide CodeSafe, TablesSafe;
  }
}
