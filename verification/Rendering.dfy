/** The human-facing answer to one request (internal/adapters/jsonio/output.go). English sentences
    are constructors that carry the texts filled into them. */
module Rendering {
  import opened Schema
  import opened Findings
  import opened Reference
  import opened Programs
  import opened Rows
  import opened Resolution

  datatype Rationale =
    | AllSatisfied
    | RequesterMissing
    | UnknownValue(field: nat, value: string)
    | LostReference(id: string)
    | NoRequirement
    | Explained(text: string)

  /** The entry for missing or conflicting evidence, when there is one. */
  datatype Note = NoNote | LostRecord(id: string) | WrongEnvironment(kind: string) | BadState(kind: string, reason: nat)

  /** The entry for unresolved uncertainty, when there is one. */
  datatype Doubt =
    | NoDoubt
    | ValuesDoubt
    | RecordDoubt
    | RequirementDoubt
    | EnvironmentDoubt
    | StateDoubt(kind: string, reason: nat)

  datatype Assumption = FieldsAreFaithful

  datatype Item = Item(action: string, evidenceKind: string, description: string, field: string, value: string)

  datatype Message = Message(rationale: Rationale, note: Note, doubt: Doubt)

  /** What a reader of one result sees. */
  datatype Report = Report(
    requestID: string, decision: string, rationale: Rationale, applied: seq<string>, used: seq<string>,
    notes: seq<Note>, assumptions: seq<Assumption>, doubts: seq<Doubt>, remediation: seq<Item>)

  /** The name of an outcome, empty for an id that is no outcome. */
  function OutcomeName(id: nat): string {
    if id == OUTCOME_APPROVE then "Approve"
    else if id == OUTCOME_REJECT then "Reject"
    else if id == OUTCOME_REVISE then "Revise"
    else if id == OUTCOME_ESCALATE then "Escalate"
    else ""
  }

  function SemanticProblem(request: Request, f: nat): Rationale {
    if f == FIELD_REQUESTER then RequesterMissing else UnknownValue(f, request.Field(f))
  }

  /** The sentence for the state of the evidence that a clause asks for. */
  function StateMessage(text: Rationale, kind: string, reason: nat): Message {
    if reason == REASON_MISSING || reason == REASON_CONFLICT || reason == REASON_STALE
       || reason == REASON_INVALID_EVIDENCE || reason == REASON_UNCLEAR || reason == REASON_UNVERIFIABLE
    then Message(text, BadState(kind, reason), StateDoubt(kind, reason))
    else Message(text, NoNote, NoDoubt)
  }

  // ----- decoding ids through the program

  function ExplanationText(p: Program, id: nat): string {
    if ValidID(id, |p.catalogues.explanationSymbols|) then Symbol(p.symbols,
        p.catalogues.explanationSymbols[id - 1]) else ""
  }

  function EvidenceKindName(p: Program, id: nat): string {
    if ValidID(id, |p.code.evidenceKindSymbols|) then Symbol(p.symbols, p.code.evidenceKindSymbols[id - 1]) else ""
  }

  /** instructionUsesField; the recursion ends because every operand precedes its consumer. */
  predicate InstructionUsesField(c: Code, id: nat, f: nat)
    requires CodeSafe(c) && ValidID(id, |c.opcodes|)
    decreases id, c.operandCounts[id - 1] + 1
  {
    assert StepSafe(c, id - 1);
    if c.opcodes[id - 1] == OP_EQUAL || c.opcodes[id - 1] == OP_IN then c.fields[id - 1] == f
    else OperandsUseField(c, id, c.operandCounts[id - 1], f)
  }

  /** One of the first k operands of instruction id uses the field. */
  predicate OperandsUseField(c: Code, id: nat, k: nat, f: nat)
    requires CodeSafe(c) && ValidID(id, |c.opcodes|) && k <= c.operandCounts[id - 1]
    decreases id, k
  {
    assert StepSafe(c, id - 1);
    k > 0 &&
    (assert OperandValid(c, id - 1, k - 1);
     OperandsUseField(c, id, k - 1, f)
     || InstructionUsesField(c, c.operands[c.operandStarts[id - 1] + k - 1], f))
  }

  function ClauseMessage(p: Program, k: nat, reason: nat): Message
    requires Executable(p) && k < |p.tables.clauseSymbols| && 1 <= reason <= REASON_COUNT
  {
    assert ClauseSafe(p.tables, |p.code.opcodes|, k);
    var text := Explained(ExplanationText(p, p.tables.explanationIDs[StateIndex(k, reason)]));
    var kinds := KindRange(p.tables, k);
    if kinds == [] then Message(text, NoNote, NoDoubt)
    else
      var kind := EvidenceKindName(p, kinds[0]);
      if reason == REASON_FALSE && InstructionUsesField(p.code, p.tables.assertionRoots[k], FIELD_ENVIRONMENT)
      then Message(text, WrongEnvironment(kind), EnvironmentDoubt)
      else StateMessage(text, kind, reason)
  }

  /** The driver can be explained: it names a field, a position or a clause state that exists. */
  predicate DriverPrintable(p: Program, request: Request, edges: nat, w: Finding)
    requires Executable(p)
  {
    if w.kind == DRIVER_NONE then w.outcome == OUTCOME_APPROVE
    else if w.kind == DRIVER_SEMANTIC then ValidField(w.field)
    else if w.kind == DRIVER_MISSING_REFERENCE then 1 <= w.edge <= edges && w.edge <= |request.evidenceIDs|
    else if w.kind == DRIVER_NO_APPLICABLE then true
    else if w.kind == DRIVER_CLAUSE then
      && ValidID(w.clause, |p.tables.clauseSymbols|) && ValidID(w.reason, REASON_COUNT)
      && ExplanationText(p, p.tables.explanationIDs[StateIndex(w.clause - 1, w.reason)]) != ""
    else false
  }

  function DriverMessage(p: Program, request: Request, edges: nat, w: Finding): Message
    requires Executable(p) && DriverPrintable(p, request, edges, w)
  {
    if w.kind == DRIVER_NONE then Message(AllSatisfied, NoNote, NoDoubt)
    else if w.kind == DRIVER_SEMANTIC then Message(SemanticProblem(request, w.field), NoNote, ValuesDoubt)
    else if w.kind == DRIVER_MISSING_REFERENCE then
      var id := request.evidenceIDs[w.edge - 1];
      Message(LostReference(id), LostRecord(id), RecordDoubt)
    else if w.kind == DRIVER_NO_APPLICABLE then Message(NoRequirement, NoNote, RequirementDoubt)
    else ClauseMessage(p, w.clause - 1, w.reason)
  }

  /** One remediation; a set_field drops the description. */
  function RenderItem(p: Program, s: RemediationSpec): Item {
    if s.action == REMEDIATION_ADD_EVIDENCE then
      Item("add_evidence", EvidenceKindName(p, s.evidenceKind), ExplanationText(p, s.description), "", "")
    else Item("set_field", "", "", FieldName(s.field), Symbol(p.symbols, s.value))
  }

  /** Every id of the decision can be decoded. */
  predicate Printable(p: Program, request: Request, pack: seq<Evidence>, edges: nat, d: Decision)
    requires Executable(p)
  {
    && ValidID(d.driver.outcome, OUTCOME_COUNT)
    && AllValidIDs(d.applied, |p.tables.requirementSymbols|)
    && AllValidIDs(d.used, |pack|)
    && DriverPrintable(p, request, edges, d.driver)
    && AllValidIDs(d.remediation, |p.catalogues.remediations|)
  }

  function RequirementNames(p: Program, ids: seq<nat>): seq<string>
    requires AllValidIDs(ids, |p.tables.requirementSymbols|)
  {
    seq(|ids|, j requires 0 <= j < |ids| => Symbol(p.symbols, p.tables.requirementSymbols[ids[j] - 1]))
  }

  function RecordNames(pack: seq<Evidence>, ids: seq<nat>): seq<string>
    requires AllValidIDs(ids, |pack|)
  {
    seq(|ids|, j requires 0 <= j < |ids| => pack[ids[j] - 1].id)
  }

  function RenderItems(p: Program, ids: seq<nat>): seq<Item>
    requires AllValidIDs(ids, |p.catalogues.remediations|)
  {
    seq(|ids|, j requires 0 <= j < |ids| => RenderItem(p, p.catalogues.remediations[ids[j] - 1]))
  }

  function Entries<T(==)>(x: T, none: T): seq<T> {
    if x == none then [] else [x]
  }

  function Render(p: Program, request: Request, pack: seq<Evidence>, edges: nat, d: Decision): Report
    requires Executable(p) && Printable(p, request, pack, edges, d)
  {
    var m := DriverMessage(p, request, edges, d.driver);
    Report(request.id, OutcomeName(d.driver.outcome), m.rationale, RequirementNames(p, d.applied), RecordNames(pack,
        d.used),
           Entries(m.note, NoNote), [FieldsAreFaithful], Entries(m.doubt, NoDoubt), RenderItems(p, d.remediation))
  }
}
