/** Compiled programs: parallel columns, CSR ranges and one text slab (internal/program/program.go,
    opcode.go, lookup.go), and what makes a program publishable, stated declaratively. The flat
    record of the source is grouped by the validator that reads each part. */
module Programs {
  import opened Schema
  import opened Ast

  const OP_EQUAL := 1
  const OP_IN := 2
  const OP_EVIDENCE := 3
  const OP_ALL := 4

  datatype EvidenceSpec = EvidenceSpec(
    kind: nat, status: nat, timing: nat, reviewer: nat, timestampState: nat, subject: nat,
    attestationState: nat, scope: nat, adjustmentType: nat)
  {
    function Wanted(q: nat): nat {
      if q == QUALIFIER_STATUS then status
      else if q == QUALIFIER_TIMING then timing
      else if q == QUALIFIER_REVIEWER then reviewer
      else if q == QUALIFIER_TIMESTAMP_STATE then timestampState
      else if q == QUALIFIER_SUBJECT then subject
      else if q == QUALIFIER_ATTESTATION_STATE then attestationState
      else if q == QUALIFIER_SCOPE then scope
      else if q == QUALIFIER_ADJUSTMENT_TYPE then adjustmentType
      else 0
    }
  }

  const REMEDIATION_ADD_EVIDENCE := 1
  const REMEDIATION_SET_FIELD := 2

  datatype RemediationSpec = RemediationSpec(
    action: nat, evidenceKind: nat, description: nat, field: nat, value: nat)

  /** The instruction columns and what instructions refer to. */
  datatype Code = Code(
    opcodes: seq<nat>, fields: seq<nat>, values: seq<nat>,
    operandStarts: seq<nat>, operandCounts: seq<nat>, operands: seq<nat>,
    setStarts: seq<nat>, setCounts: seq<nat>, setValues: seq<nat>,
    evidenceSpecIndexes: seq<nat>, evidenceSpecs: seq<EvidenceSpec>, evidenceKindSymbols: seq<nat>)

  /** The requirement and clause columns. */
  datatype Tables = Tables(
    requirementSymbols: seq<nat>, applicabilityRoots: seq<nat>,
    clauseStarts: seq<nat>, clauseCounts: seq<nat>, clauseIDs: seq<nat>,
    clauseSymbols: seq<nat>, assertionRoots: seq<nat>,
    outcomeIDs: seq<nat>, explanationIDs: seq<nat>,
    remediationStarts: seq<nat>, remediationCounts: seq<nat>, remediationIDs: seq<nat>,
    evidenceKindStarts: seq<nat>, evidenceKindCounts: seq<nat>, evidenceKinds: seq<nat>)

  datatype Catalogues = Catalogues(
    remediations: seq<RemediationSpec>, explanationSymbols: seq<nat>, precedence: seq<nat>)

  datatype SymbolTable = SymbolTable(text: string, starts: seq<nat>, lengths: seq<nat>)

  datatype Program = Program(
    name: string, version: string, code: Code, tables: Tables, catalogues: Catalogues,
    symbols: SymbolTable)

  // ----- symbols

  /** Program.Symbol: the text of a symbol id, empty for an id that names nothing. */
  function Symbol(t: SymbolTable, id: nat): string {
    if id == 0 || id > |t.starts| || |t.starts| != |t.lengths| then ""
    else if t.starts[id - 1] + t.lengths[id - 1] > |t.text| then ""
    else t.text[t.starts[id - 1]..t.starts[id - 1] + t.lengths[id - 1]]
  }

  /** The scan of Program.LookupSymbol from entry i on: the first entry spelling value, zero when
      no entry does. */
  function LookupFrom(t: SymbolTable, value: string, i: nat): (id: nat)
    requires |t.starts| == |t.lengths| && i <= |t.starts|
    ensures id != 0 ==> i < id <= |t.starts| && Symbol(t, id) == value
    ensures value != "" ==> forall k :: i < k <= |t.starts| && (id == 0 || k < id) ==> Symbol(t, k) != value
    decreases |t.starts| - i
  {
    if i == |t.starts| then 0
    else if t.lengths[i] != |value| || t.starts[i] + t.lengths[i] > |t.text| then LookupFrom(t, value, i + 1)
    else if t.text[t.starts[i]..t.starts[i] + t.lengths[i]] == value then i + 1
    else LookupFrom(t, value, i + 1)
  }

  /** Program.LookupSymbol, on a table whose columns are aligned. */
  function LookupSymbol(t: SymbolTable, value: string): (id: nat)
    ensures id <= |t.starts|
  {
    if |t.starts| == |t.lengths| then LookupFrom(t, value, 0) else 0
  }

  /** The total length of the first k symbols. */
  function TextEnd(t: SymbolTable, k: nat): nat
    requires k <= |t.lengths|
  {
    if k == 0 then 0 else TextEnd(t, k - 1) + t.lengths[k - 1]
  }

  predicate SymbolTiled(t: SymbolTable, i: nat)
    requires |t.starts| == |t.lengths| && i < |t.starts|
  {
    t.starts[i] == TextEnd(t, i) && t.lengths[i] > 0
  }

  /** The symbols are nonempty and lie end to end over the whole slab. */
  predicate SymbolsValid(t: SymbolTable) {
    && t.starts != [] && |t.starts| == |t.lengths|
    && (forall i :: 0 <= i < |t.starts| ==> SymbolTiled(t, i))
    && TextEnd(t, |t.starts|) == |t.text|
  }

  lemma {:induction false} TextEndGrows(t: SymbolTable, j: nat, k: nat)
    requires j <= k <= |t.lengths|
    ensures TextEnd(t, j) <= TextEnd(t, k)
  {
    if j < k { TextEndGrows(t, j, k - 1); }
  }

  // ----- instructions

  predicate ValidRange(start: nat, count: nat, total: nat) {
    start + count <= total
  }

  predicate ValidID(id: nat, count: nat) {
    1 <= id <= count
  }

  predicate ValidField(f: nat) {
    1 <= f < FIELD_COUNT
  }

  predicate Aligned(c: Code) {
    && |c.fields| == |c.opcodes| && |c.values| == |c.opcodes|
    && |c.operandStarts| == |c.opcodes| && |c.operandCounts| == |c.opcodes|
    && |c.setStarts| == |c.opcodes| && |c.setCounts| == |c.opcodes|
    && |c.evidenceSpecIndexes| == |c.opcodes|
  }

  predicate OperandValid(c: Code, i: nat, j: nat)
    requires Aligned(c) && i < |c.opcodes| && c.operandStarts[i] + j < |c.operands|
  {
    1 <= c.operands[c.operandStarts[i] + j] <= i
  }

  predicate SetValueValid(c: Code, n: nat, i: nat, j: nat)
    requires Aligned(c) && i < |c.opcodes| && c.setStarts[i] + j < |c.setValues|
  {
    ValidID(c.setValues[c.setStarts[i] + j], n)
  }

  /** Instruction i is well formed over n symbols; every operand of an `all` precedes it. */
  predicate InstructionValid(c: Code, n: nat, i: nat)
    requires Aligned(c) && i < |c.opcodes|
  {
    && ValidRange(c.operandStarts[i], c.operandCounts[i], |c.operands|)
    && ValidRange(c.setStarts[i], c.setCounts[i], |c.setValues|)
    && if c.opcodes[i] == OP_EQUAL then
         ValidField(c.fields[i]) && ValidID(c.values[i], n)
         && c.operandCounts[i] == 0 && c.setCounts[i] == 0 && c.evidenceSpecIndexes[i] == 0
       else if c.opcodes[i] == OP_IN then
         ValidField(c.fields[i]) && c.setCounts[i] != 0
         && (forall j :: 0 <= j < c.setCounts[i] ==> SetValueValid(c, n, i, j))
         && c.operandCounts[i] == 0 && c.values[i] == 0 && c.evidenceSpecIndexes[i] == 0
       else if c.opcodes[i] == OP_EVIDENCE then
         ValidID(c.evidenceSpecIndexes[i], |c.evidenceSpecs|)
         && c.operandCounts[i] == 0 && c.setCounts[i] == 0 && c.fields[i] == 0 && c.values[i] == 0
       else if c.opcodes[i] == OP_ALL then
         c.operandCounts[i] != 0
         && (forall j :: 0 <= j < c.operandCounts[i] ==> OperandValid(c, i, j))
         && c.setCounts[i] == 0 && c.fields[i] == 0 && c.values[i] == 0 && c.evidenceSpecIndexes[i] == 0
       else false
  }

  predicate SpecValid(s: EvidenceSpec, kinds: nat, n: nat) {
    ValidID(s.kind, kinds) && forall q :: 0 <= q < QUALIFIER_COUNT ==> s.Wanted(q) <= n
  }

  predicate AllValidIDs(ids: seq<nat>, count: nat) {
    forall i :: 0 <= i < |ids| ==> ValidID(ids[i], count)
  }

  predicate CodeValid(c: Code, n: nat) {
    && c.opcodes != [] && Aligned(c)
    && (forall i :: 0 <= i < |c.opcodes| ==> InstructionValid(c, n, i))
    && (forall i :: 0 <= i < |c.evidenceSpecs| ==> SpecValid(c.evidenceSpecs[i], |c.evidenceKindSymbols|, n))
    && AllValidIDs(c.evidenceKindSymbols, n)
  }

  // ----- requirements and clauses

  predicate TablesAligned(t: Tables) {
    && |t.applicabilityRoots| == |t.requirementSymbols|
    && |t.clauseStarts| == |t.requirementSymbols| && |t.clauseCounts| == |t.requirementSymbols|
    && |t.assertionRoots| == |t.clauseSymbols|
    && |t.remediationStarts| == |t.clauseSymbols| && |t.remediationCounts| == |t.clauseSymbols|
    && |t.evidenceKindStarts| == |t.clauseSymbols| && |t.evidenceKindCounts| == |t.clauseSymbols|
    && |t.outcomeIDs| == |t.clauseSymbols| * REASON_COUNT
    && |t.explanationIDs| == |t.clauseSymbols| * REASON_COUNT
  }

  predicate RequirementEntryValid(t: Tables, instructions: nat, n: nat, i: nat)
    requires TablesAligned(t) && i < |t.requirementSymbols|
  {
    && ValidID(t.requirementSymbols[i], n) && ValidID(t.applicabilityRoots[i], instructions)
    && ValidRange(t.clauseStarts[i], t.clauseCounts[i], |t.clauseIDs|)
  }

  /** The clause ids that requirement i lists. */
  function ClauseRange(t: Tables, i: nat): seq<nat>
    requires TablesAligned(t) && i < |t.requirementSymbols|
  {
    if ValidRange(t.clauseStarts[i], t.clauseCounts[i], |t.clauseIDs|)
    then t.clauseIDs[t.clauseStarts[i]..t.clauseStarts[i] + t.clauseCounts[i]]
    else []
  }

  /** All clause ids listed by the first k requirements. */
  function Owned(t: Tables, k: nat): seq<nat>
    requires TablesAligned(t) && k <= |t.requirementSymbols|
  {
    if k == 0 then [] else Owned(t, k - 1) + ClauseRange(t, k - 1)
  }

  predicate ValidExplanation(id: nat, explanations: nat, outcome: nat) {
    (outcome == OUTCOME_APPROVE && id == 0) || ValidID(id, explanations)
  }

  function StateIndex(k: nat, reason: nat): nat
    requires reason >= 1
  {
    k * REASON_COUNT + reason - 1
  }

  predicate StateEntryValid(t: Tables, explanations: nat, k: nat, reason: nat)
    requires TablesAligned(t) && k < |t.clauseSymbols| && 1 <= reason <= REASON_COUNT
  {
    && ValidID(t.outcomeIDs[StateIndex(k, reason)], OUTCOME_COUNT)
    && ValidExplanation(t.explanationIDs[StateIndex(k, reason)], explanations, t.outcomeIDs[StateIndex(k, reason)])
  }

  predicate ClauseEntryValid(t: Tables, instructions: nat, explanations: nat, n: nat, k: nat)
    requires TablesAligned(t) && k < |t.clauseSymbols|
  {
    && ValidID(t.clauseSymbols[k], n) && ValidID(t.assertionRoots[k], instructions)
    && ValidRange(t.remediationStarts[k], t.remediationCounts[k], |t.remediationIDs|)
    && ValidRange(t.evidenceKindStarts[k], t.evidenceKindCounts[k], |t.evidenceKinds|)
    && forall reason :: 1 <= reason <= REASON_COUNT ==> StateEntryValid(t, explanations, k, reason)
  }

  predicate TablesValid(t: Tables, instructions: nat, kinds: nat, explanations: nat, remediations: nat, n: nat) {
    && t.requirementSymbols != [] && t.clauseSymbols != [] && TablesAligned(t)
    && (forall i :: 0 <= i < |t.requirementSymbols| ==> RequirementEntryValid(t, instructions, n, i))
    && (forall k :: 0 <= k < |t.clauseSymbols| ==> ClauseEntryValid(t, instructions, explanations, n, k))
    // every clause is owned exactly once
    && AllValidIDs(Owned(t, |t.requirementSymbols|), |t.clauseSymbols|)
    && Distinct(Owned(t, |t.requirementSymbols|))
    && (forall id :: 1 <= id <= |t.clauseSymbols| ==> id in Owned(t, |t.requirementSymbols|))
    && AllValidIDs(t.remediationIDs, remediations)
    && AllValidIDs(t.evidenceKinds, kinds)
  }

  // ----- catalogues

  predicate RemediationSpecValid(r: RemediationSpec, kinds: nat, explanations: nat, n: nat) {
    && (if r.action == REMEDIATION_ADD_EVIDENCE then
          ValidID(r.evidenceKind, kinds) && r.field == 0 && r.value == 0
        else if r.action == REMEDIATION_SET_FIELD then
          ValidField(r.field) && ValidID(r.value, n) && r.evidenceKind == 0
        else false)
    && r.description <= explanations
  }

  /** The ranks are a permutation of 1..4. */
  predicate PrecedenceValid(precedence: seq<nat>) {
    |precedence| == OUTCOME_COUNT && AllValidIDs(precedence, OUTCOME_COUNT) && Distinct(precedence)
  }

  predicate CataloguesValid(c: Catalogues, kinds: nat, n: nat) {
    && AllValidIDs(c.explanationSymbols, n)
    && (forall i :: 0 <= i < |c.remediations| ==>
          RemediationSpecValid(c.remediations[i], kinds, |c.explanationSymbols|, n))
    && PrecedenceValid(c.precedence)
  }

  predicate ProgramValid(p: Program) {
    && Trim(p.name) != "" && Trim(p.version) != ""
    && SymbolsValid(p.symbols)
    && CodeValid(p.code, |p.symbols.starts|)
    && TablesValid(p.tables, |p.code.opcodes|, |p.code.evidenceKindSymbols|,
                   |p.catalogues.explanationSymbols|, |p.catalogues.remediations|, |p.symbols.starts|)
    && CataloguesValid(p.catalogues, |p.code.evidenceKindSymbols|, |p.symbols.starts|)
  }

  lemma {:induction false} OwnedRange(t: Tables, i: nat, k: nat)
    requires TablesAligned(t) && i < k <= |t.requirementSymbols|
    ensures forall id :: id in ClauseRange(t, i) ==> id in Owned(t, k)
    ensures Owned(t, k - 1) <= Owned(t, k)
  {
    hide ClauseRange, TablesAligned;
    if i < k - 1 { OwnedRange(t, i, k - 1); }
  }
}
