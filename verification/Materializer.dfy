/** Decoding the numeric results into reusable output storage
    (internal/adapters/jsonio/output.go). */
module Materializer {
  import opened Schema
  import opened Slices
  import opened Findings
  import opened Reference
  import opened Programs
  import opened Rows
  import opened Resolution
  import opened Batches
  import opened Results
  import opened Rendering
  import ProgramValidator

  /** One output record; its lists are storage that is used again for the next pack. */
  datatype EvaluationResult = EvaluationResult(
    requestID: string, decision: string, rationale: Rationale,
    requirementsApplied: Slice<string>, evidenceUsed: Slice<string>, notes: Slice<Note>,
    assumptions: Slice<Assumption>, doubts: Slice<Doubt>, remediation: Slice<Item>)
  {
    function Shown(): Report {
      Report(requestID, decision, rationale, requirementsApplied.items, evidenceUsed.items, notes.items,
             assumptions.items, doubts.items, remediation.items)
    }
  }

  const NO_ITEM := Item("", "", "", "", "")
  const NO_RESULT := EvaluationResult("", "", AllSatisfied, Slice([], []), Slice([], []), Slice([], []),
                                      Slice([], []), Slice([], []), Slice([], []))

  // ----- what the columns say about one row

  /** Row `row` of the columns, read back as a decision with edges counted from the row's first. */
  function RowAnswer(n: Numeric, row: nat, start: nat): Decision
    requires NumericShaped(n, |n.outcomeIDs|) && row < |n.outcomeIDs| && RangesReadable(n)
  {
    var edge := n.driverEvidenceEdgeIDs[row];
    Decision(
      Finding(n.outcomeIDs[row], n.driverKinds[row], n.driverRequirementIDs[row], n.driverClauseIDs[row],
              n.driverReasonIDs[row], n.driverFieldIDs[row], if edge < start then 0 else edge - start),
      n.requirementIDs[n.requirementOffsets[row]..n.requirementOffsets[row + 1]],
      n.evidenceRefs[n.evidenceOffsets[row]..n.evidenceOffsets[row + 1]],
      n.remediationIDs[n.remediationOffsets[row]..n.remediationOffsets[row + 1]])
  }

  /** What validateOutputCSR accepts. */
  predicate Readable(offsets: seq<nat>, values: nat, rows: nat) {
    && |offsets| == rows + 1 && offsets[rows] == values
    && (forall i :: 0 <= i <= rows ==> offsets[i] <= values)
    && forall i :: 0 <= i < rows ==> offsets[i] <= offsets[i + 1]
  }

  predicate RangesReadable(n: Numeric) {
    && Readable(n.requirementOffsets, |n.requirementIDs|, |n.outcomeIDs|)
    && Readable(n.evidenceOffsets, |n.evidenceRefs|, |n.outcomeIDs|)
    && Readable(n.remediationOffsets, |n.remediationIDs|, |n.outcomeIDs|)
  }

  predicate NumericReadable(n: Numeric, rows: nat) {
    NumericShaped(n, rows) && RangesReadable(n)
  }

  method ValidateOutputCSR(offsets: seq<nat>, values: nat, rows: nat) returns (ok: bool)
    ensures ok <==> Readable(offsets, values, rows)
  {
    if |offsets| != rows + 1 { return false; }
    var previous := 0;
    for i := 0 to |offsets|
      invariant forall j :: 0 <= j < i ==> offsets[j] <= values
      invariant forall j :: 0 <= j && j + 1 < i ==> offsets[j] <= offsets[j + 1]
      invariant previous == if i == 0 then 0 else offsets[i - 1]
    {
      if offsets[i] < previous || offsets[i] > values { return false; }
      previous := offsets[i];
    }
    return previous == values;
  }

  /** Stored decisions read back unchanged. */
  lemma {:induction false} HoldsAnswer(n: Numeric, row: nat, d: Decision, start: nat)
    requires row < |n.outcomeIDs| && NumericReadable(n, |n.outcomeIDs|) && Holds(n, row, d, start)
    ensures RowAnswer(n, row, start) == d
  {}

  /** Decoding asks nothing more of the edge offsets than to be there. */
  predicate OffsetsReach(b: Batch) {
    |b.offsets| > b.rows
  }

  /** The number of edges between two offsets, none when they run backwards. */
  function RowEdges(b: Batch, row: nat): nat
    requires OffsetsReach(b) && row < b.rows
  {
    if b.offsets[row] <= b.offsets[row + 1] then b.offsets[row + 1] - b.offsets[row] else 0
  }

  // ----- the loops of materializeRowInto

  method AppendRequirements(p: Program, ids: seq<nat>, s: Slice<string>) returns (ok: bool, r: Slice<string>)
    requires Executable(p) && s.items == []
    ensures ok <==> AllValidIDs(ids, |p.tables.requirementSymbols|)
    ensures ok ==> r.items == RequirementNames(p, ids)
  {
    hide Executable, Symbol;
    r := s;
    for i := 0 to |ids|
      invariant AllValidIDs(ids[..i], |p.tables.requirementSymbols|)
      invariant r.items == RequirementNames(p, ids[..i])
    {
      if ids[i] == 0 || ids[i] > |p.tables.requirementSymbols| { return false, r; }
      r := r.Append(Symbol(p.symbols, p.tables.requirementSymbols[ids[i] - 1]));
      assert ids[..i + 1] == ids[..i] + [ids[i]];
    }
    assert ids[..|ids|] == ids;
    ok := true;
  }

  method AppendRecords(pack: seq<Evidence>, ids: seq<nat>, s: Slice<string>) returns (ok: bool, r: Slice<string>)
    requires s.items == []
    ensures ok <==> AllValidIDs(ids, |pack|)
    ensures ok ==> r.items == RecordNames(pack, ids)
  {
    r := s;
    for i := 0 to |ids|
      invariant AllValidIDs(ids[..i], |pack|)
      invariant r.items == RecordNames(pack, ids[..i])
    {
      if ids[i] == 0 || ids[i] > |pack| { return false, r; }
      r := r.Append(pack[ids[i] - 1].id);
      assert ids[..i + 1] == ids[..i] + [ids[i]];
    }
    assert ids[..|ids|] == ids;
    ok := true;
  }

  method AppendItems(p: Program, ids: seq<nat>, s: Slice<Item>) returns (ok: bool, r: Slice<Item>)
    requires ProgramValid(p) && s.items == []
    ensures ok <==> AllValidIDs(ids, |p.catalogues.remediations|)
    ensures ok ==> r.items == RenderItems(p, ids)
  {
    hide SymbolsValid, CodeValid, TablesValid, Symbol, Trim, EvidenceKindName, ExplanationText, FieldName;
    r := s;
    for i := 0 to |ids|
      invariant AllValidIDs(ids[..i], |p.catalogues.remediations|)
      invariant r.items == RenderItems(p, ids[..i])
    {
      if ids[i] == 0 || ids[i] > |p.catalogues.remediations| { return false, r; }
      var spec := p.catalogues.remediations[ids[i] - 1];
      var item := NO_ITEM;
      if spec.action == REMEDIATION_ADD_EVIDENCE {
        item := item.(action := "add_evidence", evidenceKind := EvidenceKindName(p, spec.evidenceKind),
                      description := ExplanationText(p, spec.description));
      } else if spec.action == REMEDIATION_SET_FIELD {
        item := item.(action := "set_field", field := FieldName(spec.field), value := Symbol(p.symbols, spec.value));
      } else {
        assert false;
      }
      r := r.Append(item);
      assert ids[..i + 1] == ids[..i] + [ids[i]];
    }
    assert ids[..|ids|] == ids;
    ok := true;
  }

  // ----- the driver

  method MaterializeDriver(p: Program, b: Batch, n: Numeric, request: Request, row: nat) returns (ok: bool, m: Message)
    requires Executable(p) && OffsetsReach(b) && row < b.rows && NumericReadable(n, b.rows)
    ensures var edges, w := RowEdges(b, row), RowAnswer(n, row, b.offsets[row]).driver;
      && (ok <==> DriverPrintable(p, request, edges, w))
      && (ok ==> m == DriverMessage(p, request, edges, w))
  {
    hide CodeSafe, RequirementSafe, ClauseSafe, ExplanationText, EvidenceKindName, InstructionUsesField;
    m := Message(AllSatisfied, NoNote, NoDoubt);
    var kind := n.driverKinds[row];
    if kind == DRIVER_NONE {
      ok := n.outcomeIDs[row] == OUTCOME_APPROVE;
    } else if kind == DRIVER_SEMANTIC {
      if !ValidField(n.driverFieldIDs[row]) { return false, m; }
      ok, m := true, Message(SemanticProblem(request, n.driverFieldIDs[row]), NoNote, ValuesDoubt);
    } else if kind == DRIVER_MISSING_REFERENCE {
      if n.driverEvidenceEdgeIDs[row] == 0 { return false, m; }
      var edge, start, end := n.driverEvidenceEdgeIDs[row] - 1, b.offsets[row], b.offsets[row + 1];
      if edge < start || edge >= end { return false, m; }
      var relative := edge - start;
      if relative >= |request.evidenceIDs| { return false, m; }
      var id := request.evidenceIDs[relative];
      ok, m := true, Message(LostReference(id), LostRecord(id), RecordDoubt);
    } else if kind == DRIVER_NO_APPLICABLE {
      ok, m := true, Message(NoRequirement, NoNote, RequirementDoubt);
    } else if kind == DRIVER_CLAUSE {
      var clause, reason := n.driverClauseIDs[row], n.driverReasonIDs[row];
      if clause == 0 || clause > |p.tables.clauseSymbols| || reason == 0 || reason > REASON_COUNT { return false, m; }
      if ExplanationText(p, p.tables.explanationIDs[StateIndex(clause - 1, reason)]) == "" { return false, m; }
      ok, m := true, ClauseMessage(p, clause - 1, reason);
    } else {
      ok := false;
    }
  }

  // ----- rows

  /** materializeRowInto: rewrites one record; nothing of its earlier use shows. */
  method MaterializeRow(p: Program, b: Batch, n: Numeric, request: Request, pack: seq<Evidence>, row: nat,
                        was: EvaluationResult)
    returns (ok: bool, dst: EvaluationResult)
    requires ProgramValid(p) && Executable(p) && OffsetsReach(b) && row < b.rows && NumericReadable(n, b.rows)
    ensures var edges, d := RowEdges(b, row), RowAnswer(n, row, b.offsets[row]);
      && (ok <==> Printable(p, request, pack, edges, d))
      && (ok ==> dst.Shown() == Render(p, request, pack, edges, d))
  {
    hide ProgramValid, Executable, RequirementNames, RecordNames, RenderItems, DriverPrintable, DriverMessage,
         ClauseMessage, OffsetsReach, RowEdges, ResetSlice, EnsureEmpty, Slice.Append, AllValidIDs;
    RowRangesReadable(b, n, row);
    dst := was;
    var decision := OutcomeName(n.outcomeIDs[row]);
    if decision == "" { return false, dst; }
    var applied := n.requirementIDs[n.requirementOffsets[row]..n.requirementOffsets[row + 1]];
    var used := n.evidenceRefs[n.evidenceOffsets[row]..n.evidenceOffsets[row + 1]];
    var remediation := n.remediationIDs[n.remediationOffsets[row]..n.remediationOffsets[row + 1]];
    dst := EvaluationResult(
      request.id, decision, AllSatisfied,
      EnsureEmpty(ResetSlice(was.requirementsApplied, ""), |applied|, ""),
      EnsureEmpty(ResetSlice(was.evidenceUsed, ""), |used|, ""),
      ResetSlice(was.notes, NoNote),
      EnsureEmpty(ResetSlice(was.assumptions, FieldsAreFaithful), 1, FieldsAreFaithful).Append(FieldsAreFaithful),
      ResetSlice(was.doubts, NoDoubt),
      ResetSlice(was.remediation, NO_ITEM));
    var names;
    ok, names := AppendRequirements(p, applied, dst.requirementsApplied);
    dst := dst.(requirementsApplied := names);
    if !ok { return; }
    ok, names := AppendRecords(pack, used, dst.evidenceUsed);
    dst := dst.(evidenceUsed := names);
    if !ok { return; }
    var m;
    ok, m := MaterializeDriver(p, b, n, request, row);
    if !ok { return; }
    dst := dst.(rationale := m.rationale);
    if m.note != NoNote { dst := dst.(notes := dst.notes.Append(m.note)); }
    if m.doubt != NoDoubt { dst := dst.(doubts := dst.doubts.Append(m.doubt)); }
    if remediation != [] { dst := dst.(remediation := EnsureEmpty(dst.remediation, |remediation|, NO_ITEM)); }
    var items;
    ok, items := AppendItems(p, remediation, dst.remediation);
    dst := dst.(remediation := items);
  }

  lemma {:induction false} RowRangesReadable(b: Batch, n: Numeric, row: nat)
    requires OffsetsReach(b) && row < b.rows && NumericReadable(n, b.rows)
    ensures row + 1 < |b.offsets|
    ensures row + 1 < |n.requirementOffsets|
    ensures n.requirementOffsets[row] <= n.requirementOffsets[row + 1] <= |n.requirementIDs|
    ensures row + 1 < |n.evidenceOffsets| && n.evidenceOffsets[row] <= n.evidenceOffsets[row + 1] <= |n.evidenceRefs|
    ensures row + 1 < |n.remediationOffsets|
    ensures n.remediationOffsets[row] <= n.remediationOffsets[row + 1] <= |n.remediationIDs|
    ensures row < |n.outcomeIDs| && NumericShaped(n, |n.outcomeIDs|)
  {}

  /** Row `row` can be decoded. */
  predicate RowPrintable(p: Program, b: Batch, n: Numeric, requests: seq<Request>, pack: seq<Evidence>, row: nat)
    requires Executable(p) && OffsetsReach(b) && row < b.rows && NumericReadable(n, b.rows) && |requests| == b.rows
  {
    Printable(p, requests[row], pack, RowEdges(b, row), RowAnswer(n, row, b.offsets[row]))
  }

  function RowReport(p: Program, b: Batch, n: Numeric, requests: seq<Request>, pack: seq<Evidence>, row: nat): Report
    requires Executable(p) && OffsetsReach(b) && row < b.rows && NumericReadable(n, b.rows) && |requests| == b.rows
    requires RowPrintable(p, b, n, requests, pack, row)
  {
    Render(p, requests[row], pack, RowEdges(b, row), RowAnswer(n, row, b.offsets[row]))
  }

  predicate HeaderReadable(b: Batch, n: Numeric, requests: seq<Request>, pack: seq<Evidence>) {
    |requests| == b.rows && |pack| == |b.kinds| && NumericReadable(n, b.rows)
  }

  class OutputPack {
    var schemaVersion: nat
    var policyName: string
    var policyVersion: string
    var results: Slice<EvaluationResult>

    constructor ()
    {
      schemaVersion, policyName, policyVersion, results := 0, "", "", Slice([], []);
    }

    method CheckHeader(b: Batch, n: Numeric, requests: seq<Request>, pack: seq<Evidence>) returns (ok: bool)
      ensures ok <==> HeaderReadable(b, n, requests, pack)
    {
      hide Readable;
      if |requests| != b.rows || |pack| != |b.kinds| { return false; }
      if |n.outcomeIDs| != b.rows || |n.driverKinds| != b.rows || |n.driverRequirementIDs| != b.rows
         || |n.driverClauseIDs| != b.rows || |n.driverReasonIDs| != b.rows || |n.driverFieldIDs| != b.rows
         || |n.driverEvidenceEdgeIDs| != b.rows || |n.issueIDs| != b.rows {
        return false;
      }
      ReadableLength(n.requirementOffsets, |n.requirementIDs|, b.rows);
      ReadableLength(n.evidenceOffsets, |n.evidenceRefs|, b.rows);
      ReadableLength(n.remediationOffsets, |n.remediationIDs|, b.rows);
      ok := ValidateOutputCSR(n.requirementOffsets, |n.requirementIDs|, b.rows);
      if !ok { return; }
      ok := ValidateOutputCSR(n.evidenceOffsets, |n.evidenceRefs|, b.rows);
      if !ok { return; }
      ok := ValidateOutputCSR(n.remediationOffsets, |n.remediationIDs|, b.rows);
    }

    /** MaterializeInto: fails exactly when the program, a shape or some row cannot be decoded, and
        changes nothing unless it is a row. Each report depends on the arguments alone. */
    method MaterializeInto(p: Program, b: Batch, n: Numeric, requests: seq<Request>, pack: seq<Evidence>) returns (ok: bool)
      requires OffsetsReach(b)
      modifies this
      ensures ok <==> ProgramValid(p) && HeaderReadable(b, n, requests, pack)
                      && Executable(p) && forall r :: 0 <= r < b.rows ==> RowPrintable(p, b, n, requests, pack, r)
      ensures ok ==> schemaVersion == 1 && policyName == p.name && policyVersion == p.version && results.Len() == b.rows
      ensures ok ==> forall r :: 0 <= r < b.rows ==> results.items[r].Shown() == RowReport(p, b, n, requests, pack, r)
      ensures !ok && !(ProgramValid(p) && HeaderReadable(b, n, requests, pack)) ==> unchanged(this)
    {
      hide ProgramValid, Executable, OffsetsReach, RowEdges, Printable, Render, RowAnswer, NumericReadable,
           EvaluationResult.Shown;
      ok := ProgramValidator.Validate(p);
      if !ok { return; }
      ok := CheckHeader(b, n, requests, pack);
      if !ok { return; }
      ValidProgramIsExecutable(p);
      schemaVersion, policyName, policyVersion := 1, p.name, p.version;
      results := if results.Cap() < b.rows then Slice(Fill(b.rows, NO_RESULT), []) else results.Reslice(b.rows);
      for row := 0 to b.rows
        invariant results.Len() == b.rows
        invariant schemaVersion == 1 && policyName == p.name && policyVersion == p.version
        invariant forall r :: 0 <= r < row ==> RowPrintable(p, b, n, requests, pack, r)
        invariant forall r :: 0 <= r < row ==> results.items[r].Shown() == RowReport(p, b, n, requests, pack, r)
      {
        var cur;
        ok, cur := MaterializeRow(p, b, n, requests[row], pack, row, results.items[row]);
        results := results.Set(row, cur);
        if !ok {
          assert !RowPrintable(p, b, n, requests, pack, row);
          return;
        }
      }
      ok := true;
    }
  }

  lemma {:induction false} ReadableLength(offsets: seq<nat>, values: nat, rows: nat)
    ensures Readable(offsets, values, rows) ==> |offsets| == rows + 1
  {}
}
