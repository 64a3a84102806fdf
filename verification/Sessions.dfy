/** The engine and its reusable session (internal/engine/engine.go). */
module Sessions {
  import opened Schema
  import opened Programs
  import opened Lowering
  import opened Resolution
  import opened Coding
  import opened Planes
  import opened Batches
  import opened Contexts
  import opened Kernels
  import opened Results
  import opened Evaluator
  import opened Stores
  import opened Packs
  import opened Builders
  import opened Rendering
  import opened Materializer
  import opened Totality

  /** checkedProduct: the product of two counts, unless it exceeds the largest int. */
  function CheckedProduct(left: nat, right: nat): (r: (nat, bool))
    ensures r.1 <==> left * right <= MAX_INT
    ensures r.1 ==> r.0 == left * right
  {
    if left == 0 || right == 0 then (0, true)
    else
      ProductFits(left, right, MAX_INT);
      if left > MAX_INT / right then (0, false) else (left * right, true)
  }

  lemma {:induction false} ProductFits(left: nat, right: nat, max: nat)
    requires right > 0
    ensures left > max / right <==> left * right > max
  {
    var q, m := max / right, max % right;
    assert max == q * right + m;
    if left > q { MulStep(q, left, right); } else { MulMono(left, q, right); }
  }

  /** This many rows are more than the 32-bit word count or an addressable capacity can cover. */
  predicate TooManyRows(p: Program, rows: nat) {
    rows + 63 > MAX_UINT32 || rows * |p.catalogues.remediations| > MAX_INT
  }

  datatype Reply = InputError | InternalError | Answered

  class Session {
    const compiled: Program
    const limits: Limits
    const builder: Builder
    const batch: BatchStore
    const context: Context
    const numeric: ResultBatch
    const output: OutputPack

    /** NewSession of an engine over a validated program. */
    constructor (compiled: Program, limits: Limits)
      ensures this.compiled == compiled && this.limits == limits && Linked()
      ensures fresh(builder) && fresh(batch) && fresh(context) && fresh(numeric) && fresh(output)
    {
      this.compiled, this.limits := compiled, limits;
      this.builder := new Builder(limits);
      this.batch := new BatchStore();
      this.context := new Context();
      this.numeric := new ResultBatch();
      this.output := new OutputPack();
    }

    predicate Linked()
      reads batch
    {
      builder.limits == limits && |batch.qualifiers| == QUALIFIER_COUNT
    }

    /** Session.Evaluate. The reply and the reports are a function of the program, the limits and this
        pack alone: nothing else about the session's state is assumed, so no earlier call, accepted or
        rejected, can show through. A rejected pack changes neither the batch nor the last output, and
        an accepted one ends in an internal error exactly when it has too many rows, the output then
        being kept too. */
    method Evaluate(requests: seq<Request>, pack: seq<Evidence>) returns (reply: Reply)
      requires ProgramValid(compiled) && RequirementIDsFit(compiled) && LimitsFit(limits) && Linked()
      requires PackAccepted(limits, requests, pack) ==> OutputFits(compiled, |requests|)
      modifies builder, batch, context, numeric, output
      ensures Linked()
      ensures reply == InputError <==> !PackAccepted(limits, requests, pack)
      ensures reply == InternalError <==> PackAccepted(limits, requests, pack) && TooManyRows(compiled, |requests|)
      ensures reply != Answered ==> unchanged(output)
      ensures reply == InputError ==> unchanged(batch) && unchanged(context) && unchanged(numeric)
      ensures reply == Answered ==> Reports(output, compiled, requests, pack)
    {
      hide ProgramValid, PackAccepted, Executable, RemediationsFit, OutputFits, Evaluated, BatchShaped, AllResolved,
           Represents, RowPrintable, RowReport, NumericReadable, HeaderReadable, Reports, ReportAt,
           ResultBatch.Roomy, ResultBatch.Blank, BatchStore.Value, ResultBatch.Value;
      var ok := builder.BuildInto(batch, compiled, requests, pack);
      if !ok { return InputError; }
      var b := batch.Value();
      RepresentsShape(b, compiled, limits, requests, pack);
      var requirements := CheckedProduct(|requests|, |compiled.tables.requirementSymbols|);
      if !requirements.1 { assert false; }
      var remediations := CheckedProduct(|requests|, |compiled.catalogues.remediations|);
      if !remediations.1 { return InternalError; }
      ValidProgramIsExecutable(compiled);
      context.Ensure(|compiled.code.opcodes|, b.rows);
      numeric.Ensure(b.rows, requirements.0, |b.refs|, remediations.0);
      ok := EvaluateInto(compiled, context, b, numeric);
      if !ok { return InternalError; }
      AllRowsPrintable(compiled, b, numeric.Value(), requests, pack);
      ok := output.MaterializeInto(compiled, b, numeric.Value(), requests, pack);
      if !ok { assert false; }
      ReportsFollow(output, compiled, b, numeric.Value(), requests, pack);
      return Answered;
    }
  }

  /** The answer to request r of a pack: the decoded decision of its symbolic view. */
  function ReportOf(p: Program, requests: seq<Request>, pack: seq<Evidence>, r: nat): Report
    requires ProgramValid(p) && RequirementIDsFit(p) && r < |requests|
  {
    var row, records := ViewRow(p, requests[r], pack), ViewRecords(p, pack);
    ViewReferences(p, requests[r], pack);
    DecisionsArePrintable(p, row, records, requests[r], pack);
    Render(p, requests[r], pack, |row.refs|, RowDecision(p, row, records))
  }

  predicate ReportAt(o: OutputPack, p: Program, requests: seq<Request>, pack: seq<Evidence>, r: nat)
    requires ProgramValid(p) && RequirementIDsFit(p) && r < |requests|
    reads o
  {
    r < o.results.Len() && o.results.items[r].Shown() == ReportOf(p, requests, pack, r)
  }

  /** The output answers exactly this pack. */
  predicate Reports(o: OutputPack, p: Program, requests: seq<Request>, pack: seq<Evidence>)
    requires ProgramValid(p) && RequirementIDsFit(p)
    reads o
  {
    && o.schemaVersion == 1 && o.policyName == p.name && o.policyVersion == p.version
    && o.results.Len() == |requests|
    && forall r :: 0 <= r < |requests| ==> ReportAt(o, p, requests, pack, r)
  }

  lemma {:induction false} RepresentsShape(b: Batch, p: Program, l: Limits, requests: seq<Request>, pack: seq<Evidence>)
    requires Represents(b, p.symbols, p.code.evidenceKindSymbols, requests, pack)
    requires PackAccepted(l, requests, pack) && LimitsFit(l) && OutputFits(p, |requests|)
    ensures BatchShaped(b) && b.rows == |requests| && |pack| == |b.kinds|
    ensures WordsConsistent(b) && b.rows <= MAX_UINT32
    ensures |b.qualifiers| == QUALIFIER_COUNT && |b.refs| <= MAX_UINT32
    ensures OutputFits(p, b.rows)
    ensures |requests| * |p.tables.requirementSymbols| <= MAX_INT
  {
    hide RequestGood, EvidenceGood, ColumnsShaped, RowOf, SymbolicRow, MostRemediations, RecordOf, SymbolicRecord;
    assert |RecordsOf(b)| == |SymbolicRecords(p.symbols, p.code.evidenceKindSymbols, pack)|;
  }

  lemma {:induction false} ResolvedIsReadable(n: Numeric, p: Program, b: Batch)
    requires Executable(p) && BatchShaped(b) && AllResolved(n, p, b)
    ensures NumericReadable(n, b.rows)
  {
    hide Executable, BatchShaped, RowResolved;
  }

  /** The stored row reads back as the decision of the request's symbolic view. */
  lemma {:induction false} RowReadsBack(p: Program, b: Batch, n: Numeric, requests: seq<Request>, pack: seq<Evidence>,
                                        r: nat)
    requires Executable(p) && BatchShaped(b) && AllResolved(n, p, b) && r < b.rows
    requires Represents(b, p.symbols, p.code.evidenceKindSymbols, requests, pack)
    ensures NumericReadable(n, b.rows) && |requests| == b.rows && r < |b.offsets| - 1
    ensures RowAnswer(n, r, b.offsets[r]) == RowDecision(p, ViewRow(p, requests[r], pack), ViewRecords(p, pack))
    ensures OffsetsReach(b) && RowEdges(b, r) == |requests[r].evidenceIDs|
  {
    hide Executable, ColumnsShaped, EvidenceShaped, RowOf, RecordsOf, SymbolicRow, SymbolicRecords,
         RowDecision, RowAnswer, Holds, EdgeTotal;
    ResolvedIsReadable(n, p, b);
    assert RowResolved(n, p, b, r);
    HoldsAnswer(n, r, RowDecision(p, RowOf(b, r), RecordsOf(b)), b.offsets[r]);
    EdgeTotalStep(requests, r);
  }

  lemma {:induction false} AllRowsPrintable(p: Program, b: Batch, n: Numeric, requests: seq<Request>, pack: seq<Evidence>)
    requires ProgramValid(p) && Executable(p) && RequirementIDsFit(p)
    requires BatchShaped(b) && AllResolved(n, p, b) && |pack| == |b.kinds|
    requires Represents(b, p.symbols, p.code.evidenceKindSymbols, requests, pack)
    ensures OffsetsReach(b) && HeaderReadable(b, n, requests, pack)
    ensures forall r :: 0 <= r < b.rows ==> RowPrintable(p, b, n, requests, pack, r)
  {
    hide ProgramValid, Executable, ColumnsShaped, EvidenceShaped, AllResolved, RowOf, RecordsOf, RowAnswer,
         RowDecision, ViewRow, ViewRecords, Printable, NumericReadable;
    ResolvedIsReadable(n, p, b);
    forall r | 0 <= r < b.rows
      ensures RowPrintable(p, b, n, requests, pack, r)
    {
      RowReadsBack(p, b, n, requests, pack, r);
      ViewReferences(p, requests[r], pack);
      DecisionsArePrintable(p, ViewRow(p, requests[r], pack), ViewRecords(p, pack), requests[r], pack);
    }
  }

  lemma {:induction false} ReportsFollow(o: OutputPack, p: Program, b: Batch, n: Numeric, requests: seq<Request>,
                                         pack: seq<Evidence>)
    requires ProgramValid(p) && Executable(p) && RequirementIDsFit(p) && BatchShaped(b) && AllResolved(n, p, b)
    requires OffsetsReach(b) && HeaderReadable(b, n, requests, pack)
    requires Represents(b, p.symbols, p.code.evidenceKindSymbols, requests, pack)
    requires forall r :: 0 <= r < b.rows ==> RowPrintable(p, b, n, requests, pack, r)
    requires o.schemaVersion == 1 && o.policyName == p.name && o.policyVersion == p.version && o.results.Len() == b.rows
    requires forall r :: 0 <= r < b.rows ==> o.results.items[r].Shown() == RowReport(p, b, n, requests, pack, r)
    ensures Reports(o, p, requests, pack)
  {
    hide ProgramValid, Executable, ColumnsShaped, EvidenceShaped, AllResolved, RowOf, RecordsOf, RowAnswer,
         RowDecision, ViewRow, ViewRecords, Printable, Render, NumericReadable, Represents;
    forall r | 0 <= r < |requests|
      ensures ReportAt(o, p, requests, pack, r)
    {
      RowReadsBack(p, b, n, requests, pack, r);
      ViewReferences(p, requests[r], pack);
      assert RowPrintable(p, b, n, requests, pack, r);
    }
  }
}
