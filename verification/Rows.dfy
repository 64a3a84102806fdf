/** What the evaluator computes for one row, stated on the row alone: the numeric view of a request
    and of the evidence records, the instruction-by-instruction verdicts, and the resolved
    decision. The kernels of Kernels and Executor are proved against these functions. */
module Rows {
  import opened Schema
  import opened Verdicts
  import opened Programs

  datatype Cell = Cell(symbol: nat, present: bool, valid: bool, issue: bool)

  const BLANK_CELL := Cell(0, false, false, false)

  /** One request row: its field cells and its evidence references, zero marking a missing record. */
  datatype RowView = RowView(cells: seq<Cell>, refs: seq<nat>) {
    function At(f: nat): Cell {
      if 1 <= f <= |cells| then cells[f - 1] else BLANK_CELL
    }
  }

  datatype Mark = Mark(symbol: nat, present: bool)

  datatype Record = Record(kind: nat, marks: seq<Mark>, conflict: bool, stale: bool, revoked: bool) {
    function At(q: nat): Mark {
      if q < |marks| then marks[q] else Mark(0, false)
    }
  }

  // ----- evidence

  predicate WrongMark(want: EvidenceSpec, have: Record, q: nat) {
    want.Wanted(q) != 0 && have.At(q).present && have.At(q).symbol != want.Wanted(q)
  }

  predicate OpenMark(want: EvidenceSpec, have: Record, q: nat) {
    want.Wanted(q) != 0 && !have.At(q).present
  }

  function MarkGrade(want: EvidenceSpec, have: Record): nat {
    if exists q :: 0 <= q < QUALIFIER_COUNT && WrongMark(want, have, q) then GRADE_WRONG
    else if exists q :: 0 <= q < QUALIFIER_COUNT && OpenMark(want, have, q) then GRADE_UNCLEAR
    else GRADE_SATISFIED
  }

  function SpecGrade(want: EvidenceSpec, have: Record): nat {
    if have.kind != want.kind then GRADE_MISSING
    else if have.conflict then GRADE_CONFLICT
    else if have.stale then GRADE_STALE
    else if have.revoked then GRADE_REVOKED
    else MarkGrade(want, have)
  }

  function EdgeGrade(want: EvidenceSpec, records: seq<Record>, r: nat): nat {
    if 1 <= r <= |records| then SpecGrade(want, records[r - 1]) else GRADE_MISSING
  }

  function EdgesGrade(want: EvidenceSpec, records: seq<Record>, refs: seq<nat>): nat {
    if refs == [] then GRADE_MISSING
    else Max(EdgesGrade(want, records, refs[..|refs| - 1]), EdgeGrade(want, records, refs[|refs| - 1]))
  }

  // ----- instructions

  /** What running instruction i needs of the columns; every operand precedes its consumer. */
  predicate StepSafe(c: Code, i: nat)
    requires Aligned(c) && i < |c.opcodes|
  {
    && ValidRange(c.operandStarts[i], c.operandCounts[i], |c.operands|)
    && ValidRange(c.setStarts[i], c.setCounts[i], |c.setValues|)
    && (c.opcodes[i] == OP_EQUAL || c.opcodes[i] == OP_IN || c.opcodes[i] == OP_EVIDENCE || c.opcodes[i] == OP_ALL)
    && (c.opcodes[i] == OP_EQUAL || c.opcodes[i] == OP_IN ==> ValidField(c.fields[i]))
    && (c.opcodes[i] == OP_EVIDENCE ==> ValidID(c.evidenceSpecIndexes[i], |c.evidenceSpecs|))
    && (c.opcodes[i] == OP_ALL ==> c.operandCounts[i] != 0)
    && (forall j :: 0 <= j < c.operandCounts[i] ==> OperandValid(c, i, j))
  }

  predicate CodeSafe(c: Code) {
    Aligned(c) && forall i :: 0 <= i < |c.opcodes| ==> StepSafe(c, i)
  }

  lemma {:induction false} ValidCodeIsSafe(c: Code, n: nat)
    requires CodeValid(c, n)
    ensures CodeSafe(c)
  {
    forall i | 0 <= i < |c.opcodes|
      ensures StepSafe(c, i)
    {
      assert InstructionValid(c, n, i);
    }
  }

  function SetOf(c: Code, i: nat): seq<nat>
    requires Aligned(c) && i < |c.opcodes| && StepSafe(c, i)
  {
    c.setValues[c.setStarts[i]..c.setStarts[i] + c.setCounts[i]]
  }

  function OperandVerdicts(c: Code, i: nat, done: seq<Verdict>): seq<Verdict>
    requires Aligned(c) && i < |c.opcodes| && StepSafe(c, i) && |done| == i
  {
    seq(c.operandCounts[i], j requires 0 <= j < c.operandCounts[i] =>
      assert OperandValid(c, i, j); done[c.operands[c.operandStarts[i] + j] - 1])
  }

  function CellVerdict(cell: Cell, matches: bool): Verdict {
    if !cell.present then MISSING else if !cell.valid then UNCLEAR else if matches then SATISFIED else FALSE
  }

  /** The verdict of instruction i given the verdicts of the instructions before it. */
  function Step(c: Code, row: RowView, records: seq<Record>, i: nat, done: seq<Verdict>): Verdict
    requires Aligned(c) && i < |c.opcodes| && StepSafe(c, i) && |done| == i
  {
    if c.opcodes[i] == OP_EQUAL then
      var cell := row.At(c.fields[i]);
      CellVerdict(cell, cell.symbol == c.values[i])
    else if c.opcodes[i] == OP_IN then
      var cell := row.At(c.fields[i]);
      CellVerdict(cell, cell.symbol in SetOf(c, i))
    else if c.opcodes[i] == OP_EVIDENCE then
      GradeVerdict(EdgesGrade(c.evidenceSpecs[c.evidenceSpecIndexes[i] - 1], records, row.refs))
    else
      Conj(OperandVerdicts(c, i, done))
  }

  /** One pass over the first k instructions. */
  function Run(c: Code, row: RowView, records: seq<Record>, k: nat): (vs: seq<Verdict>)
    requires CodeSafe(c) && k <= |c.opcodes|
    ensures |vs| == k
  {
    if k == 0 then []
    else
      var done := Run(c, row, records, k - 1);
      assert StepSafe(c, k - 1);
      done + [Step(c, row, records, k - 1, done)]
  }

  lemma {:induction false} RunPrefix(c: Code, row: RowView, records: seq<Record>, j: nat, k: nat)
    requires CodeSafe(c) && j <= k <= |c.opcodes|
    ensures Run(c, row, records, j) == Run(c, row, records, k)[..j]
  {
    if j < k { RunPrefix(c, row, records, j, k - 1); }
  }

  function VerdictAt(c: Code, row: RowView, records: seq<Record>, id: nat): Verdict
    requires CodeSafe(c) && ValidID(id, |c.opcodes|)
  {
    Run(c, row, records, |c.opcodes|)[id - 1]
  }

  /** Later instructions never change the verdict of an earlier one. */
  lemma {:induction false} VerdictAtStep(c: Code, row: RowView, records: seq<Record>, i: nat)
    requires CodeSafe(c) && i < |c.opcodes|
    ensures StepSafe(c, i)
    ensures VerdictAt(c, row, records, i + 1) == Step(c, row, records, i, Run(c, row, records, i))
  {
    assert StepSafe(c, i);
    RunPrefix(c, row, records, i + 1, |c.opcodes|);
  }

  lemma {:induction false} GradeVerdictCoherent(g: nat)
    ensures Coherent(GradeVerdict(g))
  {}

  /** After every run each instruction has a coherent verdict: one reason, the one its truth bits
      call for, and never Unverifiable. */
  lemma {:induction false} RunCoherent(c: Code, row: RowView, records: seq<Record>, k: nat)
    requires CodeSafe(c) && k <= |c.opcodes|
    ensures forall i :: 0 <= i < k ==> Coherent(Run(c, row, records, k)[i])
  {
    if k > 0 {
      RunCoherent(c, row, records, k - 1);
      var done, i := Run(c, row, records, k - 1), k - 1;
      assert StepSafe(c, i);
      if c.opcodes[i] == OP_ALL {
        var vs := OperandVerdicts(c, i, done);
        forall j | 0 <= j < |vs|
          ensures Coherent(vs[j])
        {
          assert OperandValid(c, i, j);
        }
        ConjCoherent(vs);
      } else if c.opcodes[i] == OP_EVIDENCE {
        GradeVerdictCoherent(EdgesGrade(c.evidenceSpecs[c.evidenceSpecIndexes[i] - 1], records, row.refs));
      }
      assert Coherent(Step(c, row, records, i, done));
    }
  }
}
