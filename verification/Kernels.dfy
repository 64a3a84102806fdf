/** The instruction kernels (internal/eval/scalar.go, internal/eval/evidence.go). Each instruction
    fills its own planes for all rows before the next one runs; the row-by-row meaning is Rows.Run. */
module Kernels {
  import opened Schema
  import opened Bits
  import opened Planes
  import opened Verdicts
  import opened Programs
  import opened Rows
  import opened Batches
  import opened Contexts

  /** What the planes hold for instruction j and row r once instructions below k are done and
      instruction k is done for the rows below row. */
  function Expected(c: Code, b: Batch, k: nat, row: nat, j: nat, r: nat): Verdict
    requires CodeSafe(c) && BatchShaped(b) && j < |c.opcodes|
  {
    if r < b.rows && (j < k || (j == k && r < row))
    then VerdictAt(c, RowOf(b, r), RecordsOf(b), j + 1) else BLANK
  }

  ghost predicate CellShows(context: Context, c: Code, b: Batch, k: nat, row: nat, j: nat, r: nat)
    requires CodeSafe(c) && BatchShaped(b) && j < |c.opcodes|
    reads context
  {
    context.Shows(j, r, Expected(c, b, k, row, j, r))
  }

  ghost predicate Progress(context: Context, c: Code, b: Batch, k: nat, row: nat)
    requires CodeSafe(c) && BatchShaped(b)
    reads context
  {
    && context.Shaped(b.rows, |c.opcodes|)
    && forall j: nat, r: nat | j < |c.opcodes| :: CellShows(context, c, b, k, row, j, r)
  }

  /** Finishing the last row of an instruction is being ready for the next instruction. */
  lemma {:induction false} NextInstruction(context: Context, c: Code, b: Batch, k: nat)
    requires CodeSafe(c) && BatchShaped(b) && Progress(context, c, b, k, b.rows)
    ensures Progress(context, c, b, k + 1, 0)
  {
    hide VerdictAt, RowOf, RecordsOf, Context.Shows, Context.Shaped;
    var next := k + 1;
    forall j: nat, r: nat | j < |c.opcodes|
      ensures CellShows(context, c, b, next, 0, j, r)
    {
      assert CellShows(context, c, b, k, b.rows, j, r);
    }
  }

  /** Recording the verdict of one row moves the instruction to its next row. */
  method RecordRow(context: Context, c: Code, b: Batch, k: nat, row: nat, v: Verdict)
    requires CodeSafe(c) && BatchShaped(b) && Progress(context, c, b, k, row)
    requires k < |c.opcodes| && row < b.rows && StepSafe(c, k)
    requires v == Step(c, RowOf(b, row), RecordsOf(b), k, Run(c, RowOf(b, row), RecordsOf(b), k))
    modifies context
    ensures Progress(context, c, b, k, row + 1)
  {
    hide Context.Shows, RowOf, RecordsOf, Step, VerdictAt, Run;
    VerdictAtStep(c, RowOf(b, row), RecordsOf(b), k);
    assert 1 <= v.reason <= REASON_COUNT by { StepReason(c, RowOf(b, row), RecordsOf(b), k); }
    assert CellShows(context, c, b, k, row, k, row);
    label before:
    context.Record(k, row, v);
    var next := row + 1;
    forall j: nat, r: nat | j < |c.opcodes|
      ensures CellShows(context, c, b, k, next, j, r)
    {
      assert old@before(CellShows(context, c, b, k, row, j, r));
    }
  }

  lemma {:induction false} StepReason(c: Code, row: RowView, records: seq<Record>, k: nat)
    requires CodeSafe(c) && k < |c.opcodes| && StepSafe(c, k)
    ensures 1 <= Step(c, row, records, k, Run(c, row, records, k)).reason <= REASON_COUNT
  {
    RunCoherent(c, row, records, k + 1);
    assert Coherent(Run(c, row, records, k + 1)[k]);
  }

  // ----- equal and in

  method EvaluateEqual(context: Context, c: Code, b: Batch, k: nat)
    requires CodeSafe(c) && BatchShaped(b) && b.words == WordCount(b.rows)
    requires k < |c.opcodes| && StepSafe(c, k) && c.opcodes[k] == OP_EQUAL
    requires Progress(context, c, b, k, 0)
    modifies context
    ensures Progress(context, c, b, k, b.rows)
  {
    hide PlaneBit, Progress, EvidenceShaped, EdgesShaped, Run, Context.Shaped;
    var f, want := c.fields[k], c.values[k];
    for row := 0 to b.rows
      invariant Progress(context, c, b, k, row)
    {
      ValueIndexFits(b.rows, f, row);
      var v;
      if !PlaneBit(b.present, b.words, f - 1, row) {
        v := MISSING;
      } else if !PlaneBit(b.valid, b.words, f - 1, row) {
        v := UNCLEAR;
      } else if b.values[ValueIndex(b.rows, f, row)] == want {
        v := SATISFIED;
      } else {
        v := FALSE;
      }
      RecordRow(context, c, b, k, row, v);
    }
  }

  method EvaluateIn(context: Context, c: Code, b: Batch, k: nat)
    requires CodeSafe(c) && BatchShaped(b) && b.words == WordCount(b.rows)
    requires k < |c.opcodes| && StepSafe(c, k) && c.opcodes[k] == OP_IN
    requires Progress(context, c, b, k, 0)
    modifies context
    ensures Progress(context, c, b, k, b.rows)
  {
    hide PlaneBit, Progress, EvidenceShaped, EdgesShaped, Run, Context.Shaped;
    var f, candidates := c.fields[k], SetOf(c, k);
    for row := 0 to b.rows
      invariant Progress(context, c, b, k, row)
    {
      ValueIndexFits(b.rows, f, row);
      var v;
      if !PlaneBit(b.present, b.words, f - 1, row) {
        v := MISSING;
      } else if !PlaneBit(b.valid, b.words, f - 1, row) {
        v := UNCLEAR;
      } else {
        var matched := Contains(candidates, b.values[ValueIndex(b.rows, f, row)]);
        v := if matched then SATISFIED else FALSE;
      }
      RecordRow(context, c, b, k, row, v);
    }
  }

  /** The candidate scan of evaluateIn. */
  method Contains(candidates: seq<nat>, value: nat) returns (matched: bool)
    ensures matched <==> value in candidates
  {
    for i := 0 to |candidates|
      invariant value !in candidates[..i]
    {
      if candidates[i] == value { return true; }
      assert candidates[..i + 1] == candidates[..i] + [candidates[i]];
    }
    assert candidates[..|candidates|] == candidates;
    return false;
  }

  // ----- evidence

  /** The grade that the kernel's six flags stand for. */
  function FlagsGrade(conflict: bool, stale: bool, revoked: bool, unclear: bool, satisfied: bool, wrong: bool): nat {
    if conflict then GRADE_CONFLICT
    else if stale then GRADE_STALE
    else if revoked then GRADE_REVOKED
    else if unclear then GRADE_UNCLEAR
    else if satisfied then GRADE_SATISFIED
    else if wrong then GRADE_WRONG
    else GRADE_MISSING
  }

  /** qualifierMismatch: an absent qualifier is no mismatch but leaves the record unclear. */
  method QualifierMismatch(have: nat, present: bool, want: nat, unclear: bool)
    returns (mismatch: bool, unclear': bool)
    ensures mismatch <==> want != 0 && present && have != want
    ensures unclear' <==> unclear || (want != 0 && !present)
  {
    unclear' := unclear;
    if want == 0 { return false, unclear'; }
    if !present { return false, true; }
    return have != want, unclear';
  }

  method ClassifyQualifiers(b: Batch, i: nat, spec: EvidenceSpec) returns (grade: nat)
    requires EvidenceShaped(b) && i < |b.kinds|
    ensures grade == MarkGrade(spec, RecordOf(b, i))
  {
    hide BitAt, EvidenceSpec.Wanted;
    ghost var have := RecordOf(b, i);
    var unclear := false;
    for q := 0 to QUALIFIER_COUNT
      invariant forall p :: 0 <= p < q ==> !WrongMark(spec, have, p)
      invariant unclear <==> exists p :: 0 <= p < q && OpenMark(spec, have, p)
    {
      var mismatch;
      ghost var was := unclear;
      mismatch, unclear := QualifierMismatch(b.qualifiers[q][i], BitAt(b.presentMasks[i], q), spec.Wanted(q), unclear);
      assert have.At(q) == Mark(b.qualifiers[q][i], BitAt(b.presentMasks[i], q));
      assert unclear <==> was || OpenMark(spec, have, q);
      if mismatch {
        assert WrongMark(spec, have, q);
        return GRADE_WRONG;
      }
    }
    return if unclear then GRADE_UNCLEAR else GRADE_SATISFIED;
  }

  /** The switch of evaluateEvidence on one nonzero reference. */
  method GradeEdge(b: Batch, spec: EvidenceSpec, ref: nat) returns (grade: nat)
    requires EvidenceShaped(b) && 1 <= ref <= |b.kinds|
    ensures grade == EdgeGrade(spec, RecordsOf(b), ref) <= GRADE_CONFLICT
  {
    hide MarkGrade, RecordOf, BitAt;
    var i := ref - 1;
    RecordFields(b, i);
    if b.kinds[i] != spec.kind { return GRADE_MISSING; }
    if BitAt(b.flags[i], FLAG_CONFLICT) { return GRADE_CONFLICT; }
    if BitAt(b.flags[i], FLAG_STALE) { return GRADE_STALE; }
    if BitAt(b.flags[i], FLAG_REVOKED) { return GRADE_REVOKED; }
    MarkGradeCases(spec, RecordOf(b, i));
    grade := ClassifyQualifiers(b, i, spec);
  }

  method EvidenceGrade(b: Batch, spec: EvidenceSpec, row: nat) returns (grade: nat)
    requires EvidenceShaped(b) && EdgesShaped(b) && row < b.rows
    ensures grade == EdgesGrade(spec, RecordsOf(b), b.refs[b.offsets[row]..b.offsets[row + 1]])
  {
    hide RecordsOf, EdgeGrade;
    var start, end := b.offsets[row], b.offsets[row + 1];
    var conflict, stale, revoked, unclear, satisfied, wrong := false, false, false, false, false, false;
    ghost var refs := b.refs[start..end];
    for edge := start to end
      invariant FlagsGrade(conflict, stale, revoked, unclear, satisfied, wrong)
             == EdgesGrade(spec, RecordsOf(b), refs[..edge - start])
    {
      var ref := b.refs[edge];
      assert refs[..edge - start + 1] == refs[..edge - start] + [ref];
      assert refs[..edge - start + 1][..edge - start] == refs[..edge - start];
      if ref != 0 {
        var g := GradeEdge(b, spec, ref);
        conflict := conflict || g == GRADE_CONFLICT;
        stale := stale || g == GRADE_STALE;
        revoked := revoked || g == GRADE_REVOKED;
        unclear := unclear || g == GRADE_UNCLEAR;
        satisfied := satisfied || g == GRADE_SATISFIED;
        wrong := wrong || g == GRADE_WRONG;
      } else {
        assert EdgeGrade(spec, RecordsOf(b), ref) == GRADE_MISSING by { NoEdge(spec, RecordsOf(b)); }
      }
    }
    assert refs[..end - start] == refs;
    return FlagsGrade(conflict, stale, revoked, unclear, satisfied, wrong);
  }

  lemma {:induction false} NoEdge(spec: EvidenceSpec, records: seq<Record>)
    ensures EdgeGrade(spec, records, 0) == GRADE_MISSING
  {}

  lemma {:induction false} RecordFields(b: Batch, i: nat)
    requires EvidenceShaped(b) && i < |b.kinds|
    ensures RecordOf(b, i).kind == b.kinds[i]
    ensures RecordOf(b, i).conflict == BitAt(b.flags[i], FLAG_CONFLICT)
    ensures RecordOf(b, i).stale == BitAt(b.flags[i], FLAG_STALE)
    ensures RecordOf(b, i).revoked == BitAt(b.flags[i], FLAG_REVOKED)
  {}

  lemma {:induction false} MarkGradeCases(want: EvidenceSpec, have: Record)
    ensures MarkGrade(want, have) in {GRADE_WRONG, GRADE_UNCLEAR, GRADE_SATISFIED}
  {}

  method EvaluateEvidence(context: Context, c: Code, b: Batch, k: nat)
    requires CodeSafe(c) && BatchShaped(b)
    requires k < |c.opcodes| && StepSafe(c, k) && c.opcodes[k] == OP_EVIDENCE
    requires Progress(context, c, b, k, 0)
    modifies context
    ensures Progress(context, c, b, k, b.rows)
  {
    hide PlaneBit, Progress, ColumnsShaped, Run, Context.Shaped, RecordsOf, EdgesGrade;
    var spec := c.evidenceSpecs[c.evidenceSpecIndexes[k] - 1];
    for row := 0 to b.rows
      invariant Progress(context, c, b, k, row)
    {
      var grade := EvidenceGrade(b, spec, row);
      RecordRow(context, c, b, k, row, GradeVerdict(grade));
    }
  }

  // ----- all

  /** The verdict that instruction k must end up with for row r. */
  function Target(c: Code, b: Batch, k: nat, r: nat): Verdict
    requires CodeSafe(c) && BatchShaped(b) && k < |c.opcodes|
  {
    if r < b.rows then VerdictAt(c, RowOf(b, r), RecordsOf(b), k + 1) else BLANK
  }

  /** What the planes hold while `all` instruction k runs: its truth bits are final in the words
      below w, its reasons are final for the rows below row, other instructions are as before. */
  function Pending(c: Code, b: Batch, k: nat, w: nat, row: nat, j: nat, r: nat): Verdict
    requires CodeSafe(c) && BatchShaped(b) && j < |c.opcodes| && k < |c.opcodes|
  {
    if j != k then Expected(c, b, k, 0, j, r)
    else if r < row then Target(c, b, k, r)
    else if r / 64 < w then Target(c, b, k, r).(reason := 0)
    else BLANK
  }

  ghost predicate PendingShows(context: Context, c: Code, b: Batch, k: nat, w: nat, row: nat, j: nat, r: nat)
    requires CodeSafe(c) && BatchShaped(b) && j < |c.opcodes| && k < |c.opcodes|
    reads context
  {
    context.Shows(j, r, Pending(c, b, k, w, row, j, r))
  }

  ghost predicate AllProgress(context: Context, c: Code, b: Batch, k: nat, w: nat, row: nat)
    requires CodeSafe(c) && BatchShaped(b) && k < |c.opcodes|
    reads context
  {
    && context.Shaped(b.rows, |c.opcodes|)
    && forall j: nat, r: nat | j < |c.opcodes| :: PendingShows(context, c, b, k, w, row, j, r)
  }

  lemma {:induction false} StartAll(context: Context, c: Code, b: Batch, k: nat)
    requires CodeSafe(c) && BatchShaped(b) && k < |c.opcodes| && Progress(context, c, b, k, 0)
    ensures AllProgress(context, c, b, k, 0, 0)
  {
    hide Context.Shows, VerdictAt, RowOf, RecordsOf;
    forall j: nat, r: nat | j < |c.opcodes|
      ensures PendingShows(context, c, b, k, 0, 0, j, r)
    {
      assert CellShows(context, c, b, k, 0, j, r);
    }
  }

  lemma {:induction false} EndAll(context: Context, c: Code, b: Batch, k: nat)
    requires CodeSafe(c) && BatchShaped(b) && k < |c.opcodes|
    requires AllProgress(context, c, b, k, WordCount(b.rows), b.rows)
    ensures Progress(context, c, b, k, b.rows)
  {
    hide Context.Shows, VerdictAt, RowOf, RecordsOf;
    var words := WordCount(b.rows);
    forall j: nat, r: nat | j < |c.opcodes|
      ensures CellShows(context, c, b, k, b.rows, j, r)
    {
      assert PendingShows(context, c, b, k, words, b.rows, j, r);
    }
  }

  /** What an operand of `all` instruction k shows, and what the instruction's verdict is. */
  lemma {:induction false} OperandShows(context: Context, c: Code, b: Batch, k: nat, w: nat, row: nat, r: nat, o: nat)
    requires CodeSafe(c) && BatchShaped(b) && k < |c.opcodes| && StepSafe(c, k)
    requires AllProgress(context, c, b, k, w, row) && o < c.operandCounts[k]
    ensures OperandValid(c, k, o)
    ensures var i := c.operands[c.operandStarts[k] + o] - 1;
      if r < b.rows
      then context.Shows(i, r, OperandVerdicts(c, k, Run(c, RowOf(b, r), RecordsOf(b), k))[o])
      else context.Shows(i, r, BLANK)
  {
    hide Context.Shows, RowOf, RecordsOf;
    assert OperandValid(c, k, o);
    var i := c.operands[c.operandStarts[k] + o] - 1;
    assert PendingShows(context, c, b, k, w, row, i, r);
    if r < b.rows { RunPrefix(c, RowOf(b, r), RecordsOf(b), k, |c.opcodes|); }
  }

  lemma {:induction false} TargetIsConj(c: Code, b: Batch, k: nat, r: nat)
    requires CodeSafe(c) && BatchShaped(b) && k < |c.opcodes| && StepSafe(c, k) && c.opcodes[k] == OP_ALL
    requires r < b.rows
    ensures Target(c, b, k, r) == Conj(OperandVerdicts(c, k, Run(c, RowOf(b, r), RecordsOf(b), k)))
  {
    hide RowOf, RecordsOf, Run;
    VerdictAtStep(c, RowOf(b, r), RecordsOf(b), k);
  }

  /** One word of the conjunction: the AND of the operands' positive words, the OR of their
      negative words. */
  method ConjunctionWord(context: Context, c: Code, b: Batch, k: nat, w: nat) returns (pos: nat, neg: nat)
    requires CodeSafe(c) && BatchShaped(b) && k < |c.opcodes| && StepSafe(c, k) && c.opcodes[k] == OP_ALL
    requires AllProgress(context, c, b, k, w, 0) && w < WordCount(b.rows)
    ensures forall r: nat | r / 64 == w ::
      BitAt(pos, r % 64) == Target(c, b, k, r).pos && BitAt(neg, r % 64) == Target(c, b, k, r).neg
  {
    hide BitAt, PlaneBit, RowOf, RecordsOf, Run, Step, OperandVerdicts, Pending, PriorityReason;
    pos, neg := ALL_ONES, 0;
    forall r: nat
      ensures BitAt(ALL_ONES, r % 64) && !BitAt(0, r % 64)
    {
      BitAtOnes(r % 64);
      BitAtZero(r % 64);
    }
    var words := context.words;
    for o := 0 to c.operandCounts[k]
      invariant forall r: nat | r / 64 == w :: BitAt(pos, r % 64) == PosUpTo(context, c, k, r, o)
      invariant forall r: nat | r / 64 == w :: BitAt(neg, r % 64) == NegUpTo(context, c, k, r, o)
    {
      assert OperandValid(c, k, o);
      var i := c.operands[c.operandStarts[k] + o] - 1;
      MulStep(i, |c.opcodes|, words);
      var p, n := context.positive.items[i * words + w], context.negative.items[i * words + w];
      forall r: nat | r / 64 == w
        ensures BitAt(And(pos, p), r % 64) == PosUpTo(context, c, k, r, o + 1)
        ensures BitAt(Or(neg, n), r % 64) == NegUpTo(context, c, k, r, o + 1)
      {
        BitAtAnd(pos, p, r % 64);
        BitAtOr(neg, n, r % 64);
        context.WordRead(i, r);
      }
      pos, neg := And(pos, p), Or(neg, n);
    }
    forall r: nat | r / 64 == w
      ensures BitAt(pos, r % 64) == Target(c, b, k, r).pos && BitAt(neg, r % 64) == Target(c, b, k, r).neg
    {
      OperandsDecide(context, c, b, k, w, r);
    }
  }

  /** The first o operands of instruction k are all positive in row r. */
  predicate PosUpTo(context: Context, c: Code, k: nat, r: nat, o: nat)
    requires Aligned(c) && k < |c.opcodes| && StepSafe(c, k) && o <= c.operandCounts[k]
    reads context
  {
    o == 0 || (PosUpTo(context, c, k, r, o - 1) && OperandValid(c, k, o - 1)
               && context.Pos(c.operands[c.operandStarts[k] + o - 1] - 1, r))
  }

  predicate NegUpTo(context: Context, c: Code, k: nat, r: nat, o: nat)
    requires Aligned(c) && k < |c.opcodes| && StepSafe(c, k) && o <= c.operandCounts[k]
    reads context
  {
    o != 0 && (NegUpTo(context, c, k, r, o - 1)
               || (OperandValid(c, k, o - 1) && context.Neg(c.operands[c.operandStarts[k] + o - 1] - 1, r)))
  }

  lemma {:induction false} UpToOperands(context: Context, c: Code, b: Batch, k: nat, w: nat, r: nat, o: nat)
    requires CodeSafe(c) && BatchShaped(b) && k < |c.opcodes| && StepSafe(c, k)
    requires AllProgress(context, c, b, k, w, 0) && o <= c.operandCounts[k]
    ensures r < b.rows ==>
      var vs := OperandVerdicts(c, k, Run(c, RowOf(b, r), RecordsOf(b), k));
      && PosUpTo(context, c, k, r, o) == AllPositive(vs[..o])
      && NegUpTo(context, c, k, r, o) == SomeNegative(vs[..o])
    ensures r >= b.rows ==> (PosUpTo(context, c, k, r, o) <==> o == 0) && !NegUpTo(context, c, k, r, o)
  {
    hide PlaneBit, RowOf, RecordsOf, Run, OperandVerdicts, Progress, AllProgress, StepSafe, EdgesShaped;
    if o > 0 {
      UpToOperands(context, c, b, k, w, r, o - 1);
      OperandShows(context, c, b, k, w, 0, r, o - 1);
      if r < b.rows {
        var vs := OperandVerdicts(c, k, Run(c, RowOf(b, r), RecordsOf(b), k));
        OperandCount(c, k, Run(c, RowOf(b, r), RecordsOf(b), k));
        var front := vs[..o - 1];
        assert vs[..o] == front + [vs[o - 1]];
        assert AllPositive(vs[..o]) == (AllPositive(front) && vs[o - 1].pos);
        assert SomeNegative(vs[..o]) == (SomeNegative(front) || vs[o - 1].neg);
      }
    }
  }

  lemma {:induction false} OperandCount(c: Code, k: nat, done: seq<Verdict>)
    requires Aligned(c) && k < |c.opcodes| && StepSafe(c, k) && |done| == k
    ensures |OperandVerdicts(c, k, done)| == c.operandCounts[k]
  {}

  lemma {:induction false} OperandsDecide(context: Context, c: Code, b: Batch, k: nat, w: nat, r: nat)
    requires CodeSafe(c) && BatchShaped(b) && k < |c.opcodes| && StepSafe(c, k) && c.opcodes[k] == OP_ALL
    requires AllProgress(context, c, b, k, w, 0)
    ensures PosUpTo(context, c, k, r, c.operandCounts[k]) == Target(c, b, k, r).pos
    ensures NegUpTo(context, c, k, r, c.operandCounts[k]) == Target(c, b, k, r).neg
  {
    var n := c.operandCounts[k];
    UpToOperands(context, c, b, k, w, r, n);
    if r < b.rows {
      TargetIsConj(c, b, k, r);
      var vs := OperandVerdicts(c, k, Run(c, RowOf(b, r), RecordsOf(b), k));
      OperandCount(c, k, Run(c, RowOf(b, r), RecordsOf(b), k));
      assert vs[..n] == vs;
    }
  }

  /** The priority scan over reasons and operands for an undecided row. */
  method SelectReason(context: Context, c: Code, b: Batch, k: nat, row: nat) returns (selected: nat)
    requires CodeSafe(c) && BatchShaped(b) && k < |c.opcodes| && StepSafe(c, k)
    requires row < b.rows && AllProgress(context, c, b, k, WordCount(b.rows), row)
    ensures selected == PriorityReason(OperandVerdicts(c, k, Run(c, RowOf(b, row), RecordsOf(b), k)), 0)
  {
    hide PlaneBit, RowOf, RecordsOf, Run, OperandVerdicts, Progress, AllProgress, EdgesShaped;
    ghost var done := Run(c, RowOf(b, row), RecordsOf(b), k);
    ghost var vs := OperandVerdicts(c, k, done);
    OperandCount(c, k, done);
    for p := 0 to |PRIORITY|
      invariant PriorityReason(vs, p) == PriorityReason(vs, 0)
    {
      var reason := PRIORITY[p];
      assert 1 <= reason <= REASON_COUNT;
      for o := 0 to c.operandCounts[k]
        invariant forall m :: 0 <= m < o ==> vs[m].reason != reason
      {
        OperandShows(context, c, b, k, WordCount(b.rows), row, row, o);
        if context.Rsn(reason, c.operands[c.operandStarts[k] + o] - 1, row) {
          assert SomeReason(vs, reason);
          return reason;
        }
      }
      assert !SomeReason(vs, reason);
    }
    return REASON_UNVERIFIABLE;
  }

  method EvaluateAll(context: Context, c: Code, b: Batch, k: nat)
    requires CodeSafe(c) && BatchShaped(b) && b.rows > 0
    requires k < |c.opcodes| && StepSafe(c, k) && c.opcodes[k] == OP_ALL
    requires Progress(context, c, b, k, 0)
    modifies context
    ensures Progress(context, c, b, k, b.rows)
  {
    hide PlaneBit, RowOf, RecordsOf, Run, VerdictAt, OperandVerdicts, Context.Shows, Progress, StepSafe,
         BatchShaped, PriorityReason, AllPositive, SomeNegative;
    var words := WordCount(b.rows);
    StartAll(context, c, b, k);
    for w := 0 to words
      invariant AllProgress(context, c, b, k, w, 0)
    {
      var pos, neg := ConjunctionWord(context, c, b, k, w);
      AdvanceWord(context, c, b, k, w, pos, neg);
    }
    MaskWords(context, c, b, k);
    for row := 0 to b.rows
      invariant AllProgress(context, c, b, k, words, row)
    {
      var reason := SelectRowReason(context, c, b, k, row);
      SettleRow(context, c, b, k, row, reason);
    }
    EndAll(context, c, b, k);
  }

  method AdvanceWord(context: Context, c: Code, b: Batch, k: nat, w: nat, pos: nat, neg: nat)
    requires CodeSafe(c) && BatchShaped(b) && k < |c.opcodes| && w < WordCount(b.rows)
    requires AllProgress(context, c, b, k, w, 0)
    requires forall r: nat | r / 64 == w ::
      BitAt(pos, r % 64) == Target(c, b, k, r).pos && BitAt(neg, r % 64) == Target(c, b, k, r).neg
    modifies context
    ensures AllProgress(context, c, b, k, w + 1, 0)
  {
    hide BitAt, Context.Shows, Target, Expected, BatchShaped, CodeSafe;
    label before:
    context.WriteWords(k, w, pos, neg);
    var next := w + 1;
    forall j: nat, r: nat | j < |c.opcodes|
      ensures PendingShows(context, c, b, k, next, 0, j, r)
    {
      assert old@before(PendingShows(context, c, b, k, w, 0, j, r));
    }
  }

  method MaskWords(context: Context, c: Code, b: Batch, k: nat)
    requires CodeSafe(c) && BatchShaped(b) && k < |c.opcodes| && b.rows > 0
    requires AllProgress(context, c, b, k, WordCount(b.rows), 0)
    modifies context
    ensures AllProgress(context, c, b, k, WordCount(b.rows), 0)
  {
    hide Context.Shows, VerdictAt, RowOf, RecordsOf, BatchShaped, CodeSafe;
    var words := WordCount(b.rows);
    label before:
    context.MaskTail(k);
    forall j: nat, r: nat | j < |c.opcodes|
      ensures PendingShows(context, c, b, k, words, 0, j, r)
    {
      assert old@before(PendingShows(context, c, b, k, words, 0, j, r));
    }
  }

  /** The reason switch of evaluateAll for one row. */
  method SelectRowReason(context: Context, c: Code, b: Batch, k: nat, row: nat) returns (reason: nat)
    requires CodeSafe(c) && BatchShaped(b) && k < |c.opcodes| && StepSafe(c, k) && c.opcodes[k] == OP_ALL
    requires row < b.rows && AllProgress(context, c, b, k, WordCount(b.rows), row)
    ensures reason == Target(c, b, k, row).reason
  {
    hide PlaneBit, RowOf, RecordsOf, Run, VerdictAt, OperandVerdicts, BatchShaped, CodeSafe, PriorityReason,
         AllPositive, SomeNegative;
    var words := WordCount(b.rows);
    assert PendingShows(context, c, b, k, words, row, k, row);
    TargetIsConj(c, b, k, row);
    var pos, neg := context.Pos(k, row), context.Neg(k, row);
    if pos && neg {
      reason := REASON_CONFLICT;
    } else if neg {
      reason := REASON_FALSE;
    } else if pos {
      reason := REASON_SATISFIED;
    } else {
      reason := SelectReason(context, c, b, k, row);
    }
  }

  method SettleRow(context: Context, c: Code, b: Batch, k: nat, row: nat, reason: nat)
    requires CodeSafe(c) && BatchShaped(b) && k < |c.opcodes| && StepSafe(c, k)
    requires row < b.rows && AllProgress(context, c, b, k, WordCount(b.rows), row)
    requires reason == Target(c, b, k, row).reason
    modifies context
    ensures AllProgress(context, c, b, k, WordCount(b.rows), row + 1)
  {
    hide Context.Shows, VerdictAt, RowOf, RecordsOf, Run, Step, Coherent;
    var words := WordCount(b.rows);
    VerdictAtStep(c, RowOf(b, row), RecordsOf(b), k);
    StepReason(c, RowOf(b, row), RecordsOf(b), k);
    assert PendingShows(context, c, b, k, words, row, k, row);
    label before:
    context.Settle(k, row, Target(c, b, k, row));
    var next := row + 1;
    forall j: nat, r: nat | j < |c.opcodes|
      ensures PendingShows(context, c, b, k, words, next, j, r)
    {
      assert old@before(PendingShows(context, c, b, k, words, row, j, r));
    }
  }

  // ----- the instruction loop

  /** validateEvidenceBatch. */
  method ValidateEvidence(b: Batch) returns (ok: bool)
    requires |b.qualifiers| == QUALIFIER_COUNT && |b.refs| <= MAX_UINT32
    ensures ok <==> EvidenceShaped(b) && EdgesShaped(b)
  {
    for q := 0 to QUALIFIER_COUNT
      invariant forall p :: 0 <= p < q ==> |b.qualifiers[p]| == |b.kinds|
    {
      if |b.qualifiers[q]| != |b.kinds| { return false; }
    }
    if |b.presentMasks| != |b.kinds| || |b.flags| != |b.kinds| { return false; }
    if |b.offsets| != b.rows + 1 { return false; }
    var previous := 0;
    for i := 0 to |b.offsets|
      invariant forall m :: 0 <= m < i ==> b.offsets[m] <= |b.refs|
      invariant forall m :: 0 <= m && m + 1 < i ==> b.offsets[m] <= b.offsets[m + 1]
      invariant previous == if i == 0 then 0 else b.offsets[i - 1]
    {
      if b.offsets[i] < previous || b.offsets[i] > |b.refs| { return false; }
      previous := b.offsets[i];
    }
    if previous != U32(|b.refs|) { return false; }
    for i := 0 to |b.refs|
      invariant forall m :: 0 <= m < i ==> b.refs[m] <= |b.kinds|
    {
      if b.refs[i] > |b.kinds| { return false; }
    }
    return true;
  }

  /** The planes show, for every instruction and row, the verdict of the row-by-row run, and nothing
      at or above the row count. */
  ghost predicate Evaluated(context: Context, c: Code, b: Batch)
    requires CodeSafe(c) && BatchShaped(b)
    reads context
  {
    && context.Shaped(b.rows, |c.opcodes|)
    && forall j: nat, r: nat | j < |c.opcodes| :: context.Shows(j, r, Target(c, b, j, r))
  }

  /** The word count of the batch is that of its rows. Where the evaluator's own 32-bit count differs,
      above 2^32 - 64 rows, the columns have the shape that the builder gives them. */
  predicate WordsConsistent(b: Batch) {
    b.words == WordCount(b.rows) && (b.rows + 63 > MAX_UINT32 ==> ColumnsShaped(b))
  }

  /** EvaluateInstructions: rejects a context or a batch of the wrong shape, and any batch above
      2^32 - 64 rows, and changes nothing; else runs every instruction over all rows. */
  method EvaluateInstructions(context: Context, c: Code, b: Batch) returns (ok: bool)
    requires CodeSafe(c)
    requires b.rows <= MAX_UINT32 && WordsConsistent(b)
    requires |b.qualifiers| == QUALIFIER_COUNT && |b.refs| <= MAX_UINT32
    modifies context
    ensures ok <==> b.rows + 63 <= MAX_UINT32 && old(context.Shaped(b.rows, |c.opcodes|)) && BatchShaped(b)
    ensures ok ==> Evaluated(context, c, b)
    ensures !ok ==> unchanged(context)
  {
    hide EvidenceShaped, EdgesShaped, CodeSafe, VerdictAt, RowOf, RecordsOf, Context.Shows, Evaluated, Progress;
    var words, instructions := U32(b.rows + 63) / 64, |c.opcodes|;
    if context.rows != b.rows || context.words != words || context.instructions != instructions
       || |context.positive.items| != words * instructions
       || |context.negative.items| != words * instructions
       || |context.reasons.items| != REASON_COUNT * words * instructions {
      return false;
    }
    if |b.values| != (FIELD_COUNT - 1) * b.rows || |b.present| != (FIELD_COUNT - 1) * words
       || |b.valid| != (FIELD_COUNT - 1) * words || |b.issueMasks| != b.rows {
      return false;
    }
    ok := ValidateEvidence(b);
    if !ok { return; }
    context.Clear();
    if b.rows == 0 {
      EmptyRun(context, c, b);
      return true;
    }
    StartRun(context, c, b);
    for k := 0 to |c.opcodes|
      invariant Progress(context, c, b, k, 0)
    {
      RunInstruction(context, c, b, k);
      NextInstruction(context, c, b, k);
    }
    EndRun(context, c, b);
    return true;
  }

  lemma {:induction false} StartRun(context: Context, c: Code, b: Batch)
    requires CodeSafe(c) && BatchShaped(b) && context.Shaped(b.rows, |c.opcodes|)
    requires forall i, row :: context.Shows(i, row, BLANK)
    ensures Progress(context, c, b, 0, 0)
  {
    hide Context.Shows;
    forall j: nat, r: nat | j < |c.opcodes|
      ensures CellShows(context, c, b, 0, 0, j, r)
    {
      assert context.Shows(j, r, BLANK);
    }
  }

  lemma {:induction false} EmptyRun(context: Context, c: Code, b: Batch)
    requires CodeSafe(c) && BatchShaped(b) && b.rows == 0 && context.Shaped(b.rows, |c.opcodes|)
    requires forall i, row :: context.Shows(i, row, BLANK)
    ensures Evaluated(context, c, b)
  {
    hide Context.Shows, VerdictAt, RowOf, RecordsOf;
  }

  lemma {:induction false} EndRun(context: Context, c: Code, b: Batch)
    requires CodeSafe(c) && BatchShaped(b) && Progress(context, c, b, |c.opcodes|, 0)
    ensures Evaluated(context, c, b)
  {
    hide Context.Shows, VerdictAt, RowOf, RecordsOf;
    var n := |c.opcodes|;
    forall j: nat, r: nat | j < |c.opcodes|
      ensures context.Shows(j, r, Target(c, b, j, r))
    {
      assert CellShows(context, c, b, n, 0, j, r);
    }
  }

  /** The opcode switch. */
  method RunInstruction(context: Context, c: Code, b: Batch, k: nat)
    requires CodeSafe(c) && BatchShaped(b) && b.words == WordCount(b.rows) && b.rows > 0
    requires k < |c.opcodes| && Progress(context, c, b, k, 0)
    modifies context
    ensures Progress(context, c, b, k, b.rows)
  {
    hide BatchShaped, Progress, OperandValid;
    assert StepSafe(c, k);
    if c.opcodes[k] == OP_EQUAL {
      EvaluateEqual(context, c, b, k);
    } else if c.opcodes[k] == OP_IN {
      EvaluateIn(context, c, b, k);
    } else if c.opcodes[k] == OP_ALL {
      EvaluateAll(context, c, b, k);
    } else if c.opcodes[k] == OP_EVIDENCE {
      EvaluateEvidence(context, c, b, k);
    } else {
      assert false;
    }
  }
}
