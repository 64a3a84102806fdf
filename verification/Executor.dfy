/** Running a program over a batch and resolving every row into caller-owned columns
    (internal/eval/executor.go). */
module Executor {
  import opened Schema
  import opened Bits
  import opened Planes
  import opened Verdicts
  import opened Findings
  import opened Programs
  import opened Rows
  import opened Resolution
  import opened Batches
  import opened Contexts
  import opened Kernels
  import opened Results

  /** The `rank > winnerRank` step. */
  function Prefer(precedence: seq<nat>, w: Finding, f: Finding): (r: Finding)
    requires |precedence| == OUTCOME_COUNT && OutcomeKnown(w) && OutcomeKnown(f)
    ensures OutcomeKnown(r)
  {
    if Rank(precedence, f) > Rank(precedence, w) then f else w
  }

  lemma {:induction false} PreferIsBest(precedence: seq<nat>, fs: seq<Finding>, f: Finding)
    requires |precedence| == OUTCOME_COUNT && AllKnown(fs) && OutcomeKnown(f)
    ensures AllKnown(fs + [f])
    ensures Best(precedence, fs + [f]) == Prefer(precedence, Best(precedence, fs), f)
  {
    BestAppend(precedence, fs, f);
  }

  // ----- semantic issues and missing references

  /** The winner so far is nothing, or escalates without naming a clause. */
  predicate Escalated(w: Finding) {
    w == NOTHING_FOUND || w.outcome == OUTCOME_ESCALATE
  }

  method ScanSemantics(precedence: seq<nat>, b: Batch, row: nat) returns (w: Finding)
    requires |precedence| == OUTCOME_COUNT && BatchShaped(b) && row < b.rows
    ensures AllKnown(RowSemantics(RowOf(b, row)))
    ensures w == Best(precedence, RowSemantics(RowOf(b, row))) && Escalated(w)
  {
    hide BatchShaped, RowOf, BitAt, PlaneBit;
    ghost var v := RowOf(b, row);
    w := NOTHING_FOUND;
    for f := FIELD_REQUESTER to FIELD_COUNT
      invariant w == NOTHING_FOUND
      invariant IssueField(v, FIELD_REQUESTER) == IssueField(v, f)
    {
      RowCell(b, row, f);
      if BitAt(b.issueMasks[row], f - 1) {
        var reason := if PlaneBit(b.present, b.words, f - 1, row) then REASON_UNCLEAR else REASON_MISSING;
        PreferIsBest(precedence, [], SemanticFinding(v.At(f).present, f));
        assert [] + [SemanticFinding(v.At(f).present, f)] == RowSemantics(v);
        if precedence[OUTCOME_ESCALATE - 1] > Rank(precedence, w) {
          w := w.(outcome := OUTCOME_ESCALATE, kind := DRIVER_SEMANTIC, reason := reason, field := f);
        }
        return;
      }
    }
  }

  lemma {:induction false} RowCell(b: Batch, row: nat, f: nat)
    requires BatchShaped(b) && row < b.rows && 1 <= f < FIELD_COUNT
    ensures row < |b.issueMasks|
    ensures RowOf(b, row).At(f).issue == BitAt(b.issueMasks[row], f - 1)
    ensures RowOf(b, row).At(f).present == PlaneBit(b.present, b.words, f - 1, row)
  {
    assert RowOf(b, row).At(f) == CellOf(b, f, row);
  }

  lemma {:induction false} RowRefs(b: Batch, row: nat)
    requires BatchShaped(b) && row < b.rows
    ensures row + 1 < |b.offsets| && b.offsets[row] <= b.offsets[row + 1] <= |b.refs|
    ensures RowOf(b, row).refs == b.refs[b.offsets[row]..b.offsets[row + 1]]
    ensures forall r :: r in RowOf(b, row).refs ==> r <= |b.kinds|
    ensures |RecordsOf(b)| == |b.kinds|
  {}

  method ScanReferences(precedence: seq<nat>, b: Batch, row: nat, start: Finding, ghost fs: seq<Finding>)
    returns (w: Finding)
    requires |precedence| == OUTCOME_COUNT && BatchShaped(b) && row < b.rows
    requires AllKnown(fs) && start == Best(precedence, fs) && Escalated(start)
    ensures var found := RowReferences(RowOf(b, row).refs, |RowOf(b, row).refs|);
      AllKnown(fs + found) && w == Best(precedence, fs + found)
    ensures Escalated(w)
  {
    hide BatchShaped, RowOf, Best;
    RowRefs(b, row);
    ghost var refs := RowOf(b, row).refs;
    var first, end := b.offsets[row], b.offsets[row + 1];
    w := start;
    assert fs + RowReferences(refs, 0) == fs;
    for edge := first to end
      invariant AllKnown(fs + RowReferences(refs, edge - first))
      invariant w == Best(precedence, fs + RowReferences(refs, edge - first)) && Escalated(w)
    {
      ghost var before := fs + RowReferences(refs, edge - first);
      assert refs[edge - first] == b.refs[edge];
      if b.refs[edge] != 0 {
        assert fs + RowReferences(refs, edge - first + 1) == before;
        continue;
      }
      ghost var found := MissingReference(edge - first + 1);
      PreferIsBest(precedence, before, found);
      assert before + [found] == fs + RowReferences(refs, edge - first + 1);
      if precedence[OUTCOME_ESCALATE - 1] > Rank(precedence, w) {
        w := w.(outcome := OUTCOME_ESCALATE, kind := DRIVER_MISSING_REFERENCE, reason := REASON_MISSING,
                edge := edge - first + 1);
      }
    }
  }

  // ----- requirements and clauses

  /** instructionReason: the first reason plane that is set. */
  method InstructionReason(context: Context, i: nat, row: nat, ghost v: Verdict) returns (reason: nat)
    requires context.Shows(i, row, v) && 1 <= v.reason <= REASON_COUNT
    ensures reason == v.reason
  {
    reason := REASON_UNVERIFIABLE;
    for r := 1 to REASON_COUNT + 1
      invariant v.reason >= r
    {
      if context.Rsn(r, i, row) { return r; }
    }
    assert false;
  }

  lemma {:induction false} TargetOf(context: Context, p: Program, b: Batch, row: nat, id: nat)
    requires Executable(p) && BatchShaped(b) && Evaluated(context, p.code, b) && row < b.rows
    requires ValidID(id, |p.code.opcodes|)
    ensures context.Shows(id - 1, row, VerdictAt(p.code, RowOf(b, row), RecordsOf(b), id))
  {
    hide ColumnsShaped, EdgesShaped, RowOf, RecordsOf, VerdictAt, Context.Shows, TablesSafe, CodeSafe;
    assert context.Shows(id - 1, row, Target(p.code, b, id - 1, row));
  }

  method ScanClauses(p: Program, context: Context, b: Batch, row: nat, i: nat, start: Finding, ghost fs: seq<Finding>)
    returns (w: Finding)
    requires Executable(p) && BatchShaped(b) && Evaluated(context, p.code, b) && row < b.rows
    requires i < |p.tables.requirementSymbols|
    requires AllKnown(fs) && start == Best(p.catalogues.precedence, fs)
    ensures var found := RowClauses(p, RowOf(b, row), RecordsOf(b), i, |ClauseRange(p.tables, i)|);
      AllKnown(fs + found) && w == Best(p.catalogues.precedence, fs + found)
  {
    hide ColumnsShaped, EdgesShaped, RowOf, RecordsOf, Best, Evaluated, Prefer, CodeSafe, Context.Shows,
         ClauseReason, ClauseFinding, VerdictAt, U16;
    var t, n := p.tables, |p.code.opcodes|;
    ghost var v, records := RowOf(b, row), RecordsOf(b);
    assert RequirementSafe(t, n, i);
    var first, end := t.clauseStarts[i], t.clauseStarts[i] + t.clauseCounts[i];
    w := start;
    assert fs + RowClauses(p, v, records, i, 0) == fs;
    for c := first to end
      invariant AllKnown(fs + RowClauses(p, v, records, i, c - first))
      invariant w == Best(p.catalogues.precedence, fs + RowClauses(p, v, records, i, c - first))
    {
      var id := t.clauseIDs[c];
      assert ClauseRange(t, i)[c - first] == id;
      assert ValidID(id, |t.clauseSymbols|);
      var found := ResolveClause(p, context, b, row, i, id);
      ghost var before := fs + RowClauses(p, v, records, i, c - first);
      PreferIsBest(p.catalogues.precedence, before, found);
      assert before + [found] == fs + RowClauses(p, v, records, i, c - first + 1);
      w := Prefer(p.catalogues.precedence, w, found);
    }
  }

  /** Resolve one owned clause through its reason-indexed outcome table. */
  method ResolveClause(p: Program, context: Context, b: Batch, row: nat, i: nat, id: nat) returns (found: Finding)
    requires Executable(p) && BatchShaped(b) && Evaluated(context, p.code, b) && row < b.rows
    requires ValidID(id, |p.tables.clauseSymbols|)
    ensures found == ClauseFinding(p, RowOf(b, row), RecordsOf(b), i, id)
  {
    hide ColumnsShaped, EdgesShaped, RowOf, RecordsOf, Evaluated, CodeSafe, Context.Shows, VerdictAt, U16;
    var t, k := p.tables, id - 1;
    ghost var v, records := RowOf(b, row), RecordsOf(b);
    assert ClauseSafe(t, |p.code.opcodes|, k);
    ghost var expected := ClauseReason(p, v, records, id);
    TargetOf(context, p, b, row, t.assertionRoots[k]);
    var reason := InstructionReason(context, t.assertionRoots[k] - 1, row, VerdictAt(p.code, v, records,
        t.assertionRoots[k]));
    assert StateSafe(t, k, reason);
    found := Finding(t.outcomeIDs[StateIndex(k, reason)], DRIVER_CLAUSE, U16(i + 1), id, reason, 0, 0);
  }

  method ScanRequirements(p: Program, context: Context, b: Batch, dst: ResultBatch, row: nat, start: Finding,
                          ghost fs: seq<Finding>)
    returns (w: Finding, applicable: nat)
    requires Executable(p) && BatchShaped(b) && Evaluated(context, p.code, b) && row < b.rows
    requires AllKnown(fs) && start == Best(p.catalogues.precedence, fs)
    requires dst.requirementIDs.Len() + |p.tables.requirementSymbols| <= dst.requirementIDs.Cap()
    modifies dst`requirementIDs
    ensures var found := RowRequirements(p, RowOf(b, row), RecordsOf(b), |p.tables.requirementSymbols|);
      AllKnown(fs + found) && w == Best(p.catalogues.precedence, fs + found)
    ensures dst.requirementIDs.items
         == old(dst.requirementIDs.items) + RowApplied(p, RowOf(b, row), RecordsOf(b), |p.tables.requirementSymbols|)
    ensures applicable == |RowApplied(p, RowOf(b, row), RecordsOf(b), |p.tables.requirementSymbols|)|
    ensures applicable == 0 ==> w == start
    ensures dst.requirementIDs.Cap() == old(dst.requirementIDs.Cap())
  {
    hide ColumnsShaped, EdgesShaped, RowOf, RecordsOf, Best, Evaluated, RowClauses, CodeSafe, Context.Shows,
         VerdictAt, U16, ClauseRange;
    var t, n := p.tables, |p.code.opcodes|;
    ghost var v, records := RowOf(b, row), RecordsOf(b);
    w, applicable := start, 0;
    assert fs + RowRequirements(p, v, records, 0) == fs;
    for i := 0 to |t.requirementSymbols|
      invariant AllKnown(fs + RowRequirements(p, v, records, i))
      invariant w == Best(p.catalogues.precedence, fs + RowRequirements(p, v, records, i))
      invariant dst.requirementIDs.items == old(dst.requirementIDs.items) + RowApplied(p, v, records, i)
      invariant dst.requirementIDs.Cap() == old(dst.requirementIDs.Cap())
      invariant applicable == |RowApplied(p, v, records, i)| && (applicable == 0 ==> w == start)
    {
      ghost var before := fs + RowRequirements(p, v, records, i);
      assert RequirementSafe(t, n, i);
      TargetOf(context, p, b, row, t.applicabilityRoots[i]);
      var root := t.applicabilityRoots[i] - 1;
      var applies := RootApplies(context, root, row, VerdictAt(p.code, v, records, t.applicabilityRoots[i]));
      assert applies == RowApplies(p, v, records, i);
      if !applies {
        assert fs + RowRequirements(p, v, records, i + 1) == before;
        continue;
      }
      dst.requirementIDs := dst.requirementIDs.Append(U16(i + 1));
      applicable := applicable + 1;
      w := ScanClauses(p, context, b, row, i, w, before);
      assert before + RowClauses(p, v, records, i, |ClauseRange(t, i)|) == fs + RowRequirements(p, v, records, i + 1);
    }
  }

  method RootApplies(context: Context, i: nat, row: nat, ghost v: Verdict) returns (applies: bool)
    requires context.Shows(i, row, v)
    ensures applies == (v.pos && !v.neg)
  {
    return context.Pos(i, row) && !context.Neg(i, row);
  }
}
