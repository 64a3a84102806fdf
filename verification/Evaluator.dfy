/** Resolving rows into the result columns, and the whole evaluation call
    (internal/eval/executor.go). */
module Evaluator {
  import opened Schema
  import opened Slices
  import opened Planes
  import opened Findings
  import opened Reference
  import opened Programs
  import opened Rows
  import opened Resolution
  import opened Batches
  import opened Contexts
  import opened Kernels
  import opened Results
  import opened Columns
  import opened Drivers
  import opened Executor

  // ----- provenance

  method ClauseRequires(t: Tables, instructions: nat, id: nat, kind: nat) returns (required: bool)
    requires TablesSafe(t, instructions) && ValidID(id, |t.clauseSymbols|)
    ensures required == ClauseAsks(t, id, kind)
  {
    assert ClauseSafe(t, instructions, id - 1);
    var first, end := t.evidenceKindStarts[id - 1], t.evidenceKindStarts[id - 1] + t.evidenceKindCounts[id - 1];
    ghost var kinds := KindRange(t, id - 1);
    for i := first to end
      invariant forall j :: 0 <= j < i - first ==> kinds[j] != kind
    {
      assert t.evidenceKinds[i] == kinds[i - first];
      if kind == t.evidenceKinds[i] { return true; }
    }
    return false;
  }

  method RequirementRequires(t: Tables, instructions: nat, i: nat, kind: nat) returns (required: bool)
    requires TablesSafe(t, instructions) && i < |t.requirementSymbols|
    ensures required == RequirementAsks(t, i, kind)
  {
    hide ClauseAsks;
    assert RequirementSafe(t, instructions, i);
    var first, end := t.clauseStarts[i], t.clauseStarts[i] + t.clauseCounts[i];
    ghost var ids := ClauseRange(t, i);
    for c := first to end
      invariant forall j :: 0 <= j < c - first ==> !ClauseAsks(t, ids[j], kind)
    {
      assert t.clauseIDs[c] == ids[c - first];
      assert ValidID(ids[c - first], |t.clauseSymbols|);
      required := ClauseRequires(t, instructions, t.clauseIDs[c], kind);
      if required { return; }
    }
    return false;
  }

  /** evidenceRequiredForRow, over the requirement ids already written for the row. */
  method EvidenceRequired(t: Tables, instructions: nat, b: Batch, dst: ResultBatch, row: nat, ref: nat,
                          ghost applied: seq<nat>)
    returns (required: bool)
    requires TablesSafe(t, instructions) && 1 <= ref <= |b.kinds|
    requires Segment(dst.requirementOffsets.items, dst.requirementIDs.items, row, applied)
    requires forall j :: 0 <= j < |applied| ==> ValidID(applied[j], |t.requirementSymbols|)
    ensures required == Asked(t, applied, b.kinds[ref - 1])
  {
    hide RequirementAsks, RequirementSafe, ClauseSafe;
    var kind := b.kinds[ref - 1];
    if kind == 0 { return false; }
    var first, end := dst.requirementOffsets.items[row], dst.requirementOffsets.items[row + 1];
    for i := first to end
      invariant forall j :: 0 <= j < i - first ==> !AskedBy(t, applied[j], kind)
    {
      var n := dst.requirementIDs.items[i];
      assert n == applied[i - first];
      assert ValidID(applied[i - first], |t.requirementSymbols|);
      required := RequirementRequires(t, instructions, n - 1, kind);
      assert required == AskedBy(t, applied[i - first], kind);
      if required { return; }
    }
    return false;
  }

  method AlreadyUsed(dst: ResultBatch, from: nat, ref: nat) returns (duplicate: bool)
    requires from <= dst.evidenceRefs.Len()
    ensures duplicate <==> ref in dst.evidenceRefs.items[from..]
  {
    var used := dst.evidenceRefs.items;
    for i := from to |used|
      invariant ref !in used[from..i]
    {
      assert used[from..i + 1] == used[from..i] + [used[i]];
      if used[i] == ref {
        assert used[from..][i - from] == ref;
        return true;
      }
    }
    assert used[from..|used|] == used[from..];
    return false;
  }

  lemma {:induction false} ProgramAligned(p: Program)
    requires Executable(p)
    ensures TablesAligned(p.tables)
  {}

  lemma {:induction false} BatchEvidence(b: Batch)
    requires BatchShaped(b)
    ensures EvidenceShaped(b) && forall i :: 0 <= i < |b.refs| ==> b.refs[i] <= |b.kinds|
  {}

  /** The records used after one more reference. */
  function NextUsed(t: Tables, records: seq<Record>, applied: seq<nat>, used: seq<nat>, ref: nat): seq<nat>
    requires TablesAligned(t)
  {
    if !(1 <= ref <= |records|) || !Asked(t, applied, records[ref - 1].kind) || ref in used then used else used + [ref]
  }

  /** One edge of the provenance loop. */
  method CollectEdge(p: Program, b: Batch, dst: ResultBatch, row: nat, from: nat, ref: nat, ghost applied: seq<nat>,
                     ghost before: seq<nat>, ghost used: seq<nat>)
    requires Executable(p) && BatchShaped(b) && ref <= |b.kinds|
    requires Segment(dst.requirementOffsets.items, dst.requirementIDs.items, row, applied)
    requires forall j :: 0 <= j < |applied| ==> ValidID(applied[j], |p.tables.requirementSymbols|)
    requires dst.evidenceRefs.items == before + used && from == |before|
    requires dst.evidenceRefs.Len() < dst.evidenceRefs.Cap()
    modifies dst`evidenceRefs
    ensures dst.evidenceRefs.items == before + NextUsed(p.tables, RecordsOf(b), applied, used, ref)
    ensures dst.evidenceRefs.Cap() == old(dst.evidenceRefs.Cap())
  {
    hide ColumnsShaped, EdgesShaped, Asked, CodeSafe, RequirementSafe, ClauseSafe, Segment, RecordOf;
    if ref == 0 { return; }
    RecordKind(b, ref - 1);
    var required := EvidenceRequired(p.tables, |p.code.opcodes|, b, dst, row, ref, applied);
    if !required { return; }
    assert dst.evidenceRefs.items[from..] == used;
    var duplicate := AlreadyUsed(dst, from, ref);
    if !duplicate { dst.evidenceRefs := dst.evidenceRefs.Append(ref); }
  }

  method CollectEvidence(p: Program, b: Batch, dst: ResultBatch, row: nat, ghost applied: seq<nat>)
    requires Executable(p) && BatchShaped(b) && row < b.rows
    requires Segment(dst.requirementOffsets.items, dst.requirementIDs.items, row, applied)
    requires forall j :: 0 <= j < |applied| ==> ValidID(applied[j], |p.tables.requirementSymbols|)
    requires row + 1 < dst.evidenceOffsets.Len()
    requires dst.evidenceRefs.Len() <= b.offsets[row] && |b.refs| <= MAX_UINT32
    requires |b.refs| <= dst.evidenceRefs.Cap()
    modifies dst`evidenceOffsets, dst`evidenceRefs
    ensures var refs := RowOf(b, row).refs;
      Appended(old(dst.evidenceOffsets.items), old(dst.evidenceRefs.items), dst.evidenceOffsets.items,
               dst.evidenceRefs.items,
               row, RowUsed(p.tables, RecordsOf(b), applied, refs, |refs|))
    ensures dst.evidenceRefs.Cap() == old(dst.evidenceRefs.Cap())
    ensures dst.evidenceRefs.Len() <= b.offsets[row + 1]
  {
    hide BatchShaped, EvidenceShaped, RowOf, RecordsOf, Executable, TablesAligned, U32, Segment, RowUsed, NextUsed;
    ProgramAligned(p);
    BatchEvidence(b);
    RowRefs(b, row);
    var t := p.tables;
    ghost var records, refs := RecordsOf(b), RowOf(b, row).refs;
    ghost var before := dst.evidenceRefs.items;
    var from := dst.evidenceRefs.Len();
    NarrowingLossless(from);
    dst.evidenceOffsets := dst.evidenceOffsets.Set(row, U32(from));
    var first, end := b.offsets[row], b.offsets[row + 1];
    RowUsedStart(t, records, applied, refs);
    for edge := first to end
      invariant dst.evidenceRefs.items == before + RowUsed(t, records, applied, refs, edge - first)
      invariant dst.evidenceRefs.Cap() == old(dst.evidenceRefs.Cap())
      invariant dst.evidenceOffsets.items == old(dst.evidenceOffsets.items)[row := from]
    {
      ghost var used := RowUsed(t, records, applied, refs, edge - first);
      assert refs[edge - first] == b.refs[edge] && b.refs[edge] in refs;
      RowUsedStep(t, records, applied, refs, edge - first);
      CollectEdge(p, b, dst, row, from, b.refs[edge], applied, before, used);
    }
    NarrowingLossless(dst.evidenceRefs.Len());
    dst.evidenceOffsets := dst.evidenceOffsets.Set(row + 1, U32(dst.evidenceRefs.Len()));
  }

  lemma {:induction false} RowUsedStart(t: Tables, records: seq<Record>, applied: seq<nat>, refs: seq<nat>)
    requires TablesAligned(t)
    ensures RowUsed(t, records, applied, refs, 0) == []
  {}

  lemma {:induction false} RowUsedStep(t: Tables, records: seq<Record>, applied: seq<nat>, refs: seq<nat>, k: nat)
    requires TablesAligned(t) && k < |refs|
    ensures RowUsed(t, records, applied, refs, k + 1)
         == NextUsed(t, records, applied, RowUsed(t, records, applied, refs, k), refs[k])
  {
    hide Asked, TablesAligned;
  }

  lemma {:induction false} RecordKind(b: Batch, i: nat)
    requires BatchShaped(b) && i < |b.kinds|
    ensures i < |RecordsOf(b)| && RecordsOf(b)[i].kind == b.kinds[i]
  {}

  // ----- one row

  /** The part of a decision made while scanning. */
  method ScanRow(p: Program, context: Context, b: Batch, dst: ResultBatch, row: nat) returns (w: Finding)
    requires Executable(p) && BatchShaped(b) && Evaluated(context, p.code, b) && row < b.rows
    requires row + 1 < dst.requirementOffsets.Len()
    requires dst.requirementIDs.Len() + |p.tables.requirementSymbols| <= dst.requirementIDs.Cap()
    requires dst.requirementIDs.Len() + |p.tables.requirementSymbols| <= MAX_UINT32
    modifies dst`requirementOffsets, dst`requirementIDs
    ensures w == RowDecision(p, RowOf(b, row), RecordsOf(b)).driver
    ensures Appended(old(dst.requirementOffsets.items), old(dst.requirementIDs.items), dst.requirementOffsets.items,
                     dst.requirementIDs.items, row, RowDecision(p, RowOf(b, row), RecordsOf(b)).applied)
    ensures dst.requirementIDs.Cap() == old(dst.requirementIDs.Cap())
  {
    hide ColumnsShaped, EdgesShaped, RowOf, RecordsOf, Evaluated, CodeSafe, Best, TablesSafe, U32,
         RowReferences, RowRequirements, RowSemantics, RowApplied, RowUsed, RowRemediation;
    var t, precedence := p.tables, p.catalogues.precedence;
    ghost var v, records, n := RowOf(b, row), RecordsOf(b), |p.tables.requirementSymbols|;
    w := ScanSemantics(precedence, b, row);
    w := ScanReferences(precedence, b, row, w, RowSemantics(v));
    ghost var fs := RowSemantics(v) + RowReferences(v.refs, |v.refs|);
    var from := dst.requirementIDs.Len();
    NarrowingLossless(from);
    dst.requirementOffsets := dst.requirementOffsets.Set(row, U32(from));
    var applicable;
    w, applicable := ScanRequirements(p, context, b, dst, row, w, fs);
    fs := fs + RowRequirements(p, v, records, n);
    NarrowingLossless(dst.requirementIDs.Len());
    dst.requirementOffsets := dst.requirementOffsets.Set(row + 1, U32(dst.requirementIDs.Len()));
    RowFindingsKnown(p, v, records);
    if applicable == 0 {
      assert RowFindings(p, v, records) == fs + [NO_APPLICABLE];
      PreferIsBest(precedence, fs, NO_APPLICABLE);
      if precedence[OUTCOME_ESCALATE - 1] > Rank(precedence, w) {
        w := w.(outcome := OUTCOME_ESCALATE, kind := DRIVER_NO_APPLICABLE, reason := REASON_UNVERIFIABLE);
      }
    } else {
      assert RowFindings(p, v, records) == fs + [] == fs;
    }
  }

  method AppendRemediation(p: Program, dst: ResultBatch, row: nat, w: Finding)
    requires Executable(p) && row + 1 < dst.remediationOffsets.Len()
    requires w.kind == DRIVER_CLAUSE ==> ValidID(w.clause, |p.tables.clauseSymbols|)
    requires dst.remediationIDs.Len() + MostRemediations(p.tables) <= MAX_UINT32
    modifies dst`remediationOffsets, dst`remediationIDs
    ensures Appended(old(dst.remediationOffsets.items), old(dst.remediationIDs.items), dst.remediationOffsets.items,
                     dst.remediationIDs.items, row, RowRemediation(p.tables, w))
    ensures KeptOrOutgrown(old(dst.remediationIDs), dst.remediationIDs)
    ensures dst.remediationIDs.Len() <= old(dst.remediationIDs.Len()) + MostRemediations(p.tables)
  {
    hide CodeSafe, U32, RequirementSafe, StateSafe, MostListed;
    var t := p.tables;
    NarrowingLossless(dst.remediationIDs.Len());
    dst.remediationOffsets := dst.remediationOffsets.Set(row, U32(dst.remediationIDs.Len()));
    if w.outcome == OUTCOME_REVISE && w.kind == DRIVER_CLAUSE {
      var k := w.clause - 1;
      assert ClauseSafe(t, |p.code.opcodes|, k);
      MostListedBound(t.remediationCounts, k);
      var start, end := t.remediationStarts[k], t.remediationStarts[k] + t.remediationCounts[k];
      dst.remediationIDs := dst.remediationIDs.AppendAll(t.remediationIDs[start..end]);
    }
    NarrowingLossless(dst.remediationIDs.Len());
    dst.remediationOffsets := dst.remediationOffsets.Set(row + 1, U32(dst.remediationIDs.Len()));
  }

  method WriteDriver(dst: ResultBatch, rows: nat, row: nat, w: Finding, start: nat)
    requires row < rows && DriverShaped(dst.Value(), rows)
    modifies dst`outcomeIDs, dst`driverKinds, dst`driverRequirementIDs, dst`driverClauseIDs, dst`driverReasonIDs,
        dst`driverFieldIDs, dst`driverEvidenceEdgeIDs, dst`issueIDs
    ensures DriverWritten(old(dst.Value()), dst.Value(), row, w, start)
  {
    dst.outcomeIDs := dst.outcomeIDs.Set(row, w.outcome);
    dst.driverKinds := dst.driverKinds.Set(row, w.kind);
    dst.driverRequirementIDs := dst.driverRequirementIDs.Set(row, w.requirement);
    dst.driverClauseIDs := dst.driverClauseIDs.Set(row, w.clause);
    dst.driverReasonIDs := dst.driverReasonIDs.Set(row, w.reason);
    dst.driverFieldIDs := dst.driverFieldIDs.Set(row, w.field);
    dst.driverEvidenceEdgeIDs := dst.driverEvidenceEdgeIDs.Set(row, if w.edge == 0 then 0 else start + w.edge);
    if w.outcome != OUTCOME_APPROVE { dst.issueIDs := dst.issueIDs.Set(row, w.reason); }
  }

  // ----- all rows

  /** The longest remediation list of a clause. */
  function MostListed(counts: seq<nat>): nat {
    if counts == [] then 0
    else
      var n, last := MostListed(counts[..|counts| - 1]), counts[|counts| - 1];
      if n < last then last else n
  }

  lemma {:induction false} MostListedBound(counts: seq<nat>, k: nat)
    requires k < |counts|
    ensures counts[k] <= MostListed(counts)
  {
    if k < |counts| - 1 { MostListedBound(counts[..|counts| - 1], k); }
  }

  lemma {:induction false} MostListedLeast(counts: seq<nat>, n: nat)
    ensures MostListed(counts) <= n <==> forall k :: 0 <= k < |counts| ==> counts[k] <= n
  {
    if counts != [] {
      MostListedLeast(counts[..|counts| - 1], n);
      assert forall k :: 0 <= k < |counts| - 1 ==> counts[k] == counts[..|counts| - 1][k];
    }
  }

  function MostRemediations(t: Tables): nat {
    MostListed(t.remediationCounts)
  }

  /** Storage is replaced exactly when more items are shown than it could hold. */
  predicate KeptOrOutgrown(before: Slice<nat>, after: Slice<nat>) {
    && before.Cap() <= after.Cap()
    && (after.Cap() == before.Cap() <==> after.Len() <= before.Cap())
    && before.Len() <= after.Len()
  }

  predicate FewRemediations(p: Program, k: nat)
    requires k < |p.tables.remediationCounts|
  {
    p.tables.remediationCounts[k] <= |p.catalogues.remediations|
  }

  /** No clause lists more remediations than the catalogue holds. */
  predicate RemediationsFit(p: Program) {
    forall k :: 0 <= k < |p.tables.remediationCounts| ==> FewRemediations(p, k)
  }

  /** The requirement ids that a run stores in 16 bits and reads back. */
  predicate RequirementIDsFit(p: Program) {
    |p.tables.requirementSymbols| <= MAX_UINT16
  }

  /** What the 16-bit ids and the 32-bit offsets of the result columns can carry. */
  predicate OutputFits(p: Program, rows: nat) {
    && RequirementIDsFit(p)
    && rows * |p.tables.requirementSymbols| <= MAX_UINT32
    && rows * MostRemediations(p.tables) <= MAX_UINT32
  }

  ghost predicate RowResolved(n: Numeric, p: Program, b: Batch, r: nat)
    requires Executable(p) && BatchShaped(b) && r < b.rows && NumericShaped(n, b.rows)
  {
    Holds(n, r, RowDecision(p, RowOf(b, r), RecordsOf(b)), b.offsets[r])
  }

  /** The first k rows are resolved and the columns are ready for the next. */
  ghost predicate Resolved(n: Numeric, p: Program, b: Batch, k: nat)
    requires Executable(p) && BatchShaped(b) && k <= b.rows
  {
    && NumericShaped(n, b.rows) && Prefixes(n, k)
    && (forall r :: 0 <= r < k ==> RowResolved(n, p, b, r))
    && (forall r :: k <= r < b.rows ==> n.issueIDs[r] == 0)
    && |n.requirementIDs| <= k * |p.tables.requirementSymbols|
    && |n.evidenceRefs| <= b.offsets[k]
    && |n.remediationIDs| <= k * MostRemediations(p.tables)
  }

  lemma {:induction false} RowBudget(k: nat, rows: nat, n: nat)
    requires k < rows
    ensures (k + 1) * n == k * n + n <= rows * n
  {
    MulStep(k, rows, n);
  }

  /** The columns have room for one more row. */
  predicate RowFits(p: Program, dst: ResultBatch, row: nat, firstEdge: nat)
    reads dst
  {
    && row + 1 < dst.requirementOffsets.Len() && row + 1 < dst.evidenceOffsets.Len()
    && row + 1 < dst.remediationOffsets.Len()
    && Prefix(dst.requirementOffsets.items, dst.requirementIDs.Len(), row)
    && dst.requirementIDs.Len() + |p.tables.requirementSymbols| <= dst.requirementIDs.Cap()
    && dst.requirementIDs.Len() + |p.tables.requirementSymbols| <= MAX_UINT32
    && dst.evidenceRefs.Len() <= firstEdge
    && dst.remediationIDs.Len() + MostRemediations(p.tables) <= MAX_UINT32
  }

  lemma {:induction false} NextRowFits(p: Program, b: Batch, dst: ResultBatch, row: nat)
    requires Executable(p) && BatchShaped(b) && row < b.rows && OutputFits(p, b.rows)
    requires Resolved(dst.Value(), p, b, row)
    requires dst.ValuesRoomy(b.rows * |p.tables.requirementSymbols|, |b.refs|, 0)
    ensures RowFits(p, dst, row, b.offsets[row])
  {
    hide Executable, Prefix, RowResolved, MostRemediations;
    RowBudget(row, b.rows, |p.tables.requirementSymbols|);
    RowBudget(row, b.rows, MostRemediations(p.tables));
  }

  method ResolveRanges(p: Program, context: Context, b: Batch, dst: ResultBatch, row: nat) returns (w: Finding)
    requires Executable(p) && BatchShaped(b) && Evaluated(context, p.code, b) && row < b.rows
    requires RequirementIDsFit(p) && |b.refs| <= MAX_UINT32
    requires RowFits(p, dst, row, b.offsets[row]) && |b.refs| <= dst.evidenceRefs.Cap()
    modifies dst`requirementOffsets, dst`requirementIDs, dst`evidenceOffsets, dst`evidenceRefs,
        dst`remediationOffsets, dst`remediationIDs
    ensures w == RowDecision(p, RowOf(b, row), RecordsOf(b)).driver
    ensures RangesAppended(old(dst.Value()), dst.Value(), row, RowDecision(p, RowOf(b, row), RecordsOf(b)))
    ensures dst.requirementIDs.Len() <= old(dst.requirementIDs.Len()) + |p.tables.requirementSymbols|
    ensures dst.evidenceRefs.Len() <= b.offsets[row + 1]
    ensures dst.remediationIDs.Len() <= old(dst.remediationIDs.Len()) + MostRemediations(p.tables)
    ensures dst.requirementIDs.Cap() == old(dst.requirementIDs.Cap())
    ensures dst.evidenceRefs.Cap() == old(dst.evidenceRefs.Cap())
    ensures KeptOrOutgrown(old(dst.remediationIDs), dst.remediationIDs)
  {
    hide ColumnsShaped, EdgesShaped, RowOf, RecordsOf, Evaluated, CodeSafe, TablesSafe, MostRemediations, RowDecision,
         Appended, Prefix, Segment, RowUsed, RowRemediation;
    RowRefs(b, row);
    ghost var d := RowDecision(p, RowOf(b, row), RecordsOf(b));
    DecisionParts(p, RowOf(b, row), RecordsOf(b));
    w := ScanRow(p, context, b, dst, row);
    AppendKeepsPrefix(old(dst.requirementOffsets.items), old(dst.requirementIDs.items), dst.requirementOffsets.items,
                      dst.requirementIDs.items, row, d.applied);
    CollectEvidence(p, b, dst, row, d.applied);
    AppendRemediation(p, dst, row, w);
  }

  /** resolveRow. */
  method ResolveRow(p: Program, context: Context, b: Batch, dst: ResultBatch, row: nat)
    requires Executable(p) && BatchShaped(b) && Evaluated(context, p.code, b) && row < b.rows
    requires OutputFits(p, b.rows) && |b.refs| <= MAX_UINT32
    requires Resolved(dst.Value(), p, b, row)
    requires dst.ValuesRoomy(b.rows * |p.tables.requirementSymbols|, |b.refs|, 0)
    modifies dst
    ensures Resolved(dst.Value(), p, b, row + 1)
    ensures dst.requirementIDs.Cap() == old(dst.requirementIDs.Cap())
    ensures dst.evidenceRefs.Cap() == old(dst.evidenceRefs.Cap())
    ensures KeptOrOutgrown(old(dst.remediationIDs), dst.remediationIDs)
  {
    hide ColumnsShaped, EdgesShaped, RowOf, RecordsOf, Evaluated, CodeSafe, TablesSafe, MostRemediations, RowDecision,
         Appended, Prefix, RowResolved, RowFits;
    RowRefs(b, row);
    NextRowFits(p, b, dst, row);
    RowBudget(row, b.rows, |p.tables.requirementSymbols|);
    RowBudget(row, b.rows, MostRemediations(p.tables));
    var w := ResolveRanges(p, context, b, dst, row);
    label ranges:
    WriteDriver(dst, b.rows, row, w, b.offsets[row]);
    DriverAfterRanges(old(dst.Value()), old@ranges(dst.Value()), dst.Value(), row, w, b.offsets[row]);
    RowResolvedNext(old(dst.Value()), dst.Value(), p, b, row, RowDecision(p, RowOf(b, row), RecordsOf(b)));
  }

  lemma {:induction false} DriverAfterRanges(n: Numeric, m: Numeric, n': Numeric, row: nat, w: Finding, start: nat)
    requires row < |n.outcomeIDs| && DriverShaped(n, |n.outcomeIDs|)
    requires m == n.(requirementOffsets := m.requirementOffsets, requirementIDs := m.requirementIDs,
                     evidenceOffsets := m.evidenceOffsets, evidenceRefs := m.evidenceRefs,
                     remediationOffsets := m.remediationOffsets, remediationIDs := m.remediationIDs)
    requires DriverWritten(m, n', row, w, start)
    ensures DriverWritten(n, n', row, w, start)
  {}

  lemma {:induction false} DecisionParts(p: Program, row: RowView, records: seq<Record>)
    requires Executable(p)
    ensures var d := RowDecision(p, row, records); var t := p.tables;
      && (RequirementIDsFit(p) ==> forall j :: 0 <= j < |d.applied| ==> ValidID(d.applied[j], |t.requirementSymbols|))
      && |d.applied| <= |t.requirementSymbols|
      && d.used == RowUsed(t, records, d.applied, row.refs, |row.refs|)
      && d.remediation == RowRemediation(t, d.driver)
      && (d.driver.kind == DRIVER_CLAUSE ==> ValidID(d.driver.clause, |t.clauseSymbols|))
  {
    hide CodeSafe, TablesSafe;
    DriverIsWellNamed(p, row, records);
  }

  lemma {:induction false} RowResolvedNext(n: Numeric, n': Numeric, p: Program, b: Batch, row: nat, d: Decision)
    requires Executable(p) && BatchShaped(b) && row < b.rows
    requires Resolved(n, p, b, row) && d == RowDecision(p, RowOf(b, row), RecordsOf(b))
    requires DriverWritten(n, n', row, d.driver, b.offsets[row]) && RangesAppended(n, n', row, d)
    requires |n'.requirementIDs| <= (row + 1) * |p.tables.requirementSymbols|
    requires |n'.evidenceRefs| <= b.offsets[row + 1]
    requires |n'.remediationIDs| <= (row + 1) * MostRemediations(p.tables)
    ensures Resolved(n', p, b, row + 1)
  {
    hide ColumnsShaped, EdgesShaped, RowOf, RecordsOf, CodeSafe, TablesSafe, RowDecision, Holds, Prefixes,
         RangesAppended, DriverWritten, MostRemediations;
    RowRefs(b, row);
    RowWritten(n, n', b.rows, row, d, b.offsets[row]);
    forall r | 0 <= r <= row
      ensures RowResolved(n', p, b, r)
    {
      if r < row {
        assert RowResolved(n, p, b, r);
        EarlierRowKept(n, n', b.rows, row, d, b.offsets[row], r, RowDecision(p, RowOf(b, r), RecordsOf(b)), b.offsets[r]);
      }
    }
  }

  /** EvaluateInto: fails exactly when a capacity is not addressable, a column is too small, a shape is
      wrong or the rows are more than the 32-bit word count can cover, and then leaves the results
      alone. Otherwise every row holds its decision, the three CSR columns are well formed, requirement
      ids and evidence never outgrow the storage they were given, and remediation ids do so exactly
      when there are more of them. */
  method EvaluateInto(p: Program, context: Context, b: Batch, dst: ResultBatch) returns (ok: bool)
    requires Executable(p) && OutputFits(p, b.rows)
    requires b.rows <= MAX_UINT32 && WordsConsistent(b)
    requires |b.qualifiers| == QUALIFIER_COUNT && |b.refs| <= MAX_UINT32
    modifies context, dst
    ensures ok <==> b.rows * |p.catalogues.remediations| <= MAX_INT
                    && old(dst.Roomy(b.rows, b.rows * |p.tables.requirementSymbols|, |b.refs|,
                                  b.rows * |p.catalogues.remediations|))
                    && b.rows + 63 <= MAX_UINT32 && old(context.Shaped(b.rows, |p.code.opcodes|)) && BatchShaped(b)
    ensures !ok ==> unchanged(dst) && unchanged(context)
    ensures ok ==> Evaluated(context, p.code, b) && AllResolved(dst.Value(), p, b)
    ensures ok ==> dst.requirementIDs.Cap() == old(dst.requirementIDs.Cap())
    ensures ok ==> dst.evidenceRefs.Cap() == old(dst.evidenceRefs.Cap())
    ensures ok ==> (dst.remediationIDs.Cap() == old(dst.remediationIDs.Cap())
                    <==> dst.remediationIDs.Len() <= old(dst.remediationIDs.Cap()))
    ensures ok && RemediationsFit(p) ==> dst.remediationIDs.Cap() == old(dst.remediationIDs.Cap())
  {
    hide BatchShaped, Evaluated, CodeSafe, TablesSafe, RemediationsFit, MostRemediations, Resolved,
         ResultBatch.RowsRoomy, OutputFits;
    RequirementsAddressable(p, b.rows);
    var requirements, remediations := b.rows * |p.tables.requirementSymbols|, b.rows * |p.catalogues.remediations|;
    if requirements > MAX_INT || remediations > MAX_INT { return false; }
    ok := dst.CheckCapacity(b.rows, requirements, |b.refs|, remediations);
    if !ok { return; }
    ok := EvaluateInstructions(context, p.code, b);
    if !ok { return; }
    dst.Reset(b.rows);
    BlankIsResolved(dst, p, b);
    ghost var room := dst.remediationIDs;
    for row := 0 to b.rows
      invariant Evaluated(context, p.code, b) && Resolved(dst.Value(), p, b, row)
      invariant dst.requirementIDs.Cap() == old(dst.requirementIDs.Cap())
      invariant dst.evidenceRefs.Cap() == old(dst.evidenceRefs.Cap())
      invariant KeptOrOutgrown(room, dst.remediationIDs)
    {
      ResolveRow(p, context, b, dst, row);
    }
    ResolvedIsComplete(dst.Value(), p, b);
    if RemediationsFit(p) { RemediationsStay(dst.Value(), p, b); }
  }

  lemma {:induction false} RequirementsAddressable(p: Program, rows: nat)
    requires Executable(p) && OutputFits(p, rows)
    ensures rows * |p.tables.requirementSymbols| <= MAX_INT
  {
    hide Executable;
  }

  lemma {:induction false} BlankIsResolved(dst: ResultBatch, p: Program, b: Batch)
    requires Executable(p) && BatchShaped(b) && dst.Blank(b.rows)
    ensures Resolved(dst.Value(), p, b, 0)
  {
    hide Executable;
  }

  lemma {:induction false} RemediationsStay(n: Numeric, p: Program, b: Batch)
    requires Executable(p) && BatchShaped(b) && Resolved(n, p, b, b.rows) && RemediationsFit(p)
    ensures |n.remediationIDs| <= b.rows * |p.catalogues.remediations|
  {
    hide Executable, BatchShaped, RowResolved, Prefixes, MostListed;
    forall k | 0 <= k < |p.tables.remediationCounts|
      ensures p.tables.remediationCounts[k] <= |p.catalogues.remediations|
    {
      assert FewRemediations(p, k);
    }
    MostListedLeast(p.tables.remediationCounts, |p.catalogues.remediations|);
    MulMono(MostRemediations(p.tables), |p.catalogues.remediations|, b.rows);
  }

  /** Every row holds its decision and the ranges are CSR columns. */
  ghost predicate AllResolved(n: Numeric, p: Program, b: Batch)
    requires Executable(p) && BatchShaped(b)
  {
    && NumericShaped(n, b.rows)
    && (forall r :: 0 <= r < b.rows ==> RowResolved(n, p, b, r))
    && CSR(n.requirementOffsets, |n.requirementIDs|) && CSR(n.evidenceOffsets, |n.evidenceRefs|)
    && CSR(n.remediationOffsets, |n.remediationIDs|)
  }

  lemma {:induction false} ResolvedIsComplete(n: Numeric, p: Program, b: Batch)
    requires Executable(p) && BatchShaped(b) && Resolved(n, p, b, b.rows)
    ensures AllResolved(n, p, b)
  {
    hide BatchShaped, Executable, RowResolved;
  }
}
