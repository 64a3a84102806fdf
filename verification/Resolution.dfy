/** How one row is resolved, stated on the numeric program and the row's verdicts: the findings in
    the order in which the executor meets them, provenance and remediation. */
module Resolution {
  import opened Schema
  import opened Findings
  import opened Reference
  import opened Programs
  import opened Rows

  predicate RequirementSafe(t: Tables, instructions: nat, i: nat)
    requires TablesAligned(t) && i < |t.requirementSymbols|
  {
    && ValidID(t.applicabilityRoots[i], instructions)
    && ValidRange(t.clauseStarts[i], t.clauseCounts[i], |t.clauseIDs|)
    && AllValidIDs(ClauseRange(t, i), |t.clauseSymbols|)
  }

  predicate StateSafe(t: Tables, k: nat, reason: nat)
    requires TablesAligned(t) && k < |t.clauseSymbols| && 1 <= reason <= REASON_COUNT
  {
    ValidID(t.outcomeIDs[StateIndex(k, reason)], OUTCOME_COUNT)
  }

  predicate ClauseSafe(t: Tables, instructions: nat, k: nat)
    requires TablesAligned(t) && k < |t.clauseSymbols|
  {
    && ValidID(t.assertionRoots[k], instructions)
    && ValidRange(t.remediationStarts[k], t.remediationCounts[k], |t.remediationIDs|)
    && ValidRange(t.evidenceKindStarts[k], t.evidenceKindCounts[k], |t.evidenceKinds|)
    && forall reason :: 1 <= reason <= REASON_COUNT ==> StateSafe(t, k, reason)
  }

  predicate TablesSafe(t: Tables, instructions: nat) {
    && TablesAligned(t)
    && (forall i :: 0 <= i < |t.requirementSymbols| ==> RequirementSafe(t, instructions, i))
    && (forall k :: 0 <= k < |t.clauseSymbols| ==> ClauseSafe(t, instructions, k))
  }

  /** What running and resolving needs of a program. */
  predicate Executable(p: Program) {
    && CodeSafe(p.code) && TablesSafe(p.tables, |p.code.opcodes|)
    && |p.catalogues.precedence| == OUTCOME_COUNT
  }

  /** A published program can be run: no evaluation or resolution step leaves its columns. */
  lemma {:induction false} ValidProgramIsExecutable(p: Program)
    requires ProgramValid(p)
    ensures Executable(p)
  {
    hide Trim, SymbolsValid;
    ValidCodeIsSafe(p.code, |p.symbols.starts|);
    var t, n := p.tables, |p.symbols.starts|;
    forall i | 0 <= i < |t.requirementSymbols|
      ensures RequirementSafe(t, |p.code.opcodes|, i)
    {
      assert RequirementEntryValid(t, |p.code.opcodes|, n, i);
      OwnedRange(t, i, |t.requirementSymbols|);
      forall j | 0 <= j < |ClauseRange(t, i)|
        ensures ValidID(ClauseRange(t, i)[j], |t.clauseSymbols|)
      {
        assert ClauseRange(t, i)[j] in Owned(t, |t.requirementSymbols|);
      }
    }
    forall k | 0 <= k < |t.clauseSymbols|
      ensures ClauseSafe(t, |p.code.opcodes|, k)
    {
      assert ClauseEntryValid(t, |p.code.opcodes|, |p.catalogues.explanationSymbols|, n, k);
      forall reason | 1 <= reason <= REASON_COUNT
        ensures StateSafe(t, k, reason)
      {
        assert StateEntryValid(t, |p.catalogues.explanationSymbols|, k, reason);
      }
    }
  }

  // ----- findings

  /** The first field at or after f with its issue bit set. */
  function IssueField(row: RowView, f: nat): nat
    requires f <= FIELD_COUNT
    decreases FIELD_COUNT - f
  {
    if f == FIELD_COUNT then 0 else if row.At(f).issue then f else IssueField(row, f + 1)
  }

  function SemanticFinding(present: bool, f: nat): Finding {
    Finding(OUTCOME_ESCALATE, DRIVER_SEMANTIC, 0, 0, if present then REASON_UNCLEAR else REASON_MISSING, f, 0)
  }

  function RowSemantics(row: RowView): seq<Finding> {
    var f := IssueField(row, FIELD_REQUESTER);
    if f == 0 then [] else [SemanticFinding(row.At(f).present, f)]
  }

  function MissingReference(position: nat): Finding {
    Finding(OUTCOME_ESCALATE, DRIVER_MISSING_REFERENCE, 0, 0, REASON_MISSING, 0, position)
  }

  function RowReferences(refs: seq<nat>, k: nat): seq<Finding>
    requires k <= |refs|
  {
    if k == 0 then []
    else RowReferences(refs, k - 1) + (if refs[k - 1] != 0 then [] else [MissingReference(k)])
  }

  predicate RowApplies(p: Program, row: RowView, records: seq<Record>, i: nat)
    requires Executable(p) && i < |p.tables.requirementSymbols|
  {
    assert RequirementSafe(p.tables, |p.code.opcodes|, i);
    var v := VerdictAt(p.code, row, records, p.tables.applicabilityRoots[i]);
    v.pos && !v.neg
  }

  /** Reason of clause id (counted from one). */
  function ClauseReason(p: Program, row: RowView, records: seq<Record>, id: nat): (reason: nat)
    requires Executable(p) && ValidID(id, |p.tables.clauseSymbols|)
    ensures 1 <= reason <= REASON_COUNT && reason != REASON_UNVERIFIABLE
  {
    assert ClauseSafe(p.tables, |p.code.opcodes|, id - 1);
    RunCoherent(p.code, row, records, |p.code.opcodes|);
    VerdictAt(p.code, row, records, p.tables.assertionRoots[id - 1]).reason
  }

  function ClauseFinding(p: Program, row: RowView, records: seq<Record>, i: nat, id: nat): (f: Finding)
    requires Executable(p) && ValidID(id, |p.tables.clauseSymbols|)
    ensures OutcomeKnown(f)
  {
    var reason := ClauseReason(p, row, records, id);
    assert ClauseSafe(p.tables, |p.code.opcodes|, id - 1);
    assert StateSafe(p.tables, id - 1, reason);
    Finding(p.tables.outcomeIDs[StateIndex(id - 1, reason)], DRIVER_CLAUSE, U16(i + 1), id, reason, 0, 0)
  }

  function RowClauses(p: Program, row: RowView, records: seq<Record>, i: nat, k: nat): (fs: seq<Finding>)
    requires Executable(p) && i < |p.tables.requirementSymbols| && k <= |ClauseRange(p.tables, i)|
    ensures AllKnown(fs)
  {
    if k == 0 then []
    else
      assert RequirementSafe(p.tables, |p.code.opcodes|, i);
      assert ValidID(ClauseRange(p.tables, i)[k - 1], |p.tables.clauseSymbols|);
      RowClauses(p, row, records, i, k - 1) + [ClauseFinding(p, row, records, i, ClauseRange(p.tables, i)[k - 1])]
  }

  function RowRequirements(p: Program, row: RowView, records: seq<Record>, k: nat): (fs: seq<Finding>)
    requires Executable(p) && k <= |p.tables.requirementSymbols|
    ensures AllKnown(fs)
  {
    if k == 0 then []
    else RowRequirements(p, row, records, k - 1)
         + (if RowApplies(p, row, records, k - 1)
            then RowClauses(p, row, records, k - 1, |ClauseRange(p.tables, k - 1)|) else [])
  }

  /** The ids of the applicable requirements, as stored: 16 bits of the requirement's number. */
  function RowApplied(p: Program, row: RowView, records: seq<Record>, k: nat): (ns: seq<nat>)
    requires Executable(p) && k <= |p.tables.requirementSymbols|
    ensures |ns| <= k
    ensures k <= MAX_UINT16 ==> forall j :: 0 <= j < |ns| ==> 1 <= ns[j] <= k
  {
    if k == 0 then []
    else RowApplied(p, row, records, k - 1) + (if RowApplies(p, row, records, k - 1) then [U16(k)] else [])
  }

  function RowFindings(p: Program, row: RowView, records: seq<Record>): (fs: seq<Finding>)
    requires Executable(p)
  {
    var n := |p.tables.requirementSymbols|;
    RowSemantics(row) + RowReferences(row.refs, |row.refs|) + RowRequirements(p, row, records, n)
    + (if RowApplied(p, row, records, n) == [] then [NO_APPLICABLE] else [])
  }

  lemma {:induction false} ReferencesKnown(refs: seq<nat>, k: nat)
    requires k <= |refs|
    ensures AllKnown(RowReferences(refs, k))
  {
    if k > 0 { ReferencesKnown(refs, k - 1); }
  }

  lemma {:induction false} RowFindingsKnown(p: Program, row: RowView, records: seq<Record>)
    requires Executable(p)
    ensures AllKnown(RowFindings(p, row, records))
  {
    ReferencesKnown(row.refs, |row.refs|);
  }

  // ----- provenance and remediation

  function KindRange(t: Tables, k: nat): seq<nat>
    requires TablesAligned(t) && k < |t.clauseSymbols|
  {
    if ValidRange(t.evidenceKindStarts[k], t.evidenceKindCounts[k], |t.evidenceKinds|)
    then t.evidenceKinds[t.evidenceKindStarts[k]..t.evidenceKindStarts[k] + t.evidenceKindCounts[k]] else []
  }

  /** Some clause that requirement i lists asks for evidence of this kind. */
  predicate RequirementAsks(t: Tables, i: nat, kind: nat)
    requires TablesAligned(t) && i < |t.requirementSymbols|
  {
    exists j :: 0 <= j < |ClauseRange(t, i)| && ClauseAsks(t, ClauseRange(t, i)[j], kind)
  }

  predicate ClauseAsks(t: Tables, id: nat, kind: nat)
    requires TablesAligned(t)
  {
    ValidID(id, |t.clauseSymbols|) && kind in KindRange(t, id - 1)
  }

  predicate Asked(t: Tables, applied: seq<nat>, kind: nat)
    requires TablesAligned(t)
  {
    kind != 0 && exists k :: 0 <= k < |applied| && AskedBy(t, applied[k], kind)
  }

  predicate AskedBy(t: Tables, n: nat, kind: nat)
    requires TablesAligned(t)
  {
    ValidID(n, |t.requirementSymbols|) && RequirementAsks(t, n - 1, kind)
  }

  /** Records of asked-for kinds among the first k references, each once, in reference order. */
  function RowUsed(t: Tables, records: seq<Record>, applied: seq<nat>, refs: seq<nat>, k: nat): (ns: seq<nat>)
    requires TablesAligned(t) && k <= |refs|
    ensures |ns| <= k && forall j :: 0 <= j < |ns| ==> 1 <= ns[j] <= |records|
  {
    if k == 0 then []
    else
      var ns, r := RowUsed(t, records, applied, refs, k - 1), refs[k - 1];
      if !(1 <= r <= |records|) || !Asked(t, applied, records[r - 1].kind) || r in ns then ns else ns + [r]
  }

  function RemediationRange(t: Tables, k: nat): seq<nat>
    requires TablesAligned(t) && k < |t.clauseSymbols|
  {
    if ValidRange(t.remediationStarts[k], t.remediationCounts[k], |t.remediationIDs|)
    then t.remediationIDs[t.remediationStarts[k]..t.remediationStarts[k] + t.remediationCounts[k]] else []
  }

  function RowRemediation(t: Tables, w: Finding): seq<nat>
    requires TablesAligned(t)
  {
    if w.outcome == OUTCOME_REVISE && w.kind == DRIVER_CLAUSE && ValidID(w.clause, |t.clauseSymbols|)
    then RemediationRange(t, w.clause - 1) else []
  }

  /** The decision for one row. */
  function RowDecision(p: Program, row: RowView, records: seq<Record>): Decision
    requires Executable(p)
  {
    RowFindingsKnown(p, row, records);
    var n := |p.tables.requirementSymbols|;
    var w := Best(p.catalogues.precedence, RowFindings(p, row, records));
    var applied := RowApplied(p, row, records, n);
    Decision(w, applied, RowUsed(p.tables, records, applied, row.refs, |row.refs|), RowRemediation(p.tables, w))
  }
}
