/** What every stored driver names: the facts that make each later lookup of it succeed. */
module Drivers {
  import opened Schema
  import opened Findings
  import opened Reference
  import opened Programs
  import opened Rows
  import opened Resolution

  /** f names a clause, field or edge that exists, and a reason that explains it. */
  predicate WellNamed(p: Program, row: RowView, f: Finding)
    requires Executable(p)
  {
    if f.kind == DRIVER_NONE then f == NOTHING_FOUND
    else if f.kind == DRIVER_CLAUSE then
      && (|p.tables.requirementSymbols| <= MAX_UINT16 ==> ValidID(f.requirement, |p.tables.requirementSymbols|))
      && ValidID(f.clause, |p.tables.clauseSymbols|)
      && 1 <= f.reason <= REASON_COUNT && f.reason != REASON_UNVERIFIABLE && f.field == 0 && f.edge == 0
      && f.outcome == p.tables.outcomeIDs[StateIndex(f.clause - 1, f.reason)]
    else if f.kind == DRIVER_SEMANTIC then
      1 <= f.field < FIELD_COUNT && f == SemanticFinding(row.At(f.field).present, f.field)
    else if f.kind == DRIVER_MISSING_REFERENCE then
      1 <= f.edge <= |row.refs| && row.refs[f.edge - 1] == 0 && f == MissingReference(f.edge)
    else f == NO_APPLICABLE
  }

  predicate AllWellNamed(p: Program, row: RowView, fs: seq<Finding>)
    requires Executable(p)
  {
    forall i :: 0 <= i < |fs| ==> WellNamed(p, row, fs[i])
  }

  lemma {:induction false} ReferencesWellNamed(p: Program, row: RowView, k: nat)
    requires Executable(p) && k <= |row.refs|
    ensures AllWellNamed(p, row, RowReferences(row.refs, k))
  {
    hide Executable;
    if k > 0 { ReferencesWellNamed(p, row, k - 1); }
  }

  lemma {:induction false} ClausesWellNamed(p: Program, row: RowView, records: seq<Record>, i: nat, k: nat)
    requires Executable(p) && i < |p.tables.requirementSymbols| && k <= |ClauseRange(p.tables, i)|
    ensures AllWellNamed(p, row, RowClauses(p, row, records, i, k))
  {
    hide CodeSafe, ClauseReason, ClauseSafe;
    if k > 0 {
      ClausesWellNamed(p, row, records, i, k - 1);
      assert RequirementSafe(p.tables, |p.code.opcodes|, i);
      assert ValidID(ClauseRange(p.tables, i)[k - 1], |p.tables.clauseSymbols|);
    }
  }

  lemma {:induction false} RequirementsWellNamed(p: Program, row: RowView, records: seq<Record>, k: nat)
    requires Executable(p) && k <= |p.tables.requirementSymbols|
    ensures AllWellNamed(p, row, RowRequirements(p, row, records, k))
  {
    hide CodeSafe, RowClauses, RowApplies, WellNamed, RequirementSafe, ClauseSafe, ClauseRange;
    if k > 0 {
      RequirementsWellNamed(p, row, records, k - 1);
      ClausesWellNamed(p, row, records, k - 1, |ClauseRange(p.tables, k - 1)|);
    }
  }

  lemma {:induction false} IssueFieldIsIssue(row: RowView, f: nat)
    requires 1 <= f <= FIELD_COUNT
    ensures var g := IssueField(row, f); g != 0 ==> f <= g < FIELD_COUNT && row.At(g).issue
    decreases FIELD_COUNT - f
  {
    if f < FIELD_COUNT { IssueFieldIsIssue(row, f + 1); }
  }

  /** Every driver is well named: it is one of the findings or nothing at all. */
  lemma {:induction false} DriverIsWellNamed(p: Program, row: RowView, records: seq<Record>)
    requires Executable(p)
    ensures WellNamed(p, row, RowDecision(p, row, records).driver)
    ensures OutcomeKnown(RowDecision(p, row, records).driver)
  {
    hide CodeSafe, TablesSafe, WellNamed, RowReferences, RowRequirements, RowApplied, RowUsed, RowRemediation;
    IssueFieldIsIssue(row, FIELD_REQUESTER);
    ReferencesWellNamed(p, row, |row.refs|);
    RequirementsWellNamed(p, row, records, |p.tables.requirementSymbols|);
    SmallFindingsWellNamed(p, row);
    var fs := RowFindings(p, row, records);
    assert AllWellNamed(p, row, fs);
    RowFindingsKnown(p, row, records);
    var i := BestWitness(p.catalogues.precedence, fs);
  }

  lemma {:induction false} SmallFindingsWellNamed(p: Program, row: RowView)
    requires Executable(p)
    ensures AllWellNamed(p, row, RowSemantics(row))
    ensures WellNamed(p, row, NO_APPLICABLE) && WellNamed(p, row, NOTHING_FOUND)
  {
    hide Executable;
    IssueFieldIsIssue(row, FIELD_REQUESTER);
  }
}
