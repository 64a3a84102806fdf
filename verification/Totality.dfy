/** Why decoding the results of a published program never fails. */
module Totality {
  import opened Schema
  import opened Ast
  import opened Findings
  import opened Programs
  import opened Rows
  import opened Resolution
  import opened Drivers
  import opened Rendering
  import opened Evaluator

  /** A symbol of a valid table is never empty. */
  lemma {:induction false} SymbolNonEmpty(t: SymbolTable, id: nat)
    requires SymbolsValid(t) && ValidID(id, |t.starts|)
    ensures Symbol(t, id) != ""
  {
    assert SymbolTiled(t, id - 1);
    TextEndGrows(t, id, |t.starts|);
  }

  lemma {:induction false} ExplanationNonEmpty(p: Program, id: nat)
    requires ProgramValid(p) && ValidID(id, |p.catalogues.explanationSymbols|)
    ensures ExplanationText(p, id) != ""
  {
    hide SymbolsValid, Symbol, Trim, CodeValid, TablesValid, RemediationSpecValid;
    SymbolNonEmpty(p.symbols, p.catalogues.explanationSymbols[id - 1]);
  }

  /** A driver of some kind outranks Approve, so it is never an Approve outcome itself. */
  lemma {:induction false} DriverOutranksApprove(p: Program, row: RowView, records: seq<Record>)
    requires Executable(p)
    ensures var w := RowDecision(p, row, records).driver;
      && OutcomeKnown(w)
      && (w == NOTHING_FOUND || (w.kind != DRIVER_NONE && w.outcome != OUTCOME_APPROVE))
  {
    hide CodeSafe, TablesSafe, RowFindings, RowApplied, RowUsed, RowRemediation, Best;
    RowFindingsKnown(p, row, records);
    DriverIsWellNamed(p, row, records);
    var i := BestWitness(p.catalogues.precedence, RowFindings(p, row, records));
  }

  lemma {:induction false} ClauseDriverExplained(p: Program, k: nat, reason: nat)
    requires ProgramValid(p) && k < |p.tables.clauseSymbols| && 1 <= reason <= REASON_COUNT
    requires TablesAligned(p.tables) && p.tables.outcomeIDs[StateIndex(k, reason)] != OUTCOME_APPROVE
    ensures ExplanationText(p, p.tables.explanationIDs[StateIndex(k, reason)]) != ""
  {
    hide SymbolsValid, Trim, CodeValid, CataloguesValid, ExplanationText, RequirementEntryValid, Owned, Distinct;
    assert ClauseEntryValid(p.tables, |p.code.opcodes|, |p.catalogues.explanationSymbols|, |p.symbols.starts|, k);
    assert StateEntryValid(p.tables, |p.catalogues.explanationSymbols|, k, reason);
    ExplanationNonEmpty(p, p.tables.explanationIDs[StateIndex(k, reason)]);
  }

  lemma {:induction false} RemediationIDsValid(p: Program, w: Finding)
    requires ProgramValid(p) && TablesAligned(p.tables)
    ensures AllValidIDs(RowRemediation(p.tables, w), |p.catalogues.remediations|)
  {
    hide SymbolsValid, Trim, CodeValid, CataloguesValid, RequirementEntryValid, ClauseEntryValid, Owned, Distinct;
    var ids := RowRemediation(p.tables, w);
    forall i | 0 <= i < |ids|
      ensures ValidID(ids[i], |p.catalogues.remediations|)
    {
      assert ids[i] in p.tables.remediationIDs;
    }
  }

  /** Every decision of a published program can be decoded: a driver off Approve always exists, a
      clause driver always has a nonempty explanation, a missing reference lies in its row, and all
      ids are in range. */
  lemma {:induction false} DecisionsArePrintable(p: Program, row: RowView, records: seq<Record>, request: Request,
                                                 pack: seq<Evidence>)
    requires ProgramValid(p) && RequirementIDsFit(p) && |row.refs| == |request.evidenceIDs| && |records| == |pack|
    ensures Executable(p) && Printable(p, request, pack, |row.refs|, RowDecision(p, row, records))
  {
    hide ProgramValid, CodeSafe, ExplanationText, RowFindings, RequirementSafe, ClauseSafe, RowRemediation,
         Best, RowUsed, RowApplied, RowRequirements, SemanticFinding, StateIndex;
    ValidProgramIsExecutable(p);
    var d := RowDecision(p, row, records);
    DriverIsWellNamed(p, row, records);
    DriverOutranksApprove(p, row, records);
    RemediationIDsValid(p, d.driver);
    if d.driver.kind == DRIVER_CLAUSE { ClauseDriverExplained(p, d.driver.clause - 1, d.driver.reason); }
  }
}
