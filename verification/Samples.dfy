/** A small family of hand-made programs that pass the publication gate: n requirements that apply to
    every request of requester "a", one clause owned by the first of them, one remediation in the
    catalogue. The boundary results are shown on its members. */
module Samples {
  import opened Schema
  import opened Slices
  import opened Verdicts
  import opened Findings
  import opened Reference
  import opened Programs
  import opened Rows
  import opened Lowering
  import opened Resolution
  import opened Coding

  const SAMPLE_SYMBOLS := SymbolTable("ab", [0, 1], [1, 1])

  /** A well-formed request of requester "a" without evidence. */
  const SAMPLE_REQUEST := Request("r", "a", "external", "aggregate_analysis", "aggregate_counts", "protected_dataset",
                                  "local_approved_env", "standard", [])

  function SampleCode(kinds: seq<nat>): Code {
    Code([OP_EQUAL], [FIELD_REQUESTER], [1], [0], [0], [], [0], [0], [], [0], [], kinds)
  }

  function SampleTables(n: nat, outcome: nat, listed: seq<nat>): Tables
    requires n >= 1
  {
    Tables(Fill(n, 1), Fill(n, 1), Fill(n, 0), [1] + Fill(n - 1, 0), [1], [1], [1],
           Fill(REASON_COUNT, outcome), Fill(REASON_COUNT, 1), [0], [|listed|], listed, [0], [0], [])
  }

  /** n requirements, these kind symbols, one outcome in every state, and this remediation list. */
  function Sample(n: nat, kinds: seq<nat>, outcome: nat, listed: seq<nat>): Program
    requires n >= 1
  {
    Program("n", "v", SampleCode(kinds), SampleTables(n, outcome, listed),
            Catalogues([RemediationSpec(REMEDIATION_SET_FIELD, 0, 0, FIELD_REQUESTER, 1)], [1], COMPILED_PRECEDENCE),
            SAMPLE_SYMBOLS)
  }

  predicate SampleParts(n: nat, kinds: seq<nat>, outcome: nat, listed: seq<nat>) {
    n >= 1 && AllValidIDs(kinds, 2) && ValidID(outcome, OUTCOME_COUNT) && AllValidIDs(listed, 1)
  }

  lemma {:induction false} SampleOwned(n: nat, outcome: nat, listed: seq<nat>, k: nat)
    requires 1 <= k <= n
    ensures TablesAligned(SampleTables(n, outcome, listed))
    ensures Owned(SampleTables(n, outcome, listed), k) == [1]
  {
    var t := SampleTables(n, outcome, listed);
    if k == 1 {
      assert Owned(t, 0) == [];
      assert ClauseRange(t, 0) == [1];
    } else {
      SampleOwned(n, outcome, listed, k - 1);
      assert ClauseRange(t, k - 1) == [];
    }
  }

  lemma {:induction false} SampleTablesValid(n: nat, outcome: nat, listed: seq<nat>, kinds: nat)
    requires n >= 1 && ValidID(outcome, OUTCOME_COUNT) && AllValidIDs(listed, 1)
    ensures TablesValid(SampleTables(n, outcome, listed), 1, kinds, 1, 1, 2)
  {
    hide Owned;
    var t := SampleTables(n, outcome, listed);
    SampleOwned(n, outcome, listed, n);
    forall reason | 1 <= reason <= REASON_COUNT
      ensures StateEntryValid(t, 1, 0, reason)
    {}
    assert ClauseEntryValid(t, 1, 1, 2, 0);
  }

  /** Every member of the family passes the publication gate. */
  lemma {:induction false} SampleIsValid(n: nat, kinds: seq<nat>, outcome: nat, listed: seq<nat>)
    requires SampleParts(n, kinds, outcome, listed)
    ensures ProgramValid(Sample(n, kinds, outcome, listed))
  {
    hide TablesValid;
    var p := Sample(n, kinds, outcome, listed);
    SampleTablesValid(n, outcome, listed, |kinds|);
    assert TextEnd(p.symbols, 1) == 1 && TextEnd(p.symbols, 2) == 2;
    assert Trim("n") == "n" && Trim("v") == "v";
  }

  lemma {:induction false} SampleSymbols()
    ensures Symbol(SAMPLE_SYMBOLS, 1) == "a" && Symbol(SAMPLE_SYMBOLS, 2) == "b"
    ensures LookupSymbol(SAMPLE_SYMBOLS, "a") == 1 && LookupSymbol(SAMPLE_SYMBOLS, "b") == 2
  {
    assert "ab"[0..1] == "a" && "ab"[1..2] == "b";
    assert LookupFrom(SAMPLE_SYMBOLS, "b", 1) == 2;
  }

  // ----- running a sample

  lemma {:induction false} SampleRow(t: SymbolTable, pack: seq<Evidence>)
    requires t == SAMPLE_SYMBOLS
    ensures var row := SymbolicRow(t, SAMPLE_REQUEST, pack);
      row.refs == [] && RowSemantics(row) == [] && row.At(FIELD_REQUESTER) == Cell(1, true, true, false)
  {
    hide LookupSymbol, SymbolicRow, FirstIssue, RowSemantics;
    SampleSymbols();
    SampleHasNoIssue();
    SemanticsAgree(t, SAMPLE_REQUEST, pack);
    SymbolicRowAt(t, SAMPLE_REQUEST, pack, FIELD_REQUESTER);
    SampleRefs(t, pack);
    assert SemanticFindings(SAMPLE_REQUEST) == [];
  }

  lemma {:induction false} SampleRefs(t: SymbolTable, pack: seq<Evidence>)
    ensures SymbolicRow(t, SAMPLE_REQUEST, pack).refs == []
  {}

  lemma {:induction false} SampleHasNoIssue()
    ensures forall f :: 1 <= f < FIELD_COUNT ==> !FieldIssue(SAMPLE_REQUEST, f)
    ensures FirstIssue(SAMPLE_REQUEST, FIELD_REQUESTER) == 0
  {
    assert Trim("a") == "a";
    NoIssueLeft(FIELD_REQUESTER);
  }

  lemma {:induction false} NoIssueLeft(f: nat)
    requires 1 <= f <= FIELD_COUNT && forall g :: f <= g < FIELD_COUNT ==> !FieldIssue(SAMPLE_REQUEST, g)
    ensures FirstIssue(SAMPLE_REQUEST, f) == 0
    decreases FIELD_COUNT - f
  {
    hide FieldIssue;
    if f < FIELD_COUNT { NoIssueLeft(f + 1); }
  }

  lemma {:induction false} SampleVerdict(p: Program, kinds: seq<nat>, row: RowView, records: seq<Record>)
    requires p.code == SampleCode(kinds) && CodeSafe(p.code) && row.At(FIELD_REQUESTER) == Cell(1, true, true, false)
    ensures VerdictAt(p.code, row, records, 1) == SATISFIED
  {
    VerdictAtStep(p.code, row, records, 0);
  }

  /** All requirements of a sample apply to such a row, and their stored ids are the low 16 bits of
      their numbers. */
  lemma {:induction false} SampleApplied(n: nat, kinds: seq<nat>, outcome: nat, listed: seq<nat>, row: RowView,
                                         records: seq<Record>, k: nat)
    requires SampleParts(n, kinds, outcome, listed) && k <= n && row.At(FIELD_REQUESTER) == Cell(1, true, true, false)
    ensures var p := Sample(n, kinds, outcome, listed);
      && Executable(p) && |RowApplied(p, row, records, k)| == k
      && forall j :: 0 <= j < k ==> RowApplied(p, row, records, k)[j] == U16(j + 1)
  {
    hide TablesSafe, CodeSafe, VerdictAt, U16;
    var p := Sample(n, kinds, outcome, listed);
    SampleIsExecutable(n, kinds, outcome, listed);
    if k > 0 {
      SampleApplied(n, kinds, outcome, listed, row, records, k - 1);
      SampleVerdict(p, kinds, row, records);
    }
  }

  lemma {:induction false} SampleIsExecutable(n: nat, kinds: seq<nat>, outcome: nat, listed: seq<nat>)
    requires SampleParts(n, kinds, outcome, listed)
    ensures Executable(Sample(n, kinds, outcome, listed))
  {
    hide ProgramValid, Executable;
    SampleIsValid(n, kinds, outcome, listed);
    ValidProgramIsExecutable(Sample(n, kinds, outcome, listed));
  }

  /** A sample that revises decides by its clause and offers its whole list. */
  lemma {:induction false} SampleRevises(kinds: seq<nat>, listed: seq<nat>, row: RowView, records: seq<Record>)
    requires SampleParts(1, kinds, OUTCOME_REVISE, listed)
    requires row.At(FIELD_REQUESTER) == Cell(1, true, true, false) && RowSemantics(row) == [] && row.refs == []
    ensures var p := Sample(1, kinds, OUTCOME_REVISE, listed);
      Executable(p) && RowDecision(p, row, records).remediation == listed
  {
    hide CodeSafe, TablesSafe, VerdictAt, RowSemantics, RowUsed;
    var p := Sample(1, kinds, OUTCOME_REVISE, listed);
    SampleIsExecutable(1, kinds, OUTCOME_REVISE, listed);
    SampleApplied(1, kinds, OUTCOME_REVISE, listed, row, records, 1);
    SampleVerdict(p, kinds, row, records);
    SampleFinding(p, kinds, listed, row, records);
    var f := Finding(OUTCOME_REVISE, DRIVER_CLAUSE, 1, 1, REASON_SATISFIED, 0, 0);
    assert RowFindings(p, row, records) == [f];
    assert Best(COMPILED_PRECEDENCE, [f]) == f by { BestAppend(COMPILED_PRECEDENCE, [], f); assert [] + [f] == [f]; }
    assert p.tables.remediationIDs[0..|listed|] == listed;
  }

  lemma {:induction false} SampleFinding(p: Program, kinds: seq<nat>, listed: seq<nat>, row: RowView, records: seq<Record>)
    requires SampleParts(1, kinds, OUTCOME_REVISE, listed) && p == Sample(1, kinds, OUTCOME_REVISE, listed)
    requires Executable(p) && VerdictAt(p.code, row, records, 1) == SATISFIED
    ensures RowRequirements(p, row, records, 1)
         == [Finding(OUTCOME_REVISE, DRIVER_CLAUSE, 1, 1, REASON_SATISFIED, 0, 0)]
  {
    hide CodeSafe, VerdictAt;
    var f := Finding(OUTCOME_REVISE, DRIVER_CLAUSE, 1, 1, REASON_SATISFIED, 0, 0);
    assert ClauseRange(p.tables, 0) == [1];
    assert RowClauses(p, row, records, 0, 0) == [];
    assert ClauseFinding(p, row, records, 0, 1) == f;
    assert RowClauses(p, row, records, 0, 1) == [f];
    assert RowRequirements(p, row, records, 0) == [];
  }
}
