/** The edges of the design: promises that fail on some input, with such an input and the exact
    condition under which they hold. */
module Boundaries {
  import opened Schema
  import opened Slices
  import opened Ast
  import opened Verdicts
  import opened Findings
  import opened Reference
  import opened Programs
  import opened Rows
  import opened Lowering
  import opened Resolution
  import opened Coding
  import opened Drivers
  import opened Batches
  import opened Results
  import opened Evaluator
  import opened Rendering
  import opened Answers
  import opened Samples

  // ----- the word count

  /** The evaluator counts words in 32 bits, the builder does not: they agree exactly up to 2^32 - 64
      rows. Above that the evaluator counts no words at all. */
  lemma {:induction false} WordCountsAgree(rows: nat)
    requires rows <= MAX_UINT32
    ensures U32(rows + 63) / 64 == WordCount(rows) <==> rows + 63 <= MAX_UINT32
    ensures rows + 63 > MAX_UINT32 ==> U32(rows + 63) / 64 == 0 && WordCount(rows) == 0x400_0000
  {}

  // ----- requirement ids

  /** The id that is stored for requirement i leads back to it. */
  predicate RequirementReadsBack(p: Program, i: nat) {
    ValidID(U16(i + 1), |p.tables.requirementSymbols|) && U16(i + 1) - 1 == i
  }

  /** For a program that passes the gate, every id that resolution stores and reads back is the id of
      its requirement exactly when there are at most 65535 requirements. */
  lemma {:induction false} RequirementIDsReadBack(p: Program)
    requires ProgramValid(p)
    ensures (forall i: nat :: i < |p.tables.requirementSymbols| ==> RequirementReadsBack(p, i)) <==> RequirementIDsFit(p)
  {
    hide ProgramValid;
    if !RequirementIDsFit(p) { assert !RequirementReadsBack(p, MAX_UINT16); }
  }

  /** Runs of a valid program with n requirements that all apply list only ids that can be read back
      exactly when n is at most 65535. */
  lemma {:induction false} ManyRequirements(n: nat, pack: seq<Evidence>)
    requires n >= 1
    ensures var p := Sample(n, [], OUTCOME_APPROVE, []);
      && ProgramValid(p) && Executable(p)
      && (AllValidIDs(RowDecision(p, ViewRow(p, SAMPLE_REQUEST, pack), ViewRecords(p, pack)).applied, n)
          <==> n <= MAX_UINT16)
  {
    hide ProgramValid, Executable, RowApplied, Best, RowFindings, RowUsed, RowRemediation, SymbolicRow, SymbolicRecords;
    var p := Sample(n, [], OUTCOME_APPROVE, []);
    var row, records := ViewRow(p, SAMPLE_REQUEST, pack), ViewRecords(p, pack);
    SampleIsValid(n, [], OUTCOME_APPROVE, []);
    SampleRow(p.symbols, pack);
    SampleApplied(n, [], OUTCOME_APPROVE, [], row, records, n);
    var applied := RowApplied(p, row, records, n);
    if n > MAX_UINT16 {
      assert applied[MAX_UINT16] == 0;
    } else {
      forall j | 0 <= j < n
        ensures ValidID(applied[j], n)
      {
        NarrowingLossless(j + 1);
      }
    }
  }

  /** With 65536 requirements the last id is zero: the answer cannot be decoded, and a search for
      required evidence would look before the first requirement. */
  lemma {:induction false} TooManyRequirements()
    ensures var p := Sample(0x1_0000, [], OUTCOME_APPROVE, []);
      && ProgramValid(p) && Executable(p)
      && !Printable(p, SAMPLE_REQUEST, [], 0, RowDecision(p, ViewRow(p, SAMPLE_REQUEST, []), ViewRecords(p, [])))
  {
    hide ProgramValid, Executable, RowDecision, ViewRow, ViewRecords, DriverPrintable;
    ManyRequirements(0x1_0000, []);
  }

  // ----- evidence kind ids

  /** For a program that passes the gate, the builder's 16-bit kind ids are the kinds' positions exactly
      when there are at most 65535 kinds. */
  lemma {:induction false} KindIDsReadBack(p: Program)
    requires ProgramValid(p)
    ensures (forall i: nat :: i < |p.code.evidenceKindSymbols| ==> KindReadsBack(p, i))
       <==> |p.code.evidenceKindSymbols| <= MAX_UINT16
    ensures |p.code.evidenceKindSymbols| <= MAX_UINT16 ==> forall text: string :: KindKept(p, text)
  {
    hide ProgramValid, LookupSymbol;
    if |p.code.evidenceKindSymbols| > MAX_UINT16 { assert !KindReadsBack(p, MAX_UINT16); }
  }

  predicate KindReadsBack(p: Program, i: nat) {
    ValidID(U16(i + 1), |p.code.evidenceKindSymbols|) && U16(i + 1) - 1 == i
  }

  /** A record of this type gets the position of its kind. */
  predicate KindKept(p: Program, text: string) {
    var kinds := p.code.evidenceKindSymbols;
    NarrowedKind(p.symbols, kinds, text) == KindID(kinds, LookupSymbol(p.symbols, text), |kinds|)
  }

  /** With 65537 kinds a record of the last type "a" passes for one of the first kind, "b", and
      satisfies a predicate that asks for it. */
  lemma {:induction false} TooManyKinds(e: Evidence)
    requires e.kind == "a" && !e.Conflicting() && !e.Stale() && !e.Revoked()
    ensures var p := Sample(1, Fill(0x1_0000, 2) + [1], OUTCOME_APPROVE, []);
      && ProgramValid(p) && EvidenceKindName(p, 1) == "b"
      && SpecGrade(EvidenceSpec(1, 0, 0, 0, 0, 0, 0, 0, 0),
                   SymbolicRecord(p.symbols, p.code.evidenceKindSymbols, e)) == GRADE_SATISFIED
  {
    hide ProgramValid, LookupSymbol, Symbol, KindID, Evidence.Conflicting, Evidence.Stale, Evidence.Revoked;
    var kinds := Fill(0x1_0000, 2) + [1];
    SampleIsValid(1, kinds, OUTCOME_APPROVE, []);
    SampleSymbols();
    LastKind(0x1_0000);
  }

  lemma {:induction false} LastKind(n: nat)
    ensures KindID(Fill(n, 2) + [1], 1, n + 1) == n + 1
  {
    NoKind(n, n);
  }

  lemma {:induction false} NoKind(n: nat, k: nat)
    requires k <= n
    ensures KindID(Fill(n, 2) + [1], 1, k) == 0
  {
    if k > 0 { NoKind(n, k - 1); }
  }

  // ----- remediation capacity

  /** Some run ends in a Revise of clause k. */
  ghost predicate CanRevise(p: Program, k: nat)
    requires Executable(p)
  {
    exists row: RowView, records: seq<Record> :: Revises(p, row, records, k)
  }

  predicate Revises(p: Program, row: RowView, records: seq<Record>, k: nat)
    requires Executable(p)
  {
    var w := RowDecision(p, row, records).driver;
    w.kind == DRIVER_CLAUSE && w.outcome == OUTCOME_REVISE && w.clause == k + 1
  }

  /** The decision of this run stays within the capacity reserved for one row. */
  predicate Within(p: Program, row: RowView, records: seq<Record>)
    requires Executable(p)
  {
    |RowDecision(p, row, records).remediation| <= |p.catalogues.remediations|
  }

  /** A run offers the list of the clause that revises it, or nothing. */
  lemma {:induction false} RunRemediation(p: Program, row: RowView, records: seq<Record>, k: nat)
    requires Executable(p) && k < |p.tables.clauseSymbols|
    ensures Revises(p, row, records, k) ==>
      |RowDecision(p, row, records).remediation| == p.tables.remediationCounts[k]
    ensures RowDecision(p, row, records).remediation != [] ==>
      exists c: nat :: c < |p.tables.clauseSymbols| && Revises(p, row, records, c)
  {
    hide CodeSafe, RowFindings, RowApplied, RowUsed, Best, RequirementSafe, StateSafe;
    assert ClauseSafe(p.tables, |p.code.opcodes|, k);
    var d := RowDecision(p, row, records);
    if d.remediation != [] { assert Revises(p, row, records, d.driver.clause - 1); }
  }

  /** Every run stays within the catalogue exactly when no clause that some run revises by lists more. */
  lemma {:induction false} RemediationBound(p: Program)
    requires Executable(p)
    ensures (forall row: RowView, records: seq<Record> :: Within(p, row, records))
       <==> forall k: nat :: k < |p.tables.clauseSymbols| && CanRevise(p, k) ==> FewRemediations(p, k)
  {
    hide CodeSafe, RowDecision, RequirementSafe, ClauseSafe;
    if forall row: RowView, records: seq<Record> :: Within(p, row, records) {
      forall k: nat | k < |p.tables.clauseSymbols| && CanRevise(p, k)
        ensures FewRemediations(p, k)
      {
        var row: RowView, records: seq<Record> :| Revises(p, row, records, k);
        RunRemediation(p, row, records, k);
        assert Within(p, row, records);
      }
    } else {
      var row: RowView, records: seq<Record> :| !Within(p, row, records);
      OverlongRun(p, row, records);
    }
  }

  lemma {:induction false} OverlongRun(p: Program, row: RowView, records: seq<Record>)
    requires Executable(p) && !Within(p, row, records)
    ensures exists k: nat :: k < |p.tables.clauseSymbols| && CanRevise(p, k) && !FewRemediations(p, k)
  {
    hide CodeSafe, RowDecision, RequirementSafe, ClauseSafe;
    DriverNamesClause(p, row, records);
    RunRemediation(p, row, records, 0);
    var k: nat :| k < |p.tables.clauseSymbols| && Revises(p, row, records, k);
    RunRemediation(p, row, records, k);
    assert CanRevise(p, k);
  }

  lemma {:induction false} DriverNamesClause(p: Program, row: RowView, records: seq<Record>)
    requires Executable(p) && RowDecision(p, row, records).remediation != []
    ensures |p.tables.clauseSymbols| >= 1
  {
    hide CodeSafe, RowFindings, RowApplied, RowUsed, Best;
  }

  /** Clause k can revise on the face of its table: a state that expressions can have resolves to
      Revise, and Revise outranks Approve. */
  predicate ReviseState(p: Program, k: nat)
    requires Executable(p) && k < |p.tables.clauseSymbols|
  {
    && p.catalogues.precedence[OUTCOME_REVISE - 1] > p.catalogues.precedence[OUTCOME_APPROVE - 1]
    && exists reason :: 1 <= reason <= REASON_COUNT && RevisesAt(p, k, reason)
  }

  predicate RevisesAt(p: Program, k: nat, reason: nat)
    requires Executable(p) && k < |p.tables.clauseSymbols| && 1 <= reason <= REASON_COUNT
  {
    reason != REASON_UNVERIFIABLE && p.tables.outcomeIDs[StateIndex(k, reason)] == OUTCOME_REVISE
  }

  lemma {:induction false} RevisingClauseHasState(p: Program, row: RowView, records: seq<Record>, k: nat)
    requires Executable(p) && k < |p.tables.clauseSymbols| && Revises(p, row, records, k)
    ensures ReviseState(p, k)
  {
    hide CodeSafe, RowFindings, RowApplied, RowUsed, Best, RequirementSafe, ClauseSafe;
    DriverIsWellNamed(p, row, records);
    RowFindingsKnown(p, row, records);
    var w := RowDecision(p, row, records).driver;
    assert RevisesAt(p, k, w.reason);
    var i := BestWitness(p.catalogues.precedence, RowFindings(p, row, records));
  }

  /** What a caller can check: when every clause with a reachable Revise state lists no more than the
      catalogue holds, every run stays within it. */
  lemma {:induction false} ReviseListsSuffice(p: Program)
    requires Executable(p)
    requires forall k: nat :: k < |p.tables.clauseSymbols| && ReviseState(p, k) ==> FewRemediations(p, k)
    ensures forall row: RowView, records: seq<Record> :: Within(p, row, records)
  {
    hide CodeSafe, RowDecision, RequirementSafe, ClauseSafe, ReviseState;
    RemediationBound(p);
    forall k: nat | k < |p.tables.clauseSymbols| && CanRevise(p, k)
      ensures FewRemediations(p, k)
    {
      var row: RowView, records: seq<Record> :| Revises(p, row, records, k);
      RevisingClauseHasState(p, row, records, k);
    }
  }

  /** When every run stays within the catalogue, so does the whole column of a batch. */
  lemma {:induction false} ColumnWithin(n: Numeric, p: Program, b: Batch, k: nat)
    requires Executable(p) && BatchShaped(b) && AllResolved(n, p, b) && k <= b.rows
    requires forall row: RowView, records: seq<Record> :: Within(p, row, records)
    ensures n.remediationOffsets[k] <= k * |p.catalogues.remediations|
    ensures k == b.rows ==> |n.remediationIDs| <= b.rows * |p.catalogues.remediations|
  {
    hide Executable, ColumnsShaped, EdgesShaped, RowOf, RecordsOf, RowDecision;
    if k > 0 {
      ColumnWithin(n, p, b, k - 1);
      assert RowResolved(n, p, b, k - 1);
      assert Within(p, RowOf(b, k - 1), RecordsOf(b));
      RowBudget(k - 1, k, |p.catalogues.remediations|);
    }
  }

  /** The gate does not give the bound: this program passes it, its only clause lists its only
      remediation twice, and a plain request is offered both. */
  lemma {:induction false} RevisingSampleOutgrows(pack: seq<Evidence>)
    ensures var p := Sample(1, [], OUTCOME_REVISE, [1, 1]);
      && ProgramValid(p) && Executable(p) && |p.catalogues.remediations| == 1
      && RowDecision(p, ViewRow(p, SAMPLE_REQUEST, pack), ViewRecords(p, pack)).remediation == [1, 1]
  {
    hide ProgramValid, Executable, RowDecision, SymbolicRow, SymbolicRecords;
    var p := Sample(1, [], OUTCOME_REVISE, [1, 1]);
    SampleIsValid(1, [], OUTCOME_REVISE, [1, 1]);
    SampleRow(p.symbols, pack);
    SampleRevises([], [1, 1], ViewRow(p, SAMPLE_REQUEST, pack), ViewRecords(p, pack));
  }

  /** Nor is a short list necessary: the same program with Approve in every state never offers any. */
  lemma {:induction false} ApprovingSampleStays()
    ensures var p := Sample(1, [], OUTCOME_APPROVE, [1, 1]);
      && ProgramValid(p) && Executable(p) && !RemediationsFit(p)
      && forall row: RowView, records: seq<Record> :: Within(p, row, records)
  {
    hide ProgramValid, Executable, RowDecision;
    var p := Sample(1, [], OUTCOME_APPROVE, [1, 1]);
    SampleIsValid(1, [], OUTCOME_APPROVE, [1, 1]);
    SampleIsExecutable(1, [], OUTCOME_APPROVE, [1, 1]);
    assert !FewRemediations(p, 0);
    ReviseListsSuffice(p);
  }

  // ----- what answers say

  /** The answer calls a requester missing whenever its value is not acceptable; that is literally true
      exactly when the value is empty. */
  lemma {:induction false} RequesterMessage(policy: Policy, request: Request)
    requires FirstIssue(request, FIELD_REQUESTER) == FIELD_REQUESTER
    ensures var f := SemanticFindings(request)[0];
      && DriverAnswer(Clauses(policy.requirements, |policy.requirements|), request, f).rationale == RequesterMissing
      && (f.reason == REASON_MISSING <==> request.requester == "")
  {
    hide Clauses, FirstIssue, Trim;
  }

  lemma {:induction false} PaddedRequesterIsNotMissing()
    ensures var request := Request("r", " ", "external", "", "", "", "", "", []);
      FirstIssue(request, FIELD_REQUESTER) == FIELD_REQUESTER && SemanticFindings(request)[0].reason == REASON_UNCLEAR
  {
    assert Trim(" ") == "" by { assert TrimLeft(" ") == TrimLeft("") == ""; }
  }

  /** The description of a remediation is shown exactly when it asks for evidence or there is none. */
  lemma {:induction false} DescriptionShown(p: Program, syms: seq<string>, s: RemediationSpec, r: Remediation)
    requires Spells(p.symbols, syms) && RemediationCoded(p.code, p.catalogues.explanationSymbols, syms, s, r)
    requires RemediationValid(r)
    ensures RenderItem(p, s).description == r.description <==> r.action.AddEvidence? || r.description == ""
  {
    hide Spells, RemediationCoded, RemediationValid, RenderItem;
    ItemAgrees(p, syms, s, r);
  }

  lemma {:induction false} SetFieldDropsDescription()
    ensures var r := Remediation(SetField, "", "ask for less", "usage_limit", "standard");
      RemediationValid(r) && AnswerItem(r).description == "" && r.description != ""
  {
    assert Trim("standard") != "" by { assert TrimLeft("standard") == "standard"; }
  }
}
