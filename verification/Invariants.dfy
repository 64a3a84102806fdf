/** What the planes and the columns show after every run. */
module Invariants {
  import opened Schema
  import opened Ast
  import opened Verdicts
  import opened Reference
  import opened Programs
  import opened Rows
  import opened Resolution
  import opened Batches
  import opened Contexts
  import opened Kernels
  import opened Lowering
  import opened Coding
  import opened Packs
  import opened Bits
  import opened Findings
  import opened Results
  import opened Evaluator
  import opened Plain
  import opened Meaning
  import opened Decisions
  import opened Statements

  /** After a run every instruction has exactly one reason bit at every existing row, the one its truth
      bits call for and never Unverifiable, and no bit at all at or above the row count. */
  lemma {:induction false} PlanesAreCoherent(context: Context, c: Code, b: Batch, i: nat, row: nat)
    requires CodeSafe(c) && BatchShaped(b) && Evaluated(context, c, b) && i < |c.opcodes|
    ensures row < b.rows ==> exists r :: 1 <= r <= REASON_COUNT && OnlyReason(context, i, row, r)
    ensures row < b.rows ==> (context.Rsn(REASON_SATISFIED, i, row) <==> context.Pos(i, row) && !context.Neg(i, row))
    ensures row < b.rows ==> (context.Rsn(REASON_FALSE, i, row) <==> !context.Pos(i, row) && context.Neg(i, row))
    ensures row < b.rows ==> (context.Rsn(REASON_CONFLICT, i, row) <==> context.Pos(i, row) && context.Neg(i, row))
    ensures !context.Rsn(REASON_UNVERIFIABLE, i, row)
    ensures row >= b.rows ==> !context.Pos(i, row) && !context.Neg(i, row)
    ensures row >= b.rows ==> forall r :: 1 <= r <= REASON_COUNT ==> !context.Rsn(r, i, row)
  {
    hide ColumnsShaped, EdgesShaped, CodeSafe, RowOf, RecordsOf, Run, Context.Pos, Context.Neg, Context.Rsn;
    var v := Target(c, b, i, row);
    assert context.Shows(i, row, v);
    if row < b.rows {
      RunCoherent(c, RowOf(b, row), RecordsOf(b), |c.opcodes|);
      assert Coherent(v);
      assert OnlyReason(context, i, row, v.reason);
    }
  }

  /** r is the one reason bit set. */
  predicate OnlyReason(context: Context, i: nat, row: nat, r: nat)
    requires 1 <= r <= REASON_COUNT
    reads context
  {
    forall s :: 1 <= s <= REASON_COUNT ==> (context.Rsn(s, i, row) <==> s == r)
  }

  /** The planes of a compiled root show, for every row of a built batch, the four-valued verdict of
      the source expression on that row's raw strings. */
  lemma {:induction false} CompiledRootShows(context: Context, p: Program, syms: seq<string>, policy: Policy, b: Batch,
                                             requests: seq<Request>, pack: seq<Evidence>, id: nat, e: Expression,
                                             depth: nat, allowEvidence: bool, row: nat)
    requires Linked(p, syms, policy) && Codes(p.code, syms, id, e) && ExpressionValid(e, depth, allowEvidence)
    requires Represents(b, p.symbols, p.code.evidenceKindSymbols, requests, pack) && row < |requests|
    requires Evaluated(context, p.code, b)
    ensures context.Shows(id - 1, row, EvalExpression(e, requests[row], pack))
  {
    hide ColumnsShaped, EvidenceShaped, EdgesShaped, EdgesFilled, RowOf, RecordsOf, SymbolicRow, SymbolicRecords, CodeSafe,
         TablesSafe, ExpressionValid, NumberingCoded, RequirementsCoded, ClausesCoded, RemediationsCoded, PolicyValid,
         Spells, Interned, KindsCoded, VerdictAt, EvalExpression, Context.Shows, Context.Shaped;
    RootExists(p.code, syms, id, e);
    CompiledExpressionMeans(p.symbols, p.code, syms, id, e, depth, allowEvidence, requests[row], pack);
    assert context.Shows(id - 1, row, Target(p.code, b, id - 1, row));
  }

  /** So do they show its state in the policy language. */
  lemma {:induction false} CompiledStateShows(context: Context, p: Program, syms: seq<string>, policy: Policy, b: Batch,
                                              requests: seq<Request>, pack: seq<Evidence>, id: nat, e: Expression,
                                              depth: nat, allowEvidence: bool, row: nat, s: State)
    requires Linked(p, syms, policy) && Codes(p.code, syms, id, e) && ExpressionValid(e, depth, allowEvidence)
    requires Represents(b, p.symbols, p.code.evidenceKindSymbols, requests, pack) && row < |requests|
    requires Evaluated(context, p.code, b) && InState(e, requests[row], pack, s)
    ensures context.Shows(id - 1, row, VerdictOf(s))
  {
    hide Linked, Codes, ExpressionValid, Represents, Evaluated, InState, EvalExpression, Context.Shows;
    CompiledRootShows(context, p, syms, policy, b, requests, pack, id, e, depth, allowEvidence, row);
    VerdictMeans(e, depth, allowEvidence, requests[row], pack);
  }

  /** The plane bits of a compiled comparison, on the raw strings of the request: positive exactly for a
      listed value, negative exactly for another acceptable one. */
  lemma {:induction false} CompiledComparisonShows(context: Context, p: Program, syms: seq<string>, policy: Policy,
                                                   b: Batch, requests: seq<Request>, pack: seq<Evidence>, id: nat,
                                                   e: Expression, depth: nat, allowEvidence: bool, row: nat)
    requires Linked(p, syms, policy) && Codes(p.code, syms, id, e) && ExpressionValid(e, depth, allowEvidence)
    requires Represents(b, p.symbols, p.code.evidenceKindSymbols, requests, pack) && row < |requests|
    requires Evaluated(context, p.code, b) && (e.op.Equal? || e.op.In?)
    ensures ValidID(id, |p.code.opcodes|)
    ensures var x := Text(requests[row], e.field);
      var listed := if e.op.Equal? then x == e.value else x in e.values;
      && (context.Pos(id - 1, row) <==> listed)
      && (context.Neg(id - 1, row) <==> Acceptable(e.field, x) && !listed)
      && (context.Rsn(3, id - 1, row) <==> x == "")
      && (context.Rsn(6, id - 1, row) <==> x != "" && !Acceptable(e.field, x))
  {
    hide Linked, Codes, ExpressionValid, Represents, Evaluated, EvalExpression, Context.Pos, Context.Neg, Context.Rsn,
         Text, Acceptable;
    RootExists(p.code, syms, id, e);
    CompiledRootShows(context, p, syms, policy, b, requests, pack, id, e, depth, allowEvidence, row);
    ComparisonTruth(e, depth, allowEvidence, requests[row], pack);
  }

  /** The flags of a stored record, on its raw strings. */
  lemma {:induction false} FlagsShow(b: Batch, t: SymbolTable, kinds: seq<nat>, requests: seq<Request>, pack: seq<Evidence>,
                                     i: nat)
    requires Represents(b, t, kinds, requests, pack) && i < |pack|
    ensures |b.flags| == |pack|
    ensures BitAt(b.flags[i], 0) <==> Contradictory(pack[i])
    ensures BitAt(b.flags[i], 1) <==> Outdated(pack[i])
    ensures BitAt(b.flags[i], 2) <==> Withdrawn(pack[i])
  {
    hide ColumnsShaped, EdgesShaped, EdgesFilled, RowOf, SymbolicRow, NarrowedKind, LookupSymbol;
    assert RecordsOf(b)[i] == SymbolicRecords(t, kinds, pack)[i];
  }

  /** The columns of an evaluated batch hold, for every row, the numbers of the one cause that the
      policy language gives for its decision; every record used is listed once. */
  lemma {:induction false} ColumnsShow(n: Numeric, p: Program, syms: seq<string>, policy: Policy, b: Batch,
                                       requests: seq<Request>, pack: seq<Evidence>, r: nat)
    returns (o: Outcome, cause: Cause, w: Finding)
    requires Linked(p, syms, policy) && r < |requests|
    requires Represents(b, p.symbols, p.code.evidenceKindSymbols, requests, pack) && AllResolved(n, p, b)
    ensures Because(policy, requests[r], pack, o, cause) && Numbers(policy, requests[r], o, cause, w)
    ensures NumericShaped(n, |requests|) && r + 1 < |b.offsets|
    ensures n.outcomeIDs[r] == w.outcome && n.driverKinds[r] == w.kind
    ensures n.driverRequirementIDs[r] == w.requirement && n.driverClauseIDs[r] == w.clause
    ensures n.driverReasonIDs[r] == w.reason && n.driverFieldIDs[r] == w.field
    ensures n.driverEvidenceEdgeIDs[r] == if cause.NoRecord? then b.offsets[r] + cause.k + 1 else 0
    ensures n.issueIDs[r] == if o == Approve then 0 else w.reason
    ensures n.evidenceOffsets[r] <= n.evidenceOffsets[r + 1] <= |n.evidenceRefs|
    ensures Distinct(n.evidenceRefs[n.evidenceOffsets[r]..n.evidenceOffsets[r + 1]])
  {
    hide ColumnsShaped, EvidenceShaped, RowOf, RecordsOf, SymbolicRow, SymbolicRecords, Executable, PolicyCoded,
         PolicyValid, Because, RowDecision, Used, Applied, Best, AllFindings, RemediationNumbers, EdgesFilled;
    assert RowResolved(n, p, b, r);
    CompiledDecisionMeans(p, syms, policy, requests[r], pack);
    o, cause := DecisionMeans(policy, requests[r], pack);
    w := Decide(policy, requests[r], pack).driver;
    UsedDistinct(policy, requests[r], pack);
    OutcomeNumbered(policy, requests[r], pack, o, cause, w);
  }

  lemma {:induction false} OutcomeNumbered(policy: Policy, request: Request, pack: seq<Evidence>, o: Outcome, cause: Cause,
                                           w: Finding)
    requires Because(policy, request, pack, o, cause) && Numbers(policy, request, o, cause, w)
    ensures w.outcome == OutcomeNumber(o) && (o == Approve <==> w.outcome == 1)
    ensures w.edge == if cause.NoRecord? then cause.k + 1 else 0
  {
    hide WellFormed, SomeGoverns, SomeGives, Settled, GoodField, Exists, FirstGives, Clauses, Text;
  }

  lemma {:induction false} RootExists(c: Code, syms: seq<string>, id: nat, e: Expression)
    requires Codes(c, syms, id, e)
    ensures ValidID(id, |c.opcodes|)
  {
    hide LookupField, Names, SpecCodes;
  }
}
