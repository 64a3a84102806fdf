/** Compiler output passes the publication gate: a program that stands for a publishable policy and
    whose code is sound satisfies Programs.ProgramValid. */
module Publication {
  import opened Schema
  import opened Ast
  import opened Findings
  import opened Reference
  import opened Programs
  import opened Lowering
  import opened Coding
  import opened Emission

  lemma {:induction false} OwnedIsCounting(t: Tables, rs: seq<Requirement>, k: nat)
    requires TablesAligned(t) && |t.requirementSymbols| == |rs| && k <= |rs|
    requires t.clauseIDs == Counting(0, |Clauses(rs, |rs|)|)
    requires forall i :: 0 <= i < |rs| ==> t.clauseStarts[i] == |Clauses(rs, i)| && t.clauseCounts[i] == |rs[i].clauses|
    ensures Owned(t, k) == Counting(0, |Clauses(rs, k)|)
  {
    hide Counting, ClauseRange, TablesAligned, Clauses;
    ClauseCountStep(rs, k);
    if k > 0 {
      OwnedIsCounting(t, rs, k - 1);
      ClauseRangeIsCounting(t, rs, k - 1);
      CountingJoin(|Clauses(rs, k - 1)|, |rs[k - 1].clauses|);
    } else {
      assert Counting(0, 0) == [];
    }
  }

  lemma {:induction false} ClauseCountStep(rs: seq<Requirement>, k: nat)
    requires k <= |rs|
    ensures |Clauses(rs, k)| == if k == 0 then 0 else |Clauses(rs, k - 1)| + |rs[k - 1].clauses|
  {}

  lemma {:induction false} CountingJoin(n: nat, m: nat)
    ensures Counting(0, n) + Counting(n, m) == Counting(0, n + m)
  {}

  /** Every clause is owned exactly once. */
  lemma {:induction false} CountingOwnsAll(n: nat)
    ensures AllValidIDs(Counting(0, n), n) && Distinct(Counting(0, n))
    ensures forall id :: 1 <= id <= n ==> id in Counting(0, n)
  {
    forall id | 1 <= id <= n
      ensures id in Counting(0, n)
    {
      assert Counting(0, n)[id - 1] == id;
    }
  }

  lemma {:induction false} StateEntryIsValid(t: Tables, syms: seq<string>, xs: seq<nat>, k: nat, reason: nat, c: Clause)
    requires TablesAligned(t) && k < |t.clauseSymbols| && 1 <= reason <= REASON_COUNT
    requires StateCoded(t, syms, xs, k, reason, c) && StateValid(c.resolution.At(reason), c.explanations.At(reason))
    ensures StateEntryValid(t, |xs|, k, reason)
  {
    hide States.At;
    TrimEmpty();
  }

  lemma {:induction false} TrimEmpty()
    ensures Trim("") == ""
  {}

  lemma {:induction false} ClauseEntryIsValid(p: Program, syms: seq<string>, policy: Policy, k: nat)
    requires PolicyCoded(p, syms, policy) && PolicyValid(policy) && k < |Clauses(policy.requirements,
        |policy.requirements|)|
    ensures k < |p.tables.clauseSymbols| && TablesAligned(p.tables)
    ensures ClauseEntryValid(p.tables, |p.code.opcodes|, |p.catalogues.explanationSymbols|, |syms|, k)
  {
    hide HeaderCoded, RequirementsCoded, RemediationsCoded, AddKinds, Trim, ExpressionValid, StateCoded,
         StateValid, States.At, Clauses, KindNames, Remediations, RemediationValid, HasRevise;
    var rs, t, xs := policy.requirements, p.tables, p.catalogues.explanationSymbols;
    var cs := Clauses(rs, |rs|);
    ClauseIsValid(rs, |rs|, k);
    assert ClauseCoded(p.code, t, xs, syms, k, cs[k], |Remediations(cs, k)|);
    CodesHasRoot(p.code, syms, t.assertionRoots[k], cs[k].assertion);
    RemediationsSplit(cs, k);
    NonEmptyID(cs[k].id);
    forall reason | 1 <= reason <= REASON_COUNT
      ensures StateEntryValid(t, |xs|, k, reason)
    {
      assert StateCoded(t, syms, xs, k, reason, cs[k]);
      StateEntryIsValid(t, syms, xs, k, reason, cs[k]);
    }
  }

  lemma {:induction false} NonEmptyID(id: string)
    requires Trim(id) != ""
    ensures id != ""
  {}

  lemma {:induction false} CodesHasRoot(c: Code, syms: seq<string>, id: nat, e: Expression)
    requires Codes(c, syms, id, e)
    ensures ValidID(id, |c.opcodes|)
  {}

  lemma {:induction false} RequirementEntryIsValid(p: Program, syms: seq<string>, policy: Policy, i: nat)
    requires PolicyCoded(p, syms, policy) && PolicyValid(policy) && i < |policy.requirements|
    ensures i < |p.tables.requirementSymbols| && TablesAligned(p.tables)
    ensures RequirementEntryValid(p.tables, |p.code.opcodes|, |syms|, i)
    ensures p.tables.clauseStarts[i] == |Clauses(policy.requirements, i)|
    ensures p.tables.clauseCounts[i] == |policy.requirements[i].clauses|
  {
    hide HeaderCoded, ClausesCoded, RemediationsCoded, Trim, ExpressionValid, ClauseValid, Clauses, Remediations;
    var rs, t := policy.requirements, p.tables;
    assert RequirementCoded(p.code, t, syms, i, rs[i], |Clauses(rs, i)|);
    assert RequirementValid(rs[i]);
    CodesHasRoot(p.code, syms, t.applicabilityRoots[i], rs[i].applicability);
    ClausesSplit(rs, i);
    NonEmptyID(rs[i].id);
  }

  lemma {:induction false} RemediationIsValid(p: Program, syms: seq<string>, policy: Policy, x: nat)
    requires PolicyCoded(p, syms, policy) && PolicyValid(policy) && x < |p.catalogues.remediations|
    ensures RemediationSpecValid(p.catalogues.remediations[x], |p.code.evidenceKindSymbols|,
                                 |p.catalogues.explanationSymbols|, |syms|)
  {
    hide HeaderCoded, ClausesCoded, RequirementsCoded, Trim, Clauses, Remediations, LookupField,
         ValidFieldValue, ValidEvidenceKind;
    var rs := policy.requirements;
    var cs := Clauses(rs, |rs|);
    var ms := Remediations(cs, |cs|);
    assert RemediationCoded(p.code, p.catalogues.explanationSymbols, syms, p.catalogues.remediations[x], ms[x]);
    RemediationsValid(rs, cs, |cs|, x);
    if ms[x].action.SetField? { NonEmptyID(ms[x].value); }
  }

  lemma {:induction false} RemediationsValid(rs: seq<Requirement>, cs: seq<Clause>, k: nat, x: nat)
    requires k <= |cs| && cs == Clauses(rs, |rs|) && x < |Remediations(cs, k)|
    requires forall i :: 0 <= i < |rs| ==> RequirementValid(rs[i])
    ensures RemediationValid(Remediations(cs, k)[x])
  {
    hide RemediationValid, ExpressionValid, RequirementValid, Trim, StateValid, HasRevise;
    if x < |Remediations(cs, k - 1)| { RemediationsValid(rs, cs, k - 1, x); } else { ClauseIsValid(rs, |rs|, k - 1); }
  }

  /** The compiler's rank table is a permutation. */
  lemma {:induction false} CompiledPrecedenceValid()
    ensures PrecedenceValid(COMPILED_PRECEDENCE)
  {}

  lemma {:induction false} TablesAreValid(p: Program, syms: seq<string>, policy: Policy)
    requires PolicyCoded(p, syms, policy) && PolicyValid(policy)
    requires AllValidIDs(p.tables.evidenceKinds, |p.code.evidenceKindSymbols|)
    ensures TablesValid(p.tables, |p.code.opcodes|, |p.code.evidenceKindSymbols|,
                        |p.catalogues.explanationSymbols|, |p.catalogues.remediations|, |syms|)
  {
    hide HeaderCoded, ClausesCoded, RequirementsCoded, RemediationsCoded, Trim, Remediations, Counting,
         RequirementEntryValid, ClauseEntryValid, ExpressionValid, ClauseValid, Distinct, Owned, ClauseRange;
    var rs, t := policy.requirements, p.tables;
    forall i | 0 <= i < |rs|
      ensures RequirementEntryValid(t, |p.code.opcodes|, |syms|, i)
      ensures t.clauseStarts[i] == |Clauses(rs, i)| && t.clauseCounts[i] == |rs[i].clauses|
    {
      RequirementEntryIsValid(p, syms, policy, i);
    }
    forall k | 0 <= k < |t.clauseSymbols|
      ensures ClauseEntryValid(t, |p.code.opcodes|, |p.catalogues.explanationSymbols|, |syms|, k)
    {
      ClauseEntryIsValid(p, syms, policy, k);
    }
    OwnedIsCounting(t, rs, |rs|);
    CountingOwnsAll(|Clauses(rs, |rs|)|);
    CountingOwnsAll(|p.catalogues.remediations|);
    HasClause(rs);
  }

  lemma {:induction false} HasClause(rs: seq<Requirement>)
    requires rs != [] && RequirementValid(rs[0])
    ensures Clauses(rs, |rs|) != []
  {
    ClauseNumbers(rs, 0, 0);
  }

  /** Whatever the compiler publishes for a publishable policy, the program validator accepts. */
  lemma {:induction false} CodedProgramIsValid(p: Program, syms: seq<string>, policy: Policy)
    requires PolicyCoded(p, syms, policy) && PolicyValid(policy)
    requires CodeSound(p.code, |syms|) && SymbolsValid(p.symbols)
    requires AllValidIDs(p.catalogues.explanationSymbols, |syms|)
    requires AllValidIDs(p.tables.evidenceKinds, |p.code.evidenceKindSymbols|)
    ensures ProgramValid(p)
  {
    hide ClausesCoded, RequirementsCoded, RemediationsCoded, Trim, SymbolsValid, TablesValid, InstructionValid,
         RemediationSpecValid, Clauses, Remediations, PrecedenceValid, SpellsAt;
    TablesAreValid(p, syms, policy);
    forall x | 0 <= x < |p.catalogues.remediations|
      ensures RemediationSpecValid(p.catalogues.remediations[x], |p.code.evidenceKindSymbols|,
                                   |p.catalogues.explanationSymbols|, |syms|)
    {
      RemediationIsValid(p, syms, policy, x);
    }
    CompiledPrecedenceValid();
    CodeIsNonEmpty(p, syms, policy);
  }

  lemma {:induction false} CodeIsNonEmpty(p: Program, syms: seq<string>, policy: Policy)
    requires PolicyCoded(p, syms, policy) && policy.requirements != []
    ensures p.code.opcodes != []
  {
    var r := policy.requirements[0];
    assert RequirementCoded(p.code, p.tables, syms, 0, r, |Clauses(policy.requirements, 0)|);
    CodesHasRoot(p.code, syms, p.tables.applicabilityRoots[0], r.applicability);
  }
}
