/** compile.Compile (internal/compile/compiler.go:21-76): validate, lower, freeze, validate again. */
module Compile {
  import opened Schema
  import opened Ast
  import opened Reference
  import opened Programs
  import opened Lowering
  import opened Coding
  import opened Resolution
  import opened Interners
  import opened Widths
  import opened Emission
  import opened Compilers
  import opened Publication
  import PolicyValidator
  import ProgramValidator

  /** Rejects exactly the policies that do not validate. For the others, when the counts that nothing
      caps fit their widths, the program stands for the policy and passes the publication gate, so
      the second rejection never happens. */
  method Compile(policy: Policy) returns (ok: bool, p: Program, ghost syms: seq<string>)
    requires PolicyValid(policy) ==> PolicyFits(policy)
    ensures ok <==> PolicyValid(policy)
    ensures ok ==> ProgramValid(p) && Linked(p, syms, policy) && |p.code.evidenceKindSymbols| <= 3
  {
    hide PolicyValid, PolicyFits, ProgramValid, PolicyCoded, Executable;
    syms := [];
    p := Program("", "", EMPTY_CODE, EMPTY_TABLES, Catalogues([], [], []), SymbolTable("", [], []));
    ok := PolicyValidator.Validate(policy);
    if !ok { return; }
    p, syms := Lower(policy);
    ok := ProgramValidator.Validate(p);
    if !ok { assert false; }
    ValidProgramIsExecutable(p);
  }

  /** The requirement loop and the freeze. */
  method Lower(policy: Policy) returns (p: Program, ghost syms: seq<string>)
    requires PolicyValid(policy) && PolicyFits(policy)
    ensures PolicyCoded(p, syms, policy) && ProgramValid(p) && |p.code.evidenceKindSymbols| <= 3
  {
    hide TotalLength, PolicyText, Clauses, Remediations, ExplanationTexts, RequirementValid, RequirementFits,
         Compiler.CodeOK, Compiler.RequirementsDone, Trim, Spells, SymbolsValid, Interner.Valid, ProgramValid,
         PolicyCoded, CodeSound, AllValidIDs, Distinct, ClauseIDs, RequirementIDs, PolicyNodes;
    var rs := policy.requirements;
    ghost var all := Clauses(rs, |rs|);
    var c := new Compiler(ExplanationTexts(all, |all|) - {""});
    NothingDone(c, rs);
    for i := 0 to |rs|
      invariant c.allowed == ExplanationTexts(all, |all|) - {""} && fresh(c) && fresh(c.symbols)
      invariant c.RequirementsDone(rs, i, Clauses(rs, i))
      invariant |c.code.opcodes| == PolicyNodes(rs, i)
      invariant TotalLength(c.symbols.values) <= PolicyText(rs, i) && |c.code.setValues| <= PolicyText(rs, i)
    {
      c.CompileRequirement(rs, i);
    }
    DoneIsInterned(c, rs);
    var t := c.symbols.Freeze();
    syms := c.symbols.values;
    p := Program(policy.name, policy.version, c.code, c.tables, c.Published(), t);
    DoneIsCoded(c, policy, p);
    assert SymbolsValid(t) by { SomeSymbol(p, syms, policy); }
    DoneIsSound(c, rs);
    CodedProgramIsValid(p, syms, policy);
  }

  lemma {:induction false} NothingDone(c: Compiler, rs: seq<Requirement>)
    requires c.CodeOK() && c.code == EMPTY_CODE && c.symbols.values == [] && c.explanationSymbols == []
    requires c.remediations == [] && c.tables == EMPTY_TABLES
    ensures c.RequirementsDone(rs, 0, Clauses(rs, 0))
    ensures |c.code.opcodes| == PolicyNodes(rs, 0)
    ensures TotalLength(c.symbols.values) <= PolicyText(rs, 0) && |c.code.setValues| <= PolicyText(rs, 0)
  {
    hide Compiler.CodeOK;
    assert Counting(0, 0) == [];
    assert Remediations([], 0) == [];
  }

  lemma {:induction false} DoneIsInterned(c: Compiler, rs: seq<Requirement>)
    requires c.RequirementsDone(rs, |rs|, Clauses(rs, |rs|))
    ensures c.symbols.Valid()
  {
    hide CodeSound, KindsTracked, ExplanationsTracked, ClausesCoded, RemediationsCoded, RequirementsCoded;
  }

  lemma {:induction false} DoneIsSound(c: Compiler, rs: seq<Requirement>)
    requires c.RequirementsDone(rs, |rs|, Clauses(rs, |rs|))
    ensures CodeSound(c.code, |c.symbols.values|)
    ensures AllValidIDs(c.explanationSymbols, |c.symbols.values|)
    ensures AllValidIDs(c.tables.evidenceKinds, |c.code.evidenceKindSymbols|)
    ensures |c.code.evidenceKindSymbols| <= 3
  {
    hide CodeSound, KindsTracked, ClausesCoded, RemediationsCoded, RequirementsCoded, Interned, AllValidIDs;
    KindCount(c.evidenceKinds, c.code, c.symbols.values);
  }

  lemma {:induction false} DoneIsCoded(c: Compiler, policy: Policy, p: Program)
    requires var rs := policy.requirements; c.RequirementsDone(rs, |rs|, Clauses(rs, |rs|))
    requires Spells(p.symbols, c.symbols.values)
    requires p == Program(policy.name, policy.version, c.code, c.tables, c.Published(), p.symbols)
    ensures PolicyCoded(p, c.symbols.values, policy)
  {
    hide CodeSound, ExplanationsTracked, ClausesCoded, RequirementsCoded, RemediationCoded, Interned,
         AllValidIDs, Clauses, Remediations, Counting, KindTracked, KindNames, Spells;
  }

  /** Requirement ids are nonempty, so something was interned. */
  lemma {:induction false} SomeSymbol(p: Program, syms: seq<string>, policy: Policy)
    requires PolicyCoded(p, syms, policy) && PolicyValid(policy)
    ensures syms != []
  {
    hide Codes, Clauses, ClausesCoded, RemediationsCoded, ExpressionValid, ClauseValid, Trim;
    var r := policy.requirements[0];
    assert RequirementValid(r);
    assert RequirementCoded(p.code, p.tables, syms, 0, r, |Clauses(policy.requirements, 0)|);
    NonEmptyID(r.id);
  }
}
