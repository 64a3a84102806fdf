/** Program.Validate (internal/program/validate.go), the publication gate: loops with running
    offsets and seen flags that accept exactly the programs Programs.ProgramValid describes. */
module ProgramValidator {
  import opened Schema
  import opened Ast
  import opened Programs

  method ValidateSymbols(t: SymbolTable) returns (ok: bool)
    ensures ok <==> SymbolsValid(t)
  {
    if t.starts == [] || |t.starts| != |t.lengths| { return false; }
    var expectedStart := 0;
    for i := 0 to |t.starts|
      invariant expectedStart == TextEnd(t, i)
      invariant forall k :: 0 <= k < i ==> SymbolTiled(t, k)
    {
      var end := t.starts[i] + t.lengths[i];
      if t.starts[i] != expectedStart || end > |t.text| || t.lengths[i] == 0 {
        if SymbolsValid(t) { assert SymbolTiled(t, i); TextEndGrows(t, i + 1, |t.starts|); }
        return false;
      }
      expectedStart := end;
    }
    return expectedStart == |t.text|;
  }

  method ValidateInstruction(c: Code, n: nat, i: nat) returns (ok: bool)
    requires Aligned(c) && i < |c.opcodes|
    ensures ok <==> InstructionValid(c, n, i)
  {
    if !(OP_EQUAL <= c.opcodes[i] <= OP_ALL) { return false; }
    if !ValidRange(c.operandStarts[i], c.operandCounts[i], |c.operands|) { return false; }
    if !ValidRange(c.setStarts[i], c.setCounts[i], |c.setValues|) { return false; }
    if c.opcodes[i] == OP_EQUAL {
      if !ValidField(c.fields[i]) || !ValidID(c.values[i], n) { return false; }
      return c.operandCounts[i] == 0 && c.setCounts[i] == 0 && c.evidenceSpecIndexes[i] == 0;
    } else if c.opcodes[i] == OP_IN {
      if !ValidField(c.fields[i]) || c.setCounts[i] == 0 { return false; }
      for j := 0 to c.setCounts[i]
        invariant forall k :: 0 <= k < j ==> SetValueValid(c, n, i, k)
      {
        if !ValidID(c.setValues[c.setStarts[i] + j], n) { assert !SetValueValid(c, n, i, j); return false; }
      }
      return c.operandCounts[i] == 0 && c.values[i] == 0 && c.evidenceSpecIndexes[i] == 0;
    } else if c.opcodes[i] == OP_EVIDENCE {
      if !ValidID(c.evidenceSpecIndexes[i], |c.evidenceSpecs|) { return false; }
      return c.operandCounts[i] == 0 && c.setCounts[i] == 0 && c.fields[i] == 0 && c.values[i] == 0;
    } else {
      if c.operandCounts[i] == 0 { return false; }
      for j := 0 to c.operandCounts[i]
        invariant forall k :: 0 <= k < j ==> OperandValid(c, i, k)
      {
        var operand := c.operands[c.operandStarts[i] + j];
        if operand == 0 || operand >= i + 1 { assert !OperandValid(c, i, j); return false; }
      }
      return c.setCounts[i] == 0 && c.fields[i] == 0 && c.values[i] == 0 && c.evidenceSpecIndexes[i] == 0;
    }
  }

  method ValidateSpec(s: EvidenceSpec, kinds: nat, n: nat) returns (ok: bool)
    ensures ok <==> SpecValid(s, kinds, n)
  {
    if !ValidID(s.kind, kinds) { return false; }
    for q := 0 to QUALIFIER_COUNT
      invariant forall k :: 0 <= k < q ==> s.Wanted(k) <= n
    {
      if s.Wanted(q) > n { return false; }
    }
    return true;
  }

  method ValidateIDs(ids: seq<nat>, count: nat) returns (ok: bool)
    ensures ok <==> AllValidIDs(ids, count)
  {
    for i := 0 to |ids|
      invariant AllValidIDs(ids[..i], count)
    {
      if !ValidID(ids[i], count) { return false; }
      assert ids[..i + 1] == ids[..i] + [ids[i]];
    }
    assert ids[..|ids|] == ids;
    return true;
  }

  method ValidateCode(c: Code, n: nat) returns (ok: bool)
    ensures ok <==> CodeValid(c, n)
  {
    if c.opcodes == [] || !Aligned(c) { return false; }
    for i := 0 to |c.opcodes|
      invariant forall k :: 0 <= k < i ==> InstructionValid(c, n, k)
    {
      ok := ValidateInstruction(c, n, i);
      if !ok { return; }
    }
    for i := 0 to |c.evidenceSpecs|
      invariant forall k :: 0 <= k < i ==> SpecValid(c.evidenceSpecs[k], |c.evidenceKindSymbols|, n)
    {
      ok := ValidateSpec(c.evidenceSpecs[i], |c.evidenceKindSymbols|, n);
      if !ok { return; }
    }
    ok := ValidateIDs(c.evidenceKindSymbols, n);
  }

  /** The inner loop over the clause ids that requirement i lists. */
  method MarkClauses(t: Tables, i: nat, seen: array<bool>, ghost owned: seq<nat>, ghost all: seq<nat>)
    returns (ok: bool, ghost owned': seq<nat>)
    requires TablesAligned(t) && i < |t.requirementSymbols| && seen.Length == |t.clauseSymbols|
    requires ValidRange(t.clauseStarts[i], t.clauseCounts[i], |t.clauseIDs|)
    requires owned + ClauseRange(t, i) <= all
    requires AllValidIDs(owned, seen.Length) && Distinct(owned)
    requires forall c :: 0 <= c < seen.Length ==> (seen[c] <==> c + 1 in owned)
    modifies seen
    ensures ok ==> owned' == owned + ClauseRange(t, i) && AllValidIDs(owned', seen.Length) && Distinct(owned')
    ensures ok ==> forall c :: 0 <= c < seen.Length ==> (seen[c] <==> c + 1 in owned')
    ensures !ok ==> !AllValidIDs(all, seen.Length) || !Distinct(all)
  {
    ghost var range := ClauseRange(t, i);
    owned' := owned;
    for j := 0 to t.clauseCounts[i]
      invariant owned' == owned + range[..j] && owned' <= all
      invariant AllValidIDs(owned', seen.Length) && Distinct(owned')
      invariant forall c :: 0 <= c < seen.Length ==> (seen[c] <==> c + 1 in owned')
    {
      var id := t.clauseIDs[t.clauseStarts[i] + j];
      assert range[..j + 1] == range[..j] + [id];
      assert owned' + [id] == owned + range[..j + 1] <= all;
      DistinctAppend(owned', id);
      if !ValidID(id, seen.Length) { assert all[|owned'|] == id; return false, owned'; }
      if seen[id - 1] {
        if Distinct(all) { DistinctPrefix(owned' + [id], all); }
        return false, owned';
      }
      seen[id - 1] := true;
      owned' := owned' + [id];
    }
    assert range[..|range|] == range;
    return true, owned';
  }

  /** Every owned clause id in range and none repeated, recorded in the seen flags. */
  method ValidateOwnership(t: Tables, instructions: nat, n: nat) returns (ok: bool)
    requires TablesAligned(t)
    ensures ok <==>
      && (forall i :: 0 <= i < |t.requirementSymbols| ==> RequirementEntryValid(t, instructions, n, i))
      && AllValidIDs(Owned(t, |t.requirementSymbols|), |t.clauseSymbols|)
      && Distinct(Owned(t, |t.requirementSymbols|))
      && (forall id :: 1 <= id <= |t.clauseSymbols| ==> id in Owned(t, |t.requirementSymbols|))
  {
    hide ClauseRange;
    var clauses := |t.clauseSymbols|;
    var seen := new bool[clauses](_ => false);
    ghost var all := Owned(t, |t.requirementSymbols|);
    ghost var owned: seq<nat> := [];
    for i := 0 to |t.requirementSymbols|
      invariant forall k :: 0 <= k < i ==> RequirementEntryValid(t, instructions, n, k)
      invariant owned == Owned(t, i)
      invariant AllValidIDs(owned, clauses) && Distinct(owned)
      invariant forall c :: 0 <= c < clauses ==> (seen[c] <==> c + 1 in owned)
    {
      OwnedPrefix(t, i + 1, |t.requirementSymbols|);
      if !ValidID(t.requirementSymbols[i], n) || !ValidID(t.applicabilityRoots[i], instructions)
         || !ValidRange(t.clauseStarts[i], t.clauseCounts[i], |t.clauseIDs|) {
        assert !RequirementEntryValid(t, instructions, n, i);
        return false;
      }
      ok, owned := MarkClauses(t, i, seen, owned, all);
      if !ok { return false; }
    }
    for c := 0 to clauses
      invariant forall id :: 1 <= id <= c ==> id in all
    {
      if !seen[c] { return false; }
    }
    return true;
  }

  lemma {:induction false} OwnedPrefix(t: Tables, j: nat, k: nat)
    requires TablesAligned(t) && j <= k <= |t.requirementSymbols|
    ensures Owned(t, j) <= Owned(t, k)
  {
    hide ClauseRange, TablesAligned;
    if j < k { OwnedPrefix(t, j, k - 1); }
  }

  method ValidateClause(t: Tables, instructions: nat, explanations: nat, n: nat, k: nat) returns (ok: bool)
    requires TablesAligned(t) && k < |t.clauseSymbols|
    ensures ok <==> ClauseEntryValid(t, instructions, explanations, n, k)
  {
    if !ValidID(t.clauseSymbols[k], n) || !ValidID(t.assertionRoots[k], instructions) { return false; }
    if !ValidRange(t.remediationStarts[k], t.remediationCounts[k], |t.remediationIDs|) { return false; }
    if !ValidRange(t.evidenceKindStarts[k], t.evidenceKindCounts[k], |t.evidenceKinds|) { return false; }
    for reason := 1 to REASON_COUNT + 1
      invariant forall r :: 1 <= r < reason ==> StateEntryValid(t, explanations, k, r)
    {
      var outcome := t.outcomeIDs[StateIndex(k, reason)];
      if !ValidID(outcome, OUTCOME_COUNT)
         || !ValidExplanation(t.explanationIDs[StateIndex(k, reason)], explanations, outcome) {
        assert !StateEntryValid(t, explanations, k, reason);
        return false;
      }
    }
    return true;
  }

  method ValidateTables(t: Tables, instructions: nat, kinds: nat, explanations: nat, remediations: nat, n: nat)
    returns (ok: bool)
    ensures ok <==> TablesValid(t, instructions, kinds, explanations, remediations, n)
  {
    if t.requirementSymbols == [] || t.clauseSymbols == [] || !TablesAligned(t) { return false; }
    ok := ValidateOwnership(t, instructions, n);
    if !ok { return; }
    for k := 0 to |t.clauseSymbols|
      invariant forall m :: 0 <= m < k ==> ClauseEntryValid(t, instructions, explanations, n, m)
    {
      ok := ValidateClause(t, instructions, explanations, n, k);
      if !ok { return; }
    }
    ok := ValidateIDs(t.remediationIDs, remediations);
    if !ok { return; }
    ok := ValidateIDs(t.evidenceKinds, kinds);
  }

  method ValidatePrecedence(precedence: seq<nat>) returns (ok: bool)
    ensures ok <==> PrecedenceValid(precedence)
  {
    if |precedence| != OUTCOME_COUNT { return false; }
    var seen := new bool[|precedence| + 1](_ => false);
    for i := 0 to |precedence|
      invariant AllValidIDs(precedence[..i], OUTCOME_COUNT) && Distinct(precedence[..i])
      invariant forall r :: 0 <= r <= OUTCOME_COUNT ==> (seen[r] <==> r in precedence[..i])
    {
      var rank := precedence[i];
      assert precedence[..i + 1] == precedence[..i] + [rank];
      if rank == 0 || rank > |precedence| { return false; }
      DistinctAppend(precedence[..i], rank);
      if seen[rank] { return false; }
      seen[rank] := true;
    }
    assert precedence[..|precedence|] == precedence;
    return true;
  }

  method ValidateCatalogues(c: Catalogues, kinds: nat, n: nat) returns (ok: bool)
    ensures ok <==> CataloguesValid(c, kinds, n)
  {
    ok := ValidateIDs(c.explanationSymbols, n);
    if !ok { return; }
    for i := 0 to |c.remediations|
      invariant forall k :: 0 <= k < i ==>
        RemediationSpecValid(c.remediations[k], kinds, |c.explanationSymbols|, n)
    {
      if !RemediationSpecValid(c.remediations[i], kinds, |c.explanationSymbols|, n) { return false; }
    }
    ok := ValidatePrecedence(c.precedence);
  }

  /** Program.Validate decides publishability. */
  method Validate(p: Program) returns (ok: bool)
    ensures ok <==> ProgramValid(p)
  {
    if Trim(p.name) == "" || Trim(p.version) == "" || p.code.opcodes == [] || !Aligned(p.code) { return false; }
    ok := ValidateSymbols(p.symbols);
    if !ok { return; }
    var n := |p.symbols.starts|;
    ok := ValidateCode(p.code, n);
    if !ok { return; }
    ok := ValidateTables(p.tables, |p.code.opcodes|, |p.code.evidenceKindSymbols|,
                         |p.catalogues.explanationSymbols|, |p.catalogues.remediations|, n);
    if !ok { return; }
    ok := ValidateCatalogues(p.catalogues, |p.code.evidenceKindSymbols|, n);
  }
}
