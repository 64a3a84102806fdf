/** What the publication gate admits, told by what the columns encode: texts laid end to end,
    instructions with nothing but their own operands, clauses with one owner each, and eight states a
    clause. */
module Gate {
  import opened Schema
  import opened Ast
  import opened Programs
  import opened Plain
  import opened Meaning

  // ----- symbols

  function Joined(texts: seq<string>): string {
    if texts == [] then "" else texts[0] + Joined(texts[1..])
  }

  /** The table that lays these texts end to end. */
  predicate Lays(t: SymbolTable, texts: seq<string>) {
    && |t.starts| == |texts| && |t.lengths| == |texts| && t.text == Joined(texts)
    && forall i :: 0 <= i < |texts| ==> t.starts[i] == |Joined(texts[..i])| && t.lengths[i] == |texts[i]|
  }

  ghost predicate SomeTexts(t: SymbolTable) {
    exists texts :: texts != [] && (forall i :: 0 <= i < |texts| ==> texts[i] != "") && Lays(t, texts)
  }

  lemma {:induction false} JoinedAppend(texts: seq<string>, text: string)
    ensures Joined(texts + [text]) == Joined(texts) + text
  {
    if texts != [] {
      assert (texts + [text])[1..] == texts[1..] + [text];
      JoinedAppend(texts[1..], text);
    } else {
      assert (texts + [text])[0] == text && (texts + [text])[1..] == [];
      assert Joined([]) == "";
    }
  }

  lemma {:induction false} EndMeans(t: SymbolTable, texts: seq<string>, k: nat)
    requires |t.lengths| == |texts| && k <= |texts| && forall i :: 0 <= i < |texts| ==> t.lengths[i] == |texts[i]|
    ensures TextEnd(t, k) == |Joined(texts[..k])|
  {
    if k > 0 {
      EndMeans(t, texts, k - 1);
      assert texts[..k] == texts[..k - 1] + [texts[k - 1]];
      JoinedAppend(texts[..k - 1], texts[k - 1]);
    }
  }

  /** The texts of a tiled table. */
  lemma {:induction false} TextsOf(t: SymbolTable, k: nat) returns (texts: seq<string>)
    requires SymbolsValid(t) && k <= |t.starts|
    ensures |texts| == k && TextEnd(t, k) <= |t.text| && Joined(texts) == t.text[..TextEnd(t, k)]
    ensures forall i :: 0 <= i < k ==> |texts[i]| == t.lengths[i] && texts[i] != ""
  {
    texts := [];
    TextEndGrows(t, k, |t.starts|);
    if k > 0 {
      texts := TextsOf(t, k - 1);
      assert SymbolTiled(t, k - 1);
      var text := t.text[TextEnd(t, k - 1)..TextEnd(t, k)];
      JoinedAppend(texts, text);
      texts := texts + [text];
    }
  }

  lemma {:induction false} SymbolsMean(t: SymbolTable)
    ensures SymbolsValid(t) <==> SomeTexts(t)
  {
    if SymbolsValid(t) {
      var texts := TextsOf(t, |t.starts|);
      forall i | 0 <= i < |texts|
        ensures t.starts[i] == |Joined(texts[..i])|
      {
        assert SymbolTiled(t, i);
        EndMeans(t, texts, i);
      }
      assert Lays(t, texts);
    }
    if SomeTexts(t) {
      var texts :| texts != [] && (forall i :: 0 <= i < |texts| ==> texts[i] != "") && Lays(t, texts);
      forall i | 0 <= i < |texts|
        ensures SymbolTiled(t, i)
      {
        EndMeans(t, texts, i);
      }
      EndMeans(t, texts, |texts|);
      assert texts[..|texts|] == texts;
    }
  }

  // ----- instructions

  predicate InScope(ids: seq<nat>, count: nat) {
    forall id :: id in ids ==> 1 <= id <= count
  }

  lemma {:induction false} ScopeMeans(ids: seq<nat>, count: nat)
    ensures AllValidIDs(ids, count) <==> InScope(ids, count)
  {
    if InScope(ids, count) { assert forall i :: 0 <= i < |ids| ==> ids[i] in ids; }
    if AllValidIDs(ids, count) { assert forall i :: 0 <= i < |ids| ==> 1 <= ids[i] <= count; }
  }

  datatype Instruction =
    | CompareOne(field: nat, symbol: nat)
    | CompareSome(field: nat, symbols: seq<nat>)
    | MatchEvidence(spec: nat)
    | Conjunction(operands: seq<nat>)

  predicate RangeHolds(column: seq<nat>, start: nat, count: nat, items: seq<nat>) {
    start + count <= |column| && column[start..start + count] == items
  }

  /** Instruction i of the columns is ins, and its other columns are blank. */
  predicate Encodes(c: Code, i: nat, ins: Instruction)
    requires Aligned(c) && i < |c.opcodes|
  {
    var op, f, v, spec := c.opcodes[i], c.fields[i], c.values[i], c.evidenceSpecIndexes[i];
    match ins
    case CompareOne(field, symbol) =>
      (op, f, v, spec) == (1, field, symbol, 0) && RangesHold(c, i, [], [])
    case CompareSome(field, symbols) => (op, f, v, spec) == (2, field, 0, 0) && RangesHold(c, i, [], symbols)
    case MatchEvidence(index) => (op, f, v, spec) == (3, 0, 0, index) && RangesHold(c, i, [], [])
    case Conjunction(operands) => (op, f, v, spec) == (4, 0, 0, 0) && RangesHold(c, i, operands, [])
  }

  predicate RangesHold(c: Code, i: nat, operands: seq<nat>, symbols: seq<nat>)
    requires Aligned(c) && i < |c.opcodes|
  {
    && RangeHolds(c.operands, c.operandStarts[i], c.operandCounts[i], operands)
    && RangeHolds(c.setValues, c.setStarts[i], c.setCounts[i], symbols)
  }

  /** What instruction number i + 1 may refer to. */
  predicate WellScoped(ins: Instruction, i: nat, symbols: nat, specs: nat) {
    match ins
    case CompareOne(field, symbol) => 1 <= field <= 7 && 1 <= symbol <= symbols
    case CompareSome(field, listed) => 1 <= field <= 7 && listed != [] && InScope(listed, symbols)
    case MatchEvidence(spec) => 1 <= spec <= specs
    case Conjunction(operands) => operands != [] && InScope(operands, i)
  }

  ghost predicate SomeInstruction(c: Code, n: nat, i: nat)
    requires Aligned(c) && i < |c.opcodes|
  {
    exists ins :: Encodes(c, i, ins) && WellScoped(ins, i, n, |c.evidenceSpecs|)
  }

  /** The instruction that the columns at i encode. */
  function Decoded(c: Code, i: nat): Instruction
    requires Aligned(c) && i < |c.opcodes|
    requires c.operandStarts[i] + c.operandCounts[i] <= |c.operands| && c.setStarts[i] + c.setCounts[i] <= |c.setValues|
  {
    match c.opcodes[i]
    case 1 => CompareOne(c.fields[i], c.values[i])
    case 2 => CompareSome(c.fields[i], c.setValues[c.setStarts[i]..c.setStarts[i] + c.setCounts[i]])
    case 3 => MatchEvidence(c.evidenceSpecIndexes[i])
    case _ => Conjunction(c.operands[c.operandStarts[i]..c.operandStarts[i] + c.operandCounts[i]])
  }

  lemma {:induction false} InstructionMeans(c: Code, n: nat, i: nat)
    requires Aligned(c) && i < |c.opcodes|
    ensures InstructionValid(c, n, i) <==> SomeInstruction(c, n, i)
  {
    if ValidRange(c.operandStarts[i], c.operandCounts[i], |c.operands|)
       && ValidRange(c.setStarts[i], c.setCounts[i], |c.setValues|) {
      SetMeans(c, n, i);
      OperandsMean(c, i);
      var ins := Decoded(c, i);
      assert InstructionValid(c, n, i) ==> Encodes(c, i, ins) && WellScoped(ins, i, n, |c.evidenceSpecs|);
      if SomeInstruction(c, n, i) {
        var other :| Encodes(c, i, other) && WellScoped(other, i, n, |c.evidenceSpecs|);
        assert other == ins;
      }
    }
  }

  lemma {:induction false} SetMeans(c: Code, n: nat, i: nat)
    requires Aligned(c) && i < |c.opcodes| && c.setStarts[i] + c.setCounts[i] <= |c.setValues|
    ensures (forall j :: 0 <= j < c.setCounts[i] ==> SetValueValid(c, n, i, j))
       <==> InScope(c.setValues[c.setStarts[i]..c.setStarts[i] + c.setCounts[i]], n)
  {
    var listed := c.setValues[c.setStarts[i]..c.setStarts[i] + c.setCounts[i]];
    ScopeMeans(listed, n);
    forall j | 0 <= j < |listed|
      ensures ValidID(listed[j], n) <==> SetValueValid(c, n, i, j)
    {}
  }

  lemma {:induction false} OperandsMean(c: Code, i: nat)
    requires Aligned(c) && i < |c.opcodes| && c.operandStarts[i] + c.operandCounts[i] <= |c.operands|
    ensures (forall j :: 0 <= j < c.operandCounts[i] ==> OperandValid(c, i, j))
       <==> InScope(c.operands[c.operandStarts[i]..c.operandStarts[i] + c.operandCounts[i]], i)
  {
    var list := c.operands[c.operandStarts[i]..c.operandStarts[i] + c.operandCounts[i]];
    ScopeMeans(list, i);
    forall j | 0 <= j < |list|
      ensures ValidID(list[j], i) <==> OperandValid(c, i, j)
    {}
  }

  predicate SpecScoped(s: EvidenceSpec, kinds: nat, n: nat) {
    && 1 <= s.kind <= kinds
    && s.status <= n && s.timing <= n && s.reviewer <= n && s.timestampState <= n
    && s.subject <= n && s.attestationState <= n && s.scope <= n && s.adjustmentType <= n
  }

  lemma {:induction false} SpecMeans(s: EvidenceSpec, kinds: nat, n: nat)
    ensures SpecValid(s, kinds, n) <==> SpecScoped(s, kinds, n)
  {
    if SpecValid(s, kinds, n) {
      assert s.Wanted(0) <= n && s.Wanted(1) <= n && s.Wanted(2) <= n && s.Wanted(3) <= n;
      assert s.Wanted(4) <= n && s.Wanted(5) <= n && s.Wanted(6) <= n && s.Wanted(7) <= n;
    }
  }

  ghost predicate CodeAdmitted(c: Code, n: nat) {
    && c.opcodes != []
    && |c.fields| == |c.values| == |c.operandStarts| == |c.operandCounts| == |c.setStarts| == |c.setCounts|
       == |c.evidenceSpecIndexes| == |c.opcodes|
    && (forall i :: 0 <= i < |c.opcodes| ==> SomeInstruction(c, n, i))
    && (forall s :: s in c.evidenceSpecs ==> SpecScoped(s, |c.evidenceKindSymbols|, n))
    && InScope(c.evidenceKindSymbols, n)
  }

  lemma {:induction false} CodeMeans(c: Code, n: nat)
    ensures CodeValid(c, n) <==> CodeAdmitted(c, n)
  {
    hide SomeInstruction, InstructionValid, SpecValid, SpecScoped, AllValidIDs, InScope;
    ScopeMeans(c.evidenceKindSymbols, n);
    if Aligned(c) {
      forall i | 0 <= i < |c.opcodes|
        ensures InstructionValid(c, n, i) <==> SomeInstruction(c, n, i)
      {
        InstructionMeans(c, n, i);
      }
    }
    forall s | s in c.evidenceSpecs
      ensures SpecValid(s, |c.evidenceKindSymbols|, n) <==> SpecScoped(s, |c.evidenceKindSymbols|, n)
    {
      SpecMeans(s, |c.evidenceKindSymbols|, n);
    }
  }

  // ----- requirements and clauses

  /** Entry j of the clause list of requirement i is clause id. */
  predicate Lists(t: Tables, i: nat, j: nat, id: nat) {
    && i < |t.clauseStarts| && i < |t.clauseCounts| && j < t.clauseCounts[i]
    && t.clauseStarts[i] + j < |t.clauseIDs| && t.clauseIDs[t.clauseStarts[i] + j] == id
  }

  /** The clauses from 1 on, each listed once and nothing else listed. */
  ghost predicate OneOwnerEach(t: Tables) {
    && (forall id: nat :: Listed(t, id) <==> 1 <= id <= |t.clauseSymbols|)
    && forall i: nat, j: nat, x: nat, y: nat, id: nat | Lists(t, i, j, id) && Lists(t, x, y, id) :: i == x && j == y
  }

  ghost predicate Listed(t: Tables, id: nat) {
    exists i: nat, j: nat :: Lists(t, i, j, id)
  }

  predicate StateAdmitted(outcome: nat, explanation: nat, explanations: nat) {
    1 <= outcome <= 4 && explanation <= explanations && (explanation == 0 ==> outcome == 1)
  }

  predicate ClauseAdmitted(t: Tables, instructions: nat, explanations: nat, n: nat, k: nat)
    requires TablesAligned(t) && k < |t.clauseSymbols|
  {
    && 1 <= t.clauseSymbols[k] <= n && 1 <= t.assertionRoots[k] <= instructions
    && t.remediationStarts[k] + t.remediationCounts[k] <= |t.remediationIDs|
    && t.evidenceKindStarts[k] + t.evidenceKindCounts[k] <= |t.evidenceKinds|
    && forall s :: 8 * k <= s < 8 * k + 8 ==> StateAdmitted(t.outcomeIDs[s], t.explanationIDs[s], explanations)
  }

  predicate RequirementAdmitted(t: Tables, instructions: nat, n: nat, i: nat)
    requires TablesAligned(t) && i < |t.requirementSymbols|
  {
    && 1 <= t.requirementSymbols[i] <= n && 1 <= t.applicabilityRoots[i] <= instructions
    && t.clauseStarts[i] + t.clauseCounts[i] <= |t.clauseIDs|
  }

  ghost predicate TablesAdmitted(t: Tables, instructions: nat, kinds: nat, explanations: nat, remediations: nat, n: nat) {
    var r, c := |t.requirementSymbols|, |t.clauseSymbols|;
    && r >= 1 && c >= 1
    && |t.applicabilityRoots| == |t.clauseStarts| == |t.clauseCounts| == r
    && |t.assertionRoots| == |t.remediationStarts| == |t.remediationCounts| == c
    && |t.evidenceKindStarts| == |t.evidenceKindCounts| == c
    && |t.outcomeIDs| == |t.explanationIDs| == 8 * c
    && (forall i :: 0 <= i < r ==> RequirementAdmitted(t, instructions, n, i))
    && (forall k :: 0 <= k < c ==> ClauseAdmitted(t, instructions, explanations, n, k))
    && OneOwnerEach(t) && InScope(t.remediationIDs, remediations) && InScope(t.evidenceKinds, kinds)
  }

  lemma {:induction false} StatesMean(t: Tables, explanations: nat, k: nat)
    requires TablesAligned(t) && k < |t.clauseSymbols|
    ensures 8 * k + 8 <= |t.outcomeIDs| == |t.explanationIDs|
    ensures (forall reason :: 1 <= reason <= REASON_COUNT ==> StateEntryValid(t, explanations, k, reason))
       <==> forall s :: 8 * k <= s < 8 * k + 8 ==> StateAdmitted(t.outcomeIDs[s], t.explanationIDs[s], explanations)
  {
    if forall reason :: 1 <= reason <= REASON_COUNT ==> StateEntryValid(t, explanations, k, reason) {
      forall s | 8 * k <= s < 8 * k + 8
        ensures StateAdmitted(t.outcomeIDs[s], t.explanationIDs[s], explanations)
      {
        assert StateEntryValid(t, explanations, k, s - 8 * k + 1);
      }
    }
    if forall s :: 8 * k <= s < 8 * k + 8 ==> StateAdmitted(t.outcomeIDs[s], t.explanationIDs[s], explanations) {
      forall reason | 1 <= reason <= REASON_COUNT
        ensures StateEntryValid(t, explanations, k, reason)
      {
        assert StateAdmitted(t.outcomeIDs[8 * k + reason - 1], t.explanationIDs[8 * k + reason - 1], explanations);
      }
    }
  }

  lemma {:induction false} ClauseMeansAdmitted(t: Tables, instructions: nat, explanations: nat, n: nat, k: nat)
    requires TablesAligned(t) && k < |t.clauseSymbols|
    ensures ClauseEntryValid(t, instructions, explanations, n, k) <==> ClauseAdmitted(t, instructions, explanations, n, k)
  {
    hide StateEntryValid, StateAdmitted;
    StatesMean(t, explanations, k);
  }

  // ----- owners

  lemma {:induction false} OwnedAt(t: Tables, k: nat, m: nat) returns (i: nat, j: nat)
    requires TablesAligned(t) && k <= |t.requirementSymbols| && m < |Owned(t, k)|
    ensures i < k && m == |Owned(t, i)| + j && Lists(t, i, j, Owned(t, k)[m]) && j < |ClauseRange(t, i)|
  {
    hide ClauseRange, TablesAligned, Owned;
    OwnedStep(t, k);
    if m < |Owned(t, k - 1)| {
      i, j := OwnedAt(t, k - 1, m);
    } else {
      i, j := k - 1, m - |Owned(t, k - 1)|;
      RangeLists(t, i, j);
    }
  }

  lemma {:induction false} OwnedStep(t: Tables, k: nat)
    requires TablesAligned(t) && k <= |t.requirementSymbols|
    ensures k == 0 ==> Owned(t, k) == []
    ensures k > 0 ==> Owned(t, k) == Owned(t, k - 1) + ClauseRange(t, k - 1)
  {}

  lemma {:induction false} RangeLists(t: Tables, i: nat, j: nat)
    requires TablesAligned(t) && i < |t.requirementSymbols| && j < |ClauseRange(t, i)|
    ensures Lists(t, i, j, ClauseRange(t, i)[j])
  {}

  lemma {:induction false} ListedRange(t: Tables, i: nat, j: nat, id: nat)
    requires TablesAligned(t) && Lists(t, i, j, id)
    ensures i < |t.requirementSymbols|
    ensures t.clauseStarts[i] + t.clauseCounts[i] <= |t.clauseIDs| ==> j < |ClauseRange(t, i)| && ClauseRange(t, i)[j] == id
  {}

  lemma {:induction false} OwnedPlace(t: Tables, k: nat, i: nat, j: nat, id: nat)
    requires TablesAligned(t) && i < k <= |t.requirementSymbols| && Lists(t, i, j, id)
    requires t.clauseStarts[i] + t.clauseCounts[i] <= |t.clauseIDs|
    ensures |Owned(t, i)| + j < |Owned(t, i + 1)| <= |Owned(t, k)| && Owned(t, k)[|Owned(t, i)| + j] == id
  {
    hide ClauseRange, Owned, Lists;
    ListedRange(t, i, j, id);
    OwnedStep(t, k);
    if i < k - 1 { OwnedPlace(t, k - 1, i, j, id); }
  }

  lemma {:induction false} OwnersMean(t: Tables)
    requires TablesAligned(t)
    requires forall i :: 0 <= i < |t.requirementSymbols| ==> t.clauseStarts[i] + t.clauseCounts[i] <= |t.clauseIDs|
    ensures var all, count := Owned(t, |t.requirementSymbols|), |t.clauseSymbols|;
      AllValidIDs(all, count) && Distinct(all) && (forall id :: 1 <= id <= count ==> id in all) <==> OneOwnerEach(t)
  {
    hide Owned, ClauseRange, Lists;
    var r, count := |t.requirementSymbols|, |t.clauseSymbols|;
    var all := Owned(t, r);
    forall i: nat, j: nat, id: nat | Lists(t, i, j, id)
      ensures i < r && |Owned(t, i)| + j < |all| && all[|Owned(t, i)| + j] == id
    {
      ListedRange(t, i, j, id);
      OwnedPlace(t, r, i, j, id);
    }
    forall m | 0 <= m < |all|
      ensures Listed(t, all[m])
    {
      var i, j := OwnedAt(t, r, m);
    }
    assert forall id: nat :: Listed(t, id) <==> id in all;
    if AllValidIDs(all, count) && Distinct(all) && (forall id :: 1 <= id <= count ==> id in all) {
      forall i: nat, j: nat, x: nat, y: nat, id: nat | Lists(t, i, j, id) && Lists(t, x, y, id)
        ensures i == x && j == y
      {
        assert |Owned(t, i)| + j == |Owned(t, x)| + y;
        OwnedPlaces(t, r, i, j, x, y, id);
      }
    }
    if OneOwnerEach(t) {
      assert forall m :: 0 <= m < |all| ==> all[m] in all;
      forall m, l | 0 <= m < l < |all|
        ensures all[m] != all[l]
      {
        var i, j := OwnedAt(t, r, m);
        var x, y := OwnedAt(t, r, l);
        assert i != x || j != y;
      }
    }
  }

  lemma {:induction false} OwnedPlaces(t: Tables, r: nat, i: nat, j: nat, x: nat, y: nat, id: nat)
    requires TablesAligned(t) && r == |t.requirementSymbols| && i < r && x < r
    requires Lists(t, i, j, id) && Lists(t, x, y, id) && |Owned(t, i)| + j == |Owned(t, x)| + y
    requires forall m :: 0 <= m < r ==> t.clauseStarts[m] + t.clauseCounts[m] <= |t.clauseIDs|
    ensures i == x && j == y
  {
    hide Owned, ClauseRange, Lists;
    if i < x { OwnedPlace(t, i + 1, i, j, id); OwnedMonotone(t, i + 1, x); }
    if x < i { OwnedPlace(t, x + 1, x, y, id); OwnedMonotone(t, x + 1, i); }
  }

  lemma {:induction false} OwnedMonotone(t: Tables, j: nat, k: nat)
    requires TablesAligned(t) && j <= k <= |t.requirementSymbols|
    ensures |Owned(t, j)| <= |Owned(t, k)|
  {
    hide ClauseRange;
    if j < k { OwnedMonotone(t, j, k - 1); }
  }

  lemma {:induction false} TablesMean(t: Tables, instructions: nat, kinds: nat, explanations: nat, remediations: nat,
                                      n: nat)
    ensures TablesValid(t, instructions, kinds, explanations, remediations, n)
       <==> TablesAdmitted(t, instructions, kinds, explanations, remediations, n)
  {
    hide ClauseEntryValid, ClauseAdmitted, OneOwnerEach, InScope, Owned, AllValidIDs, Distinct;
    ScopeMeans(t.remediationIDs, remediations);
    ScopeMeans(t.evidenceKinds, kinds);
    if TablesAligned(t) {
      forall k | 0 <= k < |t.clauseSymbols|
        ensures ClauseEntryValid(t, instructions, explanations, n, k)
           <==> ClauseAdmitted(t, instructions, explanations, n, k)
      {
        ClauseMeansAdmitted(t, instructions, explanations, n, k);
      }
      forall i | 0 <= i < |t.requirementSymbols|
        ensures RequirementEntryValid(t, instructions, n, i) <==> RequirementAdmitted(t, instructions, n, i)
      {}
      if forall i :: 0 <= i < |t.requirementSymbols| ==> RequirementAdmitted(t, instructions, n, i) {
        forall i | 0 <= i < |t.requirementSymbols|
          ensures t.clauseStarts[i] + t.clauseCounts[i] <= |t.clauseIDs|
        {
          assert RequirementAdmitted(t, instructions, n, i);
        }
        OwnersMean(t);
      }
    }
  }

  // ----- catalogues

  predicate RemediationAdmitted(r: RemediationSpec, kinds: nat, explanations: nat, n: nat) {
    && r.description <= explanations
    && ((exists kind | 1 <= kind <= kinds :: r == RemediationSpec(1, kind, r.description, 0, 0))
        || exists field, value | 1 <= field <= 7 && 1 <= value <= n ::
             r == RemediationSpec(2, 0, r.description, field, value))
  }

  /** Four entries in which all four ranks occur. */
  predicate Ranks(precedence: seq<nat>) {
    |precedence| == 4 && 1 in precedence && 2 in precedence && 3 in precedence && 4 in precedence
  }

  predicate CataloguesAdmitted(c: Catalogues, kinds: nat, n: nat) {
    && InScope(c.explanationSymbols, n) && Ranks(c.precedence)
    && forall r :: r in c.remediations ==> RemediationAdmitted(r, kinds, |c.explanationSymbols|, n)
  }

  lemma {:induction false} RanksMean(precedence: seq<nat>)
    ensures PrecedenceValid(precedence) <==> Ranks(precedence)
  {
    if |precedence| == 4 {
      FourOf(precedence, 1);
      FourOf(precedence, 2);
      FourOf(precedence, 3);
      FourOf(precedence, 4);
    }
  }

  lemma {:induction false} FourOf(xs: seq<nat>, x: nat)
    requires |xs| == 4
    ensures x in xs <==> x == xs[0] || x == xs[1] || x == xs[2] || x == xs[3]
  {}

  lemma {:induction false} CataloguesMean(c: Catalogues, kinds: nat, n: nat)
    ensures CataloguesValid(c, kinds, n) <==> CataloguesAdmitted(c, kinds, n)
  {
    hide AllValidIDs, InScope, PrecedenceValid, Ranks, RemediationSpecValid, RemediationAdmitted;
    ScopeMeans(c.explanationSymbols, n);
    RanksMean(c.precedence);
    forall r | r in c.remediations
      ensures RemediationSpecValid(r, kinds, |c.explanationSymbols|, n)
         <==> RemediationAdmitted(r, kinds, |c.explanationSymbols|, n)
    {
      PayloadMeans(r, kinds, |c.explanationSymbols|, n);
    }
  }

  lemma {:induction false} PayloadMeans(r: RemediationSpec, kinds: nat, explanations: nat, n: nat)
    ensures RemediationSpecValid(r, kinds, explanations, n) <==> RemediationAdmitted(r, kinds, explanations, n)
  {}

  // ----- programs

  ghost predicate Admitted(p: Program) {
    var n, kinds, explanations := |p.symbols.starts|, |p.code.evidenceKindSymbols|, |p.catalogues.explanationSymbols|;
    && !Blank(p.name) && !Blank(p.version) && SomeTexts(p.symbols) && CodeAdmitted(p.code, n)
    && TablesAdmitted(p.tables, |p.code.opcodes|, kinds, explanations, |p.catalogues.remediations|, n)
    && CataloguesAdmitted(p.catalogues, kinds, n)
  }

  /** The gate's verdict, told by what the columns encode. */
  lemma {:induction false} AdmittedExactly(p: Program)
    ensures ProgramValid(p) <==> Admitted(p)
  {
    hide Trim, Blank, SymbolsValid, SomeTexts, CodeValid, CodeAdmitted, TablesValid, TablesAdmitted, CataloguesValid,
         CataloguesAdmitted;
    var n, kinds, explanations := |p.symbols.starts|, |p.code.evidenceKindSymbols|, |p.catalogues.explanationSymbols|;
    TrimMeans(p.name);
    TrimMeans(p.version);
    SymbolsMean(p.symbols);
    CodeMeans(p.code, n);
    TablesMean(p.tables, |p.code.opcodes|, kinds, explanations, |p.catalogues.remediations|, n);
    CataloguesMean(p.catalogues, kinds, n);
  }
}
