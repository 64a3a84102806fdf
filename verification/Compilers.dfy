/** The policy compiler (internal/compile/compiler.go): postorder lowering that appends to columns
    and to the symbol, kind and explanation maps. */
module Compilers {
  import opened Schema
  import opened Ast
  import opened Findings
  import opened Reference
  import opened Programs
  import opened Lowering
  import opened Coding
  import opened Interners
  import opened Widths
  import opened Emission
  import opened Growth

  const EMPTY_CODE := Code([], [], [], [], [], [], [], [], [], [], [], [])

  const EMPTY_TABLES := Tables([], [], [], [], [], [], [], [], [], [], [], [], [], [], [])

  class Compiler {
    var code: Code
    const symbols: Interner
    var evidenceKinds: map<string, nat>
    var explanationSymbols: seq<nat>
    var explanationIDs: map<string, nat>
    var remediations: seq<RemediationSpec>
    var tables: Tables
    /** The texts that may become explanations. */
    ghost const allowed: set<string>

    constructor (ghost texts: set<string>)
      ensures CodeOK() && fresh(symbols) && allowed == texts
      ensures code == EMPTY_CODE && symbols.values == [] && explanationSymbols == []
      ensures remediations == [] && tables == EMPTY_TABLES
    {
      code := EMPTY_CODE;
      evidenceKinds := map[];
      explanationSymbols, explanationIDs := [], map[];
      remediations := [];
      tables := EMPTY_TABLES;
      allowed := texts;
      symbols := new Interner();
    }

    /** What every step of the lowering keeps. */
    ghost predicate CodeOK()
      reads this`code, this`evidenceKinds, this`explanationSymbols, this`explanationIDs, symbols
    {
      && symbols.Valid()
      && ExplanationsTracked(explanationIDs, explanationSymbols, symbols.values, allowed)
      && CodeSound(code, |symbols.values|)
      && KindsTracked(evidenceKinds, code, symbols.values)
    }

    method Intern(text: string) returns (id: nat)
      requires CodeOK() && TotalLength(symbols.values) + |text| <= MAX_UINT32
      modifies symbols
      ensures CodeOK() && old(symbols.values) <= symbols.values
      ensures Names(symbols.values, id, text)
      ensures TotalLength(symbols.values) <= TotalLength(old(symbols.values)) + |text|
    {
      hide ExplanationsTracked, CodeSound, KindsTracked, Interned, TotalLength;
      id := symbols.Intern(text);
      SoundGrows(code, |old(symbols.values)|, code, |symbols.values|) by { SameGrows(code); SoundAligned(code,
          |old(symbols.values)|); }
      KindsTrackedGrow(evidenceKinds, code, old(symbols.values), symbols.values);
      ExplanationsTrackedGrow(explanationIDs, explanationSymbols, old(symbols.values), allowed, symbols.values);
    }

    /** evidenceKind: the id of a kind, new only for a kind not seen before. */
    method EvidenceKind(name: string) returns (id: nat)
      requires CodeOK() && ValidEvidenceKind(name)
      requires TotalLength(symbols.values) + |name| <= MAX_UINT32
      modifies this`code, this`evidenceKinds, symbols
      ensures CodeOK() && old(symbols.values) <= symbols.values
      ensures KindNames(code, symbols.values, id, name)
      ensures old(code).evidenceKindSymbols <= code.evidenceKindSymbols
      ensures code == old(code).(evidenceKindSymbols := code.evidenceKindSymbols)
      ensures TotalLength(symbols.values) <= TotalLength(old(symbols.values)) + |name|
    {
      hide ExplanationsTracked, CodeSound, ValidEvidenceKind, TotalLength, U16, KindsTracked, KindNames, Interned;
      if name in evidenceKinds {
        TrackedKinds(evidenceKinds, code, symbols.values);
        return evidenceKinds[name];
      }
      KindCount(evidenceKinds, code, symbols.values);
      KnownKind(name);
      id := U16(|code.evidenceKindSymbols| + 1);
      NarrowingLossless(|code.evidenceKindSymbols| + 1);
      var symbol := Intern(name);
      KindsTrackedAdd(evidenceKinds, code, symbols.values, name, symbol);
      ghost var was := code;
      evidenceKinds := evidenceKinds[name := id];
      code := code.(evidenceKindSymbols := code.evidenceKindSymbols + [symbol]);
      TrackedName(evidenceKinds, code, symbols.values, name);
      SoundAligned(was, |symbols.values|);
      SoundGrows(was, |symbols.values|, code, |symbols.values|);
    }

    // ----- expressions

    /** Counters and text have room for e. */
    ghost predicate Room(e: Expression)
      reads this`code, symbols
    {
      && |code.opcodes| + NodeCount(e) <= MAX_EXPRESSION_NODES
      && TotalLength(symbols.values) + ExpressionText(e) <= MAX_UINT32
      && |code.setValues| + ExpressionText(e) <= MAX_UINT32
      && SetsFit(e)
    }

    /** compileExpression: children first, then the node itself; its id is the last instruction. */
    method CompileExpression(e: Expression, list: KindList, ghost depth: nat, ghost allowEvidence: bool,
                             ghost acc: seq<string>)
      returns (id: nat, list': KindList)
      requires CodeOK() && Room(e)
      requires ExpressionValid(e, depth, allowEvidence) && (allowEvidence ==> list.List?)
      requires Lists(code, symbols.values, list, acc)
      modifies this`code, this`evidenceKinds, symbols
      ensures CodeOK() && Grows(old(code), code) && old(symbols.values) <= symbols.values
      ensures Codes(code, symbols.values, id, e) && id == |code.opcodes|
      ensures |code.opcodes| == |old(code).opcodes| + NodeCount(e)
      ensures |code.operands| == |old(code).operands| + NodeCount(e) - 1
      ensures TotalLength(symbols.values) <= TotalLength(old(symbols.values)) + ExpressionText(e)
      ensures |code.setValues| <= |old(code).setValues| + ExpressionText(e)
      ensures list'.List? == list.List? && Lists(code, symbols.values, list', AddKinds(acc, e))
      decreases e, 2
    {
      hide CodeOK, Room, Codes, Lists, AddKinds, Grows, NodeCount, TotalLength, ExpressionText, LookupField,
           ValidFieldValue, Trim, SetValid;
      match e.op {
        case All => id, list' := CompileAll(e, list, depth, allowEvidence, acc);
        case Equal => id := CompileEqual(e, list, depth, allowEvidence, acc); list' := list;
        case In => id := CompileIn(e, list, depth, allowEvidence, acc); list' := list;
        case EvidenceMatches => id, list' := CompileEvidence(e, list, depth, allowEvidence, acc);
        case UnknownOperator(_) => assert false;
      }
    }

    method CompileEqual(e: Expression, ghost list: KindList, ghost depth: nat, ghost allowEvidence: bool,
                        ghost acc: seq<string>)
      returns (id: nat)
      requires CodeOK() && Room(e) && e.op.Equal? && ExpressionValid(e, depth, allowEvidence)
      requires Lists(code, symbols.values, list, acc)
      modifies this`code, symbols
      ensures CodeOK() && Grows(old(code), code) && old(symbols.values) <= symbols.values
      ensures Codes(code, symbols.values, id, e) && id == |code.opcodes|
      ensures |code.opcodes| == |old(code).opcodes| + NodeCount(e)
      ensures |code.operands| == |old(code).operands| + NodeCount(e) - 1
      ensures TotalLength(symbols.values) <= TotalLength(old(symbols.values)) + ExpressionText(e)
      ensures code.setValues == old(code).setValues
      ensures Lists(code, symbols.values, list, AddKinds(acc, e))
    {
      hide ExplanationsTracked, CodeSound, KindsTracked, Interned, TotalLength, Trim, LookupField,
           ValidFieldValue, KindNames, U32, U16, SetsFit, Emit, Codes, Grows, Lists;
      var value := Intern(e.value);
      ghost var was, n := code, |symbols.values|;
      SoundAligned(was, n);
      code := Emit(code, OP_EQUAL, LookupField(e.field), value, [], U32(|code.setValues|), 0, 0);
      id := U32(|code.opcodes|);
      LeafSizes(e);
      NonEmptyValue(e.value);
      EmitEqual(was, symbols.values, code, value, e);
      KindsTrackedSame(evidenceKinds, was, code, symbols.values);
      ListsGrow(was, old(symbols.values), code, symbols.values, list, acc);
    }

    /** Append the symbols of an `in` set. */
    method InternSet(values: seq<string>)
      requires CodeOK() && TotalLength(symbols.values) + TotalLength(values) <= MAX_UINT32
      requires forall j :: 0 <= j < |values| ==> values[j] != ""
      modifies this`code, symbols
      ensures CodeOK() && old(symbols.values) <= symbols.values
      ensures code == old(code).(setValues := code.setValues)
      ensures old(code).setValues <= code.setValues && |code.setValues| == |old(code).setValues| + |values|
      ensures forall j :: 0 <= j < |values| ==> Names(symbols.values, code.setValues[|old(code).setValues| + j], values[j])
      ensures TotalLength(symbols.values) <= TotalLength(old(symbols.values)) + TotalLength(values)
    {
      hide ExplanationsTracked, CodeSound, KindsTracked, Interned, TotalLength, Names;
      TotalLengthOne("");
      ghost var start := |code.setValues|;
      for i := 0 to |values|
        invariant CodeOK() && old(symbols.values) <= symbols.values
        invariant code == old(code).(setValues := code.setValues)
        invariant old(code).setValues <= code.setValues && |code.setValues| == start + i
        invariant forall j :: 0 <= j < i ==> Names(symbols.values, code.setValues[start + j], values[j])
        invariant TotalLength(symbols.values) <= TotalLength(old(symbols.values)) + TotalLength(values[..i])
      {
        TotalLengthStep(values, i);
        TotalLengthPrefix(values, i + 1);
        ghost var atSymbols := symbols.values;
        var id := Intern(values[i]);
        NamesKept(atSymbols, symbols.values);
        ghost var was := code;
        code := code.(setValues := code.setValues + [id]);
        SoundAligned(was, |symbols.values|);
        SoundGrows(was, |symbols.values|, code, |symbols.values|);
        KindsTrackedSame(evidenceKinds, was, code, symbols.values);
      }
      assert values[..|values|] == values;
    }

    method CompileIn(e: Expression, ghost list: KindList, ghost depth: nat, ghost allowEvidence: bool,
                     ghost acc: seq<string>)
      returns (id: nat)
      requires CodeOK() && Room(e) && e.op.In? && ExpressionValid(e, depth, allowEvidence)
      requires Lists(code, symbols.values, list, acc)
      modifies this`code, symbols
      ensures CodeOK() && Grows(old(code), code) && old(symbols.values) <= symbols.values
      ensures Codes(code, symbols.values, id, e) && id == |code.opcodes|
      ensures |code.opcodes| == |old(code).opcodes| + NodeCount(e)
      ensures |code.operands| == |old(code).operands| + NodeCount(e) - 1
      ensures TotalLength(symbols.values) <= TotalLength(old(symbols.values)) + ExpressionText(e)
      ensures |code.setValues| <= |old(code).setValues| + ExpressionText(e)
      ensures Lists(code, symbols.values, list, AddKinds(acc, e))
    {
      hide ExplanationsTracked, CodeSound, KindsTracked, Interned, TotalLength, Trim, LookupField,
           ValidFieldValue, KindNames, U32, U16, Emit, Codes, Grows, Lists, SetsFit, Names, SetValid;
      SetTexts(e, allowEvidence);
      var setStart, setCount := U32(|code.setValues|), U16(|e.values|);
      NarrowingLossless(|code.setValues|);
      InternSet(e.values);
      ghost var was, n := code, |symbols.values|;
      SoundAligned(was, n);
      code := Emit(code, OP_IN, LookupField(e.field), 0, [], setStart, setCount, 0);
      id := U32(|code.opcodes|);
      LeafSizes(e);
      EmitIn(was, symbols.values, code, setStart, e);
      SetGrows(old(code), was, code);
      KindsTrackedSame(evidenceKinds, was, code, symbols.values);
      ListsGrow(old(code), old(symbols.values), code, symbols.values, list, acc);
    }

    /** The eight qualifier symbols of an evidence predicate. */
    method CompileSpec(e: EvidencePredicate, kind: nat) returns (s: EvidenceSpec)
      requires CodeOK() && KindNames(code, symbols.values, kind, e.kind)
      requires TotalLength(symbols.values) + EvidenceText(e) - |e.kind| <= MAX_UINT32
      modifies symbols
      ensures CodeOK() && old(symbols.values) <= symbols.values
      ensures SpecCodes(code, symbols.values, s, e)
      ensures SpecValid(s, |code.evidenceKindSymbols|, |symbols.values|)
      ensures TotalLength(symbols.values) <= TotalLength(old(symbols.values)) + EvidenceText(e) - |e.kind|
    {
      hide CodeOK, Interned, TotalLength, Names, NamedAll;
      NamedNone(symbols.values);
      ghost var was := symbols.values;
      ghost var ids: seq<nat>, texts: seq<string> := [], [];
      var status, timing := InternPair(e.status, e.timing, ids, texts);
      ids, texts := ids + [status, timing], texts + [e.status, e.timing];
      var reviewer, timestampState := InternPair(e.reviewer, e.timestampState, ids, texts);
      ids, texts := ids + [reviewer, timestampState], texts + [e.reviewer, e.timestampState];
      var subject, attestationState := InternPair(e.subject, e.attestationState, ids, texts);
      ids, texts := ids + [subject, attestationState], texts + [e.subject, e.attestationState];
      var scope, adjustmentType := InternPair(e.scope, e.adjustmentType, ids, texts);
      ids, texts := ids + [scope, adjustmentType], texts + [e.scope, e.adjustmentType];
      s := EvidenceSpec(kind, status, timing, reviewer, timestampState, subject, attestationState, scope, adjustmentType);
      assert ids == SpecSymbols(s) && texts == SpecTexts(e);
      SpecNamed(code, was, symbols.values, s, e);
    }

    /** Intern two more texts beside those already named. */
    method InternPair(one: string, two: string, ghost ids: seq<nat>, ghost texts: seq<string>) returns (a: nat, b: nat)
      requires CodeOK() && TotalLength(symbols.values) + |one| + |two| <= MAX_UINT32
      requires NamedAll(symbols.values, ids, texts)
      modifies symbols
      ensures CodeOK() && old(symbols.values) <= symbols.values
      ensures NamedAll(symbols.values, ids + [a, b], texts + [one, two])
      ensures TotalLength(symbols.values) <= TotalLength(old(symbols.values)) + |one| + |two|
    {
      hide CodeOK, TotalLength, NamedAll;
      a := InternNext(one, ids, texts);
      b := InternNext(two, ids + [a], texts + [one]);
      assert ids + [a] + [b] == ids + [a, b] && texts + [one] + [two] == texts + [one, two];
    }

    /** Intern one more text beside those already named. */
    method InternNext(text: string, ghost ids: seq<nat>, ghost texts: seq<string>) returns (id: nat)
      requires CodeOK() && TotalLength(symbols.values) + |text| <= MAX_UINT32
      requires NamedAll(symbols.values, ids, texts)
      modifies symbols
      ensures CodeOK() && old(symbols.values) <= symbols.values
      ensures NamedAll(symbols.values, ids + [id], texts + [text])
      ensures TotalLength(symbols.values) <= TotalLength(old(symbols.values)) + |text|
    {
      hide CodeOK, TotalLength;
      id := Intern(text);
    }

    method CompileEvidence(e: Expression, list: KindList, ghost depth: nat, ghost allowEvidence: bool,
                           ghost acc: seq<string>)
      returns (id: nat, list': KindList)
      requires CodeOK() && Room(e) && e.op.EvidenceMatches?
      requires ExpressionValid(e, depth, allowEvidence) && (allowEvidence ==> list.List?)
      requires Lists(code, symbols.values, list, acc)
      modifies this`code, this`evidenceKinds, symbols
      ensures CodeOK() && Grows(old(code), code) && old(symbols.values) <= symbols.values
      ensures Codes(code, symbols.values, id, e) && id == |code.opcodes|
      ensures |code.opcodes| == |old(code).opcodes| + NodeCount(e)
      ensures |code.operands| == |old(code).operands| + NodeCount(e) - 1
      ensures TotalLength(symbols.values) <= TotalLength(old(symbols.values)) + ExpressionText(e)
      ensures code.setValues == old(code).setValues
      ensures list'.List? == list.List? && Lists(code, symbols.values, list', AddKinds(acc, e))
    {
      hide ExplanationsTracked, CodeSound, KindsTracked, Interned, TotalLength, Trim, ValidEvidenceKind,
           KindNames, U32, U16, SpecValid, Names, Codes, Lists, SetsFit, SpecCodes, KindsCoded;
      var kind := EvidenceKind(e.evidence.kind);
      ListsGrow(old(code), old(symbols.values), code, symbols.values, list, acc);
      TrackedKinds(evidenceKinds, code, symbols.values);
      list' := AppendUnique(list, kind, code, symbols.values, acc, e.evidence.kind);
      ghost var withKind, atKind := code, symbols.values;
      var spec := CompileSpec(e.evidence, kind);
      var index := U16(|code.evidenceSpecs| + 1);
      code := Emit(code.(evidenceSpecs := code.evidenceSpecs + [spec]), OP_EVIDENCE, 0, 0, [], U32(|code.setValues|),
                   0, index);
      id := U32(|code.opcodes|);
      LeafSizes(e);
      EmitEvidence(withKind, symbols.values, code, spec, index, e);
      KindsTrackedSame(evidenceKinds, withKind, code, symbols.values);
      ListsGrow(withKind, atKind, code, symbols.values, list', AddKinds(acc, e));
      ListedKinds(acc, e, allowEvidence);
    }

    /** The operand loop of an `all`. */
    method CompileChildren(e: Expression, list: KindList, ghost depth: nat, ghost allowEvidence: bool,
                           ghost acc: seq<string>)
      returns (operands: seq<nat>, list': KindList)
      requires CodeOK() && Room(e) && e.op.All?
      requires ExpressionValid(e, depth, allowEvidence) && (allowEvidence ==> list.List?)
      requires Lists(code, symbols.values, list, acc)
      modifies this`code, this`evidenceKinds, symbols
      ensures CodeOK() && Grows(old(code), code) && old(symbols.values) <= symbols.values
      ensures |operands| == |e.children|
      ensures forall m :: 0 <= m < |operands| ==> Codes(code, symbols.values, operands[m], e.children[m])
      ensures forall m :: 0 <= m < |operands| ==> 1 <= operands[m] <= |code.opcodes|
      ensures |code.opcodes| == |old(code).opcodes| + NodesUpTo(e, |e.children|)
      ensures |code.operands| == |old(code).operands| + NodesUpTo(e, |e.children|) - |e.children|
      ensures TotalLength(symbols.values) <= TotalLength(old(symbols.values)) + ChildrenText(e, |e.children|)
      ensures |code.setValues| <= |old(code).setValues| + ChildrenText(e, |e.children|)
      ensures list'.List? == list.List? && Lists(code, symbols.values, list', AddKindsUpTo(acc, e, |e.children|))
      decreases e, 0
    {
      hide ExplanationsTracked, CodeSound, KindsTracked, Interned, TotalLength, NodeValid, Codes, Lists, U32,
           U16, SetsFit, Emit, Grows, NodeCount, ExpressionText, AddKinds, Interner.Valid, KindNames;
      SameGrows(code);
      SoundAligned(code, |symbols.values|);
      AllSizes(e);
      operands := [];
      list' := list;
      for i := 0 to |e.children|
        invariant CodeOK() && Grows(old(code), code) && old(symbols.values) <= symbols.values
        invariant |operands| == i
        invariant forall m :: 0 <= m < i ==> Codes(code, symbols.values, operands[m], e.children[m])
        invariant forall m :: 0 <= m < i ==> 1 <= operands[m] <= |code.opcodes|
        invariant |code.opcodes| == |old(code).opcodes| + NodesUpTo(e, i)
        invariant |code.operands| == |old(code).operands| + NodesUpTo(e, i) - i
        invariant TotalLength(symbols.values) <= TotalLength(old(symbols.values)) + ChildrenText(e, i)
        invariant |code.setValues| <= |old(code).setValues| + ChildrenText(e, i)
        invariant list'.List? == list.List? && Lists(code, symbols.values, list', AddKindsUpTo(acc, e, i))
      {
        NodesUpToGrow(e, i + 1, |e.children|);
        ChildrenTextGrow(e, i + 1, |e.children|);
        ChildFits(e, i);
        ghost var was, atSymbols := code, symbols.values;
        var child;
        child, list' := CompileExpression(e.children[i], list', depth + 1, allowEvidence, AddKindsUpTo(acc, e, i));
        GrowsTransitive(old(code), was, code);
        forall m | 0 <= m < i
          ensures Codes(code, symbols.values, operands[m], e.children[m])
        {
          SoundAligned(code, |symbols.values|);
          CodesGrow(was, atSymbols, code, symbols.values, operands[m], e.children[m]);
        }
        operands := operands + [child];
      }
    }

    method CompileAll(e: Expression, list: KindList, ghost depth: nat, ghost allowEvidence: bool, ghost acc: seq<string>)
      returns (id: nat, list': KindList)
      requires CodeOK() && Room(e) && e.op.All?
      requires ExpressionValid(e, depth, allowEvidence) && (allowEvidence ==> list.List?)
      requires Lists(code, symbols.values, list, acc)
      modifies this`code, this`evidenceKinds, symbols
      ensures CodeOK() && Grows(old(code), code) && old(symbols.values) <= symbols.values
      ensures Codes(code, symbols.values, id, e) && id == |code.opcodes|
      ensures |code.opcodes| == |old(code).opcodes| + NodeCount(e)
      ensures |code.operands| == |old(code).operands| + NodeCount(e) - 1
      ensures TotalLength(symbols.values) <= TotalLength(old(symbols.values)) + ExpressionText(e)
      ensures |code.setValues| <= |old(code).setValues| + ExpressionText(e)
      ensures list'.List? == list.List? && Lists(code, symbols.values, list', AddKinds(acc, e))
      decreases e, 1
    {
      hide ExplanationsTracked, CodeSound, KindsTracked, Interned, TotalLength, NodeValid, Codes, Lists, U32,
           U16, SetsFit, Emit, Grows;
      SoundAligned(code, |symbols.values|);
      var operands;
      operands, list' := CompileChildren(e, list, depth, allowEvidence, acc);
      ghost var was := code;
      SoundAligned(code, |symbols.values|);
      code := Emit(code, OP_ALL, 0, 0, operands, U32(|code.setValues|), 0, 0);
      id := U32(|code.opcodes|);
      NodesUpToGrow(e, 0, |e.children|);
      AllHasChildren(e, allowEvidence);
      EmitAll(was, symbols.values, code, operands, e);
      GrowsTransitive(old(code), was, code);
      KindsTrackedSame(evidenceKinds, was, code, symbols.values);
      ListsGrow(was, symbols.values, code, symbols.values, list', AddKinds(acc, e));
    }

    // ----- explanations and remediations

    /** Everything published so far stays coded: code, explanations and symbols have only grown. */
    twostate predicate Grown()
      reads this`code, this`explanationSymbols, symbols
    {
      ContextGrows(old(code), old(explanationSymbols), old(symbols.values), code, explanationSymbols, symbols.values)
    }

    /** explanationID: zero for the empty text, else the id of the text, new only when unseen. */
    method ExplanationID(text: string) returns (id: nat)
      requires CodeOK() && |allowed| <= MAX_UINT16 && (text != "" ==> text in allowed)
      requires TotalLength(symbols.values) + |text| <= MAX_UINT32
      modifies this`explanationSymbols, this`explanationIDs, symbols
      ensures CodeOK() && Grown()
      ensures TextCoded(symbols.values, explanationSymbols, id, text)
      ensures TotalLength(symbols.values) <= TotalLength(old(symbols.values)) + |text|
    {
      hide ExplanationsTracked, CodeSound, KindsTracked, TotalLength, U16, Interned;
      SameGrows(code);
      SoundAligned(code, |symbols.values|);
      if text == "" { return 0; }
      if text in explanationIDs {
        TrackedText(explanationIDs, explanationSymbols, symbols.values, allowed, text);
        return explanationIDs[text];
      }
      ExplanationCount(explanationIDs, explanationSymbols, symbols.values, allowed);
      NarrowingLossless(|explanationSymbols| + 1);
      id := U16(|explanationSymbols| + 1);
      var symbol := Intern(text);
      ExplanationsTrackedAdd(explanationIDs, explanationSymbols, symbols.values, allowed, text, symbol);
      explanationIDs := explanationIDs[text := id];
      explanationSymbols := explanationSymbols + [symbol];
    }

    /** The outcome and explanation ids of the eight states of a clause. */
    method CompileStates(c: Clause) returns (outcomes: seq<nat>, explanations: seq<nat>)
      requires CodeOK() && |allowed| <= MAX_UINT16 && ClauseTexts(c) <= allowed + {""}
      requires TotalLength(symbols.values) + StatesText(c.explanations, REASON_COUNT) <= MAX_UINT32
      modifies this`explanationSymbols, this`explanationIDs, symbols
      ensures CodeOK() && Grown()
      ensures |outcomes| == REASON_COUNT && |explanations| == REASON_COUNT
      ensures forall r :: 1 <= r <= REASON_COUNT ==> outcomes[r - 1] == OutcomeID(c.resolution.At(r))
      ensures forall r :: 1 <= r <= REASON_COUNT ==> TextCoded(symbols.values, explanationSymbols,
          explanations[r - 1], c.explanations.At(r))
      ensures TotalLength(symbols.values) <= TotalLength(old(symbols.values)) + StatesText(c.explanations, REASON_COUNT)
    {
      hide CodeOK, TotalLength, TextCoded, States.At, OutcomeID, ContextGrows;
      outcomes, explanations := [], [];
      GrownStart();
      for r := 1 to REASON_COUNT + 1
        invariant CodeOK() && Grown()
        invariant |outcomes| == r - 1 && |explanations| == r - 1
        invariant forall q :: 1 <= q < r ==> outcomes[q - 1] == OutcomeID(c.resolution.At(q))
        invariant forall q :: 1 <= q < r ==> TextCoded(symbols.values, explanationSymbols, explanations[q - 1],
                                                       c.explanations.At(q))
        invariant TotalLength(symbols.values) <= TotalLength(old(symbols.values)) + StatesText(c.explanations, r - 1)
      {
        StatesTextGrow(c.explanations, r, REASON_COUNT);
        assert c.explanations.At(r) in ClauseTexts(c);
        ghost var atCode, atXs, atSyms := code, explanationSymbols, symbols.values;
        var id := ExplanationID(c.explanations.At(r));
        ContextGrowsTransitive(old(code), old(explanationSymbols), old(symbols.values), atCode, atXs, atSyms, code,
                               explanationSymbols, symbols.values);
        forall q | 1 <= q < r
          ensures TextCoded(symbols.values, explanationSymbols, explanations[q - 1], c.explanations.At(q))
        {
          GrowsContext(atCode, atXs, atSyms, code, explanationSymbols, symbols.values);
          TextCodedGrows(atSyms, atXs, symbols.values, explanationSymbols, explanations[q - 1], c.explanations.At(q));
        }
        outcomes := outcomes + [OutcomeID(c.resolution.At(r))];
        explanations := explanations + [id];
      }
    }

    twostate lemma GrownStart()
      requires code == old(code) && explanationSymbols == old(explanationSymbols) && symbols.values == old(symbols.values)
      requires CodeOK()
      ensures Grown()
    {
      SameGrows(code);
    }

    /** compileRemediation. */
    method CompileRemediation(r: Remediation) returns (id: nat)
      requires CodeOK() && |allowed| <= MAX_UINT16 && (r.description != "" ==> r.description in allowed)
      requires RemediationValid(r) && |remediations| < MAX_UINT16
      requires TotalLength(symbols.values) + RemediationText(r) <= MAX_UINT32
      modifies this`code, this`evidenceKinds, this`explanationSymbols, this`explanationIDs, this`remediations, symbols
      ensures CodeOK() && Grown() && code == old(code).(evidenceKindSymbols := code.evidenceKindSymbols)
      ensures |remediations| == |old(remediations)| + 1 == id && old(remediations) <= remediations
      ensures RemediationCoded(code, explanationSymbols, symbols.values, remediations[id - 1], r)
      ensures TotalLength(symbols.values) <= TotalLength(old(symbols.values)) + RemediationText(r)
    {
      hide ExplanationsTracked, CodeSound, KindsTracked, TotalLength, TextCoded, KindNames, Names,
           ValidEvidenceKind, LookupField, ValidFieldValue, Trim, Interned;
      var description := ExplanationID(r.description);
      ghost var atCode, atXs, atSyms := code, explanationSymbols, symbols.values;
      var spec := RemediationSpec(0, 0, description, 0, 0);
      match r.action {
        case AddEvidence =>
          var kind := EvidenceKind(r.evidenceKind);
          spec := spec.(action := REMEDIATION_ADD_EVIDENCE, evidenceKind := kind);
        case SetField =>
          var value := Intern(r.value);
          spec := spec.(action := REMEDIATION_SET_FIELD, field := LookupField(r.field), value := value);
        case UnknownAction(_) => assert false;
      }
      TextCodedGrows(atSyms, atXs, symbols.values, explanationSymbols, description, r.description);
      NarrowingLossless(|remediations| + 1);
      remediations := remediations + [spec];
      id := U16(|remediations|);
      SoundAligned(code, |symbols.values|);
    }

    function Published(): Catalogues
      reads this`remediations, this`explanationSymbols
    {
      Catalogues(remediations, explanationSymbols, COMPILED_PRECEDENCE)
    }

    /** The remediations of one clause, numbered after those published before. */
    method CompileRemediations(rs: seq<Remediation>, ghost ms: seq<Remediation>) returns (ids: seq<nat>)
      requires CodeOK() && |allowed| <= MAX_UINT16
      requires forall k :: 0 <= k < |rs| ==> RemediationValid(rs[k]) && rs[k].description in allowed + {""}
      requires RemediationsCoded(code, Published(), symbols.values, ms) && |ms| + |rs| <= MAX_UINT16
      requires TotalLength(symbols.values) + RemediationsText(rs, |rs|) <= MAX_UINT32
      modifies this`code, this`evidenceKinds, this`explanationSymbols, this`explanationIDs, this`remediations, symbols
      ensures CodeOK() && Grown() && code == old(code).(evidenceKindSymbols := code.evidenceKindSymbols)
      ensures RemediationsCoded(code, Published(), symbols.values, ms + rs)
      ensures ids == Counting(|ms|, |rs|)
      ensures TotalLength(symbols.values) <= TotalLength(old(symbols.values)) + RemediationsText(rs, |rs|)
    {
      hide CodeOK, TotalLength, ContextGrows, RemediationValid, RemediationCoded, RemediationText;
      ids := [];
      GrownStart();
      assert ms + rs[..0] == ms;
      for k := 0 to |rs|
        invariant CodeOK() && Grown() && code == old(code).(evidenceKindSymbols := code.evidenceKindSymbols)
        invariant RemediationsCoded(code, Published(), symbols.values, ms + rs[..k])
        invariant ids == Counting(|ms|, k)
        invariant TotalLength(symbols.values) <= TotalLength(old(symbols.values)) + RemediationsText(rs, k)
      {
        RemediationsTextGrow(rs, k + 1, |rs|);
        ghost var atCode, atSyms, atPublished := code, symbols.values, Published();
        var id := CompileRemediation(rs[k]);
        ContextGrowsTransitive(old(code), old(explanationSymbols), old(symbols.values), atCode,
                               atPublished.explanationSymbols, atSyms, code, explanationSymbols, symbols.values);
        AddRemediation(atCode, atPublished, atSyms, code, Published(), symbols.values, ms + rs[..k], rs[k]);
        assert ms + rs[..k + 1] == (ms + rs[..k]) + [rs[k]];
        CountingExtend(|ms|, k, 1);
        assert Counting(|ms| + k, 1) == [id];
        ids := ids + [id];
      }
      assert rs[..|rs|] == rs;
    }

    lemma {:induction false} CodeAligned()
      requires CodeOK()
      ensures Aligned(code) && symbols.Valid()
    {}

    // ----- clauses and requirements

    /** The clauses cs are published, with everything they own. */
    ghost predicate ClausesDone(cs: seq<Clause>)
      reads this, symbols
    {
      && CodeOK()
      && ClausesCoded(code, tables, explanationSymbols, symbols.values, cs)
      && ClauseColumns(tables, |cs|)
      && RemediationsCoded(code, Published(), symbols.values, Remediations(cs, |cs|))
      && tables.remediationIDs == Counting(0, |remediations|)
      && AllValidIDs(tables.evidenceKinds, |code.evidenceKindSymbols|)
      && |tables.evidenceKinds| <= |code.opcodes|
    }

    lemma {:induction false} DoneSizes(cs: seq<Clause>)
      requires ClausesDone(cs)
      ensures |remediations| == |Remediations(cs, |cs|)|
    {
      hide CodeOK, ClausesCoded, ClauseColumns;
    }

    /** The body of the clause loop of Compile. */
    method CompileClause(c: Clause, ghost cs: seq<Clause>)
      requires ClausesDone(cs) && |allowed| <= MAX_UINT16 && ClauseTexts(c) <= allowed + {""}
      requires ClauseValid(c) && SetsFit(c.assertion)
      requires |cs| < MAX_EXPRESSION_NODES && |remediations| + |c.remediations| <= MAX_UINT16
      requires |code.opcodes| + NodeCount(c.assertion) <= MAX_EXPRESSION_NODES
      requires TotalLength(symbols.values) + ClauseText(c) <= MAX_UINT32
      requires |code.setValues| + ClauseText(c) <= MAX_UINT32
      modifies this, symbols
      ensures ClausesDone(cs + [c]) && Grown()
      ensures RequirementColumnsSame(old(tables), tables) && TablesGrow(old(tables), tables)
      ensures |code.opcodes| == |old(code).opcodes| + NodeCount(c.assertion)
      ensures TotalLength(symbols.values) <= TotalLength(old(symbols.values)) + ClauseText(c)
      ensures |code.setValues| <= |old(code).setValues| + ClauseText(c)
    {
      hide CodeOK, TotalLength, ContextGrows, ClausesCoded, RemediationsCoded, ExpressionValid, ClauseTexts,
           NodeCount, ClauseText, Codes, AddKinds, Lists, TextCoded, States.At, OutcomeID, U16, U32, SetsFit,
           Trim, Names, TablesGrow, ClauseCoded, Remediations, Counting, ResolutionValid;
      ghost var ms := Remediations(cs, |cs|);
      ghost var c0, x0, s0 := code, explanationSymbols, symbols.values;
      RemediationsSized(c0, Published(), s0, ms);
      var clauseID := U16(|tables.clauseSymbols| + 1);
      NarrowingLossless(|tables.clauseSymbols| + 1);
      var symbol, root, kinds, outcomes, explanations, remediationIDs := LowerClause(c, ms);
      ghost var c4, x4, s4 := code, explanationSymbols, symbols.values;
      ghost var was := tables;
      tables := AddClause(tables, clauseID, symbol, root, kinds, outcomes, explanations, remediationIDs);
      KindsBound([], c.assertion);
      ListsLength(c4, s4, kinds, AddKinds([], c.assertion));
      NewClauseCoded(c4, x4, s4, was, tables, |cs|, |ms|, c, clauseID, symbol, root, kinds, outcomes, explanations,
                     remediationIDs);
      ClausesCodedGrow(c0, was, x0, s0, c4, tables, x4, s4, cs);
      ClausesCodedAppend(c4, tables, x4, s4, cs, c);
      RemediationsAppend(cs, c);
      RemediationsSized(c4, Published(), s4, ms + c.remediations);
      CountingExtend(0, |ms|, |c.remediations|);
      GrowsContext(c0, x0, s0, c4, x4, s4);
      KindsKeptValid(was.evidenceKinds, kinds, c0, c4, s4, AddKinds([], c.assertion));
    }

    /** Everything of a clause that the code, symbol, explanation and remediation columns hold. */
    method LowerClause(c: Clause, ghost ms: seq<Remediation>)
      returns (symbol: nat, root: nat, kinds: seq<nat>, outcomes: seq<nat>, explanations: seq<nat>,
               remediationIDs: seq<nat>)
      requires CodeOK() && |allowed| <= MAX_UINT16 && ClauseTexts(c) <= allowed + {""}
      requires ClauseValid(c) && SetsFit(c.assertion)
      requires RemediationsCoded(code, Published(), symbols.values, ms) && |ms| + |c.remediations| <= MAX_UINT16
      requires |code.opcodes| + NodeCount(c.assertion) <= MAX_EXPRESSION_NODES
      requires TotalLength(symbols.values) + ClauseText(c) <= MAX_UINT32
      requires |code.setValues| + ClauseText(c) <= MAX_UINT32
      modifies this`code, this`evidenceKinds, this`explanationSymbols, this`explanationIDs, this`remediations, symbols
      ensures CodeOK() && Grown()
      ensures Names(symbols.values, symbol, c.id) && Codes(code, symbols.values, root, c.assertion)
      ensures Lists(code, symbols.values, List(kinds), AddKinds([], c.assertion))
      ensures |outcomes| == REASON_COUNT && |explanations| == REASON_COUNT
      ensures forall r :: 1 <= r <= REASON_COUNT ==> outcomes[r - 1] == OutcomeID(c.resolution.At(r))
      ensures forall r :: 1 <= r <= REASON_COUNT ==> TextCoded(symbols.values, explanationSymbols,
          explanations[r - 1], c.explanations.At(r))
      ensures RemediationsCoded(code, Published(), symbols.values, ms + c.remediations)
      ensures remediationIDs == Counting(|ms|, |c.remediations|)
      ensures |code.opcodes| == |old(code).opcodes| + NodeCount(c.assertion)
      ensures TotalLength(symbols.values) <= TotalLength(old(symbols.values)) + ClauseText(c)
      ensures |code.setValues| <= |old(code).setValues| + ClauseText(c)
    {
      hide CodeOK, TotalLength, ContextGrows, RemediationsCoded, ExpressionValid, ClauseTexts, NodeCount,
           ExpressionText, StatesText, RemediationsText, Codes, AddKinds, Lists, TextCoded, States.At,
           OutcomeID, SetsFit, Trim, Names, Counting, Grows, RemediationText, StateValid, RemediationValid,
           HasRevise;
      ghost var c0, x0, s0 := code, explanationSymbols, symbols.values;
      ClauseSizes(c);
      CodeAligned();
      symbol := Intern(c.id);
      ghost var s1 := symbols.values;
      SameContext(code, explanationSymbols, s0, s1);
      assert Lists(code, symbols.values, List([]), []) by { NoKinds(code, symbols.values); }
      var list;
      root, list := CompileExpression(c.assertion, List([]), 1, true, []);
      kinds := list.ids;
      ghost var c2, s2 := code, symbols.values;
      CodeAligned();
      MakeContext(c0, x0, s1, c2, explanationSymbols, s2);
      ContextGrowsTransitive(c0, x0, s0, c0, x0, s1, c2, x0, s2);
      outcomes, explanations := CompileStates(c);
      ghost var c3, x3, s3 := code, explanationSymbols, symbols.values;
      ContextGrowsTransitive(c0, x0, s0, c2, x0, s2, c3, x3, s3);
      RemediationsCodedGrow(c0, Catalogues(remediations, x0, COMPILED_PRECEDENCE), s0, c3, Published(), s3, ms);
      remediationIDs := CompileRemediations(c.remediations, ms);
      ghost var c4, x4, s4 := code, explanationSymbols, symbols.values;
      ContextGrowsTransitive(c0, x0, s0, c3, x3, s3, c4, x4, s4);
      ContextGrowsTransitive(c2, x0, s2, c3, x3, s3, c4, x4, s4);
      GrowsContext(c2, x0, s2, c4, x4, s4);
      GrowsContext(c3, x3, s3, c4, x4, s4);
      NamesAt(s1, s2, s4, symbol, c.id);
      CodesGrow(c2, s2, c4, s4, root, c.assertion);
      ListsGrow(c2, s2, c4, s4, list, AddKinds([], c.assertion));
      StatesGrow(s3, x3, s4, x4, explanations, c);
    }

    /** The requirements before number n are published, with their clauses. */
    ghost predicate RequirementsDone(rs: seq<Requirement>, n: nat, cs: seq<Clause>)
      requires n <= |rs|
      reads this, symbols
    {
      && ClausesDone(cs)
      && RequirementColumns(tables, n) && RequirementsCoded(code, tables, symbols.values, rs, n)
    }

    /** The head of the requirement loop of Compile. */
    method CompileHead(rs: seq<Requirement>, i: nat)
      requires i < |rs| && RequirementsDone(rs, i, Clauses(rs, i))
      requires RequirementValid(rs[i]) && SetsFit(rs[i].applicability) && |rs[i].clauses| <= MAX_UINT16
      requires |Clauses(rs, i)| <= MAX_UINT32
      requires |code.opcodes| + NodeCount(rs[i].applicability) <= MAX_EXPRESSION_NODES
      requires TotalLength(symbols.values) + |rs[i].id| + ExpressionText(rs[i].applicability) <= MAX_UINT32
      requires |code.setValues| + ExpressionText(rs[i].applicability) <= MAX_UINT32
      modifies this`code, this`evidenceKinds, this`tables, symbols
      ensures RequirementsDone(rs, i + 1, Clauses(rs, i))
      ensures |code.opcodes| == |old(code).opcodes| + NodeCount(rs[i].applicability)
      ensures TotalLength(symbols.values)
           <= TotalLength(old(symbols.values)) + |rs[i].id| + ExpressionText(rs[i].applicability)
      ensures |code.setValues| <= |old(code).setValues| + ExpressionText(rs[i].applicability)
    {
      hide CodeOK, TotalLength, ContextGrows, ClausesCoded, RemediationsCoded, ExpressionValid, NodeCount,
           ExpressionText, Codes, AddKinds, Lists, U16, U32, SetsFit, Trim, Names, TablesGrow, ClauseValid,
           Clauses, Counting, Grows, ClauseColumns, RequirementsCoded;
      ghost var cs := Clauses(rs, i);
      ghost var c0, s0 := code, symbols.values;
      assert RequirementColumns(tables, i);
      CodeAligned();
      var symbol := Intern(rs[i].id);
      ghost var s1 := symbols.values;
      SameContext(code, explanationSymbols, s0, s1);
      assert Lists(code, symbols.values, NoList, []) by { NothingListed(code, symbols.values); }
      var root, list := CompileExpression(rs[i].applicability, NoList, 1, false, []);
      CodeAligned();
      MakeContext(c0, explanationSymbols, s1, code, explanationSymbols, symbols.values);
      ContextGrowsTransitive(c0, explanationSymbols, s0, c0, explanationSymbols, s1, code, explanationSymbols,
                             symbols.values);
      ghost var was := tables;
      NarrowingLossless(|tables.clauseIDs|);
      NarrowingLossless(|rs[i].clauses|);
      tables := AddRequirement(tables, symbol, root, |rs[i].clauses|);
      ColumnsCount(was, tables, |cs|);
      NewRequirementCoded(c0, s0, code, symbols.values, was, tables, rs, i, s1, symbol, root);
      ClausesCodedGrow(c0, was, explanationSymbols, s0, code, tables, explanationSymbols, symbols.values, cs);
      RemediationsCodedGrow(c0, Published(), s0, code, Published(), symbols.values, Remediations(cs, |cs|));
      GrowsContext(c0, explanationSymbols, s0, code, explanationSymbols, symbols.values);
      KindsStayValid(was.evidenceKinds, c0, code);
    }

    /** The body of the requirement loop of Compile. */
    method CompileRequirement(rs: seq<Requirement>, i: nat)
      requires i < |rs| && RequirementsDone(rs, i, Clauses(rs, i))
      requires RequirementValid(rs[i]) && RequirementFits(rs[i])
      requires PolicyNodes(rs, |rs|) <= MAX_EXPRESSION_NODES && |code.opcodes| == PolicyNodes(rs, i)
      requires PolicyText(rs, |rs|) <= MAX_UINT32
      requires TotalLength(symbols.values) <= PolicyText(rs, i) && |code.setValues| <= PolicyText(rs, i)
      requires |Remediations(Clauses(rs, |rs|), |Clauses(rs, |rs|)|)| <= MAX_UINT16
      requires allowed == ExplanationTexts(Clauses(rs, |rs|), |Clauses(rs, |rs|)|) - {""} && |allowed| <= MAX_UINT16
      modifies this, symbols
      ensures RequirementsDone(rs, i + 1, Clauses(rs, i + 1))
      ensures |code.opcodes| == PolicyNodes(rs, i + 1)
      ensures TotalLength(symbols.values) <= PolicyText(rs, i + 1) && |code.setValues| <= PolicyText(rs, i + 1)
    {
      hide ClausesDone, TotalLength, ContextGrows, NodeCount, ExpressionText, ClauseText, SetsFit, Trim,
           TablesGrow, ClauseValid, RequirementsCoded, ExpressionValid, ExplanationTexts, ClauseTexts,
           Remediations, Grows, NodesAt, TextAt, PolicyNodes, PolicyText, Clauses;
      var r := rs[i];
      ghost var before := Clauses(rs, i);
      ClauseCountSmall(rs, i);
      BudgetStart(rs, i);
      CompileHead(rs, i);
      assert before + r.clauses[..0] == before;
      for j := 0 to |r.clauses|
        invariant RequirementsDone(rs, i + 1, before + r.clauses[..j])
        invariant |code.opcodes| == NodesAt(rs, i, j)
        invariant TotalLength(symbols.values) <= TextAt(rs, i, j) && |code.setValues| <= TextAt(rs, i, j)
      {
        ghost var cs := before + r.clauses[..j];
        BudgetStep(rs, i, j);
        assert cs + [r.clauses[j]] == before + r.clauses[..j + 1];
        ClauseRoom(rs, i, j, cs);
        DoneSizes(cs);
        ghost var c0, t0, s0, x0 := code, tables, symbols.values, explanationSymbols;
        CompileClause(r.clauses[j], cs);
        GrowsContext(c0, x0, s0, code, explanationSymbols, symbols.values);
        RequirementsCodedGrow(c0, t0, s0, code, tables, symbols.values, rs, i + 1);
      }
      assert r.clauses[..|r.clauses|] == r.clauses;
      BudgetEnd(rs, i);
    }
  }

  lemma {:induction false} SameGrows(c: Code)
    ensures Grows(c, c)
  {}

  lemma {:induction false} SoundAligned(c: Code, n: nat)
    requires CodeSound(c, n)
    ensures Aligned(c) && |c.operands| <= |c.opcodes| && |c.evidenceSpecs| <= |c.opcodes|
  {}

  lemma {:induction false} LeafSizes(e: Expression)
    requires e.children == []
    ensures NodeCount(e) == 1
  {}

  lemma {:induction false} NonEmptyValue(text: string)
    requires Trim(text) != ""
    ensures text != ""
  {}

  /** Every id names the text at its position. */
  predicate NamedAll(syms: seq<string>, ids: seq<nat>, texts: seq<string>) {
    |ids| == |texts| && forall j :: 0 <= j < |ids| ==> Names(syms, ids[j], texts[j])
  }

  lemma {:induction false} NamedNone(syms: seq<string>)
    ensures NamedAll(syms, [], [])
  {}

  function SpecSymbols(s: EvidenceSpec): seq<nat> {
    [s.status, s.timing, s.reviewer, s.timestampState, s.subject, s.attestationState, s.scope, s.adjustmentType]
  }

  function SpecTexts(e: EvidencePredicate): seq<string> {
    [e.status, e.timing, e.reviewer, e.timestampState, e.subject, e.attestationState, e.scope, e.adjustmentType]
  }

  lemma {:induction false} SpecNamed(c: Code, was: seq<string>, syms: seq<string>, s: EvidenceSpec, e: EvidencePredicate)
    requires KindNames(c, was, s.kind, e.kind) && was <= syms
    requires NamedAll(syms, SpecSymbols(s), SpecTexts(e))
    ensures SpecCodes(c, syms, s, e) && SpecValid(s, |c.evidenceKindSymbols|, |syms|)
  {
    forall q | 0 <= q < QUALIFIER_COUNT
      ensures Names(syms, s.Wanted(q), e.Wanted(q)) && s.Wanted(q) <= |syms|
    {
      assert Names(syms, SpecSymbols(s)[q], SpecTexts(e)[q]);
      assert SpecSymbols(s)[q] == s.Wanted(q) && SpecTexts(e)[q] == e.Wanted(q);
    }
  }

  /** Emitting an instruction without operands. */
  lemma {:induction false} EmitLeaf(c: Code, n: nat, d: Code)
    requires CodeSound(c, n) && |c.opcodes| < MAX_EXPRESSION_NODES
    requires Grows(c, d) && |d.opcodes| == |c.opcodes| + 1 && d.operands == c.operands && Aligned(d)
    requires d.evidenceSpecs == c.evidenceSpecs && d.evidenceKindSymbols == c.evidenceKindSymbols
    requires InstructionValid(d, n, |c.opcodes|)
    ensures CodeSound(d, n)
    ensures U32(|d.opcodes|) == |d.opcodes|
  {
    hide InstructionValid, SpecValid, U32;
    NarrowingLossless(|d.opcodes|);
    EmitSound(c, n, d);
  }

  lemma {:induction false} EmitEqual(c: Code, syms: seq<string>, d: Code, value: nat, e: Expression)
    requires CodeSound(c, |syms|) && |c.opcodes| < MAX_EXPRESSION_NODES && |c.setValues| <= MAX_UINT32
    requires e.op.Equal? && LookupField(e.field) != 0 && e.value != "" && Names(syms, value, e.value)
    requires d == Emit(c, OP_EQUAL, LookupField(e.field), value, [], U32(|c.setValues|), 0, 0)
    ensures CodeSound(d, |syms|) && Grows(c, d) && Codes(d, syms, |d.opcodes|, e)
    ensures |d.opcodes| == |c.opcodes| + 1 && U32(|d.opcodes|) == |d.opcodes|
    ensures d.operands == c.operands && d.setValues == c.setValues && d.evidenceKindSymbols == c.evidenceKindSymbols
  {
    hide LookupField, U16, U32, InstructionValid;
    NarrowingLossless(|c.setValues|);
    NarrowingLossless(|c.operands|);
    NarrowingLossless(0);
    assert InstructionValid(d, |syms|, |c.opcodes|) by { EqualValid(d, |syms|, |c.opcodes|); }
    EmitLeaf(c, |syms|, d);
  }

  lemma {:induction false} EqualValid(d: Code, n: nat, i: nat)
    requires Aligned(d) && i < |d.opcodes| && d.opcodes[i] == OP_EQUAL
    requires ValidField(d.fields[i]) && ValidID(d.values[i], n)
    requires d.operandStarts[i] <= |d.operands| && d.setStarts[i] <= |d.setValues|
    requires d.operandCounts[i] == 0 && d.setCounts[i] == 0 && d.evidenceSpecIndexes[i] == 0
    ensures InstructionValid(d, n, i)
  {}

  lemma {:induction false} EmitIn(c: Code, syms: seq<string>, d: Code, start: nat, e: Expression)
    requires CodeSound(c, |syms|) && |c.opcodes| < MAX_EXPRESSION_NODES
    requires e.op.In? && LookupField(e.field) != 0 && 1 <= |e.values| <= MAX_UINT16
    requires |c.setValues| == start + |e.values|
    requires forall j :: 0 <= j < |e.values| ==> e.values[j] != "" && Names(syms, c.setValues[start + j], e.values[j])
    requires d == Emit(c, OP_IN, LookupField(e.field), 0, [], start, U16(|e.values|), 0)
    ensures CodeSound(d, |syms|) && Grows(c, d) && Codes(d, syms, |d.opcodes|, e)
    ensures |d.opcodes| == |c.opcodes| + 1 && U32(|d.opcodes|) == |d.opcodes|
    ensures d.operands == c.operands && d.setValues == c.setValues && d.evidenceKindSymbols == c.evidenceKindSymbols
  {
    hide LookupField, U16, U32, InstructionValid;
    NarrowingLossless(|e.values|);
    NarrowingLossless(|c.operands|);
    NarrowingLossless(0);
    forall j | 0 <= j < |e.values|
      ensures SetValueValid(d, |syms|, |c.opcodes|, j)
    {
      assert Names(syms, c.setValues[start + j], e.values[j]);
    }
    InValid(d, |syms|, |c.opcodes|);
    EmitLeaf(c, |syms|, d);
  }

  lemma {:induction false} InValid(d: Code, n: nat, i: nat)
    requires Aligned(d) && i < |d.opcodes| && d.opcodes[i] == OP_IN
    requires ValidField(d.fields[i]) && d.values[i] == 0
    requires d.operandStarts[i] <= |d.operands| && d.setStarts[i] + d.setCounts[i] <= |d.setValues|
    requires forall j :: 0 <= j < d.setCounts[i] ==> SetValueValid(d, n, i, j)
    requires d.operandCounts[i] == 0 && d.setCounts[i] != 0 && d.evidenceSpecIndexes[i] == 0
    ensures InstructionValid(d, n, i)
  {}

  lemma {:induction false} SetGrows(c: Code, d: Code, e: Code)
    requires d == c.(setValues := d.setValues) && c.setValues <= d.setValues && Grows(d, e)
    ensures Grows(c, e) && c.evidenceKindSymbols <= e.evidenceKindSymbols
  {}

  lemma {:induction false} TrackedName(kinds: map<string, nat>, c: Code, syms: seq<string>, name: string)
    requires KindsTracked(kinds, c, syms) && name in kinds
    ensures KindNames(c, syms, kinds[name], name)
  {}

  lemma {:induction false} NamesKept(syms: seq<string>, more: seq<string>)
    requires syms <= more
    ensures forall id, text :: Names(syms, id, text) ==> Names(more, id, text)
  {}

  lemma {:induction false} TrackedKinds(kinds: map<string, nat>, c: Code, syms: seq<string>)
    requires KindsTracked(kinds, c, syms)
    ensures KindsCoded(c, syms)
    ensures forall name :: name in kinds ==> KindNames(c, syms, kinds[name], name)
  {}

  lemma {:induction false} SetTexts(e: Expression, allowEvidence: bool)
    requires e.op.In? && NodeValid(e, allowEvidence) && SetsFit(e)
    ensures forall j :: 0 <= j < |e.values| ==> e.values[j] != ""
    ensures |e.values| <= TotalLength(e.values) && 1 <= |e.values| <= MAX_UINT16
  {
    hide LookupField, ValidFieldValue;
    forall j | 0 <= j < |e.values|
      ensures e.values[j] != ""
    {
      NonEmptyValue(e.values[j]);
    }
    NonEmptyTexts(e.values);
  }

  lemma {:induction false} ChildFits(e: Expression, i: nat)
    requires SetsFit(e) && i < |e.children|
    ensures SetsFit(e.children[i])
  {}

  lemma {:induction false} AllSizes(e: Expression)
    requires e.op.All?
    ensures NodeCount(e) == 1 + NodesUpTo(e, |e.children|) && ExpressionText(e) == ChildrenText(e, |e.children|)
  {}

  lemma {:induction false} AllHasChildren(e: Expression, allowEvidence: bool)
    requires e.op.All? && NodeValid(e, allowEvidence)
    ensures e.children != []
  {}

  lemma {:induction false} ListedKinds(acc: seq<string>, e: Expression, allowEvidence: bool)
    requires e.op.EvidenceMatches? && NodeValid(e, allowEvidence)
    ensures e.children == []
    ensures AddKinds(acc, e) == if e.evidence.kind in acc then acc else acc + [e.evidence.kind]
  {}

  lemma {:induction false} EmitEvidence(c: Code, syms: seq<string>, d: Code, spec: EvidenceSpec, index: nat, e: Expression)
    requires CodeSound(c, |syms|) && |c.opcodes| < MAX_EXPRESSION_NODES && |c.setValues| <= MAX_UINT32
    requires SpecValid(spec, |c.evidenceKindSymbols|, |syms|)
    requires e.op.EvidenceMatches? && SpecCodes(c, syms, spec, e.evidence)
    requires index == U16(|c.evidenceSpecs| + 1)
    requires d == Emit(c.(evidenceSpecs := c.evidenceSpecs + [spec]), OP_EVIDENCE, 0, 0, [], U32(|c.setValues|), 0, index)
    ensures CodeSound(d, |syms|) && Grows(c, d) && Codes(d, syms, |d.opcodes|, e)
    ensures |d.opcodes| == |c.opcodes| + 1 && U32(|d.opcodes|) == |d.opcodes|
    ensures d.operands == c.operands && d.setValues == c.setValues && d.evidenceKindSymbols == c.evidenceKindSymbols
  {
    hide SpecValid, InstructionValid, KindNames, Names;
    NarrowingLossless(|d.opcodes|);
    NarrowingLossless(0);
    NarrowingLossless(|c.evidenceSpecs| + 1);
    NarrowingLossless(|c.setValues|);
    NarrowingLossless(|c.operands|);
    hide U16, U32;
    forall i | 0 <= i < |d.evidenceSpecs|
      ensures SpecValid(d.evidenceSpecs[i], |d.evidenceKindSymbols|, |syms|)
    {
      if i < |c.evidenceSpecs| { assert SpecValid(c.evidenceSpecs[i], |c.evidenceKindSymbols|, |syms|); }
    }
    EvidenceValid(d, |syms|, |c.opcodes|);
    EmitSound(c, |syms|, d);
    SpecCodesSame(c, syms, d, spec, e.evidence);
  }

  lemma {:induction false} SpecCodesSame(c: Code, syms: seq<string>, d: Code, s: EvidenceSpec, e: EvidencePredicate)
    requires SpecCodes(c, syms, s, e) && c.evidenceKindSymbols == d.evidenceKindSymbols
    ensures SpecCodes(d, syms, s, e)
  {}

  lemma {:induction false} EvidenceValid(d: Code, n: nat, i: nat)
    requires Aligned(d) && i < |d.opcodes| && d.opcodes[i] == OP_EVIDENCE
    requires ValidID(d.evidenceSpecIndexes[i], |d.evidenceSpecs|)
    requires d.operandStarts[i] <= |d.operands| && d.setStarts[i] <= |d.setValues|
    requires d.operandCounts[i] == 0 && d.setCounts[i] == 0 && d.fields[i] == 0 && d.values[i] == 0
    ensures InstructionValid(d, n, i)
  {}

  lemma {:induction false} EmitAll(c: Code, syms: seq<string>, d: Code, operands: seq<nat>, e: Expression)
    requires CodeSound(c, |syms|) && |c.opcodes| < MAX_EXPRESSION_NODES && operands != []
    requires |c.operands| + |operands| <= |c.opcodes| && |c.setValues| <= MAX_UINT32
    requires forall m :: 0 <= m < |operands| ==> 1 <= operands[m] <= |c.opcodes|
    requires e.op.All? && |operands| == |e.children|
    requires forall m :: 0 <= m < |operands| ==> Codes(c, syms, operands[m], e.children[m])
    requires d == Emit(c, OP_ALL, 0, 0, operands, U32(|c.setValues|), 0, 0)
    ensures CodeSound(d, |syms|) && Grows(c, d) && Codes(d, syms, |d.opcodes|, e)
    ensures |d.opcodes| == |c.opcodes| + 1 && U32(|d.opcodes|) == |d.opcodes|
    ensures |d.operands| == |c.operands| + |operands|
    ensures d.setValues == c.setValues && d.evidenceKindSymbols == c.evidenceKindSymbols
  {
    hide SpecValid, U16, U32, Codes;
    NarrowingLossless(|d.opcodes|);
    NarrowingLossless(|operands|);
    NarrowingLossless(|c.setValues|);
    NarrowingLossless(|c.operands|);
    forall j | 0 <= j < |operands|
      ensures OperandValid(d, |c.opcodes|, j)
    {}
    EmitSound(c, |syms|, d);
    AllCodes(c, syms, d, operands, e);
  }

  /** The emitted `all` stands for its expression when its operands stand for the children. */
  lemma {:induction false} AllCodes(c: Code, syms: seq<string>, d: Code, operands: seq<nat>, e: Expression)
    requires e.op.All? && Aligned(c) && Aligned(d) && Grows(c, d) && |operands| == |e.children|
    requires forall m :: 0 <= m < |operands| ==> Codes(c, syms, operands[m], e.children[m])
    requires |d.opcodes| == |c.opcodes| + 1 && d.opcodes[|c.opcodes|] == OP_ALL
    requires d.operands == c.operands + operands
    requires d.operandStarts[|c.opcodes|] == |c.operands| && d.operandCounts[|c.opcodes|] == |operands|
    ensures Codes(d, syms, |d.opcodes|, e)
  {
    hide Codes;
    forall m | 0 <= m < |operands|
      ensures Codes(d, syms, d.operands[|c.operands| + m], e.children[m])
    {
      CodesGrow(c, syms, d, syms, operands[m], e.children[m]);
    }
    AllOfCodes(d, syms, |c.opcodes|, e);
  }

  lemma {:induction false} AllOfCodes(d: Code, syms: seq<string>, i: nat, e: Expression)
    requires e.op.All? && Aligned(d) && i < |d.opcodes| && d.opcodes[i] == OP_ALL
    requires d.operandCounts[i] == |e.children| && d.operandStarts[i] + |e.children| <= |d.operands|
    requires forall m :: 0 <= m < |e.children| ==> Codes(d, syms, d.operands[d.operandStarts[i] + m], e.children[m])
    ensures Codes(d, syms, i + 1, e)
  {}

  lemma {:induction false} GrowsContext(c: Code, xs: seq<nat>, syms: seq<string>, d: Code, ys: seq<nat>, more: seq<string>)
    requires ContextGrows(c, xs, syms, d, ys, more)
    ensures Grows(c, d) && Aligned(d) && xs <= ys && syms <= more
    ensures c.evidenceKindSymbols <= d.evidenceKindSymbols
  {}

  lemma {:induction false} ListsLength(c: Code, syms: seq<string>, kinds: seq<nat>, texts: seq<string>)
    requires Lists(c, syms, List(kinds), texts)
    ensures |kinds| == |texts|
  {}

  lemma {:induction false} TrackedText(ids: map<string, nat>, xs: seq<nat>, syms: seq<string>, allowed: set<string>,
                                       text: string)
    requires ExplanationsTracked(ids, xs, syms, allowed) && text in ids
    ensures TextCoded(syms, xs, ids[text], text)
  {}

  lemma {:induction false} AddRemediation(c: Code, cat: Catalogues, syms: seq<string>, d: Code, dog: Catalogues,
                                          more: seq<string>,
                       ms: seq<Remediation>, r: Remediation)
    requires RemediationsCoded(c, cat, syms, ms)
    requires ContextGrows(c, cat.explanationSymbols, syms, d, dog.explanationSymbols, more)
    requires |dog.remediations| == |cat.remediations| + 1 && cat.remediations <= dog.remediations
    requires RemediationCoded(d, dog.explanationSymbols, more, dog.remediations[|cat.remediations|], r)
    ensures RemediationsCoded(d, dog, more, ms + [r])
  {
    hide RemediationCoded, ContextGrows;
    forall x | 0 <= x < |ms| + 1
      ensures RemediationCoded(d, dog.explanationSymbols, more, dog.remediations[x], (ms + [r])[x])
    {
      if x < |ms| {
        RemediationCodedGrows(c, cat.explanationSymbols, syms, d, dog.explanationSymbols, more, cat.remediations[x], ms[x]);
      }
    }
  }

  // ----- clause columns

  predicate ClauseColumns(t: Tables, n: nat) {
    && |t.clauseSymbols| == n && |t.assertionRoots| == n
    && |t.remediationStarts| == n && |t.remediationCounts| == n
    && |t.evidenceKindStarts| == n && |t.evidenceKindCounts| == n
    && |t.outcomeIDs| == n * REASON_COUNT && |t.explanationIDs| == n * REASON_COUNT
    && t.clauseIDs == Counting(0, n)
  }

  predicate RequirementColumnsSame(t: Tables, u: Tables) {
    && t.requirementSymbols == u.requirementSymbols && t.applicabilityRoots == u.applicabilityRoots
    && t.clauseStarts == u.clauseStarts && t.clauseCounts == u.clauseCounts
  }

  /** The appends of the clause loop. */
  function AddClause(t: Tables, id: nat, symbol: nat, root: nat, kinds: seq<nat>, outcomes: seq<nat>,
                     explanations: seq<nat>, remediations: seq<nat>): Tables
  {
    t.(clauseIDs := t.clauseIDs + [id], clauseSymbols := t.clauseSymbols + [symbol],
       assertionRoots := t.assertionRoots + [root],
       evidenceKindStarts := t.evidenceKindStarts + [U32(|t.evidenceKinds|)],
       evidenceKindCounts := t.evidenceKindCounts + [U16(|kinds|)],
       evidenceKinds := t.evidenceKinds + kinds,
       outcomeIDs := t.outcomeIDs + outcomes, explanationIDs := t.explanationIDs + explanations,
       remediationStarts := t.remediationStarts + [U32(|t.remediationIDs|)],
       remediationCounts := t.remediationCounts + [U16(|remediations|)],
       remediationIDs := t.remediationIDs + remediations)
  }

  lemma {:induction false} NoKinds(c: Code, syms: seq<string>)
    ensures Lists(c, syms, List([]), [])
  {}

  lemma {:induction false} MakeContext(c: Code, xs: seq<nat>, syms: seq<string>, d: Code, ys: seq<nat>, more: seq<string>)
    requires Grows(c, d) && Aligned(d) && xs <= ys && syms <= more
    ensures ContextGrows(c, xs, syms, d, ys, more)
  {}

  lemma {:induction false} SameContext(c: Code, xs: seq<nat>, syms: seq<string>, more: seq<string>)
    requires Aligned(c) && syms <= more
    ensures ContextGrows(c, xs, syms, c, xs, more)
  {}

  lemma {:induction false} RemediationsSized(c: Code, cat: Catalogues, syms: seq<string>, ms: seq<Remediation>)
    requires RemediationsCoded(c, cat, syms, ms)
    ensures |cat.remediations| == |ms|
  {}

  lemma {:induction false} ClauseSizes(c: Clause)
    requires ClauseValid(c)
    ensures ExpressionValid(c.assertion, 1, true) && ResolutionValid(c)
    ensures ExpressionText(c.assertion) <= ClauseText(c)
    ensures forall k :: 0 <= k < |c.remediations| ==> c.remediations[k].description in ClauseTexts(c)
  {
    hide ExpressionValid, ResolutionValid, ExpressionText, StatesText, RemediationsText, States.At;
    forall k | 0 <= k < |c.remediations|
      ensures c.remediations[k].description in ClauseTexts(c)
    {
      assert c.remediations[k] in c.remediations;
    }
  }

  lemma {:induction false} NamesAt(syms: seq<string>, more: seq<string>, most: seq<string>, id: nat, text: string)
    requires Names(syms, id, text) && syms <= more <= most
    ensures Names(most, id, text)
  {}

  lemma {:induction false} StatesGrow(syms: seq<string>, xs: seq<nat>, more: seq<string>, ys: seq<nat>,
                                      explanations: seq<nat>, c: Clause)
    requires |explanations| == REASON_COUNT && xs <= ys && syms <= more
    requires forall r :: 1 <= r <= REASON_COUNT ==> TextCoded(syms, xs, explanations[r - 1], c.explanations.At(r))
    ensures forall r :: 1 <= r <= REASON_COUNT ==> TextCoded(more, ys, explanations[r - 1], c.explanations.At(r))
  {
    hide TextCoded, States.At;
    forall r | 1 <= r <= REASON_COUNT
      ensures TextCoded(more, ys, explanations[r - 1], c.explanations.At(r))
    {
      TextCodedGrows(syms, xs, more, ys, explanations[r - 1], c.explanations.At(r));
    }
  }

  lemma {:induction false} KindsBound(acc: seq<string>, e: Expression)
    ensures |AddKinds(acc, e)| <= |acc| + NodeCount(e)
    decreases e, |e.children| + 1
  {
    if e.op.All? { KindsBoundUpTo(acc, e, |e.children|); }
  }

  lemma {:induction false} KindsBoundUpTo(acc: seq<string>, e: Expression, k: nat)
    requires k <= |e.children|
    ensures |AddKindsUpTo(acc, e, k)| <= |acc| + NodesUpTo(e, k)
    decreases e, k
  {
    if k > 0 {
      KindsBoundUpTo(acc, e, k - 1);
      KindsBound(AddKindsUpTo(acc, e, k - 1), e.children[k - 1]);
    }
  }

  lemma {:induction false} KindsKeptValid(kinds: seq<nat>, ids: seq<nat>, c: Code, d: Code, syms: seq<string>,
                                          texts: seq<string>)
    requires AllValidIDs(kinds, |c.evidenceKindSymbols|) && c.evidenceKindSymbols <= d.evidenceKindSymbols
    requires Lists(d, syms, List(ids), texts)
    ensures AllValidIDs(kinds + ids, |d.evidenceKindSymbols|)
  {
    var all := kinds + ids;
    forall i | 0 <= i < |all|
      ensures ValidID(all[i], |d.evidenceKindSymbols|)
    {
      if i >= |kinds| { assert KindNames(d, syms, ids[i - |kinds|], texts[i - |kinds|]); }
    }
  }

  lemma {:induction false} NewClauseCoded(code: Code, xs: seq<nat>, syms: seq<string>, t: Tables, u: Tables, k: nat,
                                          before: nat, c: Clause,
                       id: nat, symbol: nat, root: nat, kinds: seq<nat>, outcomes: seq<nat>, explanations: seq<nat>,
                       remediations: seq<nat>)
    requires ClauseColumns(t, k) && id == k + 1
    requires u == AddClause(t, id, symbol, root, kinds, outcomes, explanations, remediations)
    requires Names(syms, symbol, c.id) && Codes(code, syms, root, c.assertion)
    requires Lists(code, syms, List(kinds), AddKinds([], c.assertion)) && |kinds| <= MAX_UINT16
    requires |outcomes| == REASON_COUNT && |explanations| == REASON_COUNT
    requires forall r :: 1 <= r <= REASON_COUNT ==> outcomes[r - 1] == OutcomeID(c.resolution.At(r))
    requires forall r :: 1 <= r <= REASON_COUNT ==> TextCoded(syms, xs, explanations[r - 1], c.explanations.At(r))
    requires |t.remediationIDs| == before && |remediations| == |c.remediations| && before + |remediations| <= MAX_UINT16
    requires |t.evidenceKinds| <= MAX_UINT32
    ensures ClauseCoded(code, u, xs, syms, k, c, before)
    ensures ClauseColumns(u, k + 1) && TablesGrow(t, u) && RequirementColumnsSame(t, u)
    ensures u.evidenceKinds == t.evidenceKinds + kinds && u.remediationIDs == t.remediationIDs + remediations
  {
    hide Codes, AddKinds, TextCoded, States.At, OutcomeID, U16, U32, KindNames;
    NarrowingLossless(|t.evidenceKinds|);
    NarrowingLossless(|kinds|);
    NarrowingLossless(|t.remediationIDs|);
    NarrowingLossless(|remediations|);
    CountingExtend(0, k, 1);
    assert Counting(k, 1) == [id];
    forall r | 1 <= r <= REASON_COUNT
      ensures StateCoded(u, syms, xs, k, r, c)
    {
      assert u.outcomeIDs[StateIndex(k, r)] == outcomes[r - 1];
      assert u.explanationIDs[StateIndex(k, r)] == explanations[r - 1];
    }
    assert KindsListed(code, u, syms, |t.evidenceKinds|, |kinds|, AddKinds([], c.assertion));
  }

  // ----- requirement columns

  predicate RequirementColumns(t: Tables, n: nat) {
    && |t.requirementSymbols| == n && |t.applicabilityRoots| == n
    && |t.clauseStarts| == n && |t.clauseCounts| == n
  }

  /** The appends of the requirement loop. */
  function AddRequirement(t: Tables, symbol: nat, root: nat, clauses: nat): Tables {
    t.(requirementSymbols := t.requirementSymbols + [symbol],
       applicabilityRoots := t.applicabilityRoots + [root],
       clauseStarts := t.clauseStarts + [U32(|t.clauseIDs|)],
       clauseCounts := t.clauseCounts + [U16(clauses)])
  }

  lemma {:induction false} NothingListed(c: Code, syms: seq<string>)
    ensures Lists(c, syms, KindList.NoList, [])
  {}

  lemma {:induction false} ColumnsCount(t: Tables, u: Tables, n: nat)
    requires ClauseColumns(t, n)
    requires u == t.(requirementSymbols := u.requirementSymbols, applicabilityRoots := u.applicabilityRoots,
                     clauseStarts := u.clauseStarts, clauseCounts := u.clauseCounts)
    ensures |t.clauseIDs| == n && ClauseColumns(u, n)
  {}

  lemma {:induction false} KindsStayValid(kinds: seq<nat>, c: Code, d: Code)
    requires AllValidIDs(kinds, |c.evidenceKindSymbols|) && c.evidenceKindSymbols <= d.evidenceKindSymbols
    ensures AllValidIDs(kinds, |d.evidenceKindSymbols|)
  {
    assert |c.evidenceKindSymbols| <= |d.evidenceKindSymbols|;
  }

  lemma {:induction false} NewRequirementCoded(c0: Code, s0: seq<string>, code: Code, syms: seq<string>, t: Tables,
                                               u: Tables,
                            rs: seq<Requirement>, i: nat, s1: seq<string>, symbol: nat, root: nat)
    requires i < |rs| && RequirementColumns(t, i) && RequirementsCoded(c0, t, s0, rs, i)
    requires Grows(c0, code) && Aligned(code) && s0 <= s1 <= syms
    requires u == AddRequirement(t, symbol, root, |rs[i].clauses|)
    requires Names(s1, symbol, rs[i].id) && Codes(code, syms, root, rs[i].applicability)
    requires |t.clauseIDs| == |Clauses(rs, i)| <= MAX_UINT32 && |rs[i].clauses| <= MAX_UINT16
    ensures RequirementColumns(u, i + 1) && RequirementsCoded(code, u, syms, rs, i + 1) && TablesGrow(t, u)
  {
    hide Codes, Clauses, Grows, U16, U32;
    NarrowingLossless(|t.clauseIDs|);
    NarrowingLossless(|rs[i].clauses|);
    RequirementsCodedGrow(c0, t, s0, code, u, syms, rs, i);
    NamesAt(s1, syms, syms, symbol, rs[i].id);
    forall k | 0 <= k < i + 1
      ensures RequirementCoded(code, u, syms, k, rs[k], |Clauses(rs, k)|)
    {}
  }

  /** What the premises on the whole policy give clause j of requirement i. */
  lemma {:induction false} ClauseRoom(rs: seq<Requirement>, i: nat, j: nat, cs: seq<Clause>)
    requires i < |rs| && j < |rs[i].clauses| && cs == Clauses(rs, i) + rs[i].clauses[..j]
    requires RequirementValid(rs[i]) && RequirementFits(rs[i])
    ensures var all := Clauses(rs, |rs|);
      && ClauseTexts(rs[i].clauses[j]) <= ExplanationTexts(all, |all|)
      && |Remediations(cs, |cs|)| + |rs[i].clauses[j].remediations| <= |Remediations(all, |all|)|
    ensures ClauseValid(rs[i].clauses[j]) && SetsFit(rs[i].clauses[j].assertion)
  {
    hide ClauseTexts, ClauseValid, SetsFit, Clauses, Remediations, ExplanationTexts;
    var all := Clauses(rs, |rs|);
    DonePrefix(rs, i, j);
    ExplanationTextsOf(all, |cs|, |all|);
    RemediationsOfPrefix(cs, all, |cs|);
    RemediationsSplit(all, |cs|);
  }

  lemma {:induction false} DonePrefix(rs: seq<Requirement>, i: nat, j: nat)
    requires i < |rs| && j < |rs[i].clauses|
    ensures var cs, all := Clauses(rs, i) + rs[i].clauses[..j], Clauses(rs, |rs|);
      cs <= all && |cs| < |all| && all[|cs|] == rs[i].clauses[j]
  {
    hide PolicyNodes;
    ClauseNumbers(rs, i, j);
    PolicyNodesGrow(rs, i + 1, |rs|);
    var cs := Clauses(rs, i) + rs[i].clauses[..j];
    assert Clauses(rs, i + 1)[..|cs|] == cs;
  }

  /** Nodes compiled, and text interned at most, before clause j of requirement i. */
  function NodesAt(rs: seq<Requirement>, i: nat, j: nat): nat
    requires i < |rs| && j <= |rs[i].clauses|
  {
    PolicyNodes(rs, i) + NodeCount(rs[i].applicability) + ClauseNodes(rs[i].clauses, j)
  }

  function TextAt(rs: seq<Requirement>, i: nat, j: nat): nat
    requires i < |rs| && j <= |rs[i].clauses|
  {
    PolicyText(rs, i) + |rs[i].id| + ExpressionText(rs[i].applicability) + ClausesText(rs[i].clauses, j)
  }

  lemma {:induction false} BudgetStart(rs: seq<Requirement>, i: nat)
    requires i < |rs|
    ensures NodesAt(rs, i, 0) == PolicyNodes(rs, i) + NodeCount(rs[i].applicability) <= PolicyNodes(rs, |rs|)
    ensures TextAt(rs, i, 0) == PolicyText(rs, i) + |rs[i].id| + ExpressionText(rs[i].applicability) <= PolicyText(rs, |rs|)
  {
    PolicyNodesGrow(rs, i + 1, |rs|);
    PolicyTextGrow(rs, i + 1, |rs|);
  }

  lemma {:induction false} BudgetStep(rs: seq<Requirement>, i: nat, j: nat)
    requires i < |rs| && j < |rs[i].clauses|
    ensures NodesAt(rs, i, j + 1) == NodesAt(rs, i, j) + NodeCount(rs[i].clauses[j].assertion) <= PolicyNodes(rs, |rs|)
    ensures TextAt(rs, i, j + 1) == TextAt(rs, i, j) + ClauseText(rs[i].clauses[j]) <= PolicyText(rs, |rs|)
  {
    ClauseNodesGrow(rs[i].clauses, j + 1, |rs[i].clauses|);
    ClausesTextGrow(rs[i].clauses, j + 1, |rs[i].clauses|);
    PolicyNodesGrow(rs, i + 1, |rs|);
    PolicyTextGrow(rs, i + 1, |rs|);
  }

  lemma {:induction false} BudgetEnd(rs: seq<Requirement>, i: nat)
    requires i < |rs|
    ensures NodesAt(rs, i, |rs[i].clauses|) == PolicyNodes(rs, i + 1)
    ensures TextAt(rs, i, |rs[i].clauses|) == PolicyText(rs, i + 1)
    ensures Clauses(rs, i) + rs[i].clauses == Clauses(rs, i + 1)
  {}

  /** The node cap bounds the clauses. */
  lemma {:induction false} ClauseCountSmall(rs: seq<Requirement>, i: nat)
    requires i < |rs| && PolicyNodes(rs, |rs|) <= MAX_EXPRESSION_NODES
    ensures |Clauses(rs, i)| + |rs[i].clauses| < MAX_EXPRESSION_NODES
  {
    ClausesBelowNodes(rs, |rs|);
    ClausesSplit(rs, i);
  }
}
