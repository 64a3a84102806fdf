/** What it means that compiled code stands for a source expression, and why running it on the
    symbolic view of a request gives the verdict of the source expression on the raw strings. */
module Lowering {
  import opened Schema
  import opened Ast
  import opened Verdicts
  import opened Reference
  import opened Programs
  import opened Rows

  // ----- the symbolic view of requests and evidence: what the batch builder has to produce

  function SymbolicCell(t: SymbolTable, request: Request, f: nat): Cell
  {
    Cell(LookupSymbol(t, request.Field(f)), request.Field(f) != "",
         !FieldIssue(request, f), FieldIssue(request, f))
  }

  /** The one-based position of the first of the first k kind symbols that equals symbol. */
  function KindID(kinds: seq<nat>, symbol: nat, k: nat): (id: nat)
    requires k <= |kinds|
    ensures id <= k && (id != 0 ==> symbol != 0 && kinds[id - 1] == symbol)
    ensures id == 0 && symbol != 0 ==> forall i :: 0 <= i < k ==> kinds[i] != symbol
  {
    if k == 0 || symbol == 0 then 0
    else
      var id := KindID(kinds, symbol, k - 1);
      if id != 0 then id else if kinds[k - 1] == symbol then k else 0
  }

  /** The kind id that a record of this kind is given: 16 bits of its position. */
  function NarrowedKind(t: SymbolTable, kinds: seq<nat>, text: string): nat {
    U16(KindID(kinds, LookupSymbol(t, text), |kinds|))
  }

  function SymbolicMark(t: SymbolTable, text: string): Mark
  {
    if text == "" then Mark(0, false) else Mark(LookupSymbol(t, text), true)
  }

  function SymbolicRecord(t: SymbolTable, kinds: seq<nat>, e: Evidence): (r: Record)
    ensures forall q :: 0 <= q < QUALIFIER_COUNT ==> r.At(q) == SymbolicMark(t, e.Qualifier(q))
  {
    Record(NarrowedKind(t, kinds, e.kind),
           seq(QUALIFIER_COUNT, q requires 0 <= q < QUALIFIER_COUNT => SymbolicMark(t, e.Qualifier(q))),
           e.Conflicting(), e.Stale(), e.Revoked())
  }

  function SymbolicRow(t: SymbolTable, request: Request, pack: seq<Evidence>): RowView
  {
    RowView(seq(FIELD_COUNT - 1, k requires 0 <= k < FIELD_COUNT - 1 => SymbolicCell(t, request, k + 1)),
            seq(|request.evidenceIDs|, k requires 0 <= k < |request.evidenceIDs| => Resolve(pack, request.evidenceIDs[k])))
  }

  lemma {:induction false} SymbolicRowAt(t: SymbolTable, request: Request, pack: seq<Evidence>, f: nat)
    requires 1 <= f < FIELD_COUNT
    ensures SymbolicRow(t, request, pack).At(f) == SymbolicCell(t, request, f)
  {
    hide SymbolicCell;
  }

  function SymbolicRecords(t: SymbolTable, kinds: seq<nat>, pack: seq<Evidence>): seq<Record>
  {
    seq(|pack|, i requires 0 <= i < |pack| => SymbolicRecord(t, kinds, pack[i]))
  }

  // ----- symbol tables and the texts they stand for

  /** id is the symbol of text; the empty text has no symbol. */
  predicate Names(syms: seq<string>, id: nat, text: string) {
    if text == "" then id == 0 else 1 <= id <= |syms| && syms[id - 1] == text
  }

  /** The interned texts: distinct and nonempty. */
  predicate Interned(syms: seq<string>) {
    Distinct(syms) && forall i :: 0 <= i < |syms| ==> syms[i] != ""
  }

  predicate Spells(t: SymbolTable, syms: seq<string>) {
    && |t.starts| == |t.lengths| == |syms|
    && forall i :: 0 <= i < |syms| ==> SpellsAt(t, syms, i)
  }

  predicate SpellsAt(t: SymbolTable, syms: seq<string>, i: nat)
    requires i < |syms|
  {
    Symbol(t, i + 1) == syms[i]
  }

  /** LookupSymbol and Symbol are mutual inverses on interned texts, and a text that was never
      interned has no symbol. */
  lemma {:induction false} LookupInverse(t: SymbolTable, syms: seq<string>, text: string)
    requires Spells(t, syms) && Interned(syms)
    ensures var id := LookupSymbol(t, text);
      if text in syms then 1 <= id <= |syms| && syms[id - 1] == text && Symbol(t, id) == text else id == 0
    ensures forall id :: 1 <= id <= |syms| ==> LookupSymbol(t, Symbol(t, id)) == id
  {
    hide Symbol, LookupFrom;
    SymbolsSpelled(t, syms);
    var found := LookupSymbol(t, text);
    if text in syms {
      var k :| 0 <= k < |syms| && syms[k] == text;
      assert Symbol(t, k + 1) == text;
    }
    forall id | 1 <= id <= |syms|
      ensures LookupSymbol(t, Symbol(t, id)) == id
    {
      var j := LookupSymbol(t, syms[id - 1]);
      assert Symbol(t, id) == syms[id - 1] && (j != 0 ==> Symbol(t, j) == syms[j - 1]);
    }
  }

  lemma {:induction false} SymbolsSpelled(t: SymbolTable, syms: seq<string>)
    requires Spells(t, syms)
    ensures forall id :: 1 <= id <= |syms| ==> Symbol(t, id) == syms[id - 1]
  {
    forall id | 1 <= id <= |syms|
      ensures Symbol(t, id) == syms[id - 1]
    {
      assert SpellsAt(t, syms, id - 1);
    }
  }

  /** Comparing a looked-up symbol with a policy symbol is comparing the texts, even when the value
      was never interned. */
  lemma {:induction false} SymbolEquality(t: SymbolTable, syms: seq<string>, value: string, id: nat, text: string)
    requires Spells(t, syms) && Interned(syms) && Names(syms, id, text) && text != ""
    ensures LookupSymbol(t, value) == id <==> value == text
  {
    LookupInverse(t, syms, value);
  }

  predicate KindsCoded(c: Code, syms: seq<string>) {
    AllValidIDs(c.evidenceKindSymbols, |syms|) && Distinct(c.evidenceKindSymbols)
    && |c.evidenceKindSymbols| <= MAX_UINT16
  }

  predicate KindNames(c: Code, syms: seq<string>, kind: nat, text: string) {
    ValidID(kind, |c.evidenceKindSymbols|) && text != "" && Names(syms, c.evidenceKindSymbols[kind - 1], text)
  }

  lemma {:induction false} KindEquality(t: SymbolTable, c: Code, syms: seq<string>, value: string, kind: nat, text: string)
    requires Spells(t, syms) && Interned(syms) && KindsCoded(c, syms) && KindNames(c, syms, kind, text)
    ensures KindID(c.evidenceKindSymbols, LookupSymbol(t, value), |c.evidenceKindSymbols|) == kind <==> value == text
    ensures NarrowedKind(t, c.evidenceKindSymbols, value) == kind <==> value == text
  {
    hide LookupSymbol, Symbol, SpellsAt;
    SymbolEquality(t, syms, value, c.evidenceKindSymbols[kind - 1], text);
  }

  // ----- code that stands for an expression

  predicate SpecCodes(c: Code, syms: seq<string>, s: EvidenceSpec, e: EvidencePredicate) {
    && KindNames(c, syms, s.kind, e.kind)
    && forall q :: 0 <= q < QUALIFIER_COUNT ==> Names(syms, s.Wanted(q), e.Wanted(q))
  }

  /** Instruction id (counted from one) is the root of a compiled copy of e. */
  predicate Codes(c: Code, syms: seq<string>, id: nat, e: Expression)
    decreases e
  {
    Aligned(c) && ValidID(id, |c.opcodes|) &&
    var i := id - 1;
    match e.op
    case All =>
      && c.opcodes[i] == OP_ALL && c.operandCounts[i] == |e.children|
      && ValidRange(c.operandStarts[i], c.operandCounts[i], |c.operands|)
      && forall j :: 0 <= j < |e.children| ==> Codes(c, syms, c.operands[c.operandStarts[i] + j], e.children[j])
    case Equal =>
      && c.opcodes[i] == OP_EQUAL && c.fields[i] == LookupField(e.field) && Names(syms, c.values[i], e.value)
    case In =>
      && c.opcodes[i] == OP_IN && c.fields[i] == LookupField(e.field) && c.setCounts[i] == |e.values|
      && ValidRange(c.setStarts[i], c.setCounts[i], |c.setValues|)
      && forall j :: 0 <= j < |e.values| ==> Names(syms, c.setValues[c.setStarts[i] + j], e.values[j])
    case EvidenceMatches =>
      && c.opcodes[i] == OP_EVIDENCE && ValidID(c.evidenceSpecIndexes[i], |c.evidenceSpecs|)
      && SpecCodes(c, syms, c.evidenceSpecs[c.evidenceSpecIndexes[i] - 1], e.evidence)
    case UnknownOperator(_) => false
  }

  /** Every column of d starts with the column of c. */
  predicate Grows(c: Code, d: Code) {
    && c.opcodes <= d.opcodes && c.fields <= d.fields && c.values <= d.values
    && c.operandStarts <= d.operandStarts && c.operandCounts <= d.operandCounts && c.operands <= d.operands
    && c.setStarts <= d.setStarts && c.setCounts <= d.setCounts && c.setValues <= d.setValues
    && c.evidenceSpecIndexes <= d.evidenceSpecIndexes && c.evidenceSpecs <= d.evidenceSpecs
    && c.evidenceKindSymbols <= d.evidenceKindSymbols
  }

  /** Appending code and symbols later never changes what earlier code stands for. */
  lemma {:induction false} CodesGrow(c: Code, syms: seq<string>, d: Code, more: seq<string>, id: nat, e: Expression)
    requires Codes(c, syms, id, e) && Grows(c, d) && Aligned(d) && syms <= more
    ensures Codes(d, more, id, e)
    decreases e
  {
    hide LookupField;
    if e.op.All? {
      forall j | 0 <= j < |e.children|
        ensures Codes(d, more, d.operands[d.operandStarts[id - 1] + j], e.children[j])
      {
        CodesGrow(c, syms, d, more, c.operands[c.operandStarts[id - 1] + j], e.children[j]);
      }
    } else if e.op.EvidenceMatches? {
      assert SpecCodes(d, more, d.evidenceSpecs[d.evidenceSpecIndexes[id - 1] - 1], e.evidence);
    }
  }

  // ----- meaning is preserved

  lemma {:induction false} GradesAgree(t: SymbolTable, c: Code, syms: seq<string>, s: EvidenceSpec,
                                       e: EvidencePredicate, have: Evidence)
    requires Spells(t, syms) && Interned(syms) && KindsCoded(c, syms) && SpecCodes(c, syms, s, e)
    ensures SpecGrade(s, SymbolicRecord(t, c.evidenceKindSymbols, have)) == RecordGrade(e, have)
  {
    hide LookupSymbol, Symbol, SpellsAt, EvidenceSpec.Wanted, EvidencePredicate.Wanted, Evidence.Qualifier,
         Evidence.Conflicting, Evidence.Stale, Evidence.Revoked;
    var r := SymbolicRecord(t, c.evidenceKindSymbols, have);
    KindEquality(t, c, syms, have.kind, s.kind, e.kind);
    forall q | 0 <= q < QUALIFIER_COUNT
      ensures WrongMark(s, r, q) == WrongQualifier(e, have, q)
      ensures OpenMark(s, r, q) == OpenQualifier(e, have, q)
    {
      assert Names(syms, s.Wanted(q), e.Wanted(q));
      assert r.At(q) == SymbolicMark(t, have.Qualifier(q));
      if e.Wanted(q) != "" { SymbolEquality(t, syms, have.Qualifier(q), s.Wanted(q), e.Wanted(q)); }
    }
    QualifierGradesAgree(s, r, e, have);
  }

  lemma {:induction false} QualifierGradesAgree(s: EvidenceSpec, r: Record, e: EvidencePredicate, have: Evidence)
    requires forall q :: 0 <= q < QUALIFIER_COUNT ==>
      WrongMark(s, r, q) == WrongQualifier(e, have, q) && OpenMark(s, r, q) == OpenQualifier(e, have, q)
    ensures MarkGrade(s, r) == QualifierGrade(e, have)
  {}

  lemma {:induction false} ListGradesAgree(t: SymbolTable, c: Code, syms: seq<string>, s: EvidenceSpec,
                                           e: EvidencePredicate, pack: seq<Evidence>, ids: seq<string>, refs: seq<nat>)
    requires Spells(t, syms) && Interned(syms) && KindsCoded(c, syms) && SpecCodes(c, syms, s, e)
    requires |refs| == |ids| && forall k :: 0 <= k < |ids| ==> refs[k] == Resolve(pack, ids[k])
    ensures EdgesGrade(s, SymbolicRecords(t, c.evidenceKindSymbols, pack), refs) == ListGrade(e, pack, ids)
  {
    hide SpellsAt, SpecCodes, SpecGrade, RecordGrade, SymbolicRecord;
    if ids != [] {
      var last := |ids| - 1;
      ListGradesAgree(t, c, syms, s, e, pack, ids[..last], refs[..last]);
      if refs[last] != 0 { GradesAgree(t, c, syms, s, e, pack[refs[last] - 1]); }
    }
  }

  lemma {:induction false} SetMembership(t: SymbolTable, syms: seq<string>, ids: seq<nat>, texts: seq<string>,
                                         value: string)
    requires Spells(t, syms) && Interned(syms) && |ids| == |texts|
    requires forall j :: 0 <= j < |texts| ==> texts[j] != "" && Names(syms, ids[j], texts[j])
    ensures LookupSymbol(t, value) in ids <==> value in texts
  {
    hide LookupSymbol, Symbol, SpellsAt;
    forall j | 0 <= j < |texts|
      ensures LookupSymbol(t, value) == ids[j] <==> value == texts[j]
    {
      SymbolEquality(t, syms, value, ids[j], texts[j]);
    }
  }

  /** Expression compilation preserves meaning: the verdict at the compiled root, after the whole
      program has run on the symbolic view of a request, is the verdict of the source expression on
      the raw strings. */
  lemma {:induction false} CompiledExpressionMeans(
    t: SymbolTable, c: Code, syms: seq<string>, id: nat, e: Expression, depth: nat, allowEvidence: bool,
    request: Request, pack: seq<Evidence>)
    requires Spells(t, syms) && Interned(syms) && KindsCoded(c, syms) && CodeSafe(c)
    requires Codes(c, syms, id, e) && ExpressionValid(e, depth, allowEvidence)
    ensures VerdictAt(c, SymbolicRow(t, request, pack), SymbolicRecords(t, c.evidenceKindSymbols, pack), id)
         == EvalExpression(e, request, pack)
    decreases e
  {
    hide LookupField, ValidFieldValue, Trim, LookupSymbol, SpellsAt, Interned, KindsCoded, Conj, FieldIssue,
         SymbolicCell, FieldVerdict, CellVerdict, NodeValid, SpecCodes, SymbolicRecords, Run,
         ValidEvidenceKind;
    var row, records := SymbolicRow(t, request, pack), SymbolicRecords(t, c.evidenceKindSymbols, pack);
    var i := id - 1;
    var done := Run(c, row, records, i);
    VerdictAtStep(c, row, records, i);
    match e.op {
      case All =>
        var vs := OperandVerdicts(c, i, done);
        forall j | 0 <= j < |e.children|
          ensures vs[j] == EvalExpression(e.children[j], request, pack)
        {
          assert OperandValid(c, i, j);
          var operand := c.operands[c.operandStarts[i] + j];
          assert ExpressionValid(e.children[j], depth + 1, allowEvidence);
          CompiledExpressionMeans(t, c, syms, operand, e.children[j], depth + 1, allowEvidence, request, pack);
          RunPrefix(c, row, records, i, |c.opcodes|);
        }
        assert vs == seq(|e.children|, j requires 0 <= j < |e.children| => EvalExpression(e.children[j], request, pack));
      case Equal =>
        EqualMeans(t, c, syms, i, e, allowEvidence, request, pack);
      case In =>
        InMeans(t, c, syms, i, e, allowEvidence, request, pack);
      case EvidenceMatches =>
        ListGradesAgree(t, c, syms, c.evidenceSpecs[c.evidenceSpecIndexes[i] - 1], e.evidence, pack,
                        request.evidenceIDs, row.refs);
      case UnknownOperator(_) =>
    }
  }

  lemma {:induction false} EqualMeans(t: SymbolTable, c: Code, syms: seq<string>, i: nat, e: Expression,
                                      allowEvidence: bool, request: Request, pack: seq<Evidence>)
    requires Spells(t, syms) && Interned(syms) && Aligned(c) && i < |c.opcodes| && ValidField(c.fields[i])
    requires e.op.Equal? && Codes(c, syms, i + 1, e) && NodeValid(e, allowEvidence)
    ensures var cell := SymbolicRow(t, request, pack).At(c.fields[i]);
      CellVerdict(cell, cell.symbol == c.values[i]) == EvalExpression(e, request, pack)
  {
    hide LookupField, ValidFieldValue, LookupSymbol, SpellsAt, Interned, Request.Field, SymbolicRow;
    SymbolicRowAt(t, request, pack, c.fields[i]);
    assert e.value != "";
    SymbolEquality(t, syms, request.Field(c.fields[i]), c.values[i], e.value);
  }

  lemma {:induction false} InMeans(t: SymbolTable, c: Code, syms: seq<string>, i: nat, e: Expression,
                                   allowEvidence: bool, request: Request, pack: seq<Evidence>)
    requires Spells(t, syms) && Interned(syms) && Aligned(c) && i < |c.opcodes| && StepSafe(c, i)
    requires ValidField(c.fields[i])
    requires e.op.In? && Codes(c, syms, i + 1, e) && NodeValid(e, allowEvidence)
    ensures var cell := SymbolicRow(t, request, pack).At(c.fields[i]);
      CellVerdict(cell, cell.symbol in SetOf(c, i)) == EvalExpression(e, request, pack)
  {
    hide LookupField, ValidFieldValue, LookupSymbol, SpellsAt, Interned, Request.Field, SymbolicRow;
    SymbolicRowAt(t, request, pack, c.fields[i]);
    forall j | 0 <= j < |e.values|
      ensures e.values[j] != "" && Names(syms, SetOf(c, i)[j], e.values[j])
    {
      assert Trim(e.values[j]) != "";
    }
    SetMembership(t, syms, SetOf(c, i), e.values, request.Field(c.fields[i]));
  }
}
