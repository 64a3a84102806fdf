/** What single writes do to a batch: each changes one cell, mark, kind or flag and nothing else
    (the column writes of internal/eval/builder.go). */
module Filling {
  import opened Schema
  import opened Bits
  import opened Planes
  import opened Rows
  import opened Batches

  predicate CellPlace(b: Batch, f: nat, row: nat) {
    ColumnsShaped(b) && b.words == WordCount(b.rows) && row < b.rows && 1 <= f < FIELD_COUNT
  }

  lemma {:induction false} PlaceFits(b: Batch, f: nat, row: nat)
    requires CellPlace(b, f, row)
    ensures ValueIndex(b.rows, f, row) < |b.values|
    ensures row / 64 < b.words && WordIndex(b.words, f - 1, row) < |b.present|
    ensures |b.valid| == |b.present|
  {
    ValueIndexFits(b.rows, f, row);
    PlaneFits(f - 1, FIELD_COUNT - 1, b.words, row);
  }

  lemma {:induction false} ValueIndexInjective(rows: nat, f: nat, row: nat, g: nat, r: nat)
    requires row < rows && r < rows && f >= 1 && g >= 1
    ensures ValueIndex(rows, f, row) == ValueIndex(rows, g, r) <==> f == g && row == r
  {
    if f < g { MulStep(f - 1, g - 1, rows); } else if g < f { MulStep(g - 1, f - 1, rows); }
  }

  function WithSymbol(b: Batch, f: nat, row: nat, symbol: nat): Batch
    requires f >= 1 && ValueIndex(b.rows, f, row) < |b.values|
  {
    b.(values := b.values[ValueIndex(b.rows, f, row) := symbol])
  }

  function WithPresent(b: Batch, f: nat, row: nat): Batch
    requires CellPlace(b, f, row)
  {
    PlaceFits(b, f, row);
    b.(present := SetRow(b.present, b.words, f - 1, row))
  }

  function WithValid(b: Batch, f: nat, row: nat): Batch
    requires CellPlace(b, f, row)
  {
    PlaceFits(b, f, row);
    b.(valid := SetRow(b.valid, b.words, f - 1, row))
  }

  function WithIssue(b: Batch, f: nat, row: nat): Batch
    requires CellPlace(b, f, row)
  {
    b.(issueMasks := b.issueMasks[row := SetBit(b.issueMasks[row], f - 1)])
  }

  /** The value column is field-major: the symbols of one field lie together, in row order. */
  lemma {:induction false} FieldColumn(b: Batch, f: nat, row: nat)
    requires CellPlace(b, f, row)
    ensures (f - 1) * b.rows + b.rows <= |b.values|
    ensures b.values[(f - 1) * b.rows..(f - 1) * b.rows + b.rows][row] == CellOf(b, f, row).symbol
  {
    hide PlaneBit, BitAt;
    PlaceFits(b, f, row);
    MulStep(f - 1, FIELD_COUNT - 1, b.rows);
  }

  /** b' differs from b in one cell only, which now reads c. */
  predicate CellBecomes(b: Batch, b': Batch, f: nat, row: nat, c: Cell) {
    && ColumnsShaped(b) && ColumnsShaped(b')
    && b' == b.(values := b'.values, present := b'.present, valid := b'.valid, issueMasks := b'.issueMasks)
    && forall g: nat, r: nat | 1 <= g < FIELD_COUNT && r < b.rows :: CellReads(b, b', f, row, c, g, r)
  }

  predicate CellReads(b: Batch, b': Batch, f: nat, row: nat, c: Cell, g: nat, r: nat)
    requires ColumnsShaped(b) && ColumnsShaped(b') && b'.rows == b.rows && 1 <= g < FIELD_COUNT && r < b.rows
  {
    CellOf(b', g, r) == if g == f && r == row then c else CellOf(b, g, r)
  }

  lemma {:induction false} WithSymbolReads(b: Batch, f: nat, row: nat, symbol: nat)
    requires CellPlace(b, f, row) && ValueIndex(b.rows, f, row) < |b.values|
    ensures CellBecomes(b, WithSymbol(b, f, row, symbol), f, row, CellOf(b, f, row).(symbol := symbol))
  {
    hide PlaneBit, BitAt, CellReads, WithSymbol, CellOf, ValueIndex;
    SymbolKeepsShape(b, f, row, symbol);
    forall g: nat, r: nat | 1 <= g < FIELD_COUNT && r < b.rows
      ensures CellReads(b, WithSymbol(b, f, row, symbol), f, row, CellOf(b, f, row).(symbol := symbol), g, r)
    {
      SymbolReads(b, f, row, symbol, g, r);
    }
  }

  lemma {:induction false} SymbolKeepsShape(b: Batch, f: nat, row: nat, symbol: nat)
    requires CellPlace(b, f, row) && ValueIndex(b.rows, f, row) < |b.values|
    ensures WithSymbol(b, f, row, symbol) == b.(values := WithSymbol(b, f, row, symbol).values)
    ensures |WithSymbol(b, f, row, symbol).values| == |b.values|
  {}

  lemma {:induction false} SymbolReads(b: Batch, f: nat, row: nat, symbol: nat, g: nat, r: nat)
    requires CellPlace(b, f, row) && ValueIndex(b.rows, f, row) < |b.values|
    requires 1 <= g < FIELD_COUNT && r < b.rows
    ensures ColumnsShaped(WithSymbol(b, f, row, symbol))
    ensures CellReads(b, WithSymbol(b, f, row, symbol), f, row, CellOf(b, f, row).(symbol := symbol), g, r)
  {
    hide PlaneBit, BitAt, WithSymbol, ValueIndex;
    SymbolKeepsShape(b, f, row, symbol);
    SymbolAt(b, f, row, symbol, g, r);
  }

  lemma {:induction false} SymbolAt(b: Batch, f: nat, row: nat, symbol: nat, g: nat, r: nat)
    requires CellPlace(b, f, row) && ValueIndex(b.rows, f, row) < |b.values|
    requires 1 <= g < FIELD_COUNT && r < b.rows
    ensures var j := ValueIndex(b.rows, g, r);
      && j < |b.values|
      && WithSymbol(b, f, row, symbol).values[j] == if g == f && r == row then symbol else b.values[j]
  {
    hide ValueIndex;
    ValueIndexInjective(b.rows, f, row, g, r);
    ValueIndexFits(b.rows, g, r);
  }

  lemma {:induction false} WithPresentReads(b: Batch, f: nat, row: nat)
    requires CellPlace(b, f, row)
    ensures CellBecomes(b, WithPresent(b, f, row), f, row, CellOf(b, f, row).(present := true))
  {
    hide PlaneBit, BitAt, SetRow;
    PlaceFits(b, f, row);
    SetRowEffect(b.present, b.words, f - 1, row);
    SetRowLength(b.present, b.words, f - 1, row);
  }

  lemma {:induction false} WithValidReads(b: Batch, f: nat, row: nat)
    requires CellPlace(b, f, row)
    ensures CellBecomes(b, WithValid(b, f, row), f, row, CellOf(b, f, row).(valid := true))
  {
    hide PlaneBit, BitAt, SetRow;
    PlaceFits(b, f, row);
    SetRowEffect(b.valid, b.words, f - 1, row);
    SetRowLength(b.valid, b.words, f - 1, row);
  }

  lemma {:induction false} SetRowLength(store: seq<nat>, words: nat, plane: nat, row: nat)
    requires row / 64 < words && WordIndex(words, plane, row) < |store|
    ensures |SetRow(store, words, plane, row)| == |store|
  {}

  lemma {:induction false} WithIssueReads(b: Batch, f: nat, row: nat)
    requires CellPlace(b, f, row)
    ensures CellBecomes(b, WithIssue(b, f, row), f, row, CellOf(b, f, row).(issue := true))
  {
    hide PlaneBit, BitAt, SetBit;
    var b' := WithIssue(b, f, row);
    forall g: nat, r: nat | 1 <= g < FIELD_COUNT && r < b.rows
      ensures CellReads(b, b', f, row, CellOf(b, f, row).(issue := true), g, r)
    {
      SetBitReads(b.issueMasks[row], g - 1, f - 1);
    }
  }

  // ----- records

  predicate MarkPlace(b: Batch, q: nat, i: nat) {
    EvidenceShaped(b) && q < QUALIFIER_COUNT && i < |b.kinds|
  }

  function WithMark(b: Batch, q: nat, i: nat, symbol: nat): Batch
    requires MarkPlace(b, q, i)
  {
    var column: seq<nat> := b.qualifiers[q][i := symbol];
    b.(qualifiers := b.qualifiers[q := column],
       presentMasks := b.presentMasks[i := SetBit(b.presentMasks[i], q)])
  }

  /** b' differs from b in one record only, which now reads e. */
  predicate RecordBecomes(b: Batch, b': Batch, i: nat, e: Record) {
    && EvidenceShaped(b) && EvidenceShaped(b') && |b'.kinds| == |b.kinds|
    && b' == b.(kinds := b'.kinds, qualifiers := b'.qualifiers, presentMasks := b'.presentMasks, flags := b'.flags)
    && forall j: nat | j < |b.kinds| :: RecordReads(b, b', i, e, j)
  }

  predicate RecordReads(b: Batch, b': Batch, i: nat, e: Record, j: nat)
    requires EvidenceShaped(b) && EvidenceShaped(b') && |b'.kinds| == |b.kinds| && j < |b.kinds|
  {
    RecordOf(b', j) == if j == i then e else RecordOf(b, j)
  }

  lemma {:induction false} WithMarkReads(b: Batch, q: nat, i: nat, symbol: nat)
    requires MarkPlace(b, q, i)
    ensures RecordBecomes(b, WithMark(b, q, i, symbol), i,
                          RecordOf(b, i).(marks := RecordOf(b, i).marks[q := Mark(symbol, true)]))
  {
    hide BitAt, SetBit;
    var b', e := WithMark(b, q, i, symbol), RecordOf(b, i).(marks := RecordOf(b, i).marks[q := Mark(symbol, true)]);
    forall j: nat | j < |b.kinds|
      ensures RecordReads(b, b', i, e, j)
    {
      forall p | 0 <= p < QUALIFIER_COUNT
        ensures RecordOf(b', j).marks[p] == (if j == i then e.marks[p] else RecordOf(b, j).marks[p])
      {
        SetBitReads(b.presentMasks[i], p, q);
      }
      assert RecordOf(b', j).marks == if j == i then e.marks else RecordOf(b, j).marks;
    }
  }

  function WithKind(b: Batch, i: nat, kind: nat): Batch
    requires EvidenceShaped(b) && i < |b.kinds|
  {
    b.(kinds := b.kinds[i := kind])
  }

  lemma {:induction false} WithKindReads(b: Batch, i: nat, kind: nat)
    requires EvidenceShaped(b) && i < |b.kinds|
    ensures RecordBecomes(b, WithKind(b, i, kind), i, RecordOf(b, i).(kind := kind))
  {
    hide BitAt;
    var b' := WithKind(b, i, kind);
    forall j: nat | j < |b.kinds|
      ensures RecordReads(b, b', i, RecordOf(b, i).(kind := kind), j)
    {
      assert RecordOf(b', j).marks == RecordOf(b, j).marks;
    }
  }

  function WithFlag(b: Batch, i: nat, flag: nat): Batch
    requires EvidenceShaped(b) && i < |b.kinds|
  {
    b.(flags := b.flags[i := SetBit(b.flags[i], flag)])
  }

  function Flagged(e: Record, flag: nat): Record {
    e.(conflict := e.conflict || flag == FLAG_CONFLICT, stale := e.stale || flag == FLAG_STALE,
       revoked := e.revoked || flag == FLAG_REVOKED)
  }

  lemma {:induction false} WithFlagReads(b: Batch, i: nat, flag: nat)
    requires EvidenceShaped(b) && i < |b.kinds|
    ensures RecordBecomes(b, WithFlag(b, i, flag), i, Flagged(RecordOf(b, i), flag))
  {
    hide BitAt, SetBit;
    var b' := WithFlag(b, i, flag);
    forall j: nat | j < |b.kinds|
      ensures RecordReads(b, b', i, Flagged(RecordOf(b, i), flag), j)
    {
      SetBitReads(b.flags[i], FLAG_CONFLICT, flag);
      SetBitReads(b.flags[i], FLAG_STALE, flag);
      SetBitReads(b.flags[i], FLAG_REVOKED, flag);
      assert RecordOf(b', j).marks == RecordOf(b, j).marks;
    }
  }
}
