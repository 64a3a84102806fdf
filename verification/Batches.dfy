/** The numeric batch that the evaluator reads (internal/eval/batch.go): field-major request columns,
    bitplanes, evidence columns and CSR edges. The eight evidence qualifier columns of the source
    are one family indexed by qualifier. */
module Batches {
  import opened Schema
  import opened Bits
  import opened Planes
  import opened Rows

  const FLAG_CONFLICT := 0
  const FLAG_STALE := 1
  const FLAG_REVOKED := 2

  datatype Batch = Batch(
    rows: nat, words: nat,
    values: seq<nat>, present: seq<nat>, valid: seq<nat>, issueMasks: seq<nat>,
    kinds: seq<nat>, qualifiers: seq<seq<nat>>, presentMasks: seq<nat>, flags: seq<nat>,
    offsets: seq<nat>, refs: seq<nat>)

  /** ceil(rows / 64). */
  function WordCount(rows: nat): nat {
    (rows + 63) / 64
  }

  predicate ColumnsShaped(b: Batch) {
    && |b.values| == (FIELD_COUNT - 1) * b.rows
    && |b.present| == (FIELD_COUNT - 1) * WordCount(b.rows)
    && |b.valid| == (FIELD_COUNT - 1) * WordCount(b.rows)
    && |b.issueMasks| == b.rows
  }

  predicate EvidenceShaped(b: Batch) {
    && |b.qualifiers| == QUALIFIER_COUNT
    && (forall q :: 0 <= q < QUALIFIER_COUNT ==> |b.qualifiers[q]| == |b.kinds|)
    && |b.presentMasks| == |b.kinds| && |b.flags| == |b.kinds|
  }

  predicate EdgesShaped(b: Batch) {
    && |b.offsets| == b.rows + 1
    && (forall i :: 0 <= i < |b.offsets| ==> b.offsets[i] <= |b.refs|)
    && (forall i :: 0 <= i < b.rows ==> b.offsets[i] <= b.offsets[i + 1])
    && b.offsets[b.rows] == |b.refs|
    && (forall i :: 0 <= i < |b.refs| ==> b.refs[i] <= |b.kinds|)
  }

  predicate BatchShaped(b: Batch) {
    ColumnsShaped(b) && EvidenceShaped(b) && EdgesShaped(b)
  }

  /** The place of one cell in the field-major value column. */
  function ValueIndex(rows: nat, f: nat, row: nat): nat
    requires f >= 1
  {
    (f - 1) * rows + row
  }

  lemma {:induction false} ValueIndexFits(rows: nat, f: nat, row: nat)
    requires 1 <= f < FIELD_COUNT && row < rows
    ensures ValueIndex(rows, f, row) < (FIELD_COUNT - 1) * rows
  {
    MulStep(f - 1, FIELD_COUNT - 1, rows);
  }

  function CellOf(b: Batch, f: nat, row: nat): Cell
    requires ColumnsShaped(b) && row < b.rows && 1 <= f < FIELD_COUNT
  {
    ValueIndexFits(b.rows, f, row);
    Cell(b.values[ValueIndex(b.rows, f, row)],
         PlaneBit(b.present, b.words, f - 1, row),
         PlaneBit(b.valid, b.words, f - 1, row),
         BitAt(b.issueMasks[row], f - 1))
  }

  function RowOf(b: Batch, row: nat): (v: RowView)
    requires BatchShaped(b) && row < b.rows
    ensures forall f :: 1 <= f < FIELD_COUNT ==> v.At(f) == CellOf(b, f, row)
  {
    RowView(seq(FIELD_COUNT - 1, k requires 0 <= k < FIELD_COUNT - 1 => CellOf(b, k + 1, row)),
            b.refs[b.offsets[row]..b.offsets[row + 1]])
  }

  function RecordOf(b: Batch, i: nat): (r: Record)
    requires EvidenceShaped(b) && i < |b.kinds|
    ensures forall q :: 0 <= q < QUALIFIER_COUNT ==>
      r.At(q) == Mark(b.qualifiers[q][i], BitAt(b.presentMasks[i], q))
  {
    Record(b.kinds[i],
           seq(QUALIFIER_COUNT, q requires 0 <= q < QUALIFIER_COUNT =>
             Mark(b.qualifiers[q][i], BitAt(b.presentMasks[i], q))),
           BitAt(b.flags[i], FLAG_CONFLICT), BitAt(b.flags[i], FLAG_STALE), BitAt(b.flags[i], FLAG_REVOKED))
  }

  function RecordsOf(b: Batch): seq<Record>
    requires EvidenceShaped(b)
  {
    seq(|b.kinds|, i requires 0 <= i < |b.kinds| => RecordOf(b, i))
  }
}
