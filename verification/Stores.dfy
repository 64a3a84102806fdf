/** The reusable batch that the builder fills (the destination of internal/eval/builder.go): every
    column is growable storage that may still hold what an earlier pack left there. */
module Stores {
  import opened Schema
  import opened Slices
  import opened Bits
  import opened Planes
  import opened Rows
  import opened Batches

  class BatchStore {
    var rows: nat
    var words: nat
    var values: Slice<nat>
    var present: Slice<nat>
    var valid: Slice<nat>
    var issueMasks: Slice<nat>
    var kinds: Slice<nat>
    var qualifiers: seq<Slice<nat>>
    var presentMasks: Slice<nat>
    var flags: Slice<nat>
    var offsets: Slice<nat>
    var refs: Slice<nat>

    constructor ()
      ensures |qualifiers| == QUALIFIER_COUNT
    {
      rows, words := 0, 0;
      values, present, valid, issueMasks := Slice([], []), Slice([], []), Slice([], []), Slice([], []);
      kinds, presentMasks, flags := Slice([], []), Slice([], []), Slice([], []);
      qualifiers := seq(QUALIFIER_COUNT, _ => Slice([], []));
      offsets, refs := Slice([], []), Slice([], []);
    }

    /** The columns as the evaluator reads them. */
    function Value(): Batch
      reads this
    {
      Batch(rows, words, values.items, present.items, valid.items, issueMasks.items, kinds.items,
            seq(|qualifiers|, q requires 0 <= q < |qualifiers| reads this => qualifiers[q].items),
            presentMasks.items, flags.items, offsets.items, refs.items)
    }

    /** All the resizeClear calls: zero columns of the new shape, whatever was stored before. */
    method Resize(rows': nat, records: nat, edges: nat)
      requires |qualifiers| == QUALIFIER_COUNT
      modifies this
      ensures |qualifiers| == QUALIFIER_COUNT
      ensures Value() == BlankBatch(rows', records, edges)
    {
      hide Fill, WordCount, ResizeClear;
      ResizeRows(rows');
      ResizeRecords(records);
      offsets := ResizeClear(offsets, rows' + 1, 0);
      refs := ResizeClear(refs, edges, 0);
      rows, words := rows', WordCount(rows');
      forall q | 0 <= q < QUALIFIER_COUNT
        ensures Value().qualifiers[q] == BlankBatch(rows', records, edges).qualifiers[q]
      {}
      assert Value().qualifiers == BlankBatch(rows', records, edges).qualifiers;
    }

    method ResizeRows(rows': nat)
      modifies this`values, this`present, this`valid, this`issueMasks
      ensures values.items == Fill((FIELD_COUNT - 1) * rows', 0)
      ensures present.items == Fill((FIELD_COUNT - 1) * WordCount(rows'), 0)
      ensures valid.items == Fill((FIELD_COUNT - 1) * WordCount(rows'), 0)
      ensures issueMasks.items == Fill(rows', 0)
    {
      values := ResizeClear(values, (FIELD_COUNT - 1) * rows', 0);
      present := ResizeClear(present, (FIELD_COUNT - 1) * WordCount(rows'), 0);
      valid := ResizeClear(valid, (FIELD_COUNT - 1) * WordCount(rows'), 0);
      issueMasks := ResizeClear(issueMasks, rows', 0);
    }

    method ResizeRecords(records: nat)
      requires |qualifiers| == QUALIFIER_COUNT
      modifies this`kinds, this`qualifiers, this`presentMasks, this`flags
      ensures |qualifiers| == QUALIFIER_COUNT
      ensures forall q :: 0 <= q < QUALIFIER_COUNT ==> qualifiers[q].items == Fill(records, 0)
      ensures kinds.items == presentMasks.items == flags.items == Fill(records, 0)
    {
      kinds := ResizeClear(kinds, records, 0);
      for q := 0 to QUALIFIER_COUNT
        invariant |qualifiers| == QUALIFIER_COUNT && kinds.items == Fill(records, 0)
        invariant forall p :: 0 <= p < q ==> qualifiers[p].items == Fill(records, 0)
      {
        qualifiers := qualifiers[q := ResizeClear(qualifiers[q], records, 0)];
      }
      presentMasks := ResizeClear(presentMasks, records, 0);
      flags := ResizeClear(flags, records, 0);
    }
  }

  function BlankBatch(rows: nat, records: nat, edges: nat): Batch {
    Batch(rows, WordCount(rows), Fill((FIELD_COUNT - 1) * rows, 0), Fill((FIELD_COUNT - 1) * WordCount(rows), 0),
          Fill((FIELD_COUNT - 1) * WordCount(rows), 0), Fill(rows, 0), Fill(records, 0),
          seq(QUALIFIER_COUNT, _ => Fill(records, 0)), Fill(records, 0), Fill(records, 0),
          Fill(rows + 1, 0), Fill(edges, 0))
  }

  /** After resizing nothing shows: no symbol, no bit, no record kind, no flag. */
  lemma {:induction false} BlankBatchReads(rows: nat, records: nat, edges: nat)
    ensures var b := BlankBatch(rows, records, edges);
      && ColumnsShaped(b) && EvidenceShaped(b)
      && (forall f: nat, r: nat | r < rows && 1 <= f < FIELD_COUNT :: CellOf(b, f, r) == BLANK_CELL)
      && (forall i: nat | i < records :: BlankRecord(RecordOf(b, i)))
  {
    hide CellOf, RecordOf, BlankRecord;
    var b := BlankBatch(rows, records, edges);
    forall f: nat, r: nat | r < rows && 1 <= f < FIELD_COUNT
      ensures CellOf(b, f, r) == BLANK_CELL
    {
      BlankCellReads(b, f, r);
    }
    forall i: nat | i < records
      ensures BlankRecord(RecordOf(b, i))
    {
      BlankRecordReads(b, i);
    }
  }

  predicate AllZero(column: seq<nat>) {
    forall i :: 0 <= i < |column| ==> column[i] == 0
  }

  lemma {:induction false} BlankCellReads(b: Batch, f: nat, r: nat)
    requires ColumnsShaped(b) && r < b.rows && 1 <= f < FIELD_COUNT
    requires AllZero(b.values) && AllZero(b.present) && AllZero(b.valid) && AllZero(b.issueMasks)
    ensures CellOf(b, f, r) == BLANK_CELL
  {
    hide PlaneBit, BitAt, WordCount;
    BlankStore(b.present, b.words);
    BlankStore(b.valid, b.words);
    ValueIndexFits(b.rows, f, r);
    BitAtZero(f - 1);
  }

  lemma {:induction false} BlankRecordReads(b: Batch, i: nat)
    requires EvidenceShaped(b) && i < |b.kinds|
    requires b == BlankBatch(b.rows, |b.kinds|, |b.refs|)
    ensures BlankRecord(RecordOf(b, i))
  {
    hide BitAt;
    BitAtZero(FLAG_CONFLICT); BitAtZero(FLAG_STALE); BitAtZero(FLAG_REVOKED);
    forall q | 0 <= q < QUALIFIER_COUNT
      ensures RecordOf(b, i).At(q) == Mark(0, false)
    {
      BitAtZero(q);
    }
  }

  predicate BlankRecord(r: Record) {
    && r.kind == 0 && !r.conflict && !r.stale && !r.revoked
    && forall q :: 0 <= q < QUALIFIER_COUNT ==> r.At(q) == Mark(0, false)
  }
}
