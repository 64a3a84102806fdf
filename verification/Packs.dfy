/** Which packs the batch builder accepts, and what the batch built from one has to show
    (internal/eval/builder.go). */
module Packs {
  import opened Schema
  import opened Reference
  import opened Programs
  import opened Rows
  import opened Lowering
  import opened Batches
  import opened Stores

  datatype Limits = Limits(maxRows: nat, maxEvidence: nat, maxEdges: nat)

  predicate LimitsFit(l: Limits) {
    l.maxRows <= MAX_UINT32 && l.maxEvidence <= MAX_UINT32 && l.maxEdges <= MAX_UINT32
  }

  /** Nonempty, and without surrounding space. */
  predicate GoodID(id: string) {
    Trim(id) != "" && Trim(id) == id
  }

  predicate RequestGood(requests: seq<Request>, i: nat)
    requires i < |requests|
  {
    && GoodID(requests[i].id) && (forall j :: 0 <= j < i ==> requests[j].id != requests[i].id)
    && RefsGood(requests[i].evidenceIDs)
  }

  predicate RefsGood(ids: seq<string>) {
    forall k :: 0 <= k < |ids| ==> GoodID(ids[k])
  }

  predicate EvidenceGood(pack: seq<Evidence>, i: nat)
    requires i < |pack|
  {
    GoodID(pack[i].id) && forall j :: 0 <= j < i ==> pack[j].id != pack[i].id
  }

  /** The number of evidence references of the first k requests. */
  function EdgeTotal(requests: seq<Request>, k: nat): nat
    requires k <= |requests|
  {
    if k == 0 then 0 else EdgeTotal(requests, k - 1) + |requests[k - 1].evidenceIDs|
  }

  lemma {:induction false} EdgeTotalStep(requests: seq<Request>, r: nat)
    requires r < |requests|
    ensures EdgeTotal(requests, r + 1) == EdgeTotal(requests, r) + |requests[r].evidenceIDs|
  {}

  lemma {:induction false} NoEdges(requests: seq<Request>, pack: seq<Evidence>)
    ensures EdgeTotal(requests, 0) == 0 && AllRefs(requests, pack, 0) == []
  {}

  lemma {:induction false} EdgeTotalGrows(requests: seq<Request>, j: nat, k: nat)
    requires j <= k <= |requests|
    ensures EdgeTotal(requests, j) <= EdgeTotal(requests, k)
  {
    if j < k { EdgeTotalGrows(requests, j, k - 1); }
  }

  predicate PackAccepted(l: Limits, requests: seq<Request>, pack: seq<Evidence>) {
    && |requests| <= l.maxRows && |pack| <= l.maxEvidence && EdgeTotal(requests, |requests|) <= l.maxEdges
    && (forall i :: 0 <= i < |requests| ==> RequestGood(requests, i))
    && (forall i :: 0 <= i < |pack| ==> EvidenceGood(pack, i))
  }

  // ----- references

  function ResolvedRefs(request: Request, pack: seq<Evidence>): (rs: seq<nat>)
    ensures |rs| == |request.evidenceIDs| && forall k :: 0 <= k < |rs| ==> rs[k] <= |pack|
  {
    seq(|request.evidenceIDs|, k requires 0 <= k < |request.evidenceIDs| => Resolve(pack, request.evidenceIDs[k]))
  }

  /** The references of the first k requests, in request order. */
  function AllRefs(requests: seq<Request>, pack: seq<Evidence>, k: nat): (rs: seq<nat>)
    requires k <= |requests|
    ensures |rs| == EdgeTotal(requests, k) && forall i :: 0 <= i < |rs| ==> rs[i] <= |pack|
  {
    if k == 0 then [] else AllRefs(requests, pack, k - 1) + ResolvedRefs(requests[k - 1], pack)
  }

  lemma {:induction false} AllRefsSegment(requests: seq<Request>, pack: seq<Evidence>, r: nat, k: nat)
    requires r < k <= |requests|
    ensures EdgeTotal(requests, r) <= EdgeTotal(requests, r + 1) <= |AllRefs(requests, pack, k)|
    ensures AllRefs(requests, pack, k)[EdgeTotal(requests, r)..EdgeTotal(requests,
        r + 1)] == ResolvedRefs(requests[r], pack)
  {
    hide Resolve;
    EdgeTotalGrows(requests, r + 1, k);
    if r + 1 < k { AllRefsSegment(requests, pack, r, k - 1); }
  }

  // ----- the built batch

  predicate CellsFilled(b: Batch, t: SymbolTable, requests: seq<Request>, row: nat, f: nat)
    requires ColumnsShaped(b) && b.rows == |requests|
  {
    forall g: nat, r: nat | 1 <= g < FIELD_COUNT && r < b.rows :: CellFilled(b, t, requests, row, f, g, r)
  }

  /** Cells before field f of this row are filled, the others are blank. */
  predicate CellFilled(b: Batch, t: SymbolTable, requests: seq<Request>, row: nat, f: nat, g: nat, r: nat)
    requires ColumnsShaped(b) && b.rows == |requests| && 1 <= g < FIELD_COUNT && r < b.rows
  {
    CellOf(b, g, r) == if r < row || (r == row && g < f) then SymbolicCell(t, requests[r], g) else BLANK_CELL
  }

  predicate RecordsFilled(b: Batch, t: SymbolTable, kinds: seq<nat>, pack: seq<Evidence>, k: nat)
    requires EvidenceShaped(b) && |b.kinds| == |pack|
  {
    forall j: nat | j < |pack| :: RecordFilled(b, t, kinds, pack, k, j)
  }

  predicate RecordFilled(b: Batch, t: SymbolTable, kinds: seq<nat>, pack: seq<Evidence>, k: nat, j: nat)
    requires EvidenceShaped(b) && |b.kinds| == |pack| && j < |pack|
  {
    if j < k then RecordOf(b, j) == SymbolicRecord(t, kinds, pack[j]) else BlankRecord(RecordOf(b, j))
  }

  predicate EdgesFilled(b: Batch, requests: seq<Request>, pack: seq<Evidence>)
    requires b.rows == |requests|
  {
    && |b.offsets| == b.rows + 1
    && (forall r :: 0 <= r <= b.rows ==> b.offsets[r] == EdgeTotal(requests, r))
    && b.refs == AllRefs(requests, pack, |requests|)
  }

  /** Every row and every record of the batch is the symbolic view of its request or record: a
      symbol, a present bit, a valid bit, an issue bit or a flag is set exactly when the source
      strings say so, and the edges are the requests' references in request order. */
  predicate Represents(b: Batch, t: SymbolTable, kinds: seq<nat>, requests: seq<Request>, pack: seq<Evidence>) {
    && b.rows == |requests| && b.words == WordCount(b.rows) && BatchShaped(b) && EdgesFilled(b, requests, pack)
    && (forall r :: 0 <= r < b.rows ==> RowOf(b, r) == SymbolicRow(t, requests[r], pack))
    && RecordsOf(b) == SymbolicRecords(t, kinds, pack)
  }

  lemma {:induction false} FilledEdges(b: Batch, requests: seq<Request>, pack: seq<Evidence>)
    requires b.rows == |requests| && |b.kinds| == |pack| && EdgesFilled(b, requests, pack)
    ensures EdgesShaped(b)
  {
    hide AllRefs, Resolve;
    forall r | 0 <= r <= b.rows
      ensures b.offsets[r] <= |b.refs| && (r < b.rows ==> b.offsets[r] <= b.offsets[r + 1])
    {
      EdgeTotalGrows(requests, r, |requests|);
      if r < b.rows { EdgeTotalGrows(requests, r, r + 1); }
    }
  }

  lemma {:induction false} FilledRow(b: Batch, t: SymbolTable, requests: seq<Request>, pack: seq<Evidence>, r: nat)
    requires b.rows == |requests| && BatchShaped(b) && EdgesFilled(b, requests, pack) && r < b.rows
    requires CellsFilled(b, t, requests, |requests|, FIELD_REQUESTER)
    ensures RowOf(b, r) == SymbolicRow(t, requests[r], pack)
  {
    hide ColumnsShaped, EvidenceShaped, EdgesShaped, SymbolicCell, CellOf, AllRefs, Resolve;
    AllRefsSegment(requests, pack, r, |requests|);
    forall k | 0 <= k < FIELD_COUNT - 1
      ensures RowOf(b, r).cells[k] == SymbolicRow(t, requests[r], pack).cells[k]
    {
      assert CellFilled(b, t, requests, |requests|, FIELD_REQUESTER, k + 1, r);
    }
  }

  lemma {:induction false} FilledRepresents(b: Batch, t: SymbolTable, kinds: seq<nat>, requests: seq<Request>,
                                            pack: seq<Evidence>)
    requires b.rows == |requests| && b.words == WordCount(b.rows) && |b.kinds| == |pack|
    requires ColumnsShaped(b) && EvidenceShaped(b) && EdgesFilled(b, requests, pack)
    requires CellsFilled(b, t, requests, |requests|, FIELD_REQUESTER)
    requires RecordsFilled(b, t, kinds, pack, |pack|)
    ensures Represents(b, t, kinds, requests, pack)
  {
    hide ColumnsShaped, EvidenceShaped, EdgesShaped, EdgesFilled, CellsFilled, SymbolicRecord, RecordOf, RowOf,
         SymbolicRow;
    FilledEdges(b, requests, pack);
    forall r | 0 <= r < b.rows
      ensures RowOf(b, r) == SymbolicRow(t, requests[r], pack)
    {
      FilledRow(b, t, requests, pack, r);
    }
    forall j: nat | j < |pack|
      ensures RecordOf(b, j) == SymbolicRecord(t, kinds, pack[j])
    {
      assert RecordFilled(b, t, kinds, pack, |pack|, j);
    }
  }
}
