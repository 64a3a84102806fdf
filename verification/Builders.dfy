/** The batch builder: from request and evidence strings to columns, planes and edges
    (internal/eval/builder.go). */
module Builders {
  import opened Schema
  import opened Slices
  import opened Bits
  import opened Planes
  import opened Reference
  import opened Programs
  import opened Rows
  import opened Lowering
  import opened Batches
  import opened Stores
  import opened Filling
  import opened Packs

  /** The scratch map finds every record of the first k by its id, and nothing else. */
  ghost predicate Indexed(byID: map<string, nat>, pack: seq<Evidence>, k: nat)
    requires k <= |pack|
  {
    forall id :: IndexedAt(byID, pack, k, id)
  }

  ghost predicate IndexedAt(byID: map<string, nat>, pack: seq<Evidence>, k: nat, id: string)
    requires k <= |pack|
  {
    && (id in byID <==> FindRecord(pack, id, k) != 0)
    && (id in byID ==> byID[id] == FindRecord(pack, id, k))
  }

  lemma {:induction false} IndexedLookup(byID: map<string, nat>, pack: seq<Evidence>, k: nat, id: string)
    requires k <= |pack| && Indexed(byID, pack, k)
    ensures id in byID <==> exists i :: 0 <= i < k && pack[i].id == id
    ensures id in byID ==> byID[id] == FindRecord(pack, id, k)
    ensures id !in byID ==> FindRecord(pack, id, k) == 0
  {
    hide FindRecord;
    assert IndexedAt(byID, pack, k, id);
  }

  lemma {:induction false} IndexedStart(pack: seq<Evidence>)
    ensures Indexed(map[], pack, 0)
  {}

  lemma {:induction false} IndexedNext(byID: map<string, nat>, pack: seq<Evidence>, k: nat)
    requires k < |pack| && Indexed(byID, pack, k) && pack[k].id !in byID
    ensures Indexed(byID[pack[k].id := k + 1], pack, k + 1)
  {
    var next := k + 1;
    var m := byID[pack[k].id := next];
    forall id: string
      ensures IndexedAt(m, pack, next, id)
    {
      assert IndexedAt(byID, pack, k, id);
    }
  }

  class Builder {
    const limits: Limits
    var requestIDs: set<string>
    var evidenceByID: map<string, nat>

    constructor (limits: Limits)
      ensures this.limits == limits
    {
      this.limits := limits;
      requestIDs, evidenceByID := {}, map[];
    }

    // ----- validation; nothing but the scratch maps changes

    method CheckRequest(requests: seq<Request>, i: nat, edges: nat) returns (ok: bool, edges': nat)
      requires i < |requests| && edges == EdgeTotal(requests, i)
      requires forall id :: id in requestIDs <==> exists j :: 0 <= j < i && requests[j].id == id
      modifies this`requestIDs
      ensures ok <==> RequestGood(requests, i) && EdgeTotal(requests, i + 1) <= limits.maxEdges
      ensures ok ==> edges' == EdgeTotal(requests, i + 1)
      ensures ok ==> forall id :: id in requestIDs <==> exists j :: 0 <= j <= i && requests[j].id == id
    {
      hide Trim;
      edges' := edges;
      var id := requests[i].id;
      if Trim(id) == "" || Trim(id) != id { return false, edges'; }
      if id in requestIDs { return false, edges'; }
      requestIDs := requestIDs + {id};
      var ids := requests[i].evidenceIDs;
      edges' := edges' + |ids|;
      if edges' > limits.maxEdges { return false, edges'; }
      for k := 0 to |ids|
        invariant forall m :: 0 <= m < k ==> GoodID(ids[m])
      {
        if Trim(ids[k]) == "" || Trim(ids[k]) != ids[k] {
          assert !GoodID(ids[k]);
          return false, edges';
        }
      }
      ok := true;
    }

    method CheckRequests(requests: seq<Request>) returns (ok: bool, edges: nat)
      modifies this`requestIDs
      ensures ok <==> (forall i :: 0 <= i < |requests| ==> RequestGood(requests, i))
                      && EdgeTotal(requests, |requests|) <= limits.maxEdges
      ensures ok ==> edges == EdgeTotal(requests, |requests|)
    {
      hide RequestGood;
      requestIDs := {};
      edges := 0;
      for i := 0 to |requests|
        invariant edges == EdgeTotal(requests, i) <= limits.maxEdges
        invariant forall j :: 0 <= j < i ==> RequestGood(requests, j)
        invariant forall id :: id in requestIDs <==> exists j :: 0 <= j < i && requests[j].id == id
      {
        EdgeTotalGrows(requests, i + 1, |requests|);
        ok, edges := CheckRequest(requests, i, edges);
        if !ok { return; }
      }
      ok := true;
    }

    method CheckEvidence(pack: seq<Evidence>) returns (ok: bool)
      requires |pack| <= MAX_UINT32
      modifies this`evidenceByID
      ensures ok <==> forall i :: 0 <= i < |pack| ==> EvidenceGood(pack, i)
      ensures ok ==> Indexed(evidenceByID, pack, |pack|)
    {
      hide Trim, U32, Indexed;
      evidenceByID := map[];
      IndexedStart(pack);
      for i := 0 to |pack|
        invariant forall j :: 0 <= j < i ==> EvidenceGood(pack, j)
        invariant Indexed(evidenceByID, pack, i)
      {
        var id := pack[i].id;
        if Trim(id) == "" || Trim(id) != id { assert !EvidenceGood(pack, i); return false; }
        IndexedLookup(evidenceByID, pack, i, id);
        if id in evidenceByID { assert !EvidenceGood(pack, i); return false; }
        NarrowingLossless(i + 1);
        IndexedNext(evidenceByID, pack, i);
        evidenceByID := evidenceByID[id := U32(i + 1)];
      }
      ok := true;
    }

    // ----- filling

    /** The symbol of a blank cell. */
    method SetSymbol(dst: BatchStore, t: SymbolTable, row: nat, f: nat, value: string)
      requires CellPlace(dst.Value(), f, row) && CellOf(dst.Value(), f, row) == BLANK_CELL
      modifies dst`values
      ensures CellBecomes(old(dst.Value()), dst.Value(), f, row, BLANK_CELL.(symbol := LookupSymbol(t, value)))
    {
      hide ColumnsShaped, CellOf, CellReads, LookupSymbol, CellBecomes, CellPlace;
      ghost var b := dst.Value();
      PlaceFits(b, f, row);
      SamePlace(b, f, row);
      var symbol := LookupSymbol(t, value);
      if symbol != 0 {
        WithSymbolReads(b, f, row, symbol);
        dst.values := dst.values.Set(ValueIndex(dst.rows, f, row), symbol);
        assert dst.Value() == WithSymbol(b, f, row, symbol);
      }
    }

    method SetPresent(dst: BatchStore, row: nat, f: nat)
      requires CellPlace(dst.Value(), f, row)
      modifies dst`present
      ensures CellBecomes(old(dst.Value()), dst.Value(), f, row, CellOf(old(dst.Value()), f, row).(present := true))
    {
      hide ColumnsShaped, CellOf, CellReads, SetRow, CellBecomes, CellPlace;
      ghost var b := dst.Value();
      PlaceFits(b, f, row);
      WithPresentReads(b, f, row);
      dst.present := Slice(SetRow(dst.present.items, dst.words, f - 1, row), dst.present.spare);
      assert dst.Value() == WithPresent(b, f, row);
    }

    method SetValidOrIssue(dst: BatchStore, row: nat, f: nat, valid: bool)
      requires CellPlace(dst.Value(), f, row)
      modifies dst`valid, dst`issueMasks
      ensures var c := CellOf(old(dst.Value()), f, row);
        CellBecomes(old(dst.Value()), dst.Value(), f, row, if valid then c.(valid := true) else c.(issue := true))
    {
      hide ColumnsShaped, CellOf, CellReads, SetRow, SetBit, CellBecomes, CellPlace;
      ghost var b := dst.Value();
      PlaceFits(b, f, row);
      MaskPlace(b, f, row);
      if valid {
        WithValidReads(b, f, row);
        dst.valid := Slice(SetRow(dst.valid.items, dst.words, f - 1, row), dst.valid.spare);
        assert dst.Value() == WithValid(b, f, row);
      } else {
        WithIssueReads(b, f, row);
        dst.issueMasks := dst.issueMasks.Set(row, SetBit(dst.issueMasks.items[row], f - 1));
        assert dst.Value() == WithIssue(b, f, row);
      }
    }

    /** setRequestField: writes one blank cell. */
    method SetRequestField(dst: BatchStore, t: SymbolTable, row: nat, f: nat, value: string, valid: bool)
      requires CellPlace(dst.Value(), f, row) && CellOf(dst.Value(), f, row) == BLANK_CELL
      modifies dst`values, dst`present, dst`valid, dst`issueMasks
      ensures CellBecomes(old(dst.Value()), dst.Value(), f, row,
                          Cell(LookupSymbol(t, value), value != "", value != "" && valid, !(value != "" && valid)))
    {
      hide ColumnsShaped, CellOf, CellReads, LookupSymbol, CellBecomes, CellPlace;
      ghost var b := dst.Value();
      ghost var cell := BLANK_CELL.(symbol := LookupSymbol(t, value));
      SetSymbol(dst, t, row, f, value);
      CellFrame(b, dst.Value(), f, row, cell);
      if value != "" {
        ghost var c := dst.Value();
        SetPresent(dst, row, f);
        CellThen(b, c, dst.Value(), f, row, cell, cell.(present := true));
        cell := cell.(present := true);
        CellFrame(b, dst.Value(), f, row, cell);
      }
      ghost var d := dst.Value();
      var ok := value != "" && valid;
      SetValidOrIssue(dst, row, f, ok);
      CellThen(b, d, dst.Value(), f, row, cell, if ok then cell.(valid := true) else cell.(issue := true));
    }

    method SetRequest(dst: BatchStore, t: SymbolTable, requests: seq<Request>, row: nat)
      requires row < |requests| && Laid(dst.Value(), requests) && CellsFilled(dst.Value(), t, requests, row,
          FIELD_REQUESTER)
      modifies dst`values, dst`present, dst`valid, dst`issueMasks
      ensures Laid(dst.Value(), requests) && CellsFilled(dst.Value(), t, requests, row + 1, FIELD_REQUESTER)
      ensures RestKept(old(dst.Value()), dst.Value())
    {
      hide Laid, CellsFilled, ValidFieldValue;
      var r := requests[row];
      SetField(dst, t, requests, row, FIELD_REQUESTER, r.requester);
      SetField(dst, t, requests, row, FIELD_TRUST_LEVEL, r.trustLevel);
      SetField(dst, t, requests, row, FIELD_ACTION, r.action);
      SetField(dst, t, requests, row, FIELD_OUTPUT_KIND, r.outputKind);
      SetField(dst, t, requests, row, FIELD_DATASET, r.dataset);
      SetField(dst, t, requests, row, FIELD_ENVIRONMENT, r.environment);
      SetField(dst, t, requests, row, FIELD_USAGE_LIMIT, r.usageLimit);
      RowComplete(dst.Value(), t, requests, row);
    }

    /** One setRequestField call of the row loop. */
    method SetField(dst: BatchStore, t: SymbolTable, requests: seq<Request>, row: nat, f: nat, value: string)
      requires row < |requests| && 1 <= f < FIELD_COUNT && value == requests[row].Field(f)
      requires Laid(dst.Value(), requests) && CellsFilled(dst.Value(), t, requests, row, f)
      modifies dst`values, dst`present, dst`valid, dst`issueMasks
      ensures Laid(dst.Value(), requests) && CellsFilled(dst.Value(), t, requests, row, f + 1)
      ensures RestKept(old(dst.Value()), dst.Value())
    {
      hide CellsFilled, ColumnsShaped, CellBecomes, CellOf, LookupSymbol, ValidFieldValue;
      FieldIsBlank(dst.Value(), t, requests, row, f);
      SetRequestField(dst, t, row, f, value, ValidFieldValue(f, value));
      FieldFilled(old(dst.Value()), dst.Value(), t, requests, row, f);
    }

    /** setEvidenceSymbol. */
    method SetEvidenceSymbol(dst: BatchStore, t: SymbolTable, q: nat, i: nat, value: string)
      requires MarkPlace(dst.Value(), q, i) && RecordOf(dst.Value(), i).At(q) == Mark(0, false)
      modifies dst`qualifiers, dst`presentMasks
      ensures var e := RecordOf(old(dst.Value()), i);
        RecordBecomes(old(dst.Value()), dst.Value(), i, e.(marks := e.marks[q := SymbolicMark(t, value)]))
    {
      hide LookupSymbol, RecordReads, RecordOf, BitAt, SetBit;
      ghost var b := dst.Value();
      SameRecord(b, i);
      MarkReads(b, q, i);
      if value == "" { return; }
      dst.presentMasks := dst.presentMasks.Set(i, SetBit(dst.presentMasks.items[i], q));
      var symbol := LookupSymbol(t, value);
      if symbol != 0 {
        dst.qualifiers := dst.qualifiers[q := dst.qualifiers[q].Set(i, symbol)];
      }
      assert dst.Value().qualifiers[q] == WithMark(b, q, i, symbol).qualifiers[q];
      assert dst.Value().qualifiers == WithMark(b, q, i, symbol).qualifiers;
      WithMarkReads(b, q, i, symbol);
    }

    /** The kind loop of setEvidence. */
    method FindKind(t: SymbolTable, kinds: seq<nat>, value: string) returns (kind: nat)
      ensures kind == NarrowedKind(t, kinds, value)
    {
      hide LookupSymbol, U16;
      NarrowingLossless(0);
      var symbol := LookupSymbol(t, value);
      if symbol == 0 { return 0; }
      for i := 0 to |kinds|
        invariant KindID(kinds, symbol, i) == 0
      {
        if symbol == kinds[i] {
          KindIDStays(kinds, symbol, i + 1, |kinds|);
          return U16(i + 1);
        }
      }
      return 0;
    }

    method SetFlag(dst: BatchStore, i: nat, flag: nat)
      requires EvidenceShaped(dst.Value()) && i < dst.kinds.Len()
      modifies dst`flags
      ensures RecordBecomes(old(dst.Value()), dst.Value(), i, Flagged(RecordOf(old(dst.Value()), i), flag))
    {
      hide RecordReads, RecordOf, SetBit;
      ghost var b := dst.Value();
      dst.flags := dst.flags.Set(i, SetBit(dst.flags.items[i], flag));
      WithFlagReads(b, i, flag);
      assert dst.Value() == WithFlag(b, i, flag);
    }

    /** setEvidence: writes one blank record. */
    method SetEvidence(dst: BatchStore, t: SymbolTable, kinds: seq<nat>, i: nat, e: Evidence)
      requires EvidenceShaped(dst.Value()) && i < dst.kinds.Len() && BlankRecord(RecordOf(dst.Value(), i))
      modifies dst`kinds, dst`qualifiers, dst`presentMasks, dst`flags
      ensures RecordBecomes(old(dst.Value()), dst.Value(), i, SymbolicRecord(t, kinds, e))
    {
      hide EvidenceShaped, RecordReads, RecordOf, RecordBecomes, LookupSymbol, NarrowedKind, SymbolicMark;
      ghost var b := dst.Value();
      ghost var x := RecordOf(b, i);
      SameRecord(b, i);
      BlankMarks(x);
      var kind := FindKind(t, kinds, e.kind);
      WithKindReads(b, i, kind);
      dst.kinds := dst.kinds.Set(i, kind);
      x := x.(kind := kind);
      assert dst.Value() == WithKind(b, i, kind);
      RecordFrame(b, dst.Value(), i, x);
      for q := 0 to QUALIFIER_COUNT
        invariant RecordBecomes(b, dst.Value(), i, x) && RecordFramed(b, dst.Value(), i, x)
        invariant x.kind == kind && !x.conflict && !x.stale && !x.revoked && |x.marks| == QUALIFIER_COUNT
        invariant forall p :: 0 <= p < QUALIFIER_COUNT ==>
          x.marks[p] == if p < q then SymbolicMark(t, e.Qualifier(p)) else Mark(0, false)
      {
        ghost var c := dst.Value();
        SetEvidenceSymbol(dst, t, q, i, e.Qualifier(q));
        ghost var y := x.(marks := x.marks[q := SymbolicMark(t, e.Qualifier(q))]);
        RecordThen(b, c, dst.Value(), i, x, y);
        x := y;
      }
      assert x == SymbolicRecord(t, kinds, e).(conflict := false, stale := false, revoked := false);
      label marked:
      SetFlags(dst, i, e);
      RecordThen(b, old@marked(dst.Value()), dst.Value(), i, x, SymbolicRecord(t, kinds, e));
    }

    /** The flag tests of setEvidence. */
    method SetFlags(dst: BatchStore, i: nat, e: Evidence)
      requires EvidenceShaped(dst.Value()) && i < dst.kinds.Len()
      modifies dst`flags
      ensures var x := RecordOf(old(dst.Value()), i);
        RecordBecomes(old(dst.Value()), dst.Value(), i,
                      x.(conflict := x.conflict || e.Conflicting(), stale := x.stale || e.Stale(),
                         revoked := x.revoked || e.Revoked()))
    {
      hide EvidenceShaped, RecordReads, RecordOf, RecordBecomes;
      ghost var b := dst.Value();
      ghost var x := RecordOf(b, i);
      SameRecord(b, i);
      RecordFrame(b, b, i, x);
      if e.status == "conflicting" || e.timestampState == "conflicting" || e.reviewerState == "one_valid_one_revoked" {
        x := FlagThen(dst, b, i, x, FLAG_CONFLICT);
      }
      if e.timestampState == "stale" {
        x := FlagThen(dst, b, i, x, FLAG_STALE);
      }
      if e.status == "revoked" || e.status == "expired" || e.reviewerState == "revoked" {
        x := FlagThen(dst, b, i, x, FLAG_REVOKED);
      }
    }

    method FlagThen(dst: BatchStore, ghost b: Batch, i: nat, ghost x: Record, flag: nat) returns (ghost y: Record)
      requires EvidenceShaped(b) && i < |b.kinds| && RecordBecomes(b, dst.Value(), i, x)
      requires RecordFramed(b, dst.Value(), i, x)
      modifies dst`flags
      ensures y == Flagged(x, flag) && RecordBecomes(b, dst.Value(), i, y) && RecordFramed(b, dst.Value(), i, y)
    {
      hide EvidenceShaped, RecordReads, RecordOf, RecordBecomes;
      ghost var c := dst.Value();
      SetFlag(dst, i, flag);
      y := Flagged(x, flag);
      RecordThen(b, c, dst.Value(), i, x, y);
    }

    // ----- edges

    method FillEdges(dst: BatchStore, requests: seq<Request>, pack: seq<Evidence>)
      requires dst.rows == |requests| && dst.offsets.Len() == dst.rows + 1
      requires dst.refs.Len() == EdgeTotal(requests, |requests|) <= MAX_UINT32
      requires Indexed(evidenceByID, pack, |pack|)
      modifies dst`offsets, dst`refs
      ensures EdgesFilled(dst.Value(), requests, pack)
    {
      hide U32, Indexed, AllRefs, EdgeTotal;
      var edge := 0;
      NoEdges(requests, pack);
      for row := 0 to |requests|
        invariant dst.offsets.Len() == dst.rows + 1 && dst.refs.Len() == EdgeTotal(requests, |requests|)
        invariant edge == EdgeTotal(requests, row) <= dst.refs.Len()
        invariant forall r :: 0 <= r < row ==> dst.offsets.items[r] == EdgeTotal(requests, r)
        invariant dst.refs.items[..edge] == AllRefs(requests, pack, row)
      {
        EdgeTotalGrows(requests, row, |requests|);
        EdgeTotalGrows(requests, row + 1, |requests|);
        EdgeTotalStep(requests, row);
        NarrowingLossless(edge);
        dst.offsets := dst.offsets.Set(row, U32(edge));
        FillRowEdges(dst, requests, pack, row, edge);
        edge := edge + |requests[row].evidenceIDs|;
      }
      NarrowingLossless(edge);
      dst.offsets := dst.offsets.Set(|requests|, U32(edge));
    }

    method FillRowEdges(dst: BatchStore, requests: seq<Request>, pack: seq<Evidence>, row: nat, edge: nat)
      requires row < |requests| && edge == EdgeTotal(requests, row) && EdgeTotal(requests, row + 1) <= dst.refs.Len()
      requires dst.refs.items[..edge] == AllRefs(requests, pack, row)
      requires Indexed(evidenceByID, pack, |pack|)
      modifies dst`refs
      ensures dst.refs.Len() == old(dst.refs.Len())
      ensures dst.refs.items[..EdgeTotal(requests, row + 1)] == AllRefs(requests, pack, row + 1)
    {
      hide Indexed, FindRecord, AllRefs;
      var ids := requests[row].evidenceIDs;
      ghost var rs := ResolvedRefs(requests[row], pack);
      for k := 0 to |ids|
        invariant dst.refs.Len() == old(dst.refs.Len())
        invariant dst.refs.items[..edge + k] == AllRefs(requests, pack, row) + rs[..k]
      {
        IndexedLookup(evidenceByID, pack, |pack|, ids[k]);
        var ref := if ids[k] in evidenceByID then evidenceByID[ids[k]] else 0;
        dst.refs := dst.refs.Set(edge + k, ref);
        assert rs[..k + 1] == rs[..k] + [ref];
      }
      AllRefsStep(requests, pack, row);
      assert rs[..|ids|] == rs;
    }

    // ----- the whole build

    method FillRequests(dst: BatchStore, t: SymbolTable, requests: seq<Request>)
      requires Laid(dst.Value(), requests) && CellsFilled(dst.Value(), t, requests, 0, FIELD_REQUESTER)
      modifies dst`values, dst`present, dst`valid, dst`issueMasks
      ensures Laid(dst.Value(), requests) && CellsFilled(dst.Value(), t, requests, |requests|, FIELD_REQUESTER)
      ensures RestKept(old(dst.Value()), dst.Value())
    {
      hide CellsFilled, ColumnsShaped;
      for row := 0 to |requests|
        invariant Laid(dst.Value(), requests) && CellsFilled(dst.Value(), t, requests, row, FIELD_REQUESTER)
        invariant RestKept(old(dst.Value()), dst.Value())
      {
        SetRequest(dst, t, requests, row);
      }
    }

    method FillRecords(dst: BatchStore, t: SymbolTable, kinds: seq<nat>, pack: seq<Evidence>)
      requires EvidenceShaped(dst.Value()) && dst.kinds.Len() == |pack|
      requires RecordsFilled(dst.Value(), t, kinds, pack, 0)
      modifies dst`kinds, dst`qualifiers, dst`presentMasks, dst`flags
      ensures EvidenceShaped(dst.Value()) && dst.kinds.Len() == |pack|
      ensures RecordsFilled(dst.Value(), t, kinds, pack, |pack|)
    {
      hide RecordsFilled, RecordBecomes, RecordOf, SymbolicRecord, EvidenceShaped;
      for i := 0 to |pack|
        invariant EvidenceShaped(dst.Value()) && dst.kinds.Len() == |pack|
        invariant RecordsFilled(dst.Value(), t, kinds, pack, i)
      {
        ghost var b := dst.Value();
        NextRecordBlank(b, t, kinds, pack, i);
        SetEvidence(dst, t, kinds, i, pack[i]);
        NextRecordFilled(b, dst.Value(), t, kinds, pack, i);
      }
    }

    /** BuildInto: accepts exactly the well-formed packs within the limits. A rejected pack leaves the
        destination alone; an accepted one is represented exactly, whatever was stored before. */
    method BuildInto(dst: BatchStore, p: Program, requests: seq<Request>, pack: seq<Evidence>) returns (ok: bool)
      requires LimitsFit(limits)
      requires |dst.qualifiers| == QUALIFIER_COUNT
      modifies this, dst
      ensures ok <==> PackAccepted(limits, requests, pack)
      ensures !ok ==> unchanged(dst)
      ensures ok ==> Represents(dst.Value(), p.symbols, p.code.evidenceKindSymbols, requests, pack)
      ensures |dst.qualifiers| == QUALIFIER_COUNT
    {
      hide RequestGood, EvidenceGood, Indexed, Represents;
      if |requests| > limits.maxRows || |pack| > limits.maxEvidence { return false; }
      var edges;
      ok, edges := CheckRequests(requests);
      if !ok { return; }
      ok := CheckEvidence(pack);
      if !ok { return; }
      DimensionsFit(|requests|);
      FillBatch(dst, p.symbols, p.code.evidenceKindSymbols, requests, pack, edges);
    }

    /** Everything after validation. */
    method FillBatch(dst: BatchStore, t: SymbolTable, kinds: seq<nat>, requests: seq<Request>, pack: seq<Evidence>,
                     edges: nat)
      requires |dst.qualifiers| == QUALIFIER_COUNT
      requires edges == EdgeTotal(requests, |requests|) <= MAX_UINT32 && Indexed(evidenceByID, pack, |pack|)
      modifies dst
      ensures Represents(dst.Value(), t, kinds, requests, pack)
      ensures |dst.qualifiers| == QUALIFIER_COUNT
    {
      hide Indexed, ColumnsShaped, CellsFilled, RecordsFilled, BlankBatch, Represents, EdgesFilled, EdgeTotal;
      BlankBatchFilled(t, kinds, requests, pack);
      dst.Resize(|requests|, |pack|, edges);
      ghost var blank := dst.Value();
      FillRequests(dst, t, requests);
      RecordsApart(blank, dst.Value(), t, kinds, pack, 0);
      ghost var cells := dst.Value();
      FillRecords(dst, t, kinds, pack);
      ghost var records := dst.Value();
      FillEdges(dst, requests, pack);
      CellsApart(cells, dst.Value(), t, requests);
      RecordsApart(records, dst.Value(), t, kinds, pack, |pack|);
      FilledRepresents(dst.Value(), t, kinds, requests, pack);
    }
  }

  /** The addressable-memory test of the source cannot fail for a row count within uint32. */
  lemma {:induction false} DimensionsFit(rows: nat)
    requires rows <= MAX_UINT32
    ensures (FIELD_COUNT - 1) * rows <= MAX_INT && (FIELD_COUNT - 1) * WordCount(rows) <= MAX_INT
  {}

  lemma {:induction false} NextRecordBlank(b: Batch, t: SymbolTable, kinds: seq<nat>, pack: seq<Evidence>, i: nat)
    requires EvidenceShaped(b) && |b.kinds| == |pack| && i < |pack| && RecordsFilled(b, t, kinds, pack, i)
    ensures BlankRecord(RecordOf(b, i))
  {
    assert RecordFilled(b, t, kinds, pack, i, i);
  }

  lemma {:induction false} NextRecordFilled(b: Batch, c: Batch, t: SymbolTable, kinds: seq<nat>, pack: seq<Evidence>,
                                            i: nat)
    requires EvidenceShaped(b) && |b.kinds| == |pack| && i < |pack| && RecordsFilled(b, t, kinds, pack, i)
    requires RecordBecomes(b, c, i, SymbolicRecord(t, kinds, pack[i]))
    ensures EvidenceShaped(c) && |c.kinds| == |pack| && RecordsFilled(c, t, kinds, pack, i + 1)
  {
    hide RecordOf, SymbolicRecord;
    var next := i + 1;
    forall j: nat | j < |pack|
      ensures RecordFilled(c, t, kinds, pack, next, j)
    {
      assert RecordFilled(b, t, kinds, pack, i, j) && RecordReads(b, c, i, SymbolicRecord(t, kinds, pack[i]), j);
    }
  }

  lemma {:induction false} BlankBatchFilled(t: SymbolTable, kinds: seq<nat>, requests: seq<Request>, pack: seq<Evidence>)
    ensures var b := BlankBatch(|requests|, |pack|, EdgeTotal(requests, |requests|));
      && Laid(b, requests) && CellsFilled(b, t, requests, 0, FIELD_REQUESTER)
      && EvidenceShaped(b) && |b.kinds| == |pack| && RecordsFilled(b, t, kinds, pack, 0)
      && |b.offsets| == |requests| + 1 && |b.refs| == EdgeTotal(requests, |requests|)
  {
    hide CellOf, RecordOf, SymbolicCell, SymbolicRecord;
    BlankBatchReads(|requests|, |pack|, EdgeTotal(requests, |requests|));
  }

  /** Cells depend on the request columns only. */
  lemma {:induction false} CellsApart(b: Batch, c: Batch, t: SymbolTable, requests: seq<Request>)
    requires c == b.(kinds := c.kinds, qualifiers := c.qualifiers, presentMasks := c.presentMasks, flags := c.flags,
                     offsets := c.offsets, refs := c.refs)
    requires Laid(b, requests) && CellsFilled(b, t, requests, |requests|, FIELD_REQUESTER)
    ensures Laid(c, requests) && CellsFilled(c, t, requests, |requests|, FIELD_REQUESTER)
  {
    hide SymbolicCell, PlaneBit, BitAt;
    forall g: nat, r: nat | 1 <= g < FIELD_COUNT && r < c.rows
      ensures CellFilled(c, t, requests, |requests|, FIELD_REQUESTER, g, r)
    {
      assert CellFilled(b, t, requests, |requests|, FIELD_REQUESTER, g, r);
    }
  }

  /** Records depend on the evidence columns only. */
  lemma {:induction false} RecordsApart(b: Batch, c: Batch, t: SymbolTable, kinds: seq<nat>, pack: seq<Evidence>, k: nat)
    requires c.kinds == b.kinds && c.qualifiers == b.qualifiers && c.presentMasks == b.presentMasks && c.flags == b.flags
    requires EvidenceShaped(b) && |b.kinds| == |pack| && RecordsFilled(b, t, kinds, pack, k)
    ensures EvidenceShaped(c) && |c.kinds| == |pack| && RecordsFilled(c, t, kinds, pack, k)
  {
    hide SymbolicRecord, BitAt;
    forall j: nat | j < |pack|
      ensures RecordFilled(c, t, kinds, pack, k, j)
    {
      assert RecordFilled(b, t, kinds, pack, k, j);
      assert RecordOf(c, j).marks == RecordOf(b, j).marks;
    }
  }

  lemma {:induction false} AllRefsStep(requests: seq<Request>, pack: seq<Evidence>, row: nat)
    requires row < |requests|
    ensures EdgeTotal(requests, row + 1) == EdgeTotal(requests, row) + |requests[row].evidenceIDs|
    ensures AllRefs(requests, pack, row + 1) == AllRefs(requests, pack, row) + ResolvedRefs(requests[row], pack)
  {}

  /** What RecordBecomes says about the changed record and the shape. */
  predicate RecordFramed(b: Batch, c: Batch, i: nat, x: Record) {
    && EvidenceShaped(c) && |c.kinds| == |b.kinds| && |c.qualifiers| == QUALIFIER_COUNT
    && i < |c.kinds| && RecordOf(c, i) == x
  }

  lemma {:induction false} RecordFrame(b: Batch, c: Batch, i: nat, x: Record)
    requires EvidenceShaped(b) && i < |b.kinds| && RecordBecomes(b, c, i, x)
    ensures RecordFramed(b, c, i, x)
  {
    assert RecordReads(b, c, i, x, i);
  }

  lemma {:induction false} RecordThen(b: Batch, c: Batch, d: Batch, i: nat, x: Record, y: Record)
    requires EvidenceShaped(b) && i < |b.kinds| && RecordBecomes(b, c, i, x) && RecordBecomes(c, d, i, y)
    ensures RecordBecomes(b, d, i, y) && RecordFramed(b, d, i, y)
  {
    hide RecordOf;
    forall j: nat | j < |b.kinds|
      ensures RecordReads(b, d, i, y, j)
    {
      assert RecordReads(b, c, i, x, j) && RecordReads(c, d, i, y, j);
    }
    RecordFrame(b, d, i, y);
  }

  lemma {:induction false} BlankMarks(x: Record)
    requires BlankRecord(x) && |x.marks| == QUALIFIER_COUNT
    ensures forall q :: 0 <= q < QUALIFIER_COUNT ==> x.marks[q] == Mark(0, false)
  {
    forall q | 0 <= q < QUALIFIER_COUNT
      ensures x.marks[q] == Mark(0, false)
    {
      assert x.At(q) == Mark(0, false);
    }
  }

  lemma {:induction false} SameRecord(b: Batch, i: nat)
    requires EvidenceShaped(b) && i < |b.kinds|
    ensures RecordBecomes(b, b, i, RecordOf(b, i))
    ensures |RecordOf(b, i).marks| == QUALIFIER_COUNT
    ensures forall q :: 0 <= q < QUALIFIER_COUNT ==> RecordOf(b, i).marks[q := RecordOf(b, i).At(q)] == RecordOf(b, i).marks
  {}

  lemma {:induction false} MarkReads(b: Batch, q: nat, i: nat)
    requires MarkPlace(b, q, i)
    ensures RecordOf(b, i).At(q).symbol == b.qualifiers[q][i]
  {}

  lemma {:induction false} KindIDStays(kinds: seq<nat>, symbol: nat, j: nat, k: nat)
    requires j <= k <= |kinds| && KindID(kinds, symbol, j) != 0
    ensures KindID(kinds, symbol, k) == KindID(kinds, symbol, j)
  {
    if j < k { KindIDStays(kinds, symbol, j, k - 1); }
  }

  predicate Laid(b: Batch, requests: seq<Request>) {
    ColumnsShaped(b) && b.rows == |requests| && b.words == WordCount(b.rows)
  }

  /** Only the request columns differ. */
  predicate RestKept(b: Batch, b': Batch) {
    b' == b.(values := b'.values, present := b'.present, valid := b'.valid, issueMasks := b'.issueMasks)
  }

  lemma {:induction false} FieldIsBlank(b: Batch, t: SymbolTable, requests: seq<Request>, row: nat, f: nat)
    requires row < |requests| && 1 <= f < FIELD_COUNT && Laid(b, requests) && CellsFilled(b, t, requests, row, f)
    ensures CellPlace(b, f, row) && CellOf(b, f, row) == BLANK_CELL
  {
    assert CellFilled(b, t, requests, row, f, f, row);
  }

  lemma {:induction false} FieldFilled(b: Batch, b': Batch, t: SymbolTable, requests: seq<Request>, row: nat, f: nat)
    requires row < |requests| && 1 <= f < FIELD_COUNT && Laid(b, requests) && CellsFilled(b, t, requests, row, f)
    requires CellBecomes(b, b', f, row, SymbolicCell(t, requests[row], f))
    ensures Laid(b', requests) && CellsFilled(b', t, requests, row, f + 1) && RestKept(b, b')
  {
    hide CellOf, ColumnsShaped, SymbolicCell;
    var next := f + 1;
    forall g: nat, r: nat | 1 <= g < FIELD_COUNT && r < b.rows
      ensures CellFilled(b', t, requests, row, next, g, r)
    {
      assert CellFilled(b, t, requests, row, f, g, r) && CellReads(b, b', f, row, SymbolicCell(t, requests[row], f), g, r);
    }
  }

  lemma {:induction false} RowComplete(b: Batch, t: SymbolTable, requests: seq<Request>, row: nat)
    requires row < |requests| && Laid(b, requests) && CellsFilled(b, t, requests, row, FIELD_COUNT)
    ensures CellsFilled(b, t, requests, row + 1, FIELD_REQUESTER)
  {
    hide CellOf, ColumnsShaped, SymbolicCell;
    var next := row + 1;
    forall g: nat, r: nat | 1 <= g < FIELD_COUNT && r < b.rows
      ensures CellFilled(b, t, requests, next, FIELD_REQUESTER, g, r)
    {
      assert CellFilled(b, t, requests, row, FIELD_COUNT, g, r);
    }
  }

  lemma {:induction false} SamePlace(b: Batch, f: nat, row: nat)
    requires CellPlace(b, f, row)
    ensures CellBecomes(b, b, f, row, CellOf(b, f, row))
  {}

  lemma {:induction false} MaskPlace(b: Batch, f: nat, row: nat)
    requires CellPlace(b, f, row)
    ensures row < |b.issueMasks| && f >= 1
  {}

  lemma {:induction false} CellFrame(b: Batch, c: Batch, f: nat, row: nat, cell: Cell)
    requires CellPlace(b, f, row) && CellBecomes(b, c, f, row, cell)
    ensures CellPlace(c, f, row) && CellOf(c, f, row) == cell
    ensures c.rows == b.rows && c.words == b.words
  {
    assert CellReads(b, c, f, row, cell, f, row);
  }

  lemma {:induction false} CellThen(b: Batch, c: Batch, d: Batch, f: nat, row: nat, x: Cell, y: Cell)
    requires CellPlace(b, f, row) && CellBecomes(b, c, f, row, x) && CellBecomes(c, d, f, row, y)
    ensures CellBecomes(b, d, f, row, y)
  {
    hide CellOf;
    forall g: nat, r: nat | 1 <= g < FIELD_COUNT && r < b.rows
      ensures CellReads(b, d, f, row, y, g, r)
    {
      assert CellReads(b, c, f, row, x, g, r) && CellReads(c, d, f, row, y, g, r);
    }
  }
}
