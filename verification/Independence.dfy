/** The result columns are determined by the rows' decisions, and evaluating two request lists
    together is evaluating them apart. */
module Independence {
  import opened Schema
  import opened Reference
  import opened Programs
  import opened Resolution
  import opened Coding
  import opened Batches
  import opened Results
  import opened Evaluator
  import opened Packs

  function Flat(segments: seq<seq<nat>>): seq<nat> {
    if segments == [] then [] else Flat(segments[..|segments| - 1]) + segments[|segments| - 1]
  }

  lemma {:induction false} FlatAppend(xs: seq<seq<nat>>, ys: seq<seq<nat>>)
    ensures Flat(xs + ys) == Flat(xs) + Flat(ys)
  {
    if ys == [] {
      assert xs + ys == xs;
    } else {
      var front, last := ys[..|ys| - 1], ys[|ys| - 1];
      assert (xs + ys)[..|xs + ys| - 1] == xs + front;
      FlatAppend(xs, front);
    }
  }

  predicate AllSegments(offsets: seq<nat>, values: seq<nat>, segments: seq<seq<nat>>) {
    && |offsets| == |segments| + 1 && CSR(offsets, |values|)
    && forall r :: 0 <= r < |segments| ==> Segment(offsets, values, r, segments[r])
  }

  lemma {:induction false} OffsetsAreFlat(offsets: seq<nat>, values: seq<nat>, segments: seq<seq<nat>>, k: nat)
    requires AllSegments(offsets, values, segments) && k <= |segments|
    ensures offsets[k] <= |values| && values[..offsets[k]] == Flat(segments[..k])
  {
    if k > 0 {
      OffsetsAreFlat(offsets, values, segments, k - 1);
      assert Segment(offsets, values, k - 1, segments[k - 1]);
      assert segments[..k][..k - 1] == segments[..k - 1];
      assert values[..offsets[k]] == values[..offsets[k - 1]] + values[offsets[k - 1]..offsets[k]];
    }
  }

  /** The values of a CSR column are its segments end to end, and every offset is the length of what
      comes before. */
  lemma {:induction false} CSRIsFlat(offsets: seq<nat>, values: seq<nat>, segments: seq<seq<nat>>)
    requires AllSegments(offsets, values, segments)
    ensures values == Flat(segments)
    ensures forall k :: 0 <= k <= |segments| ==> offsets[k] == |Flat(segments[..k])|
  {
    forall k | 0 <= k <= |segments|
      ensures offsets[k] == |Flat(segments[..k])|
    {
      OffsetsAreFlat(offsets, values, segments, k);
    }
    OffsetsAreFlat(offsets, values, segments, |segments|);
    assert segments[..|segments|] == segments;
  }

  /** The second column follows the first, its offsets raised by the length of the first. */
  predicate Joined(offsets: seq<nat>, values: seq<nat>, o1: seq<nat>, v1: seq<nat>, o2: seq<nat>, v2: seq<nat>) {
    && values == v1 + v2
    && |o1| >= 1 && |o2| >= 1 && |offsets| == |o1| + |o2| - 1
    && (forall k :: 0 <= k < |o1| ==> offsets[k] == o1[k])
    && forall k :: 0 <= k < |o2| ==> offsets[|o1| - 1 + k] == |v1| + o2[k]
  }

  lemma {:induction false} SegmentsJoin(offsets: seq<nat>, values: seq<nat>, o1: seq<nat>, v1: seq<nat>, o2: seq<nat>,
                                        v2: seq<nat>,
                     xs: seq<seq<nat>>, ys: seq<seq<nat>>)
    requires AllSegments(offsets, values, xs + ys) && AllSegments(o1, v1, xs) && AllSegments(o2, v2, ys)
    ensures Joined(offsets, values, o1, v1, o2, v2)
  {
    hide AllSegments;
    SegmentLengths(offsets, values, xs + ys);
    SegmentLengths(o1, v1, xs);
    SegmentLengths(o2, v2, ys);
    CSRIsFlat(offsets, values, xs + ys);
    CSRIsFlat(o1, v1, xs);
    CSRIsFlat(o2, v2, ys);
    FlatAppend(xs, ys);
    forall k | 0 <= k < |o1|
      ensures offsets[k] == o1[k]
    {
      assert (xs + ys)[..k] == xs[..k];
    }
    forall k | 0 <= k < |o2|
      ensures offsets[|o1| - 1 + k] == |v1| + o2[k]
    {
      assert (xs + ys)[..|xs| + k] == xs + ys[..k];
      FlatAppend(xs, ys[..k]);
    }
  }

  lemma {:induction false} SegmentLengths(offsets: seq<nat>, values: seq<nat>, segments: seq<seq<nat>>)
    requires AllSegments(offsets, values, segments)
    ensures |offsets| == |segments| + 1
  {}

  // ----- two request lists

  /** Row r of the columns of n holds d; the fixed columns and the three ranges apart. */
  function Decisions(p: Program, requests: seq<Request>, pack: seq<Evidence>): (ds: seq<Decision>)
    requires Executable(p)
    ensures |ds| == |requests|
  {
    seq(|requests|, r requires 0 <= r < |requests| => RowDecision(p, ViewRow(p, requests[r], pack), ViewRecords(p, pack)))
  }

  /** The columns hold these decisions; row r's first edge is starts[r]. */
  predicate ColumnsHold(n: Numeric, ds: seq<Decision>, starts: seq<nat>) {
    && NumericShaped(n, |ds|) && |starts| == |ds|
    && CSR(n.requirementOffsets, |n.requirementIDs|) && CSR(n.evidenceOffsets, |n.evidenceRefs|)
    && CSR(n.remediationOffsets, |n.remediationIDs|)
    && forall r :: 0 <= r < |ds| ==> Holds(n, r, ds[r], starts[r])
  }

  function ShiftEdges(edges: seq<nat>, shift: nat): seq<nat> {
    seq(|edges|, k requires 0 <= k < |edges| => if edges[k] == 0 then 0 else edges[k] + shift)
  }

  /** n is n1 followed by n2, with the edges of n2 raised by `edges`. */
  predicate Concatenated(n: Numeric, n1: Numeric, n2: Numeric, edges: nat) {
    && n.outcomeIDs == n1.outcomeIDs + n2.outcomeIDs
    && n.driverKinds == n1.driverKinds + n2.driverKinds
    && n.driverRequirementIDs == n1.driverRequirementIDs + n2.driverRequirementIDs
    && n.driverClauseIDs == n1.driverClauseIDs + n2.driverClauseIDs
    && n.driverReasonIDs == n1.driverReasonIDs + n2.driverReasonIDs
    && n.driverFieldIDs == n1.driverFieldIDs + n2.driverFieldIDs
    && n.driverEvidenceEdgeIDs == n1.driverEvidenceEdgeIDs + ShiftEdges(n2.driverEvidenceEdgeIDs, edges)
    && n.issueIDs == n1.issueIDs + n2.issueIDs
    && Joined(n.requirementOffsets, n.requirementIDs, n1.requirementOffsets, n1.requirementIDs, n2.requirementOffsets,
              n2.requirementIDs)
    && Joined(n.evidenceOffsets, n.evidenceRefs, n1.evidenceOffsets, n1.evidenceRefs, n2.evidenceOffsets, n2.evidenceRefs)
    && Joined(n.remediationOffsets, n.remediationIDs, n1.remediationOffsets, n1.remediationIDs, n2.remediationOffsets,
              n2.remediationIDs)
  }

  function AppliedOf(ds: seq<Decision>): seq<seq<nat>> { seq(|ds|, r requires 0 <= r < |ds| => ds[r].applied) }
  function UsedOf(ds: seq<Decision>): seq<seq<nat>> { seq(|ds|, r requires 0 <= r < |ds| => ds[r].used) }
  function RemediationOf(ds: seq<Decision>): seq<seq<nat>> { seq(|ds|, r requires 0 <= r < |ds| => ds[r].remediation) }

  lemma {:induction false} RangesHold(n: Numeric, ds: seq<Decision>, starts: seq<nat>)
    requires ColumnsHold(n, ds, starts)
    ensures AllSegments(n.requirementOffsets, n.requirementIDs, AppliedOf(ds))
    ensures AllSegments(n.evidenceOffsets, n.evidenceRefs, UsedOf(ds))
    ensures AllSegments(n.remediationOffsets, n.remediationIDs, RemediationOf(ds))
  {
    hide Segment, CSR;
    forall r | 0 <= r < |ds|
      ensures Segment(n.requirementOffsets, n.requirementIDs, r, AppliedOf(ds)[r])
      ensures Segment(n.evidenceOffsets, n.evidenceRefs, r, UsedOf(ds)[r])
      ensures Segment(n.remediationOffsets, n.remediationIDs, r, RemediationOf(ds)[r])
    {
      assert Holds(n, r, ds[r], starts[r]);
    }
  }

  /** Columns that hold the decisions of two lists together are the columns of the first followed by
      the columns of the second. */
  lemma {:induction false} ColumnsConcatenate(n: Numeric, n1: Numeric, n2: Numeric, xs: seq<Decision>, ys: seq<Decision>,
                           sx: seq<nat>, sy: seq<nat>, starts: seq<nat>, edges: nat)
    requires |sx| == |xs| && |sy| == |ys| && |starts| == |xs| + |ys|
    requires forall r :: 0 <= r < |xs| ==> starts[r] == sx[r]
    requires forall r :: 0 <= r < |ys| ==> starts[|xs| + r] == edges + sy[r]
    requires ColumnsHold(n, xs + ys, starts) && ColumnsHold(n1, xs, sx) && ColumnsHold(n2, ys, sy)
    ensures Concatenated(n, n1, n2, edges)
  {
    hide Joined, CSR, AllSegments, ColumnsHold, AppliedOf, UsedOf, RemediationOf, Segment;
    RangesHold(n, xs + ys, starts);
    RangesHold(n1, xs, sx);
    RangesHold(n2, ys, sy);
    SegmentListsAppend(xs, ys);
    SegmentsJoin(n.requirementOffsets, n.requirementIDs, n1.requirementOffsets, n1.requirementIDs, n2.requirementOffsets,
                 n2.requirementIDs, AppliedOf(xs), AppliedOf(ys));
    SegmentsJoin(n.evidenceOffsets, n.evidenceRefs, n1.evidenceOffsets, n1.evidenceRefs, n2.evidenceOffsets,
                 n2.evidenceRefs, UsedOf(xs), UsedOf(ys));
    SegmentsJoin(n.remediationOffsets, n.remediationIDs, n1.remediationOffsets, n1.remediationIDs, n2.remediationOffsets,
                 n2.remediationIDs, RemediationOf(xs), RemediationOf(ys));
    FixedColumnsAppend(n, n1, n2, xs, ys, sx, sy, starts, edges);
  }

  lemma {:induction false} SegmentListsAppend(xs: seq<Decision>, ys: seq<Decision>)
    ensures AppliedOf(xs + ys) == AppliedOf(xs) + AppliedOf(ys)
    ensures UsedOf(xs + ys) == UsedOf(xs) + UsedOf(ys)
    ensures RemediationOf(xs + ys) == RemediationOf(xs) + RemediationOf(ys)
  {}

  const FIXED_COLUMNS := 8
  const EDGE_COLUMN := 6

  function FixedColumn(n: Numeric, c: nat): seq<nat> {
    match c
    case 0 => n.outcomeIDs
    case 1 => n.driverKinds
    case 2 => n.driverRequirementIDs
    case 3 => n.driverClauseIDs
    case 4 => n.driverReasonIDs
    case 5 => n.driverFieldIDs
    case 6 => n.driverEvidenceEdgeIDs
    case _ => n.issueIDs
  }

  /** What fixed column c holds for a decision whose row has its first edge at start. */
  function FixedCell(d: Decision, start: nat, c: nat): nat {
    match c
    case 0 => d.driver.outcome
    case 1 => d.driver.kind
    case 2 => d.driver.requirement
    case 3 => d.driver.clause
    case 4 => d.driver.reason
    case 5 => d.driver.field
    case 6 => if d.driver.edge == 0 then 0 else start + d.driver.edge
    case _ => if d.driver.outcome != OUTCOME_APPROVE then d.driver.reason else 0
  }

  lemma {:induction false} FixedCells(n: Numeric, ds: seq<Decision>, starts: seq<nat>, c: nat)
    requires ColumnsHold(n, ds, starts) && c < FIXED_COLUMNS
    ensures |FixedColumn(n, c)| == |ds| == |starts|
    ensures forall r :: 0 <= r < |ds| ==> FixedColumn(n, c)[r] == FixedCell(ds[r], starts[r], c)
  {
    hide Segment, CSR;
    forall r | 0 <= r < |ds|
      ensures FixedColumn(n, c)[r] == FixedCell(ds[r], starts[r], c)
    {
      assert Holds(n, r, ds[r], starts[r]);
    }
  }

  lemma {:induction false} FixedColumnAppends(n: Numeric, n1: Numeric, n2: Numeric, xs: seq<Decision>, ys: seq<Decision>,
                                              sx: seq<nat>, sy: seq<nat>, starts: seq<nat>, edges: nat, c: nat)
    requires |sx| == |xs| && |sy| == |ys| && |starts| == |xs| + |ys|
    requires forall r :: 0 <= r < |xs| ==> starts[r] == sx[r]
    requires forall r :: 0 <= r < |ys| ==> starts[|xs| + r] == edges + sy[r]
    requires ColumnsHold(n, xs + ys, starts) && ColumnsHold(n1, xs, sx) && ColumnsHold(n2, ys, sy)
    requires c < FIXED_COLUMNS
    ensures FixedColumn(n, c) == FixedColumn(n1, c)
      + if c == EDGE_COLUMN then ShiftEdges(FixedColumn(n2, c), edges) else FixedColumn(n2, c)
  {
    hide ColumnsHold, FixedColumn, FixedCell;
    FixedCells(n, xs + ys, starts, c);
    FixedCells(n1, xs, sx, c);
    FixedCells(n2, ys, sy, c);
    var tail := if c == EDGE_COLUMN then ShiftEdges(FixedColumn(n2, c), edges) else FixedColumn(n2, c);
    forall r | 0 <= r < |xs|
      ensures FixedColumn(n, c)[r] == FixedColumn(n1, c)[r]
    {
      assert (xs + ys)[r] == xs[r];
    }
    forall r | 0 <= r < |ys|
      ensures tail[r] == FixedColumn(n, c)[|xs| + r]
    {
      assert (xs + ys)[|xs| + r] == ys[r];
      CellShifts(ys[r], sy[r], edges, c);
    }
    ColumnAppend(FixedColumn(n, c), FixedColumn(n1, c), tail);
  }

  /** Moving a row behind `edges` others raises its edge and nothing else. */
  lemma {:induction false} CellShifts(d: Decision, start: nat, edges: nat, c: nat)
    requires c < FIXED_COLUMNS
    ensures FixedCell(d, edges + start, c)
         == FixedCell(d, start, c) + if c == EDGE_COLUMN && FixedCell(d, start, c) != 0 then edges else 0
  {}

  lemma {:induction false} FixedColumnsAppend(n: Numeric, n1: Numeric, n2: Numeric, xs: seq<Decision>, ys: seq<Decision>,
                           sx: seq<nat>, sy: seq<nat>, starts: seq<nat>, edges: nat)
    requires |sx| == |xs| && |sy| == |ys| && |starts| == |xs| + |ys|
    requires forall r :: 0 <= r < |xs| ==> starts[r] == sx[r]
    requires forall r :: 0 <= r < |ys| ==> starts[|xs| + r] == edges + sy[r]
    requires ColumnsHold(n, xs + ys, starts) && ColumnsHold(n1, xs, sx) && ColumnsHold(n2, ys, sy)
    ensures n.outcomeIDs == n1.outcomeIDs + n2.outcomeIDs
    ensures n.driverKinds == n1.driverKinds + n2.driverKinds
    ensures n.driverRequirementIDs == n1.driverRequirementIDs + n2.driverRequirementIDs
    ensures n.driverClauseIDs == n1.driverClauseIDs + n2.driverClauseIDs
    ensures n.driverReasonIDs == n1.driverReasonIDs + n2.driverReasonIDs
    ensures n.driverFieldIDs == n1.driverFieldIDs + n2.driverFieldIDs
    ensures n.driverEvidenceEdgeIDs == n1.driverEvidenceEdgeIDs + ShiftEdges(n2.driverEvidenceEdgeIDs, edges)
    ensures n.issueIDs == n1.issueIDs + n2.issueIDs
  {
    hide ColumnsHold;
    forall c: nat | c < FIXED_COLUMNS
      ensures FixedColumn(n, c) == FixedColumn(n1, c)
        + if c == EDGE_COLUMN then ShiftEdges(FixedColumn(n2, c), edges) else FixedColumn(n2, c)
    {
      FixedColumnAppends(n, n1, n2, xs, ys, sx, sy, starts, edges, c);
    }
    assert FixedColumn(n, 0) == FixedColumn(n1, 0) + FixedColumn(n2, 0);
    assert FixedColumn(n, 1) == FixedColumn(n1, 1) + FixedColumn(n2, 1);
    assert FixedColumn(n, 2) == FixedColumn(n1, 2) + FixedColumn(n2, 2);
    assert FixedColumn(n, 3) == FixedColumn(n1, 3) + FixedColumn(n2, 3);
    assert FixedColumn(n, 4) == FixedColumn(n1, 4) + FixedColumn(n2, 4);
    assert FixedColumn(n, 5) == FixedColumn(n1, 5) + FixedColumn(n2, 5);
    assert FixedColumn(n, 6) == FixedColumn(n1, 6) + ShiftEdges(FixedColumn(n2, 6), edges);
    assert FixedColumn(n, 7) == FixedColumn(n1, 7) + FixedColumn(n2, 7);
  }

  lemma {:induction false} ColumnAppend(c: seq<nat>, c1: seq<nat>, c2: seq<nat>)
    requires |c| == |c1| + |c2| && (forall r :: 0 <= r < |c1| ==> c[r] == c1[r])
    requires forall r :: 0 <= r < |c2| ==> c2[r] == c[|c1| + r]
    ensures c == c1 + c2
  {}

  // ----- the evaluator

  function Starts(requests: seq<Request>): (s: seq<nat>)
    ensures |s| == |requests|
  {
    seq(|requests|, r requires 0 <= r < |requests| => EdgeTotal(requests, r))
  }

  lemma {:induction false} EvaluatedColumnsHold(p: Program, requests: seq<Request>, pack: seq<Evidence>, b: Batch,
                                                n: Numeric)
    requires Executable(p) && Represents(b, p.symbols, p.code.evidenceKindSymbols, requests, pack) && AllResolved(n, p, b)
    ensures ColumnsHold(n, Decisions(p, requests, pack), Starts(requests))
  {
    hide Executable, ColumnsShaped, EvidenceShaped, EdgesShaped, RowOf, RecordsOf, RowDecision, Holds, CSR,
         EdgeTotal;
    forall r | 0 <= r < |requests|
      ensures Holds(n, r, Decisions(p, requests, pack)[r], Starts(requests)[r])
    {
      assert RowResolved(n, p, b, r);
    }
  }

  lemma {:induction false} EdgeTotalJoin(xs: seq<Request>, ys: seq<Request>, k: nat)
    requires k <= |xs| + |ys|
    ensures EdgeTotal(xs + ys, k) == if k <= |xs| then EdgeTotal(xs, k) else EdgeTotal(xs, |xs|) + EdgeTotal(ys, k - |xs|)
  {
    if k > 0 { EdgeTotalJoin(xs, ys, k - 1); }
  }

  /** Row independence: for any split of a request list, inside a 64-row word or not, evaluating the
      whole gives exactly the columns of the two parts one after the other, with offsets and nonzero
      edges raised by what precedes. */
  lemma {:induction false} EvaluationConcatenates(p: Program, xs: seq<Request>, ys: seq<Request>, pack: seq<Evidence>,
                               b: Batch, b1: Batch, b2: Batch, n: Numeric, n1: Numeric, n2: Numeric)
    requires Executable(p)
    requires Represents(b, p.symbols, p.code.evidenceKindSymbols, xs + ys, pack) && AllResolved(n, p, b)
    requires Represents(b1, p.symbols, p.code.evidenceKindSymbols, xs, pack) && AllResolved(n1, p, b1)
    requires Represents(b2, p.symbols, p.code.evidenceKindSymbols, ys, pack) && AllResolved(n2, p, b2)
    ensures Concatenated(n, n1, n2, EdgeTotal(xs, |xs|))
  {
    hide Executable, Represents, AllResolved, ColumnsHold, RowDecision, Concatenated, EdgeTotal;
    EvaluatedColumnsHold(p, xs + ys, pack, b, n);
    EvaluatedColumnsHold(p, xs, pack, b1, n1);
    EvaluatedColumnsHold(p, ys, pack, b2, n2);
    assert Decisions(p, xs + ys, pack) == Decisions(p, xs, pack) + Decisions(p, ys, pack);
    forall r | 0 <= r < |xs|
      ensures Starts(xs + ys)[r] == Starts(xs)[r]
    {
      EdgeTotalJoin(xs, ys, r);
    }
    forall r | 0 <= r < |ys|
      ensures Starts(xs + ys)[|xs| + r] == EdgeTotal(xs, |xs|) + Starts(ys)[r]
    {
      EdgeTotalJoin(xs, ys, |xs| + r);
      NoEdges(ys, pack);
    }
    ColumnsConcatenate(n, n1, n2, Decisions(p, xs, pack), Decisions(p, ys, pack), Starts(xs), Starts(ys), Starts(xs + ys),
                       EdgeTotal(xs, |xs|));
  }
}
