/** The caller-owned result columns and their length and capacity contract (internal/result/batch.go). */
module Results {
  import opened Schema
  import opened Slices
  import opened Reference

  class ResultBatch {
    var outcomeIDs: Slice<nat>
    var driverKinds: Slice<nat>
    var driverRequirementIDs: Slice<nat>
    var driverClauseIDs: Slice<nat>
    var driverReasonIDs: Slice<nat>
    var driverFieldIDs: Slice<nat>
    var driverEvidenceEdgeIDs: Slice<nat>
    var issueIDs: Slice<nat>
    var requirementOffsets: Slice<nat>
    var requirementIDs: Slice<nat>
    var evidenceOffsets: Slice<nat>
    var evidenceRefs: Slice<nat>
    var remediationOffsets: Slice<nat>
    var remediationIDs: Slice<nat>

    constructor ()
    {
      outcomeIDs, driverKinds, driverRequirementIDs, driverClauseIDs := Slice([], []), Slice([], []), Slice([], []),
          Slice([], []);
      driverReasonIDs, driverFieldIDs, driverEvidenceEdgeIDs, issueIDs := Slice([], []), Slice([], []), Slice([], []),
          Slice([], []);
      requirementOffsets, requirementIDs := Slice([], []), Slice([], []);
      evidenceOffsets, evidenceRefs := Slice([], []), Slice([], []);
      remediationOffsets, remediationIDs := Slice([], []), Slice([], []);
    }

    /** Every column has room for this many rows and values. */
    predicate Roomy(rows: nat, requirements: nat, evidence: nat, remediations: nat)
      reads this
    {
      RowsRoomy(rows) && RangesRoomy(rows, requirements, evidence, remediations)
    }

    predicate RowsRoomy(rows: nat)
      reads this`outcomeIDs, this`driverKinds, this`driverRequirementIDs, this`driverClauseIDs, this`driverReasonIDs,
          this`driverFieldIDs, this`driverEvidenceEdgeIDs, this`issueIDs
    {
      && outcomeIDs.Cap() >= rows
      && driverKinds.Cap() >= rows
      && driverRequirementIDs.Cap() >= rows
      && driverClauseIDs.Cap() >= rows
      && driverReasonIDs.Cap() >= rows
      && driverFieldIDs.Cap() >= rows
      && driverEvidenceEdgeIDs.Cap() >= rows
      && issueIDs.Cap() >= rows
    }

    predicate RangesRoomy(rows: nat, requirements: nat, evidence: nat, remediations: nat)
      reads this`requirementOffsets, this`evidenceOffsets, this`remediationOffsets, this`requirementIDs,
          this`evidenceRefs, this`remediationIDs
    {
      && requirementOffsets.Cap() >= rows + 1
      && evidenceOffsets.Cap() >= rows + 1
      && remediationOffsets.Cap() >= rows + 1
      && ValuesRoomy(requirements, evidence, remediations)
    }

    predicate ValuesRoomy(requirements: nat, evidence: nat, remediations: nat)
      reads this`requirementIDs, this`evidenceRefs, this`remediationIDs
    {
      && requirementIDs.Cap() >= requirements
      && evidenceRefs.Cap() >= evidence
      && remediationIDs.Cap() >= remediations
    }

    /** Fixed columns of this many zero rows, and no values yet. */
    predicate Blank(rows: nat)
      reads this
    {
      RowsBlank(rows) && RangesBlank(rows)
    }

    predicate RowsBlank(rows: nat)
      reads this`outcomeIDs, this`driverKinds, this`driverRequirementIDs, this`driverClauseIDs, this`driverReasonIDs,
          this`driverFieldIDs, this`driverEvidenceEdgeIDs, this`issueIDs
    {
      && outcomeIDs.items == Fill(rows, 0)
      && driverKinds.items == Fill(rows, 0)
      && driverRequirementIDs.items == Fill(rows, 0)
      && driverClauseIDs.items == Fill(rows, 0)
      && driverReasonIDs.items == Fill(rows, 0)
      && driverFieldIDs.items == Fill(rows, 0)
      && driverEvidenceEdgeIDs.items == Fill(rows, 0)
      && issueIDs.items == Fill(rows, 0)
    }

    predicate RangesBlank(rows: nat)
      reads this`requirementOffsets, this`evidenceOffsets, this`remediationOffsets, this`requirementIDs,
          this`evidenceRefs, this`remediationIDs
    {
      && requirementOffsets.items == Fill(rows + 1, 0)
      && evidenceOffsets.items == Fill(rows + 1, 0)
      && remediationOffsets.items == Fill(rows + 1, 0)
      && requirementIDs.items == []
      && evidenceRefs.items == []
      && remediationIDs.items == []
    }

    method Ensure(rows: nat, requirements: nat, evidence: nat, remediations: nat)
      modifies this
      ensures Blank(rows) && Roomy(rows, requirements, evidence, remediations)
    {
      EnsureRows(rows);
      EnsureRanges(rows, requirements, evidence, remediations);
    }

    method EnsureRows(rows: nat)
      modifies this`outcomeIDs, this`driverKinds, this`driverRequirementIDs, this`driverClauseIDs,
          this`driverReasonIDs, this`driverFieldIDs, this`driverEvidenceEdgeIDs, this`issueIDs
      ensures RowsBlank(rows) && RowsRoomy(rows)
    {
      hide Fill, Slice.Cap, ResizeClear;
      outcomeIDs := ResizeClear(outcomeIDs, rows, 0);
      driverKinds := ResizeClear(driverKinds, rows, 0);
      driverRequirementIDs := ResizeClear(driverRequirementIDs, rows, 0);
      driverClauseIDs := ResizeClear(driverClauseIDs, rows, 0);
      driverReasonIDs := ResizeClear(driverReasonIDs, rows, 0);
      driverFieldIDs := ResizeClear(driverFieldIDs, rows, 0);
      driverEvidenceEdgeIDs := ResizeClear(driverEvidenceEdgeIDs, rows, 0);
      issueIDs := ResizeClear(issueIDs, rows, 0);
    }

    method EnsureRanges(rows: nat, requirements: nat, evidence: nat, remediations: nat)
      modifies this`requirementOffsets, this`evidenceOffsets, this`remediationOffsets, this`requirementIDs,
          this`evidenceRefs, this`remediationIDs
      ensures RangesBlank(rows) && RangesRoomy(rows, requirements, evidence, remediations)
    {
      hide Fill, Slice.Cap, ResizeClear, EnsureEmpty;
      requirementOffsets := ResizeClear(requirementOffsets, rows + 1, 0);
      evidenceOffsets := ResizeClear(evidenceOffsets, rows + 1, 0);
      remediationOffsets := ResizeClear(remediationOffsets, rows + 1, 0);
      requirementIDs := EnsureEmpty(requirementIDs, requirements, 0);
      evidenceRefs := EnsureEmpty(evidenceRefs, evidence, 0);
      remediationIDs := EnsureEmpty(remediationIDs, remediations, 0);
    }

    method CheckCapacity(rows: nat, requirements: nat, evidence: nat, remediations: nat) returns (ok: bool)
      ensures ok <==> Roomy(rows, requirements, evidence, remediations)
    {
      return outcomeIDs.Cap() >= rows && driverKinds.Cap() >= rows
             && driverRequirementIDs.Cap() >= rows && driverClauseIDs.Cap() >= rows
             && driverReasonIDs.Cap() >= rows && driverFieldIDs.Cap() >= rows
             && driverEvidenceEdgeIDs.Cap() >= rows && issueIDs.Cap() >= rows
             && requirementOffsets.Cap() >= rows + 1 && evidenceOffsets.Cap() >= rows + 1
             && remediationOffsets.Cap() >= rows + 1
             && requirementIDs.Cap() >= requirements && evidenceRefs.Cap() >= evidence
             && remediationIDs.Cap() >= remediations;
    }

    /** Reset never allocates, so it needs the room that CheckCapacity established. */
    method Reset(rows: nat)
      requires Roomy(rows, 0, 0, 0)
      modifies this
      ensures Blank(rows)
      ensures requirementIDs.Cap() == old(requirementIDs.Cap())
      ensures evidenceRefs.Cap() == old(evidenceRefs.Cap())
      ensures remediationIDs.Cap() == old(remediationIDs.Cap())
    {
      ResetRows(rows);
      ResetRanges(rows);
    }

    method ResetRows(rows: nat)
      requires RowsRoomy(rows)
      modifies this`outcomeIDs, this`driverKinds, this`driverRequirementIDs, this`driverClauseIDs,
          this`driverReasonIDs, this`driverFieldIDs, this`driverEvidenceEdgeIDs, this`issueIDs
      ensures RowsBlank(rows)
    {
      hide Fill, Slice.Cap, Slice.Reslice, Clear;
      outcomeIDs := Clear(outcomeIDs.Reslice(rows), 0);
      driverKinds := Clear(driverKinds.Reslice(rows), 0);
      driverRequirementIDs := Clear(driverRequirementIDs.Reslice(rows), 0);
      driverClauseIDs := Clear(driverClauseIDs.Reslice(rows), 0);
      driverReasonIDs := Clear(driverReasonIDs.Reslice(rows), 0);
      driverFieldIDs := Clear(driverFieldIDs.Reslice(rows), 0);
      driverEvidenceEdgeIDs := Clear(driverEvidenceEdgeIDs.Reslice(rows), 0);
      issueIDs := Clear(issueIDs.Reslice(rows), 0);
    }

    method ResetRanges(rows: nat)
      requires RangesRoomy(rows, 0, 0, 0)
      modifies this`requirementOffsets, this`evidenceOffsets, this`remediationOffsets, this`requirementIDs,
          this`evidenceRefs, this`remediationIDs
      ensures RangesBlank(rows)
      ensures requirementIDs.Cap() == old(requirementIDs.Cap())
      ensures evidenceRefs.Cap() == old(evidenceRefs.Cap())
      ensures remediationIDs.Cap() == old(remediationIDs.Cap())
    {
      hide Fill, Slice.Cap, Slice.Reslice, Clear;
      requirementOffsets := Clear(requirementOffsets.Reslice(rows + 1), 0);
      evidenceOffsets := Clear(evidenceOffsets.Reslice(rows + 1), 0);
      remediationOffsets := Clear(remediationOffsets.Reslice(rows + 1), 0);
      requirementIDs := requirementIDs.Reslice(0);
      evidenceRefs := evidenceRefs.Reslice(0);
      remediationIDs := remediationIDs.Reslice(0);
    }

    /** The result columns as values. */
    function Value(): Numeric
      reads this
    {
      Numeric(outcomeIDs.items, driverKinds.items, driverRequirementIDs.items, driverClauseIDs.items,
              driverReasonIDs.items, driverFieldIDs.items, driverEvidenceEdgeIDs.items, issueIDs.items,
              requirementOffsets.items, requirementIDs.items, evidenceOffsets.items, evidenceRefs.items,
              remediationOffsets.items, remediationIDs.items)
    }
  }

  datatype Numeric = Numeric(
    outcomeIDs: seq<nat>, driverKinds: seq<nat>, driverRequirementIDs: seq<nat>, driverClauseIDs: seq<nat>,
    driverReasonIDs: seq<nat>, driverFieldIDs: seq<nat>, driverEvidenceEdgeIDs: seq<nat>, issueIDs: seq<nat>,
    requirementOffsets: seq<nat>, requirementIDs: seq<nat>, evidenceOffsets: seq<nat>, evidenceRefs: seq<nat>,
    remediationOffsets: seq<nat>, remediationIDs: seq<nat>)

  predicate DriverShaped(n: Numeric, rows: nat) {
    && |n.outcomeIDs| == rows && |n.driverKinds| == rows
    && |n.driverRequirementIDs| == rows && |n.driverClauseIDs| == rows
    && |n.driverReasonIDs| == rows && |n.driverFieldIDs| == rows
    && |n.driverEvidenceEdgeIDs| == rows && |n.issueIDs| == rows
  }

  predicate NumericShaped(n: Numeric, rows: nat) {
    && DriverShaped(n, rows)
    && |n.requirementOffsets| == rows + 1 && |n.evidenceOffsets| == rows + 1
    && |n.remediationOffsets| == rows + 1
  }

  /** Segment `row` of a CSR column is xs. */
  predicate Segment(offsets: seq<nat>, values: seq<nat>, row: nat, xs: seq<nat>) {
    && row + 1 < |offsets| && offsets[row] <= offsets[row + 1] <= |values|
    && values[offsets[row]..offsets[row + 1]] == xs
  }

  /** Row `row` of the columns holds the decision d; `start` is the row's first edge in the batch. */
  predicate Holds(n: Numeric, row: nat, d: Decision, start: nat)
    requires row < |n.outcomeIDs| && NumericShaped(n, |n.outcomeIDs|)
  {
    && n.outcomeIDs[row] == d.driver.outcome && n.driverKinds[row] == d.driver.kind
    && n.driverRequirementIDs[row] == d.driver.requirement && n.driverClauseIDs[row] == d.driver.clause
    && n.driverReasonIDs[row] == d.driver.reason && n.driverFieldIDs[row] == d.driver.field
    && n.driverEvidenceEdgeIDs[row] == (if d.driver.edge == 0 then 0 else start + d.driver.edge)
    && n.issueIDs[row] == (if d.driver.outcome != OUTCOME_APPROVE then d.driver.reason else 0)
    && Segment(n.requirementOffsets, n.requirementIDs, row, d.applied)
    && Segment(n.evidenceOffsets, n.evidenceRefs, row, d.used)
    && Segment(n.remediationOffsets, n.remediationIDs, row, d.remediation)
  }

  /** A CSR column: monotone offsets that start at zero and end at the value count. */
  predicate CSR(offsets: seq<nat>, values: nat) {
    && offsets != [] && offsets[0] == 0 && offsets[|offsets| - 1] == values
    && (forall i :: 0 <= i < |offsets| ==> offsets[i] <= values)
    && forall i :: 0 <= i < |offsets| - 1 ==> offsets[i] <= offsets[i + 1]
  }
}
