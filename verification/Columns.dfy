/** How one resolved row is appended to the result columns, stated on their values. */
module Columns {
  import opened Schema
  import opened Findings
  import opened Reference
  import opened Results

  /** The offsets written so far: they start at zero, never fall, and entry `row` is the value count. */
  predicate Prefix(offsets: seq<nat>, values: nat, row: nat) {
    && row < |offsets| && offsets[0] == 0 && offsets[row] == values
    && (forall i :: 0 <= i <= row ==> offsets[i] <= values)
    && forall i :: 0 <= i < row ==> offsets[i] <= offsets[i + 1]
  }

  /** xs was appended as segment `row`. */
  predicate Appended(offsets: seq<nat>, values: seq<nat>, offsets': seq<nat>, values': seq<nat>, row: nat, xs: seq<nat>) {
    && row + 1 < |offsets|
    && values' == values + xs
    && offsets' == offsets[row := |values|][row + 1 := |values| + |xs|]
  }

  lemma {:induction false} AppendKeepsPrefix(offsets: seq<nat>, values: seq<nat>, offsets': seq<nat>,
                                             values': seq<nat>, row: nat, xs: seq<nat>)
    requires Prefix(offsets, |values|, row) && Appended(offsets, values, offsets', values', row, xs)
    ensures Prefix(offsets', |values'|, row + 1)
    ensures Segment(offsets', values', row, xs) && |values'| == |values| + |xs|
  {}

  lemma {:induction false} AppendKeepsSegment(offsets: seq<nat>, values: seq<nat>, offsets': seq<nat>,
                                              values': seq<nat>, row: nat,
                           xs: seq<nat>, r: nat, ys: seq<nat>)
    requires Prefix(offsets, |values|, row) && Appended(offsets, values, offsets', values', row, xs)
    requires r < row && Segment(offsets, values, r, ys)
    ensures Segment(offsets', values', r, ys)
  {
    assert offsets'[r] == offsets[r] && offsets'[r + 1] == offsets[r + 1];
    assert values'[offsets[r]..offsets[r + 1]] == values[offsets[r]..offsets[r + 1]];
  }

  /** The eight per-row columns after d was written to `row`; an issue is recorded only off Approve. */
  predicate DriverWritten(n: Numeric, n': Numeric, row: nat, d: Finding, start: nat)
    requires row < |n.outcomeIDs| && DriverShaped(n, |n.outcomeIDs|)
  {
    && n'.outcomeIDs == n.outcomeIDs[row := d.outcome]
    && n'.driverKinds == n.driverKinds[row := d.kind]
    && n'.driverRequirementIDs == n.driverRequirementIDs[row := d.requirement]
    && n'.driverClauseIDs == n.driverClauseIDs[row := d.clause]
    && n'.driverReasonIDs == n.driverReasonIDs[row := d.reason]
    && n'.driverFieldIDs == n.driverFieldIDs[row := d.field]
    && n'.driverEvidenceEdgeIDs == n.driverEvidenceEdgeIDs[row := if d.edge == 0 then 0 else start + d.edge]
    && n'.issueIDs == if d.outcome != OUTCOME_APPROVE then n.issueIDs[row := d.reason] else n.issueIDs
  }

  predicate RangesAppended(n: Numeric, n': Numeric, row: nat, d: Decision) {
    && Appended(n.requirementOffsets, n.requirementIDs, n'.requirementOffsets, n'.requirementIDs, row, d.applied)
    && Appended(n.evidenceOffsets, n.evidenceRefs, n'.evidenceOffsets, n'.evidenceRefs, row, d.used)
    && Appended(n.remediationOffsets, n.remediationIDs, n'.remediationOffsets, n'.remediationIDs, row, d.remediation)
  }

  predicate Prefixes(n: Numeric, row: nat) {
    && Prefix(n.requirementOffsets, |n.requirementIDs|, row)
    && Prefix(n.evidenceOffsets, |n.evidenceRefs|, row)
    && Prefix(n.remediationOffsets, |n.remediationIDs|, row)
  }

  /** Writing a row keeps every earlier row and makes the new one hold. */
  lemma {:induction false} RowWritten(n: Numeric, n': Numeric, rows: nat, row: nat, d: Decision, start: nat)
    requires row < rows && NumericShaped(n, rows) && Prefixes(n, row) && n.issueIDs[row] == 0
    requires DriverWritten(n, n', row, d.driver, start) && RangesAppended(n, n', row, d)
    ensures NumericShaped(n', rows) && Prefixes(n', row + 1)
    ensures Holds(n', row, d, start)
    ensures forall r: nat :: row < r < rows ==> n'.issueIDs[r] == n.issueIDs[r]
  {
    hide Prefix, Segment;
    AppendKeepsPrefix(n.requirementOffsets, n.requirementIDs, n'.requirementOffsets, n'.requirementIDs, row, d.applied);
    AppendKeepsPrefix(n.evidenceOffsets, n.evidenceRefs, n'.evidenceOffsets, n'.evidenceRefs, row, d.used);
    AppendKeepsPrefix(n.remediationOffsets, n.remediationIDs, n'.remediationOffsets, n'.remediationIDs, row, d.remediation);
  }

  lemma {:induction false} EarlierRowKept(n: Numeric, n': Numeric, rows: nat, row: nat, d: Decision, start: nat,
                                          r: nat, e: Decision, s: nat)
    requires row < rows && NumericShaped(n, rows) && Prefixes(n, row)
    requires DriverWritten(n, n', row, d.driver, start) && RangesAppended(n, n', row, d)
    requires r < row && Holds(n, r, e, s)
    ensures NumericShaped(n', rows) && Holds(n', r, e, s)
  {
    hide Prefix, Segment;
    AppendKeepsSegment(n.requirementOffsets, n.requirementIDs, n'.requirementOffsets, n'.requirementIDs, row,
                       d.applied, r, e.applied);
    AppendKeepsSegment(n.evidenceOffsets, n.evidenceRefs, n'.evidenceOffsets, n'.evidenceRefs, row, d.used, r, e.used);
    AppendKeepsSegment(n.remediationOffsets, n.remediationIDs, n'.remediationOffsets, n'.remediationIDs, row,
                       d.remediation, r, e.remediation);
  }
}
