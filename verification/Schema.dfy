/** The closed vocabulary shared by source policies and requests: field, reason and outcome ids
    (internal/schema), the transport records (internal/input/types.go), and the text tests the
    validators use. */
module Schema {

  // Field ids; zero is the invalid id.
  const FIELD_REQUESTER := 1
  const FIELD_TRUST_LEVEL := 2
  const FIELD_ACTION := 3
  const FIELD_OUTPUT_KIND := 4
  const FIELD_DATASET := 5
  const FIELD_ENVIRONMENT := 6
  const FIELD_USAGE_LIMIT := 7
  const FIELD_COUNT := 8

  // Reason ids; zero is the invalid id.
  const REASON_SATISFIED := 1
  const REASON_FALSE := 2
  const REASON_MISSING := 3
  const REASON_INVALID_EVIDENCE := 4
  const REASON_STALE := 5
  const REASON_UNCLEAR := 6
  const REASON_UNVERIFIABLE := 7
  const REASON_CONFLICT := 8
  const REASON_COUNT := 8

  // Outcome ids; zero is the invalid id.
  const OUTCOME_APPROVE := 1
  const OUTCOME_REJECT := 2
  const OUTCOME_REVISE := 3
  const OUTCOME_ESCALATE := 4
  const OUTCOME_COUNT := 4

  // Evidence qualifiers, in the order in which the evaluator compares them.
  const QUALIFIER_STATUS := 0
  const QUALIFIER_TIMING := 1
  const QUALIFIER_REVIEWER := 2
  const QUALIFIER_TIMESTAMP_STATE := 3
  const QUALIFIER_SUBJECT := 4
  const QUALIFIER_ATTESTATION_STATE := 5
  const QUALIFIER_SCOPE := 6
  const QUALIFIER_ADJUSTMENT_TYPE := 7
  const QUALIFIER_COUNT := 8

  const MAX_UINT16 := 0xFFFF
  const MAX_UINT32 := 0xFFFF_FFFF
  const MAX_INT := 0x7FFF_FFFF_FFFF_FFFF

  /** The narrowing conversions uint16(n) and uint32(n). */
  function U16(n: nat): nat { n % 0x1_0000 }
  function U32(n: nat): nat { n % 0x1_0000_0000 }

  predicate IsSpace(c: char) {
    c == ' ' || c == '\t' || c == '\n' || c == '\r' || c == '\U{0b}' || c == '\U{0c}'
  }

  function TrimLeft(s: string): string {
    if s != "" && IsSpace(s[0]) then TrimLeft(s[1..]) else s
  }

  function TrimRight(s: string): string {
    if s != "" && IsSpace(s[|s| - 1]) then TrimRight(s[..|s| - 1]) else s
  }

  /** strings.TrimSpace. */
  function Trim(s: string): string {
    TrimRight(TrimLeft(s))
  }

  /** The field id of a field name, zero when the name is unknown. */
  function LookupField(name: string): (f: nat)
    ensures f < FIELD_COUNT
  {
    if name == "requester" then FIELD_REQUESTER
    else if name == "trust_level" then FIELD_TRUST_LEVEL
    else if name == "action" then FIELD_ACTION
    else if name == "output_kind" then FIELD_OUTPUT_KIND
    else if name == "dataset" then FIELD_DATASET
    else if name == "environment" then FIELD_ENVIRONMENT
    else if name == "usage_limit" then FIELD_USAGE_LIMIT
    else 0
  }

  function FieldName(f: nat): string {
    if f == FIELD_REQUESTER then "requester"
    else if f == FIELD_TRUST_LEVEL then "trust_level"
    else if f == FIELD_ACTION then "action"
    else if f == FIELD_OUTPUT_KIND then "output_kind"
    else if f == FIELD_DATASET then "dataset"
    else if f == FIELD_ENVIRONMENT then "environment"
    else if f == FIELD_USAGE_LIMIT then "usage_limit"
    else ""
  }

  predicate ValidFieldValue(f: nat, value: string) {
    if f == FIELD_REQUESTER then value != "" && Trim(value) == value
    else if f == FIELD_TRUST_LEVEL then value == "external" || value == "trusted_internal"
    else if f == FIELD_ACTION then value == "aggregate_analysis" || value == "row_level_export"
    else if f == FIELD_OUTPUT_KIND then value == "aggregate_counts" || value == "individual_records"
    else if f == FIELD_DATASET then value == "protected_dataset"
    else if f == FIELD_ENVIRONMENT then value == "local_approved_env" || value == "unverified_remote_env"
    else if f == FIELD_USAGE_LIMIT then value == "standard" || value == "above_standard_limit"
    else false
  }

  predicate ValidEvidenceKind(kind: string) {
    kind == "approval_record" || kind == "execution_environment_attestation"
    || kind == "usage_limit_adjustment"
  }

  datatype Request = Request(
    id: string, requester: string, trustLevel: string, action: string, outputKind: string,
    dataset: string, environment: string, usageLimit: string, evidenceIDs: seq<string>)
  {
    function Field(f: nat): string {
      if f == FIELD_REQUESTER then requester
      else if f == FIELD_TRUST_LEVEL then trustLevel
      else if f == FIELD_ACTION then action
      else if f == FIELD_OUTPUT_KIND then outputKind
      else if f == FIELD_DATASET then dataset
      else if f == FIELD_ENVIRONMENT then environment
      else if f == FIELD_USAGE_LIMIT then usageLimit
      else ""
    }
  }

  datatype Evidence = Evidence(
    id: string, kind: string, status: string, timing: string, reviewer: string,
    reviewerState: string, timestampState: string, subject: string,
    attestationState: string, scope: string, adjustmentType: string)
  {
    function Qualifier(q: nat): string {
      if q == QUALIFIER_STATUS then status
      else if q == QUALIFIER_TIMING then timing
      else if q == QUALIFIER_REVIEWER then reviewer
      else if q == QUALIFIER_TIMESTAMP_STATE then timestampState
      else if q == QUALIFIER_SUBJECT then subject
      else if q == QUALIFIER_ATTESTATION_STATE then attestationState
      else if q == QUALIFIER_SCOPE then scope
      else if q == QUALIFIER_ADJUSTMENT_TYPE then adjustmentType
      else ""
    }

    predicate Conflicting() {
      status == "conflicting" || timestampState == "conflicting"
      || reviewerState == "one_valid_one_revoked"
    }

    predicate Stale() {
      timestampState == "stale"
    }

    predicate Revoked() {
      status == "revoked" || status == "expired" || reviewerState == "revoked"
    }
  }

  /** A known field name is read back from its id. */
  lemma {:induction false} FieldNameOfLookup(name: string)
    ensures LookupField(name) != 0 ==> FieldName(LookupField(name)) == name
  {}

  /** A narrowing conversion loses nothing exactly when the count fits. */
  lemma {:induction false} NarrowingLossless(n: nat)
    ensures U16(n) == n <==> n <= MAX_UINT16
    ensures U32(n) == n <==> n <= MAX_UINT32
  {}
}
