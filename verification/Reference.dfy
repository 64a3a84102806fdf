/** The reference decision procedure: it walks the source policy over the raw strings of one
    request and of the evidence pack. Nothing here knows about symbols, columns or planes. */
module Reference {
  import opened Schema
  import opened Ast
  import opened Verdicts
  import opened Findings

  // ----- evidence

  /** The one-based position of the first record named id among the first k, zero when there is none. */
  function FindRecord(pack: seq<Evidence>, id: string, k: nat): (r: nat)
    requires k <= |pack|
    ensures r <= k
    ensures r != 0 ==> pack[r - 1].id == id
    ensures r == 0 <==> forall i :: 0 <= i < k ==> pack[i].id != id
  {
    if k == 0 then 0
    else
      var r := FindRecord(pack, id, k - 1);
      if r != 0 then r else if pack[k - 1].id == id then k else 0
  }

  function Resolve(pack: seq<Evidence>, id: string): (r: nat)
    ensures r <= |pack|
    ensures r != 0 ==> pack[r - 1].id == id
  {
    FindRecord(pack, id, |pack|)
  }

  predicate WrongQualifier(want: EvidencePredicate, have: Evidence, q: nat) {
    want.Wanted(q) != "" && have.Qualifier(q) != "" && have.Qualifier(q) != want.Wanted(q)
  }

  predicate OpenQualifier(want: EvidencePredicate, have: Evidence, q: nat) {
    want.Wanted(q) != "" && have.Qualifier(q) == ""
  }

  function QualifierGrade(want: EvidencePredicate, have: Evidence): nat {
    if exists q :: 0 <= q < QUALIFIER_COUNT && WrongQualifier(want, have, q) then GRADE_WRONG
    else if exists q :: 0 <= q < QUALIFIER_COUNT && OpenQualifier(want, have, q) then GRADE_UNCLEAR
    else GRADE_SATISFIED
  }

  function RecordGrade(want: EvidencePredicate, have: Evidence): nat {
    if have.kind != want.kind then GRADE_MISSING
    else if have.Conflicting() then GRADE_CONFLICT
    else if have.Stale() then GRADE_STALE
    else if have.Revoked() then GRADE_REVOKED
    else QualifierGrade(want, have)
  }

  function ReferenceGrade(want: EvidencePredicate, pack: seq<Evidence>, id: string): nat {
    var r := Resolve(pack, id);
    if r == 0 then GRADE_MISSING else RecordGrade(want, pack[r - 1])
  }

  /** The best grade among the referenced records. */
  function ListGrade(want: EvidencePredicate, pack: seq<Evidence>, ids: seq<string>): nat {
    if ids == [] then GRADE_MISSING
    else Max(ListGrade(want, pack, ids[..|ids| - 1]), ReferenceGrade(want, pack, ids[|ids| - 1]))
  }

  // ----- expressions

  function FieldVerdict(value: string, valid: bool, matches: bool): Verdict {
    if value == "" then MISSING else if !valid then UNCLEAR else if matches then SATISFIED else FALSE
  }

  function EvalExpression(e: Expression, request: Request, pack: seq<Evidence>): Verdict
    decreases e
  {
    match e.op
    case All =>
      Conj(seq(|e.children|, i requires 0 <= i < |e.children| => EvalExpression(e.children[i], request, pack)))
    case Equal =>
      var f := LookupField(e.field);
      var value := request.Field(f);
      FieldVerdict(value, ValidFieldValue(f, value), value == e.value)
    case In =>
      var f := LookupField(e.field);
      var value := request.Field(f);
      FieldVerdict(value, ValidFieldValue(f, value), value in e.values)
    case EvidenceMatches =>
      GradeVerdict(ListGrade(e.evidence, pack, request.evidenceIDs))
    case UnknownOperator(_) => BLANK
  }

  /** Some evidence predicate inside e names this kind. */
  predicate NamesKind(e: Expression, kind: string)
    decreases e
  {
    || (e.op.EvidenceMatches? && e.evidence.kind == kind)
    || exists i :: 0 <= i < |e.children| && NamesKind(e.children[i], kind)
  }

  // ----- findings, in the order in which they are found

  predicate FieldIssue(request: Request, f: nat) {
    request.Field(f) == "" || !ValidFieldValue(f, request.Field(f))
  }

  /** The first field at or after f without a valid value. */
  function FirstIssue(request: Request, f: nat): nat
    requires f <= FIELD_COUNT
    decreases FIELD_COUNT - f
  {
    if f == FIELD_COUNT then 0 else if FieldIssue(request, f) then f else FirstIssue(request, f + 1)
  }

  function SemanticFindings(request: Request): seq<Finding> {
    var f := FirstIssue(request, FIELD_REQUESTER);
    if f == 0 then []
    else [Finding(OUTCOME_ESCALATE, DRIVER_SEMANTIC, 0, 0,
                  if request.Field(f) == "" then REASON_MISSING else REASON_UNCLEAR, f, 0)]
  }

  function ReferenceFindings(pack: seq<Evidence>, ids: seq<string>, k: nat): seq<Finding>
    requires k <= |ids|
  {
    if k == 0 then []
    else ReferenceFindings(pack, ids, k - 1)
         + (if Resolve(pack, ids[k - 1]) != 0 then []
            else [Finding(OUTCOME_ESCALATE, DRIVER_MISSING_REFERENCE, 0, 0, REASON_MISSING, 0, k)])
  }

  function OutcomeID(o: Outcome): nat {
    match o
    case Approve => OUTCOME_APPROVE
    case Reject => OUTCOME_REJECT
    case Revise => OUTCOME_REVISE
    case Escalate => OUTCOME_ESCALATE
    case UnknownOutcome(_) => 0
  }

  predicate Applies(r: Requirement, request: Request, pack: seq<Evidence>) {
    var v := EvalExpression(r.applicability, request, pack);
    v.pos && !v.neg
  }

  /** The findings of the first k clauses of requirement i; clauses are numbered through the policy. */
  function ClauseFindings(rs: seq<Requirement>, i: nat, k: nat, request: Request, pack: seq<Evidence>): seq<Finding>
    requires i < |rs| && k <= |rs[i].clauses|
  {
    if k == 0 then []
    else
      var c := rs[i].clauses[k - 1];
      var reason := EvalExpression(c.assertion, request, pack).reason;
      ClauseFindings(rs, i, k - 1, request, pack)
      + [Finding(OutcomeID(c.resolution.At(reason)), DRIVER_CLAUSE, i + 1, |Clauses(rs, i)| + k, reason, 0, 0)]
  }

  function RequirementFindings(rs: seq<Requirement>, k: nat, request: Request, pack: seq<Evidence>): seq<Finding>
    requires k <= |rs|
  {
    if k == 0 then []
    else RequirementFindings(rs, k - 1, request, pack)
         + (if Applies(rs[k - 1], request, pack)
            then ClauseFindings(rs, k - 1, |rs[k - 1].clauses|, request, pack) else [])
  }

  /** The numbers of the applicable requirements among the first k. */
  function Applied(rs: seq<Requirement>, k: nat, request: Request, pack: seq<Evidence>): (ns: seq<nat>)
    requires k <= |rs|
    ensures |ns| <= k && forall n :: n in ns ==> 1 <= n <= k
  {
    if k == 0 then []
    else Applied(rs, k - 1, request, pack) + (if Applies(rs[k - 1], request, pack) then [k] else [])
  }

  const NO_APPLICABLE := Finding(OUTCOME_ESCALATE, DRIVER_NO_APPLICABLE, 0, 0, REASON_UNVERIFIABLE, 0, 0)

  function AllFindings(p: Policy, request: Request, pack: seq<Evidence>): seq<Finding> {
    var rs := p.requirements;
    SemanticFindings(request)
    + ReferenceFindings(pack, request.evidenceIDs, |request.evidenceIDs|)
    + RequirementFindings(rs, |rs|, request, pack)
    + (if Applied(rs, |rs|, request, pack) == [] then [NO_APPLICABLE] else [])
  }

  // ----- provenance and remediation

  predicate ClauseNames(r: Requirement, kind: string) {
    exists j :: 0 <= j < |r.clauses| && NamesKind(r.clauses[j].assertion, kind)
  }

  /** Some clause of an applicable requirement asks for evidence of this kind. */
  predicate KindRequired(p: Policy, request: Request, pack: seq<Evidence>, kind: string) {
    exists i :: 0 <= i < |p.requirements| && Applies(p.requirements[i], request, pack)
                && ClauseNames(p.requirements[i], kind)
  }

  /** Records of required kinds among the first k references, each once, in reference order. */
  function Used(p: Policy, request: Request, pack: seq<Evidence>, k: nat): (ns: seq<nat>)
    requires k <= |request.evidenceIDs|
    ensures forall n :: n in ns ==> 1 <= n <= |pack|
  {
    if k == 0 then []
    else
      var ns := Used(p, request, pack, k - 1);
      var r := Resolve(pack, request.evidenceIDs[k - 1]);
      if r == 0 || !KindRequired(p, request, pack, pack[r - 1].kind) || r in ns then ns else ns + [r]
  }

  function Counting(base: nat, n: nat): (ns: seq<nat>)
    ensures |ns| == n && forall j :: 0 <= j < n ==> ns[j] == base + j + 1
  {
    seq(n, j => base + j + 1)
  }

  datatype Decision = Decision(driver: Finding, applied: seq<nat>, used: seq<nat>, remediation: seq<nat>)

  /** The winning clause's remediations, in the policy-wide numbering. */
  function RemediationNumbers(cs: seq<Clause>, w: Finding): seq<nat> {
    if w.outcome == OUTCOME_REVISE && w.kind == DRIVER_CLAUSE && 1 <= w.clause <= |cs|
    then Counting(|Remediations(cs, w.clause - 1)|, |cs[w.clause - 1].remediations|)
    else []
  }

  function Decide(p: Policy, request: Request, pack: seq<Evidence>): Decision {
    var rs := p.requirements;
    var w := Best(COMPILED_PRECEDENCE, AllFindings(p, request, pack));
    Decision(w, Applied(rs, |rs|, request, pack), Used(p, request, pack, |request.evidenceIDs|),
             RemediationNumbers(Clauses(rs, |rs|), w))
  }
}
