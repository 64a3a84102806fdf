/** What an answer has to say, in the terms of the policy language alone: field names, raw strings and
    truth states. Ids, ranks, verdict planes and the reference procedure do not occur. */
module Plain {
  import opened Schema
  import opened Ast
  import opened Rendering

  // ----- the request

  const FIELDS := ["requester", "trust_level", "action", "output_kind", "dataset", "environment", "usage_limit"]

  function Text(request: Request, name: string): string {
    match name
    case "requester" => request.requester
    case "trust_level" => request.trustLevel
    case "action" => request.action
    case "output_kind" => request.outputKind
    case "dataset" => request.dataset
    case "environment" => request.environment
    case "usage_limit" => request.usageLimit
    case _ => ""
  }

  predicate Space(c: char) {
    c in " \t\n\r\U{0b}\U{0c}"
  }

  /** A text without a space at either end. */
  predicate Tight(s: string) {
    s != "" ==> !Space(s[0]) && !Space(s[|s| - 1])
  }

  predicate Blank(s: string) {
    forall k :: 0 <= k < |s| ==> Space(s[k])
  }

  predicate Acceptable(name: string, value: string) {
    match name
    case "requester" => value != "" && Tight(value)
    case "trust_level" => value in {"external", "trusted_internal"}
    case "action" => value in {"aggregate_analysis", "row_level_export"}
    case "output_kind" => value in {"aggregate_counts", "individual_records"}
    case "dataset" => value == "protected_dataset"
    case "environment" => value in {"local_approved_env", "unverified_remote_env"}
    case "usage_limit" => value in {"standard", "above_standard_limit"}
    case _ => false
  }

  // ----- the evidence

  /** e is the first record of this id. */
  predicate Found(pack: seq<Evidence>, id: string, e: Evidence) {
    exists i :: 0 <= i < |pack| && FoundAt(pack, id, e, i)
  }

  predicate FoundAt(pack: seq<Evidence>, id: string, e: Evidence, i: nat)
    requires i < |pack|
  {
    pack[i] == e && e.id == id && forall j :: 0 <= j < i ==> pack[j].id != id
  }

  predicate Exists(pack: seq<Evidence>, id: string) {
    exists i :: 0 <= i < |pack| && pack[i].id == id
  }

  predicate Contradictory(e: Evidence) {
    e.status == "conflicting" || e.timestampState == "conflicting" || e.reviewerState == "one_valid_one_revoked"
  }

  predicate Outdated(e: Evidence) {
    e.timestampState == "stale"
  }

  predicate Withdrawn(e: Evidence) {
    e.status in {"revoked", "expired"} || e.reviewerState == "revoked"
  }

  /** One qualifier is asked for and has another value. */
  predicate Differs(want: string, have: string) {
    want != "" && have != "" && have != want
  }

  /** One qualifier is asked for and has no value. */
  predicate Open(want: string, have: string) {
    want != "" && have == ""
  }

  predicate SomeDiffers(want: EvidencePredicate, e: Evidence) {
    || Differs(want.status, e.status) || Differs(want.timing, e.timing) || Differs(want.reviewer, e.reviewer)
    || Differs(want.timestampState, e.timestampState) || Differs(want.subject, e.subject)
    || Differs(want.attestationState, e.attestationState) || Differs(want.scope, e.scope)
    || Differs(want.adjustmentType, e.adjustmentType)
  }

  predicate SomeOpen(want: EvidencePredicate, e: Evidence) {
    || Open(want.status, e.status) || Open(want.timing, e.timing) || Open(want.reviewer, e.reviewer)
    || Open(want.timestampState, e.timestampState) || Open(want.subject, e.subject)
    || Open(want.attestationState, e.attestationState) || Open(want.scope, e.scope)
    || Open(want.adjustmentType, e.adjustmentType)
  }

  /** What one record of the right kind is worth. */
  datatype Quality = Disputed | Stale | Void | Incomplete | Fitting | Unfit

  predicate Has(want: EvidencePredicate, e: Evidence, q: Quality) {
    match q
    case Disputed => Contradictory(e)
    case Stale => !Contradictory(e) && Outdated(e)
    case Void => !Contradictory(e) && !Outdated(e) && Withdrawn(e)
    case Unfit => Usable(e) && SomeDiffers(want, e)
    case Incomplete => Usable(e) && !SomeDiffers(want, e) && SomeOpen(want, e)
    case Fitting => Usable(e) && !SomeDiffers(want, e) && !SomeOpen(want, e)
  }

  predicate Usable(e: Evidence) {
    !Contradictory(e) && !Outdated(e) && !Withdrawn(e)
  }

  /** The request cites a record of the wanted kind and of this quality. */
  ghost predicate Cites(request: Request, pack: seq<Evidence>, want: EvidencePredicate, q: Quality) {
    exists id, e :: CitesRecord(request, pack, want, q, id, e)
  }

  predicate CitesRecord(request: Request, pack: seq<Evidence>, want: EvidencePredicate, q: Quality, id: string,
                        e: Evidence)
  {
    id in request.evidenceIDs && Found(pack, id, e) && e.kind == want.kind && Has(want, e, q)
  }

  // ----- the truth of expressions

  datatype State = IsTrue | IsFalse | InConflict | IsMissing | IsInvalid | IsStale | IsUnclear

  predicate TextState(name: string, value: string, matches: bool, s: State) {
    match s
    case IsMissing => value == ""
    case IsUnclear => value != "" && !Acceptable(name, value)
    case IsTrue => Acceptable(name, value) && matches
    case IsFalse => Acceptable(name, value) && !matches
    case _ => false
  }

  ghost predicate EvidenceState(request: Request, pack: seq<Evidence>, want: EvidencePredicate, s: State) {
    var disputed, stale := Cites(request, pack, want, Disputed), Cites(request, pack, want, Stale);
    var void, incomplete := Cites(request, pack, want, Void), Cites(request, pack, want, Incomplete);
    var fitting, unfit := Cites(request, pack, want, Fitting), Cites(request, pack, want, Unfit);
    match s
    case InConflict => disputed
    case IsStale => !disputed && stale
    case IsInvalid => !disputed && !stale && (void || (!incomplete && !fitting && unfit))
    case IsUnclear => !disputed && !stale && !void && incomplete
    case IsTrue => !disputed && !stale && !void && !incomplete && fitting
    case IsMissing => !disputed && !stale && !void && !incomplete && !fitting && !unfit
    case IsFalse => false
  }

  /** Every child is in one of these two states. */
  ghost predicate Every(es: seq<Expression>, request: Request, pack: seq<Evidence>, s: State, t: State)
    decreases es, 1
  {
    forall i :: 0 <= i < |es| ==> InState(es[i], request, pack, s) || InState(es[i], request, pack, t)
  }

  ghost predicate Some(es: seq<Expression>, request: Request, pack: seq<Evidence>, s: State)
    decreases es, 1
  {
    exists i :: 0 <= i < |es| && InState(es[i], request, pack, s)
  }

  /** Nothing is refuted and not everything holds. */
  ghost predicate Undecided(es: seq<Expression>, request: Request, pack: seq<Evidence>)
    decreases es, 2
  {
    && !Some(es, request, pack, IsFalse) && !Some(es, request, pack, InConflict)
    && !Every(es, request, pack, IsTrue, IsTrue)
  }

  ghost predicate AllState(es: seq<Expression>, request: Request, pack: seq<Evidence>, s: State)
    decreases es, 3
  {
    match s
    case IsTrue => Every(es, request, pack, IsTrue, IsTrue)
    case InConflict => Every(es, request, pack, IsTrue, InConflict) && Some(es, request, pack, InConflict)
    case IsFalse =>
      && (Some(es, request, pack, IsFalse) || Some(es, request, pack, InConflict))
      && !Every(es, request, pack, IsTrue, InConflict)
    case IsStale => Undecided(es, request, pack) && Some(es, request, pack, IsStale)
    case IsInvalid =>
      Undecided(es, request, pack) && !Some(es, request, pack, IsStale) && Some(es, request, pack, IsInvalid)
    case IsUnclear =>
      && Undecided(es, request, pack) && !Some(es, request, pack, IsStale) && !Some(es, request, pack, IsInvalid)
      && Some(es, request, pack, IsUnclear)
    case IsMissing =>
      && Undecided(es, request, pack) && !Some(es, request, pack, IsStale) && !Some(es, request, pack, IsInvalid)
      && !Some(es, request, pack, IsUnclear)
  }

  ghost predicate InState(e: Expression, request: Request, pack: seq<Evidence>, s: State)
    decreases e, 0
  {
    match e.op
    case Equal => TextState(e.field, Text(request, e.field), Text(request, e.field) == e.value, s)
    case In => TextState(e.field, Text(request, e.field), Text(request, e.field) in e.values, s)
    case EvidenceMatches => EvidenceState(request, pack, e.evidence, s)
    case All => AllState(e.children, request, pack, s)
    case UnknownOperator(_) => false
  }

  /** x is e or occurs below it. */
  predicate Inside(x: Expression, e: Expression)
    decreases e
  {
    x == e || exists i :: 0 <= i < |e.children| && Inside(x, e.children[i])
  }

  /** Some evidence predicate of e asks for this kind. */
  ghost predicate Asks(e: Expression, kind: string) {
    exists x :: Inside(x, e) && x.op.EvidenceMatches? && x.evidence.kind == kind
  }

  /** Some comparison of e reads the environment. */
  ghost predicate ReadsEnvironment(e: Expression) {
    exists x :: Inside(x, e) && (x.op.Equal? || x.op.In?) && x.field == "environment"
  }

  /** The evidence kind that is named first in e, reading from left to right, if any. */
  function FirstKind(e: Expression): seq<string>
    decreases e, 1
  {
    if e.op.EvidenceMatches? then [e.evidence.kind] else if e.op.All? then FirstOf(e.children) else []
  }

  function FirstOf(es: seq<Expression>): seq<string>
    decreases es, 0
  {
    if es == [] then [] else if FirstKind(es[0]) != [] then FirstKind(es[0]) else FirstOf(es[1..])
  }

  // ----- clauses

  /** The entry for a state. */
  function For<T>(t: States<T>, s: State): T {
    match s
    case IsTrue => t.satisfied
    case IsFalse => t.isFalse
    case InConflict => t.conflict
    case IsMissing => t.missing
    case IsInvalid => t.invalid
    case IsStale => t.stale
    case IsUnclear => t.unclear
  }

  ghost predicate Governs(r: Requirement, request: Request, pack: seq<Evidence>) {
    InState(r.applicability, request, pack, IsTrue)
  }

  /** Clause j of requirement i, which governs the request, is in state s and resolves to o. */
  ghost predicate Gives(rs: seq<Requirement>, request: Request, pack: seq<Evidence>, i: nat, j: nat, s: State, o: Outcome) {
    && i < |rs| && j < |rs[i].clauses| && Governs(rs[i], request, pack)
    && InState(rs[i].clauses[j].assertion, request, pack, s)
    && For(rs[i].clauses[j].resolution, s) == o
  }

  ghost predicate SomeGives(rs: seq<Requirement>, request: Request, pack: seq<Evidence>, o: Outcome) {
    exists i: nat, j: nat, s :: Gives(rs, request, pack, i, j, s, o)
  }

  /** The first clause in policy order that resolves to o. */
  ghost predicate FirstGives(rs: seq<Requirement>, request: Request, pack: seq<Evidence>, i: nat, j: nat, s: State,
                             o: Outcome)
  {
    && Gives(rs, request, pack, i, j, s, o)
    && forall x: nat, y: nat, t | x < i || (x == i && y < j) :: !Gives(rs, request, pack, x, y, t, o)
  }

  // ----- the decision and its cause

  datatype Cause =
    | NoCause
    | BadField(n: nat)
    | NoRecord(k: nat)
    | NoRule
    | ByClause(i: nat, j: nat, s: State)

  predicate GoodField(request: Request, n: nat)
    requires n < |FIELDS|
  {
    Acceptable(FIELDS[n], Text(request, FIELDS[n]))
  }

  predicate WellFormed(request: Request, pack: seq<Evidence>) {
    && (forall n :: 0 <= n < |FIELDS| ==> GoodField(request, n))
    && forall k :: 0 <= k < |request.evidenceIDs| ==> Exists(pack, request.evidenceIDs[k])
  }

  ghost predicate SomeGoverns(rs: seq<Requirement>, request: Request, pack: seq<Evidence>) {
    exists i :: 0 <= i < |rs| && Governs(rs[i], request, pack)
  }

  /** Nothing calls for a human. */
  ghost predicate Settled(rs: seq<Requirement>, request: Request, pack: seq<Evidence>) {
    && WellFormed(request, pack) && SomeGoverns(rs, request, pack) && !SomeGives(rs, request, pack, Escalate)
    && !SomeGives(rs, request, pack, Reject)
  }

  /** The request is decided as o, and this is why: Reject before Escalate before Revise before Approve,
      and within Escalate bad fields before lost references before clauses, each in its order. */
  ghost predicate Because(policy: Policy, request: Request, pack: seq<Evidence>, o: Outcome, cause: Cause) {
    var rs, ids := policy.requirements, request.evidenceIDs;
    match cause
    case NoCause => o == Approve && Settled(rs, request, pack) && !SomeGives(rs, request, pack, Revise)
    case BadField(n) =>
      && o == Escalate && !SomeGives(rs, request, pack, Reject)
      && n < |FIELDS| && !GoodField(request, n) && forall m :: 0 <= m < n ==> GoodField(request, m)
    case NoRecord(k) =>
      && o == Escalate && !SomeGives(rs, request, pack, Reject)
      && (forall n :: 0 <= n < |FIELDS| ==> GoodField(request, n))
      && k < |ids| && !Exists(pack, ids[k]) && forall m :: 0 <= m < k ==> Exists(pack, ids[m])
    case NoRule => o == Escalate && WellFormed(request, pack) && !SomeGoverns(rs, request, pack)
    case ByClause(i, j, s) =>
      && FirstGives(rs, request, pack, i, j, s, o)
      && match o
         case Reject => true
         case Escalate => WellFormed(request, pack) && !SomeGives(rs, request, pack, Reject)
         case Revise => Settled(rs, request, pack)
         case _ => false
  }

  // ----- the report

  /** The sentences for a clause in state s, each list with at most one. */
  ghost predicate ClauseSays(c: Clause, s: State, rationale: Rationale, notes: seq<Note>, doubts: seq<Doubt>) {
    && rationale == Explained(For(c.explanations, s))
    && if FirstKind(c.assertion) == [] then notes == [] && doubts == []
       else
         var kind := FirstKind(c.assertion)[0];
         match s
         case IsTrue => notes == [] && doubts == []
         case IsFalse =>
           if ReadsEnvironment(c.assertion) then notes == [WrongEnvironment(kind)] && doubts == [EnvironmentDoubt]
           else notes == [] && doubts == []
         case _ => notes == [BadState(kind, Number(s))] && doubts == [StateDoubt(kind, Number(s))]
  }

  /** The number that sentences about evidence are selected by. */
  function Number(s: State): nat {
    match s
    case IsTrue => 1
    case IsFalse => 2
    case IsMissing => 3
    case IsInvalid => 4
    case IsStale => 5
    case IsUnclear => 6
    case InConflict => 8
  }

  ghost predicate Says(policy: Policy, request: Request, cause: Cause, rationale: Rationale, notes: seq<Note>,
                       doubts: seq<Doubt>)
  {
    match cause
    case NoCause => rationale == AllSatisfied && notes == [] && doubts == []
    case BadField(n) =>
      && n < |FIELDS|
      && rationale == (if n == 0 then RequesterMissing else UnknownValue(n + 1, Text(request, FIELDS[n])))
      && notes == [] && doubts == [ValuesDoubt]
    case NoRecord(k) =>
      && k < |request.evidenceIDs| && rationale == LostReference(request.evidenceIDs[k])
      && notes == [LostRecord(request.evidenceIDs[k])] && doubts == [RecordDoubt]
    case NoRule => rationale == NoRequirement && notes == [] && doubts == [RequirementDoubt]
    case ByClause(i, j, s) =>
      && i < |policy.requirements| && j < |policy.requirements[i].clauses|
      && ClauseSays(policy.requirements[i].clauses[j], s, rationale, notes, doubts)
  }

  /** The ids of the requirements that govern, in policy order. */
  ghost function Governing(rs: seq<Requirement>, request: Request, pack: seq<Evidence>): seq<string> {
    if rs == [] then []
    else (if Governs(rs[0], request, pack) then [rs[0].id] else []) + Governing(rs[1..], request, pack)
  }

  /** The cited record of this id is of a kind that a clause of a governing requirement asks for. */
  ghost predicate Needed(policy: Policy, request: Request, pack: seq<Evidence>, id: string) {
    id in request.evidenceIDs && exists e, i: nat, j: nat :: NeededBy(policy, request, pack, id, e, i, j)
  }

  ghost predicate NeededBy(policy: Policy, request: Request, pack: seq<Evidence>, id: string, e: Evidence, i: nat, j: nat) {
    var rs := policy.requirements;
    && Found(pack, id, e) && i < |rs| && j < |rs[i].clauses| && Governs(rs[i], request, pack)
    && Asks(rs[i].clauses[j].assertion, e.kind)
  }

  /** x is first cited before y is. */
  predicate CitedBefore(ids: seq<string>, x: string, y: string) {
    exists k :: 0 <= k < |ids| && ids[k] == x && forall m :: 0 <= m <= k ==> ids[m] != y
  }

  /** The needed records, each once, in the order in which they are first cited. */
  ghost predicate UsedList(policy: Policy, request: Request, pack: seq<Evidence>, used: seq<string>) {
    && (forall id :: id in used <==> Needed(policy, request, pack, id))
    && CitedInOrder(request.evidenceIDs, used)
  }

  /** Each before the next, so none twice. */
  predicate CitedInOrder(ids: seq<string>, used: seq<string>) {
    forall a, b :: 0 <= a < b < |used| ==> CitedBefore(ids, used[a], used[b])
  }

  function Offer(r: Remediation): Item {
    match r.action
    case AddEvidence => Item("add_evidence", r.evidenceKind, r.description, "", "")
    case _ => Item("set_field", "", "", r.field, r.value)
  }

  /** The remediations of the deciding clause, on Revise only. */
  predicate OfferList(policy: Policy, o: Outcome, cause: Cause, items: seq<Item>) {
    if o == Revise && cause.ByClause? && cause.i < |policy.requirements|
       && cause.j < |policy.requirements[cause.i].clauses| then
      var ms := policy.requirements[cause.i].clauses[cause.j].remediations;
      |items| == |ms| && forall k :: 0 <= k < |ms| ==> items[k] == Offer(ms[k])
    else items == []
  }

  function Name(o: Outcome): string {
    match o
    case Approve => "Approve"
    case Reject => "Reject"
    case Revise => "Revise"
    case Escalate => "Escalate"
    case UnknownOutcome(_) => ""
  }

  /** The report is what the policy says about the request. */
  ghost predicate Meant(policy: Policy, request: Request, pack: seq<Evidence>, report: Report) {
    && report.requestID == request.id && report.assumptions == [FieldsAreFaithful]
    && report.applied == Governing(policy.requirements, request, pack)
    && UsedList(policy, request, pack, report.used)
    && exists o, cause :: MeantBy(policy, request, pack, report, o, cause)
  }

  ghost predicate MeantBy(policy: Policy, request: Request, pack: seq<Evidence>, report: Report, o: Outcome, cause: Cause) {
    && Because(policy, request, pack, o, cause)
    && report.decision == Name(o)
    && Says(policy, request, cause, report.rationale, report.notes, report.doubts)
    && OfferList(policy, o, cause, report.remediation)
  }
}
