/** What may be published and what may be submitted, in plain terms: the node grammar with its limits
    spelled out, and the identifiers of a pack. */
module Publishing {
  import opened Schema
  import opened Ast
  import opened Coding
  import opened Packs
  import opened Plain
  import opened Meaning

  const KINDS := {"approval_record", "execution_environment_attestation", "usage_limit_adjustment"}

  // ----- expressions

  /** One node, its children apart. */
  predicate NodeAllowed(x: Expression, allowEvidence: bool) {
    match x.op
    case All => x.children != [] && Bare(x.(children := []))
    case Equal => x.field in FIELDS && Acceptable(x.field, x.value) && Bare(x.(field := "", value := ""))
    case In =>
      && x.field in FIELDS && x.values != [] && (forall v :: v in x.values ==> Acceptable(x.field, v))
      && Distinct(x.values) && Bare(x.(field := "", values := []))
    case EvidenceMatches => allowEvidence && x.evidence.kind in KINDS && Bare(x.(evidence := NO_EVIDENCE))
    case UnknownOperator(_) => false
  }

  /** Nothing but the operator. */
  predicate Bare(x: Expression) {
    x == Expression(x.op, "", "", [], [], EvidencePredicate("", "", "", "", "", "", "", "", ""))
  }

  ghost predicate Allowed(e: Expression, allowEvidence: bool) {
    forall x :: Inside(x, e) ==> NodeAllowed(x, allowEvidence)
  }

  /** The number of nodes on the longest way down. */
  function Height(e: Expression): nat
    decreases e, 1
  {
    1 + Tallest(e.children)
  }

  function Tallest(es: seq<Expression>): nat
    decreases es, 0
  {
    if es == [] then 0
    else if Height(es[0]) > Tallest(es[1..]) then Height(es[0]) else Tallest(es[1..])
  }

  function Size(e: Expression): nat
    decreases e, 1
  {
    1 + Sizes(e.children)
  }

  function Sizes(es: seq<Expression>): nat
    decreases es, 0
  {
    if es == [] then 0 else Size(es[0]) + Sizes(es[1..])
  }

  lemma {:induction false} TallestBounds(es: seq<Expression>, bound: int)
    ensures Tallest(es) <= bound <==> 0 <= bound && forall i :: 0 <= i < |es| ==> Height(es[i]) <= bound
  {
    hide Height;
    if es != [] { TallestBounds(es[1..], bound); }
  }

  lemma {:induction false} SizesAppend(es: seq<Expression>, e: Expression)
    ensures Sizes(es + [e]) == Sizes(es) + Size(e)
  {
    hide Size;
    if es != [] {
      assert (es + [e])[1..] == es[1..] + [e];
      SizesAppend(es[1..], e);
    } else {
      assert (es + [e])[0] == e && (es + [e])[1..] == [];
    }
  }

  lemma {:induction false} SizeMeans(e: Expression)
    ensures NodeCount(e) == Size(e)
    decreases e, |e.children| + 1
  {
    SizeUpTo(e, |e.children|);
    assert e.children[..|e.children|] == e.children;
  }

  lemma {:induction false} SizeUpTo(e: Expression, k: nat)
    requires k <= |e.children|
    ensures NodesUpTo(e, k) == Sizes(e.children[..k])
    decreases e, k
  {
    hide Size, NodeCount;
    if k > 0 {
      SizeUpTo(e, k - 1);
      SizeMeans(e.children[k - 1]);
      assert e.children[..k] == e.children[..k - 1] + [e.children[k - 1]];
      SizesAppend(e.children[..k - 1], e.children[k - 1]);
    } else {
      NoSizes();
    }
  }

  lemma {:induction false} NoSizes()
    ensures Sizes([]) == 0
  {}

  lemma {:induction false} AcceptableText(name: string, value: string)
    requires name in FIELDS
    ensures LookupField(name) != 0
    ensures Trim(value) != "" && ValidFieldValue(LookupField(name), value) <==> Acceptable(name, value)
  {
    hide Trim, LookupField, ValidFieldValue, Acceptable;
    FieldKnown(name);
    FieldMeans(Request("", "", "", "", "", "", "", "", []), LookupField(name) - 1, value);
    TrimMeans(value);
    AcceptableNotBlank(name, value);
  }

  lemma {:induction false} AcceptableNotBlank(name: string, value: string)
    ensures Acceptable(name, value) ==> !Blank(value)
  {
    if Acceptable(name, value) { assert value != "" && !Space(value[0]); }
  }

  lemma {:induction false} KindsMean(kind: string)
    ensures ValidEvidenceKind(kind) <==> kind in KINDS
    ensures kind in KINDS ==> Trim(kind) != ""
  {
    hide Trim;
    TrimMeans(kind);
    if kind in KINDS { assert kind != "" && !Space(kind[0]); }
  }

  lemma {:induction false} NodeMeans(e: Expression, allowEvidence: bool)
    ensures NodeValid(e, allowEvidence) <==> NodeAllowed(e, allowEvidence)
  {
    hide Trim, LookupField, ValidFieldValue, Acceptable, ValidEvidenceKind;
    FieldKnown(e.field);
    KindsMean(e.evidence.kind);
    if e.field in FIELDS {
      AcceptableText(e.field, e.value);
      forall v | v in e.values
        ensures Trim(v) != "" && ValidFieldValue(LookupField(e.field), v) <==> Acceptable(e.field, v)
      {
        AcceptableText(e.field, v);
      }
    }
    assert e.op.In? ==> (SetValid(LookupField(e.field), e.values, |e.values|)
      <==> Distinct(e.values) && forall v :: v in e.values ==> Trim(v) != "" && ValidFieldValue(LookupField(e.field), v));
  }

  /** Valid at a depth: no way down passes level 32, and every node is allowed. */
  lemma {:induction false} ExpressionMeans(e: Expression, depth: nat, allowEvidence: bool)
    requires depth >= 1
    ensures ExpressionValid(e, depth, allowEvidence) <==> depth + Height(e) <= 33 && Allowed(e, allowEvidence)
    decreases e
  {
    hide NodeValid, NodeAllowed, Inside;
    NodeMeans(e, allowEvidence);
    InsideSelf(e);
    forall i | 0 <= i < |e.children|
      ensures ExpressionValid(e.children[i], depth + 1, allowEvidence)
         <==> depth + 1 + Height(e.children[i]) <= 33 && Allowed(e.children[i], allowEvidence)
    {
      ExpressionMeans(e.children[i], depth + 1, allowEvidence);
    }
    TallestBounds(e.children, 32 - depth);
    AllowedStep(e, allowEvidence);
  }

  lemma {:induction false} InsideSelf(e: Expression)
    ensures Inside(e, e)
  {}

  lemma {:induction false} AllowedStep(e: Expression, allowEvidence: bool)
    ensures Allowed(e, allowEvidence)
       <==> NodeAllowed(e, allowEvidence) && forall i :: 0 <= i < |e.children| ==> Allowed(e.children[i], allowEvidence)
  {
    hide NodeAllowed;
    InsideSelf(e);
    forall i, x | 0 <= i < |e.children| && Inside(x, e.children[i])
      ensures Inside(x, e)
    {}
    forall x | Inside(x, e) && x != e
      ensures exists i :: 0 <= i < |e.children| && Inside(x, e.children[i])
    {}
  }

  // ----- clauses and policies

  predicate StateAllowed(outcome: Outcome, explanation: string) {
    && outcome in {Approve, Reject, Revise, Escalate} && |explanation| <= 1024
    && (outcome == Approve || !Blank(explanation))
  }

  predicate RemediationAllowed(r: Remediation) {
    && |r.description| <= 4096
    && match r.action
       case AddEvidence => r.evidenceKind in KINDS && r.field == "" && r.value == ""
       case SetField => r.field in FIELDS && Acceptable(r.field, r.value) && r.evidenceKind == ""
       case UnknownAction(_) => false
  }

  ghost predicate ClauseAllowed(c: Clause) {
    var o, t := c.resolution, c.explanations;
    && !Blank(c.id) && Height(c.assertion) <= 32 && Allowed(c.assertion, true)
    && StateAllowed(o.satisfied, t.satisfied) && StateAllowed(o.isFalse, t.isFalse)
    && StateAllowed(o.missing, t.missing) && StateAllowed(o.invalid, t.invalid)
    && StateAllowed(o.stale, t.stale) && StateAllowed(o.unclear, t.unclear)
    && StateAllowed(o.unverifiable, t.unverifiable) && StateAllowed(o.conflict, t.conflict)
    && (c.remediations != []
        <==> Revise in {o.satisfied, o.isFalse, o.missing, o.invalid, o.stale, o.unclear, o.unverifiable, o.conflict})
    && forall r :: r in c.remediations ==> RemediationAllowed(r)
  }

  ghost predicate RequirementAllowed(r: Requirement) {
    && !Blank(r.id) && r.clauses != [] && Height(r.applicability) <= 32 && Allowed(r.applicability, false)
    && forall c :: c in r.clauses ==> ClauseAllowed(c)
  }

  function ClauseSizes(cs: seq<Clause>): nat {
    if cs == [] then 0 else Size(cs[0].assertion) + ClauseSizes(cs[1..])
  }

  function PolicySize(rs: seq<Requirement>): nat {
    if rs == [] then 0 else Size(rs[0].applicability) + ClauseSizes(rs[0].clauses) + PolicySize(rs[1..])
  }

  /** No two requirements and no two clauses of the whole policy have the same id, spaces around apart. */
  predicate IDsDiffer(rs: seq<Requirement>) {
    && (forall i, x :: 0 <= i < x < |rs| ==> Trim(rs[i].id) != Trim(rs[x].id))
    && forall i, j, x, y | 0 <= i < |rs| && 0 <= x < |rs| && 0 <= j < |rs[i].clauses| && 0 <= y < |rs[x].clauses| ::
         i != x || j != y ==> Trim(rs[i].clauses[j].id) != Trim(rs[x].clauses[y].id)
  }

  ghost predicate Publishable(policy: Policy) {
    && !Blank(policy.name) && !Blank(policy.version) && policy.requirements != []
    && (forall r :: r in policy.requirements ==> RequirementAllowed(r))
    && IDsDiffer(policy.requirements) && PolicySize(policy.requirements) <= 4096
  }

  lemma {:induction false} StateMeans(outcome: Outcome, explanation: string)
    ensures StateValid(outcome, explanation) <==> StateAllowed(outcome, explanation)
  {
    hide Trim;
    TrimMeans(explanation);
  }

  lemma {:induction false} RemediationMeans(r: Remediation)
    ensures RemediationValid(r) <==> RemediationAllowed(r)
  {
    hide Trim, LookupField, ValidFieldValue, Acceptable, ValidEvidenceKind;
    FieldKnown(r.field);
    KindsMean(r.evidenceKind);
    if r.field in FIELDS { AcceptableText(r.field, r.value); }
  }

  lemma {:induction false} EachState<T>(t: States<T>)
    ensures t.At(1) == t.satisfied && t.At(2) == t.isFalse && t.At(3) == t.missing && t.At(4) == t.invalid
    ensures t.At(5) == t.stale && t.At(6) == t.unclear && t.At(7) == t.unverifiable && t.At(8) == t.conflict
  {}

  lemma {:induction false} ClauseMeansAllowed(c: Clause)
    ensures ClauseValid(c) <==> ClauseAllowed(c)
  {
    hide Trim, ExpressionValid, Allowed, Height, RemediationValid, RemediationAllowed, StateValid, States.At,
         Blank;
    var o, t := c.resolution, c.explanations;
    TrimMeans(c.id);
    ExpressionMeans(c.assertion, 1, true);
    EachState(o);
    EachState(t);
    StatesAllowed(c);
    ReviseListed(c);
    forall r | r in c.remediations
      ensures RemediationValid(r) <==> RemediationAllowed(r)
    {
      RemediationMeans(r);
    }
  }

  lemma {:induction false} StatesAllowed(c: Clause)
    ensures var o, t := c.resolution, c.explanations;
      (forall r :: 1 <= r <= REASON_COUNT ==> StateValid(c.resolution.At(r), c.explanations.At(r)))
      <==> StateAllowed(o.satisfied, t.satisfied) && StateAllowed(o.isFalse, t.isFalse)
           && StateAllowed(o.missing, t.missing) && StateAllowed(o.invalid, t.invalid)
           && StateAllowed(o.stale, t.stale) && StateAllowed(o.unclear, t.unclear)
           && StateAllowed(o.unverifiable, t.unverifiable) && StateAllowed(o.conflict, t.conflict)
  {
    hide StateValid, StateAllowed, States.At;
    var o, t := c.resolution, c.explanations;
    EachState(o);
    EachState(t);
    forall r | 1 <= r <= REASON_COUNT
      ensures StateValid(o.At(r), t.At(r)) <==> StateAllowed(o.At(r), t.At(r))
    {
      StateMeans(o.At(r), t.At(r));
    }
  }

  lemma {:induction false} ReviseListed(c: Clause)
    ensures var o := c.resolution;
      HasRevise(c)
      <==> Revise in {o.satisfied, o.isFalse, o.missing, o.invalid, o.stale, o.unclear, o.unverifiable, o.conflict}
  {
    hide States.At;
    EachState(c.resolution);
  }

  lemma {:induction false} RequirementMeansAllowed(r: Requirement)
    ensures RequirementValid(r) <==> RequirementAllowed(r)
  {
    hide Trim, ExpressionValid, Allowed, Height, ClauseValid, ClauseAllowed, Blank;
    TrimMeans(r.id);
    ExpressionMeans(r.applicability, 1, false);
    forall c | c in r.clauses
      ensures ClauseValid(c) <==> ClauseAllowed(c)
    {
      ClauseMeansAllowed(c);
    }
  }

  lemma {:induction false} ClauseSizesAppend(cs: seq<Clause>, c: Clause)
    ensures ClauseSizes(cs + [c]) == ClauseSizes(cs) + Size(c.assertion)
  {
    hide Size;
    if cs != [] {
      assert (cs + [c])[1..] == cs[1..] + [c];
      ClauseSizesAppend(cs[1..], c);
    } else {
      assert (cs + [c])[0] == c && (cs + [c])[1..] == [];
    }
  }

  lemma {:induction false} ClauseNodesMean(cs: seq<Clause>, k: nat)
    requires k <= |cs|
    ensures ClauseNodes(cs, k) == ClauseSizes(cs[..k])
  {
    hide Size, NodeCount;
    if k > 0 {
      ClauseNodesMean(cs, k - 1);
      SizeMeans(cs[k - 1].assertion);
      assert cs[..k] == cs[..k - 1] + [cs[k - 1]];
      ClauseSizesAppend(cs[..k - 1], cs[k - 1]);
    }
  }

  lemma {:induction false} PolicySizeAppend(rs: seq<Requirement>, r: Requirement)
    ensures PolicySize(rs + [r]) == PolicySize(rs) + Size(r.applicability) + ClauseSizes(r.clauses)
  {
    hide Size, ClauseSizes;
    if rs != [] {
      assert (rs + [r])[1..] == rs[1..] + [r];
      PolicySizeAppend(rs[1..], r);
    } else {
      assert (rs + [r])[0] == r && (rs + [r])[1..] == [];
    }
  }

  lemma {:induction false} PolicyNodesMean(rs: seq<Requirement>, k: nat)
    requires k <= |rs|
    ensures PolicyNodes(rs, k) == PolicySize(rs[..k])
  {
    hide Size, NodeCount, ClauseSizes, ClauseNodes;
    if k > 0 {
      var r := rs[k - 1];
      PolicyNodesMean(rs, k - 1);
      SizeMeans(r.applicability);
      ClauseNodesMean(r.clauses, |r.clauses|);
      assert r.clauses[..|r.clauses|] == r.clauses;
      assert rs[..k] == rs[..k - 1] + [r];
      PolicySizeAppend(rs[..k - 1], r);
    }
  }

  lemma {:induction false} ClausePlaces(rs: seq<Requirement>, i: nat, j: nat, x: nat, y: nat)
    requires i < |rs| && j < |rs[i].clauses| && x < |rs| && y < |rs[x].clauses|
    ensures |Clauses(rs, i)| + j == |Clauses(rs, x)| + y <==> i == x && j == y
  {
    if i < x { PolicyNodesGrow(rs, i + 1, x); }
    if x < i { PolicyNodesGrow(rs, x + 1, i); }
  }

  lemma {:induction false} ClauseAt(rs: seq<Requirement>, k: nat, n: nat) returns (i: nat, j: nat)
    requires k <= |rs| && n < |Clauses(rs, k)|
    ensures i < k && j < |rs[i].clauses| && n == |Clauses(rs, i)| + j && Clauses(rs, k)[n] == rs[i].clauses[j]
  {
    if n < |Clauses(rs, k - 1)| { i, j := ClauseAt(rs, k - 1, n); } else { i, j := k - 1, n - |Clauses(rs, k - 1)|; }
  }

  lemma {:induction false} IDsMean(rs: seq<Requirement>)
    ensures Distinct(RequirementIDs(rs)) && Distinct(ClauseIDs(Clauses(rs, |rs|))) <==> IDsDiffer(rs)
  {
    hide Trim, Clauses;
    var cs := Clauses(rs, |rs|);
    var ids := RequirementIDs(rs);
    assert forall i :: 0 <= i < |rs| ==> ids[i] == Trim(rs[i].id);
    if Distinct(ClauseIDs(cs)) {
      forall i, j, x, y | 0 <= i < |rs| && 0 <= x < |rs| && 0 <= j < |rs[i].clauses| && 0 <= y < |rs[x].clauses|
                          && (i != x || j != y)
        ensures Trim(rs[i].clauses[j].id) != Trim(rs[x].clauses[y].id)
      {
        ClauseNumbers(rs, i, j);
        ClauseNumbers(rs, x, y);
        ClausePlaces(rs, i, j, x, y);
        var n, m := |Clauses(rs, i)| + j, |Clauses(rs, x)| + y;
        assert ClauseIDs(cs)[n] != ClauseIDs(cs)[m];
      }
    }
    if IDsDiffer(rs) {
      forall n, m | 0 <= n < m < |cs|
        ensures ClauseIDs(cs)[n] != ClauseIDs(cs)[m]
      {
        var i, j := ClauseAt(rs, |rs|, n);
        var x, y := ClauseAt(rs, |rs|, m);
        assert i != x || j != y;
      }
    }
  }

  /** The validator's verdict in plain terms. */
  lemma {:induction false} PublishableExactly(policy: Policy)
    ensures PolicyValid(policy) <==> Publishable(policy)
  {
    hide Trim, Blank, RequirementValid, RequirementAllowed, IDsDiffer, PolicySize, PolicyNodes, Clauses, Distinct;
    var rs := policy.requirements;
    TrimMeans(policy.name);
    TrimMeans(policy.version);
    forall r | r in rs
      ensures RequirementValid(r) <==> RequirementAllowed(r)
    {
      RequirementMeansAllowed(r);
    }
    IDsMean(rs);
    PolicyNodesMean(rs, |rs|);
    assert rs[..|rs|] == rs;
  }

  // ----- packs

  function References(requests: seq<Request>): nat {
    if requests == [] then 0 else |requests[0].evidenceIDs| + References(requests[1..])
  }

  predicate Identifier(id: string) {
    id != "" && Tight(id)
  }

  /** Within the limits, every identifier proper, no request and no record named twice. */
  predicate Submittable(l: Limits, requests: seq<Request>, pack: seq<Evidence>) {
    && |requests| <= l.maxRows && |pack| <= l.maxEvidence && References(requests) <= l.maxEdges
    && (forall r :: r in requests ==> Identifier(r.id) && forall id :: id in r.evidenceIDs ==> Identifier(id))
    && (forall e :: e in pack ==> Identifier(e.id))
    && (forall i, j :: 0 <= i < j < |requests| ==> requests[i].id != requests[j].id)
    && forall i, j :: 0 <= i < j < |pack| ==> pack[i].id != pack[j].id
  }

  lemma {:induction false} IdentifierMeans(id: string)
    ensures GoodID(id) <==> Identifier(id)
  {
    hide Trim;
    TrimMeans(id);
  }

  lemma {:induction false} ReferencesAppend(requests: seq<Request>, request: Request)
    ensures References(requests + [request]) == References(requests) + |request.evidenceIDs|
  {
    if requests != [] {
      assert (requests + [request])[1..] == requests[1..] + [request];
      ReferencesAppend(requests[1..], request);
    } else {
      assert (requests + [request])[0] == request && (requests + [request])[1..] == [];
    }
  }

  lemma {:induction false} ReferencesMean(requests: seq<Request>, k: nat)
    requires k <= |requests|
    ensures EdgeTotal(requests, k) == References(requests[..k])
  {
    if k > 0 {
      ReferencesMean(requests, k - 1);
      assert requests[..k] == requests[..k - 1] + [requests[k - 1]];
      ReferencesAppend(requests[..k - 1], requests[k - 1]);
    }
  }

  /** The builder's verdict in plain terms. */
  lemma {:induction false} SubmittableExactly(l: Limits, requests: seq<Request>, pack: seq<Evidence>)
    ensures PackAccepted(l, requests, pack) <==> Submittable(l, requests, pack)
  {
    hide GoodID, Identifier, EdgeTotal, References;
    ReferencesMean(requests, |requests|);
    assert requests[..|requests|] == requests;
    forall id: string
      ensures GoodID(id) <==> Identifier(id)
    {
      IdentifierMeans(id);
    }
    if PackAccepted(l, requests, pack) {
      forall r | r in requests
        ensures Identifier(r.id) && forall id :: id in r.evidenceIDs ==> Identifier(id)
      {
        var i :| 0 <= i < |requests| && requests[i] == r;
        assert RequestGood(requests, i);
      }
      forall e | e in pack
        ensures Identifier(e.id)
      {
        var i :| 0 <= i < |pack| && pack[i] == e;
        assert EvidenceGood(pack, i);
      }
      forall i, j | 0 <= i < j < |requests|
        ensures requests[i].id != requests[j].id
      {
        assert RequestGood(requests, j);
      }
      forall i, j | 0 <= i < j < |pack|
        ensures pack[i].id != pack[j].id
      {
        assert EvidenceGood(pack, j);
      }
    }
  }
}
