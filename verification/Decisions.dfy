/** The decision of a request is the one the policy language calls for, and for the first cause there
    is. */
module Decisions {
  import opened Schema
  import opened Ast
  import opened Findings
  import opened Reference
  import opened Algebra
  import opened Precedence
  import opened Plain
  import opened Meaning

  // ----- states of clauses

  /** The table entry of a reason is the field of the state with that number. */
  lemma {:induction false} EntryMeans<T>(t: States<T>, s: State)
    ensures t.At(Number(s)) == For(t, s)
  {}

  lemma {:induction false} GovernsMeans(policy: Policy, request: Request, pack: seq<Evidence>, i: nat)
    requires PolicyValid(policy) && i < |policy.requirements|
    ensures Governs(policy.requirements[i], request, pack) <==> Applies(policy.requirements[i], request, pack)
  {
    hide Trim, Clauses, PolicyNodes, Distinct, EvalExpression, ExpressionValid, ClauseValid, InState;
    var r := policy.requirements[i];
    assert RequirementValid(r);
    VerdictMeans(r.applicability, 1, false, request, pack);
    EvalCoherent(r.applicability, 1, false, request, pack);
  }

  /** A clause of a valid policy is in exactly one state; outcome and explanation are its entries. */
  lemma {:induction false} ClauseMeans(policy: Policy, request: Request, pack: seq<Evidence>, i: nat, j: nat)
    returns (s: State)
    requires PolicyValid(policy) && i < |policy.requirements| && j < |policy.requirements[i].clauses|
    ensures var c := policy.requirements[i].clauses[j]; var v := EvalExpression(c.assertion, request, pack);
      && (forall t :: InState(c.assertion, request, pack, t) <==> t == s)
      && v == VerdictOf(s) && v.reason == Number(s)
      && c.resolution.At(v.reason) == For(c.resolution, s)
      && c.explanations.At(v.reason) == For(c.explanations, s)
  {
    hide Trim, Clauses, PolicyNodes, Distinct, EvalExpression, ExpressionValid, ResolutionValid, InState, VerdictOf,
         States.At, For, Number;
    var c := policy.requirements[i].clauses[j];
    assert RequirementValid(policy.requirements[i]) && ClauseValid(c);
    VerdictMeans(c.assertion, 1, true, request, pack);
    EvalCoherent(c.assertion, 1, true, request, pack);
    s := StateOf(EvalExpression(c.assertion, request, pack));
    EntryMeans(c.resolution, s);
    EntryMeans(c.explanations, s);
    forall t: State
      ensures VerdictOf(t) == VerdictOf(s) <==> t == s
      ensures VerdictOf(t).reason == Number(t)
    {
      StatesDiffer(t, s);
    }
  }

  lemma {:induction false} GivesMeans(policy: Policy, request: Request, pack: seq<Evidence>, i: nat, j: nat, o: Outcome)
    requires PolicyValid(policy)
    ensures ClauseResolves(policy.requirements, i, j, request, pack, o)
       <==> exists s :: Gives(policy.requirements, request, pack, i, j, s, o)
  {
    hide PolicyValid, Governs, Applies, InState, EvalExpression, For, States.At;
    var rs := policy.requirements;
    if i < |rs| && j < |rs[i].clauses| {
      GovernsMeans(policy, request, pack, i);
      var s := ClauseMeans(policy, request, pack, i, j);
      assert Gives(rs, request, pack, i, j, s, o) <==> ClauseResolves(rs, i, j, request, pack, o);
    }
  }

  lemma {:induction false} SomeGivesMeans(policy: Policy, request: Request, pack: seq<Evidence>, o: Outcome)
    requires PolicyValid(policy)
    ensures SomeGives(policy.requirements, request, pack, o)
       <==> SomeClauseResolves(policy.requirements, request, pack, o)
  {
    hide PolicyValid, Gives, ClauseResolves;
    var rs := policy.requirements;
    if SomeGives(rs, request, pack, o) {
      var i: nat, j: nat, s :| Gives(rs, request, pack, i, j, s, o);
      GivesMeans(policy, request, pack, i, j, o);
    }
    if SomeClauseResolves(rs, request, pack, o) {
      var i: nat, j: nat :| ClauseResolves(rs, i, j, request, pack, o);
      GivesMeans(policy, request, pack, i, j, o);
      var s :| Gives(rs, request, pack, i, j, s, o);
    }
  }

  lemma {:induction false} SomeGovernsMeans(policy: Policy, request: Request, pack: seq<Evidence>)
    requires PolicyValid(policy)
    ensures SomeGoverns(policy.requirements, request, pack) <==> SomeApplies(policy.requirements, request, pack)
  {
    hide PolicyValid, Governs, Applies;
    forall i | 0 <= i < |policy.requirements|
      ensures Governs(policy.requirements[i], request, pack) <==> Applies(policy.requirements[i], request, pack)
    {
      GovernsMeans(policy, request, pack, i);
    }
  }

  // ----- the request

  lemma {:induction false} GoodFieldMeans(request: Request, n: nat)
    requires n < |FIELDS|
    ensures GoodField(request, n) <==> !FieldIssue(request, n + 1)
    ensures request.Field(n + 1) == Text(request, FIELDS[n])
  {
    hide ValidFieldValue, Acceptable, Text, Request.Field;
    FieldMeans(request, n, request.Field(n + 1));
    UnacceptableEmpty(FIELDS[n]);
  }

  lemma {:induction false} WellFormedMeans(request: Request, pack: seq<Evidence>)
    ensures WellFormed(request, pack) <==> WellReferenced(request, pack)
    ensures (forall n :: 0 <= n < |FIELDS| ==> GoodField(request, n)) <==> FirstIssue(request, FIELD_REQUESTER) == 0
    ensures (forall k :: 0 <= k < |request.evidenceIDs| ==> Exists(pack, request.evidenceIDs[k]))
       <==> ReferenceFindings(pack, request.evidenceIDs, |request.evidenceIDs|) == []
  {
    hide FieldIssue, GoodField, Resolve, Exists, FirstIssue, ReferenceFindings, Request.Field;
    forall n | 0 <= n < |FIELDS|
      ensures GoodField(request, n) <==> !FieldIssue(request, n + 1)
    {
      GoodFieldMeans(request, n);
    }
    assert forall f :: 1 <= f < FIELD_COUNT ==> (FieldIssue(request, f) <==> !GoodField(request, f - 1));
    assert (forall n :: 0 <= n < |FIELDS| ==> GoodField(request, n))
      <==> forall f :: 1 <= f < FIELD_COUNT ==> !FieldIssue(request, f) by {
      if forall f :: 1 <= f < FIELD_COUNT ==> !FieldIssue(request, f) {
        forall n | 0 <= n < |FIELDS| ensures GoodField(request, n) { assert !FieldIssue(request, n + 1); }
      }
    }
    forall k | 0 <= k < |request.evidenceIDs|
      ensures Exists(pack, request.evidenceIDs[k]) <==> Resolve(pack, request.evidenceIDs[k]) != 0
    {
      FoundMeans(pack, request.evidenceIDs[k]);
    }
    NoIssueFound(request, FIELD_REQUESTER);
    ReferenceFindingsShape(pack, request.evidenceIDs, |request.evidenceIDs|);
  }

  lemma {:induction false} FirstIssueFirst(request: Request, f: nat)
    requires f <= FIELD_COUNT
    ensures var g := FirstIssue(request, f);
      g != 0 ==> f <= g < FIELD_COUNT && FieldIssue(request, g) && forall h :: f <= h < g ==> !FieldIssue(request, h)
    decreases FIELD_COUNT - f
  {
    hide FieldIssue;
    if f < FIELD_COUNT && !FieldIssue(request, f) { FirstIssueFirst(request, f + 1); }
  }

  lemma {:induction false} FirstLost(pack: seq<Evidence>, ids: seq<string>, k: nat)
    requires k <= |ids| && ReferenceFindings(pack, ids, k) != []
    ensures var w := ReferenceFindings(pack, ids, k)[0];
      && 1 <= w.edge <= k && w == Finding(4, 3, 0, 0, 3, 0, w.edge)
      && Resolve(pack, ids[w.edge - 1]) == 0
      && forall m :: 0 <= m < w.edge - 1 ==> Resolve(pack, ids[m]) != 0
  {
    hide Resolve;
    if ReferenceFindings(pack, ids, k - 1) != [] {
      FirstLost(pack, ids, k - 1);
    } else {
      ReferenceFindingsShape(pack, ids, k - 1);
    }
  }

  // ----- the first clause of an outcome

  predicate FirstWith(fs: seq<Finding>, x: nat, outcome: nat) {
    x < |fs| && fs[x].outcome == outcome && forall y :: 0 <= y < x ==> fs[y].outcome != outcome
  }

  /** No clause before clause j of requirement i resolves to this outcome. */
  ghost predicate NoneBefore(rs: seq<Requirement>, i: nat, j: nat, request: Request, pack: seq<Evidence>, outcome: nat) {
    forall x: nat, y: nat :: x < i || (x == i && y < j) ==> !OutcomeAt(rs, x, y, request, pack, outcome)
  }

  predicate OutcomeAt(rs: seq<Requirement>, i: nat, j: nat, request: Request, pack: seq<Evidence>, outcome: nat) {
    && i < |rs| && j < |rs[i].clauses| && Applies(rs[i], request, pack)
    && OutcomeID(ClauseOutcome(rs, i, j, request, pack)) == outcome
  }

  lemma {:induction false} FirstClause(rs: seq<Requirement>, k: nat, request: Request, pack: seq<Evidence>, x: nat,
                                       outcome: nat)
    returns (i: nat, j: nat)
    requires k <= |rs| && FirstWith(RequirementFindings(rs, k, request, pack), x, outcome)
    ensures FindingOf(rs, i, j, request, pack, RequirementFindings(rs, k, request, pack)[x]) && i < k
    ensures OutcomeAt(rs, i, j, request, pack, outcome) && NoneBefore(rs, i, j, request, pack, outcome)
  {
    hide FindingOf, Applies, ClauseFindings, ClauseOutcome, OutcomeID;
    var front := RequirementFindings(rs, k - 1, request, pack);
    if x < |front| {
      assert forall y :: 0 <= y < |front| ==> front[y] == RequirementFindings(rs, k, request, pack)[y];
      assert FirstWith(front, x, outcome);
      i, j := FirstClause(rs, k - 1, request, pack, x, outcome);
    } else {
      i, j := k - 1, x - |front|;
      var fs := ClauseFindings(rs, i, |rs[i].clauses|, request, pack);
      assert RequirementFindings(rs, k, request, pack) == front + fs;
      ClauseFindingsAt(rs, i, |rs[i].clauses|, request, pack);
      FindingOutcome(rs, i, j, request, pack, fs[j]);
      forall a: nat, b: nat | a < i || (a == i && b < j)
        ensures !OutcomeAt(rs, a, b, request, pack, outcome)
      {
        if OutcomeAt(rs, a, b, request, pack, outcome) {
          var f := EarlierFinding(rs, k, request, pack, x, a, b);
          FindingOutcome(rs, a, b, request, pack, f);
        }
      }
    }
  }

  /** A clause before clause x of the last requirement has its finding before it. */
  lemma {:induction false} EarlierFinding(rs: seq<Requirement>, k: nat, request: Request, pack: seq<Evidence>, x: nat,
                                          a: nat, b: nat)
    returns (f: Finding)
    requires 1 <= k <= |rs| && |RequirementFindings(rs, k - 1, request, pack)| <= x
    requires x < |RequirementFindings(rs, k, request, pack)|
    requires a < k && b < |rs[a].clauses| && Applies(rs[a], request, pack)
    requires a == k - 1 ==> b < x - |RequirementFindings(rs, k - 1, request, pack)|
    ensures FindingOf(rs, a, b, request, pack, f)
    ensures exists y :: 0 <= y < x && RequirementFindings(rs, k, request, pack)[y] == f
  {
    hide FindingOf, Applies, ClauseFindings;
    var front, all := RequirementFindings(rs, k - 1, request, pack), RequirementFindings(rs, k, request, pack);
    if a < k - 1 {
      f := FindingOfClause(rs, k - 1, a, b, request, pack);
      var y :| 0 <= y < |front| && front[y] == f;
      assert all[y] == f;
    } else {
      var fs := ClauseFindings(rs, a, |rs[a].clauses|, request, pack);
      ClauseFindingsAt(rs, a, |rs[a].clauses|, request, pack);
      f := fs[b];
      assert all[|front| + b] == f;
    }
  }

  /** The first clause finding of an outcome is that of the first clause that gives it. */
  lemma {:induction false} FirstGivesMeans(policy: Policy, request: Request, pack: seq<Evidence>, x: nat, o: Outcome)
    returns (i: nat, j: nat, s: State)
    requires PolicyValid(policy) && !o.UnknownOutcome?
    requires FirstWith(RequirementFindings(policy.requirements, |policy.requirements|, request, pack), x, OutcomeID(o))
    ensures FirstGives(policy.requirements, request, pack, i, j, s, o)
    ensures RequirementFindings(policy.requirements, |policy.requirements|, request, pack)[x]
         == Finding(OutcomeID(o), 1, i + 1, |Clauses(policy.requirements, i)| + j + 1, Number(s), 0, 0)
  {
    hide PolicyValid, RequirementFindings, Governs, Applies, InState, EvalExpression, Clauses, Gives, For, Number;
    var rs := policy.requirements;
    i, j := FirstClause(rs, |rs|, request, pack, x, OutcomeID(o));
    s := ClauseMeans(policy, request, pack, i, j);
    ResolutionKnown(policy, i, j, request, pack);
    OutcomeIDInjective(o, ClauseOutcome(rs, i, j, request, pack));
    GivesMeans(policy, request, pack, i, j, o);
    var t :| Gives(rs, request, pack, i, j, t, o);
    assert t == s by { GivesState(rs, request, pack, i, j, t, o); }
    forall a: nat, b: nat, t: State | a < i || (a == i && b < j)
      ensures !Gives(rs, request, pack, a, b, t, o)
    {
      GivesMeans(policy, request, pack, a, b, o);
      assert !OutcomeAt(rs, a, b, request, pack, OutcomeID(o));
    }
  }

  lemma {:induction false} GivesState(rs: seq<Requirement>, request: Request, pack: seq<Evidence>, i: nat, j: nat, s: State,
                                      o: Outcome)
    requires Gives(rs, request, pack, i, j, s, o)
    ensures i < |rs| && j < |rs[i].clauses| && InState(rs[i].clauses[j].assertion, request, pack, s)
  {
    hide InState, Governs;
  }

  // ----- the decision

  /** The numbers under which a cause is stored. */
  predicate Numbers(policy: Policy, request: Request, o: Outcome, cause: Cause, w: Finding) {
    match cause
    case NoCause => w == Finding(1, 0, 0, 0, 1, 0, 0)
    case BadField(n) =>
      n < |FIELDS| && w == Finding(4, 2, 0, 0, if Text(request, FIELDS[n]) == "" then 3 else 6, n + 1, 0)
    case NoRecord(k) => w == Finding(4, 3, 0, 0, 3, 0, k + 1)
    case NoRule => w == Finding(4, 4, 0, 0, 7, 0, 0)
    case ByClause(i, j, s) =>
      && i < |policy.requirements|
      && w == Finding(OutcomeNumber(o), 1, i + 1, |Clauses(policy.requirements, i)| + j + 1, Number(s), 0, 0)
  }

  function OutcomeNumber(o: Outcome): nat {
    match o
    case Approve => 1
    case Reject => 2
    case Revise => 3
    case Escalate => 4
    case UnknownOutcome(_) => 0
  }

  /** The first finding of the winning outcome wins. */
  lemma {:induction false} WinnerFirst(fs: seq<Finding>) returns (x: nat)
    requires AllKnown(fs) && Best(COMPILED_PRECEDENCE, fs).outcome != OUTCOME_APPROVE
    ensures x < |fs| && Best(COMPILED_PRECEDENCE, fs) == fs[x]
    ensures FirstWith(fs, x, fs[x].outcome)
  {
    hide Best;
    var i := BestWitness(COMPILED_PRECEDENCE, fs);
    x := i;
  }

  lemma {:induction false} ApprovalIsNothing(fs: seq<Finding>)
    requires AllKnown(fs) && Best(COMPILED_PRECEDENCE, fs).outcome == OUTCOME_APPROVE
    ensures Best(COMPILED_PRECEDENCE, fs) == Finding(1, 0, 0, 0, 1, 0, 0)
  {
    hide Best;
    var i := BestWitness(COMPILED_PRECEDENCE, fs);
  }

  /** The parts of the finding list: fields, references, clauses, and no requirement. */
  lemma {:induction false} FirstInParts(policy: Policy, request: Request, pack: seq<Evidence>, x: nat) returns (y: nat)
    requires var fs := AllFindings(policy, request, pack); x < |fs| && FirstWith(fs, x, fs[x].outcome)
    ensures var rs, ids, w := policy.requirements, request.evidenceIDs, AllFindings(policy, request, pack)[x];
      var sem, refs := SemanticFindings(request), ReferenceFindings(pack, ids, |ids|);
      var clauses := RequirementFindings(rs, |rs|, request, pack);
      if w.outcome == OUTCOME_ESCALATE && sem != [] then w == sem[0]
      else if w.outcome == OUTCOME_ESCALATE && refs != [] then w == refs[0]
      else if y < |clauses| then w == clauses[y] && FirstWith(clauses, y, w.outcome)
      else w == NO_APPLICABLE && Applied(rs, |rs|, request, pack) == []
  {
    hide Applied, RequirementFindings, ReferenceFindings, FirstIssue;
    var rs, ids, fs := policy.requirements, request.evidenceIDs, AllFindings(policy, request, pack);
    var sem, refs := SemanticFindings(request), ReferenceFindings(pack, ids, |ids|);
    var clauses := RequirementFindings(rs, |rs|, request, pack);
    ReferenceFindingsShape(pack, ids, |ids|);
    var before := |sem| + |refs|;
    y := 0;
    if sem != [] { assert fs[0] == sem[0]; }
    if sem == [] && refs != [] { assert fs[0] == refs[0] && refs[0] in refs; }
    if x < before {
      if x < |sem| { assert fs[x] == sem[x]; } else { assert fs[x] == refs[x - |sem|] && refs[x - |sem|] in refs; }
    } else {
      y := x - before;
      if y < |clauses| {
        assert fs[x] == clauses[y];
        assert forall z :: 0 <= z < y ==> clauses[z] == fs[before + z];
      }
    }
  }

  /** The decision on a request has a cause in the policy language, and is stored as that cause. */
  lemma {:induction false} DecisionMeans(policy: Policy, request: Request, pack: seq<Evidence>)
    returns (o: Outcome, cause: Cause)
    requires PolicyValid(policy)
    ensures Because(policy, request, pack, o, cause)
    ensures Numbers(policy, request, o, cause, Decide(policy, request, pack).driver)
  {
    hide PolicyValid, AllFindings, Best, Used, Applied, WellFormed, SomeGoverns, SomeGives, SomeClauseResolves, FirstGives,
         WellReferenced, SomeApplies, SomeFinding, Clauses, GoodField, Number, RequirementFindings, ReferenceFindings;
    var rs, fs := policy.requirements, AllFindings(policy, request, pack);
    FindingsKnown(policy, request, pack);
    BestOutcome(fs);
    SomeGivesMeans(policy, request, pack, Reject);
    SomeGivesMeans(policy, request, pack, Revise);
    SomeGivesMeans(policy, request, pack, Escalate);
    ClauseOutcomeFound(policy, request, pack, Reject);
    ClauseOutcomeFound(policy, request, pack, Revise);
    EscalationFound(policy, request, pack);
    WellFormedMeans(request, pack);
    SomeGovernsMeans(policy, request, pack);
    var w := Best(COMPILED_PRECEDENCE, fs);
    if w.outcome == OUTCOME_APPROVE {
      ApprovalIsNothing(fs);
      o, cause := Approve, NoCause;
    } else if w.outcome == OUTCOME_ESCALATE {
      o, cause := EscalationMeans(policy, request, pack);
    } else {
      o := if w.outcome == OUTCOME_REJECT then Reject else Revise;
      cause := ClauseCause(policy, request, pack, o);
    }
  }

  lemma {:induction false} ClauseCause(policy: Policy, request: Request, pack: seq<Evidence>, o: Outcome)
    returns (cause: Cause)
    requires PolicyValid(policy) && (o == Reject || o == Revise)
    requires Decide(policy, request, pack).driver.outcome == OutcomeID(o)
    ensures cause.ByClause? && FirstGives(policy.requirements, request, pack, cause.i, cause.j, cause.s, o)
    ensures Numbers(policy, request, o, cause, Decide(policy, request, pack).driver)
  {
    hide PolicyValid, AllFindings, Best, Used, Applied, Gives, Clauses, Number, RequirementFindings, ReferenceFindings;
    FindingsKnown(policy, request, pack);
    var x := WinnerFirst(AllFindings(policy, request, pack));
    var y := FirstInParts(policy, request, pack, x);
    var i, j, s := FirstGivesMeans(policy, request, pack, y, o);
    GivesState(policy.requirements, request, pack, i, j, s, o);
    cause := ByClause(i, j, s);
  }

  lemma {:induction false} EscalationMeans(policy: Policy, request: Request, pack: seq<Evidence>)
    returns (o: Outcome, cause: Cause)
    requires PolicyValid(policy) && Decide(policy, request, pack).driver.outcome == OUTCOME_ESCALATE
    requires !SomeGives(policy.requirements, request, pack, Reject)
    ensures o == Escalate && Because(policy, request, pack, o, cause)
    ensures Numbers(policy, request, o, cause, Decide(policy, request, pack).driver)
  {
    hide PolicyValid, AllFindings, Best, Used, Applied, Gives, SomeGives, Clauses, Number, RequirementFindings,
         ReferenceFindings, FirstIssue, FieldIssue, GoodField, Exists, SomeGoverns, Resolve;
    var rs, ids := policy.requirements, request.evidenceIDs;
    FindingsKnown(policy, request, pack);
    WellFormedMeans(request, pack);
    var x := WinnerFirst(AllFindings(policy, request, pack));
    var y := FirstInParts(policy, request, pack, x);
    o := Escalate;
    if SemanticFindings(request) != [] {
      cause := FieldCause(request);
    } else if ReferenceFindings(pack, ids, |ids|) != [] {
      cause := ReferenceCause(request, pack);
    } else if y < |RequirementFindings(rs, |rs|, request, pack)| {
      var i, j, s := FirstGivesMeans(policy, request, pack, y, o);
      GivesState(rs, request, pack, i, j, s, o);
      cause := ByClause(i, j, s);
    } else {
      AppliedNone(rs, |rs|, request, pack);
      SomeGovernsMeans(policy, request, pack);
      cause := NoRule;
    }
  }

  lemma {:induction false} FieldCause(request: Request) returns (cause: Cause)
    requires SemanticFindings(request) != []
    ensures cause.BadField? && cause.n < |FIELDS| && !GoodField(request, cause.n)
    ensures forall m :: 0 <= m < cause.n ==> GoodField(request, m)
    ensures SemanticFindings(request)[0]
         == Finding(4, 2, 0, 0, if Text(request, FIELDS[cause.n]) == "" then 3 else 6, cause.n + 1, 0)
  {
    hide FirstIssue, FieldIssue, GoodField, Text, Request.Field;
    FirstIssueFirst(request, FIELD_REQUESTER);
    var n := FirstIssue(request, FIELD_REQUESTER) - 1;
    forall m | 0 <= m <= n
      ensures GoodField(request, m) <==> !FieldIssue(request, m + 1)
      ensures request.Field(m + 1) == Text(request, FIELDS[m])
    {
      GoodFieldMeans(request, m);
    }
    cause := BadField(n);
  }

  lemma {:induction false} ReferenceCause(request: Request, pack: seq<Evidence>) returns (cause: Cause)
    requires ReferenceFindings(pack, request.evidenceIDs, |request.evidenceIDs|) != []
    ensures cause.NoRecord? && cause.k < |request.evidenceIDs| && !Exists(pack, request.evidenceIDs[cause.k])
    ensures forall m :: 0 <= m < cause.k ==> Exists(pack, request.evidenceIDs[m])
    ensures ReferenceFindings(pack, request.evidenceIDs, |request.evidenceIDs|)[0]
         == Finding(4, 3, 0, 0, 3, 0, cause.k + 1)
  {
    hide ReferenceFindings, Exists, Resolve;
    var ids := request.evidenceIDs;
    FirstLost(pack, ids, |ids|);
    cause := NoRecord(ReferenceFindings(pack, ids, |ids|)[0].edge - 1);
    forall m | 0 <= m <= cause.k
      ensures Exists(pack, ids[m]) <==> Resolve(pack, ids[m]) != 0
    {
      FoundMeans(pack, ids[m]);
    }
  }

  // ----- there is one cause

  lemma {:induction false} GivesOnce(policy: Policy, request: Request, pack: seq<Evidence>, i: nat, j: nat, s: State,
                                     o: Outcome, t: State, u: Outcome)
    requires PolicyValid(policy)
    requires Gives(policy.requirements, request, pack, i, j, s, o) && Gives(policy.requirements, request, pack, i, j, t, u)
    ensures s == t && o == u
  {
    hide PolicyValid, Governs, InState, EvalExpression;
    var state := ClauseMeans(policy, request, pack, i, j);
  }

  lemma {:induction false} FirstOnce(policy: Policy, request: Request, pack: seq<Evidence>, i: nat, j: nat, s: State,
                                     x: nat, y: nat, t: State, o: Outcome)
    requires PolicyValid(policy)
    requires FirstGives(policy.requirements, request, pack, i, j, s, o)
    requires FirstGives(policy.requirements, request, pack, x, y, t, o)
    ensures i == x && j == y && s == t
  {
    hide PolicyValid, Gives;
    assert i == x && j == y;
    GivesOnce(policy, request, pack, i, j, s, o, t, o);
  }

  /** Outcome and cause are determined by policy, request and pack. */
  lemma {:induction false} BecauseOnce(policy: Policy, request: Request, pack: seq<Evidence>, o: Outcome, cause: Cause,
                                       u: Outcome, other: Cause)
    requires PolicyValid(policy)
    requires Because(policy, request, pack, o, cause) && Because(policy, request, pack, u, other)
    ensures o == u && cause == other
  {
    hide PolicyValid, Gives, GoodField, Exists, SomeGoverns;
    BecauseGiven(policy, request, pack, o, cause);
    BecauseGiven(policy, request, pack, u, other);
    assert o == u;
    if cause.NoRule? || other.NoRule? { NothingGives(policy.requirements, request, pack); }
    if cause.ByClause? || other.ByClause? { assert SomeGives(policy.requirements, request, pack, o); }
    if cause.ByClause? && other.ByClause? {
      FirstOnce(policy, request, pack, cause.i, cause.j, cause.s, other.i, other.j, other.s, o);
    }
  }

  /** The outcome in terms of what the clauses give. */
  lemma {:induction false} BecauseGiven(policy: Policy, request: Request, pack: seq<Evidence>, o: Outcome, cause: Cause)
    requires Because(policy, request, pack, o, cause)
    ensures var rs := policy.requirements;
      && (o == Reject <==> SomeGives(rs, request, pack, Reject))
      && (o == Escalate <==> !SomeGives(rs, request, pack, Reject)
                             && (!WellFormed(request, pack) || !SomeGoverns(rs, request, pack)
                                 || SomeGives(rs, request, pack, Escalate)))
      && (o == Revise <==> Settled(rs, request, pack) && SomeGives(rs, request, pack, Revise))
      && (o == Approve <==> Settled(rs, request, pack) && !SomeGives(rs, request, pack, Revise))
      && !o.UnknownOutcome?
  {
    hide Gives, GoodField, Exists, SomeGoverns;
    var rs := policy.requirements;
    if cause.ByClause? { assert SomeGives(rs, request, pack, o); }
    if cause.NoRule? { NothingGives(rs, request, pack); }
  }

  lemma {:induction false} NothingGives(rs: seq<Requirement>, request: Request, pack: seq<Evidence>)
    requires !SomeGoverns(rs, request, pack)
    ensures forall o :: !SomeGives(rs, request, pack, o)
  {
    hide Governs, InState;
  }
}
