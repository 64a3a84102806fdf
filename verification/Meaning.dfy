/** The verdicts of expressions are the truth states of the policy language. */
module Meaning {
  import opened Schema
  import opened Ast
  import opened Verdicts
  import opened Reference
  import opened Algebra
  import opened EvidenceLaws
  import opened Plain

  /** The truth bits and the reason of a state. */
  function VerdictOf(s: State): Verdict {
    match s
    case IsTrue => Verdict(true, false, 1)
    case IsFalse => Verdict(false, true, 2)
    case InConflict => Verdict(true, true, 8)
    case IsMissing => Verdict(false, false, 3)
    case IsInvalid => Verdict(false, false, 4)
    case IsStale => Verdict(false, false, 5)
    case IsUnclear => Verdict(false, false, 6)
  }

  lemma {:induction false} StatesDiffer(s: State, t: State)
    ensures VerdictOf(s) == VerdictOf(t) <==> s == t
    ensures VerdictOf(s).reason == Number(s)
  {}

  // ----- texts

  lemma {:induction false} TrimLeftParts(s: string) returns (k: nat)
    ensures k <= |s| && TrimLeft(s) == s[k..] && (forall j :: 0 <= j < k ==> Space(s[j]))
    ensures k < |s| ==> !Space(s[k])
  {
    k := 0;
    if s != "" && IsSpace(s[0]) {
      k := TrimLeftParts(s[1..]);
      assert forall j :: 0 < j < k + 1 ==> s[j] == s[1..][j - 1];
      k := k + 1;
    }
  }

  lemma {:induction false} TrimRightParts(s: string) returns (k: nat)
    ensures k <= |s| && TrimRight(s) == s[..k] && (forall j :: k <= j < |s| ==> Space(s[j]))
    ensures k > 0 ==> !Space(s[k - 1])
  {
    k := |s|;
    if s != "" && IsSpace(s[|s| - 1]) {
      k := TrimRightParts(s[..|s| - 1]);
      assert forall j :: k <= j < |s| - 1 ==> s[j] == s[..|s| - 1][j];
    }
  }

  /** Trimming removes the spaces at both ends and nothing else. */
  lemma {:induction false} TrimParts(s: string) returns (i: nat, j: nat)
    ensures i <= j <= |s| && Trim(s) == s[i..j] && Tight(Trim(s))
    ensures forall k :: 0 <= k < i || j <= k < |s| ==> Space(s[k])
  {
    i := TrimLeftParts(s);
    var n := TrimRightParts(s[i..]);
    j := i + n;
    assert s[i..][..n] == s[i..j];
    assert forall k :: j <= k < |s| ==> s[k] == s[i..][k - i];
    if n > 0 { assert s[i..j][n - 1] == s[i..][n - 1]; }
  }

  lemma {:induction false} TrimMeans(s: string)
    ensures Trim(s) == "" <==> Blank(s)
    ensures Trim(s) == s <==> Tight(s)
  {
    hide Trim;
    var i, j := TrimParts(s);
    if i < j { assert Trim(s)[0] == s[i]; }
    if Tight(s) && s != "" {
      assert i == 0 && j == |s|;
    }
  }

  // ----- fields

  lemma {:induction false} FieldMeans(request: Request, n: nat, value: string)
    requires n < |FIELDS|
    ensures request.Field(n + 1) == Text(request, FIELDS[n]) && LookupField(FIELDS[n]) == n + 1
    ensures ValidFieldValue(n + 1, value) <==> Acceptable(FIELDS[n], value)
  {
    hide Trim;
    TrimMeans(value);
  }

  lemma {:induction false} FieldKnown(name: string)
    ensures LookupField(name) <= |FIELDS| && (LookupField(name) == 0 <==> name !in FIELDS)
    ensures LookupField(name) != 0 ==> FIELDS[LookupField(name) - 1] == name
  {
    assert FIELDS[0] == "requester" && FIELDS[1] == "trust_level" && FIELDS[2] == "action";
    assert FIELDS[3] == "output_kind" && FIELDS[4] == "dataset" && FIELDS[5] == "environment";
    assert FIELDS[6] == "usage_limit";
  }

  lemma {:induction false} UnacceptableEmpty(name: string)
    ensures !Acceptable(name, "")
  {}

  /** The verdict of a comparison. */
  lemma {:induction false} ComparisonMeans(name: string, request: Request, matches: bool, s: State)
    requires LookupField(name) != 0
    ensures var f := LookupField(name); var value := request.Field(f);
      && value == Text(request, name)
      && (TextState(name, value, matches, s)
          <==> FieldVerdict(value, ValidFieldValue(f, value), matches) == VerdictOf(s))
  {
    hide ValidFieldValue, LookupField, Acceptable, Text, Request.Field;
    FieldKnown(name);
    var f := LookupField(name);
    FieldMeans(request, f - 1, request.Field(f));
    UnacceptableEmpty(name);
  }

  // ----- evidence

  /** The grade of a record of this quality. */
  function GradeOf(q: Quality): nat {
    match q
    case Disputed => 6
    case Stale => 5
    case Void => 4
    case Incomplete => 3
    case Fitting => 2
    case Unfit => 1
  }

  lemma {:induction false} QualifiersMean(want: EvidencePredicate, e: Evidence)
    ensures (exists q :: 0 <= q < QUALIFIER_COUNT && WrongQualifier(want, e, q)) <==> SomeDiffers(want, e)
    ensures (exists q :: 0 <= q < QUALIFIER_COUNT && OpenQualifier(want, e, q)) <==> SomeOpen(want, e)
  {
    forall q | 0 <= q < QUALIFIER_COUNT
      ensures WrongQualifier(want, e, q) ==> SomeDiffers(want, e)
      ensures OpenQualifier(want, e, q) ==> SomeOpen(want, e)
    {}
    if SomeDiffers(want, e) { var q := DifferingQualifier(want, e); }
    if SomeOpen(want, e) { var q := OpenedQualifier(want, e); }
  }

  lemma {:induction false} DifferingQualifier(want: EvidencePredicate, e: Evidence) returns (q: nat)
    requires SomeDiffers(want, e)
    ensures q < QUALIFIER_COUNT && WrongQualifier(want, e, q)
  {
    q := if Differs(want.status, e.status) then QUALIFIER_STATUS
         else if Differs(want.timing, e.timing) then QUALIFIER_TIMING
         else if Differs(want.reviewer, e.reviewer) then QUALIFIER_REVIEWER
         else if Differs(want.timestampState, e.timestampState) then QUALIFIER_TIMESTAMP_STATE
         else if Differs(want.subject, e.subject) then QUALIFIER_SUBJECT
         else if Differs(want.attestationState, e.attestationState) then QUALIFIER_ATTESTATION_STATE
         else if Differs(want.scope, e.scope) then QUALIFIER_SCOPE else QUALIFIER_ADJUSTMENT_TYPE;
  }

  lemma {:induction false} OpenedQualifier(want: EvidencePredicate, e: Evidence) returns (q: nat)
    requires SomeOpen(want, e)
    ensures q < QUALIFIER_COUNT && OpenQualifier(want, e, q)
  {
    q := if Open(want.status, e.status) then QUALIFIER_STATUS
         else if Open(want.timing, e.timing) then QUALIFIER_TIMING
         else if Open(want.reviewer, e.reviewer) then QUALIFIER_REVIEWER
         else if Open(want.timestampState, e.timestampState) then QUALIFIER_TIMESTAMP_STATE
         else if Open(want.subject, e.subject) then QUALIFIER_SUBJECT
         else if Open(want.attestationState, e.attestationState) then QUALIFIER_ATTESTATION_STATE
         else if Open(want.scope, e.scope) then QUALIFIER_SCOPE else QUALIFIER_ADJUSTMENT_TYPE;
  }

  /** The grade of a record is its quality, and zero is only for records of another kind. */
  lemma {:induction false} RecordMeans(want: EvidencePredicate, e: Evidence, q: Quality)
    ensures RecordGrade(want, e) == GradeOf(q) <==> e.kind == want.kind && Has(want, e, q)
    ensures RecordGrade(want, e) == 0 <==> e.kind != want.kind
    ensures RecordGrade(want, e) <= 6
  {
    hide WrongQualifier, OpenQualifier, SomeDiffers, SomeOpen;
    QualifiersMean(want, e);
  }

  lemma {:induction false} FoundMeans(pack: seq<Evidence>, id: string)
    ensures Resolve(pack, id) != 0 <==> Exists(pack, id)
    ensures Resolve(pack, id) != 0 ==> Found(pack, id, pack[Resolve(pack, id) - 1])
    ensures forall e :: Found(pack, id, e) ==> Resolve(pack, id) != 0 && e == pack[Resolve(pack, id) - 1]
  {
    FirstFound(pack, id, |pack|);
    var r := Resolve(pack, id);
    if r != 0 { assert FoundAt(pack, id, pack[r - 1], r - 1); }
    forall e | Found(pack, id, e)
      ensures r != 0 && e == pack[r - 1]
    {
      var i :| 0 <= i < |pack| && FoundAt(pack, id, e, i);
      assert pack[i].id == id;
    }
  }

  lemma {:induction false} FirstFound(pack: seq<Evidence>, id: string, k: nat)
    requires k <= |pack|
    ensures var r := FindRecord(pack, id, k);
      r != 0 ==> forall j :: 0 <= j < r - 1 ==> pack[j].id != id
  {
    if k > 0 { FirstFound(pack, id, k - 1); }
  }

  /** Some reference has this grade exactly when the request cites a record of the quality. */
  lemma {:induction false} CitesMeans(request: Request, pack: seq<Evidence>, want: EvidencePredicate, q: Quality)
    ensures Cites(request, pack, want, q)
       <==> exists id :: id in request.evidenceIDs && ReferenceGrade(want, pack, id) == GradeOf(q)
  {
    hide Resolve, RecordGrade, Has, Found;
    forall id
      ensures (exists e :: CitesRecord(request, pack, want, q, id, e))
         <==> id in request.evidenceIDs && ReferenceGrade(want, pack, id) == GradeOf(q)
    {
      FoundMeans(pack, id);
      var r := Resolve(pack, id);
      if r != 0 {
        RecordMeans(want, pack[r - 1], q);
        if id in request.evidenceIDs && ReferenceGrade(want, pack, id) == GradeOf(q) {
          assert CitesRecord(request, pack, want, q, id, pack[r - 1]);
        }
      }
    }
    if Cites(request, pack, want, q) {
      var id, e :| CitesRecord(request, pack, want, q, id, e);
      assert exists id :: id in request.evidenceIDs && ReferenceGrade(want, pack, id) == GradeOf(q);
    }
  }

  /** The reduction over the references is the best quality cited. */
  lemma {:induction false} GradeMeans(request: Request, pack: seq<Evidence>, want: EvidencePredicate)
    ensures var g := ListGrade(want, pack, request.evidenceIDs);
      && g <= 6
      && (forall q :: g == GradeOf(q) ==> Cites(request, pack, want, q))
      && forall q :: Cites(request, pack, want, q) ==> GradeOf(q) <= g
  {
    hide ReferenceGrade, Cites, ListGrade;
    var g := ListGrade(want, pack, request.evidenceIDs);
    ListGradeIsMax(want, pack, request.evidenceIDs);
    forall q: Quality
      ensures g == GradeOf(q) ==> Cites(request, pack, want, q)
      ensures Cites(request, pack, want, q) ==> GradeOf(q) <= g
    {
      CitesMeans(request, pack, want, q);
    }
    if g != 0 {
      var id :| id in request.evidenceIDs && ReferenceGrade(want, pack, id) == g;
      GradeBound(want, pack, id);
    }
  }

  lemma {:induction false} GradeBound(want: EvidencePredicate, pack: seq<Evidence>, id: string)
    ensures ReferenceGrade(want, pack, id) <= 6
  {
    hide RecordGrade, Resolve;
    if Resolve(pack, id) != 0 { RecordMeans(want, pack[Resolve(pack, id) - 1], Disputed); }
  }

  lemma {:induction false} EvidenceMeans(request: Request, pack: seq<Evidence>, want: EvidencePredicate, s: State)
    ensures EvidenceState(request, pack, want, s)
       <==> GradeVerdict(ListGrade(want, pack, request.evidenceIDs)) == VerdictOf(s)
  {
    hide ListGrade, Cites;
    GradeMeans(request, pack, want);
    var g := ListGrade(want, pack, request.evidenceIDs);
    assert forall q: Quality :: GradeOf(q) == g ==> Cites(request, pack, want, q);
    assert GradeOf(Disputed) == 6 && GradeOf(Stale) == 5 && GradeOf(Void) == 4;
    assert GradeOf(Incomplete) == 3 && GradeOf(Fitting) == 2 && GradeOf(Unfit) == 1;
  }

  // ----- conjunctions

  predicate SomeIs(vs: seq<Verdict>, s: State) {
    exists i :: 0 <= i < |vs| && vs[i] == VerdictOf(s)
  }

  predicate EveryIs(vs: seq<Verdict>, s: State, t: State) {
    forall i :: 0 <= i < |vs| ==> vs[i] == VerdictOf(s) || vs[i] == VerdictOf(t)
  }

  predicate UndecidedAre(vs: seq<Verdict>) {
    !SomeIs(vs, IsFalse) && !SomeIs(vs, InConflict) && !EveryIs(vs, IsTrue, IsTrue)
  }

  /** What the states of the operands make of the conjunction. */
  predicate ConjState(vs: seq<Verdict>, s: State) {
    match s
    case IsTrue => EveryIs(vs, IsTrue, IsTrue)
    case InConflict => EveryIs(vs, IsTrue, InConflict) && SomeIs(vs, InConflict)
    case IsFalse => (SomeIs(vs, IsFalse) || SomeIs(vs, InConflict)) && !EveryIs(vs, IsTrue, InConflict)
    case IsStale => UndecidedAre(vs) && SomeIs(vs, IsStale)
    case IsInvalid => UndecidedAre(vs) && !SomeIs(vs, IsStale) && SomeIs(vs, IsInvalid)
    case IsUnclear => UndecidedAre(vs) && !SomeIs(vs, IsStale) && !SomeIs(vs, IsInvalid) && SomeIs(vs, IsUnclear)
    case IsMissing =>
      UndecidedAre(vs) && !SomeIs(vs, IsStale) && !SomeIs(vs, IsInvalid) && !SomeIs(vs, IsUnclear)
  }

  /** A coherent verdict is the verdict of a state. */
  lemma {:induction false} StateOf(v: Verdict) returns (s: State)
    requires Coherent(v)
    ensures v == VerdictOf(s)
  {
    assert v.reason in {REASON_MISSING, REASON_STALE, REASON_INVALID_EVIDENCE, REASON_UNCLEAR} <==> !v.pos && !v.neg;
    s := if v.pos then (if v.neg then InConflict else IsTrue) else if v.neg then IsFalse
         else if v.reason == 3 then IsMissing else if v.reason == 4 then IsInvalid
         else if v.reason == 5 then IsStale else IsUnclear;
  }

  lemma {:induction false} TruthBits(vs: seq<Verdict>)
    requires AllCoherent(vs)
    ensures AllPositive(vs) <==> EveryIs(vs, IsTrue, InConflict)
    ensures SomeNegative(vs) <==> SomeIs(vs, IsFalse) || SomeIs(vs, InConflict)
    ensures AllPositive(vs) && !SomeNegative(vs) <==> EveryIs(vs, IsTrue, IsTrue)
  {
    forall i | 0 <= i < |vs|
      ensures vs[i].pos <==> vs[i] == VerdictOf(IsTrue) || vs[i] == VerdictOf(InConflict)
      ensures vs[i].neg <==> vs[i] == VerdictOf(IsFalse) || vs[i] == VerdictOf(InConflict)
    {
      var s := StateOf(vs[i]);
    }
  }

  lemma {:induction false} ReasonBits(vs: seq<Verdict>, s: State)
    requires AllCoherent(vs)
    ensures SomeReason(vs, Number(s)) <==> SomeIs(vs, s)
  {
    forall i | 0 <= i < |vs|
      ensures vs[i].reason == Number(s) <==> vs[i] == VerdictOf(s)
    {
      var t := StateOf(vs[i]);
      StatesDiffer(s, t);
    }
    if SomeReason(vs, Number(s)) { var i :| 0 <= i < |vs| && vs[i].reason == Number(s); assert vs[i] == VerdictOf(s); }
    if SomeIs(vs, s) { var i :| 0 <= i < |vs| && vs[i] == VerdictOf(s); assert vs[i].reason == Number(s); }
  }

  /** The reason of an undecided conjunction: stale, invalid, unclear, missing, in this order. */
  lemma {:induction false} UndecidedReason(vs: seq<Verdict>)
    requires AllCoherent(vs) && !AllPositive(vs) && !SomeNegative(vs)
    ensures PriorityReason(vs, 0)
         == if SomeIs(vs, IsStale) then 5 else if SomeIs(vs, IsInvalid) then 4 else if SomeIs(vs, IsUnclear) then 6 else 3
  {
    hide SomeReason, SomeIs, AllPositive, SomeNegative;
    ReasonBits(vs, InConflict);
    ReasonBits(vs, IsStale);
    ReasonBits(vs, IsInvalid);
    ReasonBits(vs, IsUnclear);
    ReasonBits(vs, IsMissing);
    TruthBits(vs);
    SomeUndecided(vs);
    assert PRIORITY[0] == Number(InConflict) && PRIORITY[1] == Number(IsStale) && PRIORITY[2] == Number(IsInvalid);
    assert PRIORITY[3] == Number(IsUnclear) && PRIORITY[4] == Number(IsMissing);
    assert PriorityReason(vs, 1) == PriorityReason(vs, 0);
    if !SomeIs(vs, IsStale) {
      assert PriorityReason(vs, 2) == PriorityReason(vs, 1);
      if !SomeIs(vs, IsInvalid) {
        assert PriorityReason(vs, 3) == PriorityReason(vs, 2);
        if !SomeIs(vs, IsUnclear) { assert PriorityReason(vs, 4) == PriorityReason(vs, 3); }
      }
    }
  }

  lemma {:induction false} SomeUndecided(vs: seq<Verdict>)
    requires AllCoherent(vs) && !AllPositive(vs) && !SomeNegative(vs)
    ensures SomeIs(vs, IsStale) || SomeIs(vs, IsInvalid) || SomeIs(vs, IsUnclear) || SomeIs(vs, IsMissing)
  {
    var i :| 0 <= i < |vs| && !vs[i].pos;
    assert !vs[i].neg;
    var s := StateOf(vs[i]);
    assert SomeIs(vs, s);
  }

  lemma {:induction false} ConjMeans(vs: seq<Verdict>, s: State)
    requires vs != [] && AllCoherent(vs)
    ensures ConjState(vs, s) <==> Conj(vs) == VerdictOf(s)
  {
    hide SomeIs, EveryIs, PriorityReason, AllPositive, SomeNegative, AllCoherent;
    TruthBits(vs);
    EveryWider(vs);
    if !AllPositive(vs) && !SomeNegative(vs) { UndecidedReason(vs); }
  }

  lemma {:induction false} EveryWider(vs: seq<Verdict>)
    ensures EveryIs(vs, IsTrue, IsTrue) ==> EveryIs(vs, IsTrue, InConflict)
    ensures EveryIs(vs, IsTrue, InConflict) && !SomeIs(vs, InConflict) ==> EveryIs(vs, IsTrue, IsTrue)
  {}

  // ----- expressions

  /** The four-valued verdict of a valid expression, truth bits and reason, is that of the one state
      that the policy language gives it. */
  lemma {:induction false} VerdictMeans(e: Expression, depth: nat, allowEvidence: bool, request: Request,
                                        pack: seq<Evidence>)
    requires ExpressionValid(e, depth, allowEvidence)
    ensures forall s :: InState(e, request, pack, s) <==> EvalExpression(e, request, pack) == VerdictOf(s)
    decreases e
  {
    hide Trim, ValidFieldValue, LookupField, SetValid, ListGrade, Conj, TextState, EvidenceState, FieldVerdict,
         GradeVerdict, VerdictOf, AllState, Text, Request.Field;
    forall s: State
      ensures InState(e, request, pack, s) <==> EvalExpression(e, request, pack) == VerdictOf(s)
    {
      match e.op
      case Equal => ComparisonMeans(e.field, request, Text(request, e.field) == e.value, s);
      case In => ComparisonMeans(e.field, request, Text(request, e.field) in e.values, s);
      case EvidenceMatches => EvidenceMeans(request, pack, e.evidence, s);
      case All =>
        var vs := EvalAll(e.children, request, pack);
        assert vs == seq(|e.children|, i requires 0 <= i < |e.children| => EvalExpression(e.children[i], request, pack));
        forall i | 0 <= i < |vs|
          ensures forall t :: InState(e.children[i], request, pack, t) <==> vs[i] == VerdictOf(t)
          ensures Coherent(vs[i])
        {
          VerdictMeans(e.children[i], depth + 1, allowEvidence, request, pack);
          EvalCoherent(e.children[i], depth + 1, allowEvidence, request, pack);
        }
        ChildrenMean(e.children, request, pack, vs, s);
        ConjMeans(vs, s);
    }
  }

  lemma {:induction false} ChildrenMean(es: seq<Expression>, request: Request, pack: seq<Evidence>, vs: seq<Verdict>,
                                        s: State)
    requires |vs| == |es|
    requires forall i, t :: 0 <= i < |vs| ==> (InState(es[i], request, pack, t) <==> vs[i] == VerdictOf(t))
    ensures AllState(es, request, pack, s) <==> ConjState(vs, s)
  {
    hide InState, VerdictOf;
    forall t: State, u: State
      ensures Some(es, request, pack, t) <==> SomeIs(vs, t)
      ensures Every(es, request, pack, t, u) <==> EveryIs(vs, t, u)
    {
      if Some(es, request, pack, t) {
        var i :| 0 <= i < |es| && InState(es[i], request, pack, t);
        assert vs[i] == VerdictOf(t);
      }
      if SomeIs(vs, t) { var i :| 0 <= i < |vs| && vs[i] == VerdictOf(t); assert InState(es[i], request, pack, t); }
    }
    assert Undecided(es, request, pack) <==> UndecidedAre(vs);
  }

  // ----- what this comes to for comparisons and for evidence

  lemma {:induction false} ListedAcceptable(e: Expression, allowEvidence: bool, value: string)
    requires NodeValid(e, allowEvidence)
    requires (e.op.Equal? && value == e.value) || (e.op.In? && value in e.values)
    ensures LookupField(e.field) != 0 && Acceptable(e.field, value) && value != ""
  {
    hide Trim, LookupField, ValidFieldValue, Acceptable;
    FieldKnown(e.field);
    FieldMeans(Request("", "", "", "", "", "", "", "", []), LookupField(e.field) - 1, value);
    UnacceptableEmpty(e.field);
  }

  /** A comparison is true exactly when the request has a listed value, false exactly when it has
      another acceptable one, missing when it has none, and unclear otherwise. */
  lemma {:induction false} ComparisonTruth(e: Expression, depth: nat, allowEvidence: bool, request: Request,
                                           pack: seq<Evidence>)
    requires ExpressionValid(e, depth, allowEvidence) && (e.op.Equal? || e.op.In?)
    ensures var v, x := EvalExpression(e, request, pack), Text(request, e.field);
      var listed := if e.op.Equal? then x == e.value else x in e.values;
      && (v.pos <==> listed)
      && (v.neg <==> Acceptable(e.field, x) && !listed)
      && (v.reason == 3 <==> x == "")
      && (v.reason == 6 <==> x != "" && !Acceptable(e.field, x))
  {
    hide Trim, ValidFieldValue, LookupField, SetValid, Acceptable, Text, EvalExpression;
    var x := Text(request, e.field);
    if (e.op.Equal? && x == e.value) || (e.op.In? && x in e.values) { ListedAcceptable(e, allowEvidence, x); }
    VerdictMeans(e, depth, allowEvidence, request, pack);
    UnacceptableEmpty(e.field);
    var s := if x == "" then IsMissing else if !Acceptable(e.field, x) then IsUnclear
             else if (if e.op.Equal? then x == e.value else x in e.values) then IsTrue else IsFalse;
    assert InState(e, request, pack, s);
  }

  /** A cited record of the wanted kind in a bad state: the predicate never holds, and each state has
      its own reason. */
  lemma {:induction false} EvidenceTruth(e: Expression, depth: nat, request: Request, pack: seq<Evidence>, id: string,
                                         have: Evidence)
    requires ExpressionValid(e, depth, true) && e.op.EvidenceMatches?
    requires id in request.evidenceIDs && Found(pack, id, have) && have.kind == e.evidence.kind
    ensures var v := EvalExpression(e, request, pack);
      && (v.pos && !v.neg ==>
            && have.status !in {"conflicting", "revoked", "expired"}
            && have.timestampState !in {"conflicting", "stale"}
            && have.reviewerState !in {"one_valid_one_revoked", "revoked"})
      && (have.status == "conflicting" ==> v == Verdict(true, true, 8))
      && (have.timestampState == "conflicting" ==> v == Verdict(true, true, 8))
      && (have.reviewerState == "one_valid_one_revoked" ==> v == Verdict(true, true, 8))
      && (have.timestampState == "stale" ==> v.reason in {5, 8})
      && (have.status in {"revoked", "expired"} ==> v.reason in {4, 5, 8})
      && (have.reviewerState == "revoked" ==> v.reason in {4, 5, 8})
  {
    hide EvalExpression, Found, SomeDiffers, SomeOpen, Trim;
    var v := EvalExpression(e, request, pack);
    VerdictMeans(e, depth, true, request, pack);
    EvalCoherent(e, depth, true, request, pack);
    var s := StateOf(v);
    assert EvidenceState(request, pack, e.evidence, s);
    forall q: Quality
      ensures Has(e.evidence, have, q) ==> Cites(request, pack, e.evidence, q)
    {
      if Has(e.evidence, have, q) { assert CitesRecord(request, pack, e.evidence, q, id, have); }
    }
    hide Cites;
    assert Contradictory(have) ==> Has(e.evidence, have, Disputed);
    assert !Contradictory(have) && Outdated(have) ==> Has(e.evidence, have, Stale);
    assert !Contradictory(have) && !Outdated(have) && Withdrawn(have) ==> Has(e.evidence, have, Void);
  }

  /** When the bad record is the only one cited, its state alone is the reason. */
  lemma {:induction false} SingleRecordTruth(e: Expression, depth: nat, request: Request, pack: seq<Evidence>,
                                             have: Evidence)
    requires ExpressionValid(e, depth, true) && e.op.EvidenceMatches?
    requires request.evidenceIDs == [have.id] && Found(pack, have.id, have) && have.kind == e.evidence.kind
    ensures EvalExpression(e, request, pack).reason
         == if Contradictory(have) then 8 else if Outdated(have) then 5 else if Withdrawn(have) then 4
            else if SomeDiffers(e.evidence, have) then 4 else if SomeOpen(e.evidence, have) then 6 else 1
  {
    hide EvalExpression, Found, SomeDiffers, SomeOpen, Trim, FindRecord, Contradictory, Outdated, Withdrawn;
    VerdictMeans(e, depth, true, request, pack);
    FoundMeans(pack, have.id);
    forall q: Quality
      ensures Cites(request, pack, e.evidence, q) <==> Has(e.evidence, have, q)
    {
      if Has(e.evidence, have, q) { assert CitesRecord(request, pack, e.evidence, q, have.id, have); }
    }
    hide Cites;
    var s := if Contradictory(have) then InConflict else if Outdated(have) then IsStale
             else if Withdrawn(have) || SomeDiffers(e.evidence, have) then IsInvalid
             else if SomeOpen(e.evidence, have) then IsUnclear else IsTrue;
    assert InState(e, request, pack, s);
  }
}
