/** How a decision depends on evidence: as a join over the referenced records, not on their order or
    multiplicity, and not at all on records of kinds that no applicable clause asks for. */
module EvidenceLaws {
  import opened Schema
  import opened Ast
  import opened Verdicts
  import opened Findings
  import opened Reference
  import opened Algebra
  import opened Precedence

  // ----- the join

  /** Reducing a concatenation of reference lists is the join on the chain
      conflict > stale > revoked > unclear > satisfied > wrong > missing. */
  lemma {:induction false} ListGradeJoin(want: EvidencePredicate, pack: seq<Evidence>, xs: seq<string>, ys: seq<string>)
    ensures ListGrade(want, pack, xs + ys) == Max(ListGrade(want, pack, xs), ListGrade(want, pack, ys))
  {
    hide ReferenceGrade;
    if ys == [] {
      assert xs + ys == xs;
    } else {
      assert (xs + ys)[..|xs + ys| - 1] == xs + ys[..|ys| - 1];
      ListGradeJoin(want, pack, xs, ys[..|ys| - 1]);
    }
  }

  lemma {:induction false} ListGradeIsMax(want: EvidencePredicate, pack: seq<Evidence>, ids: seq<string>)
    ensures forall id :: id in ids ==> ReferenceGrade(want, pack, id) <= ListGrade(want, pack, ids)
    ensures ListGrade(want, pack, ids) == GRADE_MISSING
         || exists id :: id in ids && ReferenceGrade(want, pack, id) == ListGrade(want, pack, ids)
  {
    hide ReferenceGrade;
    if ids != [] { ListGradeIsMax(want, pack, ids[..|ids| - 1]); }
  }

  function Lookup(pack: seq<Evidence>, id: string): seq<Evidence> {
    if Resolve(pack, id) == 0 then [] else [pack[Resolve(pack, id) - 1]]
  }

  /** Both packs give the same record, or none, for every id. */
  ghost predicate SameLookup(pack: seq<Evidence>, other: seq<Evidence>) {
    forall id :: Lookup(pack, id) == Lookup(other, id)
  }

  lemma {:induction false} ReferenceGradeByLookup(want: EvidencePredicate, pack: seq<Evidence>, id: string)
    ensures ReferenceGrade(want, pack, id)
         == if Lookup(pack, id) == [] then GRADE_MISSING else RecordGrade(want, Lookup(pack, id)[0])
  {
    hide RecordGrade, FindRecord;
  }

  lemma {:induction false} SameGrade(want: EvidencePredicate, pack: seq<Evidence>, other: seq<Evidence>,
                                     xs: seq<string>, ys: seq<string>)
    requires SameLookup(pack, other) && forall id :: id in xs <==> id in ys
    ensures ListGrade(want, pack, xs) == ListGrade(want, other, ys)
  {
    hide ReferenceGrade, Lookup;
    ListGradeIsMax(want, pack, xs);
    ListGradeIsMax(want, other, ys);
    forall id: string
      ensures ReferenceGrade(want, pack, id) == ReferenceGrade(want, other, id)
    {
      ReferenceGradeByLookup(want, pack, id);
      ReferenceGradeByLookup(want, other, id);
    }
  }

  /** Permuting a pack of distinct ids changes no lookup. */
  lemma {:induction false} PermutedLookup(pack: seq<Evidence>, other: seq<Evidence>)
    requires multiset(pack) == multiset(other)
    requires forall i, j :: 0 <= i < j < |pack| ==> pack[i].id != pack[j].id
    ensures SameLookup(pack, other)
  {
    forall id
      ensures Lookup(pack, id) == Lookup(other, id)
    {
      LookupMember(pack, id);
      LookupMember(other, id);
      forall e
        ensures e in pack <==> e in other
      {
        assert e in multiset(pack) <==> e in multiset(other);
      }
    }
  }

  lemma {:induction false} LookupMember(pack: seq<Evidence>, id: string)
    ensures if Lookup(pack, id) == [] then forall e :: e in pack ==> e.id != id
            else |Lookup(pack, id)| == 1 && Lookup(pack, id)[0] in pack && Lookup(pack, id)[0].id == id
  {}

  // ----- requests that differ in the order and multiplicity of their references

  /** The same request up to the order and repetition of its evidence ids. */
  predicate SameRequest(request: Request, other: Request) {
    && other == request.(evidenceIDs := other.evidenceIDs)
    && (forall id :: id in request.evidenceIDs ==> id in other.evidenceIDs)
    && (forall id :: id in other.evidenceIDs ==> id in request.evidenceIDs)
  }

  lemma {:induction false} SameVerdict(e: Expression, request: Request, pack: seq<Evidence>, request': Request,
                                       pack': seq<Evidence>)
    requires SameRequest(request, request') && SameLookup(pack, pack')
    ensures EvalExpression(e, request, pack) == EvalExpression(e, request', pack')
    decreases e
  {
    hide ValidFieldValue, LookupField, ListGrade, Conj, SameLookup;
    if e.op.All? {
      forall i | 0 <= i < |e.children|
        ensures EvalExpression(e.children[i], request, pack) == EvalExpression(e.children[i], request', pack')
      {
        SameVerdict(e.children[i], request, pack, request', pack');
      }
      assert seq(|e.children|, i requires 0 <= i < |e.children| => EvalExpression(e.children[i], request, pack))
          == seq(|e.children|, i requires 0 <= i < |e.children| => EvalExpression(e.children[i], request', pack'));
    } else if e.op.EvidenceMatches? {
      SameGrade(e.evidence, pack, pack', request.evidenceIDs, request'.evidenceIDs);
    } else {
      FieldApart(request, request'.evidenceIDs, LookupField(e.field));
    }
  }

  lemma {:induction false} SameClauseFindings(rs: seq<Requirement>, i: nat, k: nat, request: Request, pack: seq<Evidence>,
                                              request': Request, pack': seq<Evidence>)
    requires SameRequest(request, request') && SameLookup(pack, pack') && i < |rs| && k <= |rs[i].clauses|
    ensures ClauseFindings(rs, i, k, request, pack) == ClauseFindings(rs, i, k, request', pack')
  {
    hide EvalExpression, SameLookup, SameRequest, Clauses;
    if k > 0 {
      SameClauseFindings(rs, i, k - 1, request, pack, request', pack');
      SameVerdict(rs[i].clauses[k - 1].assertion, request, pack, request', pack');
    }
  }

  lemma {:induction false} SameRequirementFindings(rs: seq<Requirement>, k: nat, request: Request, pack: seq<Evidence>,
                                                   request': Request, pack': seq<Evidence>)
    requires SameRequest(request, request') && SameLookup(pack, pack') && k <= |rs|
    ensures RequirementFindings(rs, k, request, pack) == RequirementFindings(rs, k, request', pack')
    ensures Applied(rs, k, request, pack) == Applied(rs, k, request', pack')
  {
    hide EvalExpression, SameLookup, SameRequest, ClauseFindings;
    if k > 0 {
      SameRequirementFindings(rs, k - 1, request, pack, request', pack');
      SameVerdict(rs[k - 1].applicability, request, pack, request', pack');
      SameClauseFindings(rs, k - 1, |rs[k - 1].clauses|, request, pack, request', pack');
    }
  }

  // ----- the winner, up to the position of a missing reference

  /** A finding without the position it names. */
  function Unplaced(f: Finding): Finding {
    f.(edge := 0)
  }

  function UnplacedAll(fs: seq<Finding>): (us: seq<Finding>)
    ensures AllKnown(fs) ==> AllKnown(us)
  {
    seq(|fs|, i requires 0 <= i < |fs| => Unplaced(fs[i]))
  }

  lemma {:induction false} BestUnplaced(precedence: seq<nat>, fs: seq<Finding>)
    requires |precedence| == OUTCOME_COUNT && AllKnown(fs)
    ensures Best(precedence, UnplacedAll(fs)) == Unplaced(Best(precedence, fs))
  {
    if fs != [] {
      var front := fs[..|fs| - 1];
      BestUnplaced(precedence, front);
      assert UnplacedAll(fs)[..|fs| - 1] == UnplacedAll(front);
    }
  }

  /** Scanning on from a winner. */
  function Fold(precedence: seq<nat>, w: Finding, fs: seq<Finding>): (r: Finding)
    requires |precedence| == OUTCOME_COUNT && OutcomeKnown(w) && AllKnown(fs)
    ensures OutcomeKnown(r)
  {
    if fs == [] then w
    else
      var v := Fold(precedence, w, fs[..|fs| - 1]);
      var f := fs[|fs| - 1];
      assert OutcomeKnown(f);
      if Rank(precedence, f) > Rank(precedence, v) then f else v
  }

  lemma {:induction false} BestFolds(precedence: seq<nat>, xs: seq<Finding>, ys: seq<Finding>)
    requires |precedence| == OUTCOME_COUNT && AllKnown(xs) && AllKnown(ys)
    ensures AllKnown(xs + ys) && Best(precedence, xs + ys) == Fold(precedence, Best(precedence, xs), ys)
  {
    if ys == [] {
      assert xs + ys == xs;
    } else {
      var front := ys[..|ys| - 1];
      BestFolds(precedence, xs, front);
      assert (xs + ys)[..|xs + ys| - 1] == xs + front;
    }
  }

  /** Folding in any positive number of copies of one finding is folding it in once. */
  lemma {:induction false} FoldCopies(precedence: seq<nat>, w: Finding, m: Finding, fs: seq<Finding>)
    requires |precedence| == OUTCOME_COUNT && OutcomeKnown(w) && OutcomeKnown(m) && fs != []
    requires forall i :: 0 <= i < |fs| ==> fs[i] == m
    ensures AllKnown(fs) && Fold(precedence, w, fs) == if Rank(precedence, m) > Rank(precedence, w) then m else w
  {
    var front := fs[..|fs| - 1];
    if front != [] { FoldCopies(precedence, w, m, front); }
  }

  const SOME_MISSING := Finding(OUTCOME_ESCALATE, DRIVER_MISSING_REFERENCE, 0, 0, REASON_MISSING, 0, 0)

  lemma {:induction false} ReferencesUnplaced(pack: seq<Evidence>, ids: seq<string>, k: nat)
    requires k <= |ids|
    ensures AllKnown(ReferenceFindings(pack, ids, k))
    ensures forall f :: f in ReferenceFindings(pack, ids, k) ==> Unplaced(f) == SOME_MISSING
  {
    hide Resolve;
    if k > 0 { ReferencesUnplaced(pack, ids, k - 1); }
  }

  lemma {:induction false} SameMissing(pack: seq<Evidence>, pack': seq<Evidence>, xs: seq<string>, ys: seq<string>)
    requires SameLookup(pack, pack') && forall id :: id in xs <==> id in ys
    ensures ReferenceFindings(pack, xs, |xs|) == [] <==> ReferenceFindings(pack', ys, |ys|) == []
  {
    hide Resolve, ReferenceFindings, SameLookup;
    ReferenceFindingsShape(pack, xs, |xs|);
    ReferenceFindingsShape(pack', ys, |ys|);
    forall id: string
      ensures Resolve(pack, id) == 0 <==> Resolve(pack', id) == 0
    {
      LookupZero(pack, pack', id);
    }
    if ReferenceFindings(pack, xs, |xs|) == [] {
      forall j | 0 <= j < |ys|
        ensures Resolve(pack', ys[j]) != 0
      {
        assert ys[j] in xs;
      }
    }
    if ReferenceFindings(pack', ys, |ys|) == [] {
      forall j | 0 <= j < |xs|
        ensures Resolve(pack, xs[j]) != 0
      {
        assert xs[j] in ys;
      }
    }
  }

  lemma {:induction false} LookupZero(pack: seq<Evidence>, pack': seq<Evidence>, id: string)
    requires SameLookup(pack, pack')
    ensures Resolve(pack, id) == 0 <==> Resolve(pack', id) == 0
  {
    hide Resolve;
    assert Lookup(pack, id) == Lookup(pack', id);
  }

  /** Two lists of missing references that are both empty or both not leave the same winner, up to the
      position. */
  lemma {:induction false} WinnerUnplaced(sem: seq<Finding>, xs: seq<Finding>, ys: seq<Finding>, rest: seq<Finding>)
    requires AllKnown(sem) && AllKnown(xs) && AllKnown(ys) && AllKnown(rest) && (xs == [] <==> ys == [])
    requires (forall f :: f in xs ==> Unplaced(f) == SOME_MISSING) && forall f :: f in ys ==> Unplaced(f) == SOME_MISSING
    ensures AllKnown(sem + xs + rest) && AllKnown(sem + ys + rest)
    ensures Unplaced(Best(COMPILED_PRECEDENCE, sem + xs + rest)) == Unplaced(Best(COMPILED_PRECEDENCE, sem + ys + rest))
  {
    hide Best, AllKnown;
    ScanFromPrefix(sem, xs, rest);
    ScanFromPrefix(sem, ys, rest);
    if xs == [] {
      assert sem + xs == sem + ys;
    } else {
      PrefixUnplaced(sem, xs);
      PrefixUnplaced(sem, ys);
    }
  }

  /** The unplaced winner is found by scanning on from the unplaced winner of a prefix. */
  lemma {:induction false} ScanFromPrefix(sem: seq<Finding>, xs: seq<Finding>, rest: seq<Finding>)
    requires AllKnown(sem) && AllKnown(xs) && AllKnown(rest)
    ensures AllKnown(sem + xs) && AllKnown(sem + xs + rest) && AllKnown(UnplacedAll(rest))
    ensures Unplaced(Best(COMPILED_PRECEDENCE, sem + xs + rest))
         == Fold(COMPILED_PRECEDENCE, Unplaced(Best(COMPILED_PRECEDENCE, sem + xs)), UnplacedAll(rest))
  {
    hide Best, Fold;
    var P := COMPILED_PRECEDENCE;
    assert AllKnown(sem + xs) && AllKnown(sem + xs + rest);
    BestUnplaced(P, sem + xs + rest);
    BestUnplaced(P, sem + xs);
    assert UnplacedAll(sem + xs + rest) == UnplacedAll(sem + xs) + UnplacedAll(rest);
    BestFolds(P, UnplacedAll(sem + xs), UnplacedAll(rest));
  }

  lemma {:induction false} PrefixUnplaced(sem: seq<Finding>, xs: seq<Finding>)
    requires AllKnown(sem) && AllKnown(xs) && xs != [] && forall f :: f in xs ==> Unplaced(f) == SOME_MISSING
    ensures AllKnown(sem + xs)
    ensures var w := Unplaced(Best(COMPILED_PRECEDENCE, sem));
      Unplaced(Best(COMPILED_PRECEDENCE, sem + xs))
      == if Rank(COMPILED_PRECEDENCE, SOME_MISSING) > Rank(COMPILED_PRECEDENCE, w) then SOME_MISSING else w
  {
    hide Best, Fold, Rank;
    var P := COMPILED_PRECEDENCE;
    assert AllKnown(sem + xs);
    BestUnplaced(P, sem + xs);
    BestUnplaced(P, sem);
    assert UnplacedAll(sem + xs) == UnplacedAll(sem) + UnplacedAll(xs);
    BestFolds(P, UnplacedAll(sem), UnplacedAll(xs));
    forall i | 0 <= i < |xs|
      ensures UnplacedAll(xs)[i] == SOME_MISSING
    {
      assert xs[i] in xs;
    }
    FoldCopies(P, Best(P, UnplacedAll(sem)), SOME_MISSING, UnplacedAll(xs));
  }

  // ----- provenance as a set of records

  /** The decision lists record e as used. */
  predicate UsesRecord(policy: Policy, request: Request, pack: seq<Evidence>, e: Evidence) {
    exists n :: n in Used(policy, request, pack, |request.evidenceIDs|) && pack[n - 1] == e
  }

  lemma {:induction false} UsedMembers(policy: Policy, request: Request, pack: seq<Evidence>, k: nat, n: nat)
    requires k <= |request.evidenceIDs|
    ensures n in Used(policy, request, pack, k)
       <==> 1 <= n <= |pack| && KindRequired(policy, request, pack, pack[n - 1].kind)
            && exists j :: 0 <= j < k && Resolve(pack, request.evidenceIDs[j]) == n
  {
    hide KindRequired, FindRecord;
    if k > 0 { UsedMembers(policy, request, pack, k - 1, n); }
  }

  /** A record is used exactly when the request names it and some applicable clause asks for its kind. */
  lemma {:induction false} UsedExactly(policy: Policy, request: Request, pack: seq<Evidence>, e: Evidence)
    ensures UsesRecord(policy, request, pack, e)
       <==> KindRequired(policy, request, pack, e.kind) && exists id :: id in request.evidenceIDs && Lookup(pack, id) == [e]
  {
    hide KindRequired, Used, FindRecord;
    var ids := request.evidenceIDs;
    if UsesRecord(policy, request, pack, e) {
      var n :| n in Used(policy, request, pack, |ids|) && pack[n - 1] == e;
      UsedMembers(policy, request, pack, |ids|, n);
      var j :| 0 <= j < |ids| && Resolve(pack, ids[j]) == n;
      assert Lookup(pack, ids[j]) == [e];
    }
    if KindRequired(policy, request, pack, e.kind) && exists id :: id in ids && Lookup(pack, id) == [e] {
      var id :| id in ids && Lookup(pack, id) == [e];
      var j :| 0 <= j < |ids| && ids[j] == id;
      UsedMembers(policy, request, pack, |ids|, Resolve(pack, id));
    }
  }

  lemma {:induction false} SameKindRequired(policy: Policy, request: Request, pack: seq<Evidence>, request': Request,
                                            pack': seq<Evidence>, kind: string)
    requires SameRequest(request, request') && SameLookup(pack, pack')
    ensures KindRequired(policy, request, pack, kind) == KindRequired(policy, request', pack', kind)
  {
    hide EvalExpression, SameRequest, SameLookup, ClauseNames;
    forall i | 0 <= i < |policy.requirements|
      ensures Applies(policy.requirements[i], request, pack) == Applies(policy.requirements[i], request', pack')
    {
      SameVerdict(policy.requirements[i].applicability, request, pack, request', pack');
    }
  }

  /** Reordering or repeating a request's evidence ids, and rearranging the pack, preserve the outcome,
      the driver up to the position of a missing reference, the applied requirements, the remediation
      and the set of evidence used. */
  lemma {:induction false} OrderDoesNotMatter(policy: Policy, request: Request, pack: seq<Evidence>,
                                              request': Request, pack': seq<Evidence>)
    requires PolicyValid(policy) && SameRequest(request, request') && SameLookup(pack, pack')
    ensures var d, d' := Decide(policy, request, pack), Decide(policy, request', pack');
      Unplaced(d.driver) == Unplaced(d'.driver) && d.applied == d'.applied && d.remediation == d'.remediation
    ensures forall e :: UsesRecord(policy, request, pack, e) <==> UsesRecord(policy, request', pack', e)
  {
    hide PolicyValid, SameLookup, RequirementFindings, ReferenceFindings, Applied, Best, Used,
         SemanticFindings, UsesRecord, Clauses, Remediations;
    var rs, ids, ids' := policy.requirements, request.evidenceIDs, request'.evidenceIDs;
    FindingsKnown(policy, request, pack);
    FindingsKnown(policy, request', pack');
    SameRequirementFindings(rs, |rs|, request, pack, request', pack');
    SameSemantics(request, ids');
    var sem := SemanticFindings(request);
    var xs, ys := ReferenceFindings(pack, ids, |ids|), ReferenceFindings(pack', ids', |ids'|);
    var rest := RequirementFindings(rs, |rs|, request, pack)
                + (if Applied(rs, |rs|, request, pack) == [] then [NO_APPLICABLE] else []);
    assert AllFindings(policy, request, pack) == sem + xs + rest;
    assert AllFindings(policy, request', pack') == sem + ys + rest;
    KnownParts(sem, xs, rest);
    KnownParts(sem, ys, rest);
    ReferencesUnplaced(pack, ids, |ids|);
    ReferencesUnplaced(pack', ids', |ids'|);
    SameMissing(pack, pack', ids, ids');
    WinnerUnplaced(sem, xs, ys, rest);
    forall e
      ensures UsesRecord(policy, request, pack, e) <==> UsesRecord(policy, request', pack', e)
    {
      SameRecordsUsed(policy, request, pack, request', pack', e);
    }
  }

  lemma {:induction false} KnownParts(xs: seq<Finding>, ys: seq<Finding>, zs: seq<Finding>)
    requires AllKnown(xs + ys + zs)
    ensures AllKnown(xs) && AllKnown(ys) && AllKnown(zs)
  {
    var all := xs + ys + zs;
    assert forall i :: 0 <= i < |xs| ==> xs[i] == all[i];
    assert forall i :: 0 <= i < |ys| ==> ys[i] == all[|xs| + i];
    assert forall i :: 0 <= i < |zs| ==> zs[i] == all[|xs| + |ys| + i];
  }

  lemma {:induction false} SameIssue(request: Request, ids: seq<string>, f: nat)
    requires f <= FIELD_COUNT
    ensures FirstIssue(request.(evidenceIDs := ids), f) == FirstIssue(request, f)
    decreases FIELD_COUNT - f
  {
    hide ValidFieldValue;
    FieldApart(request, ids, f);
    if f < FIELD_COUNT { SameIssue(request, ids, f + 1); }
  }

  lemma {:induction false} SameSemantics(request: Request, ids: seq<string>)
    ensures SemanticFindings(request.(evidenceIDs := ids)) == SemanticFindings(request)
  {
    hide FirstIssue;
    SameIssue(request, ids, FIELD_REQUESTER);
    FieldApart(request, ids, FirstIssue(request, FIELD_REQUESTER));
  }

  lemma {:induction false} SameRecordsUsed(policy: Policy, request: Request, pack: seq<Evidence>, request': Request,
                                           pack': seq<Evidence>, e: Evidence)
    requires SameRequest(request, request') && SameLookup(pack, pack')
    ensures UsesRecord(policy, request, pack, e) <==> UsesRecord(policy, request', pack', e)
  {
    hide UsesRecord, KindRequired, Lookup;
    UsedExactly(policy, request, pack, e);
    UsedExactly(policy, request', pack', e);
    SameKindRequired(policy, request, pack, request', pack', e.kind);
    assert forall id :: Lookup(pack, id) == Lookup(pack', id);
  }
}
