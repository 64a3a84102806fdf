/** The answer to a request is the one report that the policy language allows. */
module Statements {
  import opened Schema
  import opened Ast
  import opened Findings
  import opened Reference
  import opened EvidenceLaws
  import opened Programs
  import opened Coding
  import opened Rendering
  import opened Answers
  import opened Plain
  import opened Meaning
  import opened Decisions

  // ----- what expressions name

  lemma {:induction false} InsideChild(x: Expression, e: Expression, i: nat)
    requires i < |e.children| && Inside(x, e.children[i])
    ensures Inside(x, e)
  {}

  lemma {:induction false} AsksMeans(e: Expression, kind: string)
    ensures Asks(e, kind) <==> NamesKind(e, kind)
    decreases e
  {
    hide Inside;
    forall i | 0 <= i < |e.children|
      ensures Asks(e.children[i], kind) <==> NamesKind(e.children[i], kind)
    {
      AsksMeans(e.children[i], kind);
    }
    forall x
      ensures Inside(x, e) <==> x == e || exists i :: 0 <= i < |e.children| && Inside(x, e.children[i])
    {
      InsideStep(x, e);
    }
    if NamesKind(e, kind) && !(e.op.EvidenceMatches? && e.evidence.kind == kind) {
      var i :| 0 <= i < |e.children| && NamesKind(e.children[i], kind);
      var x :| Inside(x, e.children[i]) && x.op.EvidenceMatches? && x.evidence.kind == kind;
      assert Inside(x, e);
    }
  }

  lemma {:induction false} InsideStep(x: Expression, e: Expression)
    ensures Inside(x, e) <==> x == e || exists i :: 0 <= i < |e.children| && Inside(x, e.children[i])
  {}

  lemma {:induction false} EnvironmentMeans(e: Expression, depth: nat, allowEvidence: bool)
    requires ExpressionValid(e, depth, allowEvidence)
    ensures ReadsEnvironment(e) <==> MentionsField(e, FIELD_ENVIRONMENT)
    decreases e
  {
    hide Inside, LookupField, Trim, ValidFieldValue, SetValid;
    FieldKnown(e.field);
    assert FIELDS[5] == "environment";
    assert LookupField("environment") == 6 by { LookupEnvironment(); }
    forall i | 0 <= i < |e.children|
      ensures ReadsEnvironment(e.children[i]) <==> MentionsField(e.children[i], FIELD_ENVIRONMENT)
    {
      EnvironmentMeans(e.children[i], depth + 1, allowEvidence);
    }
    forall x
      ensures Inside(x, e) <==> x == e || exists i :: 0 <= i < |e.children| && Inside(x, e.children[i])
    {
      InsideStep(x, e);
    }
    if MentionsField(e, FIELD_ENVIRONMENT) && !((e.op.Equal? || e.op.In?) && e.field == "environment") {
      var i :| 0 <= i < |e.children| && MentionsField(e.children[i], FIELD_ENVIRONMENT);
      var x :| Inside(x, e.children[i]) && (x.op.Equal? || x.op.In?) && x.field == "environment";
      assert Inside(x, e);
    }
  }

  lemma {:induction false} LookupEnvironment()
    ensures LookupField("environment") == 6
  {}

  /** Kinds are listed from the first one named. */
  lemma {:induction false} FirstKindMeans(acc: seq<string>, e: Expression)
    ensures var kinds := AddKinds(acc, e);
      && acc <= kinds
      && (acc == [] ==> (kinds == [] <==> FirstKind(e) == []))
      && (acc == [] && kinds != [] ==> [kinds[0]] == FirstKind(e))
    decreases e, |e.children| + 1
  {
    if e.op.All? {
      FirstKindUpTo(acc, e, |e.children|);
      assert e.children[..|e.children|] == e.children;
    }
  }

  lemma {:induction false} FirstKindUpTo(acc: seq<string>, e: Expression, k: nat)
    requires k <= |e.children|
    ensures var kinds, first := AddKindsUpTo(acc, e, k), FirstOf(e.children[..k]);
      && acc <= kinds
      && (acc == [] ==> (kinds == [] <==> first == []))
      && (acc == [] && kinds != [] ==> [kinds[0]] == first)
    decreases e, k
  {
    hide FirstKind, FirstOf, AddKinds;
    if k > 0 {
      FirstKindUpTo(acc, e, k - 1);
      FirstKindMeans(AddKindsUpTo(acc, e, k - 1), e.children[k - 1]);
      assert e.children[..k] == e.children[..k - 1] + [e.children[k - 1]];
      FirstOfAppend(e.children[..k - 1], e.children[k - 1]);
    } else {
      NoFirst();
    }
  }

  lemma {:induction false} NoFirst()
    ensures FirstOf([]) == []
  {}

  lemma {:induction false} FirstOfAppend(es: seq<Expression>, e: Expression)
    ensures FirstOf(es + [e]) == if FirstOf(es) != [] then FirstOf(es) else FirstKind(e)
  {
    hide FirstKind;
    if es != [] {
      assert (es + [e])[1..] == es[1..] + [e];
      FirstOfAppend(es[1..], e);
    } else {
      assert (es + [e])[0] == e && (es + [e])[1..] == [];
    }
  }

  // ----- the kind list of a clause

  /** Every kind that e names, from left to right. */
  function Mentions(e: Expression): seq<string>
    decreases e, 1
  {
    if e.op.EvidenceMatches? then [e.evidence.kind] else if e.op.All? then MentionsOf(e.children) else []
  }

  function MentionsOf(es: seq<Expression>): seq<string>
    decreases es, 0
  {
    if es == [] then [] else Mentions(es[0]) + MentionsOf(es[1..])
  }

  /** kinds holds the members of this list, each once, in the order of their first place there. */
  ghost predicate OnceEach(list: seq<string>, kinds: seq<string>) {
    SameMembers(kinds, list) && CitedInOrder(list, kinds)
  }

  lemma {:induction false} OnceMore(list: seq<string>, kinds: seq<string>, kind: string)
    requires OnceEach(list, kinds)
    ensures OnceEach(list + [kind], if kind in kinds then kinds else kinds + [kind])
  {
    var more, grown := list + [kind], if kind in kinds then kinds else kinds + [kind];
    forall a, b | 0 <= a < b < |grown|
      ensures CitedBefore(more, grown[a], grown[b])
    {
      if b < |kinds| {
        assert CitedBefore(list, kinds[a], kinds[b]);
        var k :| 0 <= k < |list| && list[k] == kinds[a] && forall m :: 0 <= m <= k ==> list[m] != kinds[b];
        assert more[k] == kinds[a] && forall m :: 0 <= m <= k ==> more[m] == list[m];
      } else {
        assert kinds[a] in list;
        var k :| 0 <= k < |list| && list[k] == kinds[a];
        assert more[k] == kinds[a] && forall m :: 0 <= m <= k ==> more[m] == list[m] && list[m] in list;
      }
    }
  }

  lemma {:induction false} MentionsAppend(es: seq<Expression>, e: Expression)
    ensures MentionsOf(es + [e]) == MentionsOf(es) + Mentions(e)
  {
    hide Mentions;
    if es != [] {
      assert (es + [e])[1..] == es[1..] + [e];
      MentionsAppend(es[1..], e);
    } else {
      assert (es + [e])[0] == e && (es + [e])[1..] == [];
    }
  }

  /** The kind list of a clause holds what its assertion names, each kind once, in the order in which
      they are named first. */
  lemma {:induction false} KindListMeans(list: seq<string>, acc: seq<string>, e: Expression)
    requires OnceEach(list, acc)
    ensures OnceEach(list + Mentions(e), AddKinds(acc, e))
    decreases e, |e.children| + 1
  {
    hide OnceEach;
    if e.op.All? {
      KindListUpTo(list, acc, e, |e.children|);
      assert e.children[..|e.children|] == e.children;
    } else if e.op.EvidenceMatches? {
      OnceMore(list, acc, e.evidence.kind);
    } else {
      assert list + [] == list;
    }
  }

  lemma {:induction false} KindListUpTo(list: seq<string>, acc: seq<string>, e: Expression, k: nat)
    requires OnceEach(list, acc) && k <= |e.children|
    ensures OnceEach(list + MentionsOf(e.children[..k]), AddKindsUpTo(acc, e, k))
    decreases e, k
  {
    hide OnceEach, Mentions, MentionsOf, AddKinds;
    if k > 0 {
      KindListUpTo(list, acc, e, k - 1);
      KindListMeans(list + MentionsOf(e.children[..k - 1]), AddKindsUpTo(acc, e, k - 1), e.children[k - 1]);
      assert e.children[..k] == e.children[..k - 1] + [e.children[k - 1]];
      MentionsAppend(e.children[..k - 1], e.children[k - 1]);
      var front, last := MentionsOf(e.children[..k - 1]), Mentions(e.children[k - 1]);
      assert list + front + last == list + (front + last);
    } else {
      NoMentions();
      assert list + [] == list;
    }
  }

  lemma {:induction false} NoMentions()
    ensures MentionsOf([]) == []
  {}

  // ----- the messages

  lemma {:induction false} ClauseSaysMeans(policy: Policy, request: Request, pack: seq<Evidence>, i: nat, j: nat, s: State)
    requires PolicyValid(policy) && i < |policy.requirements| && j < |policy.requirements[i].clauses|
    ensures var c := policy.requirements[i].clauses[j]; var m := ClauseAnswer(c, Number(s));
      ClauseSays(c, s, m.rationale, Entries(m.note, NoNote), Entries(m.doubt, NoDoubt))
  {
    hide Trim, Clauses, PolicyNodes, Distinct, ExpressionValid, ResolutionValid, States.At, For, AddKinds, FirstKind,
         MentionsField, ReadsEnvironment;
    var c := policy.requirements[i].clauses[j];
    assert RequirementValid(policy.requirements[i]) && ClauseValid(c);
    EntryMeans(c.explanations, s);
    FirstKindMeans([], c.assertion);
    EnvironmentMeans(c.assertion, 1, true);
  }

  lemma {:induction false} SaysMeans(policy: Policy, request: Request, pack: seq<Evidence>, o: Outcome, cause: Cause,
                                     w: Finding)
    requires PolicyValid(policy) && Because(policy, request, pack, o, cause) && Numbers(policy, request, o, cause, w)
    ensures var m := DriverAnswer(Clauses(policy.requirements, |policy.requirements|), request, w);
      Says(policy, request, cause, m.rationale, Entries(m.note, NoNote), Entries(m.doubt, NoDoubt))
  {
    hide PolicyValid, WellFormed, SomeGoverns, SomeGives, Settled, GoodField, Exists, ClauseAnswer, ClauseSays,
         Number, InState, Governs, Clauses, Text, Request.Field;
    var rs := policy.requirements;
    match cause
    case ByClause(i, j, s) =>
      GivesState(rs, request, pack, i, j, s, o);
      ClauseNumbers(rs, i, j);
      ClauseSaysMeans(policy, request, pack, i, j, s);
    case BadField(n) =>
      GoodFieldMeans(request, n);
    case _ =>
  }

  lemma {:induction false} OfferMeans(policy: Policy, request: Request, pack: seq<Evidence>, o: Outcome, cause: Cause,
                                      w: Finding)
    requires PolicyValid(policy) && Because(policy, request, pack, o, cause) && Numbers(policy, request, o, cause, w)
    ensures OfferList(policy, o, cause, Offered(Clauses(policy.requirements, |policy.requirements|), w))
  {
    hide PolicyValid, WellFormed, SomeGoverns, SomeGives, Settled, GoodField, Exists, Number, InState, Governs, Clauses,
         Text;
    var rs := policy.requirements;
    if cause.ByClause? {
      GivesState(rs, request, pack, cause.i, cause.j, cause.s, o);
      ClauseNumbers(rs, cause.i, cause.j);
    }
  }

  lemma {:induction false} NameMeans(policy: Policy, request: Request, pack: seq<Evidence>, o: Outcome, cause: Cause,
                                     w: Finding)
    requires Because(policy, request, pack, o, cause) && Numbers(policy, request, o, cause, w)
    ensures OutcomeName(w.outcome) == Name(o)
  {
    hide WellFormed, SomeGoverns, SomeGives, Settled, GoodField, Exists, FirstGives, Number, Clauses, Text;
  }

  // ----- requirements applied

  lemma {:induction false} GoverningAppend(rs: seq<Requirement>, r: Requirement, request: Request, pack: seq<Evidence>)
    ensures Governing(rs + [r], request, pack)
         == Governing(rs, request, pack) + if Governs(r, request, pack) then [r.id] else []
  {
    hide Governs;
    if rs != [] {
      assert (rs + [r])[1..] == rs[1..] + [r];
      GoverningAppend(rs[1..], r, request, pack);
    } else {
      assert (rs + [r])[0] == r && (rs + [r])[1..] == [];
    }
  }

  lemma {:induction false} NamesAppend(rs: seq<Requirement>, ns: seq<nat>, n: nat)
    requires AllValidIDs(ns, |rs|) && 1 <= n <= |rs|
    ensures AllValidIDs(ns + [n], |rs|) && AppliedNames(rs, ns + [n]) == AppliedNames(rs, ns) + [rs[n - 1].id]
  {}

  lemma {:induction false} NothingApplied(rs: seq<Requirement>, request: Request, pack: seq<Evidence>)
    ensures AppliedNames(rs, []) == [] == Governing(rs[..0], request, pack)
  {}

  lemma {:induction false} AppliedMeans(policy: Policy, request: Request, pack: seq<Evidence>, k: nat)
    requires PolicyValid(policy) && k <= |policy.requirements|
    ensures var rs := policy.requirements; var ns := Applied(rs, k, request, pack);
      AllValidIDs(ns, |rs|) && AppliedNames(rs, ns) == Governing(rs[..k], request, pack)
  {
    hide PolicyValid, Applies, Governs, Governing, AppliedNames, AllValidIDs;
    var rs := policy.requirements;
    var ns := Applied(rs, k, request, pack);
    MembersAreIDs(ns, |rs|);
    NothingApplied(rs, request, pack);
    if k > 0 {
      AppliedMeans(policy, request, pack, k - 1);
      GovernsMeans(policy, request, pack, k - 1);
      assert rs[..k] == rs[..k - 1] + [rs[k - 1]];
      GoverningAppend(rs[..k - 1], rs[k - 1], request, pack);
      var front := Applied(rs, k - 1, request, pack);
      if Applies(rs[k - 1], request, pack) { NamesAppend(rs, front, k); } else { assert ns == front; }
    }
  }

  // ----- evidence used

  lemma {:induction false} KindMeans(policy: Policy, request: Request, pack: seq<Evidence>, kind: string)
    requires PolicyValid(policy)
    ensures KindRequired(policy, request, pack, kind)
       <==> exists i: nat, j: nat :: AskedAt(policy, request, pack, kind, i, j)
  {
    hide PolicyValid, Governs, Applies, Asks, NamesKind;
    var rs := policy.requirements;
    forall i: nat, j: nat
      ensures AskedAt(policy, request, pack, kind, i, j)
         <==> i < |rs| && j < |rs[i].clauses| && Applies(rs[i], request, pack)
              && NamesKind(rs[i].clauses[j].assertion, kind)
    {
      if i < |rs| && j < |rs[i].clauses| {
        GovernsMeans(policy, request, pack, i);
        AsksMeans(rs[i].clauses[j].assertion, kind);
      }
    }
    if KindRequired(policy, request, pack, kind) {
      var i :| 0 <= i < |rs| && Applies(rs[i], request, pack) && ClauseNames(rs[i], kind);
      var j :| 0 <= j < |rs[i].clauses| && NamesKind(rs[i].clauses[j].assertion, kind);
      assert AskedAt(policy, request, pack, kind, i, j);
    }
    if i: nat, j: nat :| AskedAt(policy, request, pack, kind, i, j) {
      assert ClauseNames(rs[i], kind);
    }
  }

  ghost predicate AskedAt(policy: Policy, request: Request, pack: seq<Evidence>, kind: string, i: nat, j: nat) {
    var rs := policy.requirements;
    i < |rs| && j < |rs[i].clauses| && Governs(rs[i], request, pack) && Asks(rs[i].clauses[j].assertion, kind)
  }

  /** Reference p is the first to name record n, and comes before every reference to record m. */
  predicate NamedBefore(pack: seq<Evidence>, ids: seq<string>, p: nat, n: nat, m: nat) {
    p < |ids| && Resolve(pack, ids[p]) == n && forall q :: 0 <= q <= p ==> Resolve(pack, ids[q]) != m
  }

  /** Records are used in the order of their first reference. */
  lemma {:induction false} UsedOrder(policy: Policy, request: Request, pack: seq<Evidence>, k: nat, a: nat, b: nat)
    requires k <= |request.evidenceIDs| && a < b < |Used(policy, request, pack, k)|
    ensures var ns := Used(policy, request, pack, k);
      exists p :: 0 <= p < k && NamedBefore(pack, request.evidenceIDs, p, ns[a], ns[b])
  {
    hide KindRequired, Resolve;
    var ids, ns, front := request.evidenceIDs, Used(policy, request, pack, k), Used(policy, request, pack, k - 1);
    if b < |front| {
      UsedOrder(policy, request, pack, k - 1, a, b);
      var p :| 0 <= p < k - 1 && NamedBefore(pack, ids, p, front[a], front[b]);
      assert NamedBefore(pack, ids, p, ns[a], ns[b]);
    } else {
      assert front[a] in front;
      UsedMembers(policy, request, pack, k - 1, front[a]);
      var p :| 0 <= p < k - 1 && Resolve(pack, ids[p]) == front[a];
      UsedMembers(policy, request, pack, k - 1, ns[b]);
      assert NamedBefore(pack, ids, p, ns[a], ns[b]);
    }
  }

  /** A record stands in the list at most once. */
  lemma {:induction false} UsedDistinct(policy: Policy, request: Request, pack: seq<Evidence>)
    ensures Distinct(Decide(policy, request, pack).used)
  {
    hide Used, Best, AllFindings, RemediationNumbers, Applied;
    var ids := request.evidenceIDs;
    var ns := Used(policy, request, pack, |ids|);
    forall a, b | 0 <= a < b < |ns|
      ensures ns[a] != ns[b]
    {
      UsedOrder(policy, request, pack, |ids|, a, b);
      var p :| 0 <= p < |ids| && NamedBefore(pack, ids, p, ns[a], ns[b]);
    }
  }

  /** The used record n is the first of its id, and is needed. */
  lemma {:induction false} UsedNeeded(policy: Policy, request: Request, pack: seq<Evidence>, n: nat)
    requires PolicyValid(policy) && n in Used(policy, request, pack, |request.evidenceIDs|)
    ensures 1 <= n <= |pack| && Needed(policy, request, pack, pack[n - 1].id)
    ensures Resolve(pack, pack[n - 1].id) == n
  {
    hide PolicyValid, KindRequired, FindRecord, Governs, Asks, Found, Used;
    var ids := request.evidenceIDs;
    UsedMembers(policy, request, pack, |ids|, n);
    var q :| 0 <= q < |ids| && Resolve(pack, ids[q]) == n;
    FoundMeans(pack, ids[q]);
    KindMeans(policy, request, pack, pack[n - 1].kind);
    var i: nat, j: nat :| AskedAt(policy, request, pack, pack[n - 1].kind, i, j);
    assert NeededBy(policy, request, pack, ids[q], pack[n - 1], i, j);
  }

  lemma {:induction false} NeededUsed(policy: Policy, request: Request, pack: seq<Evidence>, id: string)
    requires PolicyValid(policy) && Needed(policy, request, pack, id)
    ensures Resolve(pack, id) in Used(policy, request, pack, |request.evidenceIDs|)
  {
    hide PolicyValid, KindRequired, FindRecord, Governs, Asks, Found, Used;
    var ids := request.evidenceIDs;
    var e, i: nat, j: nat :| NeededBy(policy, request, pack, id, e, i, j);
    FoundMeans(pack, id);
    assert AskedAt(policy, request, pack, e.kind, i, j);
    KindMeans(policy, request, pack, e.kind);
    var q :| 0 <= q < |ids| && ids[q] == id;
    UsedMembers(policy, request, pack, |ids|, Resolve(pack, id));
  }

  /** Evidence used is the needed records, each once, in the order in which they are first cited. */
  lemma {:induction false} UsedMeans(policy: Policy, request: Request, pack: seq<Evidence>)
    requires PolicyValid(policy)
    ensures var ns := Used(policy, request, pack, |request.evidenceIDs|);
      AllValidIDs(ns, |pack|) && UsedList(policy, request, pack, RecordNames(pack, ns))
  {
    hide PolicyValid, Used, Needed, Resolve;
    var ids := request.evidenceIDs;
    var ns := Used(policy, request, pack, |ids|);
    MembersAreIDs(ns, |pack|);
    var used := RecordNames(pack, ns);
    forall id
      ensures id in used <==> Needed(policy, request, pack, id)
    {
      if id in used {
        var a :| 0 <= a < |used| && used[a] == id;
        UsedNeeded(policy, request, pack, ns[a]);
      }
      if Needed(policy, request, pack, id) {
        NeededUsed(policy, request, pack, id);
        var a :| 0 <= a < |ns| && ns[a] == Resolve(pack, id);
        assert used[a] == id;
      }
    }
    forall a, b | 0 <= a < b < |used|
      ensures CitedBefore(ids, used[a], used[b])
    {
      UsedOrder(policy, request, pack, |ids|, a, b);
      var p :| 0 <= p < |ids| && NamedBefore(pack, ids, p, ns[a], ns[b]);
      UsedNeeded(policy, request, pack, ns[b]);
      assert ids[p] == used[a];
    }
  }

  // ----- the whole report

  /** Everything that the answer to a request says is what the policy language calls for. */
  lemma {:induction false} AnswerIsMeant(policy: Policy, request: Request, pack: seq<Evidence>)
    requires PolicyValid(policy)
    ensures Meant(policy, request, pack, Answer(policy, request, pack))
  {
    hide PolicyValid, AllFindings, Best, Used, Applied, Because, Numbers, Clauses, DriverAnswer, Offered, OutcomeName, Name,
         Says, OfferList, UsedList, Governing, RemediationNumbers, Entries, AppliedNames, RecordNames;
    var rs := policy.requirements;
    var d := Decide(policy, request, pack);
    var o, cause := DecisionMeans(policy, request, pack);
    SaysMeans(policy, request, pack, o, cause, d.driver);
    OfferMeans(policy, request, pack, o, cause, d.driver);
    NameMeans(policy, request, pack, o, cause, d.driver);
    AppliedMeans(policy, request, pack, |rs|);
    assert rs[..|rs|] == rs;
    UsedMeans(policy, request, pack);
    assert MeantBy(policy, request, pack, Answer(policy, request, pack), o, cause);
  }

  // ----- there is only one

  ghost predicate SameMembers(xs: seq<string>, ys: seq<string>) {
    forall id :: id in xs <==> id in ys
  }

  /** A list with these members in this order is determined. */
  lemma {:induction false} OrderedOnce(ids: seq<string>, xs: seq<string>, ys: seq<string>)
    requires SameMembers(xs, ys) && CitedInOrder(ids, xs) && CitedInOrder(ids, ys)
    ensures xs == ys
  {
    hide CitedInOrder, SameMembers;
    SameEmpty(xs, ys);
    if xs != [] {
      LastOnce(ids, xs, ys);
      WithoutLast(ids, xs, ys);
      var xs', ys' := xs[..|xs| - 1], ys[..|ys| - 1];
      OrderedOnce(ids, xs', ys');
      assert xs == xs' + [xs[|xs| - 1]] && ys == ys' + [ys[|ys| - 1]];
    }
  }

  lemma {:induction false} SameEmpty(xs: seq<string>, ys: seq<string>)
    requires SameMembers(xs, ys)
    ensures xs == [] <==> ys == []
  {
    assert xs != [] ==> xs[0] in xs;
    assert ys != [] ==> ys[0] in ys;
  }

  lemma {:induction false} WithoutLast(ids: seq<string>, xs: seq<string>, ys: seq<string>)
    requires xs != [] && ys != [] && xs[|xs| - 1] == ys[|ys| - 1]
    requires SameMembers(xs, ys) && CitedInOrder(ids, xs) && CitedInOrder(ids, ys)
    ensures var xs', ys' := xs[..|xs| - 1], ys[..|ys| - 1];
      SameMembers(xs', ys') && CitedInOrder(ids, xs') && CitedInOrder(ids, ys')
  {
    hide CitedBefore;
    NotLast(ids, xs);
    NotLast(ids, ys);
    var xs', ys' := xs[..|xs| - 1], ys[..|ys| - 1];
    forall id
      ensures id in xs' <==> id in ys'
    {
      assert id in xs <==> id in ys;
    }
  }

  /** The last is not among the others. */
  lemma {:induction false} NotLast(ids: seq<string>, xs: seq<string>)
    requires xs != [] && CitedInOrder(ids, xs)
    ensures forall id :: id in xs[..|xs| - 1] <==> id in xs && id != xs[|xs| - 1]
  {
    hide CitedBefore;
    forall a | 0 <= a < |xs| - 1
      ensures xs[a] != xs[|xs| - 1]
    {
      BeforeOneWay(ids, xs[a], xs[|xs| - 1]);
    }
    assert xs == xs[..|xs| - 1] + [xs[|xs| - 1]];
  }

  lemma {:induction false} BeforeOneWay(ids: seq<string>, x: string, y: string)
    requires CitedBefore(ids, x, y)
    ensures x != y && !CitedBefore(ids, y, x)
  {}

  lemma {:induction false} LastOnce(ids: seq<string>, xs: seq<string>, ys: seq<string>)
    requires xs != [] && ys != [] && SameMembers(xs, ys) && CitedInOrder(ids, xs) && CitedInOrder(ids, ys)
    ensures xs[|xs| - 1] == ys[|ys| - 1]
  {
    hide CitedBefore;
    var x, y := xs[|xs| - 1], ys[|ys| - 1];
    assert x in ys && y in xs;
    var b :| 0 <= b < |ys| && ys[b] == x;
    var a :| 0 <= a < |xs| && xs[a] == y;
    if x != y { BeforeOneWay(ids, x, y); }
  }

  /** The answer is the only report that the policy language allows. */
  lemma {:induction false} AnswerExactly(policy: Policy, request: Request, pack: seq<Evidence>, report: Report)
    requires PolicyValid(policy)
    ensures report == Answer(policy, request, pack) <==> Meant(policy, request, pack, report)
  {
    hide PolicyValid, Meant, Answer;
    AnswerIsMeant(policy, request, pack);
    if Meant(policy, request, pack, report) { MeantOnce(policy, request, pack, report, Answer(policy, request, pack)); }
  }

  lemma {:induction false} MeantOnce(policy: Policy, request: Request, pack: seq<Evidence>, report: Report, other: Report)
    requires PolicyValid(policy) && Meant(policy, request, pack, report) && Meant(policy, request, pack, other)
    ensures report == other
  {
    hide PolicyValid, Because, Needed, Governing, CitedBefore, Says, OfferList, Name;
    assert SameMembers(report.used, other.used);
    OrderedOnce(request.evidenceIDs, report.used, other.used);
    var o, cause :| MeantBy(policy, request, pack, report, o, cause);
    var u, cause' :| MeantBy(policy, request, pack, other, u, cause');
    BecauseOnce(policy, request, pack, o, cause, u, cause');
    SaysOnce(policy, request, cause, report, other);
    OfferOnce(policy, o, cause, report.remediation, other.remediation);
  }

  lemma {:induction false} SaysOnce(policy: Policy, request: Request, cause: Cause, report: Report, other: Report)
    requires Says(policy, request, cause, report.rationale, report.notes, report.doubts)
    requires Says(policy, request, cause, other.rationale, other.notes, other.doubts)
    ensures report.rationale == other.rationale && report.notes == other.notes && report.doubts == other.doubts
  {
    hide FirstKind, ReadsEnvironment, Text, For, Number;
  }

  lemma {:induction false} OfferOnce(policy: Policy, o: Outcome, cause: Cause, items: seq<Item>, others: seq<Item>)
    requires OfferList(policy, o, cause, items) && OfferList(policy, o, cause, others)
    ensures items == others
  {
    hide Offer;
  }

  /** The decision text, in terms of what the clauses of governing requirements resolve to. */
  lemma {:induction false} DecisionTexts(policy: Policy, request: Request, pack: seq<Evidence>)
    requires PolicyValid(policy)
    ensures var rs, text := policy.requirements, Answer(policy, request, pack).decision;
      && (text == "Reject" <==> SomeGives(rs, request, pack, Reject))
      && (text == "Escalate" <==> !SomeGives(rs, request, pack, Reject)
                                  && (!WellFormed(request, pack) || !SomeGoverns(rs, request, pack)
                                      || SomeGives(rs, request, pack, Escalate)))
      && (text == "Revise" <==> Settled(rs, request, pack) && SomeGives(rs, request, pack, Revise))
      && (text == "Approve" <==> Settled(rs, request, pack) && !SomeGives(rs, request, pack, Revise))
  {
    hide PolicyValid, Because, Answer, WellFormed, SomeGoverns, SomeGives, Settled, Says, OfferList, UsedList, Governing;
    AnswerIsMeant(policy, request, pack);
    var o, cause :| MeantBy(policy, request, pack, Answer(policy, request, pack), o, cause);
    BecauseGiven(policy, request, pack, o, cause);
  }
}
