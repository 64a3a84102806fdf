/** The sizes that the compiler's 16- and 32-bit counters have to hold. Node counts are capped by the
    policy validator; text, set lengths, remediations and explanations are not, so their bounds are
    premises of compilation. */
module Widths {
  import opened Schema
  import opened Ast
  import opened Interners

  function EvidenceText(e: EvidencePredicate): nat {
    |e.kind| + |e.status| + |e.timing| + |e.reviewer| + |e.timestampState| + |e.subject|
    + |e.attestationState| + |e.scope| + |e.adjustmentType|
  }

  /** An upper bound for the text that compiling e adds to the slab. */
  function ExpressionText(e: Expression): nat
    decreases e, |e.children| + 1
  {
    match e.op
    case All => ChildrenText(e, |e.children|)
    case Equal => |e.value|
    case In => TotalLength(e.values)
    case EvidenceMatches => EvidenceText(e.evidence)
    case UnknownOperator(_) => 0
  }

  function ChildrenText(e: Expression, k: nat): nat
    requires k <= |e.children|
    decreases e, k
  {
    if k == 0 then 0 else ChildrenText(e, k - 1) + ExpressionText(e.children[k - 1])
  }

  function StatesText(s: States<string>, k: nat): nat
    requires k <= REASON_COUNT
  {
    if k == 0 then 0 else StatesText(s, k - 1) + |s.At(k)|
  }

  function RemediationText(r: Remediation): nat {
    |r.description| + |r.evidenceKind| + |r.value|
  }

  function RemediationsText(rs: seq<Remediation>, k: nat): nat
    requires k <= |rs|
  {
    if k == 0 then 0 else RemediationsText(rs, k - 1) + RemediationText(rs[k - 1])
  }

  function ClauseText(c: Clause): nat {
    |c.id| + ExpressionText(c.assertion) + StatesText(c.explanations, REASON_COUNT)
    + RemediationsText(c.remediations, |c.remediations|)
  }

  function ClausesText(cs: seq<Clause>, k: nat): nat
    requires k <= |cs|
  {
    if k == 0 then 0 else ClausesText(cs, k - 1) + ClauseText(cs[k - 1])
  }

  function PolicyText(rs: seq<Requirement>, k: nat): nat
    requires k <= |rs|
  {
    if k == 0 then 0
    else PolicyText(rs, k - 1) + |rs[k - 1].id| + ExpressionText(rs[k - 1].applicability)
         + ClausesText(rs[k - 1].clauses, |rs[k - 1].clauses|)
  }

  /** Every `in` set below e has a 16-bit length. */
  predicate SetsFit(e: Expression)
    decreases e
  {
    |e.values| <= MAX_UINT16 && forall i :: 0 <= i < |e.children| ==> SetsFit(e.children[i])
  }

  /** The explanation and description texts of a clause. */
  function ClauseTexts(c: Clause): set<string> {
    (set r | 1 <= r <= REASON_COUNT :: c.explanations.At(r)) + (set r | r in c.remediations :: r.description)
  }

  function ExplanationTexts(cs: seq<Clause>, k: nat): set<string>
    requires k <= |cs|
  {
    if k == 0 then {} else ExplanationTexts(cs, k - 1) + ClauseTexts(cs[k - 1])
  }

  predicate RequirementFits(r: Requirement) {
    SetsFit(r.applicability) && forall j :: 0 <= j < |r.clauses| ==> SetsFit(r.clauses[j].assertion)
  }

  /** The width premises of compilation. */
  predicate PolicyFits(p: Policy) {
    var rs := p.requirements;
    var cs := Clauses(rs, |rs|);
    && PolicyText(rs, |rs|) <= MAX_UINT32
    && (forall i :: 0 <= i < |rs| ==> RequirementFits(rs[i]))
    && |Remediations(cs, |cs|)| <= MAX_UINT16
    && |ExplanationTexts(cs, |cs|) - {""}| <= MAX_UINT16
  }

  // ----- monotonicity

  lemma {:induction false} ChildrenTextGrow(e: Expression, j: nat, k: nat)
    requires j <= k <= |e.children|
    ensures ChildrenText(e, j) <= ChildrenText(e, k)
  {
    if j < k { ChildrenTextGrow(e, j, k - 1); }
  }

  lemma {:induction false} StatesTextGrow(s: States<string>, j: nat, k: nat)
    requires j <= k <= REASON_COUNT
    ensures StatesText(s, j) <= StatesText(s, k)
  {
    if j < k { StatesTextGrow(s, j, k - 1); }
  }

  lemma {:induction false} RemediationsTextGrow(rs: seq<Remediation>, j: nat, k: nat)
    requires j <= k <= |rs|
    ensures RemediationsText(rs, j) <= RemediationsText(rs, k)
  {
    if j < k { RemediationsTextGrow(rs, j, k - 1); }
  }

  lemma {:induction false} ClausesTextGrow(cs: seq<Clause>, j: nat, k: nat)
    requires j <= k <= |cs|
    ensures ClausesText(cs, j) <= ClausesText(cs, k)
  {
    if j < k { ClausesTextGrow(cs, j, k - 1); }
  }

  lemma {:induction false} PolicyTextGrow(rs: seq<Requirement>, j: nat, k: nat)
    requires j <= k <= |rs|
    ensures PolicyText(rs, j) <= PolicyText(rs, k)
  {
    if j < k { PolicyTextGrow(rs, j, k - 1); }
  }

  lemma {:induction false} ExplanationTextsOf(cs: seq<Clause>, j: nat, k: nat)
    requires j < k <= |cs|
    ensures ClauseTexts(cs[j]) <= ExplanationTexts(cs, k)
  {
    hide ClauseTexts;
    if j < k - 1 { ExplanationTextsOf(cs, j, k - 1); }
  }

  /** A list without repetitions is no longer than the set its items come from. */
  lemma {:induction false} DistinctBound<T>(xs: seq<T>, s: set<T>)
    requires Distinct(xs) && forall x :: x in xs ==> x in s
    ensures |xs| <= |s|
  {
    if xs != [] {
      var last, front := xs[|xs| - 1], xs[..|xs| - 1];
      assert xs == front + [last];
      DistinctAppend(front, last);
      DistinctBound(front, s - {last});
    }
  }
}
