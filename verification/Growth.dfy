/** What the compiler has already published stays coded while it appends more. */
module Growth {
  import opened Schema
  import opened Ast
  import opened Reference
  import opened Programs
  import opened Lowering
  import opened Coding

  /** Every clause and requirement column of u starts with that of t. */
  predicate TablesGrow(t: Tables, u: Tables) {
    && t.requirementSymbols <= u.requirementSymbols && t.applicabilityRoots <= u.applicabilityRoots
    && t.clauseStarts <= u.clauseStarts && t.clauseCounts <= u.clauseCounts
    && t.clauseSymbols <= u.clauseSymbols && t.assertionRoots <= u.assertionRoots
    && t.outcomeIDs <= u.outcomeIDs && t.explanationIDs <= u.explanationIDs
    && t.remediationStarts <= u.remediationStarts && t.remediationCounts <= u.remediationCounts
    && t.evidenceKindStarts <= u.evidenceKindStarts && t.evidenceKindCounts <= u.evidenceKindCounts
    && t.evidenceKinds <= u.evidenceKinds
  }

  /** Code, explanations and symbols only grow. */
  predicate ContextGrows(c: Code, xs: seq<nat>, syms: seq<string>, d: Code, ys: seq<nat>, more: seq<string>) {
    Grows(c, d) && Aligned(d) && xs <= ys && syms <= more
  }

  lemma {:induction false} TextCodedGrows(syms: seq<string>, xs: seq<nat>, more: seq<string>, ys: seq<nat>, id: nat,
                                          text: string)
    requires TextCoded(syms, xs, id, text) && xs <= ys && syms <= more
    ensures TextCoded(more, ys, id, text)
  {}

  lemma {:induction false} RemediationCodedGrows(c: Code, xs: seq<nat>, syms: seq<string>, d: Code, ys: seq<nat>,
                                                 more: seq<string>,
                              s: RemediationSpec, r: Remediation)
    requires RemediationCoded(c, xs, syms, s, r) && ContextGrows(c, xs, syms, d, ys, more)
    ensures RemediationCoded(d, ys, more, s, r)
  {
    hide LookupField;
    TextCodedGrows(syms, xs, more, ys, s.description, r.description);
  }

  lemma {:induction false} ClauseCodedGrows(c: Code, t: Tables, xs: seq<nat>, syms: seq<string>, d: Code, u: Tables,
                                            ys: seq<nat>,
                         more: seq<string>, k: nat, clause: Clause, before: nat)
    requires ClauseCoded(c, t, xs, syms, k, clause, before)
    requires ContextGrows(c, xs, syms, d, ys, more) && TablesGrow(t, u)
    ensures ClauseCoded(d, u, ys, more, k, clause, before)
  {
    hide Codes, AddKinds, TextCoded, States.At, OutcomeID;
    CodesGrow(c, syms, d, more, t.assertionRoots[k], clause.assertion);
    forall reason | 1 <= reason <= REASON_COUNT
      ensures StateCoded(u, more, ys, k, reason, clause)
    {
      assert StateCoded(t, syms, xs, k, reason, clause);
      TextCodedGrows(syms, xs, more, ys, t.explanationIDs[StateIndex(k, reason)], clause.explanations.At(reason));
    }
    KindsListedGrows(c, t, syms, d, u, more, t.evidenceKindStarts[k], t.evidenceKindCounts[k],
                     AddKinds([], clause.assertion));
  }

  lemma {:induction false} KindsListedGrows(c: Code, t: Tables, syms: seq<string>, d: Code, u: Tables, more: seq<string>,
                         start: nat, count: nat, texts: seq<string>)
    requires KindsListed(c, t, syms, start, count, texts)
    requires c.evidenceKindSymbols <= d.evidenceKindSymbols && t.evidenceKinds <= u.evidenceKinds && syms <= more
    ensures KindsListed(d, u, more, start, count, texts)
  {}

  lemma {:induction false} ClausesCodedGrow(c: Code, t: Tables, xs: seq<nat>, syms: seq<string>, d: Code, u: Tables,
                                            ys: seq<nat>,
                         more: seq<string>, cs: seq<Clause>)
    requires ClausesCoded(c, t, xs, syms, cs)
    requires ContextGrows(c, xs, syms, d, ys, more) && TablesGrow(t, u)
    ensures ClausesCoded(d, u, ys, more, cs)
  {
    hide ClauseCoded, ContextGrows, TablesGrow, Remediations;
    forall k | 0 <= k < |cs|
      ensures ClauseCoded(d, u, ys, more, k, cs[k], |Remediations(cs, k)|)
    {
      ClauseCodedGrows(c, t, xs, syms, d, u, ys, more, k, cs[k], |Remediations(cs, k)|);
    }
  }

  lemma {:induction false} RequirementsCodedGrow(c: Code, t: Tables, syms: seq<string>, d: Code, u: Tables,
                                                 more: seq<string>,
                              rs: seq<Requirement>, n: nat)
    requires n <= |rs| && RequirementsCoded(c, t, syms, rs, n)
    requires Grows(c, d) && Aligned(d) && TablesGrow(t, u) && syms <= more
    ensures RequirementsCoded(d, u, more, rs, n)
  {
    hide Codes, Clauses, Grows;
    forall i | 0 <= i < n
      ensures RequirementCoded(d, u, more, i, rs[i], |Clauses(rs, i)|)
    {
      assert RequirementCoded(c, t, syms, i, rs[i], |Clauses(rs, i)|);
      CodesGrow(c, syms, d, more, t.applicabilityRoots[i], rs[i].applicability);
    }
  }

  lemma {:induction false} RemediationsCodedGrow(c: Code, cat: Catalogues, syms: seq<string>, d: Code,
                                                 dog: Catalogues, more: seq<string>,
                              ms: seq<Remediation>)
    requires RemediationsCoded(c, cat, syms, ms) && dog.remediations == cat.remediations
    requires ContextGrows(c, cat.explanationSymbols, syms, d, dog.explanationSymbols, more)
    ensures RemediationsCoded(d, dog, more, ms)
  {
    hide RemediationCoded, ContextGrows;
    forall x | 0 <= x < |ms|
      ensures RemediationCoded(d, dog.explanationSymbols, more, dog.remediations[x], ms[x])
    {
      RemediationCodedGrows(c, cat.explanationSymbols, syms, d, dog.explanationSymbols, more, cat.remediations[x], ms[x]);
    }
  }

  lemma {:induction false} ContextGrowsTransitive(c: Code, xs: seq<nat>, syms: seq<string>, d: Code, ys: seq<nat>,
                                                  more: seq<string>,
                               e: Code, zs: seq<nat>, most: seq<string>)
    requires ContextGrows(c, xs, syms, d, ys, more) && ContextGrows(d, ys, more, e, zs, most)
    ensures ContextGrows(c, xs, syms, e, zs, most)
  {}

  // ----- adding a clause to the end of the policy

  lemma {:induction false} RemediationsOfPrefix(cs: seq<Clause>, ds: seq<Clause>, k: nat)
    requires cs <= ds && k <= |cs|
    ensures Remediations(cs, k) == Remediations(ds, k)
  {
    if k > 0 { RemediationsOfPrefix(cs, ds, k - 1); }
  }

  lemma {:induction false} RemediationsAppend(cs: seq<Clause>, c: Clause)
    ensures Remediations(cs + [c], |cs| + 1) == Remediations(cs, |cs|) + c.remediations
    ensures forall k :: 0 <= k <= |cs| ==> Remediations(cs + [c], k) == Remediations(cs, k)
  {
    forall k | 0 <= k <= |cs|
      ensures Remediations(cs + [c], k) == Remediations(cs, k)
    {
      RemediationsOfPrefix(cs, cs + [c], k);
    }
  }

  lemma {:induction false} ClausesCodedAppend(c: Code, t: Tables, xs: seq<nat>, syms: seq<string>, cs: seq<Clause>,
                                              clause: Clause)
    requires ClausesCoded(c, t, xs, syms, cs)
    requires ClauseCoded(c, t, xs, syms, |cs|, clause, |Remediations(cs, |cs|)|)
    ensures ClausesCoded(c, t, xs, syms, cs + [clause])
  {
    hide ClauseCoded, Remediations;
    RemediationsAppend(cs, clause);
    var ds := cs + [clause];
    forall k | 0 <= k < |ds|
      ensures ClauseCoded(c, t, xs, syms, k, ds[k], |Remediations(ds, k)|)
    {
      assert |Remediations(ds, k)| == |Remediations(cs, k)|;
      if k < |cs| { assert ds[k] == cs[k]; }
    }
  }

  lemma {:induction false} CountingExtend(base: nat, n: nat, m: nat)
    ensures Counting(base, n) + Counting(base + n, m) == Counting(base, n + m)
  {}
}
