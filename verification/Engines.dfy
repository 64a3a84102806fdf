/** From a source policy to answers: the engine over a compiled program and the loop of a long-lived
    worker (internal/engine/engine.go, cmd/verifoxx). */
module Engines {
  import opened Schema
  import opened Ast
  import opened Reference
  import opened Programs
  import opened Resolution
  import opened Coding
  import opened Planes
  import opened Widths
  import opened Evaluator
  import opened Packs
  import opened Rendering
  import opened Materializer
  import opened Answers
  import opened Sessions
  import opened Plain
  import opened Statements
  import opened Publishing
  import Compile

  const DEFAULT_LIMITS := Limits(0x10_0000, 0x10_0000, 0x40_0000)

  function RemediationCounts(cs: seq<Clause>): (ns: seq<nat>)
    ensures |ns| == |cs| && forall k :: 0 <= k < |cs| ==> ns[k] == |cs[k].remediations|
  {
    seq(|cs|, k requires 0 <= k < |cs| => |cs[k].remediations|)
  }

  /** This many rows times the number of requirements, and times the longest remediation list of a
      clause, fit the 32-bit output offsets. */
  predicate PolicyOutputFits(policy: Policy, rows: nat) {
    var rs := policy.requirements;
    rows * |rs| <= MAX_UINT32 && rows * MostListed(RemediationCounts(Clauses(rs, |rs|))) <= MAX_UINT32
  }

  /** No clause lists more remediations than the compiled catalogue holds. */
  lemma {:induction false} CompiledRemediationsFit(p: Program, syms: seq<string>, policy: Policy)
    requires Linked(p, syms, policy)
    ensures RemediationsFit(p)
  {
    hide HeaderCoded, RequirementsCoded, RemediationsCoded, ClauseCoded, PolicyValid, Executable, Clauses,
         Remediations;
    var rs := policy.requirements;
    var cs := Clauses(rs, |rs|);
    forall k | 0 <= k < |p.tables.remediationCounts|
      ensures FewRemediations(p, k)
    {
      ClauseRemediationCount(p, syms, cs, k);
      RemediationsSplit(cs, k);
    }
  }

  lemma {:induction false} ClauseRemediationCount(p: Program, syms: seq<string>, cs: seq<Clause>, k: nat)
    requires ClausesCoded(p.code, p.tables, p.catalogues.explanationSymbols, syms, cs)
    requires k < |p.tables.remediationCounts| && k < |cs|
    ensures p.tables.remediationCounts[k] == |cs[k].remediations|
  {
    hide Lowering.Codes, StateCoded, KindsListed, Remediations;
    assert ClauseCoded(p.code, p.tables, p.catalogues.explanationSymbols, syms, k, cs[k], |Remediations(cs, k)|);
  }

  /** For a compiled program the premises of a run come down to the two products. */
  lemma {:induction false} CompiledOutputFits(p: Program, syms: seq<string>, policy: Policy, rows: nat)
    requires Linked(p, syms, policy)
    ensures RequirementIDsFit(p)
    ensures OutputFits(p, rows) <==> PolicyOutputFits(policy, rows)
  {
    hide HeaderCoded, RequirementsCoded, RemediationsCoded, ClausesCoded, PolicyValid, Executable, Clauses,
         Remediations, MostListed;
    var rs := policy.requirements;
    var cs := Clauses(rs, |rs|);
    CompiledIDsFit(p, syms, policy);
    NumberingSizes(p, syms, policy);
    forall k | 0 <= k < |cs|
      ensures p.tables.remediationCounts[k] == |cs[k].remediations|
    {
      ClauseRemediationCount(p, syms, cs, k);
    }
    assert p.tables.remediationCounts == RemediationCounts(cs);
  }

  /** A compiled program has too many rows only for the word count. */
  lemma {:induction false} CompiledRows(p: Program, syms: seq<string>, policy: Policy, rows: nat)
    requires Linked(p, syms, policy) && PolicyFits(policy) && rows <= MAX_UINT32
    ensures TooManyRows(p, rows) <==> rows + 63 > MAX_UINT32
  {
    hide HeaderCoded, RequirementsCoded, RemediationsCoded, ClausesCoded, PolicyValid, Executable, Clauses,
         Remediations, PolicyText, RequirementFits, ExplanationTexts;
    MulMono(rows, MAX_UINT32, |p.catalogues.remediations|);
  }

  /** Under the default limits the premises of a run hold for every pack exactly when no clause of the
      policy lists 4096 or more remediations. */
  lemma {:induction false} DefaultLimitsFit(policy: Policy)
    requires PolicyValid(policy)
    ensures var cs := Clauses(policy.requirements, |policy.requirements|);
      (forall rows: nat :: rows <= DEFAULT_LIMITS.maxRows ==> PolicyOutputFits(policy, rows))
      <==> forall k :: 0 <= k < |cs| ==> |cs[k].remediations| <= 4095
  {
    hide PolicyValid, Clauses, MostListed;
    var rs := policy.requirements;
    var cs := Clauses(rs, |rs|);
    var most, top := MostListed(RemediationCounts(cs)), DEFAULT_LIMITS.maxRows;
    RequirementCount(policy);
    MostListedLeast(RemediationCounts(cs), 4095);
    if most <= 4095 {
      forall rows: nat | rows <= top
        ensures PolicyOutputFits(policy, rows)
      {
        MulMono(rows, top, |rs|);
        MulMono(rows, top, most);
      }
    } else {
      assert !PolicyOutputFits(policy, top);
    }
  }

  // ----- the whole pipeline

  predicate AnswerAt(o: OutputPack, policy: Policy, requests: seq<Request>, pack: seq<Evidence>, r: nat)
    requires r < |requests|
    reads o
  {
    r < o.results.Len() && o.results.items[r].Shown() == Answer(policy, requests[r], pack)
  }

  /** The output is the reference answer to every request, in order. */
  predicate AnswersPolicy(o: OutputPack, policy: Policy, requests: seq<Request>, pack: seq<Evidence>)
    reads o
  {
    && o.policyName == policy.name && o.policyVersion == policy.version && o.results.Len() == |requests|
    && forall r :: 0 <= r < |requests| ==> AnswerAt(o, policy, requests, pack, r)
  }

  lemma {:induction false} ReportIsAnswer(p: Program, syms: seq<string>, policy: Policy, requests: seq<Request>,
                                          pack: seq<Evidence>, r: nat)
    requires Linked(p, syms, policy) && ProgramValid(p) && r < |requests|
    ensures RequirementIDsFit(p)
    ensures ReportOf(p, requests, pack, r) == Answer(policy, requests[r], pack)
  {
    hide PolicyCoded, PolicyValid, ProgramValid, Executable, ViewRow, ViewRecords, AllFindings, RowDecision,
         Printable, Render, Answer;
    CompiledIDsFit(p, syms, policy);
    CompiledAnswerMeans(p, syms, policy, requests[r], pack);
    ViewReferences(p, requests[r], pack);
  }

  /** Every row is the report that the policy language calls for. */
  ghost predicate AllMeant(o: OutputPack, policy: Policy, requests: seq<Request>, pack: seq<Evidence>)
    reads o
  {
    && o.policyName == policy.name && o.policyVersion == policy.version && o.results.Len() == |requests|
    && forall r :: 0 <= r < |requests| ==> Meant(policy, requests[r], pack, o.results.items[r].Shown())
  }

  lemma {:induction false} AnswersAreMeant(o: OutputPack, policy: Policy, requests: seq<Request>, pack: seq<Evidence>)
    requires PolicyValid(policy) && AnswersPolicy(o, policy, requests, pack)
    ensures AllMeant(o, policy, requests, pack)
  {
    hide PolicyValid, Meant, Answer;
    forall r | 0 <= r < |requests|
      ensures Meant(policy, requests[r], pack, o.results.items[r].Shown())
    {
      assert AnswerAt(o, policy, requests, pack, r);
      AnswerIsMeant(policy, requests[r], pack);
    }
  }

  /** Compile a policy and evaluate one pack with a new session: the policy is accepted exactly when it
      is publishable, the pack is answered exactly when it may be submitted and has no more rows than
      the word count covers, and then every request gets the one report that the policy language calls
      for, which is the answer that walking the source policy over its raw strings gives. */
  method EvaluatePolicy(policy: Policy, limits: Limits, requests: seq<Request>, pack: seq<Evidence>)
    returns (compiled: bool, accepted: bool, output: OutputPack)
    requires PolicyValid(policy) ==> PolicyFits(policy)
    requires PolicyValid(policy) && PackAccepted(limits, requests, pack) ==> PolicyOutputFits(policy, |requests|)
    requires LimitsFit(limits)
    ensures compiled <==> Publishable(policy)
    ensures accepted <==> compiled && Submittable(limits, requests, pack) && |requests| + 63 <= MAX_UINT32
    ensures accepted ==> AllMeant(output, policy, requests, pack) && AnswersPolicy(output, policy, requests, pack)
  {
    hide PolicyValid, PolicyFits, PolicyOutputFits, OutputFits, RequirementIDsFit, TooManyRows, RequestGood,
         EvidenceGood, ProgramValid, PolicyCoded, Executable, Answer, ReportOf, AllFindings, Publishable, EdgeTotal,
         Submittable, AllMeant;
    PublishableExactly(policy);
    SubmittableExactly(limits, requests, pack);
    var p;
    ghost var syms;
    compiled, p, syms := Compile.Compile(policy);
    accepted := false;
    if !compiled {
      output := new OutputPack();
      return;
    }
    CompiledOutputFits(p, syms, policy, |requests|);
    if |requests| <= MAX_UINT32 { CompiledRows(p, syms, policy, |requests|); }
    CompiledNames(p, syms, policy);
    var session := new Session(p, limits);
    var reply := session.Evaluate(requests, pack);
    output := session.output;
    if reply == Answered {
      accepted := true;
      forall r | 0 <= r < |requests|
        ensures AnswerAt(output, policy, requests, pack, r)
      {
        assert ReportAt(output, p, requests, pack, r);
        ReportIsAnswer(p, syms, policy, requests, pack, r);
      }
      AnswersAreMeant(output, policy, requests, pack);
    }
  }

  lemma {:induction false} CompiledNames(p: Program, syms: seq<string>, policy: Policy)
    requires Linked(p, syms, policy)
    ensures p.name == policy.name && p.version == policy.version
  {}

  // ----- a worker that serves many packs

  datatype Response = Rejected | Failed | Reported(reports: seq<Report>)

  datatype Pack = Pack(requests: seq<Request>, evidence: seq<Evidence>)

  /** The premise of a run, for a pack that gets as far as running. */
  predicate PackFits(p: Program, l: Limits, pack: Pack) {
    PackAccepted(l, pack.requests, pack.evidence) ==> OutputFits(p, |pack.requests|)
  }

  /** The response to one pack, with no session in sight. */
  function ResponseTo(p: Program, l: Limits, pack: Pack): Response
    requires ProgramValid(p) && RequirementIDsFit(p)
  {
    if !PackAccepted(l, pack.requests, pack.evidence) then Rejected
    else if TooManyRows(p, |pack.requests|) then Failed
    else Reported(seq(|pack.requests|, r requires 0 <= r < |pack.requests| => ReportOf(p, pack.requests, pack.evidence, r)))
  }

  /** Over a compiled policy the reported rows are the reference answers. */
  lemma {:induction false} ResponsesAreAnswers(p: Program, syms: seq<string>, policy: Policy, l: Limits, pack: Pack)
    requires Linked(p, syms, policy) && ProgramValid(p)
    ensures RequirementIDsFit(p)
    ensures ResponseTo(p, l, pack)
      == if !PackAccepted(l, pack.requests, pack.evidence) then Rejected
         else if TooManyRows(p, |pack.requests|) then Failed
         else Reported(seq(|pack.requests|, r requires 0 <= r < |pack.requests| =>
                             Answer(policy, pack.requests[r], pack.evidence)))
  {
    hide Linked, ProgramValid, PackAccepted, TooManyRows, ReportOf, Answer, RequirementIDsFit;
    CompiledIDsFit(p, syms, policy);
    forall r | 0 <= r < |pack.requests|
      ensures ReportOf(p, pack.requests, pack.evidence, r) == Answer(policy, pack.requests[r], pack.evidence)
    {
      ReportIsAnswer(p, syms, policy, pack.requests, pack.evidence, r);
    }
  }

  method ReadReports(o: OutputPack, ghost p: Program, ghost pack: Pack) returns (reports: seq<Report>)
    requires ProgramValid(p) && RequirementIDsFit(p) && Reports(o, p, pack.requests, pack.evidence)
    ensures |reports| == |pack.requests|
    ensures forall r :: 0 <= r < |reports| ==> reports[r] == ReportOf(p, pack.requests, pack.evidence, r)
  {
    hide ProgramValid, ReportOf;
    reports := seq(o.results.Len(), r requires 0 <= r < o.results.Len() reads o => o.results.items[r].Shown());
    forall r | 0 <= r < |reports|
      ensures reports[r] == ReportOf(p, pack.requests, pack.evidence, r)
    {
      assert ReportAt(o, p, pack.requests, pack.evidence, r);
    }
  }

  /** The response to one pack: the response of a session that never saw another. */
  method Respond(session: Session, pack: Pack) returns (response: Response)
    requires ProgramValid(session.compiled) && RequirementIDsFit(session.compiled)
    requires LimitsFit(session.limits) && session.Linked()
    requires PackFits(session.compiled, session.limits, pack)
    modifies session.builder, session.batch, session.context, session.numeric, session.output
    ensures session.Linked()
    ensures response == ResponseTo(session.compiled, session.limits, pack)
  {
    hide ProgramValid, RequirementIDsFit, OutputFits, TooManyRows, ReportOf, PackAccepted, Reports;
    var reply := session.Evaluate(pack.requests, pack.evidence);
    response := if reply == InputError then Rejected else Failed;
    if reply == Answered {
      var reports := ReadReports(session.output, session.compiled, pack);
      response := Reported(reports);
    }
  }

  /** One session serves any sequence of packs, growing, shrinking or malformed. */
  method Serve(session: Session, packs: seq<Pack>) returns (responses: seq<Response>)
    requires ProgramValid(session.compiled) && RequirementIDsFit(session.compiled)
    requires LimitsFit(session.limits) && session.Linked()
    requires forall i :: 0 <= i < |packs| ==> PackFits(session.compiled, session.limits, packs[i])
    modifies session.builder, session.batch, session.context, session.numeric, session.output
    ensures |responses| == |packs|
    ensures forall i :: 0 <= i < |packs| ==> responses[i] == ResponseTo(session.compiled, session.limits, packs[i])
  {
    hide ProgramValid, RequirementIDsFit, ResponseTo, PackFits;
    responses := [];
    for i := 0 to |packs|
      invariant session.Linked() && |responses| == i
      invariant forall j :: 0 <= j < i ==> responses[j] == ResponseTo(session.compiled, session.limits, packs[j])
    {
      assert PackFits(session.compiled, session.limits, packs[i]);
      var response := Respond(session, packs[i]);
      responses := responses + [response];
    }
  }
}
