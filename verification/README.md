# A verified model of the policy compiler and the columnar evaluator

Verifoxx lowers a tree-shaped policy over strings into a postorder program of parallel columns, turns
requests and evidence into field-major columns, 64-row bitplanes and CSR edges, runs every instruction over
whole planes, folds the findings of each row into one winning decision, and decodes that decision into a
report. Each layer is a fast form of something simple. This project models every layer in the form its Go
source has and proves that the whole pipeline refines one simple thing: a reference procedure that walks the
source policy over the raw strings (`Reference.Decide`, and `Answers.Answer` for the report). What that procedure
says is in turn pinned by an independent description of the policy language (`Plain.Meant`).

The project verifies with `dafny verify dfyconfig.toml`. Every lemma carries `{:induction false}`: each induction
is written out.

## Layers

* `Schema`, `Ast`, `PolicyValidator`: the closed vocabulary, source policies, and what makes one publishable.
* `Verdicts`, `Findings`, `Reference`: four-valued verdicts with a reason, the rank fold, the reference
  decision procedure.
* `Interners`, `Compilers`, `Compile` with `Lowering`, `Coding`, `Emission`, `Growth`, `Widths`,
  `Publication`: the compiler as a class that appends to columns, the relations `Codes` and `PolicyCoded`
  between a program and what it stands for, and the proofs that meaning is preserved and that the published
  program is valid.
* `Programs`, `ProgramValidator`, `Resolution`: the program columns, the publication gate as a decision
  procedure, and what it guarantees to the evaluator.
* `Stores`, `Filling`, `Packs`, `Builders`: the batch builder over reused storage and the relation
  `Represents` between a batch and a pack.
* `Bits`, `Planes`, `Contexts`, `Kernels`, `Rows`: words, planes, one kernel for each opcode, and the row-wise
  run that they compute.
* `Results`, `Columns`, `Executor`, `Evaluator`, `Drivers`: row resolution into append-only CSR columns of
  fixed capacity.
* `Rendering`, `Materializer`, `Totality`, `Answers`: decoding a decision, why it cannot fail, and what the
  answer means on the policy.
* `Sessions`, `Engines`: the reusable session and the whole pipeline.
* `Framed`, `Streams`: the length-prefixed stream over readers and writers that fragment, write short and
  fail, and the worker that answers a stream of frames with one session.
* `Independence`, `EvidenceLaws`, `Noninterference`, `Algebra`, `Precedence`, `Invariants`: laws over all
  inputs.
* `Plain` states what an answer has to say in the terms of the policy language alone: field names, raw strings
  and truth states, without ids, ranks or the reference procedure. `Meaning`, `Decisions` and `Statements` prove
  that the reference procedure gives exactly that and that it determines the report. `Publishing` and `Gate` do
  the same for the policy validator, the pack checks and the publication gate.
* `Samples`, `Boundaries`: promises that fail on some input, with a family of programs that pass the
  publication gate as inputs, and the exact condition under which each promise holds.

Growable Go slices are the value `Slices.Slice`: the shown items, and the storage up to the capacity with
whatever an earlier use left there. Every reused column is such a slice in a class field, so "no stale data"
and "never outgrows its storage" are statements about it.

## Premises

* `PolicyFits` (compilation): the lengths of all texts of the policy, each occurrence counted, fit 32 bits; the
  length of each `in` set, the number of remediations and the number of distinct explanation texts fit 16
  bits. Counts of instructions, operands, clauses and evidence predicates need no premise: they follow from
  the cap of 4096 nodes.
* `RequirementIDsFit` (a run of any program that passes the gate): at most 65535 requirements. Above that the
  source reads back ids that are not those of the requirements (`Boundaries.RequirementIDsReadBack`). The
  number of evidence kinds is not bounded.
* `OutputFits` (a run on an accepted pack): its rows times the number of requirements, and times the longest
  remediation list of a clause, fit the 32-bit output offsets. For compiled programs
  `Engines.CompiledOutputFits` states it on the source policy, and `Engines.DefaultLimitsFit` says when it
  holds for every pack under the default limits.
* `LimitsFit`: the three limits are values of their 32-bit type.
* The word count of a batch is `ceil(rows / 64)`, which `BuildInto` establishes.

## Where the code differs from its documentation, or from what one might expect

* `docs/architecture.md` gives the word count as `ceil(N / 64)`. The evaluator computes it in 32 bits, so the
  two agree only up to 2^32 - 64 rows (`Boundaries.WordCountsAgree`); it rejects every batch above
  (`Kernels.EvaluateInstructions`).
* The publication gate does not bound the number of requirements, but a run stores their ids in 16 bits
  (`internal/eval/executor.go:107`) and reads them back (`internal/eval/executor.go:188`,
  `internal/adapters/jsonio/output.go`). With 65536 requirements the last id is zero
  (`Boundaries.TooManyRequirements`); the ids are right exactly up to 65535
  (`Boundaries.RequirementIDsReadBack`). Compiled programs have at most 2048 (`Ast.RequirementCount`).
* The gate does not bound the number of evidence kinds either, and the builder narrows their ids to 16 bits
  (`internal/eval/builder.go:163`): with 65537 kinds one kind passes for another (`Boundaries.TooManyKinds`);
  the ids are right exactly up to 65535 (`Boundaries.KindIDsReadBack`). Compiled programs have at most three.
* The gate does not bound remediation lists, so the output capacity that a session reserves is enough for
  compiled programs but not for every valid one (`Boundaries.RevisingSampleOutgrows`); it is enough for every
  run exactly under the condition of `Boundaries.RemediationBound`.
* A requester with surrounding space is present and unclear, but the answer calls it missing
  (`Boundaries.RequesterMessage`).
* A `set_field` remediation keeps its description in the program but the output drops it
  (`Boundaries.DescriptionShown`, `Boundaries.SetFieldDropsDescription`).

## Model

| member | source | states |
|---|---|---|
| Engines.EvaluatePolicy | internal/engine/engine.go:52-104 | The whole pipeline, in the terms of the policy language: a policy compiles exactly when it is publishable, a pack is accepted exactly when it may be submitted and has no more rows than the word count covers, and every row is then the one report that the policy language allows, which is also the answer that walking the policy over the raw strings gives |
| Statements.AnswerExactly | internal/adapters/jsonio/output.go:128-203 | A report is the answer exactly when it is what the policy language allows: decision text, the sentences of its first cause, governing requirements in order, needed evidence, remediations of the deciding clause |
| Statements.DecisionTexts | internal/adapters/jsonio/output.go:356-369 | Reject exactly when a clause of a governing requirement resolves to Reject; the matching statements for Escalate, Revise and Approve |
| Statements.UsedMeans | internal/eval/executor.go:141-159 | Evidence used is the needed records, each once, in the order in which the request first cites them |
| Statements.UsedDistinct | internal/eval/executor.go:147-156 | No record is listed as used twice |
| Statements.AppliedMeans | internal/eval/executor.go:103-109 | Requirements applied are those that govern, in policy order |
| Statements.FirstKindMeans | internal/compile/compiler.go:138-148 | The kind list of a clause starts with the kind that its assertion names first |
| Statements.KindListMeans | internal/compile/compiler.go:138-148 | The kind list of a clause holds what its assertion names, each kind once, in the order in which they are named first |
| Decisions.DecisionMeans | internal/eval/executor.go:54-139 | Every decision has a cause in the policy language: Reject before Escalate before Revise before Approve, within Escalate bad fields, lost references, clauses and missing rules in this order, and always the first there is; the driver numbers are those of the cause |
| Decisions.BecauseOnce | internal/eval/executor.go:54-139 | Outcome and cause are determined |
| Decisions.ClauseMeans | internal/compile/compiler.go:203-223 | A clause is in exactly one state; its outcome and its explanation are the entries of that state, by field |
| Decisions.FirstGivesMeans | internal/eval/executor.go:110-127 | The winning clause is the first in policy order that resolves to the winning outcome |
| Meaning.VerdictMeans | internal/eval/scalar.go:53-167 | Truth bits and reason of every valid expression are those of the one state that the policy language gives it |
| Meaning.ComparisonTruth | internal/eval/scalar.go:66-110 | A comparison is positive exactly on a listed value, negative exactly on another acceptable one, missing on none, unclear otherwise |
| Meaning.EvidenceMeans | internal/eval/evidence.go:56-109 | An evidence predicate is in conflict, stale, invalid, unclear, true or missing by the qualities of the cited records, in this order of weight |
| Meaning.EvidenceTruth | internal/eval/builder.go:171-185 | On raw strings: no cited record of the wanted kind is conflicting, stale, revoked or expired when the predicate holds, and each such state has its own reason |
| Meaning.SingleRecordTruth | internal/eval/evidence.go:56-147 | The reason that one cited record gives, by its state and then its qualifiers |
| Meaning.ConjMeans | internal/eval/scalar.go:117-166 | A conjunction is true, false or in conflict by its operands, and otherwise stale before invalid before unclear before missing |
| Engines.Serve | internal/engine/engine.go:79-104 | One session over any sequence of calls, accepted or rejected: each response equals the response of a session that never saw another pack |
| Engines.ResponsesAreAnswers | internal/engine/engine.go:79-104 | For a compiled policy the response to a pack is a rejection, a failure, or the reference answers of its requests |
| Streams.RunStream | cmd/verifoxx/stream.go:11-30 | The worker over any reader and any writer: what is sent is a prefix of the replies to the complete frames in order; exit code zero only after a clean end with every reply sent in full, and without reader faults exactly then |
| Streams.Process | cmd/verifoxx/stream.go:45-76 | One frame decoded, evaluated, encoded and written: succeeds exactly when there is a reply and the writer delivers its frame; without a reply nothing is sent |
| Streams.RepliesAt | cmd/verifoxx/stream.go:45-76 | Reply i answers frame i whatever the other frames are, up to the first frame without a reply |
| Streams.AnsweredExactly | cmd/verifoxx/stream.go:45-76 | Malformed and rejected frames are answered too; only too many rows or an answer that is too long goes unanswered |
| Streams.ClientReads | internal/adapters/framed/codec.go:20-59 | Frames that a client writes are the frames the worker reads, and the replies it sends are what the client reads back |
| Sessions.Session.Evaluate | internal/engine/engine.go:79-104 | The reply and the reports are a function of program, limits and pack; a rejected pack changes neither batch nor output; an accepted pack ends in an internal error exactly when its rows exceed the word count or an addressable capacity |
| Answers.CompiledAnswerMeans | internal/adapters/jsonio/output.go:128-203 | Decoding the compiled decision gives the answer stated on the policy: rationale, detail, uncertainty, names, remediations |
| Coding.CompiledDecisionMeans | internal/eval/executor.go:54-179 | Resolving the symbolic view of a request with the compiled program gives outcome, driver, applied requirements, evidence used and remediation of the reference procedure |
| Lowering.CompiledExpressionMeans | internal/compile/compiler.go:78-136 | The verdict at the compiled root after the one pass over all instructions is the four-valued verdict of the source expression on the raw strings |
| Invariants.CompiledRootShows | internal/eval/scalar.go:35-49 | The planes of a compiled root show, for every row of a built batch, the four-valued verdict of the source expression on the raw strings of that row |
| Invariants.CompiledStateShows | internal/eval/scalar.go:35-49 | The planes of a compiled root show the state of its expression in the policy language |
| Invariants.CompiledComparisonShows | internal/eval/scalar.go:53-110 | The plane bits of a compiled comparison on raw strings: positive exactly for a listed value, negative exactly for another acceptable one, Missing and Unclear for the rest |
| Invariants.FlagsShow | internal/eval/builder.go:171-185 | The three flag bits of a stored record, on its raw strings |
| Invariants.ColumnsShow | internal/eval/executor.go:141-178 | The result columns hold the numbers of the one cause of each decision, and list every used record once |
| Coding.AddKindsMembers | internal/compile/compiler.go:138-148 | The kinds listed for a clause are exactly those its assertion names |
| Engines.ReportIsAnswer | internal/engine/engine.go:96-103 | What a session reports for a compiled program is the reference answer |
| PolicyValidator.Validate | internal/ast/validate.go:23-78 | Accepts exactly the policies that the declarative description allows: ids, distinctness, node cap, clauses |
| Publishing.PublishableExactly | internal/ast/validate.go:23-235 | What the validator accepts in plain terms: allowed nodes no deeper than 32, at most 4096 of them, eight known and explained states a clause, remediations exactly with Revise, no id twice |
| PolicyValidator.ValidateClauses | internal/ast/validate.go:57-76 | The clause loop rejects exactly for an invalid clause, a repeated id or too many nodes |
| PolicyValidator.ValidateExpression | internal/ast/validate.go:80-160 | Accepts exactly the expressions of bounded depth and well-formed nodes whose count fits what is left of the budget, and charges exactly their nodes |
| PolicyValidator.ValidateResolution | internal/ast/validate.go:162-200 | Accepts exactly the clauses whose states are known, explained off Approve, and remediated if and only if some state revises |
| PolicyValidator.ValidateRemediation | internal/ast/validate.go:202-235 | Accepts exactly the two payload shapes |
| Compile.Compile | internal/compile/compiler.go:21-76 | Succeeds exactly on valid policies; the result stands for the policy, is accepted by the publication gate, and so never takes the second rejection |
| Compilers.Compiler.CompileExpression | internal/compile/compiler.go:78-136 | Appends a copy of the expression after all existing code, in postorder, charging one instruction a node, and leaves earlier code and symbols as they were |
| Compilers.Compiler.CompileChildren | internal/compile/compiler.go:79-85 | The operand loop: every operand root stands for its child and precedes the parent |
| Compilers.Compiler.EvidenceKind | internal/compile/compiler.go:150-158 | Kind ids are shared by name and stay the inverse of the kind column |
| Compilers.Compiler.ExplanationID | internal/compile/compiler.go:160-171 | Explanation ids are shared by text, zero for the empty text |
| Compilers.Compiler.CompileRemediation | internal/compile/compiler.go:173-186 | The appended payload stands for the source remediation |
| Compilers.Compiler.CompileRequirement | internal/compile/compiler.go:36-70 | One more requirement, its clauses, states, kinds and remediations are coded at the next positions |
| Emission.AppendUnique | internal/compile/compiler.go:138-148 | The kind list of a clause gains a kind once, in order of first mention |
| Emission.KindCount | internal/schema/fields.go:80-87 | A compiled program never has more than three kinds, so its kind ids survive the narrowing |
| Lowering.CodesGrow | internal/compile/compiler.go:125-135 | Code appended later never changes what earlier code stands for |
| Publication.CodedProgramIsValid | internal/compile/compiler.go:71-75 | Whatever is compiled from a valid policy within the width premises passes the publication gate |
| Schema.NarrowingLossless | internal/compile/compiler.go:42-46 | A narrowing conversion loses nothing exactly when the count fits |
| Ast.ClausesBelowNodes | internal/ast/validate.go:84-87 | The node cap bounds the number of clauses and requirements together |
| Interners.Interner.Intern | internal/compile/interner.go:19-30 | The returned id names the text; known texts keep their id; nothing else changes |
| Interners.Interner.Freeze | internal/compile/interner.go:32-47 | The slab spells every interned text at its own range |
| Interners.FrozenTiles | internal/compile/interner.go:36-46 | The symbol ranges are nonempty and tile the slab exactly |
| Lowering.LookupInverse | internal/program/lookup.go:5-30 | Symbol and LookupSymbol are mutual inverses on interned texts, and a text never interned has no symbol |
| Programs.LookupFrom | internal/program/lookup.go:5-17 | The scan returns the first entry spelling the value, or zero when there is none |
| Lowering.SymbolEquality | internal/eval/builder.go:142-146 | Comparing a looked-up symbol with a policy symbol is comparing the strings, also for values that were never interned |
| Lowering.KindEquality | internal/eval/builder.go:160-167 | A record has the kind id of a policy kind exactly when it has its name |
| ProgramValidator.Validate | internal/program/validate.go:10-128 | Accepts exactly the programs that the declarative description allows |
| Gate.AdmittedExactly | internal/program/validate.go:10-297 | What the gate accepts, told by what the columns encode: nonempty texts laid end to end, instructions with their own operands only and in scope, one owner for each clause, eight states a clause, exact payloads, four ranks |
| ProgramValidator.ValidateSymbols | internal/program/validate.go:130-148 | Accepts exactly the slabs tiled end to end by nonempty symbols |
| ProgramValidator.ValidateCode | internal/program/validate.go:35-127 | Accepts exactly the instruction columns whose payloads are in range and whose operands precede their consumer |
| ProgramValidator.ValidateOwnership | internal/program/validate.go:193-214 | Accepts exactly when every clause is listed once in all |
| ProgramValidator.ValidateTables | internal/program/validate.go:150-258 | Accepts exactly the aligned requirement and clause tables with ranges and ids in bounds |
| ProgramValidator.ValidateCatalogues | internal/program/validate.go:260-297 | Accepts exactly well-formed payloads and a precedence that permutes 1 to 4 |
| Resolution.ValidProgramIsExecutable | internal/program/validate.go:38-99 | A program that passes the gate, compiled or not, gives evaluation and resolution only table indexes in bounds and operands that precede their consumer; the 16-bit ids that a run stores and reads back are the rows of Boundaries |
| Builders.Builder.BuildInto | internal/eval/builder.go:40-140 | Accepts exactly the well-formed packs within the limits; otherwise the destination is untouched; on acceptance the batch represents the pack exactly whatever was stored before |
| Publishing.SubmittableExactly | internal/eval/builder.go:40-93 | What the builder accepts in plain terms: within the limits, proper identifiers, no request and no record named twice |
| Builders.Builder.CheckRequests | internal/eval/builder.go:59-82 | Rejects exactly for an ill-formed or repeated id, an ill-formed reference or too many edges |
| Builders.Builder.CheckEvidence | internal/eval/builder.go:84-93 | Rejects exactly for ill-formed or repeated ids, and then finds every record by its id |
| Builders.Builder.SetRequestField | internal/eval/builder.go:142-157 | Writes symbol, present, valid and issue of one cell and changes no other cell of the columns and planes |
| Builders.Builder.SetEvidence | internal/eval/builder.go:159-185 | Writes kind, qualifiers, presence and flags of one record and changes no other record |
| Builders.Builder.SetEvidenceSymbol | internal/eval/builder.go:187-195 | A present qualifier gets its bit and its symbol, an absent one neither |
| Builders.Builder.FillEdges | internal/eval/builder.go:128-138 | Offsets partition the edges in request order; an edge is zero exactly when its id names no record |
| Builders.DimensionsFit | internal/eval/builder.go:97-99 | The addressable-memory test cannot fail for a row count within 32 bits |
| Packs.FilledRepresents | internal/eval/builder.go:117-138 | Filled cells, records and edges make the batch the symbolic view of every request and record |
| Packs.AllRefsSegment | internal/eval/builder.go:130-138 | The edges between two offsets are the resolved references of that request |
| Stores.BatchStore.Resize | internal/eval/builder.go:104-121 | Reused columns show nothing of their earlier contents |
| Stores.BlankBatchReads | internal/eval/builder.go:197-205 | After resizing no symbol, bit, kind or flag shows |
| Filling.WithSymbolReads | internal/eval/batch.go:47-57 | Field-major indexing: writing one value changes that field of that row only |
| Filling.FieldColumn | internal/eval/batch.go:47-57 | The symbols of one field lie together, in row order |
| Filling.WithPresentReads | internal/eval/builder.go:147-151 | Setting one present bit changes that cell only |
| Filling.WithIssueReads | internal/eval/builder.go:152-156 | Setting one issue bit changes that cell only |
| Filling.WithMarkReads | internal/eval/builder.go:187-195 | Writing one qualifier changes that mark of that record only |
| Bits.BitAtOr | internal/eval/scalar.go:122-122 | Bit k of an or is the or of the bits |
| Bits.BitAtAnd | internal/eval/scalar.go:121-121 | Bit k of an and is the and of the bits |
| Bits.SetBitReads | internal/eval/truth.go:5-11 | Setting a bit adds that bit and keeps the others |
| Planes.SetRowEffect | internal/eval/truth.go:5-7 | Setting one row of one plane changes nothing else in the store |
| Planes.WriteWordEffect | internal/eval/scalar.go:124-125 | Writing one word of one plane changes the 64 rows of that word only |
| Planes.TailMaskReads | internal/eval/truth.go:17-22 | The mask keeps a bit of the last word exactly when its row exists |
| Contexts.ReasonPlaneInjective | internal/eval/context.go:39-45 | No two reasons or instructions share a plane, and all planes lie in the store |
| Contexts.Context.Ensure | internal/eval/context.go:18-29 | Sized for the program and rows with all planes clear, whatever was there; the word count is right exactly up to 2^32 - 64 rows |
| Contexts.Context.SetReason | internal/eval/truth.go:13-15 | One reason bit is added and every other bit of all planes is kept |
| Kernels.EvaluateInstructions | internal/eval/scalar.go:10-51 | Rejects exactly a context or batch of the wrong shape or more rows than the 32-bit word count covers, and then changes nothing; otherwise every plane shows the verdict of the row-by-row run |
| Kernels.EvaluateEqual | internal/eval/scalar.go:53-75 | The planes of the instruction show the per-row comparison, all other planes are kept |
| Kernels.EvaluateIn | internal/eval/scalar.go:77-110 | The planes of the instruction show set membership, all other planes are kept |
| Kernels.EvaluateAll | internal/eval/scalar.go:112-167 | Word-parallel conjunction, tail mask and reason priority show the row-by-row conjunction |
| Kernels.EvaluateEvidence | internal/eval/evidence.go:52-110 | The flag reduction over each edge range shows the grade of the best record |
| Kernels.ClassifyQualifiers | internal/eval/evidence.go:120-147 | A wrong qualifier wins over an open one, in any position |
| Kernels.ValidateEvidence | internal/eval/evidence.go:10-50 | Accepts exactly aligned evidence columns and monotone offsets over edges in range |
| Invariants.PlanesAreCoherent | internal/eval/scalar.go:139-166 | Exactly one reason bit a row and instruction, the one its truth bits call for, never Unverifiable, and no bit at or above the row count |
| Rows.RunCoherent | internal/eval/scalar.go:35-49 | Every instruction of a run has a coherent verdict |
| Rows.VerdictAtStep | internal/eval/scalar.go:35-49 | Later instructions never change the verdict of an earlier one |
| Verdicts.ConjOfSameSet | internal/eval/scalar.go:117-166 | A conjunction depends only on which verdicts occur |
| Verdicts.ConjCoherent | internal/eval/scalar.go:139-166 | A conjunction of coherent verdicts is coherent |
| Evaluator.EvaluateInto | internal/eval/executor.go:26-52 | Fails exactly for an overflowing or too small capacity, too many rows or a wrong shape, and then changes nothing; otherwise every row holds its decision, the three CSR columns are well formed, requirement and evidence values stay in their storage, and remediation values outgrow theirs exactly when there are more of them |
| Evaluator.ResolveRow | internal/eval/executor.go:54-179 | Appends one row to all columns and keeps every row before it |
| Executor.ScanSemantics | internal/eval/executor.go:66-83 | The winner after the field scan is the best semantic finding |
| Executor.ScanReferences | internal/eval/executor.go:85-99 | The winner after the edge scan is the best of semantic findings and missing references |
| Executor.ScanRequirements | internal/eval/executor.go:101-129 | Applied requirements are appended in policy order and the winner is the best finding so far |
| Executor.ResolveClause | internal/eval/executor.go:114-127 | The finding of a clause is read at its reason-indexed state |
| Executor.InstructionReason | internal/eval/executor.go:205-212 | The first reason plane that is set is the reason of the verdict |
| Evaluator.CollectEvidence | internal/eval/executor.go:141-159 | Evidence used is the referenced records of asked-for kinds, once each, in reference order |
| Evaluator.EvidenceRequired | internal/eval/executor.go:181-203 | True exactly when some clause of a requirement already written for the row asks for the kind |
| Evaluator.AppendRemediation | internal/eval/executor.go:161-168 | The remediations appended are those of the winning clause, on Revise only |
| Findings.BestIsFirstAtHighestRank | internal/eval/executor.go:66-139 | The scan computes the first finding of the highest rank above Approve, and that property determines it |
| Drivers.DriverIsWellNamed | internal/eval/executor.go:54-179 | Every stored driver names a requirement, clause, reason, field or edge that exists |
| Coding.FindingsAgree | internal/eval/executor.go:66-139 | The findings of the numeric row are the findings of the source policy, in the same order |
| Coding.AskedAgrees | internal/eval/executor.go:181-203 | The numeric kind search asks for exactly the kinds that clauses of applicable requirements name |
| Columns.RowWritten | internal/eval/executor.go:101-178 | Appending a row keeps the columns well formed and makes the row hold its decision |
| Columns.AppendKeepsSegment | internal/eval/executor.go:101-167 | Appending a segment keeps every earlier segment |
| Results.ResultBatch.Ensure | internal/result/batch.go:46-62 | Blank columns of the row count with room for the values, whatever was there |
| Results.ResultBatch.CheckCapacity | internal/result/batch.go:64-91 | True exactly when every column has room |
| Results.ResultBatch.Reset | internal/result/batch.go:93-109 | Blank columns without growing any value column |
| Slices.ResizeClear | internal/result/batch.go:111-129 | Exactly n zero items, reusing the storage when it is large enough |
| Materializer.OutputPack.MaterializeInto | internal/adapters/jsonio/output.go:65-116 | Fails exactly when the program, a shape or a row cannot be decoded, whatever the edge offsets say; each report depends on the arguments alone, not on what the storage showed before |
| Materializer.MaterializeRow | internal/adapters/jsonio/output.go:128-203 | Rewrites one record to the rendering of its decision |
| Materializer.MaterializeDriver | internal/adapters/jsonio/output.go:224-272 | Fails exactly for a driver that names nothing and otherwise gives its message |
| Materializer.ValidateOutputCSR | internal/adapters/jsonio/output.go:372-387 | Accepts exactly monotone offsets that end at the value count |
| Materializer.HoldsAnswer | internal/adapters/jsonio/output.go:239-253 | A stored decision reads back unchanged, edges counted from the first of the row |
| Totality.DecisionsArePrintable | internal/adapters/jsonio/output.go:224-272 | For every program that passes the gate no decoding error branch can be taken |
| Totality.DriverOutranksApprove | internal/adapters/jsonio/output.go:226-230 | A stored driver is never an Approve outcome, and off Approve there is always one |
| Totality.ClauseDriverExplained | internal/adapters/jsonio/output.go:255-266 | A clause driver always has a nonempty explanation |
| Answers.FieldUseAgrees | internal/adapters/jsonio/output.go:328-341 | The search for the environment field over instructions finds exactly what the source expression mentions |
| Answers.ClauseMessageAgrees | internal/adapters/jsonio/output.go:295-326 | Detail and uncertainty of a clause are those of its source, with the first kind it names |
| Answers.OfferedAgrees | internal/adapters/jsonio/output.go:176-201 | The remediations shown are those of the winning clause of the policy |
| Sessions.CheckedProduct | internal/engine/engine.go:106-115 | The product, or a failure exactly when it exceeds the largest int |
| Engines.CompiledRemediationsFit | internal/eval/executor.go:161-168 | In a compiled program no clause lists more remediations than the catalogue holds |
| Engines.CompiledOutputFits | internal/eval/executor.go:101-167 | For a compiled program the premises of a run are exactly two products over the source policy that fit 32 bits |
| Engines.CompiledRows | internal/engine/engine.go:87-96 | For a compiled program the capacities are addressable, so that only the word count limits the rows |
| Engines.DefaultLimitsFit | internal/eval/builder.go:18-20 | Under the default limits the premises of a run hold for every pack exactly when no clause lists 4096 or more remediations |
| Ast.RequirementCount | internal/ast/validate.go:84-87 | The node cap allows at most 2048 requirements, so requirement ids of compiled programs survive the narrowing |
| Independence.EvaluationConcatenates | internal/eval/executor.go:47-50 | Row independence: evaluating two request lists together gives the columns of the parts one after the other, offsets and nonzero edges raised by what precedes, for any split |
| Independence.CSRIsFlat | internal/eval/executor.go:101-167 | The values of an output column are the segments of the rows end to end |
| EvidenceLaws.OrderDoesNotMatter | internal/eval/executor.go:85-159 | Reordering or repeating evidence ids, or rearranging the pack, preserves outcome, driver up to the position of a missing reference, applied requirements, remediation and the set of evidence used |
| EvidenceLaws.ListGradeJoin | internal/eval/evidence.go:56-109 | Reducing a concatenation of edge lists is the join on conflict > stale > revoked > unclear > satisfied > wrong > missing |
| EvidenceLaws.PermutedLookup | internal/eval/builder.go:84-93 | Permuting a pack of distinct ids changes no lookup |
| EvidenceLaws.UsedExactly | internal/eval/executor.go:141-157 | A record is used exactly when the request names it and some applicable clause asks for its kind |
| Noninterference.IrrelevantEvidenceIsIgnored | internal/eval/executor.go:103-203 | Packs with the same ids that agree on every record of a kind some applicable clause names lead to the same whole decision |
| Noninterference.ApplicabilityIgnoresEvidence | internal/ast/validate.go:143-146 | Whether a requirement applies never depends on evidence |
| Algebra.FlattenNested | internal/eval/scalar.go:112-167 | Flattening a nested all preserves truth and reason on every request |
| Algebra.ReorderChildren | internal/eval/scalar.go:117-166 | Permuting or repeating the children of an all changes nothing |
| Algebra.SingleChild | internal/eval/scalar.go:112-167 | An all of one child is that child |
| Algebra.EvalCoherent | internal/eval/scalar.go:53-167 | Every well-formed expression has one reason, the one its truth bits call for, never Unverifiable |
| Algebra.EvidenceFreeIsThreeValued | internal/ast/validate.go:143-146 | Without evidence an expression never conflicts and no evidence changes it |
| Precedence.ApproveExactly | internal/eval/executor.go:66-139 | Approve exactly when every field is valid, every reference resolves, some requirement applies and every applicable clause resolves to Approve |
| Precedence.RejectExactly | internal/eval/executor.go:110-127 | Reject exactly when some applicable clause resolves to Reject |
| Precedence.RemediationExactly | internal/eval/executor.go:161-168 | Remediation is nonempty exactly on Revise |
| Precedence.EscalationFound | internal/eval/executor.go:66-139 | Nothing escalates exactly when the request is well referenced, something applies and no applicable clause escalates |
| Boundaries.WordCountsAgree | internal/eval/scalar.go:14-18 | The 32-bit word count of the evaluator is that of the builder exactly up to 2^32 - 64 rows; above, it is zero, and EvaluateInstructions rejects the batch |
| Boundaries.RequirementIDsReadBack | internal/eval/executor.go:107-108 | In a program that passes the gate every stored requirement id leads back to its requirement exactly when there are at most 65535 requirements |
| Boundaries.ManyRequirements | internal/eval/executor.go:103-109 | For every n there is a program that passes the gate whose n requirements all apply to a plain request; the ids a run lists are all valid exactly when n is at most 65535 |
| Boundaries.TooManyRequirements | internal/eval/executor.go:181-203 | With 65536 requirements a program passes the gate, a run lists id zero, and its decision cannot be decoded |
| Boundaries.KindIDsReadBack | internal/eval/builder.go:159-167 | In a program that passes the gate the kind ids of records are the positions of their kinds exactly when there are at most 65535 kinds |
| Boundaries.TooManyKinds | internal/eval/builder.go:159-167 | With 65537 kinds a program passes the gate and a record of the last kind satisfies a predicate that asks for the first |
| Boundaries.RemediationBound | internal/eval/executor.go:161-168 | Every run, whatever the request and records, offers no more remediations than the catalogue holds exactly when no clause that some run lets win with Revise lists more |
| Boundaries.ReviseListsSuffice | internal/program/validate.go:216-256 | It suffices that no clause with a reachable Revise state lists more than the catalogue holds |
| Boundaries.ColumnWithin | internal/eval/executor.go:47-50 | When every run stays within the catalogue, so does the remediation column of a whole batch |
| Boundaries.RevisingSampleOutgrows | internal/program/validate.go:216-256 | A program that passes the gate and a plain request whose decision offers two remediations from a catalogue of one |
| Boundaries.ApprovingSampleStays | internal/program/validate.go:216-256 | A program that passes the gate, lists more than its catalogue, and never offers any |
| Boundaries.DescriptionShown | internal/adapters/jsonio/output.go:186-199 | The rendered description is that of the source remediation exactly when it asks for evidence or the description is empty |
| Boundaries.SetFieldDropsDescription | internal/adapters/jsonio/output.go:193-196 | A valid set_field remediation with a description that the output drops |
| Boundaries.RequesterMessage | internal/adapters/jsonio/output.go:274-278 | An unacceptable requester is always called missing; that is literally so exactly when it is empty |
| Boundaries.PaddedRequesterIsNotMissing | internal/adapters/jsonio/output.go:274-278 | A blank requester is present and unclear, yet called missing |
| Framed.StreamRoundTrip | internal/adapters/framed/codec.go:20-59 | Written payloads within the limit of the reader are read back exactly, then a clean end |
| Framed.CutStream | internal/adapters/framed/codec.go:20-41 | Cutting a stream inside frame k leaves the k complete frames, then a clean end exactly at a frame boundary |
| Framed.CutAnywhere | internal/adapters/framed/codec.go:20-41 | Every cut of a stream has such a k |
| Framed.PartRead | internal/adapters/framed/codec.go:20-41 | A stream that ends in a part of a frame reads back the frames before it, and that frame only when it is whole |
| Framed.Transmit | internal/adapters/framed/codec.go:20-76 | Written through any writer until a write fails and read back through any reader: what is read is what was sent in order, all of it and a clean end when every write succeeded and the reader has no fault |
| Framed.FrameReader.Read | internal/adapters/framed/codec.go:20-41 | The next frame of the bytes however they are fragmented; anything else is an error, and only when the reader reported a fault |
| Framed.FrameReader.ReadAll | cmd/verifoxx/stream.go:15-29 | All complete frames in order and whether the end was clean; after a fault the frames that came before it |
| Framed.FrameWriter.Write | internal/adapters/framed/codec.go:47-59 | Succeeds exactly when the payload is within the limit and the answers of the writer deliver header and payload; what arrived is the frame up to the first answer that stops it, nothing for an overlong payload |
| Framed.WriteFull | internal/adapters/framed/codec.go:61-76 | Succeeds exactly when the answers of the writer deliver all bytes without an error, and sends exactly the bytes up to the answer that stops it |
| Framed.BigEndianInverse | internal/adapters/framed/codec.go:28-28 | The length prefix decodes to what was encoded |
| Framed.BigEndianOrder | internal/adapters/framed/codec.go:28-51 | The most significant byte of the length prefix comes first |
| Framed.ReadLimit | internal/adapters/framed/codec.go:9-41 | A frame up to 16 MiB is read back; one between that and 64 MiB can be written and not read |
| Framed.DeliversExactly | internal/adapters/framed/codec.go:61-76 | A payload is delivered exactly when good answers come to its size, or last as long as the script of the writer |

## Left out

- Compile.Compile: assumes `PolicyFits`, because the policy validator does not bound text, `in` sets, remediations or explanations; a text that occurs twice is stored once but counted twice.
- Engines.EvaluatePolicy: assumes `PolicyFits`, and for an accepted pack the two products of `PolicyOutputFits`, because beyond them the source narrows counts and offsets without a check.
- Kernels.EvaluateInstructions: assumes that the word count of the batch is that of its rows, because the source never compares the two; the number of instructions is not narrowed to 32 bits.
- Evaluator.EvaluateInto: assumes `OutputFits`, because nothing checks offsets and requirement ids before they are narrowed; products of two lengths are not wrapped at 64 bits.
- Evaluator.ResolveRow: assumes at most 65535 requirements, because above that the source reads back ids that name no requirement or the wrong one.
- Sessions.Session.Evaluate: assumes `RequirementIDsFit`, and `OutputFits` for an accepted pack, for the same reasons.
- Engines.Serve: assumes the premises of `Sessions.Session.Evaluate` for every pack.
- Streams.RunStream: assumes the same for every frame, and takes the JSON codec as two functions whose results depend on nothing but their arguments.
- Framed.FrameReader.Read: a reader that returns its last bytes together with the end of input is one that reports the end in a further call.
- Framed.FrameWriter.Write: the error value is a boolean, and a writer that reports an impossible count has taken no bytes.
- Materializer.MaterializeRow: whether an empty output list is nil or empty is not modelled.
- Capacity growth beyond the reserved storage: `append` grows to exactly fit, where Go may reserve more.
- Aliasing between slices and strings: slices are values, and a substring is a copy.
- Machine words are natural numbers below their width with the operators defined digit by digit; strings are sequences of characters, one byte each, and white space is the six ASCII characters.
- The eight evidence qualifier columns are one family indexed by qualifier, and the eight calls over them are a loop.
- Winner variables of the executor are one record, and a missing reference is kept as a position in its row until it is written.
- English sentences and quoting in the materializer: constructors carry the texts they mention.
- Error messages and paths: a boolean or a tag.
- Nil receivers, nil destinations and nil programs: objects always exist.
- Policy metadata that no code reads back (`NonNegotiable`, `Description` of a policy).
- JSON decoding and encoding, files, command-line flags, containers and scripts.
- Concurrency: an engine is immutable and a session belongs to one worker, so there is nothing shared to interleave.
