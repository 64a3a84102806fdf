/** Appending one instruction to the columns, and what stays true of the earlier ones. */
module Emission {
  import opened Schema
  import opened Ast
  import opened Programs
  import opened Lowering
  import opened Coding
  import opened Widths

  /** The appends at the end of compileExpression. */
  function Emit(c: Code, op: nat, field: nat, value: nat, operands: seq<nat>, setStart: nat, setCount: nat,
                spec: nat): Code {
    c.(operands := c.operands + operands,
       opcodes := c.opcodes + [op], fields := c.fields + [field], values := c.values + [value],
       operandStarts := c.operandStarts + [U32(|c.operands|)],
       operandCounts := c.operandCounts + [U16(|operands|)],
       setStarts := c.setStarts + [setStart], setCounts := c.setCounts + [setCount],
       evidenceSpecIndexes := c.evidenceSpecIndexes + [spec])
  }

  /** Every instruction and every evidence predicate is well formed over n symbols. */
  predicate CodeSound(c: Code, n: nat) {
    && Aligned(c)
    && (forall i :: 0 <= i < |c.opcodes| ==> InstructionValid(c, n, i))
    && (forall i :: 0 <= i < |c.evidenceSpecs| ==> SpecValid(c.evidenceSpecs[i], |c.evidenceKindSymbols|, n))
    && |c.operands| <= |c.opcodes| && |c.evidenceSpecs| <= |c.opcodes|
  }

  lemma {:induction false} InstructionGrows(c: Code, n: nat, d: Code, m: nat, i: nat)
    requires Aligned(c) && Aligned(d) && Grows(c, d) && n <= m && i < |c.opcodes| && InstructionValid(c, n, i)
    ensures InstructionValid(d, m, i)
  {
    if c.opcodes[i] == OP_ALL {
      forall j | 0 <= j < d.operandCounts[i]
        ensures OperandValid(d, i, j)
      {
        assert OperandValid(c, i, j);
      }
    } else if c.opcodes[i] == OP_IN {
      forall j | 0 <= j < d.setCounts[i]
        ensures SetValueValid(d, m, i, j)
      {
        assert SetValueValid(c, n, i, j);
      }
    }
  }

  /** More code, kinds and symbols, with at most one unfinished instruction, keep earlier code sound. */
  lemma {:induction false} SoundGrows(c: Code, n: nat, d: Code, m: nat)
    requires CodeSound(c, n) && Grows(c, d) && n <= m && Aligned(d)
    requires d.opcodes == c.opcodes && d.operands == c.operands && d.evidenceSpecs == c.evidenceSpecs
    ensures CodeSound(d, m)
  {
    hide InstructionValid;
    forall i | 0 <= i < |d.opcodes|
      ensures InstructionValid(d, m, i)
    {
      InstructionGrows(c, n, d, m, i);
    }
    forall i | 0 <= i < |d.evidenceSpecs|
      ensures SpecValid(d.evidenceSpecs[i], |d.evidenceKindSymbols|, m)
    {
      assert SpecValid(c.evidenceSpecs[i], |c.evidenceKindSymbols|, n);
    }
  }

  /** Emitting a well-formed last instruction over at most one new operand edge per instruction. */
  lemma {:induction false} EmitSound(c: Code, n: nat, d: Code)
    requires Aligned(c) && Grows(c, d) && Aligned(d) && |d.opcodes| == |c.opcodes| + 1
    requires forall i :: 0 <= i < |c.opcodes| ==> InstructionValid(c, n, i)
    requires forall i :: 0 <= i < |d.evidenceSpecs| ==> SpecValid(d.evidenceSpecs[i], |d.evidenceKindSymbols|, n)
    requires InstructionValid(d, n, |c.opcodes|)
    requires |d.operands| <= |d.opcodes| && |d.evidenceSpecs| <= |d.opcodes|
    ensures CodeSound(d, n)
  {
    hide InstructionValid;
    forall i | 0 <= i < |d.opcodes|
      ensures InstructionValid(d, n, i)
    {
      if i < |c.opcodes| { InstructionGrows(c, n, d, n, i); }
    }
  }

  lemma {:induction false} GrowsTransitive(c: Code, d: Code, e: Code)
    requires Grows(c, d) && Grows(d, e)
    ensures Grows(c, e)
  {}

  // ----- evidence kinds

  /** The kind map is the inverse of the kind symbol column, over known kinds only. */
  predicate KindsTracked(kinds: map<string, nat>, c: Code, syms: seq<string>) {
    && KindsCoded(c, syms)
    && (forall name :: name in kinds ==> ValidEvidenceKind(name) && KindNames(c, syms, kinds[name], name))
    && (forall i :: 0 <= i < |c.evidenceKindSymbols| ==> KindTracked(kinds, c, syms, i))
  }

  predicate KindTracked(kinds: map<string, nat>, c: Code, syms: seq<string>, i: nat)
    requires i < |c.evidenceKindSymbols|
  {
    ValidID(c.evidenceKindSymbols[i], |syms|) && syms[c.evidenceKindSymbols[i] - 1] in kinds
  }

  /** The closed vocabulary has three kinds, so kind ids stay small. */
  lemma {:induction false} KindCount(kinds: map<string, nat>, c: Code, syms: seq<string>)
    requires KindsTracked(kinds, c, syms) && Interned(syms)
    ensures |c.evidenceKindSymbols| <= 3
  {
    hide ValidEvidenceKind;
    var names := seq(|c.evidenceKindSymbols|, i requires 0 <= i < |c.evidenceKindSymbols| =>
      assert KindTracked(kinds, c, syms, i); syms[c.evidenceKindSymbols[i] - 1]);
    var known := {"approval_record", "execution_environment_attestation", "usage_limit_adjustment"};
    forall i | 0 <= i < |names|
      ensures names[i] in known
    {
      assert KindTracked(kinds, c, syms, i);
      KnownKind(names[i]);
    }
    assert Distinct(names) by {
      forall i, j | 0 <= i < j < |names|
        ensures names[i] != names[j]
      {
        assert KindTracked(kinds, c, syms, i) && KindTracked(kinds, c, syms, j);
      }
    }
    DistinctBound(names, known);
  }

  lemma {:induction false} KnownKind(name: string)
    requires ValidEvidenceKind(name)
    ensures name in {"approval_record", "execution_environment_attestation", "usage_limit_adjustment"}
    ensures name != ""
  {}

  lemma {:induction false} KindsTrackedGrow(kinds: map<string, nat>, c: Code, syms: seq<string>, more: seq<string>)
    requires KindsTracked(kinds, c, syms) && syms <= more
    ensures KindsTracked(kinds, c, more)
  {
    forall i | 0 <= i < |c.evidenceKindSymbols|
      ensures KindTracked(kinds, c, more, i)
    {
      assert KindTracked(kinds, c, syms, i);
    }
  }

  /** Tracking reads the kind column only. */
  lemma {:induction false} KindsTrackedSame(kinds: map<string, nat>, c: Code, d: Code, syms: seq<string>)
    requires KindsTracked(kinds, c, syms) && c.evidenceKindSymbols == d.evidenceKindSymbols
    ensures KindsTracked(kinds, d, syms)
  {
    forall i | 0 <= i < |d.evidenceKindSymbols|
      ensures KindTracked(kinds, d, syms, i)
    {
      assert KindTracked(kinds, c, syms, i);
    }
  }

  /** A new kind gets the next id. */
  lemma {:induction false} KindsTrackedAdd(kinds: map<string, nat>, c: Code, syms: seq<string>, name: string, symbol: nat)
    requires KindsTracked(kinds, c, syms) && Interned(syms)
    requires ValidEvidenceKind(name) && name !in kinds && Names(syms, symbol, name)
    ensures var d := c.(evidenceKindSymbols := c.evidenceKindSymbols + [symbol]);
      KindsTracked(kinds[name := |c.evidenceKindSymbols| + 1], d, syms)
  {
    hide ValidEvidenceKind;
    KnownKind(name);
    KindCount(kinds, c, syms);
    var d := c.(evidenceKindSymbols := c.evidenceKindSymbols + [symbol]);
    var more := kinds[name := |c.evidenceKindSymbols| + 1];
    forall i | 0 <= i < |c.evidenceKindSymbols|
      ensures c.evidenceKindSymbols[i] != symbol
    {
      assert KindTracked(kinds, c, syms, i);
    }
    DistinctAppend(c.evidenceKindSymbols, symbol);
    forall i | 0 <= i < |d.evidenceKindSymbols|
      ensures KindTracked(more, d, syms, i)
    {
      if i < |c.evidenceKindSymbols| { assert KindTracked(kinds, c, syms, i); }
    }
  }

  /** Two ids of one kind text are the same id. */
  lemma {:induction false} KindInjective(c: Code, syms: seq<string>, k: nat, a: string, l: nat, b: string)
    requires KindsCoded(c, syms) && Interned(syms) && KindNames(c, syms, k, a) && KindNames(c, syms, l, b)
    ensures k == l <==> a == b
  {}

  // ----- explanations

  /** The explanation map is the inverse of the explanation symbol column, over allowed texts only. */
  predicate ExplanationsTracked(ids: map<string, nat>, xs: seq<nat>, syms: seq<string>, allowed: set<string>) {
    && AllValidIDs(xs, |syms|) && Distinct(xs)
    && (forall text :: text in ids ==> text in allowed && text != "" && TextCoded(syms, xs, ids[text], text))
    && (forall i :: 0 <= i < |xs| ==> ExplanationTracked(ids, xs, syms, i))
  }

  predicate ExplanationTracked(ids: map<string, nat>, xs: seq<nat>, syms: seq<string>, i: nat)
    requires i < |xs|
  {
    ValidID(xs[i], |syms|) && syms[xs[i] - 1] in ids
  }

  lemma {:induction false} ExplanationCount(ids: map<string, nat>, xs: seq<nat>, syms: seq<string>, allowed: set<string>)
    requires ExplanationsTracked(ids, xs, syms, allowed) && Interned(syms)
    ensures |xs| <= |allowed|
    ensures forall text :: text in allowed && text !in ids ==> |xs| < |allowed|
  {
    var texts := seq(|xs|, i requires 0 <= i < |xs| => assert ExplanationTracked(ids, xs, syms, i); syms[xs[i] - 1]);
    forall i | 0 <= i < |xs|
      ensures texts[i] in ids
    {
      assert ExplanationTracked(ids, xs, syms, i);
    }
    assert Distinct(texts) by {
      forall i, j | 0 <= i < j < |texts|
        ensures texts[i] != texts[j]
      {
        assert ExplanationTracked(ids, xs, syms, i) && ExplanationTracked(ids, xs, syms, j);
      }
    }
    DistinctBound(texts, allowed);
    forall text | text in allowed && text !in ids
      ensures |xs| < |allowed|
    {
      DistinctBound(texts, allowed - {text});
    }
  }

  lemma {:induction false} ExplanationsTrackedGrow(ids: map<string, nat>, xs: seq<nat>, syms: seq<string>,
                                                   allowed: set<string>, more: seq<string>)
    requires ExplanationsTracked(ids, xs, syms, allowed) && syms <= more
    ensures ExplanationsTracked(ids, xs, more, allowed)
  {
    forall i | 0 <= i < |xs|
      ensures ExplanationTracked(ids, xs, more, i)
    {
      assert ExplanationTracked(ids, xs, syms, i);
    }
    forall text | text in ids
      ensures TextCoded(more, xs, ids[text], text)
    {
      assert TextCoded(syms, xs, ids[text], text);
    }
  }

  lemma {:induction false} ExplanationsTrackedAdd(ids: map<string, nat>, xs: seq<nat>, syms: seq<string>,
                                                  allowed: set<string>, text: string, symbol: nat)
    requires ExplanationsTracked(ids, xs, syms, allowed) && Interned(syms)
    requires text in allowed && text != "" && text !in ids && Names(syms, symbol, text)
    ensures ExplanationsTracked(ids[text := |xs| + 1], xs + [symbol], syms, allowed)
  {
    var ys, more := xs + [symbol], ids[text := |xs| + 1];
    forall i | 0 <= i < |xs|
      ensures xs[i] != symbol
    {
      assert ExplanationTracked(ids, xs, syms, i);
    }
    DistinctAppend(xs, symbol);
    forall i | 0 <= i < |ys|
      ensures ExplanationTracked(more, ys, syms, i)
    {
      if i < |xs| { assert ExplanationTracked(ids, xs, syms, i); }
    }
    forall t | t in more
      ensures TextCoded(syms, ys, more[t], t)
    {
      if t != text { assert TextCoded(syms, xs, ids[t], t); }
    }
  }

  // ----- the list of kinds that a clause's assertion names

  datatype KindList = NoList | List(ids: seq<nat>)

  /** The list holds the ids of exactly these kinds, in this order. */
  predicate Lists(c: Code, syms: seq<string>, list: KindList, texts: seq<string>) {
    list.List? ==> |list.ids| == |texts| && forall j :: 0 <= j < |texts| ==> KindNames(c, syms, list.ids[j], texts[j])
  }

  lemma {:induction false} ListsGrow(c: Code, syms: seq<string>, d: Code, more: seq<string>, list: KindList,
                                     texts: seq<string>)
    requires Lists(c, syms, list, texts) && syms <= more && c.evidenceKindSymbols <= d.evidenceKindSymbols
    ensures Lists(d, more, list, texts)
  {}

  /** appendUniqueEvidenceKind. */
  method AppendUnique(list: KindList, kind: nat, ghost c: Code, ghost syms: seq<string>, ghost texts: seq<string>,
                      ghost text: string)
    returns (list': KindList)
    requires KindsCoded(c, syms) && Interned(syms) && KindNames(c, syms, kind, text) && Lists(c, syms, list, texts)
    ensures list'.List? == list.List?
    ensures Lists(c, syms, list', if text in texts then texts else texts + [text])
  {
    if list.NoList? { return list; }
    for i := 0 to |list.ids|
      invariant forall j :: 0 <= j < i ==> texts[j] != text
    {
      KindInjective(c, syms, list.ids[i], texts[i], kind, text);
      if list.ids[i] == kind { return list; }
    }
    return List(list.ids + [kind]);
  }
}
