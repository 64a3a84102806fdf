/** The evaluation context: one positive plane, one negative plane and eight reason planes for each
    instruction, in three reusable stores (internal/eval/context.go, internal/eval/truth.go). */
module Contexts {
  import opened Schema
  import opened Slices
  import opened Bits
  import opened Planes
  import opened Verdicts
  import opened Batches

  /** Reason planes are numbered reason by reason, instruction by instruction. */
  function ReasonPlane(instructions: nat, reason: nat, i: nat): nat
    requires reason >= 1
  {
    (reason - 1) * instructions + i
  }

  lemma {:induction false} ReasonPlaneInjective(instructions: nat, r: nat, i: nat, s: nat, j: nat)
    requires r >= 1 && s >= 1 && i < instructions && j < instructions
    ensures ReasonPlane(instructions, r, i) == ReasonPlane(instructions, s, j) <==> r == s && i == j
    ensures r <= REASON_COUNT ==> ReasonPlane(instructions, r, i) < REASON_COUNT * instructions
  {
    if r < s { MulStep(r - 1, s - 1, instructions); } else if s < r { MulStep(s - 1, r - 1, instructions); }
    if r <= REASON_COUNT { MulStep(r - 1, REASON_COUNT, instructions); }
  }

  lemma {:induction false} ReasonFits(instructions: nat, words: nat, r: nat, i: nat, row: nat)
    requires 1 <= r <= REASON_COUNT && i < instructions && row / 64 < words
    ensures WordIndex(words, ReasonPlane(instructions, r, i), row) < REASON_COUNT * words * instructions
  {
    hide WordIndex, ReasonPlane;
    ReasonPlaneInjective(instructions, r, i, r, i);
    PlaneFits(ReasonPlane(instructions, r, i), REASON_COUNT * instructions, words, row);
    var m := words * instructions;
    assert REASON_COUNT * instructions * words == REASON_COUNT * m == REASON_COUNT * words * instructions;
  }

  class Context {
    var positive: Slice<nat>
    var negative: Slice<nat>
    var reasons: Slice<nat>
    var rows: nat
    var words: nat
    var instructions: nat

    constructor ()
      ensures Shaped(0, 0)
    {
      positive, negative, reasons := Slice([], []), Slice([], []), Slice([], []);
      rows, words, instructions := 0, 0, 0;
    }

    /** The stores have room for exactly this many rows and instructions. */
    predicate Shaped(rows': nat, instructions': nat)
      reads this
    {
      && rows == rows' && words == WordCount(rows') && instructions == instructions'
      && |positive.items| == words * instructions
      && |negative.items| == words * instructions
      && |reasons.items| == REASON_COUNT * words * instructions
    }

    /** hasRow on the positive, negative and reason planes of instruction i (counted from zero). */
    predicate Pos(i: nat, row: nat)
      reads this`positive, this`words
    {
      PlaneBit(positive.items, words, i, row)
    }

    predicate Neg(i: nat, row: nat)
      reads this`negative, this`words
    {
      PlaneBit(negative.items, words, i, row)
    }

    predicate Rsn(reason: nat, i: nat, row: nat)
      requires reason >= 1
      reads this`reasons, this`words, this`instructions
    {
      PlaneBit(reasons.items, words, ReasonPlane(instructions, reason, i), row)
    }

    /** The planes show exactly this verdict: its truth bits and its one reason bit. */
    predicate Shows(i: nat, row: nat, v: Verdict)
      reads this
    {
      && Pos(i, row) == v.pos && Neg(i, row) == v.neg
      && forall r :: 1 <= r <= REASON_COUNT ==> Rsn(r, i, row) == (r == v.reason)
    }

    /** Context.Ensure: sized for the program and the rows, all planes clear; above 2^32 - 64 rows the
        32-bit word count is zero and so are the stores. */
    method Ensure(instructions': nat, rows': nat)
      requires rows' <= MAX_UINT32
      modifies this
      ensures Shaped(rows', instructions') <==> rows' + 63 <= MAX_UINT32
      ensures forall i, row :: Shows(i, row, BLANK)
    {
      rows, words, instructions := rows', U32(rows' + 63) / 64, instructions';
      positive := ResizeClear(positive, words * instructions, 0);
      negative := ResizeClear(negative, words * instructions, 0);
      reasons := ResizeClear(reasons, REASON_COUNT * words * instructions, 0);
      BlankStores();
    }

    lemma {:induction false} BlankStores()
      requires forall k :: 0 <= k < |positive.items| ==> positive.items[k] == 0
      requires forall k :: 0 <= k < |negative.items| ==> negative.items[k] == 0
      requires forall k :: 0 <= k < |reasons.items| ==> reasons.items[k] == 0
      ensures forall i, row :: Shows(i, row, BLANK)
    {
      BlankStore(positive.items, words);
      BlankStore(negative.items, words);
      BlankStore(reasons.items, words);
    }

    /** clear on the three stores. */
    method Clear()
      modifies this`positive, this`negative, this`reasons
      ensures forall i, row :: Shows(i, row, BLANK)
      ensures old(Shaped(rows, instructions)) ==> Shaped(rows, instructions)
    {
      positive := Slices.Clear(positive, 0);
      negative := Slices.Clear(negative, 0);
      reasons := Slices.Clear(reasons, 0);
      BlankStores();
    }

    lemma {:induction false} Fits(i: nat, row: nat)
      requires Shaped(rows, instructions) && i < instructions && row < rows
      ensures row / 64 < words
      ensures WordIndex(words, i, row) < words * instructions
      ensures forall r :: 1 <= r <= REASON_COUNT ==>
        WordIndex(words, ReasonPlane(instructions, r, i), row) < REASON_COUNT * words * instructions
    {
      PlaneFits(i, instructions, words, row);
      forall r | 1 <= r <= REASON_COUNT
        ensures WordIndex(words, ReasonPlane(instructions, r, i), row) < REASON_COUNT * words * instructions
      {
        ReasonFits(instructions, words, r, i, row);
      }
    }

    method SetPositive(i: nat, row: nat)
      requires Shaped(rows, instructions) && i < instructions && row < rows
      modifies this`positive
      ensures Shaped(rows, instructions)
      ensures forall j: nat, r: nat :: Pos(j, r) == (old(Pos(j, r)) || (j == i && r == row))
    {
      Fits(i, row);
      SetRowEffect(positive.items, words, i, row);
      positive := positive.(items := SetRow(positive.items, words, i, row));
    }

    method SetNegative(i: nat, row: nat)
      requires Shaped(rows, instructions) && i < instructions && row < rows
      modifies this`negative
      ensures Shaped(rows, instructions)
      ensures forall j: nat, r: nat :: Neg(j, r) == (old(Neg(j, r)) || (j == i && r == row))
    {
      Fits(i, row);
      SetRowEffect(negative.items, words, i, row);
      negative := negative.(items := SetRow(negative.items, words, i, row));
    }

    method SetReason(reason: nat, i: nat, row: nat)
      requires Shaped(rows, instructions) && i < instructions && row < rows && 1 <= reason <= REASON_COUNT
      modifies this`reasons
      ensures Shaped(rows, instructions)
      ensures forall s: nat, j: nat, r: nat | 1 <= s && j < instructions ::
        Rsn(s, j, r) == (old(Rsn(s, j, r)) || (s == reason && j == i && r == row))
    {
      Fits(i, row);
      var plane := ReasonPlane(instructions, reason, i);
      SetRowEffect(reasons.items, words, plane, row);
      reasons := reasons.(items := SetRow(reasons.items, words, plane, row));
      forall s: nat, j: nat, r: nat | 1 <= s && j < instructions
        ensures Rsn(s, j, r) == (old(Rsn(s, j, r)) || (s == reason && j == i && r == row))
      {
        ReasonPlaneInjective(instructions, reason, i, s, j);
      }
    }

    /** setReason on an undecided row, leaving every other row and instruction alone. */
    method Settle(i: nat, row: nat, v: Verdict)
      requires Shaped(rows, instructions) && i < instructions && row < rows
      requires Shows(i, row, v.(reason := 0)) && 1 <= v.reason <= REASON_COUNT
      modifies this`reasons
      ensures Shaped(rows, instructions)
      ensures Shows(i, row, v)
      ensures forall j: nat, r: nat, w: Verdict | j < instructions && (j != i || r != row) ::
        old(Shows(j, r, w)) ==> Shows(j, r, w)
    {
      hide PlaneBit, ReasonPlane;
      SetReason(v.reason, i, row);
    }

    /** Store one word of the positive and of the negative plane of instruction i. */
    method WriteWords(i: nat, w: nat, pos: nat, neg: nat)
      requires Shaped(rows, instructions) && i < instructions && w < words
      modifies this`positive, this`negative
      ensures Shaped(rows, instructions)
      ensures forall j: nat, r: nat, v: Verdict | j < instructions && (j != i || r / 64 != w) ::
        old(Shows(j, r, v)) ==> Shows(j, r, v)
      ensures forall r: nat, v: Verdict | r / 64 == w ::
        old(Shows(i, r, v)) ==> Shows(i, r, Verdict(BitAt(pos, r % 64), BitAt(neg, r % 64), v.reason))
    {
      hide PlaneBit, ReasonPlane, BitAt;
      MulStep(i, instructions, words);
      WriteWordEffect(positive.items, words, i, w, pos);
      WriteWordEffect(negative.items, words, i, w, neg);
      positive := positive.(items := WriteWord(positive.items, words, i, w, pos));
      negative := negative.(items := WriteWord(negative.items, words, i, w, neg));
    }

    /** Mask the last words of instruction i: rows that do not exist lose their truth bits. */
    method MaskTail(i: nat)
      requires Shaped(rows, instructions) && i < instructions && rows > 0
      modifies this`positive, this`negative
      ensures Shaped(rows, instructions)
      ensures forall j: nat, r: nat, v: Verdict | j < instructions && (j != i || r < rows || (!v.pos && !v.neg)) ::
        old(Shows(j, r, v)) ==> Shows(j, r, v)
    {
      hide PlaneBit, ReasonPlane, BitAt, TailMask;
      var last, mask := words - 1, TailMask(rows);
      MulStep(i, instructions, words);
      var pos, neg := positive.items[i * words + last], negative.items[i * words + last];
      forall r: nat | r / 64 == last
        ensures BitAt(And(pos, mask), r % 64) == (Pos(i, r) && r < rows)
        ensures BitAt(And(neg, mask), r % 64) == (Neg(i, r) && r < rows)
      {
        BitAtAnd(pos, mask, r % 64);
        BitAtAnd(neg, mask, r % 64);
        TailMaskReads(rows, r % 64);
        WordRead(i, r);
      }
      WriteWords(i, last, And(pos, mask), And(neg, mask));
    }

    lemma {:induction false} WordRead(i: nat, r: nat)
      requires Shaped(rows, instructions) && i < instructions && r / 64 < words
      ensures i * words + r / 64 < |positive.items| && i * words + r / 64 < |negative.items|
      ensures Pos(i, r) == BitAt(positive.items[i * words + r / 64], r % 64)
      ensures Neg(i, r) == BitAt(negative.items[i * words + r / 64], r % 64)
    {
      MulStep(i, instructions, words);
    }

    /** The setRow and setReason calls that record a verdict for one row. */
    method Record(i: nat, row: nat, v: Verdict)
      requires Shaped(rows, instructions) && i < instructions && row < rows
      requires Shows(i, row, BLANK) && 1 <= v.reason <= REASON_COUNT
      modifies this`positive, this`negative, this`reasons
      ensures Shaped(rows, instructions)
      ensures Shows(i, row, v)
      ensures forall j: nat, r: nat, w: Verdict | j < instructions && (j != i || r != row) ::
        old(Shows(j, r, w)) ==> Shows(j, r, w)
    {
      hide PlaneBit, ReasonPlane;
      if v.pos { SetPositive(i, row); }
      if v.neg { SetNegative(i, row); }
      Settle(i, row, v);
    }
  }
}
