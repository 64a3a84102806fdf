/** Stores of bitplanes: plane number q of a store with `words` words a plane holds row r in bit
    r % 64 of word q * words + r / 64 (internal/eval/context.go, internal/eval/batch.go). */
module Planes {
  import opened Bits

  function WordIndex(words: nat, plane: nat, row: nat): nat {
    plane * words + row / 64
  }

  /** hasRow on a plane of the store. A row past the plane or past the store reads as absent. */
  predicate PlaneBit(store: seq<nat>, words: nat, plane: nat, row: nat) {
    row / 64 < words && WordIndex(words, plane, row) < |store|
    && BitAt(store[WordIndex(words, plane, row)], row % 64)
  }

  /** setRow on a plane of the store. */
  function SetRow(store: seq<nat>, words: nat, plane: nat, row: nat): seq<nat>
    requires row / 64 < words && WordIndex(words, plane, row) < |store|
  {
    var i := WordIndex(words, plane, row);
    store[i := SetBit(store[i], row % 64)]
  }

  /** tailMask: ones exactly at the rows of the last word that exist. */
  function TailMask(rows: nat): nat {
    if rows % 64 != 0 then Bit(rows % 64) - 1 else ALL_ONES
  }

  lemma {:induction false} MulStep(a: nat, b: nat, w: nat)
    requires a < b
    ensures a * w + w <= b * w
  {
    assert (a + 1) * w == a * w + w;
    MulMono(a + 1, b, w);
  }

  lemma {:induction false} MulMono(a: nat, b: nat, w: nat)
    requires a <= b
    ensures a * w <= b * w
  {
    assert b * w == a * w + (b - a) * w;
  }

  lemma {:induction false} PlaneFits(plane: nat, planes: nat, words: nat, row: nat)
    requires plane < planes && row / 64 < words
    ensures WordIndex(words, plane, row) < planes * words
  {
    MulStep(plane, planes, words);
  }

  /** Two rows share a word of the store only when they share the plane. */
  lemma {:induction false} WordIndexInjective(words: nat, p: nat, r: nat, q: nat, s: nat)
    requires r / 64 < words && s / 64 < words
    ensures WordIndex(words, p, r) == WordIndex(words, q, s) <==> p == q && r / 64 == s / 64
  {
    if p < q { MulStep(p, q, words); } else if q < p { MulStep(q, p, words); }
  }

  lemma {:induction false} SetRowReads(store: seq<nat>, words: nat, plane: nat, row: nat, p: nat, r: nat)
    requires row / 64 < words && WordIndex(words, plane, row) < |store|
    ensures PlaneBit(SetRow(store, words, plane, row), words, p, r)
         == (PlaneBit(store, words, p, r) || (p == plane && r == row))
  {
    if r / 64 < words {
      WordIndexInjective(words, plane, row, p, r);
      SetBitReads(store[WordIndex(words, plane, row)], r % 64, row % 64);
    }
  }

  /** Setting one row of one plane changes nothing else in the whole store. */
  lemma {:induction false} SetRowEffect(store: seq<nat>, words: nat, plane: nat, row: nat)
    requires row / 64 < words && WordIndex(words, plane, row) < |store|
    ensures forall p: nat, r: nat ::
      PlaneBit(SetRow(store, words, plane, row), words, p, r)
      == (PlaneBit(store, words, p, r) || (p == plane && r == row))
  {
    forall p: nat, r: nat
      ensures PlaneBit(SetRow(store, words, plane, row), words, p, r)
           == (PlaneBit(store, words, p, r) || (p == plane && r == row))
    {
      SetRowReads(store, words, plane, row, p, r);
    }
  }

  function WriteWord(store: seq<nat>, words: nat, plane: nat, w: nat, x: nat): seq<nat>
    requires w < words && plane * words + w < |store|
  {
    store[plane * words + w := x]
  }

  /** Writing word w of one plane changes the rows of that word only. */
  lemma {:induction false} WriteWordEffect(store: seq<nat>, words: nat, plane: nat, w: nat, x: nat)
    requires w < words && plane * words + w < |store|
    ensures forall p: nat, r: nat ::
      PlaneBit(WriteWord(store, words, plane, w, x), words, p, r)
      == (if p == plane && r / 64 == w then BitAt(x, r % 64) else PlaneBit(store, words, p, r))
  {
    forall p: nat, r: nat
      ensures PlaneBit(WriteWord(store, words, plane, w, x), words, p, r)
           == (if p == plane && r / 64 == w then BitAt(x, r % 64) else PlaneBit(store, words, p, r))
    {
      assert (w * 64) / 64 == w;
      if r / 64 < words { WordIndexInjective(words, plane, w * 64, p, r); }
    }
  }

  lemma {:induction false} BlankStore(store: seq<nat>, words: nat)
    requires forall i :: 0 <= i < |store| ==> store[i] == 0
    ensures forall p: nat, r: nat :: !PlaneBit(store, words, p, r)
  {
    forall p: nat, r: nat
      ensures !PlaneBit(store, words, p, r)
    {
      BitAtZero(r % 64);
    }
  }

  lemma {:induction false} LastWord(rows: nat)
    requires rows > 0
    ensures (rows - 1) / 64 * 64 == rows - if rows % 64 != 0 then rows % 64 else 64
  {
    if rows % 64 != 0 { assert (rows - 1) / 64 == rows / 64; } else { assert (rows - 1) / 64 == rows / 64 - 1; }
  }

  /** The tail mask keeps a bit of the last word exactly when its row exists. */
  lemma {:induction false} TailMaskReads(rows: nat, k: nat)
    requires k < 64 && rows > 0
    ensures BitAt(TailMask(rows), k) == ((rows - 1) / 64 * 64 + k < rows)
  {
    hide BitAt, Bit;
    LastWord(rows);
    if rows % 64 != 0 {
      BitAtBelow(rows % 64, k);
    } else {
      BitAtOnes(k);
    }
  }
}
