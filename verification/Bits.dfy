/** Machine words. A uint64, uint16 or uint8 is a natural number below its width; `And`, `Or` and
    `Bit` are the machine operators, defined digit by digit (internal/eval/truth.go). */
module Bits {

  function And(a: nat, b: nat): nat {
    if a == 0 || b == 0 then 0
    else 2 * And(a / 2, b / 2) + (if a % 2 == 1 && b % 2 == 1 then 1 else 0)
  }

  function Or(a: nat, b: nat): nat {
    if a == 0 && b == 0 then 0
    else 2 * Or(a / 2, b / 2) + (if a % 2 == 1 || b % 2 == 1 then 1 else 0)
  }

  /** The word `1 << k`. */
  function Bit(k: nat): nat
    ensures Bit(k) > 0
  {
    if k == 0 then 1 else 2 * Bit(k - 1)
  }

  /** The test `w & (1 << k) != 0`. */
  predicate BitAt(w: nat, k: nat) {
    And(w, Bit(k)) != 0
  }

  /** The word `w | 1 << k`. */
  function SetBit(w: nat, k: nat): nat {
    Or(w, Bit(k))
  }

  const WORD_BITS := 64
  /** `^uint64(0)`. */
  const ALL_ONES := 0xFFFF_FFFF_FFFF_FFFF

  lemma {:induction false} AndZero(a: nat, b: nat)
    requires a == 0 || b == 0
    ensures And(a, b) == 0
  {}

  /** Bit k of a word is digit k of its binary expansion. */
  lemma {:induction false} BitAtDigit(w: nat, k: nat)
    ensures BitAt(w, k) == if k == 0 then w % 2 == 1 else BitAt(w / 2, k - 1)
  {
    if w != 0 {
      if k == 0 {
        assert Bit(k) / 2 == 0;
        AndZero(w / 2, 0);
      } else {
        assert Bit(k) / 2 == Bit(k - 1);
      }
    }
  }

  /** The digits of an and and an or. */
  lemma {:induction false} Digits(a: nat, b: nat)
    ensures Or(a, b) / 2 == Or(a / 2, b / 2) && (Or(a, b) % 2 == 1 <==> a % 2 == 1 || b % 2 == 1)
    ensures And(a, b) / 2 == And(a / 2, b / 2) && (And(a, b) % 2 == 1 <==> a % 2 == 1 && b % 2 == 1)
  {}

  lemma {:induction false} BitAtOr(a: nat, b: nat, k: nat)
    ensures BitAt(Or(a, b), k) == (BitAt(a, k) || BitAt(b, k))
  {
    hide BitAt, Or;
    Digits(a, b);
    BitAtDigit(Or(a, b), k); BitAtDigit(a, k); BitAtDigit(b, k);
    if k > 0 { BitAtOr(a / 2, b / 2, k - 1); }
  }

  lemma {:induction false} BitAtAnd(a: nat, b: nat, k: nat)
    ensures BitAt(And(a, b), k) == (BitAt(a, k) && BitAt(b, k))
  {
    hide BitAt, And;
    Digits(a, b);
    BitAtDigit(And(a, b), k); BitAtDigit(a, k); BitAtDigit(b, k);
    if k > 0 { BitAtAnd(a / 2, b / 2, k - 1); }
  }

  lemma {:induction false} BitAtZero(k: nat)
    ensures !BitAt(0, k)
  {}

  lemma {:induction false} BitAtBit(j: nat, k: nat)
    ensures BitAt(Bit(k), j) == (j == k)
  {
    BitAtDigit(Bit(k), j);
    if j > 0 {
      if k == 0 { BitAtZero(j - 1); } else { BitAtBit(j - 1, k - 1); }
    }
  }

  /** `1 << n - 1` has exactly the bits below n. */
  lemma {:induction false} BitAtBelow(n: nat, k: nat)
    ensures BitAt(Bit(n) - 1, k) == (k < n)
  {
    BitAtDigit(Bit(n) - 1, k);
    if n == 0 { BitAtZero(k); } else if k > 0 { BitAtBelow(n - 1, k - 1); }
  }

  /** Setting a bit adds that bit and keeps the others. */
  lemma {:induction false} SetBitReads(w: nat, j: nat, k: nat)
    ensures BitAt(SetBit(w, k), j) == (BitAt(w, j) || j == k)
  {
    BitAtOr(w, Bit(k), j);
    BitAtBit(j, k);
  }

  lemma {:induction false} BitBy8(k: nat)
    ensures Bit(k + 8) == 256 * Bit(k)
    ensures k == 0 ==> Bit(k) == 1
  {
    assert Bit(k + 2) == 4 * Bit(k);
    assert Bit(k + 4) == 16 * Bit(k);
    assert Bit(k + 6) == 64 * Bit(k);
  }

  lemma {:induction false} Bit64()
    ensures Bit(WORD_BITS) == ALL_ONES + 1
  {
    hide Bit;
    BitBy8(0); BitBy8(8); BitBy8(16); BitBy8(24); BitBy8(32); BitBy8(40); BitBy8(48); BitBy8(56);
  }

  lemma {:induction false} BitAtOnes(k: nat)
    ensures BitAt(ALL_ONES, k) == (k < WORD_BITS)
  {
    Bit64();
    BitAtBelow(WORD_BITS, k);
  }

  lemma {:induction false} OrBelow(a: nat, b: nat, n: nat)
    requires a < Bit(n) && b < Bit(n)
    ensures Or(a, b) < Bit(n) && And(a, b) < Bit(n)
  {
    if n > 0 { OrBelow(a / 2, b / 2, n - 1); }
  }

  lemma {:induction false} BitBelow(k: nat, n: nat)
    requires k < n
    ensures Bit(k) < Bit(n)
  {
    if k + 1 < n { BitBelow(k, n - 1); }
  }
}
