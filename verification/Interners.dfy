/** String interning into one slab (internal/compile/interner.go). */
module Interners {
  import opened Schema
  import opened Ast
  import opened Programs
  import opened Lowering

  function TotalLength(texts: seq<string>): nat {
    if texts == [] then 0 else TotalLength(texts[..|texts| - 1]) + |texts[|texts| - 1]|
  }

  lemma {:induction false} TotalLengthAppend(a: seq<string>, b: seq<string>)
    ensures TotalLength(a + b) == TotalLength(a) + TotalLength(b)
  {
    if b == [] {
      assert a + b == a;
    } else {
      assert (a + b)[..|a + b| - 1] == a + b[..|b| - 1];
      TotalLengthAppend(a, b[..|b| - 1]);
    }
  }

  lemma {:induction false} NonEmptyTexts(texts: seq<string>)
    requires forall i :: 0 <= i < |texts| ==> texts[i] != ""
    ensures |texts| <= TotalLength(texts)
  {
    if texts != [] { NonEmptyTexts(texts[..|texts| - 1]); }
  }

  class Interner {
    var ids: map<string, nat>
    var values: seq<string>

    /** The map is the inverse of the list of distinct nonempty values. */
    ghost predicate Valid()
      reads this
    {
      && Interned(values)
      && (forall v :: v in ids ==> 1 <= ids[v] <= |values| && values[ids[v] - 1] == v)
      && (forall i :: 0 <= i < |values| ==> values[i] in ids)
    }

    constructor ()
      ensures Valid() && values == []
    {
      ids, values := map[], [];
    }

    /** intern: the id of value, new only for a new nonempty value. */
    method Intern(value: string) returns (id: nat)
      requires Valid() && TotalLength(values) + |value| <= MAX_UINT32
      modifies this
      ensures Valid() && old(values) <= values
      ensures values == if value == "" || value in old(values) then old(values) else old(values) + [value]
      ensures Names(values, id, value)
      ensures TotalLength(values) <= TotalLength(old(values)) + |value|
    {
      hide U32, TotalLength, Distinct;
      if value == "" { return 0; }
      if value in ids { return ids[value]; }
      NonEmptyTexts(values);
      TotalLengthOne(value);
      id := U32(|values| + 1);
      ids := ids[value := id];
      DistinctAppend(values, value);
      TotalLengthAppend(values, [value]);
      TotalLengthOne(value);
      NarrowingLossless(|values| + 1);
      values := values + [value];
    }

    /** freeze: the values end to end in one slab, with their starts and lengths. */
    method Freeze() returns (t: SymbolTable)
      requires Valid() && TotalLength(values) <= MAX_UINT32
      ensures Spells(t, values)
      ensures values != [] ==> SymbolsValid(t)
    {
      hide U32, TotalLength, Distinct;
      t := SymbolTable("", [], []);
      TotalLengthOne("");
      for i := 0 to |values|
        invariant Frozen(t, values, i)
      {
        var value := values[i];
        TotalLengthPrefix(values, i + 1);
        TotalLengthStep(values, i);
        NarrowingLossless(|t.text|);
        NarrowingLossless(|value|);
        ghost var before := t;
        t := SymbolTable(t.text + value, t.starts + [U32(|t.text|)], t.lengths + [U32(|value|)]);
        FrozenStep(before, t, values, i);
      }
      FrozenSpells(t, values);
      if values != [] { FrozenTiles(t, values); }
    }
  }

  /** Entry k of the table lies right after the values before it and spells value k. */
  predicate FrozenAt(t: SymbolTable, values: seq<string>, k: nat)
    requires k < |t.starts| == |t.lengths| <= |values|
  {
    && t.starts[k] == TotalLength(values[..k]) && t.lengths[k] == |values[k]|
    && t.starts[k] + t.lengths[k] <= |t.text|
    && t.text[t.starts[k]..t.starts[k] + t.lengths[k]] == values[k]
  }

  /** The first i values are in the table. */
  predicate Frozen(t: SymbolTable, values: seq<string>, i: nat) {
    && |t.starts| == |t.lengths| == i <= |values| && |t.text| == TotalLength(values[..i])
    && forall k :: 0 <= k < i ==> FrozenAt(t, values, k)
  }

  lemma {:induction false} FrozenStep(t: SymbolTable, u: SymbolTable, values: seq<string>, i: nat)
    requires i < |values| && Frozen(t, values, i)
    requires u == SymbolTable(t.text + values[i], t.starts + [|t.text|], t.lengths + [|values[i]|])
    ensures Frozen(u, values, i + 1)
  {
    hide TotalLength;
    TotalLengthStep(values, i);
    forall k | 0 <= k < i + 1
      ensures FrozenAt(u, values, k)
    {
      if k < i {
        assert FrozenAt(t, values, k);
        assert u.text[u.starts[k]..u.starts[k] + u.lengths[k]] == t.text[t.starts[k]..t.starts[k] + t.lengths[k]];
      }
    }
  }

  lemma {:induction false} FrozenSpells(t: SymbolTable, values: seq<string>)
    requires Frozen(t, values, |values|)
    ensures Spells(t, values)
  {
    forall i | 0 <= i < |values|
      ensures SpellsAt(t, values, i)
    {
      assert FrozenAt(t, values, i);
    }
  }

  lemma {:induction false} FrozenEnds(t: SymbolTable, values: seq<string>, k: nat)
    requires Frozen(t, values, |values|) && k <= |values|
    ensures TextEnd(t, k) == TotalLength(values[..k])
  {
    if k > 0 {
      FrozenEnds(t, values, k - 1);
      assert FrozenAt(t, values, k - 1);
      TotalLengthStep(values, k - 1);
    }
  }

  /** The symbol ranges tile the slab exactly. */
  lemma {:induction false} FrozenTiles(t: SymbolTable, values: seq<string>)
    requires Frozen(t, values, |values|) && values != [] && Interned(values)
    ensures SymbolsValid(t)
  {
    hide TotalLength, TextEnd;
    FrozenEnds(t, values, |values|);
    forall i | 0 <= i < |values|
      ensures SymbolTiled(t, i)
    {
      assert FrozenAt(t, values, i);
      FrozenEnds(t, values, i);
    }
  }

  lemma {:induction false} TotalLengthOne(text: string)
    ensures TotalLength([text]) == |text| && TotalLength([]) == 0
  {
    assert [text][..0] == [];
  }

  lemma {:induction false} TotalLengthStep(texts: seq<string>, k: nat)
    requires k < |texts|
    ensures TotalLength(texts[..k + 1]) == TotalLength(texts[..k]) + |texts[k]|
  {
    assert texts[..k + 1][..k] == texts[..k];
  }

  lemma {:induction false} TotalLengthPrefix(texts: seq<string>, k: nat)
    requires k <= |texts|
    ensures TotalLength(texts[..k]) <= TotalLength(texts)
  {
    assert texts == texts[..k] + texts[k..];
    TotalLengthAppend(texts[..k], texts[k..]);
  }
}
