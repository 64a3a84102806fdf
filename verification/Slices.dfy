/** Reusable growable storage. A slice shows `items`; `spare` is the storage between its length and
    its capacity, which still holds whatever an earlier use left there. */
module Slices {

  datatype Slice<T> = Slice(items: seq<T>, spare: seq<T>) {
    function Len(): nat { |items| }

    function Cap(): nat { |items| + |spare| }

    /** s[:n], which brings old contents back into view. */
    function Reslice(n: nat): (r: Slice<T>)
      requires n <= Cap()
      ensures r.Len() == n && r.Cap() == Cap()
    {
      Slice((items + spare)[..n], (items + spare)[n..])
    }

    /** append of one item: uses the spare storage when there is some, else grows to exactly fit. */
    function Append(x: T): (r: Slice<T>)
      ensures r.items == items + [x]
      ensures r.Cap() == if spare == [] then Cap() + 1 else Cap()
    {
      Slice(items + [x], if spare == [] then [] else spare[1..])
    }

    function AppendAll(xs: seq<T>): (r: Slice<T>)
      ensures r.items == items + xs
      ensures r.Cap() == if |xs| <= |spare| then Cap() else |items| + |xs|
    {
      Slice(items + xs, if |xs| <= |spare| then spare[|xs|..] else [])
    }

    function Set(i: nat, x: T): (r: Slice<T>)
      requires i < Len()
      ensures r.Cap() == Cap() && r.Len() == Len()
    {
      Slice(items[i := x], spare)
    }
  }

  function Fill<T>(n: nat, zero: T): (s: seq<T>)
    ensures |s| == n && forall i :: 0 <= i < n ==> s[i] == zero
  {
    seq(n, _ => zero)
  }

  /** The builtin clear on a slice: every shown item becomes the zero value. */
  function Clear<T>(s: Slice<T>, zero: T): (r: Slice<T>)
    ensures r.items == Fill(s.Len(), zero) && r.Cap() == s.Cap()
  {
    Slice(Fill(s.Len(), zero), s.spare)
  }

  /** resizeClear and ensureLength: exactly n zero items, reusing the storage when it is large enough. */
  function ResizeClear<T>(s: Slice<T>, n: nat, zero: T): (r: Slice<T>)
    ensures r.items == Fill(n, zero)
    ensures r.Cap() == if s.Cap() < n then n else s.Cap()
  {
    if s.Cap() < n then Slice(Fill(n, zero), []) else Clear(s.Reslice(n), zero)
  }

  /** ensureEmptyCapacity: nothing shown, room for n items. */
  function EnsureEmpty<T>(s: Slice<T>, n: nat, zero: T): (r: Slice<T>)
    ensures r.items == [] && r.Cap() == if s.Cap() < n then n else s.Cap()
  {
    if s.Cap() < n then Slice([], Fill(n, zero)) else s.Reslice(0)
  }

  /** resetSlice: nothing shown, and what was shown is cleared. */
  function ResetSlice<T>(s: Slice<T>, zero: T): (r: Slice<T>)
    ensures r.items == [] && r.Cap() == s.Cap()
  {
    Clear(s, zero).Reslice(0)
  }
}
