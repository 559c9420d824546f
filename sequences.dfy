/** Sequence operations the pipeline takes from Python and pandas: sorting by a key
    (`list.sort`, `DataFrame.sort_values`), filtering rows, `Series.unique`, and the
    positions at which a condition holds. */
module Sequences {

  /** `le` is a total preorder: any two values compare, and comparison is transitive. */
  ghost predicate TotalPreorder<T(!new)>(le: (T, T) -> bool)
  {
    && (forall a, b :: le(a, b) || le(b, a))
    && (forall a, b, c :: le(a, b) && le(b, c) ==> le(a, c))
  }

  /** Every element is `le` every later element. */
  predicate SortedBy<T>(s: seq<T>, le: (T, T) -> bool)
  {
    forall i, j :: 0 <= i < j < |s| ==> le(s[i], s[j])
  }

  /** Inserts `x` before the first element it is `le`. */
  function Insert<T(!new)>(x: T, s: seq<T>, le: (T, T) -> bool): (r: seq<T>)
    requires TotalPreorder(le) && SortedBy(s, le)
    ensures SortedBy(r, le)
    ensures multiset(r) == multiset(s) + multiset{x}
    ensures forall y :: y in r ==> y == x || y in s
  {
    if s == [] || le(x, s[0]) then
      [x] + s
    else
      var t := Insert(x, s[1..], le);
      assert forall y :: y in t ==> le(s[0], y);
      assert s == [s[0]] + s[1..];
      [s[0]] + t
  }

  /** A stable insertion sort: the result is ordered by `le` and is a permutation of `s`. */
  function Sort<T(!new)>(s: seq<T>, le: (T, T) -> bool): (r: seq<T>)
    requires TotalPreorder(le)
    ensures SortedBy(r, le)
    ensures multiset(r) == multiset(s)
  {
    if s == [] then []
    else
      assert s == [s[0]] + s[1..];
      Insert(s[0], Sort(s[1..], le), le)
  }

  /** Sorting what is already in order leaves it as it is. */
  lemma {:induction false} SortOfSorted<T(!new)>(s: seq<T>, le: (T, T) -> bool)
    requires TotalPreorder(le) && SortedBy(s, le)
    ensures Sort(s, le) == s
  {
    if s != [] {
      assert SortedBy(s[1..], le);
      SortOfSorted(s[1..], le);
      assert s == [s[0]] + s[1..];
    }
  }

  /** The elements of `s` that satisfy `p`, in their order in `s`: each one as often
      as it occurs in `s`. */
  function Filter<T(!new)>(s: seq<T>, p: T -> bool): (r: seq<T>)
    ensures |r| <= |s|
    ensures forall y :: y in r <==> y in s && p(y)
    ensures forall y :: multiset(r)[y] == if p(y) then multiset(s)[y] else 0
  {
    if s == [] then []
    else
      assert s == [s[0]] + s[1..];
      (if p(s[0]) then [s[0]] else []) + Filter(s[1..], p)
  }

  /** Filtering keeps the order of what it keeps. */
  lemma {:induction false} FilterSorted<T(!new)>(s: seq<T>, p: T -> bool, le: (T, T) -> bool)
    requires SortedBy(s, le)
    ensures SortedBy(Filter(s, p), le)
  {
    if s != [] {
      assert SortedBy(s[1..], le);
      FilterSorted(s[1..], p, le);
      var t := Filter(s[1..], p);
      assert forall y :: y in t ==> le(s[0], y);
    }
  }

  /** The distinct elements of `s` in order of first appearance (pandas' `unique`). */
  function Distinct<T(==,!new)>(s: seq<T>): (r: seq<T>)
    ensures forall y :: y in r <==> y in s
    ensures forall i, j :: 0 <= i < j < |r| ==> r[i] != r[j]
    ensures forall i, j :: 0 <= i < j < |r| ==> FirstIndex(s, r[i]) < FirstIndex(s, r[j])
  {
    if s == [] then []
    else
      var init := s[..|s| - 1];
      var x := s[|s| - 1];
      assert s == init + [x];
      var d := Distinct(init);
      FirstIndexOfPrefix(init, x);
      if x in init then d else d + [x]
  }

  /** The position of the first occurrence of `y` in `s`. */
  function FirstIndex<T(==)>(s: seq<T>, y: T): (k: nat)
    requires y in s
    ensures k < |s| && s[k] == y && y !in s[..k]
  {
    if s[0] == y then 0 else 1 + FirstIndex(s[1..], y)
  }

  /** Appending an element leaves first occurrences in the prefix where they are. */
  lemma {:induction false} FirstIndexOfPrefix<T>(init: seq<T>, x: T)
    ensures forall y :: y in init ==> FirstIndex(init + [x], y) == FirstIndex(init, y)
    ensures x !in init ==> FirstIndex(init + [x], x) == |init|
  {
    forall y | y in init
      ensures FirstIndex(init + [x], y) == FirstIndex(init, y)
    {
      var k := FirstIndex(init, y);
      var k' := FirstIndex(init + [x], y);
      assert (init + [x])[k] == y;
    }
  }

  /** The positions below `n` at which `p` holds, in increasing order. */
  function Indices(n: nat, p: nat -> bool): (r: seq<nat>)
    ensures |r| <= n
    ensures forall j :: 0 <= j < |r| ==> r[j] < n && p(r[j])
  {
    if n == 0 then [] else Indices(n - 1, p) + (if p(n - 1) then [n - 1] else [])
  }

  /** The indices are listed in strictly increasing order. */
  lemma {:induction false} IndicesIncreasing(n: nat, p: nat -> bool)
    ensures forall j, j' :: 0 <= j < j' < |Indices(n, p)| ==> Indices(n, p)[j] < Indices(n, p)[j']
  {
    if n > 0 {
      IndicesIncreasing(n - 1, p);
    }
  }

  /** Every position below `n` at which `p` holds is listed. */
  lemma {:induction false} IndicesComplete(n: nat, p: nat -> bool)
    ensures forall k :: 0 <= k < n && p(k) ==> k in Indices(n, p)
  {
    if n > 0 {
      IndicesComplete(n - 1, p);
    }
  }

  /** No position satisfies `p`: there are no indices. */
  lemma {:induction false} IndicesNone(n: nat, p: nat -> bool)
    requires forall k :: 0 <= k < n ==> !p(k)
    ensures Indices(n, p) == []
  {
    if n > 0 {
      IndicesNone(n - 1, p);
    }
  }
}
