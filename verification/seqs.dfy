/** Sequence helpers shared by the browser-side and the backend models:
    order-preserving filtering (JavaScript `Array.prototype.filter`, a Python
    list comprehension with an `if`) and the subsequence relation it produces. */
module Seqs {

  /** `Math.min` on integers (list lengths and counts). */
  function Min(a: int, b: int): int {
    if a <= b then a else b
  }

  /** `Math.min` on the exact reals that stand for JavaScript numbers. */
  function MinReal(a: real, b: real): real {
    if a <= b then a else b
  }

  /** `a` is an initial segment of `b`. */
  predicate IsPrefix<T(==)>(a: seq<T>, b: seq<T>) {
    |a| <= |b| && a == b[..|a|]
  }

  /** `a` can be obtained from `b` by deleting elements, keeping the order. */
  predicate IsSubsequence<T(==)>(a: seq<T>, b: seq<T>)
    decreases |b|
  {
    if a == [] then true
    else if b == [] then false
    else (a[0] == b[0] && IsSubsequence(a[1..], b[1..])) || IsSubsequence(a, b[1..])
  }

  /** The elements of `s` satisfying `p`, in their original order. */
  function Filter<T(==,!new)>(s: seq<T>, p: T -> bool): (r: seq<T>)
    ensures |r| <= |s|
    ensures forall i :: 0 <= i < |r| ==> p(r[i])
    ensures forall x :: multiset(r)[x] == if p(x) then multiset(s)[x] else 0
    ensures IsSubsequence(r, s)
  {
    if s == [] then []
    else
      assert s == [s[0]] + s[1..];
      var rest := Filter(s[1..], p);
      if p(s[0]) then
        assert ([s[0]] + rest)[1..] == rest;
        [s[0]] + rest
      else rest
  }

  /** `f` applied to every element, in order (`[f(x) for x in s]`). */
  function Map<A, B>(f: A -> B, s: seq<A>): (r: seq<B>)
    ensures |r| == |s|
    ensures forall i :: 0 <= i < |s| ==> r[i] == f(s[i])
  {
    if s == [] then [] else [f(s[0])] + Map(f, s[1..])
  }
}
