/** Order-preserving filtering of sequences: Rust's `Vec::retain`. */
module Seqs {

  /** `a` is `b` with some elements deleted and the rest in their order. */
  ghost predicate IsSubsequence<T>(a: seq<T>, b: seq<T>)
    decreases |b|
  {
    if a == [] then true
    else if b == [] then false
    else (a[0] == b[0] && IsSubsequence(a[1..], b[1..])) || IsSubsequence(a, b[1..])
  }

  /** The elements of `s` satisfying `p`, in their order. */
  function Retain<T(!new)>(s: seq<T>, p: T -> bool): (r: seq<T>)
    ensures IsSubsequence(r, s)
    ensures forall x :: multiset(r)[x] == if p(x) then multiset(s)[x] else 0
    ensures forall x :: x in r <==> x in s && p(x)
    decreases |s|
  {
    if s == [] then []
    else
      assert s == [s[0]] + s[1..];
      var tail := Retain(s[1..], p);
      if p(s[0]) then [s[0]] + tail else tail
  }

  /** Retaining with a predicate every element satisfies changes nothing. */
  lemma {:induction false} RetainAll<T(!new)>(s: seq<T>, p: T -> bool)
    requires forall i :: 0 <= i < |s| ==> p(s[i])
    ensures Retain(s, p) == s
    decreases |s|
  {
    if s != [] {
      RetainAll(s[1..], p);
    }
  }
}
