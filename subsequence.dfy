/** Order-preserving subsequences: the shape of "an ordered subset of the batch". */
module Subsequence {

  /** `a` can be obtained from `b` by deleting elements, keeping the order of the rest.
      Matches greedily from the ends of both sequences. */
  predicate IsSubsequence<T(==)>(a: seq<T>, b: seq<T>)
    decreases |b|
  {
    if a == [] then true
    else if b == [] then false
    else if a[|a| - 1] == b[|b| - 1] then IsSubsequence(a[..|a| - 1], b[..|b| - 1])
    else IsSubsequence(a, b[..|b| - 1])
  }

  /** A subsequence is never longer than the sequence it is taken from. */
  lemma {:induction false} SubsequenceLength<T>(a: seq<T>, b: seq<T>)
    requires IsSubsequence(a, b)
    ensures |a| <= |b|
    decreases |b|
  {
    if a != [] {
      if a[|a| - 1] == b[|b| - 1] {
        SubsequenceLength(a[..|a| - 1], b[..|b| - 1]);
      } else {
        SubsequenceLength(a, b[..|b| - 1]);
      }
    }
  }

  /** Every element of a subsequence occurs in the sequence it is taken from. */
  lemma {:induction false} SubsequenceElements<T>(a: seq<T>, b: seq<T>, x: T)
    requires IsSubsequence(a, b) && x in a
    ensures x in b
    decreases |b|
  {
    var a', b' := a[..|a| - 1], b[..|b| - 1];
    assert b == b' + [b[|b| - 1]];
    if a[|a| - 1] == b[|b| - 1] {
      assert a == a' + [a[|a| - 1]];
      if x != a[|a| - 1] {
        SubsequenceElements(a', b', x);
      }
    } else {
      SubsequenceElements(a, b', x);
    }
  }

  /** Appending the same element to both sides keeps the relation. */
  lemma AppendBoth<T>(a: seq<T>, b: seq<T>, x: T)
    requires IsSubsequence(a, b)
    ensures IsSubsequence(a + [x], b + [x])
  {
    assert (a + [x])[..|a|] == a;
    assert (b + [x])[..|b|] == b;
  }

  /** Appending an element to the longer side only keeps the relation. */
  lemma {:induction false} AppendRight<T>(a: seq<T>, b: seq<T>, x: T)
    requires IsSubsequence(a, b)
    ensures IsSubsequence(a, b + [x])
    decreases |b|, 1
  {
    assert (b + [x])[..|b|] == b;
    if a != [] && a[|a| - 1] == x {
      DropLast(a, b);
    }
  }

  /** Dropping the last element of the shorter side keeps the relation. */
  lemma {:induction false} DropLast<T>(a: seq<T>, b: seq<T>)
    requires IsSubsequence(a, b) && a != []
    ensures IsSubsequence(a[..|a| - 1], b)
    decreases |b|, 0
  {
    var a', b' := a[..|a| - 1], b[..|b| - 1];
    assert b == b' + [b[|b| - 1]];
    if a[|a| - 1] == b[|b| - 1] {
      AppendRight(a', b', b[|b| - 1]);
    } else {
      DropLast(a, b');
      AppendRight(a', b', b[|b| - 1]);
    }
  }
}
