/** Slices of prefixes and of concatenations. */
module Seqs {

  lemma SliceOfPrefix<T>(s: seq<T>, m: int, i: int, j: int)
    requires 0 <= i <= j <= m <= |s|
    ensures s[..m][i..j] == s[i..j]
  {
  }

  lemma SliceOfConcatLeft<T>(a: seq<T>, b: seq<T>, i: int, j: int)
    requires 0 <= i <= j <= |a|
    ensures (a + b)[i..j] == a[i..j]
  {
  }

  lemma SliceOfConcatRight<T>(a: seq<T>, b: seq<T>)
    ensures (a + b)[|a|..] == b && (a + b)[..|a|] == a
  {
  }

  /** The slice of block k of width w, when a holds exactly k such blocks, is the block b appended. */
  lemma LastSlice<T>(a: seq<T>, b: seq<T>, k: int, w: int)
    requires |a| == k * w && |b| == w
    ensures (a + b)[k * w..(k + 1) * w] == b
  {
    assert (k + 1) * w == |a| + |b|;
    SliceOfConcatRight(a, b);
  }

  lemma SliceToEnd<T>(s: seq<T>, i: int)
    requires 0 <= i <= |s|
    ensures s[i..|s|] == s[i..]
  {
  }

  lemma SplitAt<T>(s: seq<T>, i: int)
    requires 0 <= i <= |s|
    ensures s[..i] + s[i..] == s
  {
  }

  lemma WholePrefix<T>(s: seq<T>)
    ensures s[..|s|] == s
  {
  }

  lemma ExtensionalEquality<T>(a: seq<T>, b: seq<T>)
    requires |a| == |b| && forall i :: 0 <= i < |a| ==> a[i] == b[i]
    ensures a == b
  {
  }
}
