/** Order-preserving subsequences, witnessed by strictly increasing indices. */
module Subsequences {

  /** `idx` picks the elements of `a` out of `b`, in order. */
  ghost predicate Embedding<T>(a: seq<T>, b: seq<T>, idx: seq<int>)
  {
    && |idx| == |a|
    && (forall j :: 0 <= j < |idx| ==> 0 <= idx[j] < |b| && a[j] == b[idx[j]])
    && (forall j, k :: 0 <= j < k < |idx| ==> idx[j] < idx[k])
  }

  /** `a` is obtained from `b` by deleting elements, without reordering. */
  ghost predicate IsSubsequence<T>(a: seq<T>, b: seq<T>)
  {
    exists idx :: Embedding(a, b, idx)
  }

  lemma EmptySubsequence<T>(b: seq<T>)
    ensures IsSubsequence([], b)
  {
    assert Embedding([], b, []);
  }

  /** Appending to the longer sequence, or to both, keeps a subsequence. */
  lemma SubsequenceSnoc<T>(a: seq<T>, b: seq<T>, x: T)
    requires IsSubsequence(a, b)
    ensures IsSubsequence(a, b + [x])
    ensures IsSubsequence(a + [x], b + [x])
  {
    var idx :| Embedding(a, b, idx);
    assert Embedding(a, b + [x], idx);
    assert Embedding(a + [x], b + [x], idx + [|b|]);
  }

  lemma PrefixSubsequence<T>(s: seq<T>, n: nat)
    requires n <= |s|
    ensures IsSubsequence(s[..n], s)
  {
    var idx := seq(n, i => i);
    assert Embedding(s[..n], s, idx);
  }

  lemma SubsequenceTransitive<T>(a: seq<T>, b: seq<T>, c: seq<T>)
    requires IsSubsequence(a, b) && IsSubsequence(b, c)
    ensures IsSubsequence(a, c)
  {
    var i1 :| Embedding(a, b, i1);
    var i2 :| Embedding(b, c, i2);
    var idx := seq(|i1|, j requires 0 <= j < |i1| => i2[i1[j]]);
    assert Embedding(a, c, idx);
  }

  /** Every element of a subsequence is an element of the whole. */
  lemma SubsequenceMembers<T>(a: seq<T>, b: seq<T>)
    requires IsSubsequence(a, b)
    ensures forall x :: x in a ==> x in b
  {
    var idx :| Embedding(a, b, idx);
    forall x | x in a ensures x in b {
      var j :| 0 <= j < |a| && a[j] == x;
      assert b[idx[j]] == x;
    }
  }
}
