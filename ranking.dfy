/** The ordering `retrieve_relevant_chunks` imposes before its pass:
    `sorted(results, key=lambda x: (x[1] is None, x[1]))`, a stable sort
    putting numeric distances first, in ascending order, and candidates
    without a distance last. */
module Ranking {
  import opened Common

  /** The order of the sort key `(score is None, score)`. */
  predicate ScoreLe(a: Score, b: Score)
  {
    match a
    case None => b.None?
    case Some(x) => b.None? || x <= b.value
  }

  /** Numeric scores non-decreasing, and every None after every number. */
  ghost predicate Sorted<D>(s: seq<(D, Score)>)
  {
    forall i, j :: 0 <= i < j < |s| ==> ScoreLe(s[i].1, s[j].1)
  }

  /** The candidates of `s` that carry score `k`, in order. */
  ghost function WithScore<D>(s: seq<(D, Score)>, k: Score): seq<(D, Score)>
    decreases |s|
  {
    if s == [] then []
    else (if s[0].1 == k then [s[0]] else []) + WithScore(s[1..], k)
  }

  /** Puts `x` before the first element that does not come strictly before it. */
  function Insert<D>(x: (D, Score), s: seq<(D, Score)>): seq<(D, Score)>
    decreases |s|
  {
    if s == [] then [x]
    else if ScoreLe(x.1, s[0].1) then [x] + s
    else [s[0]] + Insert(x, s[1..])
  }

  /** Python's `sorted` with the key above (insertion sort; Timsort computes
      the same list, since a stable sort by a key is unique: `SortUnique`). */
  function SortByScore<D>(s: seq<(D, Score)>): seq<(D, Score)>
    decreases |s|
  {
    if s == [] then [] else Insert(s[0], SortByScore(s[1..]))
  }

  lemma {:induction false} InsertPermutation<D>(x: (D, Score), s: seq<(D, Score)>)
    ensures multiset(Insert(x, s)) == multiset(s) + multiset{x}
    decreases |s|
  {
    if s != [] && !ScoreLe(x.1, s[0].1) {
      InsertPermutation(x, s[1..]);
      assert s == [s[0]] + s[1..];
    }
  }

  /** A bound below `x` and below every element of `s` is below every
      element of `Insert(x, s)`. */
  lemma {:induction false} InsertLowerBound<D>(x: (D, Score), s: seq<(D, Score)>, b: Score)
    requires ScoreLe(b, x.1)
    requires forall j :: 0 <= j < |s| ==> ScoreLe(b, s[j].1)
    ensures forall j :: 0 <= j < |Insert(x, s)| ==> ScoreLe(b, Insert(x, s)[j].1)
    decreases |s|
  {
    if s != [] && !ScoreLe(x.1, s[0].1) {
      InsertLowerBound(x, s[1..], b);
      assert Insert(x, s) == [s[0]] + Insert(x, s[1..]);
    }
  }

  lemma {:induction false} InsertSorted<D>(x: (D, Score), s: seq<(D, Score)>)
    requires Sorted(s)
    ensures Sorted(Insert(x, s))
    decreases |s|
  {
    if s != [] && !ScoreLe(x.1, s[0].1) {
      var rest := s[1..];
      assert Sorted(rest);
      InsertSorted(x, rest);
      assert forall j :: 0 <= j < |rest| ==> ScoreLe(s[0].1, rest[j].1) by {
        forall j | 0 <= j < |rest| ensures ScoreLe(s[0].1, rest[j].1) {
          assert rest[j] == s[j + 1];
        }
      }
      InsertLowerBound(x, rest, s[0].1);
      assert Insert(x, s) == [s[0]] + Insert(x, rest);
    }
  }

  lemma {:induction false} InsertWithScore<D>(x: (D, Score), s: seq<(D, Score)>, k: Score)
    ensures WithScore(Insert(x, s), k) == (if x.1 == k then [x] else []) + WithScore(s, k)
    decreases |s|
  {
    if s == [] {
      assert WithScore([x], k) == (if x.1 == k then [x] else []) + WithScore([x][1..], k);
    } else if ScoreLe(x.1, s[0].1) {
      assert ([x] + s)[1..] == s;
    } else {
      InsertWithScore(x, s[1..], k);
      var t := [s[0]] + Insert(x, s[1..]);
      assert t[1..] == Insert(x, s[1..]);
      assert s[0].1 != x.1;
    }
  }

  /** The sort returns the same candidates, each as often as before. */
  lemma {:induction false} SortPermutation<D>(s: seq<(D, Score)>)
    ensures multiset(SortByScore(s)) == multiset(s)
    decreases |s|
  {
    if s != [] {
      SortPermutation(s[1..]);
      InsertPermutation(s[0], SortByScore(s[1..]));
      assert s == [s[0]] + s[1..];
    }
  }

  /** The sort puts numeric scores in ascending order and None scores last. */
  lemma {:induction false} SortSorted<D>(s: seq<(D, Score)>)
    ensures Sorted(SortByScore(s))
    decreases |s|
  {
    if s != [] {
      SortSorted(s[1..]);
      InsertSorted(s[0], SortByScore(s[1..]));
    }
  }

  /** The sort is stable: candidates with equal scores keep their order. */
  lemma {:induction false} SortStable<D>(s: seq<(D, Score)>, k: Score)
    ensures WithScore(SortByScore(s), k) == WithScore(s, k)
    decreases |s|
  {
    if s != [] {
      SortStable(s[1..], k);
      InsertWithScore(s[0], SortByScore(s[1..]), k);
    }
  }

  /** The candidates with score `k` are exactly the members of `s` with
      that score. */
  lemma {:induction false} WithScoreMembers<D>(s: seq<(D, Score)>, k: Score)
    ensures forall x :: x in WithScore(s, k) <==> x in s && x.1 == k
    decreases |s|
  {
    if s != [] {
      WithScoreMembers(s[1..], k);
      assert s == [s[0]] + s[1..];
    }
  }

  /** Dropping the head of a sorted list leaves it sorted. */
  lemma SortedTail<D>(t: seq<(D, Score)>)
    requires t != [] && Sorted(t)
    ensures Sorted(t[1..])
  {
    var r := t[1..];
    forall p, q | 0 <= p < q < |r| ensures ScoreLe(r[p].1, r[q].1) {
      assert r[p] == t[p + 1] && r[q] == t[q + 1];
    }
  }

  /** A member of a sorted list has a score no smaller than the head's. */
  lemma SortedHeadLeast<D>(t: seq<(D, Score)>, x: (D, Score))
    requires Sorted(t) && x in t
    ensures ScoreLe(t[0].1, x.1)
  {
    var i :| 0 <= i < |t| && t[i] == x;
    if i > 0 {
      assert ScoreLe(t[0].1, t[i].1);
    }
  }

  /** Two non-empty sorted lists that agree score by score have the same head. */
  lemma SortedHeads<D>(t1: seq<(D, Score)>, t2: seq<(D, Score)>)
    requires t1 != [] && t2 != [] && Sorted(t1) && Sorted(t2)
    requires forall k :: WithScore(t1, k) == WithScore(t2, k)
    ensures t1[0] == t2[0]
  {
    var a, b := t1[0].1, t2[0].1;
    WithScoreMembers(t1, b);
    WithScoreMembers(t2, b);
    SortedHeadLeast(t1, t2[0]);
    WithScoreMembers(t1, a);
    WithScoreMembers(t2, a);
    SortedHeadLeast(t2, t1[0]);
    assert a == b;
    assert WithScore(t1, a)[0] == t1[0];
    assert WithScore(t2, a)[0] == t2[0];
  }

  /** Candidates with score `k` in a list without its head. */
  lemma WithScoreTail<D>(t: seq<(D, Score)>, k: Score)
    requires t != []
    ensures WithScore(t[1..], k) == if t[0].1 == k then WithScore(t, k)[1..] else WithScore(t, k)
  {
  }

  /** Two sorted lists that agree, score by score, on which candidates they
      hold and in which order are the same list. */
  lemma {:induction false} SortedEqual<D>(t1: seq<(D, Score)>, t2: seq<(D, Score)>)
    requires Sorted(t1) && Sorted(t2)
    requires forall k :: WithScore(t1, k) == WithScore(t2, k)
    ensures t1 == t2
    decreases |t1| + |t2|
  {
    if t1 != [] {
      WithScoreMembers(t1, t1[0].1);
      WithScoreMembers(t2, t1[0].1);
      assert t1[0] in t2;
    }
    if t2 != [] {
      WithScoreMembers(t1, t2[0].1);
      WithScoreMembers(t2, t2[0].1);
      assert t2[0] in t1;
    }
    if t1 != [] && t2 != [] {
      SortedHeads(t1, t2);
      forall k ensures WithScore(t1[1..], k) == WithScore(t2[1..], k) {
        WithScoreTail(t1, k);
        WithScoreTail(t2, k);
      }
      SortedTail(t1);
      SortedTail(t2);
      SortedEqual(t1[1..], t2[1..]);
      assert t1 == [t1[0]] + t1[1..];
      assert t2 == [t2[0]] + t2[1..];
    }
  }

  /** The sort is the only stable sort by the key: any sorted list that holds,
      score by score, the input's candidates in input order is its result.
      So every stable sort, Timsort included, returns `SortByScore(s)`. */
  lemma SortUnique<D>(s: seq<(D, Score)>, t: seq<(D, Score)>)
    requires Sorted(t)
    requires forall k :: WithScore(t, k) == WithScore(s, k)
    ensures t == SortByScore(s)
  {
    SortSorted(s);
    forall k ensures WithScore(SortByScore(s), k) == WithScore(s, k) {
      SortStable(s, k);
    }
    SortedEqual(t, SortByScore(s));
  }
}
