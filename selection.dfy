/** The candidate selection that every retriever variant performs: one pass
    over scored candidates that skips the ones failing the threshold test,
    keeps the first candidate of each content and stops once `top_k`
    candidates are kept. This module gives that pass an independent,
    non-iterative definition and proves what it guarantees; the retriever
    methods are proved equal to it. */
module Selection {
  import opened Common
  import opened Subsequences

  /** Which side of the threshold a variant throws away. */
  datatype Polarity =
    | DropAbove  // skip when `score > threshold` (keep distances up to the threshold)
    | DropBelow  // skip when `score < threshold`

  /** A candidate survives unless it has a score on the dropped side of the
      threshold; a candidate without a score always survives. */
  predicate Kept(pol: Polarity, threshold: real, score: Score)
  {
    match score
    case None => true
    case Some(d) =>
      match pol
      case DropAbove => !(d > threshold)
      case DropBelow => !(d < threshold)
  }

  /** The candidates that survive the threshold test, in input order. */
  ghost function Filter<D>(s: seq<(D, Score)>, pol: Polarity, threshold: real): seq<(D, Score)>
    decreases |s|
  {
    if s == [] then []
    else
      var f := Filter(s[..|s| - 1], pol, threshold);
      if Kept(pol, threshold, s[|s| - 1].1) then f + [s[|s| - 1]] else f
  }

  /** The contents that occur among the candidates. */
  ghost function Keys<D, K>(s: seq<(D, Score)>, key: D -> K): set<K>
  {
    set p | p in s :: key(p.0)
  }

  /** The candidates with the first occurrence of each content, in input order. */
  ghost function Dedup<D, K>(s: seq<(D, Score)>, key: D -> K): seq<(D, Score)>
    decreases |s|
  {
    if s == [] then []
    else
      var d := Dedup(s[..|s| - 1], key);
      if key(s[|s| - 1].0) in Keys(d, key) then d else d + [s[|s| - 1]]
  }

  /** How many candidates the pass can return: `top_k`, except that the
      `len(unique) >= top_k` test, made after the first kept candidate,
      already stops the pass at one candidate when `top_k <= 0`. */
  function Cap(topK: int): nat
  {
    if topK >= 1 then topK else 1
  }

  /** The result of the pass: at most `Cap(topK)` first occurrences of the
      contents of the surviving candidates. */
  ghost function Selected<D, K>(s: seq<(D, Score)>, topK: int, pol: Polarity, threshold: real, key: D -> K): seq<(D, Score)>
  {
    var all := Dedup(Filter(s, pol, threshold), key);
    if |all| <= Cap(topK) then all else all[..Cap(topK)]
  }

  /** The first candidate, in input order, whose content is `k`. */
  ghost function FirstWithKey<D, K>(s: seq<(D, Score)>, key: D -> K, k: K): Option<(D, Score)>
    decreases |s|
  {
    if s == [] then None
    else
      var f := FirstWithKey(s[..|s| - 1], key, k);
      if f.Some? then f
      else if key(s[|s| - 1].0) == k then Some(s[|s| - 1])
      else None
  }

  /** No two candidates share a content. */
  ghost predicate DistinctKeys<D, K>(s: seq<(D, Score)>, key: D -> K)
  {
    forall i, j :: 0 <= i < j < |s| ==> key(s[i].0) != key(s[j].0)
  }

  // ---- Filter ----

  lemma {:induction false} FilterMembers<D>(s: seq<(D, Score)>, pol: Polarity, threshold: real)
    ensures forall p :: p in Filter(s, pol, threshold) <==> p in s && Kept(pol, threshold, p.1)
    decreases |s|
  {
    if s != [] {
      var front := s[..|s| - 1];
      FilterMembers(front, pol, threshold);
      assert s == front + [s[|s| - 1]];
    }
  }

  lemma {:induction false} FilterSubsequence<D>(s: seq<(D, Score)>, pol: Polarity, threshold: real)
    ensures IsSubsequence(Filter(s, pol, threshold), s)
    decreases |s|
  {
    if s == [] {
      EmptySubsequence(s);
    } else {
      var front := s[..|s| - 1];
      FilterSubsequence(front, pol, threshold);
      SubsequenceSnoc(Filter(front, pol, threshold), front, s[|s| - 1]);
      assert s == front + [s[|s| - 1]];
    }
  }

  /** Filtering a prefix gives a prefix of the filtered whole. */
  lemma {:induction false} FilterPrefix<D>(s: seq<(D, Score)>, j: nat, pol: Polarity, threshold: real)
    requires j <= |s|
    ensures Filter(s[..j], pol, threshold) <= Filter(s, pol, threshold)
    decreases |s|
  {
    if j < |s| {
      var front := s[..|s| - 1];
      assert front[..j] == s[..j];
      FilterPrefix(front, j, pol, threshold);
    } else {
      assert s[..j] == s;
    }
  }

  // ---- Dedup ----

  lemma KeysMember<D, K>(s: seq<(D, Score)>, key: D -> K, i: int)
    requires 0 <= i < |s|
    ensures key(s[i].0) in Keys(s, key)
  {
    assert s[i] in s;
  }

  /** The threshold test applied to one more candidate. */
  lemma FilterSnoc<D>(s: seq<(D, Score)>, x: (D, Score), pol: Polarity, threshold: real)
    ensures Filter(s + [x], pol, threshold) ==
              if Kept(pol, threshold, x.1) then Filter(s, pol, threshold) + [x] else Filter(s, pol, threshold)
  {
    assert (s + [x])[..|s|] == s;
  }

  /** Deduplication applied to one more candidate. */
  lemma DedupSnoc<D, K>(s: seq<(D, Score)>, x: (D, Score), key: D -> K)
    ensures Dedup(s + [x], key) ==
              if key(x.0) in Keys(Dedup(s, key), key) then Dedup(s, key) else Dedup(s, key) + [x]
  {
    assert (s + [x])[..|s|] == s;
  }

  lemma KeysNonEmpty<D, K>(s: seq<(D, Score)>, key: D -> K, k: K)
    requires k in Keys(s, key)
    ensures |s| >= 1
  {
    var p :| p in s && key(p.0) == k;
  }

  lemma KeysSnoc<D, K>(s: seq<(D, Score)>, x: (D, Score), key: D -> K)
    ensures Keys(s + [x], key) == Keys(s, key) + {key(x.0)}
  {
    assert x in s + [x];
    forall p | p in s ensures p in s + [x] { }
    forall p | p in s + [x] ensures p in s || p == x { }
  }

  lemma {:induction false} DedupKeys<D, K>(s: seq<(D, Score)>, key: D -> K)
    ensures Keys(Dedup(s, key), key) == Keys(s, key)
    decreases |s|
  {
    if s != [] {
      var front := s[..|s| - 1];
      var x := s[|s| - 1];
      DedupKeys(front, key);
      assert s == front + [x];
      KeysSnoc(front, x, key);
      KeysSnoc(Dedup(front, key), x, key);
    }
  }

  lemma {:induction false} DedupDistinct<D, K>(s: seq<(D, Score)>, key: D -> K)
    ensures DistinctKeys(Dedup(s, key), key)
    decreases |s|
  {
    if s != [] {
      var front := s[..|s| - 1];
      var x := s[|s| - 1];
      var d := Dedup(front, key);
      DedupDistinct(front, key);
      if key(x.0) !in Keys(d, key) {
        forall i | 0 <= i < |d| ensures key(d[i].0) != key(x.0) {
          KeysMember(d, key, i);
        }
      }
    }
  }

  lemma {:induction false} DedupSubsequence<D, K>(s: seq<(D, Score)>, key: D -> K)
    ensures IsSubsequence(Dedup(s, key), s)
    decreases |s|
  {
    if s == [] {
      EmptySubsequence(s);
    } else {
      var front := s[..|s| - 1];
      DedupSubsequence(front, key);
      SubsequenceSnoc(Dedup(front, key), front, s[|s| - 1]);
      assert s == front + [s[|s| - 1]];
    }
  }

  /** Deduplicating a prefix gives a prefix of the deduplicated whole. */
  lemma {:induction false} DedupPrefix<D, K>(u: seq<(D, Score)>, w: seq<(D, Score)>, key: D -> K)
    requires u <= w
    ensures Dedup(u, key) <= Dedup(w, key)
    decreases |w|
  {
    if |u| < |w| {
      var front := w[..|w| - 1];
      assert u <= front;
      DedupPrefix(u, front, key);
    } else {
      assert u == w;
    }
  }

  lemma {:induction false} FirstNoneIff<D, K>(s: seq<(D, Score)>, key: D -> K, k: K)
    ensures FirstWithKey(s, key, k) == None <==> k !in Keys(s, key)
    decreases |s|
  {
    if s != [] {
      var front := s[..|s| - 1];
      FirstNoneIff(front, key, k);
      assert s == front + [s[|s| - 1]];
      KeysSnoc(front, s[|s| - 1], key);
    }
  }

  lemma {:induction false} FirstMember<D, K>(s: seq<(D, Score)>, key: D -> K, k: K)
    ensures FirstWithKey(s, key, k).Some? ==>
              FirstWithKey(s, key, k).value in s && key(FirstWithKey(s, key, k).value.0) == k
    decreases |s|
  {
    if s != [] {
      var front := s[..|s| - 1];
      FirstMember(front, key, k);
      assert s == front + [s[|s| - 1]];
    }
  }

  /** What deduplication keeps of a content is its first occurrence. */
  lemma {:induction false} DedupFirst<D, K>(s: seq<(D, Score)>, key: D -> K)
    ensures forall j :: 0 <= j < |Dedup(s, key)| ==>
              FirstWithKey(s, key, key(Dedup(s, key)[j].0)) == Some(Dedup(s, key)[j])
    decreases |s|
  {
    if s != [] {
      var front := s[..|s| - 1];
      var x := s[|s| - 1];
      var d := Dedup(front, key);
      DedupFirst(front, key);
      if key(x.0) !in Keys(d, key) {
        DedupKeys(front, key);
        FirstNoneIff(front, key, key(x.0));
      }
    }
  }

  // ---- Selected ----

  /** Every selected candidate passes the threshold test. */
  lemma SelectedWithinThreshold<D, K>(s: seq<(D, Score)>, topK: int, pol: Polarity, threshold: real, key: D -> K)
    ensures var r := Selected(s, topK, pol, threshold, key);
      forall j :: 0 <= j < |r| ==> Kept(pol, threshold, r[j].1)
  {
    var f := Filter(s, pol, threshold);
    var r := Selected(s, topK, pol, threshold, key);
    FilterMembers(s, pol, threshold);
    DedupSubsequence(f, key);
    SubsequenceMembers(Dedup(f, key), f);
    forall j | 0 <= j < |r| ensures Kept(pol, threshold, r[j].1) {
      assert r[j] in Dedup(f, key);
    }
  }

  /** No two selected candidates share a content. */
  lemma SelectedDistinct<D, K>(s: seq<(D, Score)>, topK: int, pol: Polarity, threshold: real, key: D -> K)
    ensures DistinctKeys(Selected(s, topK, pol, threshold, key), key)
  {
    DedupDistinct(Filter(s, pol, threshold), key);
  }

  /** The selection keeps the input's order and invents nothing. */
  lemma SelectedSubsequence<D, K>(s: seq<(D, Score)>, topK: int, pol: Polarity, threshold: real, key: D -> K)
    ensures IsSubsequence(Selected(s, topK, pol, threshold, key), s)
  {
    var f := Filter(s, pol, threshold);
    var d := Dedup(f, key);
    FilterSubsequence(s, pol, threshold);
    DedupSubsequence(f, key);
    SubsequenceTransitive(d, f, s);
    if |d| > Cap(topK) {
      PrefixSubsequence(d, Cap(topK));
      SubsequenceTransitive(d[..Cap(topK)], d, s);
    }
  }

  /** Each selected candidate is the first candidate of its content that
      passes the threshold test. */
  lemma SelectedFirstOccurrence<D, K>(s: seq<(D, Score)>, topK: int, pol: Polarity, threshold: real, key: D -> K)
    ensures var r := Selected(s, topK, pol, threshold, key);
      forall j :: 0 <= j < |r| ==> FirstWithKey(Filter(s, pol, threshold), key, key(r[j].0)) == Some(r[j])
  {
    DedupFirst(Filter(s, pol, threshold), key);
  }

  /** A selection shorter than the cap left no content behind: every content
      of a candidate passing the threshold test is among the selected. */
  lemma SelectedComplete<D, K>(s: seq<(D, Score)>, topK: int, pol: Polarity, threshold: real, key: D -> K)
    ensures var r := Selected(s, topK, pol, threshold, key);
      |r| < Cap(topK) ==>
        forall p :: p in s && Kept(pol, threshold, p.1) ==> key(p.0) in Keys(r, key)
  {
    var f := Filter(s, pol, threshold);
    FilterMembers(s, pol, threshold);
    DedupKeys(f, key);
    forall p | p in s && Kept(pol, threshold, p.1) ensures key(p.0) in Keys(f, key) {
      assert p in f;
    }
  }

  /** What the pass keeps from the first `j` candidates, before and after
      the cap, is a prefix of what it keeps from all of them. */
  lemma SelectedOfPrefix<D, K>(s: seq<(D, Score)>, j: nat, pol: Polarity, threshold: real, key: D -> K)
    requires j <= |s|
    ensures Dedup(Filter(s[..j], pol, threshold), key) <= Dedup(Filter(s, pol, threshold), key)
    ensures forall topK :: Selected(s[..j], topK, pol, threshold, key) <= Selected(s, topK, pol, threshold, key)
  {
    FilterPrefix(s, j, pol, threshold);
    DedupPrefix(Filter(s[..j], pol, threshold), Filter(s, pol, threshold), key);
  }

  /** Once the pass has kept `Cap(top_k)` candidates after the first `j`
      inputs, that is the whole selection. */
  lemma SelectedWhenFull<D, K>(s: seq<(D, Score)>, j: nat, topK: int, pol: Polarity, threshold: real, key: D -> K)
    requires j <= |s|
    requires var d := Dedup(Filter(s[..j], pol, threshold), key);
      1 <= |d| <= Cap(topK) && topK <= |d|
    ensures Selected(s, topK, pol, threshold, key) == Dedup(Filter(s[..j], pol, threshold), key)
  {
    SelectedOfPrefix(s, j, pol, threshold, key);
  }

  /** One more candidate extends the pass in the way the loop does. */
  lemma SelectedStep<D, K>(s: seq<(D, Score)>, i: nat, pol: Polarity, threshold: real, key: D -> K)
    requires i < |s|
    ensures var d := Dedup(Filter(s[..i], pol, threshold), key);
      Dedup(Filter(s[..i + 1], pol, threshold), key) ==
        if !Kept(pol, threshold, s[i].1) then d
        else if key(s[i].0) in Keys(d, key) then d
        else d + [s[i]]
  {
    assert s[..i + 1][..i] == s[..i];
  }

  /** The candidates of the retriever test: documents whose content is the
      given letter. */
  function TestCandidates(): seq<(string, Score)>
  {
    [("A", Some(0.9)), ("A", Some(0.95)), ("B", Some(0.8)), ("C", Some(0.6))]
  }
}
