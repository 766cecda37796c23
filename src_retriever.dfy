/** `deduplicate_and_filter` of the `src` package: the same pass with the
    opposite polarity, dropping a candidate whose score is BELOW the
    threshold (as its test pins down). */
module SrcRetriever {
  import opened Common
  import opened Subsequences
  import opened Selection

  /** One pass over `results`; `pageContent(doc)` is
      `getattr(doc, "page_content", None)`. */
  method DeduplicateAndFilter<D>(results: seq<(D, Score)>, topK: int, threshold: real,
                                 pageContent: D -> Option<string>)
    returns (unique: seq<(D, Score)>)
    ensures unique == Selected(results, topK, DropBelow, threshold, pageContent)
    ensures forall j :: 0 <= j < |unique| ==> unique[j].1.None? || unique[j].1.value >= threshold
    ensures DistinctKeys(unique, pageContent)
    ensures IsSubsequence(unique, results)
    ensures forall j :: 0 <= j < |unique| ==>
              FirstWithKey(Filter(results, DropBelow, threshold), pageContent, pageContent(unique[j].0)) == Some(unique[j])
    ensures topK >= 1 ==> |unique| <= topK
    ensures topK < 1 ==> |unique| <= 1
    ensures |unique| < topK ==>
              forall p :: p in results && Kept(DropBelow, threshold, p.1) ==> pageContent(p.0) in Keys(unique, pageContent)
  {
    unique := [];
    var seen: set<Option<string>> := {};
    for i := 0 to |results|
      invariant unique == Dedup(Filter(results[..i], DropBelow, threshold), pageContent)
      invariant seen == Keys(unique, pageContent)
      invariant |unique| < Cap(topK)
    {
      SelectedStep(results, i, DropBelow, threshold, pageContent);
      var (doc, score) := results[i];
      if score.Some? && score.value < threshold {
        continue;
      }
      var content := pageContent(doc);
      if content !in seen {
        KeysSnoc(unique, (doc, score), pageContent);
        seen := seen + {content};
        unique := unique + [(doc, score)];
      } else {
        KeysNonEmpty(unique, pageContent, content);
      }
      if |unique| >= topK {
        SelectedWhenFull(results, i + 1, topK, DropBelow, threshold, pageContent);
        break;
      }
    }
    assert results[..|results|] == results;
    SelectedWithinThreshold(results, topK, DropBelow, threshold, pageContent);
    SelectedDistinct(results, topK, DropBelow, threshold, pageContent);
    SelectedSubsequence(results, topK, DropBelow, threshold, pageContent);
    SelectedFirstOccurrence(results, topK, DropBelow, threshold, pageContent);
    SelectedComplete(results, topK, DropBelow, threshold, pageContent);
  }

  /** The shape of the test's input: a candidate, a duplicate of it, a
      candidate of another content and one that fails the test. */
  lemma DuplicateThenDistinct<D, K>(a1: (D, Score), a2: (D, Score), b: (D, Score), c: (D, Score),
                                    pol: Polarity, threshold: real, key: D -> K)
    requires Kept(pol, threshold, a1.1) && Kept(pol, threshold, a2.1) && Kept(pol, threshold, b.1)
    requires !Kept(pol, threshold, c.1)
    requires key(a1.0) == key(a2.0) && key(b.0) != key(a1.0)
    ensures Selected([a1, a2, b, c], 2, pol, threshold, key) == [a1, b]
  {
    assert Filter([a1, a2, b, c], pol, threshold) == [a1, a2, b] by {
      assert [] + [a1] == [a1] && [a1] + [a2] == [a1, a2] && [a1, a2] + [b] == [a1, a2, b];
      assert [a1, a2, b] + [c] == [a1, a2, b, c];
      FilterSnoc([], a1, pol, threshold);
      FilterSnoc([a1], a2, pol, threshold);
      FilterSnoc([a1, a2], b, pol, threshold);
      FilterSnoc([a1, a2, b], c, pol, threshold);
    }
    assert Dedup([a1], key) == [a1] by {
      assert [] + [a1] == [a1];
      DedupSnoc([], a1, key);
    }
    assert Dedup([a1, a2], key) == [a1] by {
      assert [a1] + [a2] == [a1, a2];
      KeysMember([a1], key, 0);
      DedupSnoc([a1], a2, key);
    }
    assert Dedup([a1, a2, b], key) == [a1, b] by {
      assert [a1, a2] + [b] == [a1, a2, b];
      assert Keys([a1], key) == {key(a1.0)};
      DedupSnoc([a1, a2], b, key);
    }
  }

  /** The test's case: with `top_k = 2` and threshold 0.7 the result is the
      first A (0.9) and then B (0.8); the second A is a duplicate and C, at
      0.6, is below the threshold. */
  lemma BasicTestCase()
    ensures Selected(TestCandidates(), 2, DropBelow, 0.7, (c: string) => Some(c))
            == [("A", Some(0.9)), ("B", Some(0.8))]
  {
    var key := (c: string) => Some(c);
    assert key("B") != key("A");
    DuplicateThenDistinct(("A", Some(0.9)), ("A", Some(0.95)), ("B", Some(0.8)), ("C", Some(0.6)), DropBelow, 0.7, key);
  }
}
