/** `deduplicate_and_filter` of the `code` package: drops a candidate whose
    distance is above the threshold. */
module CodeRetriever {
  import opened Common
  import opened Subsequences
  import opened Selection

  /** One pass over `results`. `pageContent(doc)` is what
      `getattr(doc, "page_content", None)` gives for a candidate, so every
      candidate without that attribute has the content key None. */
  method DeduplicateAndFilter<D>(results: seq<(D, Score)>, topK: int, threshold: real,
                                 pageContent: D -> Option<string>)
    returns (unique: seq<(D, Score)>)
    ensures unique == Selected(results, topK, DropAbove, threshold, pageContent)
    ensures forall j :: 0 <= j < |unique| ==> unique[j].1.None? || unique[j].1.value <= threshold
    ensures DistinctKeys(unique, pageContent)
    ensures IsSubsequence(unique, results)
    ensures forall j :: 0 <= j < |unique| ==>
              FirstWithKey(Filter(results, DropAbove, threshold), pageContent, pageContent(unique[j].0)) == Some(unique[j])
    ensures topK >= 1 ==> |unique| <= topK
    ensures topK < 1 ==> |unique| <= 1
    ensures |unique| < topK ==>
              forall p :: p in results && Kept(DropAbove, threshold, p.1) ==> pageContent(p.0) in Keys(unique, pageContent)
  {
    unique := [];
    var seen: set<Option<string>> := {};
    for i := 0 to |results|
      invariant unique == Dedup(Filter(results[..i], DropAbove, threshold), pageContent)
      invariant seen == Keys(unique, pageContent)
      invariant |unique| < Cap(topK)
    {
      SelectedStep(results, i, DropAbove, threshold, pageContent);
      var (doc, score) := results[i];
      if score.Some? && score.value > threshold {
        continue;
      }
      var content := pageContent(doc);
      if content !in seen {
        KeysSnoc(unique, (doc, score), pageContent);
        seen := seen + {content};
        unique := unique + [(doc, score)];
      } else {
        KeysNonEmpty(unique, pageContent, content);
      }
      if |unique| >= topK {
        SelectedWhenFull(results, i + 1, topK, DropAbove, threshold, pageContent);
        break;
      }
    }
    assert results[..|results|] == results;
    SelectedWithinThreshold(results, topK, DropAbove, threshold, pageContent);
    SelectedDistinct(results, topK, DropAbove, threshold, pageContent);
    SelectedSubsequence(results, topK, DropAbove, threshold, pageContent);
    SelectedFirstOccurrence(results, topK, DropAbove, threshold, pageContent);
    SelectedComplete(results, topK, DropAbove, threshold, pageContent);
  }

  /** The retriever test's candidates under this variant's polarity: with
      threshold 0.7 only C (0.6) is close enough, so it alone comes back. */
  lemma OppositePolarityCase()
    ensures Selected(TestCandidates(), 2, DropAbove, 0.7, (c: string) => Some(c))
            == [("C", Some(0.6))]
  {
    var key := (c: string) => Some(c);
    var a1: (string, Score) := ("A", Some(0.9));
    var a2: (string, Score) := ("A", Some(0.95));
    var b: (string, Score) := ("B", Some(0.8));
    var c: (string, Score) := ("C", Some(0.6));
    assert TestCandidates() == [a1, a2, b, c];
    assert [a1, a2, b, c] == [a1, a2, b] + [c];
    assert [] + [a1] == [a1] && [a1] + [a2] == [a1, a2] && [a1, a2] + [b] == [a1, a2, b];
    FilterSnoc([], a1, DropAbove, 0.7);
    FilterSnoc([a1], a2, DropAbove, 0.7);
    FilterSnoc([a1, a2], b, DropAbove, 0.7);
    assert Filter([a1], DropAbove, 0.7) == [];
    FilterSnoc([a1, a2, b], c, DropAbove, 0.7);
    assert Filter([a1, a2, b, c], DropAbove, 0.7) == [] + [c];
    DedupSnoc([], c, key);
  }
}
