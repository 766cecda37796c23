/** `retrieve_relevant_chunks` and `respond_to_query`: the question-answering
    pipeline that ranks the store's candidates by distance, keeps the
    closest distinct chunks under the threshold, builds the grounded prompt
    and asks the language model only when there is context to ground it. */
module RetrievalAndResponse {
  import opened Common
  import opened Subsequences
  import opened Selection
  import opened Ranking
  import opened VectorDbIngestion
  import opened PromptBuilder

  /** `similarity_search_with_score(query, k=...)` of a store: the vector
      search itself is not modelled, so it is a parameter. */
  type Search = (DbHandle, string, int) -> seq<(Document, Score)>

  /** What a language model call gives back: the reply message, or the
      message of the exception it raised. */
  datatype Reply = Replied(content: string) | Raised(message: string)

  /** What `respond_to_query` returns: one of its fixed notices, an error
      text, or the reply message of the model. */
  datatype Response = Notice(text: string) | Answered(content: string)

  /** The inputs the pipeline takes from its surroundings: the API key from
      the environment, the data directory, the text splitter, what opening
      the persisted store gives, and the store's search. */
  datatype Environment = Environment(
    groqKey: Option<string>,
    listing: seq<DirEntry>,
    split: Splitter,
    opening: Opening,
    search: Search)

  const MissingKeyText: string := "Error: GROQ_API_KEY missing."
  const NoContextText: string := "No relevant information found."

  /** The candidate pool: the search asks for five times `top_k` candidates. */
  function Pool(db: DbHandle, query: string, topK: int, search: Search): seq<(Document, Score)>
  {
    search(db, query, topK * 5)
  }

  /** What `retrieve_relevant_chunks` returns: nothing without a usable
      store (`not vector_db`), otherwise the selection, keyed on page content, from the pool sorted by
      distance with candidates without a distance last. */
  ghost function Retrieved(vectorDb: Option<DbHandle>, query: string, topK: int, threshold: real, search: Search)
    : seq<(Document, Score)>
  {
    if !Usable(vectorDb) then []
    else Selected(SortByScore(Pool(vectorDb.value, query, topK, search)), topK, DropAbove, threshold, PageContent)
  }

  /** `retrieve_relevant_chunks`: without a usable store nothing; otherwise the
      pool is sorted and passed over. */
  method RetrieveRelevantChunks(vectorDb: Option<DbHandle>, query: string, topK: int, threshold: real, search: Search)
    returns (contexts: seq<(Document, Score)>)
    ensures contexts == Retrieved(vectorDb, query, topK, threshold, search)
  {
    if !Usable(vectorDb) {
      return [];
    }
    var results := SortByScore(search(vectorDb.value, query, topK * 5));
    contexts := DistinctContexts(results, topK, threshold, PageContent);
  }

  /** The loop of `retrieve_relevant_chunks` over the sorted candidates;
      `content(doc)` is `doc.page_content`. */
  method DistinctContexts<D>(results: seq<(D, Score)>, topK: int, threshold: real, content: D -> string)
    returns (contexts: seq<(D, Score)>)
    ensures contexts == Selected(results, topK, DropAbove, threshold, content)
  {
    contexts := [];
    var seen: set<string> := {};
    for i := 0 to |results|
      invariant contexts == Dedup(Filter(results[..i], DropAbove, threshold), content)
      invariant seen == Keys(contexts, content)
      invariant |contexts| < Cap(topK)
    {
      SelectedStep(results, i, DropAbove, threshold, content);
      var (doc, score) := results[i];
      if score.Some? && score.value > threshold {
        continue;
      }
      if content(doc) !in seen {
        KeysSnoc(contexts, (doc, score), content);
        seen := seen + {content(doc)};
        contexts := contexts + [(doc, score)];
      } else {
        KeysNonEmpty(contexts, content, content(doc));
      }
      if |contexts| >= topK {
        SelectedWhenFull(results, i + 1, topK, DropAbove, threshold, content);
        break;
      }
    }
    assert results[..|results|] == results;
  }

  // ---- What the retrieved contexts satisfy ----

  lemma ScoreLeReflexive(a: Score)
    ensures ScoreLe(a, a)
  {
  }

  /** A subsequence of a sorted list is sorted. */
  lemma SortedSubsequence<D>(a: seq<(D, Score)>, b: seq<(D, Score)>)
    requires IsSubsequence(a, b) && Sorted(b)
    ensures Sorted(a)
  {
    var idx :| Embedding(a, b, idx);
    forall i, j | 0 <= i < j < |a| ensures ScoreLe(a[i].1, a[j].1) {
      assert a[i] == b[idx[i]] && a[j] == b[idx[j]];
    }
  }

  /** In a sorted list, the first candidate of a content has the lowest
      distance among the candidates of that content. */
  lemma {:induction false} FirstWithKeyLeast<D, K>(s: seq<(D, Score)>, key: D -> K, p: (D, Score))
    requires Sorted(s) && p in s
    ensures FirstWithKey(s, key, key(p.0)).Some?
    ensures ScoreLe(FirstWithKey(s, key, key(p.0)).value.1, p.1)
    decreases |s|
  {
    var front := s[..|s| - 1];
    var last := s[|s| - 1];
    assert s == front + [last];
    var f := FirstWithKey(front, key, key(p.0));
    if p in front {
      FirstWithKeyLeast(front, key, p);
    } else if f.Some? {
      FirstMember(front, key, key(p.0));
      var i :| 0 <= i < |front| && front[i] == f.value;
      assert s[i] == f.value && p == s[|s| - 1];
    } else {
      ScoreLeReflexive(p.1);
    }
  }

  /** The contexts come back ordered by distance, closest first. */
  lemma RetrievedSorted(vectorDb: Option<DbHandle>, query: string, topK: int, threshold: real, search: Search)
    ensures Sorted(Retrieved(vectorDb, query, topK, threshold, search))
  {
    if Usable(vectorDb) {
      var sorted := SortByScore(Pool(vectorDb.value, query, topK, search));
      SortSorted(Pool(vectorDb.value, query, topK, search));
      SelectedSubsequence(sorted, topK, DropAbove, threshold, PageContent);
      SortedSubsequence(Retrieved(vectorDb, query, topK, threshold, search), sorted);
    }
  }

  /** Without a store nothing is retrieved; with one, every context is a
      candidate of the pool whose distance, if any, is within the threshold,
      no two contexts share a page content, and there are at most `top_k`
      of them (at most one when `top_k <= 0`). */
  lemma RetrievedFromPool(vectorDb: Option<DbHandle>, query: string, topK: int, threshold: real, search: Search)
    ensures !Usable(vectorDb) ==> Retrieved(vectorDb, query, topK, threshold, search) == []
    ensures Usable(vectorDb) ==>
      var r := Retrieved(vectorDb, query, topK, threshold, search);
      && (forall j :: 0 <= j < |r| ==> r[j] in Pool(vectorDb.value, query, topK, search))
      && (forall j :: 0 <= j < |r| ==> r[j].1.None? || r[j].1.value <= threshold)
      && DistinctKeys(r, PageContent)
      && |r| <= Cap(topK)
  {
    if Usable(vectorDb) {
      var pool := Pool(vectorDb.value, query, topK, search);
      var sorted := SortByScore(pool);
      var r := Retrieved(vectorDb, query, topK, threshold, search);
      SortPermutation(pool);
      SelectedSubsequence(sorted, topK, DropAbove, threshold, PageContent);
      SubsequenceMembers(r, sorted);
      forall j | 0 <= j < |r| ensures r[j] in pool {
        assert r[j] in multiset(sorted);
      }
      SelectedWithinThreshold(sorted, topK, DropAbove, threshold, PageContent);
      SelectedDistinct(sorted, topK, DropAbove, threshold, PageContent);
    }
  }

  /** Of the pool's candidates with the same page content, the one kept has
      the lowest distance of those within the threshold. */
  lemma RetrievedClosest(vectorDb: Option<DbHandle>, query: string, topK: int, threshold: real, search: Search)
    requires Usable(vectorDb)
    ensures var r := Retrieved(vectorDb, query, topK, threshold, search);
      forall j, p ::
        (0 <= j < |r| && p in Pool(vectorDb.value, query, topK, search) &&
         Kept(DropAbove, threshold, p.1) && p.0.pageContent == r[j].0.pageContent)
        ==> ScoreLe(r[j].1, p.1)
  {
    var pool := Pool(vectorDb.value, query, topK, search);
    var sorted := SortByScore(pool);
    var f := Filter(sorted, DropAbove, threshold);
    var r := Retrieved(vectorDb, query, topK, threshold, search);
    SortPermutation(pool);
    SortSorted(pool);
    FilterSubsequence(sorted, DropAbove, threshold);
    SortedSubsequence(f, sorted);
    FilterMembers(sorted, DropAbove, threshold);
    SelectedFirstOccurrence(sorted, topK, DropAbove, threshold, PageContent);
    forall j, p | 0 <= j < |r| && p in pool && Kept(DropAbove, threshold, p.1) && p.0.pageContent == r[j].0.pageContent
      ensures ScoreLe(r[j].1, p.1)
    {
      assert p in multiset(sorted);
      assert p in f;
      FirstWithKeyLeast(f, PageContent, p);
    }
  }

  /** Fewer than `top_k` contexts means that every page content of a pool
      candidate within the threshold is among them. */
  lemma RetrievedComplete(vectorDb: Option<DbHandle>, query: string, topK: int, threshold: real, search: Search)
    requires Usable(vectorDb)
    ensures var r := Retrieved(vectorDb, query, topK, threshold, search);
      |r| < topK ==>
        forall p :: p in Pool(vectorDb.value, query, topK, search) && Kept(DropAbove, threshold, p.1) ==>
          p.0.pageContent in Keys(r, PageContent)
  {
    var pool := Pool(vectorDb.value, query, topK, search);
    var sorted := SortByScore(pool);
    SortPermutation(pool);
    SelectedComplete(sorted, topK, DropAbove, threshold, PageContent);
    forall p | p in pool ensures p in sorted {
      assert p in multiset(sorted);
    }
  }

  // ---- The language model ----

  /** A chat model whose reply to each prompt is fixed by `reply`; `prompts`
      records every prompt it was sent, in order. */
  class ChatModel {
    const reply: string -> Reply
    var prompts: seq<string>

    constructor (reply: string -> Reply)
      ensures this.reply == reply && prompts == []
    {
      this.reply := reply;
      prompts := [];
    }

    /** `llm.invoke(prompt)`. */
    method Invoke(prompt: string) returns (r: Reply)
      modifies this
      ensures prompts == old(prompts) + [prompt]
      ensures r == reply(prompt)
    {
      prompts := prompts + [prompt];
      r := reply(prompt);
    }
  }

  // ---- respond_to_query ----

  /** `if not groq_key`: the key is unset or empty. */
  predicate KeyMissing(env: Environment)
  {
    env.groqKey.None? || env.groqKey.value == ""
  }

  /** The handle a fresh default manager holds after `load_db` and, when
      that left no usable store (opening raised, or the collection is empty,
      as on a first run), `embed_and_insert` with its default chunk sizes. */
  ghost function StartupHandle(env: Environment): Option<DbHandle>
  {
    var loaded := match env.opening
                  case OpenRaises => None
                  case OpensWith(n) => Some(Opened("chroma_db", "ethiopian_history", n));
    if Usable(loaded) then loaded
    else
      var docs := CorpusDocuments(env.listing, env.split, 1000, 200);
      if docs != [] then Some(Built(docs, "chroma_db", "ethiopian_history")) else loaded
  }

  /** Startup ends with a usable store exactly when the persisted collection
      opens with documents in it or the data directory yields documents, so
      a first run, which opens an empty collection, builds the store. */
  lemma StartupUsable(env: Environment)
    ensures Usable(StartupHandle(env)) <==>
              (env.opening.OpensWith? && env.opening.count > 0) ||
              CorpusDocuments(env.listing, env.split, 1000, 200) != []
    ensures env.opening.OpensWith? && env.opening.count == 0 ==>
              StartupHandle(env) == (var docs := CorpusDocuments(env.listing, env.split, 1000, 200);
                                     if docs != [] then Some(Built(docs, "chroma_db", "ethiopian_history"))
                                     else Some(Opened("chroma_db", "ethiopian_history", 0)))
  {
  }

  /** The contexts `respond_to_query` grounds its prompt on. */
  ghost function Contexts(query: string, topK: int, threshold: real, env: Environment): seq<(Document, Score)>
  {
    Retrieved(StartupHandle(env), query, topK, threshold, env.search)
  }

  /** The prompt sent to the model, if one is sent at all. */
  ghost function PromptSent(query: string, topK: int, threshold: real, env: Environment): Option<string>
  {
    if KeyMissing(env) then None
    else
      var docs := Contexts(query, topK, threshold, env);
      if docs == [] then None else Some(BuildPrompt(query, docs))
  }

  /** What `respond_to_query` returns, given the model's reply function. */
  ghost function Answer(query: string, topK: int, threshold: real, env: Environment, reply: string -> Reply): Response
  {
    if KeyMissing(env) then Notice(MissingKeyText)
    else match PromptSent(query, topK, threshold, env)
      case None => Notice(NoContextText)
      case Some(p) =>
        match reply(p)
        case Replied(c) => Answered(c)
        case Raised(e) => Notice("Error: " + e)
  }

  method RespondToQuery(query: string, topK: int, threshold: real, env: Environment, llm: ChatModel)
    returns (response: Response)
    modifies llm
    ensures response == Answer(query, topK, threshold, env, llm.reply)
    ensures llm.prompts == old(llm.prompts) + match PromptSent(query, topK, threshold, env)
                                              case None => []
                                              case Some(p) => [p]
    ensures KeyMissing(env) ==> response == Notice(MissingKeyText) && llm.prompts == old(llm.prompts)
    ensures !KeyMissing(env) && Contexts(query, topK, threshold, env) == [] ==>
              response == Notice(NoContextText) && llm.prompts == old(llm.prompts)
    ensures !KeyMissing(env) && !(env.opening.OpensWith? && env.opening.count > 0) && CorpusDocuments(env.listing, env.split, 1000, 200) == [] ==>
              response == Notice(NoContextText) && llm.prompts == old(llm.prompts)
  {
    if env.groqKey.None? || env.groqKey.value == "" {
      return Notice(MissingKeyText);
    }
    var vm := new VectorDbManager("data", "chroma_db", "ethiopian_history");
    vm.LoadDb(env.opening);
    if !Usable(vm.vectorDb) {
      vm.EmbedAndInsert(env.listing, env.split, 1000, 200);
    }
    assert vm.vectorDb == StartupHandle(env);
    var docs := RetrieveRelevantChunks(vm.vectorDb, query, topK, threshold, env.search);
    assert docs == Contexts(query, topK, threshold, env);
    if docs == [] {
      return Notice(NoContextText);
    }
    var prompt := BuildPrompt(query, docs);
    assert PromptSent(query, topK, threshold, env) == Some(prompt);
    var r := llm.Invoke(prompt);
    match r
    case Replied(c) => response := Answered(c);
    case Raised(e) => response := Notice("Error: " + e);
  }

  // ---- What the response satisfies ----

  /** A sent prompt opens with the grounding instruction and its context
      block holds entries drawn from the store's pool, closest first. */
  lemma PromptGrounded(query: string, topK: int, threshold: real, env: Environment)
    requires PromptSent(query, topK, threshold, env).Some?
    ensures var docs := Contexts(query, topK, threshold, env);
      && Usable(StartupHandle(env))
      && Instructions + "\n\nContext:\n" <= PromptSent(query, topK, threshold, env).value
      && 1 <= |docs| <= Cap(topK)
      && Sorted(docs)
      && (forall j :: 0 <= j < |docs| ==> docs[j] in Pool(StartupHandle(env).value, query, topK, env.search))
  {
    var h := StartupHandle(env);
    RetrievedFromPool(h, query, topK, threshold, env.search);
    RetrievedSorted(h, query, topK, threshold, env.search);
  }
}
