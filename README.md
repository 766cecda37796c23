# rag_history_agent: the retrieval-and-grounding core in Dafny

This project models the part of the Ethiopian-history question-answering
assistant that decides what the language model gets to see:

- the two `deduplicate_and_filter` passes (`code/rag_assistant/retriever.py`,
  which drops candidates whose distance is above the threshold, and
  `src/rag_assistant/retriever.py`, which drops those below it);
- `retrieve_relevant_chunks`, which sorts the store's candidates by distance
  (candidates without a distance last) and runs the same pass keyed on page
  content, and `respond_to_query`, its chain of early returns around the
  language model call;
- `build_prompt`, the rendering of the retrieved documents and the question
  into the grounded prompt;
- `VectorDBManager`: the document and id assembly loop of `embed_and_insert`,
  and the lazily loaded, cached store handle of `load_db` / `get_vector_db`.
  Every `not vector_db` of the source is `!Usable(vector_db)`: no handle, or a
  store that holds no document (a Chroma store's truth value is its `len`).

Each loop of the source is a Dafny `method` with the same `continue`/`break`
structure (the loop of `retrieve_relevant_chunks` is the method
`DistinctContexts`, called after the sort). Each is proved equal to a
non-iterative specification function:
`Selection.Selected` for the three retrieval passes and
`VectorDbIngestion.CorpusDocuments` for ingestion. The guarantees are then
proved as lemmas about those functions.

`Selected` is the first `Cap(top_k)` first occurrences of each content among
the candidates that pass the threshold test. `Cap(top_k)` is `top_k`, or 1
when `top_k <= 0`, because the length test runs only after a kept candidate.

Modules and files:

- `Common`: documents and scores.
- `Text`: `str.strip`, decimal rendering, splitting at newlines.
- `Subsequences`: order-preserving subsequences.
- `Selection`: the specification of the pass.
- `CodeRetriever` and `SrcRetriever`: the two polarities.
- `Ranking`: the stable sort.
- `PromptBuilder`: the prompt text.
- `VectorDbIngestion`: document assembly and the manager class.
- `RetrievalAndResponse`: `retrieve_relevant_chunks` and `respond_to_query`.

Inputs from outside the program are parameters:

- the vector store's search result is a function `Search` of the handle, the query and `k`;
- the text splitter is a function `Splitter` of the text, the chunk size and the overlap;
- the directory listing, with each file's read outcome, is a sequence of `DirEntry`;
- what opening the persisted Chroma store gives is an `Opening`: it raises, or it opens the collection holding some number of documents (none on a first run, when opening creates the collection);
- the API key is an `Option<string>`;
- the language model is a `ChatModel` whose reply to each prompt is a fixed function and which records the prompts it was sent.

## Model

| member | source | states |
|---|---|---|
| CodeRetriever.DeduplicateAndFilter | code/rag_assistant/retriever.py:4-17 | the result is exactly `Selected` with drop-if-`score > threshold`. Every pair has no score or a score `<= threshold`, so equality is kept. No two pairs share a content key, where the key is `getattr(doc, "page_content", None)`. The result is an order-preserving subsequence of the input. Each pair is the first in-threshold candidate of its content. It holds at most `top_k` pairs, or at most 1 when `top_k < 1`. A result shorter than `top_k` holds every in-threshold content |
| CodeRetriever.OppositePolarityCase | code/rag_assistant/retriever.py:9-10 | on the test's candidates, with threshold 0.7 and this variant's polarity, only C (0.6) is returned |
| SrcRetriever.DeduplicateAndFilter | src/rag_assistant/retriever.py:3-14 | the same list of guarantees with the reversed polarity: every pair has no score or a score `>= threshold`, and the result equals `Selected` with drop-if-`score < threshold` |
| SrcRetriever.BasicTestCase | tests/test_retriever.py:9-19 | `[A 0.9, A 0.95, B 0.8, C 0.6]` with `top_k = 2` and threshold 0.7 selects exactly `[(A, 0.9), (B, 0.8)]` |
| SrcRetriever.DuplicateThenDistinct | tests/test_retriever.py:10-19 | for any candidates shaped like the test's input (a kept candidate, a kept duplicate of its content, a kept candidate of another content, and one that fails the test), `top_k = 2` selects the first and the third |
| Selection.Kept | code/rag_assistant/retriever.py:9 | definition of the threshold test: a candidate without a score always survives; with `DropAbove` (this file) a score survives unless it is above the threshold, with `DropBelow` (src/rag_assistant/retriever.py:7) unless it is below; its properties are the `Filter*` and `SelectedWithinThreshold` rows |
| Selection.Cap | code/rag_assistant/retriever.py:15-16 | definition of how many candidates a pass returns: `top_k` when it is at least 1, and 1 otherwise, since the `len(unique) >= top_k` test after the first kept candidate already breaks; `SelectedWhenFull` and the methods' bounds are stated with it |
| Selection.Selected | code/rag_assistant/retriever.py:8-16 | loop-free reference definition of the pass: the first `Cap(top_k)` first occurrences, by content, of the candidates that survive the threshold test; the `Selected*` rows prove what it satisfies and the three loops are proved equal to it |
| Selection.Filter | code/rag_assistant/retriever.py:9-10 | reference definition of the `continue`: the candidates that pass `Kept`, in input order; `FilterMembers`, `FilterSubsequence`, `FilterPrefix` and `FilterSnoc` prove what it satisfies |
| Selection.FilterMembers | code/rag_assistant/retriever.py:8-10 | a pair survives the threshold test iff it is an input pair whose score is None or lies on the kept side |
| Selection.FilterSubsequence | code/rag_assistant/retriever.py:8-10 | the surviving pairs keep input order |
| Selection.FilterPrefix | code/rag_assistant/retriever.py:8-10 | filtering a prefix of the input gives a prefix of the filtered input |
| Selection.KeysSnoc | code/rag_assistant/retriever.py:13 | appending a pair adds exactly its content to the `seen` set |
| Selection.FilterSnoc | code/rag_assistant/retriever.py:9-10 | one more candidate is appended to the surviving ones exactly when it passes the threshold test |
| Selection.Dedup | code/rag_assistant/retriever.py:11-14 | reference definition of the `seen` test: each candidate whose content has not appeared earlier, in input order; `DedupKeys`, `DedupDistinct`, `DedupSubsequence`, `DedupPrefix`, `DedupFirst` and `DedupSnoc` prove what it satisfies |
| Selection.DedupSnoc | code/rag_assistant/retriever.py:11-14 | one more candidate is appended to the deduplicated ones exactly when its content was not yet seen |
| Selection.DedupKeys | code/rag_assistant/retriever.py:11-14 | deduplication loses no content |
| Selection.DedupDistinct | code/rag_assistant/retriever.py:11-14 | deduplicated pairs have pairwise distinct contents |
| Selection.DedupSubsequence | code/rag_assistant/retriever.py:11-14 | deduplication keeps input order |
| Selection.DedupPrefix | code/rag_assistant/retriever.py:8-16 | deduplicating a prefix gives a prefix, so breaking early returns a prefix of the full result |
| Selection.FirstNoneIff | code/rag_assistant/retriever.py:12 | there is no first pair with content `k` iff `k` is not among the contents |
| Selection.FirstMember | code/rag_assistant/retriever.py:12 | the first pair with content `k` is an input pair with content `k` |
| Selection.DedupFirst | code/rag_assistant/retriever.py:11-14 | what deduplication keeps of each content is its first occurrence |
| Selection.SelectedWithinThreshold | code/rag_assistant/retriever.py:9-10 | every selected pair passes the threshold test |
| Selection.SelectedDistinct | code/rag_assistant/retriever.py:11-14 | no two selected pairs share a content |
| Selection.SelectedSubsequence | code/rag_assistant/retriever.py:8-16 | the selection is an order-preserving subsequence of the input |
| Selection.SelectedFirstOccurrence | code/rag_assistant/retriever.py:8-14 | each selected pair is the first in-threshold pair of its content |
| Selection.SelectedComplete | code/rag_assistant/retriever.py:8-17 | a selection shorter than the cap contains every content of an in-threshold input pair |
| Selection.SelectedOfPrefix | code/rag_assistant/retriever.py:15-16 | the deduplicated survivors of a prefix of the input are a prefix of those of the whole input, and for every `top_k` the selection of a prefix is a prefix of the full selection |
| Selection.SelectedWhenFull | code/rag_assistant/retriever.py:15-16 | once the pass holds `top_k` candidates (and at least one), what it holds is the whole selection |
| Selection.SelectedStep | code/rag_assistant/retriever.py:8-14 | one more candidate extends the selection exactly as one loop iteration does: skipped when filtered or already seen, appended otherwise |
| Subsequences.SubsequenceTransitive | code/rag_assistant/retriever.py:8-14 | a subsequence of a subsequence is a subsequence |
| Subsequences.SubsequenceMembers | code/rag_assistant/retriever.py:8-14 | a subsequence invents no elements |
| Ranking.ScoreLe | code/retrieval_and_response.py:14 | definition of the order of the key `(x[1] is None, x[1])`: every number before None, numbers in ascending order, and two None keys equal, so None is never compared with a number |
| Ranking.SortByScore | code/retrieval_and_response.py:14 | definition of `sorted(results, key=lambda x: (x[1] is None, x[1]))` as a stable insertion sort by `ScoreLe`; `SortPermutation`, `SortSorted` and `SortStable` prove it is a stable sort by that key, and `SortUnique` proves it is the only one |
| Ranking.InsertPermutation | code/retrieval_and_response.py:14 | insertion adds exactly one copy of the element |
| Ranking.InsertSorted | code/retrieval_and_response.py:14 | insertion keeps a list sorted by `(score is None, score)` |
| Ranking.InsertWithScore | code/retrieval_and_response.py:14 | the inserted element comes just before the elements with its score, in front of the rest of them unchanged; inserting the head of the input into the sorted tail therefore keeps equal scores in input order |
| Ranking.SortPermutation | code/retrieval_and_response.py:14 | the sorted list is a permutation of the input |
| Ranking.SortSorted | code/retrieval_and_response.py:14 | numeric scores come first, non-decreasing, and None scores come last |
| Ranking.SortStable | code/retrieval_and_response.py:14 | the sort is stable: for every score, the pairs with that score keep their input order |
| Ranking.SortedEqual | code/retrieval_and_response.py:14 | two lists sorted by `(score is None, score)` that hold, for every score, the same candidates in the same order are equal |
| Ranking.SortUnique | code/retrieval_and_response.py:14 | any list sorted by the key that keeps, for every score, the input's candidates with that score in input order is `SortByScore` of the input; so every stable sort by this key, Timsort included, returns the same list |
| RetrievalAndResponse.Pool | code/retrieval_and_response.py:13 | definition: the candidates the store's search returns when asked for `top_k * 5` of them |
| RetrievalAndResponse.Retrieved | code/retrieval_and_response.py:8-25 | reference definition of `retrieve_relevant_chunks`: `[]` without a usable store (`not vector_db`), otherwise `Selected` with `DropAbove`, keyed on page content, of the sorted pool; `RetrieveRelevantChunks` is proved equal to it and the `Retrieved*` rows prove what it satisfies |
| RetrievalAndResponse.RetrieveRelevantChunks | code/retrieval_and_response.py:8-25 | returns `[]` without a usable store (no handle, or an empty store). Otherwise it returns the selection, keyed on page content, from the pool of `top_k * 5` search results sorted by distance |
| RetrievalAndResponse.DistinctContexts | code/retrieval_and_response.py:15-25 | the loop over the sorted candidates returns exactly `Selected` with drop-if-`score > threshold`, keyed on page content |
| RetrievalAndResponse.SortedSubsequence | code/retrieval_and_response.py:14-22 | a subsequence of a sorted list is sorted |
| RetrievalAndResponse.FirstWithKeyLeast | code/retrieval_and_response.py:14-22 | in a sorted list, the first pair of a content has the lowest distance among the pairs of that content |
| RetrievalAndResponse.RetrievedSorted | code/retrieval_and_response.py:14-22 | the retrieved contexts are ordered: numeric distances non-decreasing, None last |
| RetrievalAndResponse.RetrievedFromPool | code/retrieval_and_response.py:10-24 | no usable store gives `[]`. With a usable store, every context is a pool candidate with no distance or a distance `<= threshold`, page contents are distinct, and there are at most `Cap(top_k)` contexts |
| RetrievalAndResponse.RetrievedClosest | code/retrieval_and_response.py:14-22 | for each kept content, its distance is the lowest in-threshold distance among the pool's candidates with that content |
| RetrievalAndResponse.RetrievedComplete | code/retrieval_and_response.py:13-24 | fewer than `top_k` contexts means every page content of an in-threshold pool candidate is among them |
| RetrievalAndResponse.KeyMissing | code/retrieval_and_response.py:32 | definition of `not groq_key`: the key is unset or the empty string |
| RetrievalAndResponse.StartupHandle | code/retrieval_and_response.py:38-41 | definition of the handle after `VectorDBManager()`, `load_db()` and, when that left no usable store, `embed_and_insert()` with chunk size 1000 and overlap 200: the opened store when it holds documents, else a store built from the corpus when the corpus is non-empty, else what `load_db` left (an empty opened store, or none); `RespondToQuery` proves its manager ends with this handle |
| RetrievalAndResponse.StartupUsable | code/retrieval_and_response.py:38-41 | startup ends with a usable store iff the persisted collection opens holding documents or the data directory yields documents; when the collection opens empty, as on a first run, the store is built from the corpus |
| RetrievalAndResponse.Answer | code/retrieval_and_response.py:28-53 | reference definition of the reply: the missing-key notice, the no-context notice when nothing is retrieved, or the model's reply to the built prompt, with `"Error: "` and the message when the call raises; `RespondToQuery` is proved equal to it |
| RetrievalAndResponse.ChatModel.Invoke | code/retrieval_and_response.py:47-48 | the model receives the prompt, which is recorded in `prompts`, and the reply is its reply to that prompt |
| RetrievalAndResponse.RespondToQuery | code/retrieval_and_response.py:28-53 | a missing or empty key returns "Error: GROQ_API_KEY missing." and sends no prompt. Otherwise a fresh default manager loads the store, or builds it from the data directory with chunks of 1000 and overlap 200. No retrieved context returns "No relevant information found." and sends no prompt. Otherwise exactly one prompt, `BuildPrompt(query, contexts)`, is sent, and its reply or "Error: " + the exception message is returned. With the key present and nothing retrieved, the answer is the no-context notice and no prompt is sent; in particular when the store does not open with documents and no file is usable |
| RetrievalAndResponse.PromptGrounded | code/retrieval_and_response.py:39-45 | a sent prompt opens with the instruction and context header. The startup store is usable, and the prompt is built from between 1 and `Cap(top_k)` contexts, sorted by distance and drawn from the store's pool |
| PromptBuilder.Truncate | prompt_builder.py:6 | definition of the slice `[:300]`: the whole text when it is at most `n` long, else its first `n` characters |
| PromptBuilder.Render | prompt_builder.py:6 | definition of how the f-string renders a metadata value: a string as itself, an integer in decimal with a leading `-` when negative |
| PromptBuilder.Excerpt | prompt_builder.py:6 | definition of `doc.page_content.strip()[:300].replace('\n', ' ')`; `ExcerptShape` proves its shape |
| PromptBuilder.SourceName | prompt_builder.py:6 | definition of `doc.metadata.get('filename','')` as an f-string renders it: the `filename` value, or the empty string when there is none |
| PromptBuilder.ContextLine | prompt_builder.py:6 | definition of one context line, `"- " + excerpt + " (Source: " + filename + ")"`; `ContextLineSingle` proves it is one line when the file name holds no newline |
| PromptBuilder.Context | prompt_builder.py:5-8 | definition of the context block: the context lines of the documents, in order, joined with newlines; `ContextRoundTrip` proves the join can be split back |
| PromptBuilder.ReplaceNewlines | prompt_builder.py:6 | same length; each newline becomes a space and every other character stays |
| PromptBuilder.ExcerptShape | prompt_builder.py:6 | the excerpt is the first `min(300, |stripped|)` characters of the stripped content with newlines turned into spaces, so it is at most 300 characters long and holds no newline |
| PromptBuilder.ContextLineSingle | prompt_builder.py:6 | a context line `"- " + excerpt + " (Source: " + filename + ")"` holds no newline unless the file name does |
| PromptBuilder.ContextRoundTrip | prompt_builder.py:5-8 | for one or more documents, when no file name contains a newline, splitting the context block at newlines gives back exactly one line per document, in order |
| PromptBuilder.BuildPrompt | prompt_builder.py:9-16 | the prompt always ends with "Answer:" and begins with the instruction followed by "\n\nContext:\n" |
| PromptBuilder.PromptLayout | prompt_builder.py:9-15 | for a one-line question, the prompt's lines are the instruction's lines, a blank line, "Context:", the context block's lines, a blank line, "Question: " + query, and "Answer:" |
| PromptBuilder.FrameLines | prompt_builder.py:9-15 | the line structure of the prompt frame around arbitrary instruction and context texts |
| PromptBuilder.ScoresIgnored | prompt_builder.py:7 | the prompt depends only on the documents, not on their scores |
| Text.Strip | prompt_builder.py:6 | definition of `str.strip()` as a left strip followed by a right strip; `StripShape` proves its shape |
| Text.StripLeading | prompt_builder.py:6 | the result is a suffix of the input. Only whitespace (Python's `str.isspace` set) was removed, and the result does not start with whitespace |
| Text.StripTrailing | prompt_builder.py:6 | the result is a prefix of the input. Only whitespace was removed, and the result does not end with whitespace |
| Text.StripShape | prompt_builder.py:6 | `strip` removes a whitespace prefix and a whitespace suffix and leaves no whitespace at either end |
| Text.IsBlank | code/vectordb_and_ingestion.py:29 | definition of `not text.strip()` as: every character is whitespace; `BlankIffStripEmpty` proves the two agree |
| Text.BlankIffStripEmpty | code/vectordb_and_ingestion.py:29 | `not text.strip()` holds iff the text is all whitespace |
| Text.NatToString | code/vectordb_and_ingestion.py:34 | `str(i)` is a non-empty string of decimal digits without a leading zero |
| Text.ParseNatToString | code/vectordb_and_ingestion.py:34 | reading the decimal rendering back gives the number |
| Text.NatToStringInjective | code/vectordb_and_ingestion.py:34 | different chunk numbers render differently |
| Text.JoinLines | prompt_builder.py:5 | definition of `"\n".join(lines)`: the lines with one newline between each pair, and the empty string for no lines; `SplitJoinLines` and `JoinSplitLines` prove `SplitLines` is its inverse on newline-free lines |
| Text.SplitLines | prompt_builder.py:5 | splitting at newlines gives at least one piece, and no piece contains a newline |
| Text.SplitJoinLines | prompt_builder.py:5 | splitting the newline join of newline-free lines gives the lines back |
| Text.JoinSplitLines | prompt_builder.py:5 | joining the pieces with newlines gives the text back |
| Text.SplitLinesAppend | prompt_builder.py:9-15 | the lines of `a + "\n" + b` are the lines of `a` followed by the lines of `b` |
| VectorDbIngestion.EndsWithTxt | code/vectordb_and_ingestion.py:24 | definition of `fname.endswith(".txt")`: the name is at least four long and its last four characters are `.txt` |
| VectorDbIngestion.Contributes | code/vectordb_and_ingestion.py:24-31 | definition of an entry that yields chunks: its name ends in `.txt`, reading it succeeds, and its text is not blank; `SkippedEntry` proves that any other entry contributes nothing |
| VectorDbIngestion.ChunkId | code/vectordb_and_ingestion.py:34 | definition of `f"{fname}_{i}"`; `ChunkIdRoundTrip` and `ChunkIdInjective` prove it can be decoded and is injective |
| VectorDbIngestion.ChunkDocument | code/vectordb_and_ingestion.py:35 | definition of the document for chunk `i`: the chunk as page content, with `filename`, `chunk_id` and `id` metadata; `ChunkDocumentFields` proves that the `filename` and `id` values read back; `Origin` states all four fields of each corpus document |
| VectorDbIngestion.CorpusDocuments | code/vectordb_and_ingestion.py:23-37 | reference definition of the documents `embed_and_insert` collects: entry after entry, each contributing entry's chunk documents in chunk order; `CollectDocuments` is proved equal to it and the `Corpus*`, `Origin` and `SkippedEntry` rows prove what it satisfies |
| VectorDbIngestion.CollectDocuments | code/vectordb_and_ingestion.py:21-37 | the collected documents equal `CorpusDocuments` of the listing. There is one per chunk (the sum of the per-file chunk counts), every one comes from a `.txt` file, and for a listing with distinct names all ids differ |
| VectorDbIngestion.AppendChunkDocuments | code/vectordb_and_ingestion.py:33-35 | appends, in chunk order, the document for each chunk |
| VectorDbIngestion.ChunkDocumentFields | code/vectordb_and_ingestion.py:34-35 | a chunk document's `filename` metadata is the file name and its `id` is `name_i` |
| VectorDbIngestion.CorpusLength | code/vectordb_and_ingestion.py:23-35 | the number of documents is the sum of the per-file chunk counts |
| VectorDbIngestion.CorpusConcat | code/vectordb_and_ingestion.py:23-35 | the documents of two listings in sequence are the documents of the first followed by those of the second, so files keep listing order |
| VectorDbIngestion.CorpusIsConcatMap | code/vectordb_and_ingestion.py:23-35 | the collected documents are the concatenation, in listing order, of each entry's documents |
| VectorDbIngestion.SkippedEntry | code/vectordb_and_ingestion.py:24-37 | a name without `.txt`, a failed read or a blank file contributes nothing, and the other files are processed as if it were absent |
| VectorDbIngestion.Origin | code/vectordb_and_ingestion.py:23-35 | every document is chunk `i` of some contributing listed file: `page_content` is the chunk, `filename` is the name, `chunk_id` is `i` and `id` is `name_i` |
| VectorDbIngestion.CorpusFromTxtFiles | code/vectordb_and_ingestion.py:24 | only `.txt` files contribute documents |
| VectorDbIngestion.LastIndexOf | code/vectordb_and_ingestion.py:34 | finds the last occurrence of a character, or reports that there is none |
| VectorDbIngestion.ChunkIdRoundTrip | code/vectordb_and_ingestion.py:34 | the id `f"{fname}_{i}"` splits at its last `_` back into `fname` and `i` |
| VectorDbIngestion.ChunkIdInjective | code/vectordb_and_ingestion.py:34 | distinct `(fname, i)` pairs give distinct ids |
| VectorDbIngestion.CorpusIdsDistinct | code/vectordb_and_ingestion.py:23-35 | with distinct file names, all document ids are distinct |
| VectorDbIngestion.Usable | code/vectordb_and_ingestion.py:52 | definition of `bool(vector_db)`, the negation of `not vector_db` here and at lines 64, code/retrieval_and_response.py:10 and :40: no handle is false, and a store is true exactly when it holds a document |
| VectorDbIngestion.VectorDbManager.constructor | code/vectordb_and_ingestion.py:12-17 | a new manager keeps its directory and collection names and holds no handle |
| VectorDbIngestion.VectorDbManager.EmbedAndInsert | code/vectordb_and_ingestion.py:19-48 | with documents collected, the handle becomes the store `from_documents` made from those documents, which is usable. With none, the handle is unchanged |
| VectorDbIngestion.VectorDbManager.LoadDb | code/vectordb_and_ingestion.py:50-61 | a usable held handle is kept. Otherwise (no handle, or an empty store) the persisted store is opened, or the handle stays as it was if opening raises |
| VectorDbIngestion.VectorDbManager.GetVectorDb | code/vectordb_and_ingestion.py:63-66 | returns the held handle, loading first exactly when the held one is not usable (none, or an empty store) |
| VectorDbIngestion.HandleIsCached | code/vectordb_and_ingestion.py:50-66 | after a load that opens a collection holding documents, a later `get_vector_db` returns the same handle even if opening would now fail. After a load that opens an empty collection, the later call opens the store again |

## Left out

- The vector store: Chroma, the HuggingFace embeddings, `similarity_search_with_score`, `from_documents` and `persist`. These are foreign calls. The search is a parameter, and a handle records only what it was built or opened from and, for an opened store, how many documents the collection holds. The truth value of a store is taken to be its `len`, the collection's document count, which is how LangChain's `Chroma` defines it.
- Splitter: `RecursiveCharacterTextSplitter` is a parameter function, so nothing is assumed about chunk sizes or overlap.
- Files:
  - `os.listdir` and file reading are an input listing in which each entry says whether reading succeeded.
  - An exception raised by the splitter inside the `try` is not modelled; only read failures are.
  - `os.listdir` raising for a missing directory is not modelled.
- Python version: the f-string at prompt_builder.py:6 has `'\n'` inside a replacement field, which Python accepts only from 3.12 on (earlier versions reject the module at import). The model follows the 3.12 behaviour.
- The Groq client: constructing `ChatGroq` and calling `invoke` is one call of `ChatModel.Invoke`. Any exception either step raises is its `Raised` reply. The import `from langchain_groq import ChatGroq` (code/retrieval_and_response.py:36) sits outside the `try`, after the key check and before any retrieval. An `ImportError` there escapes `respond_to_query`, and this path is not modelled.
- EmbedAndInsert: `Built(docs, ...)` records which call made the handle and with which documents, not what the store holds. `from_documents` adds the documents to the named collection, which may already hold others. The model only uses that a built store holds at least `docs`, so it is usable.
- RespondToQuery: the source returns the model's message object itself. The model returns the message's content as `Answered`.
- `load_dotenv` and the environment: the key is an input.
- Logging, and the `__main__` command-line wrapper.
- Floating point: distances and thresholds are reals. NaN and IEEE rounding are not modelled.
- Sorting: `sorted` is modelled as a stable insertion sort. A stable sort by a key has only one possible result (`SortUnique`), so this gives the same list as Timsort.
- Shared code: the `(doc, score)` document type of the two `deduplicate_and_filter` passes is generic. `getattr(doc, "page_content", None)` is a caller-supplied function whose result is an `Option`, so every document without the attribute has the key None.
- PromptLayout: the prompt's line structure is stated in terms of the lines of the instruction text, which is itself a single line. It holds for questions without newlines; a question with newlines adds lines.
- The Streamlit apps (`code/app.py`, `app.py`): their inline copies of the pass are the loops modelled here.
- The remaining helper files are not part of this model: `wiki_fetcher.py` (HTTP and HTML scraping), the `data_loader.py` wrappers and the one-line `generator.py` wrappers.
