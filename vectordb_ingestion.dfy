/** `VectorDBManager` of `code/vectordb_and_ingestion.py`: turning the
    corpus directory into LangChain documents with stable ids, and the
    lazily loaded, cached vector-store handle. */
module VectorDbIngestion {
  import opened Common
  import opened Text

  /** What reading a listed file gives: its text, or an exception. */
  datatype FileRead = Contents(text: string) | ReadFailed

  /** One name returned by `os.listdir(data_dir)`, with the outcome of
      reading that file. */
  datatype DirEntry = DirEntry(name: string, read: FileRead)

  /** `RecursiveCharacterTextSplitter(chunk_size, chunk_overlap).split_text(text)`,
      taking the text, the chunk size and the overlap. */
  type Splitter = (string, int, int) -> seq<string>

  /** A vector-store handle, as far as the pipeline can tell handles apart:
      the call that made it. `Chroma.from_documents` adds `docs` to the named
      collection, which may already hold documents, so a built store holds at
      least `docs`; an opened store holds the `count` documents the
      persisted collection held. */
  datatype DbHandle =
    | Built(docs: seq<Document>, persistDir: string, collection: string)  // `Chroma.from_documents(docs, ...)`
    | Opened(persistDir: string, collection: string, count: nat)         // `Chroma(persist_directory, ..., collection_name)`

  /** What `Chroma(persist_directory, ..., collection_name)` does: raise, or
      open the collection holding `count` documents (none on a first run,
      when the call creates the collection). */
  datatype Opening = OpenRaises | OpensWith(count: nat)

  /** `bool(vector_db)`: None is false, and a Chroma store is true exactly
      when it holds a document (its `len` is the collection's count). */
  predicate Usable(h: Option<DbHandle>)
  {
    match h
    case None => false
    case Some(Built(docs, _, _)) => docs != []
    case Some(Opened(_, _, count)) => count > 0
  }

  /** `fname.endswith(".txt")`. */
  predicate EndsWithTxt(name: string)
  {
    |name| >= 4 && name[|name| - 4..] == ".txt"
  }

  /** `f"{fname}_{i}"`. */
  function ChunkId(fname: string, i: nat): string
  {
    fname + "_" + NatToString(i)
  }

  /** The document made for chunk `i` of file `fname`. */
  function ChunkDocument(fname: string, i: nat, chunk: string): Document
  {
    Document(chunk, map["filename" := Text(fname), "chunk_id" := Int(i), "id" := Text(ChunkId(fname, i))])
  }

  /** The documents for the chunks of one file, in chunk order. */
  function ChunkDocuments(fname: string, chunks: seq<string>): seq<Document>
  {
    seq(|chunks|, i requires 0 <= i < |chunks| => ChunkDocument(fname, i, chunks[i]))
  }

  /** Whether a directory entry yields chunks: a `.txt` name whose read
      succeeds with text that is not blank. */
  predicate Contributes(e: DirEntry)
  {
    EndsWithTxt(e.name) && e.read.Contents? && !IsBlank(e.read.text)
  }

  /** The documents one directory entry contributes. */
  function EntryDocuments(e: DirEntry, split: Splitter, chunkSize: int, chunkOverlap: int): seq<Document>
  {
    if Contributes(e) then ChunkDocuments(e.name, split(e.read.text, chunkSize, chunkOverlap)) else []
  }

  /** The documents of the whole listing, entry after entry. */
  ghost function CorpusDocuments(listing: seq<DirEntry>, split: Splitter, chunkSize: int, chunkOverlap: int): seq<Document>
    decreases |listing|
  {
    if listing == [] then []
    else CorpusDocuments(listing[..|listing| - 1], split, chunkSize, chunkOverlap)
         + EntryDocuments(listing[|listing| - 1], split, chunkSize, chunkOverlap)
  }

  /** The number of chunks the splitter makes of an entry's text, 0 when the
      entry does not contribute. */
  function ChunkCount(e: DirEntry, split: Splitter, chunkSize: int, chunkOverlap: int): nat
  {
    if Contributes(e) then |split(e.read.text, chunkSize, chunkOverlap)| else 0
  }

  ghost function TotalChunks(listing: seq<DirEntry>, split: Splitter, chunkSize: int, chunkOverlap: int): nat
    decreases |listing|
  {
    if listing == [] then 0
    else TotalChunks(listing[..|listing| - 1], split, chunkSize, chunkOverlap)
         + ChunkCount(listing[|listing| - 1], split, chunkSize, chunkOverlap)
  }

  /** `d` is the document for chunk `i` of entry `e`. */
  ghost predicate FromEntry(d: Document, e: DirEntry, i: nat, split: Splitter, chunkSize: int, chunkOverlap: int)
  {
    && Contributes(e)
    && i < |split(e.read.text, chunkSize, chunkOverlap)|
    && d == ChunkDocument(e.name, i, split(e.read.text, chunkSize, chunkOverlap)[i])
  }

  /** The names of a directory listing are pairwise different. */
  ghost predicate DistinctNames(listing: seq<DirEntry>)
  {
    forall a, b :: 0 <= a < b < |listing| ==> listing[a].name != listing[b].name
  }

  /** No two documents share an `id`. */
  ghost predicate IdsDistinct(docs: seq<Document>)
  {
    forall j, k :: 0 <= j < k < |docs| ==> IdOf(docs[j]) != IdOf(docs[k])
  }

  /** The `filename` metadata of a document (empty when there is none). */
  function FilenameOf(d: Document): string
  {
    if "filename" in d.metadata && d.metadata["filename"].Text? then d.metadata["filename"].text else ""
  }

  /** The `id` metadata of a document (empty when there is none). */
  function IdOf(d: Document): string
  {
    if "id" in d.metadata && d.metadata["id"].Text? then d.metadata["id"].text else ""
  }

  /** The embed_and_insert loop: every `.txt` entry that reads and is not
      blank contributes one document per chunk; other entries are skipped
      and the loop goes on. */
  method CollectDocuments(listing: seq<DirEntry>, split: Splitter, chunkSize: int, chunkOverlap: int)
    returns (docs: seq<Document>)
    ensures docs == CorpusDocuments(listing, split, chunkSize, chunkOverlap)
    ensures |docs| == TotalChunks(listing, split, chunkSize, chunkOverlap)
    ensures forall j :: 0 <= j < |docs| ==> EndsWithTxt(FilenameOf(docs[j]))
    ensures DistinctNames(listing) ==> IdsDistinct(docs)
  {
    docs := [];
    for f := 0 to |listing|
      invariant docs == CorpusDocuments(listing[..f], split, chunkSize, chunkOverlap)
    {
      assert listing[..f + 1][..f] == listing[..f];
      var entry := listing[f];
      if EndsWithTxt(entry.name) {
        match entry.read
        case ReadFailed =>
          // the error is logged and the next entry is read
        case Contents(text) =>
          if IsBlank(text) {
            continue;
          }
          var chunks := split(text, chunkSize, chunkOverlap);
          docs := AppendChunkDocuments(docs, entry.name, chunks);
      }
    }
    assert listing[..|listing|] == listing;
    CorpusLength(listing, split, chunkSize, chunkOverlap);
    CorpusFromTxtFiles(listing, split, chunkSize, chunkOverlap);
    if DistinctNames(listing) {
      CorpusIdsDistinct(listing, split, chunkSize, chunkOverlap);
    }
  }

  /** The inner loop of embed_and_insert: one document per chunk, numbered
      from 0, appended to `docs`. */
  method AppendChunkDocuments(docs: seq<Document>, fname: string, chunks: seq<string>)
    returns (out: seq<Document>)
    ensures out == docs + ChunkDocuments(fname, chunks)
  {
    out := docs;
    for i := 0 to |chunks|
      invariant out == docs + ChunkDocuments(fname, chunks[..i])
    {
      var docId := ChunkId(fname, i);
      out := out + [Document(chunks[i], map["filename" := Text(fname), "chunk_id" := Int(i), "id" := Text(docId)])];
      assert ChunkDocuments(fname, chunks[..i + 1]) == ChunkDocuments(fname, chunks[..i]) + [ChunkDocument(fname, i, chunks[i])];
    }
    assert chunks[..|chunks|] == chunks;
  }

  /** The documents are as many as the chunks of the contributing files. */
  lemma {:induction false} CorpusLength(listing: seq<DirEntry>, split: Splitter, chunkSize: int, chunkOverlap: int)
    ensures |CorpusDocuments(listing, split, chunkSize, chunkOverlap)| == TotalChunks(listing, split, chunkSize, chunkOverlap)
    decreases |listing|
  {
    if listing != [] {
      CorpusLength(listing[..|listing| - 1], split, chunkSize, chunkOverlap);
    }
  }

  /** The concatenation of `f(x)` over the elements `x` of `s`, in order. */
  ghost function ConcatMap<T, U>(s: seq<T>, f: T -> seq<U>): seq<U>
    decreases |s|
  {
    if s == [] then [] else ConcatMap(s[..|s| - 1], f) + f(s[|s| - 1])
  }

  lemma {:induction false} ConcatMapAppend<T, U>(a: seq<T>, b: seq<T>, f: T -> seq<U>)
    ensures ConcatMap(a + b, f) == ConcatMap(a, f) + ConcatMap(b, f)
    decreases |b|
  {
    if b == [] {
      assert a + b == a;
    } else {
      var front := b[..|b| - 1];
      assert (a + b)[..|a + b| - 1] == a + front;
      assert (a + b)[|a + b| - 1] == b[|b| - 1];
      ConcatMapAppend(a, front, f);
    }
  }

  /** The corpus is the concatenation of the entries' documents. */
  lemma {:induction false} CorpusIsConcatMap(listing: seq<DirEntry>, split: Splitter, chunkSize: int, chunkOverlap: int)
    ensures CorpusDocuments(listing, split, chunkSize, chunkOverlap)
            == ConcatMap(listing, e => EntryDocuments(e, split, chunkSize, chunkOverlap))
    decreases |listing|
  {
    if listing != [] {
      CorpusIsConcatMap(listing[..|listing| - 1], split, chunkSize, chunkOverlap);
    }
  }

  /** The documents follow the listing order, then the chunk order: the
      documents of a concatenated listing are the concatenated documents. */
  lemma CorpusConcat(a: seq<DirEntry>, b: seq<DirEntry>, split: Splitter, chunkSize: int, chunkOverlap: int)
    ensures CorpusDocuments(a + b, split, chunkSize, chunkOverlap)
            == CorpusDocuments(a, split, chunkSize, chunkOverlap) + CorpusDocuments(b, split, chunkSize, chunkOverlap)
  {
    var f := e => EntryDocuments(e, split, chunkSize, chunkOverlap);
    CorpusIsConcatMap(a + b, split, chunkSize, chunkOverlap);
    CorpusIsConcatMap(a, split, chunkSize, chunkOverlap);
    CorpusIsConcatMap(b, split, chunkSize, chunkOverlap);
    ConcatMapAppend(a, b, f);
  }

  /** A non-`.txt` name, a failed read or a blank file contributes nothing,
      and the entries after it are still processed. */
  lemma SkippedEntry(a: seq<DirEntry>, e: DirEntry, b: seq<DirEntry>, split: Splitter, chunkSize: int, chunkOverlap: int)
    requires !EndsWithTxt(e.name) || e.read.ReadFailed? || (e.read.Contents? && IsBlank(e.read.text))
    ensures CorpusDocuments(a + [e] + b, split, chunkSize, chunkOverlap) == CorpusDocuments(a + b, split, chunkSize, chunkOverlap)
  {
    CorpusConcat(a + [e], b, split, chunkSize, chunkOverlap);
    CorpusConcat(a, b, split, chunkSize, chunkOverlap);
    assert (a + [e])[..|a|] == a;
  }

  /** Where document `j` comes from: the entry index `m` and chunk number
      `i` such that it is chunk `i` of `listing[m]`, a contributing `.txt`
      entry, with that chunk as content and `filename`, `chunk_id` and `id`
      set from the entry's name and `i`. */
  ghost function Origin(listing: seq<DirEntry>, split: Splitter, chunkSize: int, chunkOverlap: int, j: nat): (o: (nat, nat))
    requires j < |CorpusDocuments(listing, split, chunkSize, chunkOverlap)|
    ensures o.0 < |listing|
    ensures FromEntry(CorpusDocuments(listing, split, chunkSize, chunkOverlap)[j], listing[o.0], o.1, split, chunkSize, chunkOverlap)
    decreases |listing|
  {
    var front := listing[..|listing| - 1];
    var d0 := CorpusDocuments(front, split, chunkSize, chunkOverlap);
    if j < |d0| then
      var o := Origin(front, split, chunkSize, chunkOverlap, j);
      assert listing[o.0] == front[o.0];
      o
    else
      (|listing| - 1, j - |d0|)
  }

  /** Only `.txt` files contribute documents. */
  lemma CorpusFromTxtFiles(listing: seq<DirEntry>, split: Splitter, chunkSize: int, chunkOverlap: int)
    ensures var docs := CorpusDocuments(listing, split, chunkSize, chunkOverlap);
      forall j :: 0 <= j < |docs| ==> EndsWithTxt(FilenameOf(docs[j]))
  {
    var docs := CorpusDocuments(listing, split, chunkSize, chunkOverlap);
    forall j | 0 <= j < |docs| ensures EndsWithTxt(FilenameOf(docs[j])) {
      var o := Origin(listing, split, chunkSize, chunkOverlap, j);
    }
  }

  /** The last `_` of an id separates the file name from the chunk number. */
  function LastIndexOf(s: string, c: char): (r: Option<nat>)
    ensures r.Some? ==> r.value < |s| && s[r.value] == c && forall k :: r.value < k < |s| ==> s[k] != c
    ensures r.None? ==> c !in s
    decreases |s|
  {
    if s == [] then None
    else if s[|s| - 1] == c then Some(|s| - 1)
    else LastIndexOf(s[..|s| - 1], c)
  }

  /** Reads an id back into its file name and chunk number. */
  function ParseChunkId(id: string): Option<(string, nat)>
  {
    match LastIndexOf(id, '_')
    case None => None
    case Some(k) => Some((id[..k], ParseNat(id[k + 1..])))
  }

  /** The id of chunk `i` of `fname` reads back as `(fname, i)`: the decimal
      number holds no `_`, so the last `_` is the one the id added. */
  lemma ChunkIdRoundTrip(fname: string, i: nat)
    ensures ParseChunkId(ChunkId(fname, i)) == Some((fname, i))
  {
    var id := ChunkId(fname, i);
    var digits := NatToString(i);
    var n := |fname|;
    assert id[n] == '_';
    assert id[..n] == fname;
    assert id[n + 1..] == digits;
    var r := LastIndexOf(id, '_');
    assert r.Some? && r.value == n by {
      assert '_' in id;
      forall k | n < k < |id| ensures id[k] != '_' {
        assert id[k] == digits[k - n - 1];
      }
    }
    ParseNatToString(i);
  }

  /** Distinct `(fname, i)` pairs give distinct ids. */
  lemma ChunkIdInjective(f1: string, i1: nat, f2: string, i2: nat)
    ensures ChunkId(f1, i1) == ChunkId(f2, i2) ==> f1 == f2 && i1 == i2
  {
    ChunkIdRoundTrip(f1, i1);
    ChunkIdRoundTrip(f2, i2);
  }

  /** The metadata of a chunk document reads back as set. */
  lemma ChunkDocumentFields(fname: string, i: nat, chunk: string)
    ensures FilenameOf(ChunkDocument(fname, i, chunk)) == fname
    ensures IdOf(ChunkDocument(fname, i, chunk)) == ChunkId(fname, i)
  {
    var m := ChunkDocument(fname, i, chunk).metadata;
    assert "id" != "filename" && "id" != "chunk_id";
    assert m["id"] == Text(ChunkId(fname, i));
  }

  /** The `i`-th document of an entry has id `name_i`. */
  lemma EntryId(e: DirEntry, split: Splitter, chunkSize: int, chunkOverlap: int, i: nat)
    requires i < |EntryDocuments(e, split, chunkSize, chunkOverlap)|
    ensures IdOf(EntryDocuments(e, split, chunkSize, chunkOverlap)[i]) == ChunkId(e.name, i)
  {
    var chunks := split(e.read.text, chunkSize, chunkOverlap);
    ChunkDocumentFields(e.name, i, chunks[i]);
  }

  /** With distinct names, no document of the earlier entries has the id of
      a chunk of the last entry. */
  lemma EarlierIdsDiffer(listing: seq<DirEntry>, split: Splitter, chunkSize: int, chunkOverlap: int, j: nat, i: nat)
    requires DistinctNames(listing) && listing != []
    requires j < |CorpusDocuments(listing[..|listing| - 1], split, chunkSize, chunkOverlap)|
    ensures IdOf(CorpusDocuments(listing[..|listing| - 1], split, chunkSize, chunkOverlap)[j])
            != ChunkId(listing[|listing| - 1].name, i)
  {
    var front := listing[..|listing| - 1];
    var o := Origin(front, split, chunkSize, chunkOverlap, j);
    var entry := front[o.0];
    ChunkDocumentFields(entry.name, o.1, split(entry.read.text, chunkSize, chunkOverlap)[o.1]);
    assert listing[o.0] == entry;
    ChunkIdInjective(entry.name, o.1, listing[|listing| - 1].name, i);
  }

  /** Appending documents with ids `name_0`, `name_1`, ... that no earlier
      document has keeps the ids distinct. */
  lemma IdsDistinctConcat(d0: seq<Document>, ed: seq<Document>, name: string)
    requires IdsDistinct(d0)
    requires forall i :: 0 <= i < |ed| ==> IdOf(ed[i]) == ChunkId(name, i)
    requires forall j, i: nat :: 0 <= j < |d0| ==> IdOf(d0[j]) != ChunkId(name, i)
    ensures IdsDistinct(d0 + ed)
  {
    var docs := d0 + ed;
    forall j, k | 0 <= j < k < |docs| ensures IdOf(docs[j]) != IdOf(docs[k]) {
      if k < |d0| {
        assert docs[j] == d0[j] && docs[k] == d0[k];
      } else if j < |d0| {
        assert docs[j] == d0[j] && docs[k] == ed[k - |d0|];
      } else {
        assert docs[j] == ed[j - |d0|] && docs[k] == ed[k - |d0|];
        ChunkIdInjective(name, j - |d0|, name, k - |d0|);
      }
    }
  }

  /** When the listing's names are distinct, so are all document ids. */
  lemma {:induction false} CorpusIdsDistinct(listing: seq<DirEntry>, split: Splitter, chunkSize: int, chunkOverlap: int)
    requires DistinctNames(listing)
    ensures IdsDistinct(CorpusDocuments(listing, split, chunkSize, chunkOverlap))
    decreases |listing|
  {
    if listing != [] {
      var front := listing[..|listing| - 1];
      var e := listing[|listing| - 1];
      assert DistinctNames(front);
      CorpusIdsDistinct(front, split, chunkSize, chunkOverlap);
      var d0 := CorpusDocuments(front, split, chunkSize, chunkOverlap);
      var ed := EntryDocuments(e, split, chunkSize, chunkOverlap);
      forall i | 0 <= i < |ed| ensures IdOf(ed[i]) == ChunkId(e.name, i) {
        EntryId(e, split, chunkSize, chunkOverlap, i);
      }
      forall j, i: nat | 0 <= j < |d0| ensures IdOf(d0[j]) != ChunkId(e.name, i) {
        EarlierIdsDiffer(listing, split, chunkSize, chunkOverlap, j, i);
      }
      IdsDistinctConcat(d0, ed, e.name);
    }
  }

  /** The vector-database manager: its directories and collection name, and
      the handle it holds once a store is built or loaded. */
  class VectorDbManager {
    const dataDir: string
    const persistDir: string
    const collectionName: string
    var vectorDb: Option<DbHandle>

    /** A manager holds no handle until it builds or loads one. */
    constructor (dataDir: string, persistDir: string, collectionName: string)
      ensures this.dataDir == dataDir && this.persistDir == persistDir
      ensures this.collectionName == collectionName
      ensures vectorDb == None
    {
      this.dataDir := dataDir;
      this.persistDir := persistDir;
      this.collectionName := collectionName;
      vectorDb := None;
    }

    /** Builds a store from the documents of `listing` (the entries of
        `dataDir`), which is then usable; when there are none, the handle
        stays as it was. */
    method EmbedAndInsert(listing: seq<DirEntry>, split: Splitter, chunkSize: int, chunkOverlap: int)
      modifies this
      ensures var docs := CorpusDocuments(listing, split, chunkSize, chunkOverlap);
        vectorDb == if docs != [] then Some(Built(docs, persistDir, collectionName)) else old(vectorDb)
      ensures CorpusDocuments(listing, split, chunkSize, chunkOverlap) != [] ==> Usable(vectorDb)
    {
      var docs := CollectDocuments(listing, split, chunkSize, chunkOverlap);
      if docs != [] {
        vectorDb := Some(Built(docs, persistDir, collectionName));
      }
    }

    /** Opens the persisted collection unless the held handle is usable.
        When opening raises, the handle stays as it was. */
    method LoadDb(opening: Opening)
      modifies this
      ensures Usable(old(vectorDb)) ==> vectorDb == old(vectorDb)
      ensures !Usable(old(vectorDb)) ==>
                vectorDb == match opening
                            case OpenRaises => old(vectorDb)
                            case OpensWith(n) => Some(Opened(persistDir, collectionName, n))
    {
      if !Usable(vectorDb) {
        match opening
        case OpenRaises =>
        case OpensWith(n) => vectorDb := Some(Opened(persistDir, collectionName, n));
      }
    }

    /** The held handle, loading first when the held one is not usable. */
    method GetVectorDb(opening: Opening) returns (db: Option<DbHandle>)
      modifies this
      ensures db == vectorDb
      ensures Usable(old(vectorDb)) ==> db == old(vectorDb)
      ensures !Usable(old(vectorDb)) ==>
                db == match opening
                      case OpenRaises => old(vectorDb)
                      case OpensWith(n) => Some(Opened(persistDir, collectionName, n))
    {
      if !Usable(vectorDb) {
        LoadDb(opening);
      }
      db := vectorDb;
    }
  }

  /** A handle to a collection that holds documents, once loaded, is what
      every later `get_vector_db` returns, whether or not the store could be
      opened again. A handle to an empty collection is not kept: the next
      `get_vector_db` opens the store again. */
  method HandleIsCached(persistDir: string, collectionName: string, count: nat, later: Opening)
    returns (first: Option<DbHandle>, second: Option<DbHandle>)
    ensures first == Some(Opened(persistDir, collectionName, count))
    ensures count > 0 ==> second == first
    ensures count == 0 ==>
              second == match later
                        case OpenRaises => first
                        case OpensWith(n) => Some(Opened(persistDir, collectionName, n))
  {
    var vm := new VectorDbManager("data", persistDir, collectionName);
    first := vm.GetVectorDb(OpensWith(count));
    second := vm.GetVectorDb(later);
  }
}
