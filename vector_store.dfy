/**
 * The vector store behind retrieval (core/vector_store.py): the FAQ documents
 * and the passage texts embedded for them, the FAISS index, the four cache
 * files, and the two searches that turn index hits into retrieved FAQs.
 *
 * The embedding model is an `Encoder` value (its dimension and the exception it
 * raises, if any) and embedding plus index search is a `Knn` oracle passed to
 * each search; the cache directory is a `CacheFiles` field.
 */
module VectorStore {
  import opened Wrappers
  import opened Text
  import opened PendingChanges
  import opened FaqStaging

  const DefaultEmbeddingModel: string := "intfloat/multilingual-e5-small"
  const DefaultCacheDir: string := "rag_cache"
  const DefaultMetric: string := "l2"
  const DefaultTopK: int := 5

  /** Python's `value or default` on an optional string. */
  function OrDefault(v: Option<string>, d: string): string {
    if v.Some? && v.value != [] then v.value else d
  }

  // ---------------------------------------------------------------------------
  // Passage texts

  /** The text embedded for one FAQ. */
  function Passage(d: RagDoc): string {
    "passage: Q: " + d.question + "\nA: " + d.answer
  }

  /** The passages of a document list, in order. */
  function Passages(docs: seq<RagDoc>): seq<string>
  {
    if docs == [] then [] else Passages(docs[..|docs| - 1]) + [Passage(docs[|docs| - 1])]
  }

  /** One passage per document, each built from the document at the same position. */
  lemma {:induction false} PassagesSpec(docs: seq<RagDoc>)
    ensures |Passages(docs)| == |docs|
    ensures forall i :: 0 <= i < |docs| ==> Passages(docs)[i] == Passage(docs[i])
  {
    if docs != [] {
      var n := |docs| - 1;
      PassagesSpec(docs[..n]);
      assert forall i :: 0 <= i < n ==> docs[..n][i] == docs[i];
    }
  }

  /** A passage carries its FAQ's question and answer. */
  lemma PassageHolds(d: RagDoc)
    ensures IsInfix(d.question, Passage(d)) && IsInfix(d.answer, Passage(d))
  {
    assert Passage(d) == "passage: Q: " + d.question + ("\nA: " + d.answer);
    InfixOfConcat("passage: Q: ", d.question, "\nA: " + d.answer);
    assert Passage(d) == "passage: Q: " + d.question + "\nA: " + d.answer + [];
    InfixOfConcat("passage: Q: " + d.question + "\nA: ", d.answer, []);
  }

  // ---------------------------------------------------------------------------
  // The index, the embedding model and the cache files

  /** `IndexFlatIP` for the cosine metric, `IndexFlatL2` for any other. */
  datatype IndexKind = FlatIP | FlatL2

  function KindFor(metric: string): IndexKind {
    if metric == "cosine" then FlatIP else FlatL2
  }

  /** A FAISS index: its kind, the vector dimension and how many vectors it holds. */
  datatype Index = Index(kind: IndexKind, dimension: nat, size: nat)

  /** An embedding matrix, by its shape. */
  datatype Embeddings = Embeddings(count: nat, dimension: nat)

  /**
   * The sentence-embedding model: the dimension it embeds into, and the message
   * of the exception that loading it, or encoding with it, raises.
   */
  datatype Encoder = Encoder(dimension: nat, loadError: Option<string>, encodeError: Option<string>)

  /** One k-NN hit: a score and a row number (FAISS pads missing hits with -1). */
  datatype Hit = Hit(score: real, idx: int)

  /** Embedding a query text and searching an index under a metric for k hits. */
  type Knn = (Index, string, string, int) -> seq<Hit>

  /** A cache file: absent, present but unreadable, or holding a value. */
  datatype File<T> = Missing | Corrupt | Stored(content: T)

  /** `metadata.json`; every key is optional to a reader. */
  datatype Metadata = Metadata(
    modelName: Option<string>,
    documentCount: Option<nat>,
    embeddingDimension: Option<nat>,
    distanceMetric: Option<string>,
    createdAt: Option<string>,
    cacheVersion: Option<string>)

  /** The four files of the cache directory. */
  datatype CacheFiles = CacheFiles(
    documents: File<seq<RagDoc>>,
    embeddings: File<Embeddings>,
    faissIndex: File<Index>,
    metadata: File<Metadata>)

  const NoCache: CacheFiles := CacheFiles(Missing, Missing, Missing, Missing)

  datatype CacheKey = DocumentsKey | EmbeddingsKey | FaissIndexKey | MetadataKey

  /** The files `_get_cache_paths` names, in its order. */
  const CacheKeys: seq<CacheKey> := [DocumentsKey, EmbeddingsKey, FaissIndexKey, MetadataKey]

  function FileName(k: CacheKey): string {
    match k
    case DocumentsKey => "documents.pkl"
    case EmbeddingsKey => "embeddings.npy"
    case FaissIndexKey => "faiss_index.bin"
    case MetadataKey => "metadata.json"
  }

  /** `os.path.exists` on one cache file. */
  predicate Present(c: CacheFiles, k: CacheKey) {
    match k
    case DocumentsKey => !c.documents.Missing?
    case EmbeddingsKey => !c.embeddings.Missing?
    case FaissIndexKey => !c.faissIndex.Missing?
    case MetadataKey => !c.metadata.Missing?
  }

  predicate Complete(c: CacheFiles) {
    !c.documents.Missing? && !c.embeddings.Missing? && !c.faissIndex.Missing? && !c.metadata.Missing?
  }

  /** `os.remove` on one cache file. */
  function Remove(c: CacheFiles, k: CacheKey): CacheFiles {
    match k
    case DocumentsKey => c.(documents := Missing)
    case EmbeddingsKey => c.(embeddings := Missing)
    case FaissIndexKey => c.(faissIndex := Missing)
    case MetadataKey => c.(metadata := Missing)
  }

  function RemoveAll(c: CacheFiles, ks: seq<CacheKey>): CacheFiles {
    if ks == [] then c else Remove(RemoveAll(c, ks[..|ks| - 1]), ks[|ks| - 1])
  }

  /** Each removed key is gone afterwards. */
  lemma {:induction false} RemoveAllRemoves(c: CacheFiles, ks: seq<CacheKey>, k: CacheKey)
    requires k in ks
    ensures !Present(RemoveAll(c, ks), k)
  {
    var n := |ks| - 1;
    if ks[n] != k {
      assert k in ks[..n] by {
        var j :| 0 <= j < |ks| && ks[j] == k;
        assert ks[..n][j] == k;
      }
      RemoveAllRemoves(c, ks[..n], k);
    }
  }

  /** Removing every cache file leaves none. */
  lemma RemoveAllKeys(c: CacheFiles)
    ensures RemoveAll(c, CacheKeys) == NoCache
  {
    var r := RemoveAll(c, CacheKeys);
    RemoveAllRemoves(c, CacheKeys, DocumentsKey);
    RemoveAllRemoves(c, CacheKeys, EmbeddingsKey);
    RemoveAllRemoves(c, CacheKeys, FaissIndexKey);
    RemoveAllRemoves(c, CacheKeys, MetadataKey);
    assert !Present(r, DocumentsKey) && !Present(r, EmbeddingsKey);
    assert !Present(r, FaissIndexKey) && !Present(r, MetadataKey);
  }

  // ---------------------------------------------------------------------------
  // The store's state and its transitions

  /** What loading, building, saving and clearing change. */
  datatype State = State(
    metric: string,
    index: Option<Index>,
    documents: seq<RagDoc>,
    texts: seq<string>,
    cache: CacheFiles)

  /** The cache `_load_from_cache` accepts for a model. */
  predicate Accepts(c: CacheFiles, modelName: string) {
    && Complete(c)
    && c.metadata.Stored? && c.metadata.content.modelName == Some(modelName)
    && c.documents.Stored? && c.faissIndex.Stored?
    && c.metadata.content.embeddingDimension.Some?
  }

  /** The metric after reading the metadata: a non-empty cached metric wins. */
  function AdoptMetric(md: Metadata, current: string): string {
    if md.distanceMetric.Some? && md.distanceMetric.value != [] then md.distanceMetric.value else current
  }

  /**
   * `_load_from_cache`: the state afterwards and whether the cache was used.
   * Each step that fails leaves what the earlier steps assigned; the summary
   * line reads `metadata['embedding_dimension']`, so a metadata file without it
   * rejects the cache after everything was loaded.
   */
  function Loaded(s: State, modelName: string): (r: (State, bool))
    ensures r.1 <==> Accepts(s.cache, modelName)
    ensures r.0.cache == s.cache
    ensures s.metric != [] ==> r.0.metric != []
    ensures !Complete(s.cache) ==> r.0 == s
    ensures s.cache.metadata.Stored? && s.cache.metadata.content.modelName != Some(modelName) ==> r.0 == s
    ensures r.1 ==> && r.0.documents == s.cache.documents.content
                    && r.0.index == Some(s.cache.faissIndex.content)
                    && r.0.texts == Passages(r.0.documents)
                    && r.0.metric == AdoptMetric(s.cache.metadata.content, s.metric)
  {
    var c := s.cache;
    if !Complete(c) || !c.metadata.Stored? then (s, false)
    else
      var md := c.metadata.content;
      if md.modelName != Some(modelName) then (s, false)
      else
        var s1 := s.(metric := AdoptMetric(md, s.metric));
        if !c.documents.Stored? then (s1, false)
        else
          var s2 := s1.(documents := c.documents.content);
          if !c.faissIndex.Stored? then (s2, false)
          else (s2.(index := Some(c.faissIndex.content), texts := Passages(s2.documents)), md.embeddingDimension.Some?)
  }

  /** `_save_to_cache`: all four files, or none when writing fails. */
  function Saved(s: State, modelName: string, emb: Embeddings, createdAt: string, writable: bool): State
    requires s.index.Some?
  {
    if !writable then s
    else
      var md := Metadata(Some(modelName), Some(|s.documents|), Some(emb.dimension), Some(s.metric),
                         Some(createdAt), Some("1.0"));
      s.(cache := CacheFiles(Stored(s.documents), Stored(emb), Stored(s.index.value), Stored(md)))
  }

  /**
   * `_build_index`: the documents and texts are assigned before embedding, so a
   * failing encoder leaves them in place without an index; a failed save is
   * swallowed.
   */
  function Built(s: State, docs: seq<RagDoc>, texts: seq<string>, e: Encoder, modelName: string,
                 createdAt: string, writable: bool): (State, Outcome)
  {
    if e.loadError.Some? then (s, Raised(LibraryError(e.loadError.value)))
    else
      var s1 := s.(documents := docs, texts := texts);
      if e.encodeError.Some? then (s1, Raised(LibraryError(e.encodeError.value)))
      else
        var s2 := s1.(index := Some(Index(KindFor(s.metric), e.dimension, |texts|)));
        (Saved(s2, modelName, Embeddings(|texts|, e.dimension), createdAt, writable), Done)
  }

  /** `_build_index_from_service`: the cache unless forced, else the FAQ documents given. */
  function FromService(s: State, docs: seq<RagDoc>, force: bool, e: Encoder, modelName: string,
                       createdAt: string, writable: bool): (r: (State, Outcome))
    ensures s.metric != [] ==> r.0.metric != []
    ensures r.1 == Done ==> r.0.index.Some? && r.0.texts == Passages(r.0.documents)
    ensures r.1 != Done ==> r.1.Raised? && r.1.error.LibraryError?
  {
    if !force && Loaded(s, modelName).1 then (Loaded(s, modelName).0, Done)
    else Built(if force then s else Loaded(s, modelName).0, docs, Passages(docs), e, modelName, createdAt, writable)
  }

  /** `_clear_cache`: the files go (when removal succeeds) and the memory is reset. */
  function AfterClear(s: State, removable: bool): State {
    s.(index := None, documents := [], texts := [], cache := if removable then NoCache else s.cache)
  }

  datatype ClearReport = ClearReport(success: bool, message: string, timestamp: string)

  datatype RebuildReport = RebuildReport(
    success: bool,
    message: string,
    faqCount: int,
    restoredCount: int,
    clearedPendingCount: int,
    timestamp: string)

  const RebuildFailed: string := "Failed to rebuild cache: "

  function RebuildMessage(faqCount: int, restored: int): string {
    "RAG cache rebuilt with " + IntToString(faqCount) + " FAQs, restored " + IntToString(restored) + " FAQ statuses"
  }

  // ---------------------------------------------------------------------------
  // Properties of the transitions

  /** Whatever the cache holds, a hit does not depend on the FAQ documents: they are not read. */
  lemma CacheHitIgnoresDocuments(s: State, docs1: seq<RagDoc>, docs2: seq<RagDoc>, e: Encoder,
                                 modelName: string, createdAt: string, writable: bool)
    requires Accepts(s.cache, modelName)
    ensures FromService(s, docs1, false, e, modelName, createdAt, writable)
         == FromService(s, docs2, false, e, modelName, createdAt, writable)
    ensures FromService(s, docs1, false, e, modelName, createdAt, writable).1 == Done
  {
  }

  /** A forced build ignores the cache: it indexes exactly the documents given. */
  lemma ForcedBuildIndexesDocuments(s: State, docs: seq<RagDoc>, e: Encoder, modelName: string,
                                    createdAt: string, writable: bool)
    requires e.loadError.None? && e.encodeError.None?
    ensures var r := FromService(s, docs, true, e, modelName, createdAt, writable);
      && r.1 == Done
      && r.0.documents == docs
      && r.0.index == Some(Index(KindFor(s.metric), e.dimension, |docs|))
      && (writable ==> r.0.cache.documents == Stored(docs))
      && (!writable ==> r.0.cache == s.cache)
  {
    PassagesSpec(docs);
  }

  /** What a successful build saves, a later load reads back unchanged. */
  lemma SaveLoadRoundTrip(s: State, docs: seq<RagDoc>, e: Encoder, modelName: string, createdAt: string)
    requires s.metric != [] && e.loadError.None? && e.encodeError.None?
    ensures var b := Built(s, docs, Passages(docs), e, modelName, createdAt, true).0;
            Loaded(b, modelName) == (b, true)
  {
  }

  /** After the files are removed, loading fails and changes nothing. */
  lemma ClearedCacheMisses(s: State, modelName: string)
    ensures Loaded(AfterClear(s, true), modelName) == (AfterClear(s, true), false)
  {
  }

  // ---------------------------------------------------------------------------
  // Searches

  /** `top_k or settings.default_top_k`. */
  function TopK(topK: Option<int>): int {
    if topK.None? || topK.value == 0 then DefaultTopK else topK.value
  }

  const JapaneseQueryPrefix: string := "query: SUSTENについて："
  const PlainQueryPrefix: string := "query:"
  const Separator: string := "\n\n"

  /** Python's `xs[i]`: a negative index counts from the end. */
  function PyAt<T>(xs: seq<T>, i: int): (r: Result<T>)
    ensures r.Ok? <==> -|xs| <= i < |xs|
    ensures 0 <= i < |xs| ==> r == Ok(xs[i])
    ensures -|xs| <= i < 0 ==> r == Ok(xs[|xs| + i])
    ensures r.Err? ==> r.error == PythonError("IndexError")
  {
    if 0 <= i < |xs| then Ok(xs[i])
    else if -|xs| <= i < 0 then Ok(xs[|xs| + i])
    else Err(PythonError("IndexError"))
  }

  /** `[texts[i] for i in hits]`. */
  function TextsAt(texts: seq<string>, hits: seq<Hit>): Result<seq<string>>
  {
    if hits == [] then Ok([])
    else
      var init := TextsAt(texts, hits[..|hits| - 1]);
      var t := PyAt(texts, hits[|hits| - 1].idx);
      if init.Err? then init
      else if t.Err? then Err(t.error)
      else Ok(init.value + [t.value])
  }

  predicate AllIndexable(n: nat, hits: seq<Hit>) {
    forall i :: 0 <= i < |hits| ==> -(n as int) <= hits[i].idx < n
  }

  /** The lookup succeeds iff every hit can index the texts, and then gives the text of each hit. */
  lemma {:induction false} TextsAtSpec(texts: seq<string>, hits: seq<Hit>)
    ensures TextsAt(texts, hits).Ok? <==> AllIndexable(|texts|, hits)
    ensures TextsAt(texts, hits).Err? ==> TextsAt(texts, hits).error == PythonError("IndexError")
    ensures TextsAt(texts, hits).Ok? ==>
      && |TextsAt(texts, hits).value| == |hits|
      && forall i :: 0 <= i < |hits| ==> TextsAt(texts, hits).value[i] == PyAt(texts, hits[i].idx).value
  {
    if hits != [] {
      var n := |hits| - 1;
      TextsAtSpec(texts, hits[..n]);
      assert forall i :: 0 <= i < n ==> hits[..n][i] == hits[i];
    }
  }

  /** The FAISS padding -1 picks the last text: a short index repeats it. */
  lemma PaddingRepeatsLast(a: string, b: string)
    ensures TextsAt([a, b], [Hit(0.5, 1), Hit(0.0, -1)]) == Ok([b, b])
  {
    var hits := [Hit(0.5, 1), Hit(0.0, -1)];
    assert hits[..1] == [Hit(0.5, 1)];
    assert hits[..1][..0] == [];
    var none: seq<string> := [];
    assert TextsAt([a, b], hits[..1][..0]) == Ok(none);
    assert none + [b] == [b];
    assert TextsAt([a, b], hits[..1]) == Ok([b]);
    assert [b] + [b] == [b, b];
  }

  /**
   * The context `search_similar_faqs` assembles from the hits of its two
   * queries: each list of texts joined by a blank line, then the two joined
   * the same way, without removing repeats.
   */
  function Context(texts: seq<string>, first: seq<Hit>, second: seq<Hit>): Result<string>
  {
    var a :- TextsAt(texts, first);
    var b :- TextsAt(texts, second);
    Ok(Join(a, Separator) + Separator + Join(b, Separator))
  }

  /** Either query's every retrieved text is in the assembled context. */
  lemma ContextHoldsAllHits(texts: seq<string>, first: seq<Hit>, second: seq<Hit>)
    requires AllIndexable(|texts|, first) && AllIndexable(|texts|, second)
    ensures Context(texts, first, second).Ok?
    ensures forall i :: 0 <= i < |first| ==> IsInfix(PyAt(texts, first[i].idx).value, Context(texts, first, second).value)
    ensures forall i :: 0 <= i < |second| ==> IsInfix(PyAt(texts, second[i].idx).value, Context(texts, first, second).value)
  {
    TextsAtSpec(texts, first);
    TextsAtSpec(texts, second);
    var a := TextsAt(texts, first).value;
    var b := TextsAt(texts, second).value;
    forall i | 0 <= i < |first|
      ensures IsInfix(PyAt(texts, first[i].idx).value, Context(texts, first, second).value)
    {
      JoinHolds(a, Separator, i);
      InfixExtend(a[i], Join(a, Separator), Separator + Join(b, Separator));
      assert Join(a, Separator) + (Separator + Join(b, Separator)) == Context(texts, first, second).value;
    }
    forall i | 0 <= i < |second|
      ensures IsInfix(PyAt(texts, second[i].idx).value, Context(texts, first, second).value)
    {
      JoinHolds(b, Separator, i);
      InfixShift(Join(a, Separator) + Separator, b[i], Join(b, Separator));
    }
  }

  /** The context fails, with IndexError, exactly when a hit cannot index the texts. */
  lemma ContextFails(texts: seq<string>, first: seq<Hit>, second: seq<Hit>)
    ensures Context(texts, first, second).Ok? <==> AllIndexable(|texts|, first) && AllIndexable(|texts|, second)
    ensures Context(texts, first, second).Err? ==> Context(texts, first, second).error == PythonError("IndexError")
  {
    TextsAtSpec(texts, first);
    TextsAtSpec(texts, second);
  }

  /** One `search_similar` result: the document, its score and its one-based rank. */
  datatype Ranked = Ranked(doc: RagDoc, score: real, rank: int)

  /**
   * `search_similar` with the guard `0 <= idx < len(documents)`: the hits that
   * name a document, each ranked by its position among all hits.
   */
  function RankedHits(docs: seq<RagDoc>, hits: seq<Hit>): seq<Ranked>
  {
    if hits == [] then []
    else
      var n := |hits| - 1;
      var init := RankedHits(docs, hits[..n]);
      if 0 <= hits[n].idx < |docs| then init + [Ranked(docs[hits[n].idx], hits[n].score, n + 1)] else init
  }

  /** `search_similar` as written: the guard is only `idx < len(documents)`. */
  function RankedHitsAsWritten(docs: seq<RagDoc>, hits: seq<Hit>): Result<seq<Ranked>>
  {
    if hits == [] then Ok([])
    else
      var n := |hits| - 1;
      var init := RankedHitsAsWritten(docs, hits[..n]);
      if init.Err? then init
      else if hits[n].idx < |docs| then
        var d := PyAt(docs, hits[n].idx);
        if d.Err? then Err(d.error) else Ok(init.value + [Ranked(d.value, hits[n].score, n + 1)])
      else init
  }

  /** Once a prefix of the hits raises, the whole search raises the same error. */
  lemma {:induction false} AsWrittenErrorSticks(docs: seq<RagDoc>, hits: seq<Hit>, i: nat)
    requires i <= |hits| && RankedHitsAsWritten(docs, hits[..i]).Err?
    ensures RankedHitsAsWritten(docs, hits) == RankedHitsAsWritten(docs, hits[..i])
  {
    if i < |hits| {
      var n := |hits| - 1;
      assert hits[..n][..i] == hits[..i];
      AsWrittenErrorSticks(docs, hits[..n], i);
    } else {
      assert hits[..i] == hits;
    }
  }

  /** How many hits name a document. */
  function InRange(n: nat, hits: seq<Hit>): nat {
    if hits == [] then 0
    else InRange(n, hits[..|hits| - 1]) + (if 0 <= hits[|hits| - 1].idx < n then 1 else 0)
  }

  /** One corrected result per hit that names a document. */
  lemma {:induction false} RankedHitsCount(docs: seq<RagDoc>, hits: seq<Hit>)
    ensures |RankedHits(docs, hits)| == InRange(|docs|, hits)
  {
    if hits != [] {
      RankedHitsCount(docs, hits[..|hits| - 1]);
    }
  }

  /** A corrected result carries the document and score of the hit its rank names. */
  predicate RankedFrom(docs: seq<RagDoc>, hits: seq<Hit>, r: Ranked) {
    && 1 <= r.rank <= |hits|
    && 0 <= hits[r.rank - 1].idx < |docs|
    && r.doc == docs[hits[r.rank - 1].idx]
    && r.score == hits[r.rank - 1].score
  }

  /**
   * The corrected results, in hit order: each is the hit its rank names, with
   * that hit's document and score.
   */
  lemma {:induction false} RankedHitsSpec(docs: seq<RagDoc>, hits: seq<Hit>)
    ensures forall j :: 0 <= j < |RankedHits(docs, hits)| ==> RankedFrom(docs, hits, RankedHits(docs, hits)[j])
    ensures forall j, k :: 0 <= j < k < |RankedHits(docs, hits)| ==>
      RankedHits(docs, hits)[j].rank < RankedHits(docs, hits)[k].rank
    ensures forall j :: 0 <= j < |RankedHits(docs, hits)| ==> RankedHits(docs, hits)[j].rank <= |hits|
  {
    if hits != [] {
      var n := |hits| - 1;
      var init := RankedHits(docs, hits[..n]);
      RankedHitsSpec(docs, hits[..n]);
      forall j | 0 <= j < |init|
        ensures RankedFrom(docs, hits, init[j])
      {
        assert RankedFrom(docs, hits[..n], init[j]);
        assert hits[..n][init[j].rank - 1] == hits[init[j].rank - 1];
      }
    }
  }

  /** When every hit names a document, the i-th result is the i-th hit with rank i+1. */
  lemma {:induction false} RankedHitsAllInRange(docs: seq<RagDoc>, hits: seq<Hit>)
    requires forall i :: 0 <= i < |hits| ==> 0 <= hits[i].idx < |docs|
    ensures |RankedHits(docs, hits)| == |hits|
    ensures forall i :: 0 <= i < |hits| ==> RankedHits(docs, hits)[i] == Ranked(docs[hits[i].idx], hits[i].score, i + 1)
  {
    if hits != [] {
      var n := |hits| - 1;
      var front := hits[..n];
      assert forall i :: 0 <= i < n ==> front[i] == hits[i];
      RankedHitsAllInRange(docs, front);
      var init := RankedHits(docs, front);
      var r := init + [Ranked(docs[hits[n].idx], hits[n].score, n + 1)];
      assert RankedHits(docs, hits) == r;
      forall i | 0 <= i < |hits|
        ensures r[i] == Ranked(docs[hits[i].idx], hits[i].score, i + 1)
      {
        if i < n {
          assert r[i] == init[i];
        }
      }
    }
  }

  /** Without negative hits the code as written and the corrected guard agree. */
  lemma {:induction false} AsWrittenAgreesOnNonNegative(docs: seq<RagDoc>, hits: seq<Hit>)
    requires forall i :: 0 <= i < |hits| ==> 0 <= hits[i].idx
    ensures RankedHitsAsWritten(docs, hits) == Ok(RankedHits(docs, hits))
  {
    if hits != [] {
      var n := |hits| - 1;
      assert forall i :: 0 <= i < n ==> hits[..n][i] == hits[i];
      AsWrittenAgreesOnNonNegative(docs, hits[..n]);
      if hits[n].idx < |docs| {
        assert PyAt(docs, hits[n].idx) == Ok(docs[hits[n].idx]);
      }
    }
  }

  /**
   * FAISS pads a search for more hits than the index holds with -1; as written
   * that padding passes the guard and returns the last document again.
   */
  lemma PaddingDuplicatesAsWritten(d: RagDoc, s0: real, s1: real)
    ensures RankedHitsAsWritten([d], [Hit(s0, 0), Hit(s1, -1)]) == Ok([Ranked(d, s0, 1), Ranked(d, s1, 2)])
    ensures RankedHits([d], [Hit(s0, 0), Hit(s1, -1)]) == [Ranked(d, s0, 1)]
  {
    var hits := [Hit(s0, 0), Hit(s1, -1)];
    assert hits[..1] == [Hit(s0, 0)];
    assert hits[..1][..0] == [];
    var none: seq<Ranked> := [];
    assert RankedHitsAsWritten([d], hits[..1][..0]) == Ok(none);
    assert RankedHits([d], hits[..1][..0]) == none;
    assert none + [Ranked(d, s0, 1)] == [Ranked(d, s0, 1)];
    assert RankedHitsAsWritten([d], hits[..1]) == Ok([Ranked(d, s0, 1)]);
    assert RankedHits([d], hits[..1]) == [Ranked(d, s0, 1)];
    assert [Ranked(d, s0, 1)] + [Ranked(d, s1, 2)] == [Ranked(d, s0, 1), Ranked(d, s1, 2)];
  }

  // ---------------------------------------------------------------------------
  // The store

  class VectorStore {
    const modelName: string
    const cacheDir: string
    var distanceMetric: string
    /** The FAISS index, once built or loaded. */
    var index: Option<Index>
    var documents: seq<RagDoc>
    /** The passage texts searches return, position by position with `documents`. */
    var documentTexts: seq<string>
    var initialized: bool
    /** What the cache directory holds. */
    var cache: CacheFiles
    /** Whether writing the cache files succeeds. */
    const writable: bool
    /** Whether removing a cache file succeeds. */
    const removable: bool

    /** A metric is always set, and a ready store searches the passages of its documents. */
    predicate Valid()
      reads this
    {
      distanceMetric != [] && (IsReady() ==> documentTexts == Passages(documents))
    }

    /** `is_ready`. */
    predicate IsReady()
      reads this
    {
      initialized && index.Some?
    }

    function St(): State
      reads this
    {
      State(distanceMetric, index, documents, documentTexts, cache)
    }

    /** `__init__`: an omitted or empty setting takes the configured default. */
    constructor (modelName: Option<string>, cacheDir: Option<string>, distanceMetric: Option<string>,
                 cache: CacheFiles, writable: bool, removable: bool)
      ensures Valid() && !IsReady()
      ensures this.modelName == OrDefault(modelName, DefaultEmbeddingModel)
      ensures this.cacheDir == OrDefault(cacheDir, DefaultCacheDir)
      ensures this.distanceMetric == OrDefault(distanceMetric, DefaultMetric)
      ensures index.None? && documents == [] && documentTexts == [] && !initialized
      ensures this.cache == cache && this.writable == writable && this.removable == removable
    {
      this.modelName := OrDefault(modelName, DefaultEmbeddingModel);
      this.cacheDir := OrDefault(cacheDir, DefaultCacheDir);
      this.distanceMetric := OrDefault(distanceMetric, DefaultMetric);
      index := None;
      documents := [];
      documentTexts := [];
      initialized := false;
      this.cache := cache;
      this.writable := writable;
      this.removable := removable;
    }

    /** `_get_cache_paths`: each file under the cache directory. */
    function CachePath(k: CacheKey): (p: string)
      reads this
      ensures IsPrefixOf(cacheDir, p) && IsSuffixOf(FileName(k), p)
    {
      PathJoin(cacheDir, FileName(k))
    }

    /** `_format_faq_texts`. */
    method FormatFaqTexts(docs: seq<RagDoc>) returns (texts: seq<string>)
      ensures texts == Passages(docs)
    {
      texts := [];
      for i := 0 to |docs|
        invariant texts == Passages(docs[..i])
      {
        assert docs[..i + 1][..i] == docs[..i];
        texts := texts + [Passage(docs[i])];
      }
      assert docs[..|docs|] == docs;
    }

    /** `_clear_cache`: remove each present file, then reset the memory. */
    method ClearCache(now: string) returns (r: ClearReport)
      modifies this
      ensures St() == AfterClear(old(St()), removable)
      ensures initialized == old(initialized)
      ensures r == ClearReport(true, "RAG cache cleared successfully", now)
    {
      var c := cache;
      for i := 0 to |CacheKeys|
        invariant c == if removable then RemoveAll(old(cache), CacheKeys[..i]) else old(cache)
      {
        assert CacheKeys[..i + 1][..i] == CacheKeys[..i];
        if Present(c, CacheKeys[i]) && removable {
          c := Remove(c, CacheKeys[i]);
        }
      }
      assert CacheKeys[..|CacheKeys|] == CacheKeys;
      RemoveAllKeys(old(cache));
      cache := c;
      index := None;
      documents := [];
      documentTexts := [];
      r := ClearReport(true, "RAG cache cleared successfully", now);
    }

    /** `invalidate_cache`: clearing, whose failures are only reported. */
    method InvalidateCache(now: string)
      requires Valid()
      modifies this
      ensures Valid()
      ensures St() == AfterClear(old(St()), removable) && initialized == old(initialized)
    {
      var _ := ClearCache(now);
    }

    /** `_save_to_cache`: returns whether the files were written. */
    method SaveToCache(emb: Embeddings, createdAt: string) returns (saved: bool)
      requires index.Some?
      modifies this
      ensures St() == Saved(old(St()), modelName, emb, createdAt, writable)
      ensures saved == writable && initialized == old(initialized)
    {
      if !writable {
        return false;
      }
      var md := Metadata(Some(modelName), Some(|documents|), Some(emb.dimension), Some(distanceMetric),
                         Some(createdAt), Some("1.0"));
      cache := CacheFiles(Stored(documents), Stored(emb), Stored(index.value), Stored(md));
      saved := true;
    }

    /** `_load_from_cache`. */
    method LoadFromCache() returns (ok: bool)
      modifies this
      ensures (St(), ok) == Loaded(old(St()), modelName)
      ensures initialized == old(initialized)
    {
      var c := cache;
      for i := 0 to |CacheKeys|
        invariant forall j :: 0 <= j < i ==> Present(c, CacheKeys[j])
      {
        if !Present(c, CacheKeys[i]) {
          return false;
        }
      }
      assert Present(c, CacheKeys[0]) && Present(c, CacheKeys[1]);
      assert Present(c, CacheKeys[2]) && Present(c, CacheKeys[3]);
      if !c.metadata.Stored? {
        return false;
      }
      var md := c.metadata.content;
      if md.modelName != Some(modelName) {
        return false;
      }
      var cached := md.distanceMetric;
      if cached.Some? && cached.value != [] && cached.value != distanceMetric {
        distanceMetric := cached.value;
      }
      if !c.documents.Stored? {
        return false;
      }
      documents := c.documents.content;
      if !c.faissIndex.Stored? {
        return false;
      }
      index := Some(c.faissIndex.content);
      documentTexts := FormatFaqTexts(documents);
      ok := md.embeddingDimension.Some?;
    }

    /** `_build_index`. */
    method BuildIndex(docs: seq<RagDoc>, texts: seq<string>, e: Encoder, createdAt: string) returns (r: Outcome)
      modifies this
      ensures (St(), r) == Built(old(St()), docs, texts, e, modelName, createdAt, writable)
      ensures initialized == old(initialized)
    {
      if e.loadError.Some? {
        return Raised(LibraryError(e.loadError.value));
      }
      documents := docs;
      documentTexts := texts;
      if e.encodeError.Some? {
        return Raised(LibraryError(e.encodeError.value));
      }
      var emb := Embeddings(|texts|, e.dimension);
      index := Some(Index(KindFor(distanceMetric), emb.dimension, emb.count));
      var _ := SaveToCache(emb, createdAt);
      r := Done;
    }

    /** `_build_index_from_service`: the FAQ documents are read only when the cache is not used. */
    method BuildIndexFromService(m: FaqManager, force: bool, e: Encoder, createdAt: string) returns (r: Outcome)
      modifies this
      ensures (St(), r) == FromService(old(St()), RagDocs(m.rows), force, e, modelName, createdAt, writable)
      ensures initialized == old(initialized)
    {
      if !force {
        var hit := LoadFromCache();
        if hit {
          return Done;
        }
      }
      var docs := m.LoadFaqsForRag();
      var texts := FormatFaqTexts(docs);
      r := BuildIndex(docs, texts, e, createdAt);
    }

    /** `initialize`: ready exactly when the cache or a build produced an index. */
    method Initialize(m: FaqManager, e: Encoder, createdAt: string) returns (ok: bool)
      requires Valid()
      modifies this
      ensures Valid()
      ensures ok <==> IsReady()
      ensures var t := FromService(old(St()), RagDocs(m.rows), false, e, modelName, createdAt, writable);
              St() == t.0 && ok == (t.1 == Done)
    {
      var built := BuildIndexFromService(m, false, e, createdAt);
      ok := built == Done;
      initialized := ok;
    }

    /**
     * `rebuild_cache`: clear, build from the FAQ table regardless of the cache,
     * and only after a successful build restore the staged statuses. A failed
     * build and a failed restore are both reported as a CacheError, and a failed
     * restore leaves the log as it was.
     */
    method RebuildCache(m: FaqManager, e: Encoder, createdAt: string, isoNow: string, now: string)
      returns (r: Result<RebuildReport>)
      requires Valid() && m.Valid()
      modifies this, m, m.log
      ensures Valid() && m.Valid() && initialized == old(initialized) && m.rows == old(m.rows)
      ensures var t := FromService(AfterClear(old(St()), removable), RagDocs(old(m.rows)), true, e, modelName,
                                   createdAt, writable);
        && St() == t.0
        && (t.1.Raised? ==>
              r == Err(CacheError(RebuildFailed + t.1.error.Str()))
              && m.rows == old(m.rows) && m.log.disk == old(m.log.disk))
        && (t.1 == Done ==> (r.Ok? <==> AllParse(old(m.log.Load()), isoNow) && old(m.log.writable)))
        && (t.1 == Done && !AllParse(old(m.log.Load()), isoNow) ==>
              r == Err(CacheError(RebuildFailed + (RestoreFailed + "Failed to get changes for rebuild")))
              && m.log.disk == old(m.log.disk))
        && (t.1 == Done && AllParse(old(m.log.Load()), isoNow) && !old(m.log.writable) ==>
              r == Err(CacheError(RebuildFailed + (RestoreFailed + "Failed to clear pending changes")))
              && m.log.disk == old(m.log.disk))
      ensures r.Ok? ==>
        && r.value.success
        && r.value.faqCount == |documents| == |old(m.rows)|
        && r.value.clearedPendingCount == |old(m.log.Load())|
        && r.value.message == RebuildMessage(r.value.faqCount, r.value.restoredCount)
        && r.value.timestamp == now
        && AllParse(old(m.log.Load()), isoNow)
        && r.value.restoredCount == RestoredCount(Changes(old(m.log.Load()), isoNow))
        && m.log.disk == Json([])
    {
      var _ := ClearCache(now);
      var built := BuildIndexFromService(m, true, e, createdAt);
      if built.Raised? {
        return Err(CacheError(RebuildFailed + built.error.Str()));
      }
      r := RestoreAfterBuild(m, |documents|, isoNow, now);
    }

    /**
     * The part of `rebuild_cache` after a successful build: restore the staged
     * statuses and report `count` FAQs; a failed restore is a CacheError.
     */
    method RestoreAfterBuild(m: FaqManager, count: nat, isoNow: string, now: string) returns (r: Result<RebuildReport>)
      requires m.Valid()
      modifies m, m.log
      ensures m.Valid() && m.rows == old(m.rows) && m.nextId == old(m.nextId) && m.log.writable == old(m.log.writable)
      ensures r.Ok? <==> AllParse(old(m.log.Load()), isoNow) && old(m.log.writable)
      ensures !AllParse(old(m.log.Load()), isoNow) ==>
        r == Err(CacheError(RebuildFailed + (RestoreFailed + "Failed to get changes for rebuild")))
        && m.log.disk == old(m.log.disk)
      ensures AllParse(old(m.log.Load()), isoNow) && !old(m.log.writable) ==>
        r == Err(CacheError(RebuildFailed + (RestoreFailed + "Failed to clear pending changes")))
        && m.log.disk == old(m.log.disk)
      ensures r.Ok? ==>
        && r == Ok(RebuildReport(true, RebuildMessage(count, r.value.restoredCount), count,
                                 RestoredCount(Changes(old(m.log.Load()), isoNow)), |old(m.log.Load())|, now))
        && m.log.disk == Json([])
    {
      var restored;
      ghost var replayed;
      restored, replayed := m.RestoreFaqStatuses(isoNow);
      if restored.Err? {
        return Err(CacheError(RebuildFailed + restored.error.Str()));
      }
      r := Ok(RebuildReport(true, RebuildMessage(count, restored.value.restoredCount), count,
                            restored.value.restoredCount, restored.value.clearedCount, now));
    }

    /**
     * `search_similar_faqs`: two queries over the index, the Japanese-prefixed
     * one first, assembled into one context; the indices are not checked.
     */
    function SearchSimilarFaqs(query: string, topK: Option<int>, knn: Knn): (r: Result<string>)
      reads this
      ensures !IsReady() ==> r == Err(CacheError("RAG system not initialized"))
      ensures IsReady() ==>
        r == Context(documentTexts,
                     knn(index.value, distanceMetric, JapaneseQueryPrefix + query, TopK(topK)),
                     knn(index.value, distanceMetric, PlainQueryPrefix + query, TopK(topK)))
    {
      if !IsReady() then Err(CacheError("RAG system not initialized"))
      else
        var k := TopK(topK);
        var first := knn(index.value, distanceMetric, JapaneseQueryPrefix + query, k);
        var second := knn(index.value, distanceMetric, PlainQueryPrefix + query, k);
        Context(documentTexts, first, second)
    }

    /**
     * `search_similar`: each hit whose index passes `idx < len(documents)` is
     * ranked by its position among all hits; a hit below `-len(documents)`
     * raises IndexError.
     */
    method SearchSimilar(query: string, topK: int, knn: Knn) returns (r: Result<seq<Ranked>>)
      ensures index.None? || documents == [] ==>
        r == Err(CacheError("Vector index not built. Call build_index() first."))
      ensures index.Some? && documents != [] ==>
        r == RankedHitsAsWritten(documents, knn(index.value, distanceMetric, query, topK))
    {
      if index.None? || documents == [] {
        return Err(CacheError("Vector index not built. Call build_index() first."));
      }
      var hits := knn(index.value, distanceMetric, query, topK);
      var results: seq<Ranked> := [];
      for i := 0 to |hits|
        invariant RankedHitsAsWritten(documents, hits[..i]) == Ok(results)
      {
        assert hits[..i + 1][..i] == hits[..i];
        var hit := hits[i];
        if hit.idx < |documents| {
          var doc := PyAt(documents, hit.idx);
          if doc.Err? {
            AsWrittenErrorSticks(documents, hits, i + 1);
            return Err(doc.error);
          }
          results := results + [Ranked(doc.value, hit.score, i + 1)];
        }
      }
      assert hits[..|hits|] == hits;
      r := Ok(results);
    }
  }
}
