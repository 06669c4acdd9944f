/**
 * `RetrievalEngine`: reopens a session's persisted index and chunk texts,
 * maps the positions a similarity search ranks to chunk texts, and asks the
 * chat model to answer a question from them through a fixed prompt.
 */
module Retrieval {
  import opened Wrappers
  import opened Text
  import opened Numerals
  import opened Storage
  import opened Config
  import opened PortalException
  import opened ModelLoading
  import opened Chunking
  import opened Ingestion

  const EngineError := "Failed to initialize RetrievalEngine"
  const LoadError := "Failed to load FAISS index"
  const RetrieveError := "Error during FAISS retrieval"
  const AnswerError := "Failed to generate answer"

  // ---------------------------------------------------------------- the persisted index

  /**
   * `_load_faiss()` on the session directory `dir`: both files must exist
   * (a directory counts), the index file must hold an index and the chunks
   * file text; the chunks are that text, read with universal newlines,
   * split on the separator.
   */
  function StoredIndex(dirs: set<string>, files: map<string, FileContent>, dir: string)
    : (r: Result<(FaissIndex, seq<string>), Reason>)
    ensures r.Ok? ==> |r.value.1| >= 1
  {
    var indexPath, chunksPath := PathJoin(dir, IndexFileName), PathJoin(dir, ChunksFileName);
    if !(indexPath in dirs || indexPath in files) || !(chunksPath in dirs || chunksPath in files) then Err(IndexFilesMissing)
    else if indexPath !in files || !files[indexPath].IndexFile? then Err(IndexUnreadable)
    else if chunksPath !in files || !files[chunksPath].TextFile? then Err(ChunksUnreadable)
    else Ok((files[indexPath].index, Split(UniversalNewlines(files[chunksPath].text), ChunkSeparator)))
  }

  /**
   * Reopening a directory the ingestor persisted gives back its index, and
   * gives back its chunks exactly when they hold no carriage return and
   * split back from their join.
   */
  lemma StoredIndexOfPersisted(dirs: set<string>, files: map<string, FileContent>, before: seq<WriteOp>, dir: string,
                               index: FaissIndex, chunks: seq<string>)
    requires chunks != []
    ensures var s := StoredIndex(dirs, ApplyWrites(files, before + IndexWrites(dir, index, chunks)), dir);
            && s.Ok? && s.value.0 == index
            && s.value.1 == Split(UniversalNewlines(Join(ChunkSeparator, chunks)), ChunkSeparator)
            && (s.value.1 == chunks
                <==> (forall i | 0 <= i < |chunks| :: NoReturn(chunks[i])) && SplitsBack(chunks, ChunkSeparator))
  {
    IndexDirectoryContents(files, before, dir, index, chunks);
    SeparatorHasNoReturn();
    ReadBack(ChunkSeparator, chunks);
  }

  lemma SeparatorHasNoReturn()
    ensures NoReturn(ChunkSeparator)
  {
  }

  /**
   * For stripped, non-empty chunks, splitting their join gives them back
   * exactly when none contains the separator and none but the last ends
   * with "\n\n---" (which would merge with the following separator).
   */
  lemma {:induction false} ReloadedChunks(chunks: seq<string>)
    requires chunks != [] && forall i | 0 <= i < |chunks| :: chunks[i] != [] && !IsSpace(chunks[i][|chunks[i]| - 1])
    ensures Split(Join(ChunkSeparator, chunks), ChunkSeparator) == chunks
            <==> && (forall i | 0 <= i < |chunks| :: !Contains(chunks[i], ChunkSeparator))
                 && (forall i | 0 <= i < |chunks| - 1 :: !EndsWith(chunks[i], "\n\n---"))
  {
    SplitJoin(ChunkSeparator, chunks);
    forall i | 0 <= i < |chunks| - 1
      ensures SeparatesCleanly(chunks[i], ChunkSeparator)
              <==> !Contains(chunks[i], ChunkSeparator) && !EndsWith(chunks[i], "\n\n---")
    {
      StrippedChunkSeparatesCleanly(chunks[i]);
    }
  }

  /** A chunk ending in a Markdown rule does not survive the round trip: it loses its rule to the next chunk. */
  lemma RuleEndingChunkSplitsDifferently()
    ensures Split(Join(ChunkSeparator, ["a\n\n---", "b"]), ChunkSeparator) != ["a\n\n---", "b"]
  {
    var chunks := ["a\n\n---", "b"];
    assert EndsWith(chunks[0], "\n\n---");
    ReloadedChunks(chunks);
  }

  /**
   * Stripped, non-empty chunks read back from their joined file exactly when
   * none holds a carriage return, none contains the separator and none but
   * the last ends with "\n\n---".
   */
  lemma ReloadCondition(chunks: seq<string>)
    requires chunks != [] && forall i | 0 <= i < |chunks| :: chunks[i] != [] && !IsSpace(chunks[i][|chunks[i]| - 1])
    ensures Split(UniversalNewlines(Join(ChunkSeparator, chunks)), ChunkSeparator) == chunks
            <==> && (forall i | 0 <= i < |chunks| :: NoReturn(chunks[i]) && !Contains(chunks[i], ChunkSeparator))
                 && (forall i | 0 <= i < |chunks| - 1 :: !EndsWith(chunks[i], "\n\n---"))
  {
    SeparatorHasNoReturn();
    ReadBack(ChunkSeparator, chunks);
    ReloadedChunks(chunks);
    SplitJoin(ChunkSeparator, chunks);
  }

  /**
   * A chunk whose text holds "\r\n" around a rule, as a PDF or DOCX parser
   * may give (a text upload cannot: it is read with universal newlines too):
   * it holds no separator, yet reading it back turns its "\r\n" into "\n"
   * and splits it.
   */
  lemma CarriageReturnChunkSplitsDifferently()
    ensures Split(UniversalNewlines(Join(ChunkSeparator, ["x\r\n\r\n---\r\n\r\ny"])), ChunkSeparator)
            != ["x\r\n\r\n---\r\n\r\ny"]
  {
    var chunks := ["x\r\n\r\n---\r\n\r\ny"];
    assert chunks[0][1] == '\r';
    SeparatorHasNoReturn();
    ReadBack(ChunkSeparator, chunks);
  }

  /**
   * What a successful ingestion persists reloads to the same chunk list,
   * in the same order as the index's vectors, exactly under the condition
   * of `ReloadCondition`.
   */
  lemma IngestedChunksReload(files: seq<UploadedFile>, dir: string, draws: nat -> Uuid, parsers: Parsers,
                             config: map<string, Value>)
    requires ChunkingTerminates(config)
    ensures var p := IngestLoop(files, dir, draws, parsers, config);
            p.outcome.Ok? && p.outcome.value != [] ==>
              var chunks := p.outcome.value;
              Split(UniversalNewlines(Join(ChunkSeparator, chunks)), ChunkSeparator) == chunks
              <==> && (forall i | 0 <= i < |chunks| :: NoReturn(chunks[i]) && !Contains(chunks[i], ChunkSeparator))
                   && (forall i | 0 <= i < |chunks| - 1 :: !EndsWith(chunks[i], "\n\n---"))
  {
    var p := IngestLoop(files, dir, draws, parsers, config);
    IngestedChunks(files, dir, draws, parsers, config);
    if p.outcome.Ok? && p.outcome.value != [] {
      var chunks := p.outcome.value;
      forall i | 0 <= i < |chunks| ensures chunks[i] != [] && !IsSpace(chunks[i][|chunks[i]| - 1]) {
        assert chunks[i] in chunks;
      }
      ReloadCondition(chunks);
    }
  }

  // ---------------------------------------------------------------- positions to chunks

  /** Python's `chunks[idx]`: a negative position counts from the end. */
  function Position(n: nat, l: int): int {
    if l < 0 then n + l else l
  }

  /** The labels the guard `idx < len(chunks)` lets through, in rank order. */
  function Below(labels: seq<int>, n: int): (r: seq<int>)
    ensures |r| <= |labels|
    ensures forall k | 0 <= k < |r| :: r[k] in labels && r[k] < n
  {
    if labels == [] then []
    else
      var init := Below(labels[..|labels| - 1], n);
      var l := labels[|labels| - 1];
      assert forall x | x in labels[..|labels| - 1] :: x in labels;
      if l < n then init + [l] else init
  }

  /**
   * The loop of `_retrieve` over the ranked labels: a label from
   * `len(chunks)` up is skipped, any other is looked up Python-style, which
   * raises IndexError below `-len(chunks)`.
   */
  function Retrieved(chunks: seq<string>, labels: seq<int>): (r: Result<seq<string>, Reason>)
  {
    if labels == [] then Ok([])
    else
      var prev := Retrieved(chunks, labels[..|labels| - 1]);
      var l := labels[|labels| - 1];
      if prev.Err? || l >= |chunks| then prev
      else if l < -|chunks| then Err(PositionOutOfRange(l))
      else Ok(prev.value + [chunks[Position(|chunks|, l)]])
  }

  /** Retrieval succeeds exactly when no label lies below `-len(chunks)`. */
  lemma {:induction false} RetrievedOk(chunks: seq<string>, labels: seq<int>)
    ensures Retrieved(chunks, labels).Ok? <==> forall x | x in labels :: -|chunks| <= x
  {
    if labels != [] {
      var init, l := labels[..|labels| - 1], labels[|labels| - 1];
      RetrievedOk(chunks, init);
      assert labels == init + [l];
      assert forall x | x in labels :: x in init || x == l;
      assert forall x | x in init :: x in labels;
      if Retrieved(chunks, init).Ok? && l < -|chunks| {
        assert l in labels;
      }
    }
  }

  /** A successful retrieval yields, in rank order, the chunk at each label below `len(chunks)`. */
  lemma {:induction false} RetrievedValues(chunks: seq<string>, labels: seq<int>)
    requires Retrieved(chunks, labels).Ok?
    ensures var r, kept := Retrieved(chunks, labels).value, Below(labels, |chunks|);
            && |r| == |kept|
            && forall k | 0 <= k < |kept| :: -|chunks| <= kept[k] && r[k] == chunks[Position(|chunks|, kept[k])]
  {
    if labels != [] {
      var init := labels[..|labels| - 1];
      RetrievedValues(chunks, init);
    }
  }

  /** A failed retrieval reports the first label below `-len(chunks)`, found at rank `i`. */
  lemma {:induction false} RetrievedFirstBad(chunks: seq<string>, labels: seq<int>) returns (i: nat)
    requires Retrieved(chunks, labels).Err?
    ensures i < |labels| && labels[i] < -|chunks|
    ensures Retrieved(chunks, labels).error == PositionOutOfRange(labels[i])
    ensures forall j | 0 <= j < i :: -|chunks| <= labels[j]
  {
    var init, l := labels[..|labels| - 1], labels[|labels| - 1];
    if Retrieved(chunks, init).Err? {
      i := RetrievedFirstBad(chunks, init);
      assert labels[i] == init[i];
    } else {
      RetrievedOk(chunks, init);
      i := |labels| - 1;
      assert forall j | 0 <= j < i :: labels[j] == init[j] && init[j] in init;
    }
  }

  /**
   * Retrieval succeeds exactly when no label lies below `-len(chunks)`; it
   * then yields, in rank order, the chunk at each label below `len(chunks)`,
   * and otherwise reports the first label out of range.
   */
  lemma RetrievedMeaning(chunks: seq<string>, labels: seq<int>)
    ensures var r, kept := Retrieved(chunks, labels), Below(labels, |chunks|);
            && (r.Ok? <==> forall x | x in labels :: -|chunks| <= x)
            && (r.Ok? ==> |r.value| == |kept| <= |labels|
                          && forall k | 0 <= k < |kept| :: r.value[k] == chunks[Position(|chunks|, kept[k])])
            && (r.Err? ==> exists i | 0 <= i < |labels| ::
                             && r.error == PositionOutOfRange(labels[i]) && labels[i] < -|chunks|
                             && forall j | 0 <= j < i :: -|chunks| <= labels[j])
  {
    RetrievedOk(chunks, labels);
    if Retrieved(chunks, labels).Ok? {
      RetrievedValues(chunks, labels);
    } else {
      var i := RetrievedFirstBad(chunks, labels);
    }
  }

  /** Labels that all name a stored chunk retrieve exactly those chunks, in rank order. */
  lemma {:induction false} RetrievedInRange(chunks: seq<string>, labels: seq<int>)
    requires forall i | 0 <= i < |labels| :: 0 <= labels[i] < |chunks|
    ensures var r := Retrieved(chunks, labels);
            && r.Ok? && |r.value| == |labels| && forall i | 0 <= i < |labels| :: r.value[i] == chunks[labels[i]]
  {
    if labels != [] {
      var init := labels[..|labels| - 1];
      RetrievedInRange(chunks, init);
    }
  }

  /** `k` copies of `x`. */
  function Repeat<T>(x: T, k: nat): (r: seq<T>)
    ensures |r| == k && forall i | 0 <= i < k :: r[i] == x
  {
    if k == 0 then [] else Repeat(x, k - 1) + [x]
  }

  /**
   * When `top_k` exceeds the stored vectors, FAISS pads the labels with -1;
   * the guard lets each -1 through, and each yields the last chunk.
   */
  lemma {:induction false} PaddingRepeatsLast(chunks: seq<string>, labels: seq<int>, k: nat)
    requires chunks != [] && Retrieved(chunks, labels).Ok?
    ensures Retrieved(chunks, labels + Repeat(-1, k))
            == Ok(Retrieved(chunks, labels).value + Repeat(chunks[|chunks| - 1], k))
  {
    var last := chunks[|chunks| - 1];
    if k == 0 {
      assert labels + Repeat(-1, 0) == labels;
      assert Retrieved(chunks, labels).value + Repeat(last, 0) == Retrieved(chunks, labels).value;
    } else {
      PaddingRepeatsLast(chunks, labels, k - 1);
      var padded := labels + Repeat(-1, k);
      assert padded[..|padded| - 1] == labels + Repeat(-1, k - 1);
      assert padded[|padded| - 1] == -1;
      assert Position(|chunks|, -1) == |chunks| - 1;
      assert Retrieved(chunks, labels).value + Repeat(last, k)
             == (Retrieved(chunks, labels).value + Repeat(last, k - 1)) + [last];
    }
  }

  /**
   * `_retrieve(query, top_k)` with the models as oracles: `embedQuery` for
   * `embed_query` and `search` for the index search, each None where it
   * raises. Every failure is reported under the retrieval message.
   */
  function Retrieval(embedding: EmbeddingModel, index: FaissIndex, chunks: seq<string>, query: string, topK: int,
                     embedQuery: (EmbeddingModel, string) -> Option<seq<real>>,
                     search: (FaissIndex, seq<real>, int) -> Option<seq<int>>): (r: Result<seq<string>, Failure>)
    ensures r.Err? ==> r.error.message == RetrieveError
    ensures embedQuery(embedding, query).None? ==> r == Err(Raised(RetrieveError, EmbeddingFailed))
    ensures embedQuery(embedding, query).Some? && search(index, embedQuery(embedding, query).value, topK).None?
            ==> r == Err(Raised(RetrieveError, SearchFailed))
    ensures embedQuery(embedding, query).Some? && search(index, embedQuery(embedding, query).value, topK).Some?
            ==> var found := Retrieved(chunks, search(index, embedQuery(embedding, query).value, topK).value);
                && (found.Ok? ==> r == Ok(found.value))
                && (found.Err? ==> r == Err(Raised(RetrieveError, found.error)))
  {
    match embedQuery(embedding, query)
    case None => Err(Raised(RetrieveError, EmbeddingFailed))
    case Some(vector) =>
      match search(index, vector, topK)
      case None => Err(Raised(RetrieveError, SearchFailed))
      case Some(labels) =>
        match Retrieved(chunks, labels)
        case Err(why) => Err(Raised(RetrieveError, why))
        case Ok(found) => Ok(found)
  }

  // ---------------------------------------------------------------- the answer

  /** The `context_qa` template, stripped, around its two placeholders. */
  const PromptPrefix := "You are an assistant that answers questions strictly using the provided context.\n\nRules:\n- Use ONLY the information in the context.\n- If the answer is not present, say: \"I don't know.\"\n- Keep the answer concise (maximum 3 sentences).\n\nContext:\n"
  const PromptMiddle := "\n\nQuestion:\n"
  const PromptSuffix := "\n\nAnswer:"

  const ContextSeparator := "\n\n"
  const NoAnswer := "No answer could be generated from the provided documents."

  /** `template.format(context=..., question=...)`: each value is inserted once, as it is. */
  function Prompt(context: string, question: string): string {
    PromptPrefix + context + PromptMiddle + question + PromptSuffix
  }

  /** The prompt is the template text with the context and the question at their places, unaltered. */
  lemma PromptFields(context: string, question: string)
    ensures var p, a := Prompt(context, question), |PromptPrefix| + |context|;
            && |p| == a + |PromptMiddle| + |question| + |PromptSuffix|
            && p[..|PromptPrefix|] == PromptPrefix
            && p[|PromptPrefix|..a] == context
            && p[a..a + |PromptMiddle|] == PromptMiddle
            && p[a + |PromptMiddle|..|p| - |PromptSuffix|] == question
            && p[|p| - |PromptSuffix|..] == PromptSuffix
  {
    Fields(PromptPrefix, context, PromptMiddle, question, PromptSuffix);
  }

  /** Each of five concatenated texts can be sliced back out at its offset. */
  lemma Fields(x: string, y: string, z: string, w: string, v: string)
    ensures var p, a := x + y + z + w + v, |x| + |y|;
            && |p| == a + |z| + |w| + |v|
            && p[..|x|] == x
            && p[|x|..a] == y
            && p[a..a + |z|] == z
            && p[a + |z|..|p| - |v|] == w
            && p[|p| - |v|..] == v
  {
    var p, a := x + y + z + w + v, |x| + |y|;
    var b := a + |z|;
    assert p == ((x + y) + (z + w)) + v;
    assert p[..a] == x + y;
    assert p[a..|p| - |v|] == z + w;
    assert p[..a][..|x|] == p[..|x|];
    assert p[..a][|x|..] == p[|x|..a];
    assert p[a..|p| - |v|][..|z|] == p[a..b];
    assert p[a..|p| - |v|][|z|..] == p[b..|p| - |v|];
  }

  /** Prompts with contexts of one length are equal only for the same context and question. */
  lemma PromptInjective(context: string, question: string, context': string, question': string)
    requires |context| == |context'| && Prompt(context, question) == Prompt(context', question')
    ensures context == context' && question == question'
  {
    PromptFields(context, question);
    PromptFields(context', question');
  }

  /** The reply `answer` returns for the model's text: the fixed fallback for a blank text, the text otherwise. */
  function Reply(text: string): string {
    if Strip(text) == [] then NoAnswer else text
  }

  /** The fallback replaces exactly the empty and whitespace-only texts; a reply is never blank. */
  lemma ReplyFallback(text: string)
    ensures AllSpace(text) ==> Reply(text) == NoAnswer
    ensures !AllSpace(text) ==> Reply(text) == text
    ensures !AllSpace(Reply(text)) && Reply(Reply(text)) == Reply(text)
  {
    StripEmpty(text);
    StripEmpty(Reply(text));
    NoAnswerNotBlank();
  }

  lemma NoAnswerNotBlank()
    ensures !AllSpace(NoAnswer)
  {
    assert NoAnswer[20] == 'e';
  }

  // ---------------------------------------------------------------- the engine

  class RetrievalEngine {
    const sessionId: string
    const faissDir: string
    const embedding: EmbeddingModel
    const llm: ChatClient
    /** Set by `LoadFaiss`. */
    var index: FaissIndex
    var chunks: seq<string>

    constructor (sessionId: string, faissDir: string, embedding: EmbeddingModel, llm: ChatClient)
      ensures this.sessionId == sessionId && this.faissDir == faissDir
      ensures this.embedding == embedding && this.llm == llm
      ensures index == FaissIndex(0, []) && chunks == []
    {
      this.sessionId := sessionId;
      this.faissDir := faissDir;
      this.embedding := embedding;
      this.llm := llm;
      index := FaissIndex(0, []);
      chunks := [];
    }

    /** `_load_faiss()`: the index is stored before the chunks file is read. */
    method LoadFaiss(fs: FileSystem) returns (r: Result<(), Failure>)
      modifies this
      ensures var s, indexPath := StoredIndex(fs.dirs, fs.files, faissDir), PathJoin(faissDir, IndexFileName);
              && (s.Ok? ==> r == Ok(()) && index == s.value.0 && chunks == s.value.1)
              && (s.Err? ==> r == Err(Raised(LoadError, s.error)) && chunks == old(chunks)
                             && index == if s.error == ChunksUnreadable then fs.files[indexPath].index else old(index))
    {
      var indexPath, chunksPath := PathJoin(faissDir, IndexFileName), PathJoin(faissDir, ChunksFileName);
      if !fs.Exists(indexPath) || !fs.Exists(chunksPath) {
        return Err(Raised(LoadError, IndexFilesMissing));
      }
      if indexPath !in fs.files || !fs.files[indexPath].IndexFile? {
        return Err(Raised(LoadError, IndexUnreadable));
      }
      index := fs.files[indexPath].index;
      if chunksPath !in fs.files || !fs.files[chunksPath].TextFile? {
        return Err(Raised(LoadError, ChunksUnreadable));
      }
      chunks := Split(UniversalNewlines(fs.files[chunksPath].text), ChunkSeparator);
      return Ok(());
    }

    /**
     * `RetrievalEngine(session_id, faiss_dir)`: the directory must exist;
     * then the model loader, the embedding model, the chat model and the
     * persisted index are loaded in turn, each failure reported under the
     * initialisation message.
     */
    static method Create(fs: FileSystem, sessionId: string, faissDir: string, env: Environment, config: Value)
      returns (r: Result<RetrievalEngine, Failure>)
      ensures r.Err? ==> r.error.message == EngineError
      ensures !fs.Exists(faissDir) ==> r == Err(Raised(EngineError, DirectoryNotFound(faissDir)))
      ensures r.Ok? <==> && fs.Exists(faissDir) && MissingVars(RequiredVars, env) == [] && config.Mapping?
                         && "GROQ_API_KEY" in env && "GOOGLE_API_KEY" in env
                         && "embedding_model" in config.entries
                         && Lookup(config.entries["embedding_model"], "model_name").Some?
                         && SelectedClient(config.entries, env, env["GROQ_API_KEY"], env["GOOGLE_API_KEY"]).Ok?
                         && StoredIndex(fs.dirs, fs.files, faissDir).Ok?
      ensures r.Ok? ==> && fresh(r.value) && r.value.sessionId == sessionId && r.value.faissDir == faissDir
                        && r.value.embedding.modelName == config.entries["embedding_model"].entries["model_name"]
                        && r.value.llm
                           == SelectedClient(config.entries, env, env["GROQ_API_KEY"], env["GOOGLE_API_KEY"]).value
                        && (r.value.index, r.value.chunks) == StoredIndex(fs.dirs, fs.files, faissDir).value
      ensures fs.Exists(faissDir) && MissingVars(RequiredVars, env) == [] && config.Mapping?
              && "GROQ_API_KEY" in env && "GOOGLE_API_KEY" in env
              && "embedding_model" in config.entries && Lookup(config.entries["embedding_model"], "model_name").Some?
              && SelectedClient(config.entries, env, env["GROQ_API_KEY"], env["GOOGLE_API_KEY"]).Ok?
              && StoredIndex(fs.dirs, fs.files, faissDir).Err? ==>
                r == Err(Raised(EngineError, Chained(Raised(LoadError, StoredIndex(fs.dirs, fs.files, faissDir).error))))
    {
      if !fs.Exists(faissDir) {
        return Err(Raised(EngineError, DirectoryNotFound(faissDir)));
      }
      var loader := ModelLoader.Create(env, config);
      if loader.Err? {
        return Err(Raised(EngineError, Chained(loader.error)));
      }
      var embedding := loader.value.LoadEmbeddings();
      if embedding.Err? {
        return Err(Raised(EngineError, Chained(embedding.error)));
      }
      var llm := loader.value.LoadLlm(env);
      if llm.Err? {
        return Err(Raised(EngineError, Chained(llm.error)));
      }
      var engine := new RetrievalEngine(sessionId, faissDir, embedding.value, llm.value);
      var loaded := engine.LoadFaiss(fs);
      if loaded.Err? {
        return Err(Raised(EngineError, Chained(loaded.error)));
      }
      return Ok(engine);
    }

    /** `_retrieve(query, top_k)`: the loop over the ranked labels, appending each hit. */
    method Retrieve(query: string, topK: int, embedQuery: (EmbeddingModel, string) -> Option<seq<real>>,
                    search: (FaissIndex, seq<real>, int) -> Option<seq<int>>)
      returns (r: Result<seq<string>, Failure>)
      ensures r == Retrieval(embedding, index, chunks, query, topK, embedQuery, search)
    {
      var vector := embedQuery(embedding, query);
      if vector.None? {
        return Err(Raised(RetrieveError, EmbeddingFailed));
      }
      var labels := search(index, vector.value, topK);
      if labels.None? {
        return Err(Raised(RetrieveError, SearchFailed));
      }
      var found: seq<string> := [];
      for rank := 0 to |labels.value|
        invariant Retrieved(chunks, labels.value[..rank]) == Ok(found)
      {
        var idx := labels.value[rank];
        assert labels.value[..rank + 1][..rank] == labels.value[..rank];
        if idx < |chunks| {
          if idx < -|chunks| {
            RetrievedStops(chunks, labels.value, rank + 1);
            return Err(Raised(RetrieveError, PositionOutOfRange(idx)));
          }
          found := found + [chunks[Position(|chunks|, idx)]];
        }
      }
      assert labels.value[..|labels.value|] == labels.value;
      return Ok(found);
    }

    /**
     * `answer(question, top_k)`: `invoke` stands for the chat model, None
     * where it raises. The retrieved chunks joined by a blank line are the
     * context of the prompt; a blank reply becomes the fallback text.
     */
    method Answer(question: string, topK: int, embedQuery: (EmbeddingModel, string) -> Option<seq<real>>,
                  search: (FaissIndex, seq<real>, int) -> Option<seq<int>>, invoke: (ChatClient, string) -> Option<string>)
      returns (r: Result<string, Failure>)
      ensures var got := Retrieval(embedding, index, chunks, question, topK, embedQuery, search);
              && (got.Err? ==> r == Err(Raised(AnswerError, Chained(got.error))))
              && (got.Ok? ==>
                    var reply := invoke(llm, Prompt(Join(ContextSeparator, got.value), question));
                    && (reply.None? ==> r == Err(Raised(AnswerError, GenerationFailed)))
                    && (reply.Some? ==> r == Ok(Reply(reply.value))))
    {
      var retrieved := Retrieve(question, topK, embedQuery, search);
      if retrieved.Err? {
        return Err(Raised(AnswerError, Chained(retrieved.error)));
      }
      var context := Join(ContextSeparator, retrieved.value);
      var prompt := Prompt(context, question);
      var response := invoke(llm, prompt);
      if response.None? {
        return Err(Raised(AnswerError, GenerationFailed));
      }
      var text := response.value;
      if Strip(text) == [] {
        return Ok(NoAnswer);
      }
      return Ok(text);
    }
  }

  /** Once a label is out of range, the labels after it change nothing. */
  lemma {:induction false} RetrievedStops(chunks: seq<string>, labels: seq<int>, i: nat)
    requires i <= |labels| && Retrieved(chunks, labels[..i]).Err?
    ensures Retrieved(chunks, labels) == Retrieved(chunks, labels[..i])
    decreases |labels| - i
  {
    if i < |labels| {
      assert labels[..i + 1][..i] == labels[..i];
      RetrievedStops(chunks, labels, i + 1);
    } else {
      assert labels[..i] == labels;
    }
  }
}
