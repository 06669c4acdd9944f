/**
 * `DocumentIngestor`: sets up a session's working directories, reads each
 * upload of a supported type, cuts its text into overlapping chunks, and
 * persists a FAISS index of the chunk embeddings beside the chunk texts.
 */
module Ingestion {
  import opened Wrappers
  import opened Text
  import opened Numerals
  import opened Storage
  import opened Config
  import opened PortalException
  import opened ModelLoading
  import opened FileOps
  import opened Chunking

  /** `SUPPORTED_FILE_TYPES`: unlike the upload helper, ingestion also takes Markdown. */
  const SupportedFileTypes: set<string> := {".pdf", ".docx", ".txt", ".md"}

  const DefaultTempDir := "data/document_chat"
  const DefaultFaissDir := "faiss_index"

  const InitError := "Failed to initialize DocumentIngestor"
  const IngestError := "Error during document ingestion"
  const BuildError := "Failed to build FAISS index"

  /** The ingestor accepts exactly the upload helper's types and Markdown. */
  lemma SupportedFileTypesAddMarkdown()
    ensures SupportedFileTypes == SupportedExtensions + {".md"}
    ensures ".md" !in SupportedExtensions
  {
  }

  // ---------------------------------------------------------------- session

  /** `f"session_{now(utc):%Y%m%d%H%M%S}_{uuid4().hex[:8]}"`. */
  function DefaultSessionId(t: DateTime, u: Uuid): string
  {
    "session_" + CompactStamp(t) + "_" + Hex8(u)
  }

  /** A given id is used unless it is None or empty. */
  function SessionIdOf(given: Option<string>, t: DateTime, u: Uuid): (r: string)
    ensures given.Some? && given.value != "" ==> r == given.value
    ensures given.None? || given.value == "" ==> r == DefaultSessionId(t, u)
  {
    if given.Some? && given.value != "" then given.value else DefaultSessionId(t, u)
  }

  /**
   * A default id is `session_`, fourteen digits that read back as the UTC
   * reading, `_`, and the eight hex digits of the drawn UUID.
   */
  lemma DefaultSessionIdShape(t: DateTime, u: Uuid)
    requires ValidDateTime(t)
    ensures var id := DefaultSessionId(t, u);
            && |id| == 31 && StartsWith(id, "session_") && id[22] == '_'
            && (forall i | 8 <= i < 22 :: IsDigit(id[i], 10))
            && ParseStamp(id[8..22], 0) == t
            && id[23..] == Hex8(u)
  {
    CompactStampRoundTrip(t);
    var stamp := CompactStamp(t);
    var id := DefaultSessionId(t, u);
    assert id[..8] == "session_";
    assert id[8..22] == stamp;
    assert id[23..] == Hex8(u);
    forall i | 8 <= i < 22 ensures IsDigit(id[i], 10) {
      assert id[i] == stamp[i - 8];
    }
  }

  /** The ingestion id and the upload helper's id never coincide: their stamps differ in layout. */
  lemma SessionIdLayoutsDiffer(t: DateTime, u: Uuid, t': DateTime, u': Uuid)
    requires ValidDateTime(t) && ValidDateTime(t')
    ensures DefaultSessionId(t, u) != GenerateSessionId(DefaultPrefix, t', u')
  {
    DefaultSessionIdShape(t, u);
  }

  /**
   * A given id that is an absolute path replaces both bases, so the uploads
   * and the index of that session land in one and the same directory.
   */
  lemma AbsoluteSessionIdSharesDirectory(tempDir: string, faissDir: string, id: string, t: DateTime, u: Uuid)
    requires id != [] && id[0] == '/'
    ensures PathJoin(tempDir, SessionIdOf(Some(id), t, u)) == id
    ensures PathJoin(faissDir, SessionIdOf(Some(id), t, u)) == id
  {
  }

  // ---------------------------------------------------------------- reading a file

  /**
   * The document parsers, as oracles: the page texts of a PDF (a page without
   * text already given as ""), the paragraph texts of a DOCX, each None where
   * the parser raises, and UTF-8 decoding that drops what it cannot decode.
   * A text upload is read as `read_text` reads it: decoded, then with each
   * "\r\n" and each lone "\r" turned into "\n".
   */
  datatype Parsers = Parsers(
    pdfPages: seq<bv8> -> Option<seq<string>>,
    docxParagraphs: seq<bv8> -> Option<seq<string>>,
    decode: seq<bv8> -> string)

  /** `_read_file(path)` on the bytes `data` the file holds: dispatch on the lower-cased suffix. */
  function ReadFile(path: string, data: seq<bv8>, parsers: Parsers): (r: Result<string, Failure>)
    ensures r.Err? ==> r.error.message == "Failed to read file " + NameOf(path)
    ensures r.Ok? <==> Extension(path) in SupportedFileTypes
                       && (Extension(path) == ".pdf" ==> parsers.pdfPages(data).Some?)
                       && (Extension(path) == ".docx" ==> parsers.docxParagraphs(data).Some?)
    ensures Extension(path) !in SupportedFileTypes ==> r.error.cause == UnsupportedFileType(Extension(path))
    ensures r.Ok? && (Extension(path) == ".txt" || Extension(path) == ".md") ==> NoReturn(r.value)
  {
    var ext := Extension(path);
    var fail := "Failed to read file " + NameOf(path);
    if ext == ".pdf" then
      match parsers.pdfPages(data)
      case None => Err(Raised(fail, ExtractionFailed))
      case Some(pages) => Ok(Join("\n", pages))
    else if ext == ".docx" then
      match parsers.docxParagraphs(data)
      case None => Err(Raised(fail, ExtractionFailed))
      case Some(paragraphs) => Ok(Join("\n", paragraphs))
    else if ext == ".txt" || ext == ".md" then
      UniversalNewlinesNoReturn(parsers.decode(data));
      Ok(UniversalNewlines(parsers.decode(data)))
    else
      Err(Raised(fail, UnsupportedFileType(ext)))
  }

  /** Where an upload is copied before it is read: eight hex digits and its extension, in the session's directory. */
  function TempPath(dir: string, u: Uuid, ext: string): string
  {
    PathJoin(dir, Hex8(u) + ext)
  }

  lemma SupportedTypeShape(ext: string)
    requires ext in SupportedFileTypes
    ensures |ext| >= 2 && ext[0] == '.' && forall i | 1 <= i < |ext| :: ext[i] != '.' && ext[i] != '/'
    ensures NoUpper(ext)
  {
  }

  lemma SupportedTypeLower(ext: string)
    requires ext in SupportedFileTypes
    ensures Lower(ext) == ext
  {
    SupportedTypeShape(ext);
    NoUpperUnchanged(ext);
  }

  predicate NoUpper(s: string) {
    forall i | 0 <= i < |s| :: !('A' <= s[i] <= 'Z')
  }

  lemma NoUpperUnchanged(s: string)
    requires NoUpper(s)
    ensures Lower(s) == s
  {
    assert forall i | 0 <= i < |s| :: Lower(s)[i] == s[i];
  }

  lemma HexIsPlain(u: Uuid)
    ensures Hex8(u) != [] && forall i | 0 <= i < |Hex8(u)| :: Hex8(u)[i] != '.' && Hex8(u)[i] != '/'
  {
    Hex8Digits(u);
  }

  /** The temporary copy keeps the upload's type, so it is read by the reader its extension selects. */
  lemma TempNameKeepsType(dir: string, u: Uuid, ext: string)
    requires ext in SupportedFileTypes
    ensures NameOf(TempPath(dir, u, ext)) == Hex8(u) + ext
    ensures Extension(TempPath(dir, u, ext)) == ext
  {
    SupportedTypeShape(ext);
    SupportedTypeLower(ext);
    HexIsPlain(u);
    ComposedPath(dir, Hex8(u), ext);
  }

  /** Reading the copy of an accepted upload fails only where its parser fails. */
  lemma ReadTempFile(dir: string, u: Uuid, ext: string, data: seq<bv8>, parsers: Parsers)
    requires ext in SupportedFileTypes
    ensures var r := ReadFile(TempPath(dir, u, ext), data, parsers);
            && (r.Ok? <==> (ext == ".pdf" ==> parsers.pdfPages(data).Some?)
                           && (ext == ".docx" ==> parsers.docxParagraphs(data).Some?))
            && (r.Err? ==> r.error.cause == ExtractionFailed)
  {
    TempNameKeepsType(dir, u, ext);
  }

  // ---------------------------------------------------------------- chunk settings

  /** A setting used in integer arithmetic: Python's `bool` is an `int`. */
  function AsInt(v: Value): (r: Option<int>)
    ensures r.Some? <==> v.Int? || v.Bool?
  {
    match v
    case Int(i) => Some(i)
    case Bool(b) => Some(if b then 1 else 0)
    case _ => None
  }

  /** `config["chunking"]["chunk_size"]` and `["chunk_overlap"]`, when both are present and integers. */
  function Settings(config: map<string, Value>): Option<(int, int)>
  {
    if "chunking" in config then
      match (Lookup(config["chunking"], "chunk_size"), Lookup(config["chunking"], "chunk_overlap"))
      case (Some(size), Some(overlap)) =>
        if AsInt(size).Some? && AsInt(overlap).Some? then Some((AsInt(size).value, AsInt(overlap).value)) else None
      case _ => None
    else None
  }

  /** The window advances: with integer settings, the overlap is below the chunk size. */
  predicate ChunkingTerminates(config: map<string, Value>) {
    Settings(config).Some? ==> Settings(config).value.1 < Settings(config).value.0
  }

  /**
   * `_chunk_text(text)` with its settings read from the configuration: the
   * lookups always happen, the values are only used on a non-empty text.
   */
  function ChunkFile(config: map<string, Value>, text: string): (r: Result<seq<string>, Reason>)
    requires ChunkingTerminates(config)
  {
    if "chunking" !in config then Err(LookupFailed("chunking"))
    else
      var cfg := config["chunking"];
      match (Lookup(cfg, "chunk_size"), Lookup(cfg, "chunk_overlap"))
      case (None, _) => Err(LookupFailed("chunk_size"))
      case (_, None) => Err(LookupFailed("chunk_overlap"))
      case (Some(size), Some(overlap)) =>
        if text == [] then Ok([])
        else if AsInt(size).None? then Err(InvalidSetting("chunk_size"))
        else if AsInt(overlap).None? then Err(InvalidSetting("chunk_overlap"))
        else Ok(Chunks(text, AsInt(size).value, AsInt(overlap).value))
  }

  /**
   * Chunking a file's text either fails on the settings or gives well-formed
   * chunks of that text, none longer than a positive chunk size; an empty
   * text gives none.
   */
  lemma ChunkFileShape(config: map<string, Value>, text: string)
    requires ChunkingTerminates(config)
    ensures var r := ChunkFile(config, text);
            && (r.Ok? && text != [] ==> Settings(config).Some?)
            && (r.Ok? && text == [] ==> r.value == [])
            && (r.Ok? ==> forall c | c in r.value :: ChunkOf(text, c)
                            && (Settings(config).Some? && Settings(config).value.0 > 0 ==> |c| <= Settings(config).value.0))
  {
    if ChunkFile(config, text).Ok? && text != [] {
      var s := Settings(config).value;
      ChunksShape(text, s.0, s.1);
    }
  }

  /**
   * The chunks of a `.txt` or `.md` upload hold no carriage return: only a
   * parser's text can carry one into a chunk.
   */
  lemma TextUploadChunksNoReturn(path: string, data: seq<bv8>, parsers: Parsers, config: map<string, Value>)
    requires ChunkingTerminates(config)
    requires Extension(path) == ".txt" || Extension(path) == ".md"
    ensures ReadFile(path, data, parsers).Ok?
    ensures var r := ChunkFile(config, ReadFile(path, data, parsers).value);
            r.Ok? ==> forall i | 0 <= i < |r.value| :: NoReturn(r.value[i])
  {
    var text := ReadFile(path, data, parsers).value;
    ChunkFileShape(config, text);
    if ChunkFile(config, text).Ok? {
      ChunksOfPlainText(text, ChunkFile(config, text).value);
    }
  }

  lemma ChunksOfPlainText(text: string, chunks: seq<string>)
    requires NoReturn(text) && forall c | c in chunks :: ChunkOf(text, c)
    ensures forall i | 0 <= i < |chunks| :: NoReturn(chunks[i])
  {
    forall i | 0 <= i < |chunks| ensures NoReturn(chunks[i]) {
      var c := chunks[i];
      assert c in chunks;
      var a :| 0 <= a <= |text| && SliceOfAt(text, c, a);
      forall j | 0 <= j < |c| ensures c[j] != '\r' {
        assert c[j] == text[a + j];
      }
    }
  }

  // ---------------------------------------------------------------- ingestion, as a specification

  predicate Ingestible(f: UploadedFile) {
    Extension(f.name) in SupportedFileTypes
  }

  /** How far the ingestion loop got: the chunks so far or the reason it stopped, and the temporary copies written. */
  datatype Progress = Progress(outcome: Result<seq<string>, Reason>, writes: seq<WriteOp>)

  /** What handling one supported upload does: the copy it writes, then its chunks or the reason it fails. */
  datatype FileStep = FileStep(write: WriteOp, outcome: Result<seq<string>, Reason>)

  /**
   * The loop over `files`: uploads `keep` rejects are skipped; the k-th kept
   * one is handled by `step(f, k)`, its chunks appended; the first failure
   * ends the loop.
   */
  function Run(files: seq<UploadedFile>, keep: UploadedFile -> bool, step: (UploadedFile, nat) -> FileStep): (p: Progress)
    ensures |p.writes| <= |files|
  {
    if files == [] then Progress(Ok([]), [])
    else
      var p := Run(files[..|files| - 1], keep, step);
      var f := files[|files| - 1];
      if p.outcome.Err? || !keep(f) then p
      else
        var s := step(f, |p.writes|);
        match s.outcome
        case Err(why) => Progress(Err(why), p.writes + [s.write])
        case Ok(chunks) => Progress(Ok(p.outcome.value + chunks), p.writes + [s.write])
  }

  lemma RunStep(files: seq<UploadedFile>, i: nat, keep: UploadedFile -> bool, step: (UploadedFile, nat) -> FileStep)
    requires i < |files|
    ensures var p, f := Run(files[..i], keep, step), files[i];
            var s := step(f, |p.writes|);
            Run(files[..i + 1], keep, step)
            == if p.outcome.Err? || !keep(f) then p
               else if s.outcome.Err? then Progress(Err(s.outcome.error), p.writes + [s.write])
               else Progress(Ok(p.outcome.value + s.outcome.value), p.writes + [s.write])
  {
    assert files[..i + 1][..i] == files[..i];
  }

  /** Once an upload fails, the uploads after it change nothing. */
  lemma {:induction false} RunStops(files: seq<UploadedFile>, i: nat, n: nat, keep: UploadedFile -> bool,
                                    step: (UploadedFile, nat) -> FileStep)
    requires i <= n <= |files| && Run(files[..i], keep, step).outcome.Err?
    ensures Run(files[..n], keep, step) == Run(files[..i], keep, step)
  {
    if n > i {
      RunStops(files, i, n - 1, keep, step);
      RunStep(files, n - 1, keep, step);
    }
  }

  /** Rejected uploads are skipped without failing: running over the kept ones only does the same. */
  lemma {:induction false} RunSkips(files: seq<UploadedFile>, keep: UploadedFile -> bool, step: (UploadedFile, nat) -> FileStep)
    ensures Run(files, keep, step) == Run(KeptFiles(files, keep), keep, step)
  {
    if files != [] {
      var init, f := files[..|files| - 1], files[|files| - 1];
      RunSkips(init, keep, step);
      var kept := KeptFiles(init, keep);
      if keep(f) {
        assert KeptFiles(files, keep) == kept + [f];
        assert (kept + [f])[..|kept|] == kept;
      }
    }
  }

  /**
   * On success every kept upload was handled, in order, the k-th as
   * `step(kept[k], k)`, and each chunk comes from one of them.
   */
  lemma {:induction false} RunHandlesKept(files: seq<UploadedFile>, keep: UploadedFile -> bool, step: (UploadedFile, nat) -> FileStep)
    ensures var p, kept := Run(files, keep, step), KeptFiles(files, keep);
            p.outcome.Ok? ==>
              && |p.writes| == |kept|
              && (forall k | 0 <= k < |kept| :: p.writes[k] == step(kept[k], k).write && step(kept[k], k).outcome.Ok?)
              && (forall c | c in p.outcome.value :: exists k | 0 <= k < |kept| :: c in step(kept[k], k).outcome.value)
  {
    if files != [] {
      var init, f := files[..|files| - 1], files[|files| - 1];
      RunHandlesKept(init, keep, step);
      var p, kept := Run(init, keep, step), KeptFiles(init, keep);
      if p.outcome.Ok? && keep(f) {
        var k := |kept|;
        assert KeptFiles(files, keep) == kept + [f];
        var s := step(f, k);
        if s.outcome.Ok? {
          forall c | c in p.outcome.value + s.outcome.value
            ensures exists j | 0 <= j < |kept| + 1 :: c in step((kept + [f])[j], j).outcome.value
          {
            if c in p.outcome.value {
              var j :| 0 <= j < |kept| && c in step(kept[j], j).outcome.value;
              assert (kept + [f])[j] == kept[j];
            } else {
              assert (kept + [f])[k] == f;
            }
          }
        }
      }
    }
  }

  /** Reading a copied upload and chunking its text. */
  function ReadAndChunk(path: string, data: seq<bv8>, parsers: Parsers, config: map<string, Value>): Result<seq<string>, Reason>
    requires ChunkingTerminates(config)
  {
    match ReadFile(path, data, parsers)
    case Err(e) => Err(Chained(e))
    case Ok(text) => ChunkFile(config, text)
  }

  /** `ingest_files`' handling of the k-th supported upload: copy it under the k-th drawn name, read it, chunk it. */
  function IngestStep(dir: string, draws: nat -> Uuid, parsers: Parsers, config: map<string, Value>): (UploadedFile, nat) -> FileStep
    requires ChunkingTerminates(config)
  {
    (f: UploadedFile, k: nat) =>
      var path := TempPath(dir, draws(k), Extension(f.name));
      FileStep(WriteOp(path, BinaryFile(f.data)), ReadAndChunk(path, f.data, parsers, config))
  }

  /** The loop of `ingest_files`, with `draws(k)` the UUID drawn for the k-th temporary copy. */
  function IngestLoop(files: seq<UploadedFile>, dir: string, draws: nat -> Uuid, parsers: Parsers,
                      config: map<string, Value>): Progress
    requires ChunkingTerminates(config)
  {
    Run(files, Ingestible, IngestStep(dir, draws, parsers, config))
  }

  /** Unsupported uploads are skipped without failing: ingesting only the supported ones does the same. */
  lemma SkipsUnsupported(files: seq<UploadedFile>, dir: string, draws: nat -> Uuid, parsers: Parsers,
                         config: map<string, Value>)
    requires ChunkingTerminates(config)
    ensures IngestLoop(files, dir, draws, parsers, config)
            == IngestLoop(KeptFiles(files, Ingestible), dir, draws, parsers, config)
  {
    RunSkips(files, Ingestible, IngestStep(dir, draws, parsers, config));
  }

  /** One supported upload's step: its copy, and on success chunks of the copy's text. */
  lemma IngestStepShape(dir: string, draws: nat -> Uuid, parsers: Parsers, config: map<string, Value>,
                        f: UploadedFile, k: nat)
    requires ChunkingTerminates(config)
    ensures var s, path := IngestStep(dir, draws, parsers, config)(f, k), TempPath(dir, draws(k), Extension(f.name));
            && s.write == WriteOp(path, BinaryFile(f.data))
            && (s.outcome.Ok? ==>
                  && ReadFile(path, f.data, parsers).Ok?
                  && forall c | c in s.outcome.value ::
                       && ChunkOf(ReadFile(path, f.data, parsers).value, c)
                       && (Settings(config).Some? && Settings(config).value.0 > 0 ==> |c| <= Settings(config).value.0))
  {
    var path := TempPath(dir, draws(k), Extension(f.name));
    var text := ReadFile(path, f.data, parsers);
    if text.Ok? {
      ChunkFileShape(config, text.value);
    }
  }

  /**
   * On success, each supported upload was copied, in order, the k-th under
   * the k-th drawn name, and every chunk is a well-formed chunk of one of
   * their texts, none longer than a positive chunk size.
   */
  lemma IngestedChunks(files: seq<UploadedFile>, dir: string, draws: nat -> Uuid, parsers: Parsers,
                       config: map<string, Value>)
    requires ChunkingTerminates(config)
    ensures var p, kept := IngestLoop(files, dir, draws, parsers, config), KeptFiles(files, Ingestible);
            p.outcome.Ok? ==>
              && |p.writes| == |kept|
              && (forall k | 0 <= k < |kept| ::
                    p.writes[k] == WriteOp(TempPath(dir, draws(k), Extension(kept[k].name)), BinaryFile(kept[k].data)))
              && forall c | c in p.outcome.value ::
                   && (exists k | 0 <= k < |kept| ::
                         var text := ReadFile(TempPath(dir, draws(k), Extension(kept[k].name)), kept[k].data, parsers);
                         text.Ok? && ChunkOf(text.value, c))
                   && (Settings(config).Some? && Settings(config).value.0 > 0 ==> |c| <= Settings(config).value.0)
  {
    var step := IngestStep(dir, draws, parsers, config);
    var p, kept := IngestLoop(files, dir, draws, parsers, config), KeptFiles(files, Ingestible);
    RunHandlesKept(files, Ingestible, step);
    if p.outcome.Ok? {
      forall k | 0 <= k < |kept|
        ensures p.writes[k] == WriteOp(TempPath(dir, draws(k), Extension(kept[k].name)), BinaryFile(kept[k].data))
      {
        IngestStepShape(dir, draws, parsers, config, kept[k], k);
      }
      forall c | c in p.outcome.value
        ensures exists k | 0 <= k < |kept| ::
                  var text := ReadFile(TempPath(dir, draws(k), Extension(kept[k].name)), kept[k].data, parsers);
                  text.Ok? && ChunkOf(text.value, c)
        ensures Settings(config).Some? && Settings(config).value.0 > 0 ==> |c| <= Settings(config).value.0
      {
        var k :| 0 <= k < |kept| && c in step(kept[k], k).outcome.value;
        IngestStepShape(dir, draws, parsers, config, kept[k], k);
      }
    }
  }

  // ---------------------------------------------------------------- the index

  /** The rows form a matrix: `np.array(..., dtype="float32")` succeeds and has a second dimension. */
  predicate Rectangular(rows: seq<seq<real>>) {
    forall j | 0 <= j < |rows| :: |rows[j]| == |rows[0]|
  }

  /** The index built from the embedding rows: refused when there are none or they are ragged. */
  function BuildIndex(rows: seq<seq<real>>): (r: Result<FaissIndex, Reason>)
    ensures r.Ok? <==> rows != [] && Rectangular(rows)
    ensures rows == [] ==> r == Err(NoEmbeddings)
    ensures rows != [] && !Rectangular(rows) ==> r == Err(RaggedEmbeddings)
    ensures r.Ok? ==> r.value.vectors == rows && r.value.Total() == |rows|
                      && forall j | 0 <= j < |rows| :: |rows[j]| == r.value.dimension
  {
    if rows == [] then Err(NoEmbeddings)
    else if !Rectangular(rows) then Err(RaggedEmbeddings)
    else Ok(FaissIndex(|rows[0]|, rows))
  }

  /**
   * The index built from what `embed_documents` returned: its failure is
   * reported as such, and its rows are checked as `BuildIndex` does.
   */
  function IndexFrom(embedded: Option<seq<seq<real>>>): (r: Result<FaissIndex, Reason>)
    ensures embedded.None? ==> r == Err(EmbeddingFailed)
    ensures r.Ok? <==> embedded.Some? && embedded.value != [] && Rectangular(embedded.value)
    ensures r.Ok? ==> r.value.vectors == embedded.value
  {
    if embedded.None? then Err(EmbeddingFailed) else BuildIndex(embedded.value)
  }

  /** The two files of a session's index directory. */
  function IndexWrites(dir: string, index: FaissIndex, chunks: seq<string>): seq<WriteOp>
  {
    [WriteOp(PathJoin(dir, IndexFileName), IndexFile(index)),
     WriteOp(PathJoin(dir, ChunksFileName), TextFile(Join(ChunkSeparator, chunks)))]
  }

  /** After the index is persisted, the directory holds the index and the chunks joined by the separator. */
  lemma IndexDirectoryContents(files: map<string, FileContent>, before: seq<WriteOp>, dir: string, index: FaissIndex,
                               chunks: seq<string>)
    ensures var after := ApplyWrites(files, before + IndexWrites(dir, index, chunks));
            && PathJoin(dir, IndexFileName) in after && after[PathJoin(dir, IndexFileName)] == IndexFile(index)
            && PathJoin(dir, ChunksFileName) in after
            && after[PathJoin(dir, ChunksFileName)] == TextFile(Join(ChunkSeparator, chunks))
  {
    var w := IndexWrites(dir, index, chunks);
    assert |PathJoin(dir, IndexFileName)| != |PathJoin(dir, ChunksFileName)|;
    assert before + w == (before + [w[0]]) + [w[1]];
    ApplyWritesSnoc(files, before, w[0]);
    ApplyWritesSnoc(files, before + [w[0]], w[1]);
  }

  /**
   * With one embedding per chunk, the persisted index holds exactly as many
   * vectors as there are chunks in the file beside it, in chunk order.
   */
  lemma IndexCountsChunks(files: map<string, FileContent>, dir: string, chunks: seq<string>,
                          embedded: Option<seq<seq<real>>>)
    requires IndexFrom(embedded).Ok? && |embedded.value| == |chunks|
    ensures var after := ApplyWrites(files, IndexWrites(dir, IndexFrom(embedded).value, chunks));
            && PathJoin(dir, IndexFileName) in after && after[PathJoin(dir, IndexFileName)].IndexFile?
            && after[PathJoin(dir, IndexFileName)].index.Total() == |chunks|
            && after[PathJoin(dir, IndexFileName)].index.vectors == embedded.value
            && PathJoin(dir, ChunksFileName) in after
            && after[PathJoin(dir, ChunksFileName)] == TextFile(Join(ChunkSeparator, chunks))
  {
    var w := IndexWrites(dir, IndexFrom(embedded).value, chunks);
    assert [] + w == w;
    IndexDirectoryContents(files, [], dir, IndexFrom(embedded).value, chunks);
  }

  /** The summary `ingest_files` returns. */
  datatype IngestSummary = IngestSummary(sessionId: string, faissPath: string, totalChunks: nat)

  // ---------------------------------------------------------------- the ingestor

  class DocumentIngestor {
    const sessionId: string
    const sessionTempDir: string
    const sessionFaissDir: string
    /** The loader's configuration. */
    const config: map<string, Value>
    const embedding: EmbeddingModel

    constructor (sessionId: string, sessionTempDir: string, sessionFaissDir: string,
                 config: map<string, Value>, embedding: EmbeddingModel)
      ensures this.sessionId == sessionId && this.sessionTempDir == sessionTempDir
      ensures this.sessionFaissDir == sessionFaissDir && this.config == config && this.embedding == embedding
    {
      this.sessionId := sessionId;
      this.sessionTempDir := sessionTempDir;
      this.sessionFaissDir := sessionFaissDir;
      this.config := config;
      this.embedding := embedding;
    }

    /**
     * `DocumentIngestor(temp_dir, faiss_dir, session_id)`: creates the two
     * base directories and the session's directory under each, then loads
     * the model configuration and the embedding model. `t` is the UTC clock
     * reading and `u` the UUID drawn for a default session id.
     */
    static method Create(fs: FileSystem, tempDir: string, faissDir: string, given: Option<string>, t: DateTime, u: Uuid,
                         env: Environment, config: Value)
      returns (r: Result<DocumentIngestor, Failure>)
      modifies fs
      ensures var id := SessionIdOf(given, t, u);
              && fs.dirs == old(fs.dirs) + MadeDirs(tempDir) + MadeDirs(faissDir)
                            + MadeDirs(PathJoin(tempDir, id)) + MadeDirs(PathJoin(faissDir, id))
              && {tempDir, faissDir, PathJoin(tempDir, id), PathJoin(faissDir, id)} <= fs.dirs
              && fs.files == old(fs.files)
              && (r.Ok? <==> MissingVars(RequiredVars, env) == [] && config.Mapping?
                             && "embedding_model" in config.entries
                             && Lookup(config.entries["embedding_model"], "model_name").Some?)
              && (r.Err? ==> r.error.message == InitError && r.error.cause.Chained?)
              && (r.Ok? ==> fresh(r.value) && r.value.sessionId == id
                            && r.value.sessionTempDir == PathJoin(tempDir, id)
                            && r.value.sessionFaissDir == PathJoin(faissDir, id)
                            && r.value.config == config.entries
                            && r.value.embedding.modelName == config.entries["embedding_model"].entries["model_name"])
    {
      fs.MakeDirs(tempDir);
      fs.MakeDirs(faissDir);
      var id := SessionIdOf(given, t, u);
      var sessionTemp := PathJoin(tempDir, id);
      fs.MakeDirs(sessionTemp);
      var sessionFaiss := PathJoin(faissDir, id);
      fs.MakeDirs(sessionFaiss);
      assert fs.dirs == old(fs.dirs) + MadeDirs(tempDir) + MadeDirs(faissDir) + MadeDirs(sessionTemp) + MadeDirs(sessionFaiss);
      MadeDirsMembers(tempDir);
      MadeDirsMembers(faissDir);
      MadeDirsMembers(sessionTemp);
      MadeDirsMembers(sessionFaiss);
      var loader := ModelLoader.Create(env, config);
      if loader.Err? {
        return Err(Raised(InitError, Chained(loader.error)));
      }
      var embedding := loader.value.LoadEmbeddings();
      if embedding.Err? {
        return Err(Raised(InitError, Chained(embedding.error)));
      }
      var ingestor := new DocumentIngestor(id, sessionTemp, sessionFaiss, loader.value.config, embedding.value);
      return Ok(ingestor);
    }

    /** `_chunk_text(text)`: reads the settings, then runs the sliding window. */
    method ChunkConfigured(text: string) returns (r: Result<seq<string>, Reason>)
      requires ChunkingTerminates(config)
      ensures r == ChunkFile(config, text)
    {
      if "chunking" !in config {
        return Err(LookupFailed("chunking"));
      }
      var cfg := config["chunking"];
      var size := Lookup(cfg, "chunk_size");
      if size.None? {
        return Err(LookupFailed("chunk_size"));
      }
      var overlap := Lookup(cfg, "chunk_overlap");
      if overlap.None? {
        return Err(LookupFailed("chunk_overlap"));
      }
      if text == [] {
        return Ok([]);
      }
      if AsInt(size.value).None? {
        return Err(InvalidSetting("chunk_size"));
      }
      if AsInt(overlap.value).None? {
        return Err(InvalidSetting("chunk_overlap"));
      }
      var chunks := ChunkText(text, AsInt(size.value).value, AsInt(overlap.value).value);
      return Ok(chunks);
    }

    /**
     * `_build_faiss_index(chunks)`: `embed` stands for `embed_documents`,
     * `None` where it raises.
     * Writes the index and the joined chunks into the session's index
     * directory and reports how many chunks were indexed.
     */
    method BuildFaissIndex(fs: FileSystem, chunks: seq<string>, embed: seq<string> -> Option<seq<seq<real>>>)
      returns (r: Result<IngestSummary, Failure>)
      modifies fs
      ensures fs.dirs == old(fs.dirs)
      ensures var built := IndexFrom(embed(chunks));
              && (built.Err? ==> r == Err(Raised(BuildError, built.error)) && fs.files == old(fs.files))
              && (built.Ok? ==> r == Ok(IngestSummary(sessionId, sessionFaissDir, |chunks|))
                                && fs.files == ApplyWrites(old(fs.files), IndexWrites(sessionFaissDir, built.value, chunks)))
    {
      var embedded := embed(chunks);
      if embedded.None? {
        return Err(Raised(BuildError, EmbeddingFailed));
      }
      var rows := embedded.value;
      if rows == [] {
        return Err(Raised(BuildError, NoEmbeddings));
      }
      if !Rectangular(rows) {
        return Err(Raised(BuildError, RaggedEmbeddings));
      }
      var index := FaissIndex(|rows[0]|, rows);
      var w := IndexWrites(sessionFaissDir, index, chunks);
      fs.Write(PathJoin(sessionFaissDir, IndexFileName), IndexFile(index));
      fs.Write(PathJoin(sessionFaissDir, ChunksFileName), TextFile(Join(ChunkSeparator, chunks)));
      ApplyWritesSnoc(old(fs.files), [], w[0]);
      ApplyWritesSnoc(old(fs.files), [w[0]], w[1]);
      return Ok(IngestSummary(sessionId, sessionFaissDir, |chunks|));
    }

    /** The body of `ingest_files`' loop for a supported upload: copy it under the k-th drawn name, read it, chunk it. */
    method IngestOne(fs: FileSystem, uf: UploadedFile, k: nat, draws: nat -> Uuid, parsers: Parsers)
      returns (outcome: Result<seq<string>, Reason>)
      requires ChunkingTerminates(config)
      modifies fs
      ensures var s := IngestStep(sessionTempDir, draws, parsers, config)(uf, k);
              && outcome == s.outcome
              && fs.files == old(fs.files)[s.write.path := s.write.content] && fs.dirs == old(fs.dirs)
    {
      var tempPath := TempPath(sessionTempDir, draws(k), Extension(uf.name));
      ghost var s := IngestStep(sessionTempDir, draws, parsers, config)(uf, k);
      assert s == FileStep(WriteOp(tempPath, BinaryFile(uf.data)), ReadAndChunk(tempPath, uf.data, parsers, config));
      fs.Write(tempPath, BinaryFile(uf.data));
      var text := ReadFile(tempPath, uf.data, parsers);
      if text.Err? {
        return Err(Chained(text.error));
      }
      outcome := ChunkConfigured(text.value);
    }

    /**
     * `ingest_files(uploaded_files)`: `draws(k)` is the k-th UUID drawn for
     * a temporary name. Fails on an empty upload list, on the first failing
     * file, when no chunk was extracted, and when the index cannot be built.
     */
    method IngestFiles(fs: FileSystem, files: seq<UploadedFile>, draws: nat -> Uuid, parsers: Parsers,
                       embed: seq<string> -> Option<seq<seq<real>>>)
      returns (r: Result<IngestSummary, Failure>)
      requires ChunkingTerminates(config)
      modifies fs
      ensures fs.dirs == old(fs.dirs)
      ensures files == [] ==> r == Err(Raised(IngestError, NoFilesProvided)) && fs.files == old(fs.files)
      ensures files != [] ==>
                var p := IngestLoop(files, sessionTempDir, draws, parsers, config);
                && (p.outcome.Err? ==>
                      r == Err(Raised(IngestError, p.outcome.error)) && fs.files == ApplyWrites(old(fs.files), p.writes))
                && (p.outcome == Ok([]) ==>
                      r == Err(Raised(IngestError, NoContentExtracted)) && fs.files == ApplyWrites(old(fs.files), p.writes))
                && (p.outcome.Ok? && p.outcome.value != [] ==>
                      var built := IndexFrom(embed(p.outcome.value));
                      && (built.Err? ==>
                            r == Err(Raised(IngestError, Chained(Raised(BuildError, built.error))))
                            && fs.files == ApplyWrites(old(fs.files), p.writes))
                      && (built.Ok? ==>
                            r == Ok(IngestSummary(sessionId, sessionFaissDir, |p.outcome.value|))
                            && fs.files == ApplyWrites(ApplyWrites(old(fs.files), p.writes),
                                                       IndexWrites(sessionFaissDir, built.value, p.outcome.value))))
      ensures r.Ok? ==>
                var indexPath, chunks := PathJoin(sessionFaissDir, IndexFileName), IngestLoop(files, sessionTempDir, draws, parsers, config).outcome.value;
                && indexPath in fs.files && fs.files[indexPath].IndexFile?
                && (|embed(chunks).value| == |chunks| ==> fs.files[indexPath].index.Total() == r.value.totalChunks)
    {
      if files == [] {
        return Err(Raised(IngestError, NoFilesProvided));
      }
      var allChunks: seq<string> := [];
      ghost var writes: seq<WriteOp> := [];
      var drawn := 0;
      for i := 0 to |files|
        invariant IngestLoop(files[..i], sessionTempDir, draws, parsers, config) == Progress(Ok(allChunks), writes)
        invariant drawn == |writes|
        invariant fs.dirs == old(fs.dirs) && fs.files == ApplyWrites(old(fs.files), writes)
      {
        RunStep(files, i, Ingestible, IngestStep(sessionTempDir, draws, parsers, config));
        var uf := files[i];
        if Extension(uf.name) !in SupportedFileTypes {
          continue;
        }
        ghost var step := IngestStep(sessionTempDir, draws, parsers, config)(uf, drawn);
        var chunks := IngestOne(fs, uf, drawn, draws, parsers);
        ApplyWritesSnoc(old(fs.files), writes, step.write);
        writes := writes + [step.write];
        drawn := drawn + 1;
        if chunks.Err? {
          RunStops(files, i + 1, |files|, Ingestible, IngestStep(sessionTempDir, draws, parsers, config));
          assert files[..|files|] == files;
          return Err(Raised(IngestError, chunks.error));
        }
        allChunks := allChunks + chunks.value;
      }
      assert files[..|files|] == files;
      if allChunks == [] {
        return Err(Raised(IngestError, NoContentExtracted));
      }
      var built := BuildFaissIndex(fs, allChunks, embed);
      if built.Err? {
        return Err(Raised(IngestError, Chained(built.error)));
      }
      IndexDirectoryContents(ApplyWrites(old(fs.files), writes), [], sessionFaissDir, IndexFrom(embed(allChunks)).value, allChunks);
      assert [] + IndexWrites(sessionFaissDir, IndexFrom(embed(allChunks)).value, allChunks)
             == IndexWrites(sessionFaissDir, IndexFrom(embed(allChunks)).value, allChunks);
      return built;
    }
  }
}
