# Document chat pipeline, modelled in Dafny

This project models the text side of a retrieval-augmented document chat service. It covers:

- **Ingestion.** `DocumentIngestor` copies each upload of a supported type into a session directory, reads its text, and cuts the text into overlapping windows. It then persists a FAISS index of the chunk embeddings, with the chunk texts joined by a separator beside it.
- **Retrieval.** `RetrievalEngine` reopens that directory, maps the positions a similarity search ranks to chunk texts, and asks a chat model to answer from them through a fixed prompt template.
- **Upload saving.** `save_uploaded_files` saves uploads under sanitised, randomised names.
- **Model loading.** `ModelLoader` validates the environment and picks the embedding model and the chat provider from the configuration.
- **Exceptions.** `DocumentPortalException` records where an error was raised and renders it as a string.

The model takes the source's form:

- Python objects whose methods set fields become classes (`DocumentIngestor`, `RetrievalEngine`, `ModelLoader`, `DocumentPortalException`). The disk they touch is a `FileSystem` class, with a set of directories and a map of files.
- Python loops become methods with loop invariants (`ChunkText`, `IngestFiles`, `SaveUploadedFiles`, `Retrieve`, `LastFrame`). Each is proved equal to a specification function, and the properties are proved about that function.
- Pure lookups and formatting become functions.

Clocks, UUIDs, parsers, embedding models, the index search and the chat model are passed in as parameters. Each is an oracle that returns `None` where the library raises.

Modules and files:

| file | module | models |
|---|---|---|
| wrappers.dfy | Wrappers | `Option`, `Result` |
| text.dfy | Text | Python `str.strip` (exact `isspace` set), slicing with negative and clamped bounds, `join`, `split` on a separator, ASCII lower-casing |
| numerals.dfy | Numerals | decimal and hex digits, `strftime` stamps, `uuid4().hex[:8]` |
| config.dfy | Config | the parsed YAML configuration |
| storage.dfy | Storage | `pathlib` name, suffix and stem; the file system; the index directory layout |
| portal_exception.dfy | PortalException | exception/custom_exception.py |
| model_loader.dfy | ModelLoading | utils/model_loader.py |
| file_ops.dfy | FileOps | utils/file_ops.py |
| chunking.dfy | Chunking | the sliding-window splitter of src/DocumentChat/ingestion.py |
| ingestion.dfy | Ingestion | src/DocumentChat/ingestion.py |
| retrieval.dfy | Retrieval | src/DocumentChat/retrieval.py, with the `context_qa` template of prompt/prompt_library.py |

Two behaviours of the code are stated as they are written, not corrected:

- **Chunk round trip.** Reading the persisted chunks file back gives the ingested chunk list back only under a condition. `Path.read_text` turns `"\r\n"` and a lone `"\r"` into `"\n"`, and the text is then split on the separator `"\n\n---\n\n"`. So no chunk may hold a carriage return, no chunk may contain the separator, and no chunk but the last may end with `"\n\n---"`. A Markdown horizontal rule can break the condition, and so can a PDF or DOCX whose extracted text holds a `"\r"`. A `.txt` or `.md` upload cannot: it is read with `read_text` too, so its chunks hold no carriage return (`Ingestion.TextUploadChunksNoReturn`). When the condition breaks, the reloaded positions no longer line up with the index's vectors. `Retrieval.IngestedChunksReload` states the exact condition. `Retrieval.RuleEndingChunkSplitsDifferently` and `Retrieval.CarriageReturnChunkSplitsDifferently` exhibit chunks that do not round-trip.
- **Padding labels.** The guard `idx < len(chunks)` lets FAISS's `-1` padding labels through. Python indexing then turns each of them into the last chunk (`Retrieval.PaddingRepeatsLast`).

## Model

| member | source | states |
|---|---|---|
| Text.Strip | src/DocumentChat/ingestion.py:99 | the stripped text is no longer than the text |
| Text.StripEmpty | src/DocumentChat/retrieval.py:128 | `text.strip()` is empty exactly when every character is whitespace |
| Text.StripEnds | src/DocumentChat/ingestion.py:99 | a non-empty stripped text neither starts nor ends with whitespace |
| Text.StripSpan | src/DocumentChat/ingestion.py:99 | the stripped text is the slice between the first and past the last non-whitespace character |
| Text.StripCovers | src/DocumentChat/ingestion.py:99 | every non-whitespace character lies inside the stripped span |
| Text.StripIdempotent | src/DocumentChat/ingestion.py:99 | stripping twice is stripping once |
| Text.Slice | src/DocumentChat/ingestion.py:99 | defines `text[start:end]`; no longer than the text; its meaning is stated by `Text.SliceFacts` |
| Text.SliceBound | src/DocumentChat/ingestion.py:99 | a Python slice bound, after negative bounds count from the end and clamping, lies within the string |
| Text.SliceFacts | src/DocumentChat/ingestion.py:99 | `text[start:end]` is the slice between the normalised bounds, and empty when they cross |
| Text.Join | src/DocumentChat/ingestion.py:195 | defines `sep.join(parts)`; its meaning is stated by `Text.JoinLength`, `Text.JoinHasPart` and `Text.SplitJoin` |
| Text.JoinLength | src/DocumentChat/ingestion.py:195 | a join is as long as its parts plus one separator between each two |
| Text.JoinHasPart | src/DocumentChat/ingestion.py:195 | every part occurs in the join, at the offset the parts and separators before it give |
| Text.FindFrom | src/DocumentChat/retrieval.py:58 | the first occurrence of the separator from a position, or none at all |
| Text.Split | src/DocumentChat/retrieval.py:58 | `str.split(sep)` gives at least one part, its parts joined by `sep` give the text back, and no part contains `sep` |
| Text.SplitJoinIf | src/DocumentChat/retrieval.py:58 | parts that separate cleanly split back from their join |
| Text.SplitJoinOnlyIf | src/DocumentChat/retrieval.py:58 | parts that split back from their join separate cleanly |
| Text.SplitJoin | src/DocumentChat/retrieval.py:58 | splitting a join returns the parts exactly when they separate cleanly |
| Text.UniversalNewlines | src/DocumentChat/retrieval.py:58 | defines `read_text`'s newline translation; its meaning is stated by `Text.UniversalNewlinesNoReturn` and `Text.UniversalNewlinesPlain` |
| Text.UniversalNewlinesNoReturn | src/DocumentChat/retrieval.py:58 | text read with universal newlines holds no carriage return |
| Text.UniversalNewlinesPlain | src/DocumentChat/retrieval.py:58 | a text without carriage returns reads back unchanged |
| Text.JoinNoReturn | src/DocumentChat/ingestion.py:195 | a join of parts and a separator without carriage returns holds none |
| Text.JoinedPartsNoReturn | src/DocumentChat/retrieval.py:58 | the parts of a join without carriage returns hold none |
| Text.ReadBackIf | src/DocumentChat/retrieval.py:58 | parts without carriage returns that separate cleanly read back from their join |
| Text.ReadBackOnlyIf | src/DocumentChat/retrieval.py:58 | parts that read back from their join hold no carriage return and separate cleanly |
| Text.ReadBack | src/DocumentChat/retrieval.py:58 | joining and reading back returns the parts exactly when none holds a carriage return and they separate cleanly |
| Text.Lower | src/DocumentChat/ingestion.py:65 | lower-casing keeps the length and lowers each character |
| Chunking.Step | src/DocumentChat/ingestion.py:102 | the window advances by `chunk_size - chunk_overlap`, at least one |
| Chunking.Chunks | src/DocumentChat/ingestion.py:93-104 | defines the chunk list of `_chunk_text`; its meaning is stated by `Chunking.ChunksByWindow`, `Chunking.ChunksShape` and `Chunking.NonSpaceCovered` |
| Chunking.ChunkText | src/DocumentChat/ingestion.py:88-104 | the `while` loop computes exactly the chunk list the splitter specifies |
| Chunking.LoopFrom | src/DocumentChat/ingestion.py:97-102 | running the loop from a start appends the kept windows from that start |
| Chunking.ChunksByWindow | src/DocumentChat/ingestion.py:97-102 | the chunks are the non-empty stripped windows in start order; an empty text gives none |
| Chunking.WindowStarts | src/DocumentChat/ingestion.py:94-102 | window `k` starts at `k * step`; there are ceil(len / step) windows |
| Chunking.WindowsByPosition | src/DocumentChat/ingestion.py:97-102 | the k-th window visited is the window at the k-th start |
| Chunking.WindowAt | src/DocumentChat/ingestion.py:97-102 | window `k` is `text[k * step : k * step + chunk_size].strip()` |
| Chunking.ChunkAtShape | src/DocumentChat/ingestion.py:98-101 | one window yields nothing or a stripped slice of the text no longer than `chunk_size` |
| Chunking.ChunksShape | src/DocumentChat/ingestion.py:93-104 | every chunk is non-empty, unpadded, a slice of the text and at most `chunk_size` long; at most one chunk per window |
| Chunking.NonSpaceCovered | src/DocumentChat/ingestion.py:97-102 | with `0 <= chunk_overlap < chunk_size`, every non-whitespace character lies inside some kept chunk |
| Chunking.ConsecutiveWindowsOverlap | src/DocumentChat/ingestion.py:98-102 | consecutive windows share `chunk_overlap` characters of the text |
| Numerals.Digits | src/DocumentChat/ingestion.py:36 | a fixed-width digit string has the requested width |
| Numerals.DigitsAreDigits | src/DocumentChat/ingestion.py:36 | each character of a fixed-width rendering is a digit of the base |
| Numerals.DigitsRoundTrip | src/DocumentChat/ingestion.py:36 | a fixed-width rendering of a number below base^width reads back as that number |
| Numerals.NatToStringRoundTrip | exception/custom_exception.py:41 | `str(n)` is decimal digits without a leading zero that read back as `n` |
| Numerals.IntToStringRoundTrip | exception/custom_exception.py:41 | `str(i)` carries a minus sign exactly for negative `i` and reads back as `i` |
| Numerals.FieldsRoundTrip | src/DocumentChat/ingestion.py:36 | each zero-padded date and time field reads back as its value |
| Numerals.Layout | utils/file_ops.py:17 | concatenated fields sit at fixed offsets, around an optional `_` |
| Numerals.CompactStampRoundTrip | src/DocumentChat/ingestion.py:36 | `%Y%m%d%H%M%S` is fourteen digits that parse back as the clock reading |
| Numerals.UnderscoreStampRoundTrip | utils/file_ops.py:17 | `%Y%m%d_%H%M%S` is fifteen characters, `_` at 8 and digits elsewhere, and parses back as the clock reading |
| Numerals.Hex8 | src/DocumentChat/ingestion.py:36 | `uuid4().hex[:8]` is eight characters long |
| Numerals.Hex8Digits | utils/file_ops.py:34 | those eight characters are lower-case hex digits |
| Storage.LastIndexFacts | utils/file_ops.py:27 | `rfind` returns a position of the character, with none after it |
| Storage.LastIndexIs | utils/file_ops.py:27 | a character with none after it is what `rfind` returns |
| Storage.StemSuffix | utils/file_ops.py:27-33 | stem followed by suffix is the name; a suffix is empty, or a dot and at least one more character with no further dot |
| Storage.SuffixOfComposedName | utils/file_ops.py:34-35 | a name built from a dot-free stem and a suffix has exactly that stem and suffix |
| Storage.NoSlashIsOwnName | src/DocumentChat/ingestion.py:83 | a single path component is its own name |
| Storage.PathJoin | src/DocumentChat/ingestion.py:39-43 | defines pathlib's `/`: an absolute name replaces the base, an empty base leaves the name relative; its meaning is stated by `Storage.NameOfJoin` and `Ingestion.AbsoluteSessionIdSharesDirectory` |
| Storage.NameOfJoin | src/DocumentChat/ingestion.py:136 | the name of `dir / name` is `name` |
| Storage.MadeDirs | src/DocumentChat/ingestion.py:28 | defines the directories `mkdir(parents=True)` leaves in place; its meaning is stated by `Storage.MadeDirsMembers` |
| Storage.MadeDirsMembers | src/DocumentChat/ingestion.py:28 | the directory and exactly its ancestors, the prefixes ending before a separator, are in place after `mkdir(parents=True)` |
| Storage.MadeDirsOfJoin | src/DocumentChat/ingestion.py:39-43 | making a directory below a base also makes the base and its ancestors |
| Storage.FileSystem.MakeDirs | src/DocumentChat/ingestion.py:28 | `mkdir(parents=True, exist_ok=True)` adds the directory and its missing ancestors and changes no file |
| Storage.FileSystem.Write | utils/file_ops.py:37-38 | a whole-file write replaces that path's content and nothing else |
| Storage.ApplyWrites | src/DocumentChat/ingestion.py:139-140 | after writes, exactly the old paths and the written ones exist, and an unwritten path keeps its content |
| Storage.ApplyWritesSnoc | src/DocumentChat/ingestion.py:139-140 | one more write updates one path |
| Storage.LastWriteWins | src/DocumentChat/ingestion.py:189-197 | a path holds what its last write put there |
| Storage.ChunkSeparatorCleanly | src/DocumentChat/ingestion.py:195 | a chunk separates cleanly from the separator exactly when the separator neither occurs in it nor straddles its end |
| Storage.SeparatorBorders | src/DocumentChat/ingestion.py:195 | the separator's tail after `k` characters equals its head only for `k` = 5 or 6 |
| Storage.StraddlingOccurrence | src/DocumentChat/ingestion.py:195 | a separator that starts inside a chunk and runs past its end means the chunk ends with "\n\n---" or "\n\n---\n" |
| Storage.StrippedChunkSeparatesCleanly | src/DocumentChat/ingestion.py:195 | a stripped chunk separates cleanly exactly when it has no separator and does not end with "\n\n---" |
| PortalException.TracebackSource | exception/custom_exception.py:10-22 | `None` and unrecognised details use `sys.exc_info()`; an `exc_info` provider is called; an exception gives its own type, value and traceback |
| PortalException.LastFrame | exception/custom_exception.py:24-26 | the `tb_next` walk ends at the innermost frame, and there is none for no traceback |
| PortalException.Header | exception/custom_exception.py:41 | defines the location header; its meaning is stated by `Numerals.IntToStringRoundTrip`, `PortalException.Render` and `PortalException.UnknownLocationRendering` |
| PortalException.Render | exception/custom_exception.py:40-42 | the string is the location header, then `"\nTraceback:\n"` and the traceback text exactly when that text is non-empty; its length is the header's plus 12 and the traceback's in that case, and the header's otherwise |
| PortalException.UnknownLineString | exception/custom_exception.py:29 | the default line number prints as `-1` |
| PortalException.UnknownLocationRendering | exception/custom_exception.py:28-29 | with no traceback the header reads `Error in [<unknown>] at line [-1] \| Message: m` |
| PortalException.DocumentPortalException.constructor | exception/custom_exception.py:7-38 | the recorded file and line are the innermost frame's, or `<unknown>` and -1; the traceback text is formatted only when both type and traceback exist; the message is stored and passed on |
| PortalException.DocumentPortalException.ToString | exception/custom_exception.py:40-42 | `__str__` starts with the location header over the stored message; it is that header alone exactly when no traceback text was recorded, and otherwise ends with `"\nTraceback:\n"` and the text, with nothing else in between |
| ModelLoading.MissingVars | utils/model_loader.py:45-48 | exactly the unset or empty names are reported, in the order of the list |
| ModelLoading.MissingVarsExactly | utils/model_loader.py:45-52 | validation passes exactly when all three keys are set |
| ModelLoading.ListRepr | utils/model_loader.py:52 | the list `repr` is bracketed |
| ModelLoading.ListReprNames | utils/model_loader.py:52 | the message names every missing variable in single quotes, and an empty list prints as `[]` |
| ModelLoading.ProviderKey | utils/model_loader.py:82 | `LLM_PROVIDER` defaults to `groq` only when absent |
| ModelLoading.Membership | utils/model_loader.py:84 | `key in block` on a mapping, string or list; other values raise |
| ModelLoading.ProviderBlock | utils/model_loader.py:81-89 | the provider block is found exactly when `llm` is a mapping holding a mapping under the key; each failure has its own reason |
| ModelLoading.ProviderClient | utils/model_loader.py:90-114 | `groq` and `google` build their clients with the right key; temperature defaults to 0 and the token cap to 2048; other providers fail |
| ModelLoading.SelectedClient | utils/model_loader.py:81-114 | defines the client `load_llm` returns; its meaning is stated by `ModelLoading.ProviderBlock` and `ModelLoading.ProviderClient` |
| ModelLoading.ModelLoader.constructor | utils/model_loader.py:31-35 | the loader keeps the configuration and the validated keys |
| ModelLoading.ModelLoader.Create | utils/model_loader.py:31-52 | construction fails exactly on missing variables (with the list in the message) or a configuration that is not a mapping |
| ModelLoading.ModelLoader.LoadEmbeddings | utils/model_loader.py:59-74 | the embedding model is `config["embedding_model"]["model_name"]`, and a missing entry fails |
| ModelLoading.ModelLoader.LoadLlm | utils/model_loader.py:76-118 | the client is the selected provider block's, and every failure is reported as `Failed to load LLM` with its reason |
| FileOps.GenerateSessionId | utils/file_ops.py:15-17 | the id is the prefix, `_`, a 15-character stamp that parses back as the clock reading, `_`, and the UUID's eight hex digits |
| FileOps.Sanitize | utils/file_ops.py:33 | the sanitised stem is as long as the stem |
| FileOps.SanitizeChars | utils/file_ops.py:33 | every character is in `[a-z0-9_-]`: the lowered original where it was allowed, `_` elsewhere |
| FileOps.SanitizeIdempotent | utils/file_ops.py:33 | sanitising a sanitised stem changes nothing |
| FileOps.AcceptedFilesMembers | utils/file_ops.py:25-31 | the accepted uploads are exactly those with a `.pdf`, `.docx` or `.txt` suffix, in input order |
| FileOps.SaveWritesAreAccepted | utils/file_ops.py:23-43 | there is one write per accepted upload, in order, the j-th with the j-th drawn UUID |
| FileOps.SaveWritesStep | utils/file_ops.py:25-40 | one more upload adds a write exactly when its type is accepted |
| FileOps.SaveUploadedFiles | utils/file_ops.py:20-43 | the target directory and its missing ancestors are created; the returned paths are the written paths, in upload order; the files are exactly the writes applied |
| FileOps.SavedFileName | utils/file_ops.py:33-34 | defines the saved name; its meaning is stated by `FileOps.SavedPathParts` |
| FileOps.SavedPathParts | utils/file_ops.py:33-35 | a saved path lies in the target directory; its name is the sanitised stem, `_`, eight hex digits and the accepted suffix |
| FileOps.PathsOf | utils/file_ops.py:40 | one path per write, in order |
| FileOps.Extension | src/DocumentChat/ingestion.py:65 | defines `path.suffix.lower()`; its meaning is stated by `Storage.StemSuffix` and `Ingestion.TempNameKeepsType` |
| Ingestion.SupportedFileTypesAddMarkdown | src/DocumentChat/ingestion.py:16 | ingestion accepts the upload helper's types and Markdown |
| Ingestion.SessionIdOf | src/DocumentChat/ingestion.py:33-37 | a given non-empty id is kept; `None` or `""` gets the default |
| Ingestion.DefaultSessionId | src/DocumentChat/ingestion.py:36 | defines the default session id; its meaning is stated by `Ingestion.DefaultSessionIdShape` |
| Ingestion.DefaultSessionIdShape | src/DocumentChat/ingestion.py:36 | the default id is `session_`, fourteen digits that parse back as the UTC reading, `_`, and eight hex digits |
| Ingestion.AbsoluteSessionIdSharesDirectory | src/DocumentChat/ingestion.py:33-42 | a given absolute session id replaces both bases, so uploads and index share one directory |
| Ingestion.SessionIdLayoutsDiffer | src/DocumentChat/ingestion.py:36 | an ingestion id never equals an upload-helper id with the default prefix |
| Ingestion.ReadFile | src/DocumentChat/ingestion.py:63-84 | dispatch is on the lower-cased suffix; reading fails exactly for unsupported types or a failing parser, with the file's name in the message; a `.txt` or `.md` text holds no carriage return, as `read_text` translates newlines |
| Ingestion.TempPath | src/DocumentChat/ingestion.py:135-136 | defines the temporary copy's path; its meaning is stated by `Ingestion.TempNameKeepsType` |
| Ingestion.TempNameKeepsType | src/DocumentChat/ingestion.py:135-136 | the temporary copy is named by eight hex digits and the upload's extension, so it keeps its type |
| Ingestion.ReadTempFile | src/DocumentChat/ingestion.py:149 | reading the copy of a supported upload fails only where its parser fails |
| Ingestion.AsInt | src/DocumentChat/ingestion.py:90-91 | a chunk setting is usable in arithmetic exactly when it is an integer or a boolean |
| Ingestion.ChunkFile | src/DocumentChat/ingestion.py:88-104 | defines `_chunk_text` with its settings lookups; its meaning is stated by `Ingestion.ChunkFileShape`, and `Ingestion.DocumentIngestor.ChunkConfigured` is proved equal to it |
| Ingestion.ChunkFileShape | src/DocumentChat/ingestion.py:88-104 | on success every chunk is a well-formed chunk of the text, at most `chunk_size` long, and an empty text gives none |
| Ingestion.TextUploadChunksNoReturn | src/DocumentChat/ingestion.py:75-76 | a `.txt` or `.md` upload always reads, and none of its chunks holds a carriage return, so only a parser's text can carry one into the chunks file |
| Ingestion.Run | src/DocumentChat/ingestion.py:124-151 | the loop writes at most one copy per upload |
| Ingestion.RunStep | src/DocumentChat/ingestion.py:124-151 | one more upload is skipped, fails the loop, or appends its chunks and one write |
| Ingestion.RunStops | src/DocumentChat/ingestion.py:149-151 | after the first failure, later uploads change nothing |
| Ingestion.RunSkips | src/DocumentChat/ingestion.py:127-133 | skipping rejected uploads is the same as leaving them out |
| Ingestion.RunHandlesKept | src/DocumentChat/ingestion.py:124-151 | on success, the k-th kept upload was handled with draw k, and every chunk comes from one of them |
| Ingestion.SkipsUnsupported | src/DocumentChat/ingestion.py:125-133 | ingesting all uploads is ingesting the supported ones |
| Ingestion.IngestLoop | src/DocumentChat/ingestion.py:122-151 | defines the upload loop of `ingest_files` as `Run` over the supported uploads; its meaning is stated by `Ingestion.IngestedChunks` and `Ingestion.SkipsUnsupported`, and by `Ingestion.RunStops` for `Run` |
| Ingestion.IngestStepShape | src/DocumentChat/ingestion.py:135-151 | a supported upload is copied under its drawn name, and its chunks are chunks of the copy's text |
| Ingestion.IngestedChunks | src/DocumentChat/ingestion.py:122-151 | on success there is one copy per supported upload, in order, and every chunk is a well-formed chunk of one upload's text within `chunk_size` |
| Ingestion.BuildIndex | src/DocumentChat/ingestion.py:178-187 | the index is built exactly from a non-empty, rectangular list of rows; it holds every row, and its dimension is their width |
| Ingestion.IndexFrom | src/DocumentChat/ingestion.py:178-187 | an `embed_documents` failure is reported as such; otherwise the index is built exactly from non-empty rectangular rows and holds them |
| Ingestion.IndexDirectoryContents | src/DocumentChat/ingestion.py:189-197 | afterwards the session directory holds the index and the chunks joined by the separator |
| Ingestion.IndexCountsChunks | src/DocumentChat/ingestion.py:178-209 | with one embedding per chunk, the persisted index holds as many vectors as the reported `total_chunks`, in chunk order, beside the joined chunks |
| Ingestion.DocumentIngestor.constructor | src/DocumentChat/ingestion.py:33-47 | the ingestor keeps its session id, directories, configuration and embedding model |
| Ingestion.DocumentIngestor.Create | src/DocumentChat/ingestion.py:18-59 | the two base directories and the two session directories are created, with their missing ancestors; construction succeeds exactly when the loader and the embedding model load; failures report `Failed to initialize DocumentIngestor` |
| Ingestion.DocumentIngestor.ChunkConfigured | src/DocumentChat/ingestion.py:88-104 | `_chunk_text` reads the settings and runs the splitter, failing on a missing or non-integer setting |
| Ingestion.DocumentIngestor.BuildFaissIndex | src/DocumentChat/ingestion.py:176-220 | writes the index and the joined chunks, and reports the chunk count, unless the embedding fails or the embeddings are empty or ragged; failures are reported as `Failed to build FAISS index` |
| Ingestion.DocumentIngestor.IngestOne | src/DocumentChat/ingestion.py:135-151 | the loop body copies, reads and chunks one supported upload |
| Ingestion.DocumentIngestor.IngestFiles | src/DocumentChat/ingestion.py:108-172 | fails on no uploads, on the first failing upload, on no chunks, or on a failed build; otherwise it persists the index of all chunks, in upload order, and with one embedding per chunk the index holds `total_chunks` vectors |
| Retrieval.StoredIndex | src/DocumentChat/retrieval.py:49-58 | loading needs both files; the chunks are the file read with universal newlines and split; a successful load yields at least one chunk |
| Retrieval.StoredIndexOfPersisted | src/DocumentChat/retrieval.py:54-58 | reopening an ingested directory gives its index back, and gives its chunks back exactly when none holds a carriage return and they separate cleanly |
| Retrieval.ReloadedChunks | src/DocumentChat/retrieval.py:58 | stripped chunks survive join-then-split exactly when none contains the separator and none but the last ends with "\n\n---" |
| Retrieval.RuleEndingChunkSplitsDifferently | src/DocumentChat/retrieval.py:58 | `["a\n\n---", "b"]` does not survive the round trip |
| Retrieval.ReloadCondition | src/DocumentChat/retrieval.py:58 | stripped chunks read back from their joined file exactly when none holds a carriage return or the separator and none but the last ends with "\n\n---" |
| Retrieval.CarriageReturnChunkSplitsDifferently | src/DocumentChat/retrieval.py:58 | a chunk holding "\r\n" around a rule, as a PDF or DOCX parser may give, holds no separator, yet does not read back as itself |
| Retrieval.IngestedChunksReload | src/DocumentChat/retrieval.py:58 | the chunks an ingestion produces reload unchanged exactly when none holds a carriage return or the separator and none but the last ends with "\n\n---" |
| Retrieval.Below | src/DocumentChat/retrieval.py:82 | the guard keeps only labels below `len(chunks)`, taken from the labels |
| Retrieval.Retrieved | src/DocumentChat/retrieval.py:80-97 | defines the label-to-chunk loop of `_retrieve`; its meaning is stated by `Retrieval.RetrievedMeaning` |
| Retrieval.RetrievedOk | src/DocumentChat/retrieval.py:81-83 | the loop raises no `IndexError` exactly when no label is below `-len(chunks)` |
| Retrieval.RetrievedValues | src/DocumentChat/retrieval.py:81-83 | a successful loop yields, in rank order, the chunk at each label below `len(chunks)` |
| Retrieval.RetrievedFirstBad | src/DocumentChat/retrieval.py:81-83 | a failed loop reports the first label below `-len(chunks)` |
| Retrieval.RetrievedMeaning | src/DocumentChat/retrieval.py:81-83 | retrieval succeeds exactly when no label is below `-len(chunks)`; it then yields, in rank order, the chunk at each label below `len(chunks)`, otherwise it reports the first bad label |
| Retrieval.RetrievedInRange | src/DocumentChat/retrieval.py:81-83 | labels that all name a chunk retrieve exactly those chunks, in rank order |
| Retrieval.RetrievedStops | src/DocumentChat/retrieval.py:83 | after an `IndexError` the remaining labels change nothing |
| Retrieval.PaddingRepeatsLast | src/DocumentChat/retrieval.py:78-83 | each `-1` padding label yields the last chunk |
| Retrieval.Retrieval | src/DocumentChat/retrieval.py:73-102 | a failed query embedding or search fails with its reason; otherwise the result is the mapping of the ranked labels, a mapping failure reported with its label; every failure is reported as `Error during FAISS retrieval` |
| Retrieval.Prompt | src/DocumentChat/retrieval.py:110-115 | defines the formatted prompt; its meaning is stated by `Retrieval.PromptFields` |
| Retrieval.PromptFields | src/DocumentChat/retrieval.py:110-115 | the prompt is the template with the context and the question, each inserted once and unaltered, at their places |
| Retrieval.PromptInjective | src/DocumentChat/retrieval.py:112-115 | equal prompts with equal-length contexts have the same context and question |
| Retrieval.Reply | src/DocumentChat/retrieval.py:126-141 | defines the returned reply; its meaning is stated by `Retrieval.ReplyFallback` |
| Retrieval.ReplyFallback | src/DocumentChat/retrieval.py:126-141 | an empty or whitespace-only reply becomes the fallback and any other is returned unchanged; the result is never blank, and the fallback is a fixed point |
| Retrieval.NoAnswerNotBlank | src/DocumentChat/retrieval.py:133 | the fallback text is not blank |
| Retrieval.RetrievalEngine.constructor | src/DocumentChat/retrieval.py:20-31 | the engine keeps its session id, directory and models |
| Retrieval.RetrievalEngine.LoadFaiss | src/DocumentChat/retrieval.py:49-69 | sets the index and the chunks read with universal newlines and split, or fails as `Failed to load FAISS index`; the index is set before the chunks file is read |
| Retrieval.RetrievalEngine.Create | src/DocumentChat/retrieval.py:20-45 | a missing directory fails first; construction succeeds exactly when the loader, both models and the index load, and keeps what they loaded |
| Retrieval.RetrievalEngine.Retrieve | src/DocumentChat/retrieval.py:73-102 | the loop over the ranked labels computes the retrieval specification |
| Retrieval.RetrievalEngine.Answer | src/DocumentChat/retrieval.py:106-146 | the chat model receives the prompt over the retrieved chunks joined by a blank line; its reply passes through the fallback; failures are wrapped as `Failed to generate answer` |

## Left out

- Logging calls, `load_dotenv` and the YAML loading of `load_config`. The environment and the parsed configuration are parameters.
- File contents are values: raw bytes, text, or an index. I/O errors of `open`, `write_text` and `mkdir` are not modelled.
- `FileOps.SaveUploadedFiles`: the failure path that wraps I/O errors (utils/file_ops.py:45-46) is not modelled. The method never fails. The exception class it uses, exception/custom_exception_archieve.py, is not part of this model.
- PDF and DOCX extraction and `errors="ignore"` decoding are oracles in `Ingestion.Parsers`. The newline translation `read_text` applies after decoding is modelled. The PDF oracle already gives `""` for a page without text.
- Embedding, the FAISS search and the chat model are oracles. So are float32 conversion, L2 distances and the distances array. The search oracle returns the ranked labels as integers.
- The `hasattr(uploaded_files[0], "getbuffer")` check: uploads are typed `(name, data)` records and always have a buffer.
- The client constructors (`ChatGroq`, `ChatGoogleGenerativeAI`, `HuggingFaceEmbeddings`) are assumed to succeed. Their objects are tagged values.
- `getattr(response, "content", str(response))`: the chat oracle returns the reply text directly.
- `str(error_message)` for a non-string message: messages are strings. Tracebacks are frame sequences, and `traceback.format_exception` is a function parameter.
- `Text.Lower`: lowers ASCII letters only. The only non-ASCII characters Python lowers to ASCII letters are U+0130 and U+212A, and no accepted extension contains them.
- `Storage.PathJoin`: an absolute name replaces the base, an empty name leaves it, and an empty base (`.`) leaves the name relative, as `pathlib` does. `pathlib`'s normalisation of a trailing separator, of `.` components and of repeated separators is not modelled.
- `Retrieval.StoredIndex`: a chunks file that holds bytes is treated as unreadable. Decoding such a file as UTF-8 is not modelled.
- `Ingestion.BuildIndex`: accepts rows of width zero. FAISS may reject a zero-dimensional index.
- `Ingestion.DocumentIngestor.IngestFiles`: requires that integer chunk settings satisfy `chunk_overlap < chunk_size`. Without that, `_chunk_text` never ends on a non-empty text. The requirement also holds when every text turns out empty, where Python would return.
- `Ingestion.ChunkFile`: a non-integer setting is an error on every non-empty text. Python succeeds with a float `chunk_overlap` when the first window already reaches the end of the text.
