/**
 * `DocumentPortalException`: the one exception type every layer of the
 * pipeline raises. It records where the failure happened (file and line of
 * the innermost traceback frame), the message it was raised with, and the
 * formatted traceback, and renders them in a fixed one-line layout.
 */
module PortalException {
  import opened Wrappers
  import opened Text
  import opened Numerals
  import opened Config

  // ---------------------------------------------------------------- what was raised

  /**
   * The exception a failing operation raises, as a value: the message of the
   * `DocumentPortalException` it surfaces as, and the exception that caused it.
   */
  datatype Failure = Raised(message: string, cause: Reason)

  /** The exception wrapped as `error_details`, or none. */
  datatype Reason =
    | NoCause                              // raised without error_details
    | Chained(inner: Failure)              // a DocumentPortalException raised further in, wrapped again
    | NotAMapping                          // the configuration is not a mapping (`.keys()` fails)
    | LookupFailed(key: string)            // `block[key]`: KeyError, or TypeError on a value that is not a mapping
    | NotAContainer                        // `key in block` on a value that is neither mapping, string nor list
    | ProviderNotFound(providerKey: string)
    | UnsupportedProvider(provider: Value)
    | UnsupportedFileType(ext: string)
    | ExtractionFailed                     // a document parser raised
    | InvalidSetting(setting: string)      // a chunking setting that is not an integer: TypeError in the window arithmetic
    | NoFilesProvided
    | NoContentExtracted
    | NoEmbeddings
    | RaggedEmbeddings                     // the embedding rows do not form a matrix
    | DirectoryNotFound(dir: string)
    | IndexFilesMissing
    | IndexUnreadable                      // `faiss.read_index` on a file that holds no index
    | ChunksUnreadable                     // `read_text` on a file that holds no text
    | PositionOutOfRange(position: int)    // IndexError from `chunks[idx]`
    | EmbeddingFailed                      // the embedding model raised on the query
    | SearchFailed                         // the index search raised
    | GenerationFailed                     // the chat model raised

  // ---------------------------------------------------------------- traceback source

  /** One traceback entry: the code file of its frame and the line it was executing. */
  datatype Frame = Frame(fileName: string, lineno: int)

  /**
   * An `(exc_type, exc_value, exc_tb)` triple: the exception's type name and
   * text, and its traceback chain from the outermost frame to the innermost
   * (the empty sequence where the traceback is `None`).
   */
  datatype ExcInfo = ExcInfo(excType: Option<string>, excValue: Option<string>, traceback: seq<Frame>)

  /** What a caller passes as `error_details`. */
  datatype Details =
    | NoDetails                                                    // None
    | ExcInfoProvider(info: ExcInfo)                               // an object with an `exc_info()` method, such as `sys`
    | RaisedException(typeName: string, text: string, traceback: seq<Frame>)   // a BaseException without `exc_info`
    | OtherDetails                                                 // anything else

  /**
   * The triple the constructor inspects; `current` is what `sys.exc_info()`
   * returns at the time of the call.
   */
  function TracebackSource(details: Details, current: ExcInfo): (r: ExcInfo)
    ensures (details.NoDetails? || details.OtherDetails?) ==> r == current
    ensures details.ExcInfoProvider? ==> r == details.info
    ensures details.RaisedException? ==>
              r.excType == Some(details.typeName) && r.excValue == Some(details.text)
              && r.traceback == details.traceback
  {
    match details
    case NoDetails => current
    case ExcInfoProvider(info) => info
    case RaisedException(t, v, tb) => ExcInfo(Some(t), Some(v), tb)
    case OtherDetails => current
  }

  /** Follows the `tb_next` links to the innermost frame. */
  method LastFrame(tb: seq<Frame>) returns (last: Option<Frame>)
    ensures last.None? <==> tb == []
    ensures last.Some? ==> last.value == tb[|tb| - 1]
  {
    if tb == [] {
      return None;
    }
    var i := 0;
    while i + 1 < |tb|
      invariant 0 <= i < |tb|
    {
      i := i + 1;
    }
    return Some(tb[i]);
  }

  // ---------------------------------------------------------------- rendering

  const UnknownFile := "<unknown>"
  const UnknownLine := -1

  function Header(fileName: string, lineno: int, message: string): string
  {
    "Error in [" + fileName + "] at line [" + IntToString(lineno) + "] | Message: " + message
  }

  /** `__str__`: the header, then the traceback section only when there is a traceback text. */
  function Render(fileName: string, lineno: int, message: string, tracebackText: string): (r: string)
    ensures StartsWith(r, Header(fileName, lineno, message))
    ensures r == Header(fileName, lineno, message) <==> tracebackText == ""
    ensures tracebackText != "" ==> EndsWith(r, "\nTraceback:\n" + tracebackText)
    ensures EndsWith(r, " | Message: " + message) <== tracebackText == ""
    ensures |r| == |Header(fileName, lineno, message)| + (if tracebackText == "" then 0 else 12 + |tracebackText|)
  {
    var base := Header(fileName, lineno, message);
    Appended(base, "\nTraceback:\n" + tracebackText);
    Appended("Error in [" + fileName + "] at line [" + IntToString(lineno) + "]", " | Message: " + message);
    if tracebackText != "" then base + ("\nTraceback:\n" + tracebackText) else base
  }

  /** `a + b` starts with `a`, ends with `b`, and is longer than `a` unless `b` is empty. */
  lemma Appended(a: string, b: string)
    ensures StartsWith(a + b, a) && EndsWith(a + b, b)
    ensures a + b == a <==> b == []
  {
    assert (a + b)[..|a|] == a;
    assert (a + b)[|a|..] == b;
  }

  /** The default line number prints as `-1`. */
  lemma UnknownLineString()
    ensures IntToString(UnknownLine) == "-1"
  {
    assert NatToString(1) == [DigitChar(1)];
  }

  /** With no traceback the location defaults render as `[<unknown>]` and `[-1]`. */
  lemma UnknownLocationRendering(message: string)
    ensures Render(UnknownFile, UnknownLine, message, "")
            == "Error in [" + "<unknown>" + "] at line [" + "-1" + "] | Message: " + message
  {
    UnknownLineString();
  }

  /** The exception object: what `__init__` stores and `__str__` reads. */
  class DocumentPortalException {
    var fileName: string
    var lineno: int
    var errorMessage: string
    var tracebackText: string
    /** The message handed to `Exception.__init__`, i.e. `args[0]`. */
    var baseMessage: string

    /**
     * `DocumentPortalException(error_message, error_details)` with the message
     * already converted by `str`; `formatException` stands for
     * `''.join(traceback.format_exception(...))`.
     */
    constructor (message: string, details: Details, current: ExcInfo, formatException: ExcInfo -> string)
      ensures var info := TracebackSource(details, current);
              && (info.traceback == [] ==> fileName == UnknownFile && lineno == UnknownLine)
              && (info.traceback != [] ==>
                    fileName == info.traceback[|info.traceback| - 1].fileName
                    && lineno == info.traceback[|info.traceback| - 1].lineno)
              && tracebackText == (if info.excType.Some? && info.traceback != [] then formatException(info) else "")
      ensures errorMessage == message && baseMessage == message
    {
      var info := TracebackSource(details, current);
      var last := LastFrame(info.traceback);
      match last {
        case None =>
          fileName := UnknownFile;
          lineno := UnknownLine;
        case Some(frame) =>
          fileName := frame.fileName;
          lineno := frame.lineno;
      }
      errorMessage := message;
      tracebackText := if info.excType.Some? && info.traceback != [] then formatException(info) else "";
      baseMessage := message;
    }

    /**
     * `__str__`: the location header over the stored message, followed by the
     * traceback section exactly when a traceback text was recorded.
     */
    function ToString(): (r: string)
      reads this
      ensures StartsWith(r, Header(fileName, lineno, errorMessage))
      ensures r == Header(fileName, lineno, errorMessage) <==> tracebackText == ""
      ensures tracebackText != "" ==> EndsWith(r, "\nTraceback:\n" + tracebackText)
      ensures |r| == |Header(fileName, lineno, errorMessage)| + (if tracebackText == "" then 0 else 12 + |tracebackText|)
    {
      Render(fileName, lineno, errorMessage, tracebackText)
    }
  }
}
