/**
 * The upload helpers: a session id stamped with the Asia/Kolkata clock, and
 * saving uploads of an accepted type under sanitised, randomised names.
 */
module FileOps {
  import opened Text
  import opened Numerals
  import opened Storage

  const SupportedExtensions: set<string> := {".pdf", ".docx", ".txt"}
  const DefaultPrefix := "session"

  /**
   * `generate_session_id(prefix)`: `t` is the clock read in Asia/Kolkata time
   * and `u` the drawn UUID. The id is the prefix, `_`, the `%Y%m%d_%H%M%S`
   * stamp, `_` and eight hex digits, and the clock reading can be read back.
   */
  function GenerateSessionId(prefix: string, t: DateTime, u: Uuid): (r: string)
    requires ValidDateTime(t)
    ensures |r| == |prefix| + 25
    ensures StartsWith(r, prefix + "_") && r[|prefix| + 16] == '_'
    ensures ParseStamp(r[|prefix| + 1..|prefix| + 16], 1) == t
    ensures r[|prefix| + 17..] == Hex8(u)
  {
    UnderscoreStampRoundTrip(t);
    var stamp := UnderscoreStamp(t);
    var r := prefix + "_" + stamp + "_" + Hex8(u);
    assert r[..|prefix| + 1] == prefix + "_";
    assert r[|prefix| + 1..|prefix| + 16] == stamp;
    assert r[|prefix| + 17..] == Hex8(u);
    r
  }

  /** The characters `[a-zA-Z0-9_-]` kept by the substitution. */
  predicate SafeChar(c: char) {
    ('a' <= c <= 'z') || ('A' <= c <= 'Z') || ('0' <= c <= '9') || c == '_' || c == '-'
  }

  predicate LowerSafeChar(c: char) {
    ('a' <= c <= 'z') || ('0' <= c <= '9') || c == '_' || c == '-'
  }

  /** `re.sub(r"[^a-zA-Z0-9_-]", "_", stem)`. */
  function Substitute(stem: string): (r: string)
    ensures |r| == |stem|
  {
    if stem == [] then []
    else
      var c := stem[|stem| - 1];
      Substitute(stem[..|stem| - 1]) + [if SafeChar(c) then c else '_']
  }

  /** `re.sub(r"[^a-zA-Z0-9_-]", "_", stem).lower()`. */
  function Sanitize(stem: string): (r: string)
    ensures |r| == |stem|
  {
    Lower(Substitute(stem))
  }

  lemma {:induction false} SubstituteChars(stem: string)
    ensures forall i | 0 <= i < |stem| :: Substitute(stem)[i] == if SafeChar(stem[i]) then stem[i] else '_'
  {
    if stem != [] {
      var init := stem[..|stem| - 1];
      SubstituteChars(init);
      forall i | 0 <= i < |stem| - 1 ensures Substitute(stem)[i] == Substitute(init)[i] {
      }
    }
  }

  /** Each character is kept lower-cased when it is `[a-zA-Z0-9_-]` and replaced by `_` otherwise. */
  lemma SanitizeChars(stem: string)
    ensures forall i | 0 <= i < |stem| :: LowerSafeChar(Sanitize(stem)[i])
    ensures forall i | 0 <= i < |stem| :: Sanitize(stem)[i] == if SafeChar(stem[i]) then AsciiLower(stem[i]) else '_'
  {
    SubstituteChars(stem);
  }

  /** A sanitised stem is left as it is by sanitising it again. */
  lemma SanitizeIdempotent(stem: string)
    ensures Sanitize(Sanitize(stem)) == Sanitize(stem)
  {
    var s := Sanitize(stem);
    SanitizeChars(stem);
    SanitizeChars(s);
    assert forall i | 0 <= i < |s| :: Sanitize(s)[i] == s[i] by {
      forall i | 0 <= i < |s| ensures Sanitize(s)[i] == s[i] {
        assert SafeChar(s[i]);
      }
    }
  }

  /** `f"{safe}_{uuid.uuid4().hex[:8]}{ext}"`. */
  function SavedFileName(stem: string, u: Uuid, ext: string): string
  {
    Sanitize(stem) + "_" + Hex8(u) + ext
  }

  /** The lower-cased suffix an upload is filtered on. */
  function Extension(name: string): string
  {
    Lower(Suffix(name))
  }

  predicate Accepted(f: UploadedFile) {
    Extension(f.name) in SupportedExtensions
  }

  /** The uploads `keep` lets through, in upload order. */
  function KeptFiles(files: seq<UploadedFile>, keep: UploadedFile -> bool): (r: seq<UploadedFile>)
    ensures |r| <= |files|
  {
    if files == [] then []
    else
      var init := KeptFiles(files[..|files| - 1], keep);
      var last := files[|files| - 1];
      if keep(last) then init + [last] else init
  }

  lemma {:induction false} KeptFilesMembers(files: seq<UploadedFile>, keep: UploadedFile -> bool)
    ensures forall f :: f in KeptFiles(files, keep) <==> f in files && keep(f)
  {
    if files != [] {
      KeptFilesMembers(files[..|files| - 1], keep);
      assert files == files[..|files| - 1] + [files[|files| - 1]];
    }
  }

  /** The uploads that are saved, in upload order. */
  function AcceptedFiles(files: seq<UploadedFile>): seq<UploadedFile>
  {
    KeptFiles(files, Accepted)
  }

  /** An upload is saved iff its lower-cased suffix is supported. */
  lemma AcceptedFilesMembers(files: seq<UploadedFile>)
    ensures forall f :: f in AcceptedFiles(files) <==> f in files && Accepted(f)
  {
    KeptFilesMembers(files, Accepted);
  }

  /** Where the `j`-th saved upload `f` goes; `draws(j)` is the UUID drawn for it. */
  function SavedPath(f: UploadedFile, target: string, u: Uuid): string
  {
    PathJoin(target, SavedFileName(Stem(f.name), u, Extension(f.name)))
  }

  /** One write per kept upload, the n-th one made by `op` from that upload and `n`. */
  function WritesFor(files: seq<UploadedFile>, keep: UploadedFile -> bool, op: (UploadedFile, nat) -> WriteOp): (r: seq<WriteOp>)
    ensures |r| == |KeptFiles(files, keep)|
  {
    if files == [] then []
    else
      var init := WritesFor(files[..|files| - 1], keep, op);
      var last := files[|files| - 1];
      if keep(last) then init + [op(last, |init|)] else init
  }

  lemma {:induction false} WritesForKept(files: seq<UploadedFile>, keep: UploadedFile -> bool, op: (UploadedFile, nat) -> WriteOp)
    ensures forall j | 0 <= j < |WritesFor(files, keep, op)| ::
              WritesFor(files, keep, op)[j] == op(KeptFiles(files, keep)[j], j)
  {
    if files != [] {
      WritesForKept(files[..|files| - 1], keep, op);
    }
  }

  lemma WritesForStep(files: seq<UploadedFile>, i: nat, keep: UploadedFile -> bool, op: (UploadedFile, nat) -> WriteOp)
    requires i < |files|
    ensures var before := WritesFor(files[..i], keep, op);
            WritesFor(files[..i + 1], keep, op) == if keep(files[i]) then before + [op(files[i], |before|)] else before
  {
    assert files[..i + 1][..i] == files[..i];
  }

  /** The write of upload `f` when it is the `j`-th saved: its bytes under the name made with the `j`-th UUID drawn. */
  function SaveOp(target: string, draws: nat -> Uuid): (UploadedFile, nat) -> WriteOp
  {
    (f: UploadedFile, j: nat) => WriteOp(SavedPath(f, target, draws(j)), BinaryFile(f.data))
  }

  /** The writes the helper performs, in upload order, the n-th one using the n-th UUID drawn. */
  function SaveWrites(files: seq<UploadedFile>, target: string, draws: nat -> Uuid): seq<WriteOp>
  {
    WritesFor(files, Accepted, SaveOp(target, draws))
  }

  /** One write per accepted upload, in order: the j-th accepted upload's bytes under its generated path. */
  lemma SaveWritesAreAccepted(files: seq<UploadedFile>, target: string, draws: nat -> Uuid)
    ensures |SaveWrites(files, target, draws)| == |AcceptedFiles(files)|
    ensures forall j | 0 <= j < |SaveWrites(files, target, draws)| ::
              SaveWrites(files, target, draws)[j]
              == WriteOp(SavedPath(AcceptedFiles(files)[j], target, draws(j)), BinaryFile(AcceptedFiles(files)[j].data))
  {
    WritesForKept(files, Accepted, SaveOp(target, draws));
  }

  function PathsOf(ops: seq<WriteOp>): (r: seq<string>)
    ensures |r| == |ops| && forall j | 0 <= j < |ops| :: r[j] == ops[j].path
  {
    if ops == [] then [] else PathsOf(ops[..|ops| - 1]) + [ops[|ops| - 1].path]
  }

  /**
   * `save_uploaded_files(uploaded_files, target_dir)`: creates the target
   * directory, writes each accepted upload's bytes under its generated name,
   * and returns the written paths in upload order.
   */
  method SaveUploadedFiles(fs: FileSystem, files: seq<UploadedFile>, target: string, draws: nat -> Uuid)
    returns (saved: seq<string>)
    modifies fs
    ensures saved == PathsOf(SaveWrites(files, target, draws))
    ensures fs.dirs == old(fs.dirs) + MadeDirs(target)
    ensures fs.files == ApplyWrites(old(fs.files), SaveWrites(files, target, draws))
  {
    fs.MakeDirs(target);
    saved := [];
    ghost var ops: seq<WriteOp> := [];
    var drawn := 0;
    for i := 0 to |files|
      invariant ops == SaveWrites(files[..i], target, draws)
      invariant saved == PathsOf(ops) && drawn == |ops|
      invariant fs.dirs == old(fs.dirs) + MadeDirs(target)
      invariant fs.files == ApplyWrites(old(fs.files), ops)
    {
      var uf := files[i];
      SaveWritesStep(files, i, target, draws);
      var ext := Extension(uf.name);
      if ext !in SupportedExtensions {
        continue;
      }
      var fname := SavedFileName(Stem(uf.name), draws(drawn), ext);
      var out := PathJoin(target, fname);
      fs.Write(out, BinaryFile(uf.data));
      ApplyWritesSnoc(old(fs.files), ops, WriteOp(out, BinaryFile(uf.data)));
      assert (ops + [WriteOp(out, BinaryFile(uf.data))])[..|ops|] == ops;
      ops := ops + [WriteOp(out, BinaryFile(uf.data))];
      saved := saved + [out];
      drawn := drawn + 1;
    }
    assert files[..|files|] == files;
  }

  lemma SaveWritesStep(files: seq<UploadedFile>, i: nat, target: string, draws: nat -> Uuid)
    requires i < |files|
    ensures var before := SaveWrites(files[..i], target, draws);
            SaveWrites(files[..i + 1], target, draws)
            == if Accepted(files[i])
               then before + [WriteOp(SavedPath(files[i], target, draws(|before|)), BinaryFile(files[i].data))]
               else before
  {
    WritesForStep(files, i, Accepted, SaveOp(target, draws));
  }

  /**
   * A saved path lies in the target directory, and its name splits back into
   * the sanitised stem with the random suffix, and the accepted extension.
   */
  lemma SavedPathParts(f: UploadedFile, target: string, u: Uuid)
    requires Accepted(f)
    ensures NameOf(SavedPath(f, target, u)) == SavedFileName(Stem(f.name), u, Extension(f.name))
    ensures Suffix(SavedPath(f, target, u)) == Extension(f.name)
    ensures Stem(SavedPath(f, target, u)) == Sanitize(Stem(f.name)) + "_" + Hex8(u)
  {
    var ext := Extension(f.name);
    SanitizeChars(Stem(f.name));
    Hex8Digits(u);
    PlainStem(Sanitize(Stem(f.name)), Hex8(u));
    SupportedExtensionShape(ext);
    ComposedPath(target, Sanitize(Stem(f.name)) + "_" + Hex8(u), ext);
  }

  lemma ComposedPath(target: string, stem: string, ext: string)
    requires stem != [] && forall i | 0 <= i < |stem| :: stem[i] != '.' && stem[i] != '/'
    requires |ext| >= 2 && ext[0] == '.' && forall i | 1 <= i < |ext| :: ext[i] != '.' && ext[i] != '/'
    ensures NameOf(PathJoin(target, stem + ext)) == stem + ext
    ensures Suffix(PathJoin(target, stem + ext)) == ext && Stem(PathJoin(target, stem + ext)) == stem
  {
    SuffixOfComposedName(stem, ext);
    NameOfJoin(target, stem + ext);
  }

  /** A sanitised stem, `_` and hex digits hold neither a dot nor a path separator. */
  lemma PlainStem(safe: string, hex: string)
    requires forall i | 0 <= i < |safe| :: LowerSafeChar(safe[i])
    requires forall i | 0 <= i < |hex| :: IsDigit(hex[i], 16)
    ensures var stem := safe + "_" + hex;
            stem != [] && forall i | 0 <= i < |stem| :: stem[i] != '.' && stem[i] != '/'
  {
    var stem := safe + "_" + hex;
    forall i | 0 <= i < |stem| ensures stem[i] != '.' && stem[i] != '/' {
      if i < |safe| {
        assert stem[i] == safe[i];
      } else if i > |safe| {
        assert stem[i] == hex[i - |safe| - 1];
      }
    }
  }

  lemma SupportedExtensionShape(ext: string)
    requires ext in SupportedExtensions
    ensures |ext| >= 2 && ext[0] == '.' && forall i | 1 <= i < |ext| :: ext[i] != '.' && ext[i] != '/'
  {
  }
}
