/**
 * What the pipeline reads from and writes to disk: `pathlib` name handling,
 * the directory tree as a set of directories and a map of files, uploaded
 * files, the FAISS index as a value, and the layout of a session's index
 * directory (`index.faiss` beside `chunks.txt`, chunks joined by a separator).
 */
module Storage {
  import opened Text

  // ---------------------------------------------------------------- paths

  /**
   * `Path(base) / name` for a base without trailing separator: an absolute
   * name replaces the base, an empty name leaves the base alone, and an
   * empty base (the current directory `.`) leaves the name relative.
   */
  function PathJoin(base: string, name: string): string
  {
    if name == [] then base
    else if name[0] == '/' then name
    else if base == [] then name
    else base + "/" + name
  }

  /**
   * The directories `Path(p).mkdir(parents=True, exist_ok=True)` leaves in
   * place: `p` and each of its ancestors, the prefixes of `p` that end just
   * before a separator (the root itself always exists).
   */
  function MadeDirs(p: string): set<string>
  {
    {p} + set i | 0 < i < |p| && p[i] == '/' :: p[..i]
  }

  /** `MadeDirs(p)` holds `p`, and a directory other than `p` exactly when it is an ancestor of `p`. */
  lemma MadeDirsMembers(p: string)
    ensures p in MadeDirs(p)
    ensures forall d :: d in MadeDirs(p) <==> d == p || (0 < |d| < |p| && p[|d|] == '/' && p[..|d|] == d)
  {
    forall d | 0 < |d| < |p| && p[|d|] == '/' && p[..|d|] == d
      ensures d in MadeDirs(p)
    {
      var i := |d|;
      assert p[..i] in (set i | 0 < i < |p| && p[i] == '/' :: p[..i]);
    }
  }

  /**
   * Making a directory below `base` also makes `base` and its ancestors, so
   * a session directory's creation leaves its parent in place.
   */
  lemma MadeDirsOfJoin(base: string, name: string)
    requires base != [] && name != [] && name[0] != '/'
    ensures MadeDirs(base) <= MadeDirs(PathJoin(base, name))
  {
    var p := PathJoin(base, name);
    MadeDirsMembers(base);
    MadeDirsMembers(p);
    forall d | d in MadeDirs(base) ensures d in MadeDirs(p) {
      assert p[|base|] == '/';
      assert p[..|d|] == base[..|d|];
    }
  }

  /** The position of the last `ch` among the first `j` characters of `s` (`str.rfind`), or -1. */
  function LastIndex(s: string, ch: char, j: nat): (r: int)
    requires j <= |s|
    ensures -1 <= r < j
  {
    if j == 0 then -1 else if s[j - 1] == ch then j - 1 else LastIndex(s, ch, j - 1)
  }

  /** `LastIndex` finds a `ch`, and none comes after it. */
  lemma {:induction false} LastIndexFacts(s: string, ch: char, j: nat)
    requires j <= |s|
    ensures LastIndex(s, ch, j) >= 0 ==> s[LastIndex(s, ch, j)] == ch
    ensures forall i | LastIndex(s, ch, j) < i < j :: s[i] != ch
  {
    if j > 0 && s[j - 1] != ch {
      LastIndexFacts(s, ch, j - 1);
    }
  }

  /** A `ch` with no `ch` after it is the last one. */
  lemma {:induction false} LastIndexIs(s: string, ch: char, j: nat, k: int)
    requires -1 <= k < j <= |s| && (k >= 0 ==> s[k] == ch)
    requires forall i | k < i < j :: s[i] != ch
    ensures LastIndex(s, ch, j) == k
  {
    if j - 1 > k {
      LastIndexIs(s, ch, j - 1, k);
    }
  }

  /** The length of `p` without its trailing separators. */
  function TrimmedLength(p: string, j: nat): (r: nat)
    requires j <= |p|
    ensures r <= j
  {
    if j > 0 && p[j - 1] == '/' then TrimmedLength(p, j - 1) else j
  }

  function DropTrailingSlashes(p: string): string
  {
    p[..TrimmedLength(p, |p|)]
  }

  function AfterLastSlash(p: string): string
  {
    p[LastIndex(p, '/', |p|) + 1..]
  }

  /** `PurePath(p).name`: the last `/`-separated component. */
  function NameOf(p: string): string
  {
    AfterLastSlash(DropTrailingSlashes(p))
  }

  /** `str.rfind('.')` on a name: the position of the last dot. */
  function LastDot(name: string): (r: int)
    ensures -1 <= r < |name|
  {
    LastIndex(name, '.', |name|)
  }

  /** `PurePath(p).suffix`: from the last dot of the name, unless that dot leads or ends the name. */
  function Suffix(p: string): string
  {
    SuffixOfName(NameOf(p))
  }

  function SuffixOfName(name: string): string
  {
    var i := LastDot(name);
    if 0 < i < |name| - 1 then name[i..] else ""
  }

  /** `PurePath(p).stem`: the name without its suffix. */
  function Stem(p: string): string
  {
    StemOfName(NameOf(p))
  }

  function StemOfName(name: string): string
  {
    var i := LastDot(name);
    if 0 < i < |name| - 1 then name[..i] else name
  }

  /** Stem and suffix split the name: a suffix is empty or a dot, at least one more character and no further dot. */
  lemma StemSuffix(p: string)
    ensures Stem(p) + Suffix(p) == NameOf(p)
    ensures Suffix(p) == [] || (|Suffix(p)| >= 2 && Suffix(p)[0] == '.' && Stem(p) != [])
    ensures forall i | 1 <= i < |Suffix(p)| :: Suffix(p)[i] != '.'
  {
    StemSuffixOfName(NameOf(p));
  }

  lemma StemSuffixOfName(name: string)
    ensures StemOfName(name) + SuffixOfName(name) == name
    ensures SuffixOfName(name) == [] || (|SuffixOfName(name)| >= 2 && SuffixOfName(name)[0] == '.' && StemOfName(name) != [])
    ensures forall i | 1 <= i < |SuffixOfName(name)| :: SuffixOfName(name)[i] != '.'
  {
    var i := LastDot(name);
    LastIndexFacts(name, '.', |name|);
    if 0 < i < |name| - 1 {
      assert name[..i] + name[i..] == name;
      assert forall j | 1 <= j < |name[i..]| :: name[i..][j] == name[i + j];
    } else {
      assert name + "" == name;
    }
  }

  /** A name made of a dot-free, slash-free stem and a suffix `.x…` has exactly that stem and suffix. */
  lemma SuffixOfComposedName(stem: string, ext: string)
    requires stem != [] && forall i | 0 <= i < |stem| :: stem[i] != '.' && stem[i] != '/'
    requires |ext| >= 2 && ext[0] == '.' && forall i | 1 <= i < |ext| :: ext[i] != '.' && ext[i] != '/'
    ensures NameOf(stem + ext) == stem + ext
    ensures Suffix(stem + ext) == ext && Stem(stem + ext) == stem
  {
    var name := stem + ext;
    Avoids(stem, ext, '/', 0, 0);
    NoSlashIsOwnName(name);
    Avoids(stem, ext, '.', |stem|, 1);
    LastIndexIs(name, '.', |name|, |stem|);
    assert name[|stem|..] == ext;
    assert name[..|stem|] == stem;
  }

  /** A character absent from `a` from `lo` on and from `b` from `from` on is absent from `a + b` outside those gaps. */
  lemma Avoids(a: string, b: string, ch: char, lo: nat, from: nat)
    requires forall i | lo <= i < |a| :: a[i] != ch
    requires forall i | from <= i < |b| :: b[i] != ch
    ensures forall i | lo <= i < |a + b| && !(|a| <= i < |a| + from) :: (a + b)[i] != ch
  {
    forall i | 0 <= i < |a + b| ensures (a + b)[i] == if i < |a| then a[i] else b[i - |a|] {
    }
  }

  /** A non-empty single component is its own name. */
  lemma NoSlashIsOwnName(name: string)
    requires forall i | 0 <= i < |name| :: name[i] != '/'
    ensures NameOf(name) == name
  {
    assert TrimmedLength(name, |name|) == |name|;
    assert DropTrailingSlashes(name) == name;
    LastIndexIs(name, '/', |name|, -1);
  }

  /** The last component of `base / name` is `name` when `name` is a single component. */
  lemma NameOfJoin(base: string, name: string)
    requires name != [] && forall i | 0 <= i < |name| :: name[i] != '/'
    ensures NameOf(PathJoin(base, name)) == name
  {
    if base == [] {
      NoSlashIsOwnName(name);
      return;
    }
    var p := PathJoin(base, name);
    assert p[|p| - 1] == name[|name| - 1];
    assert DropTrailingSlashes(p) == p;
    forall i | |base| < i < |p| ensures p[i] != '/' {
      assert p[i] == name[i - |base| - 1];
    }
    LastIndexIs(p, '/', |p|, |base|);
    assert p[|base| + 1..] == name;
  }

  // ---------------------------------------------------------------- files

  /** A FAISS `IndexFlatL2`: the dimension fixed at build time and the stored vectors, position by position. */
  datatype FaissIndex = FaissIndex(dimension: nat, vectors: seq<seq<real>>)
  {
    /** `index.ntotal`. */
    function Total(): nat { |vectors| }
  }

  /** What a file on disk holds, as the pipeline writes it. */
  datatype FileContent =
    | BinaryFile(data: seq<bv8>)       // raw upload bytes
    | TextFile(text: string)           // written with write_text(encoding="utf-8")
    | IndexFile(index: FaissIndex)     // written with faiss.write_index

  /** An upload as the background task receives it (`IngestionFile`: a name and a byte buffer). */
  datatype UploadedFile = UploadedFile(name: string, data: seq<bv8>)

  /** The directories and files of the local disk that the pipeline touches. */
  class FileSystem {
    var dirs: set<string>
    var files: map<string, FileContent>

    constructor (dirs: set<string>, files: map<string, FileContent>)
      ensures this.dirs == dirs && this.files == files
    {
      this.dirs := dirs;
      this.files := files;
    }

    predicate Exists(p: string)
      reads this
    {
      p in dirs || p in files
    }

    /** `Path(p).mkdir(parents=True, exist_ok=True)`: `p` and its missing ancestors. */
    method MakeDirs(p: string)
      modifies this
      ensures dirs == old(dirs) + MadeDirs(p) && files == old(files)
    {
      dirs := dirs + MadeDirs(p);
    }

    /** Writing a whole file, replacing what was there. */
    method Write(p: string, content: FileContent)
      modifies this
      ensures files == old(files)[p := content] && dirs == old(dirs)
    {
      files := files[p := content];
    }
  }

  /** One whole-file write, as a step of an operation that writes several files. */
  datatype WriteOp = WriteOp(path: string, content: FileContent)

  /** The files after the writes, in order: a later write to a path replaces an earlier one. */
  function ApplyWrites(files: map<string, FileContent>, ops: seq<WriteOp>): (r: map<string, FileContent>)
    ensures forall p :: p in r <==> p in files || exists j | 0 <= j < |ops| :: ops[j].path == p
    ensures forall p | p in files && forall j | 0 <= j < |ops| :: ops[j].path != p :: r[p] == files[p]
  {
    if ops == [] then files
    else
      var init := ops[..|ops| - 1];
      var r := ApplyWrites(files, init)[ops[|ops| - 1].path := ops[|ops| - 1].content];
      assert forall j | 0 <= j < |init| :: init[j] == ops[j];
      r
  }

  lemma ApplyWritesSnoc(files: map<string, FileContent>, ops: seq<WriteOp>, op: WriteOp)
    ensures ApplyWrites(files, ops + [op]) == ApplyWrites(files, ops)[op.path := op.content]
  {
    assert (ops + [op])[..|ops|] == ops;
  }

  /** The content at a path is what the last write to it put there. */
  lemma {:induction false} LastWriteWins(files: map<string, FileContent>, ops: seq<WriteOp>, j: nat)
    requires j < |ops|
    requires forall k | j < k < |ops| :: ops[k].path != ops[j].path
    ensures ApplyWrites(files, ops)[ops[j].path] == ops[j].content
  {
    if j < |ops| - 1 {
      var init := ops[..|ops| - 1];
      LastWriteWins(files, init, j);
    }
  }

  // ---------------------------------------------------------------- a session's index directory

  const IndexFileName := "index.faiss"
  const ChunksFileName := "chunks.txt"

  /** The separator between chunks in `chunks.txt`. */
  const ChunkSeparator := "\n\n---\n\n"

  /**
   * For this separator, a chunk followed by the separator is cut exactly at
   * its end iff the chunk neither contains the separator nor ends with
   * "\n\n---" or "\n\n---\n": those endings complete a separator with the
   * first characters of the one that follows.
   */
  lemma ChunkSeparatorCleanly(part: string)
    ensures SeparatesCleanly(part, ChunkSeparator)
            <==> !Contains(part, ChunkSeparator) && !EndsWith(part, "\n\n---") && !EndsWith(part, "\n\n---\n")
  {
    var sep := ChunkSeparator;
    if SeparatesCleanly(part, sep) {
      CleanlyExcludesEndings(part);
    } else {
      var q :| 0 <= q < |part| && OccursAt(part + sep, sep, q);
      if q + 7 > |part| {
        StraddlingOccurrence(part, q);
      } else {
        assert (part + sep)[q..q + 7] == part[q..q + 7];
        assert OccursAt(part, sep, q);
      }
    }
  }

  lemma CleanlyExcludesEndings(part: string)
    requires SeparatesCleanly(part, ChunkSeparator)
    ensures !Contains(part, ChunkSeparator) && !EndsWith(part, "\n\n---") && !EndsWith(part, "\n\n---\n")
  {
    CleanlyExcludesSeparator(part);
    CleanlyExcludesEnding(part, 5);
    CleanlyExcludesEnding(part, 6);
    assert ChunkSeparator[..5] == "\n\n---";
    assert ChunkSeparator[..6] == "\n\n---\n";
  }

  lemma CleanlyExcludesSeparator(part: string)
    requires SeparatesCleanly(part, ChunkSeparator)
    ensures !Contains(part, ChunkSeparator)
  {
    if p :| 0 <= p <= |part| && OccursAt(part, ChunkSeparator, p) {
      InnerOccurrence(part, p);
    }
  }

  lemma CleanlyExcludesEnding(part: string, k: nat)
    requires k == 5 || k == 6
    requires SeparatesCleanly(part, ChunkSeparator)
    ensures !EndsWith(part, ChunkSeparator[..k])
  {
    if EndsWith(part, ChunkSeparator[..k]) {
      EndingOccurrence(part, k);
    }
  }

  /** An occurrence inside the chunk is still one once the separator follows it. */
  lemma InnerOccurrence(part: string, p: nat)
    requires OccursAt(part, ChunkSeparator, p)
    ensures p < |part| && OccursAt(part + ChunkSeparator, ChunkSeparator, p)
  {
    var s := part + ChunkSeparator;
    assert s[p..p + 7] == part[p..p + 7];
  }

  /**
   * A chunk ending with the separator's first `k` characters, for `k` of 5
   * or 6, completes an occurrence with the separator that follows it.
   */
  lemma EndingOccurrence(part: string, k: nat)
    requires k == 5 || k == 6
    requires EndsWith(part, ChunkSeparator[..k])
    ensures |part| - k >= 0 && OccursAt(part + ChunkSeparator, ChunkSeparator, |part| - k)
  {
    var s := part + ChunkSeparator;
    var q := |part| - k;
    assert s[q..q + 7] == part[q..] + ChunkSeparator[..7 - k];
    assert ChunkSeparator[..k] + ChunkSeparator[..7 - k] == ChunkSeparator;
  }

  /**
   * An occurrence that starts `k` characters before the end of the chunk
   * covers the chunk's tail with the separator's first `k` characters, and
   * the separator's remaining characters with its own first ones.
   */
  lemma StraddleOverlap(part: string, q: nat)
    requires q < |part| < q + 7
    requires OccursAt(part + ChunkSeparator, ChunkSeparator, q)
    ensures part[q..] == ChunkSeparator[..|part| - q]
    ensures ChunkSeparator[|part| - q..] == ChunkSeparator[..7 - (|part| - q)]
  {
    var sep, k := ChunkSeparator, |part| - q;
    var s := part + sep;
    assert s[q..q + 7] == part[q..] + sep[..7 - k];
  }

  /** The separator's tail after `k` characters recurs at its start only for its line breaks. */
  lemma SeparatorBorders(k: nat)
    requires 1 <= k <= 6
    ensures ChunkSeparator[k..] == ChunkSeparator[..7 - k] <==> k >= 5
  {
    var sep := ChunkSeparator;
    if k < 5 {
      var i := if k == 1 then 1 else 0;
      assert sep[k..][i] == '-' != sep[..7 - k][i];
    } else if k == 5 {
      assert sep[5..] == "\n\n" == sep[..2];
    } else {
      assert sep[6..] == "\n" == sep[..1];
    }
  }

  /** An occurrence that starts in the chunk and runs into the separator after it. */
  lemma StraddlingOccurrence(part: string, q: nat)
    requires q < |part| < q + 7
    requires OccursAt(part + ChunkSeparator, ChunkSeparator, q)
    ensures EndsWith(part, "\n\n---") || EndsWith(part, "\n\n---\n")
  {
    var sep, k := ChunkSeparator, |part| - q;
    StraddleOverlap(part, q);
    SeparatorBorders(k);
    if k == 5 {
      assert part[|part| - 5..] == sep[..5] == "\n\n---";
    } else {
      assert part[|part| - 6..] == sep[..6] == "\n\n---\n";
    }
  }

  /**
   * The concrete case the stripped chunks meet: a chunk that does not end in
   * whitespace joins and splits back cleanly iff it neither contains the
   * separator nor ends with "\n\n---".
   */
  lemma StrippedChunkSeparatesCleanly(part: string)
    requires part != [] && !IsSpace(part[|part| - 1])
    ensures SeparatesCleanly(part, ChunkSeparator)
            <==> !Contains(part, ChunkSeparator) && !EndsWith(part, "\n\n---")
  {
    ChunkSeparatorCleanly(part);
    assert !EndsWith(part, "\n\n---\n") by {
      assert part[|part| - 1] != '\n';
    }
  }
}
