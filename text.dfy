/**
 * The string operations of Python that the pipeline relies on:
 * `str.strip()`, `sep.join(parts)`, `s.split(sep)` and lower-casing.
 */
module Text {
  import opened Wrappers

  /** Python's `str.isspace()` on one character: the set `str.strip()` removes by default. */
  predicate IsSpace(c: char) {
    var n := c as int;
    (0x09 <= n <= 0x0D) || (0x1C <= n <= 0x20) || n == 0x85 || n == 0xA0 || n == 0x1680
    || (0x2000 <= n <= 0x200A) || n == 0x2028 || n == 0x2029 || n == 0x202F
    || n == 0x205F || n == 0x3000
  }

  predicate AllSpace(s: string) {
    forall i | 0 <= i < |s| :: IsSpace(s[i])
  }

  predicate StartsWith(s: string, prefix: string) {
    |prefix| <= |s| && s[..|prefix|] == prefix
  }

  predicate EndsWith(s: string, suffix: string) {
    |suffix| <= |s| && s[|s| - |suffix|..] == suffix
  }

  // ---------------------------------------------------------------- strip

  /** Index of the first character at or after `i` that is not whitespace (|s| when there is none). */
  function SkipSpaceFrom(s: string, i: nat): (n: nat)
    requires i <= |s|
    ensures i <= n <= |s|
    decreases |s| - i
  {
    if i == |s| || !IsSpace(s[i]) then i else SkipSpaceFrom(s, i + 1)
  }

  /** Index just past the last character before `j` that is not whitespace (0 when there is none). */
  function SkipSpaceBack(s: string, j: nat): (n: nat)
    requires j <= |s|
    ensures n <= j
  {
    if j == 0 || !IsSpace(s[j - 1]) then j else SkipSpaceBack(s, j - 1)
  }

  /** Index of the first character that is not whitespace (|s| when there is none). */
  function StripStart(s: string): (n: nat)
    ensures n <= |s|
  {
    SkipSpaceFrom(s, 0)
  }

  /** Length of `s` once its trailing whitespace is cut off. */
  function StripEnd(s: string): (n: nat)
    ensures n <= |s|
  {
    SkipSpaceBack(s, |s|)
  }

  lemma {:induction false} SkipSpaceFromFacts(s: string, i: nat)
    requires i <= |s|
    ensures forall k | i <= k < SkipSpaceFrom(s, i) :: IsSpace(s[k])
    ensures SkipSpaceFrom(s, i) < |s| ==> !IsSpace(s[SkipSpaceFrom(s, i)])
    decreases |s| - i
  {
    if i < |s| && IsSpace(s[i]) {
      SkipSpaceFromFacts(s, i + 1);
    }
  }

  lemma {:induction false} SkipSpaceBackFacts(s: string, j: nat)
    requires j <= |s|
    ensures forall k | SkipSpaceBack(s, j) <= k < j :: IsSpace(s[k])
    ensures SkipSpaceBack(s, j) > 0 ==> !IsSpace(s[SkipSpaceBack(s, j) - 1])
  {
    if j > 0 && IsSpace(s[j - 1]) {
      SkipSpaceBackFacts(s, j - 1);
    }
  }

  /** Everything before `StripStart(s)` is whitespace, and the character there is not. */
  lemma StripStartFacts(s: string)
    ensures forall i | 0 <= i < StripStart(s) :: IsSpace(s[i])
    ensures StripStart(s) < |s| ==> !IsSpace(s[StripStart(s)])
  {
    SkipSpaceFromFacts(s, 0);
  }

  /** Everything from `StripEnd(s)` on is whitespace, and the character before it is not. */
  lemma StripEndFacts(s: string)
    ensures forall i | StripEnd(s) <= i < |s| :: IsSpace(s[i])
    ensures StripEnd(s) > 0 ==> !IsSpace(s[StripEnd(s) - 1])
  {
    SkipSpaceBackFacts(s, |s|);
  }

  /**
   * Python's `s.strip()`: the slice of `s` between its first and its last
   * non-whitespace character, or the empty string when there is none.
   */
  function Strip(s: string): (r: string)
    ensures |r| <= |s|
  {
    var a, b := StripStart(s), StripEnd(s);
    if b <= a then [] else s[a..b]
  }

  /** `s.strip()` is the slice of `s` that starts at its first non-whitespace character. */
  lemma StripSpan(s: string)
    ensures StripStart(s) + |Strip(s)| <= |s|
    ensures Strip(s) == s[StripStart(s)..StripStart(s) + |Strip(s)|]
  {
    if StripEnd(s) <= StripStart(s) {
      assert s[StripStart(s)..StripStart(s)] == [];
    }
  }

  /** A slice of a slice is a slice of the original. */
  lemma SliceOfSlice(s: string, lo: nat, hi: nat, i: nat, j: nat)
    requires lo <= hi <= |s| && i <= j <= hi - lo
    ensures s[lo..hi][i..j] == s[lo + i..lo + j]
  {
    forall k | 0 <= k < j - i ensures s[lo..hi][i..j][k] == s[lo + i..lo + j][k] {
      assert s[lo..hi][i..j][k] == s[lo..hi][i + k] == s[lo + i + k];
    }
  }

  /** `s.strip()` is empty exactly when `s` is all whitespace. */
  lemma StripEmpty(s: string)
    ensures Strip(s) == [] <==> AllSpace(s)
  {
    StripStartFacts(s);
    StripEndFacts(s);
    if StripEnd(s) <= StripStart(s) {
      // no non-whitespace character remains: one at or after `StripStart(s)` would lie after `StripEnd(s)` too
      assert StripStart(s) == |s|;
    }
  }

  /** `s.strip()` neither starts nor ends with whitespace. */
  lemma StripEnds(s: string)
    ensures Strip(s) != [] ==> !IsSpace(Strip(s)[0]) && !IsSpace(Strip(s)[|Strip(s)| - 1])
  {
    StripStartFacts(s);
    StripEndFacts(s);
  }

  /** Every non-whitespace character of `s` lies in the span `s.strip()` keeps. */
  lemma StripCovers(s: string, i: nat)
    requires i < |s| && !IsSpace(s[i])
    ensures StripStart(s) <= i < StripStart(s) + |Strip(s)|
  {
    StripStartFacts(s);
    StripEndFacts(s);
  }

  /** Stripping twice is stripping once. */
  lemma StripIdempotent(s: string)
    ensures Strip(Strip(s)) == Strip(s)
  {
    StripSpan(s);
    StripEnds(s);
    var r := Strip(s);
    if r != [] {
      assert StripStart(r) == 0;
      assert StripEnd(r) == |r|;
    }
  }

  // ---------------------------------------------------------------- slicing

  /** A slice bound as Python normalises it: negative counts from the end, then clamped to the string. */
  function SliceBound(i: int, n: nat): (r: nat)
    ensures r <= n
  {
    if i < 0 then (if i + n < 0 then 0 else i + n) else if i > n then n else i
  }

  /** Python's `s[a:b]`. */
  function Slice(s: string, a: int, b: int): (r: string)
    ensures |r| <= |s|
  {
    var lo, hi := SliceBound(a, |s|), SliceBound(b, |s|);
    if lo < hi then s[lo..hi] else []
  }

  /**
   * For bounds that are not negative, `s[a:b]` is the characters from `a`
   * up to `b` or the end of `s`, whichever comes first, and is empty when
   * that range is.
   */
  lemma SliceFacts(s: string, a: nat, b: int)
    ensures a <= |s| ==> SliceBound(a, |s|) == a
    ensures 0 <= b ==> SliceBound(b, |s|) == if b <= |s| then b else |s|
    ensures Slice(s, a, b) != [] ==> a < SliceBound(b, |s|) && Slice(s, a, b) == s[a..SliceBound(b, |s|)]
    ensures a < |s| && a < b ==> Slice(s, a, b) == s[a..if b <= |s| then b else |s|]
    ensures |s| <= a || 0 <= b <= a ==> Slice(s, a, b) == []
  {
  }

  // ---------------------------------------------------------------- join

  /** Python's `sep.join(parts)`. */
  function Join(sep: string, parts: seq<string>): string
  {
    if |parts| == 0 then ""
    else if |parts| == 1 then parts[0]
    else parts[0] + sep + Join(sep, parts[1..])
  }

  /** The joined text is as long as its parts plus one separator between each two of them. */
  lemma {:induction false} JoinLength(sep: string, parts: seq<string>)
    requires |parts| >= 1
    ensures |Join(sep, parts)| == SumLengths(parts) + (|parts| - 1) * |sep|
  {
    if |parts| > 1 {
      JoinLength(sep, parts[1..]);
    }
  }

  function SumLengths(parts: seq<string>): nat
  {
    if parts == [] then 0 else |parts[0]| + SumLengths(parts[1..])
  }

  // ---------------------------------------------------------------- split

  predicate OccursAt(s: string, sep: string, p: int) {
    0 <= p && p + |sep| <= |s| && s[p..p + |sep|] == sep
  }

  predicate Contains(s: string, sep: string) {
    exists p | 0 <= p <= |s| :: OccursAt(s, sep, p)
  }

  /** The leftmost occurrence of `sep` in `s` at or after `from`, as `str.find` scans. */
  function FindFrom(s: string, sep: string, from: nat): (r: Option<nat>)
    requires |sep| > 0
    ensures r.None? ==> forall q | from <= q :: !OccursAt(s, sep, q)
    ensures r.Some? ==> from <= r.value && OccursAt(s, sep, r.value)
    ensures r.Some? ==> forall q | from <= q < r.value :: !OccursAt(s, sep, q)
    decreases |s| - from
  {
    if from + |sep| > |s| then None
    else if s[from..from + |sep|] == sep then Some(from)
    else FindFrom(s, sep, from + 1)
  }

  lemma OccursInPrefix(s: string, sep: string, n: nat, q: int)
    requires n <= |s|
    requires OccursAt(s[..n], sep, q)
    ensures OccursAt(s, sep, q)
  {
    assert s[..n][q..q + |sep|] == s[q..q + |sep|];
  }

  lemma OccursInSuffix(s: string, sep: string, n: nat, q: int)
    requires n <= |s|
    requires OccursAt(s[n..], sep, q)
    ensures OccursAt(s, sep, q + n)
  {
    assert s[n..][q..q + |sep|] == s[q + n..q + n + |sep|];
  }

  /** Each part occurs in the join, after the parts and separators before it. */
  lemma {:induction false} JoinHasPart(sep: string, parts: seq<string>, i: nat) returns (p: nat)
    requires i < |parts|
    ensures OccursAt(Join(sep, parts), parts[i], p)
  {
    var s := Join(sep, parts);
    if i == 0 {
      p := 0;
      if |parts| > 1 {
        assert s[..|parts[0]|] == parts[0];
      }
    } else {
      var q := JoinHasPart(sep, parts[1..], i - 1);
      var n := |parts[0]| + |sep|;
      assert s[n..] == Join(sep, parts[1..]);
      OccursInSuffix(s, parts[i], n, q);
      p := q + n;
    }
  }

  /**
   * Python's `s.split(sep)` for a non-empty separator: the pieces between the
   * leftmost non-overlapping occurrences of `sep`. Joining the pieces gives `s`
   * back, and no piece contains the separator.
   */
  function Split(s: string, sep: string): (r: seq<string>)
    requires |sep| > 0
    ensures |r| >= 1
    ensures Join(sep, r) == s
    ensures forall i | 0 <= i < |r| :: !Contains(r[i], sep)
    decreases |s|
  {
    match FindFrom(s, sep, 0)
    case None => [s]
    case Some(p) =>
      var head, rest := s[..p], Split(s[p + |sep|..], sep);
      assert !Contains(head, sep) by {
        forall q | OccursAt(head, sep, q) ensures false {
          OccursInPrefix(s, sep, p, q);
        }
      }
      var r := [head] + rest;
      assert r[1..] == rest;
      assert s == head + sep + s[p + |sep|..];
      r
  }

  /**
   * `part` is followed by `sep` in a joined text without any occurrence of
   * `sep` starting inside `part`: splitting then cuts exactly at the end of `part`.
   */
  predicate SeparatesCleanly(part: string, sep: string) {
    forall q | 0 <= q < |part| :: !OccursAt(part + sep, sep, q)
  }

  /** The condition under which splitting a join gives the parts back. */
  predicate SplitsBack(parts: seq<string>, sep: string) {
    && |parts| >= 1
    && (forall i | 0 <= i < |parts| - 1 :: SeparatesCleanly(parts[i], sep))
    && !Contains(parts[|parts| - 1], sep)
  }

  /** Where splitting a join of two or more parts makes its first cut. */
  lemma FirstCut(sep: string, parts: seq<string>) returns (p: nat)
    requires |sep| > 0 && |parts| >= 2
    ensures FindFrom(Join(sep, parts), sep, 0) == Some(p)
    ensures p <= |parts[0]|
    ensures p == |parts[0]| <==> SeparatesCleanly(parts[0], sep)
  {
    var s := Join(sep, parts);
    var head := parts[0] + sep;
    assert s == head + Join(sep, parts[1..]);
    assert OccursAt(s, sep, |parts[0]|) by {
      assert s[|parts[0]|..|parts[0]| + |sep|] == sep;
    }
    p := FindFrom(s, sep, 0).value;
    forall q | 0 <= q < |parts[0]| && q + |sep| <= |head|
      ensures OccursAt(head, sep, q) <==> OccursAt(s, sep, q)
    {
      assert head[q..q + |sep|] == s[q..q + |sep|];
    }
    if p < |parts[0]| {
      assert OccursAt(head, sep, p);
    }
  }

  lemma {:induction false} SplitJoinIf(sep: string, parts: seq<string>)
    requires |sep| > 0
    requires SplitsBack(parts, sep)
    ensures Split(Join(sep, parts), sep) == parts
  {
    if |parts| == 1 {
      assert FindFrom(parts[0], sep, 0).None?;
    } else {
      var s := Join(sep, parts);
      var tail := parts[1..];
      var p := FirstCut(sep, parts);
      assert p == |parts[0]| by {
        assert SeparatesCleanly(parts[0], sep);
      }
      assert SplitsBack(tail, sep) by {
        forall i | 0 <= i < |tail| - 1
          ensures SeparatesCleanly(tail[i], sep)
        {
          assert tail[i] == parts[i + 1];
        }
        assert tail[|tail| - 1] == parts[|parts| - 1];
      }
      SplitJoinIf(sep, tail);
      SplitAtCut(s, sep, p);
      assert s == parts[0] + sep + Join(sep, tail);
      assert s[..p] == parts[0];
      assert s[p + |sep|..] == Join(sep, tail);
      assert parts == [parts[0]] + tail;
    }
  }

  /** Splitting cuts at the first occurrence and splits the rest. */
  lemma SplitAtCut(s: string, sep: string, p: nat)
    requires |sep| > 0 && FindFrom(s, sep, 0) == Some(p)
    ensures p + |sep| <= |s| && Split(s, sep) == [s[..p]] + Split(s[p + |sep|..], sep)
  {
  }

  lemma {:induction false} SplitJoinOnlyIf(sep: string, parts: seq<string>)
    requires |sep| > 0 && |parts| >= 1
    requires Split(Join(sep, parts), sep) == parts
    ensures SplitsBack(parts, sep)
  {
    if |parts| > 1 {
      var s := Join(sep, parts);
      var p := FirstCut(sep, parts);
      var r := Split(s, sep);
      assert r == [s[..p]] + Split(s[p + |sep|..], sep);
      assert s[..p] == parts[0];
      assert p == |parts[0]|;
      assert s[p + |sep|..] == Join(sep, parts[1..]);
      assert Split(Join(sep, parts[1..]), sep) == parts[1..];
      SplitJoinOnlyIf(sep, parts[1..]);
      assert forall i | 1 <= i < |parts| - 1 :: parts[i] == parts[1..][i - 1];
    }
  }

  /**
   * Splitting `sep.join(parts)` on `sep` returns `parts` exactly when no part
   * but the last has an occurrence of `sep` starting inside it once `sep`
   * follows it, and the last part does not contain `sep`.
   */
  lemma SplitJoin(sep: string, parts: seq<string>)
    requires |sep| > 0 && |parts| >= 1
    ensures Split(Join(sep, parts), sep) == parts <==> SplitsBack(parts, sep)
  {
    if SplitsBack(parts, sep) {
      SplitJoinIf(sep, parts);
    }
    if Split(Join(sep, parts), sep) == parts {
      SplitJoinOnlyIf(sep, parts);
    }
  }

  // ---------------------------------------------------------------- newlines

  predicate NoReturn(s: string) {
    forall i | 0 <= i < |s| :: s[i] != '\r'
  }

  /**
   * Reading a text file with universal newlines, as `Path.read_text` does:
   * each "\r\n" and each lone "\r" becomes "\n".
   */
  function UniversalNewlines(s: string): string
    decreases |s|
  {
    if s == [] then []
    else if s[0] == '\r' then "\n" + UniversalNewlines(if |s| >= 2 && s[1] == '\n' then s[2..] else s[1..])
    else [s[0]] + UniversalNewlines(s[1..])
  }

  /** The translated text holds no carriage return. */
  lemma {:induction false} UniversalNewlinesNoReturn(s: string)
    ensures NoReturn(UniversalNewlines(s))
    decreases |s|
  {
    if s != [] {
      var rest := if s[0] == '\r' && |s| >= 2 && s[1] == '\n' then s[2..] else s[1..];
      UniversalNewlinesNoReturn(rest);
    }
  }

  /** A text without carriage returns reads back unchanged. */
  lemma {:induction false} UniversalNewlinesPlain(s: string)
    requires NoReturn(s)
    ensures UniversalNewlines(s) == s
    decreases |s|
  {
    if s != [] {
      UniversalNewlinesPlain(s[1..]);
      assert s == [s[0]] + s[1..];
    }
  }

  lemma NoReturnConcat(a: string, b: string)
    requires NoReturn(a) && NoReturn(b)
    ensures NoReturn(a + b)
  {
    assert forall k | 0 <= k < |a + b| :: (a + b)[k] == if k < |a| then a[k] else b[k - |a|];
  }

  /** A join of parts and a separator without carriage returns holds none. */
  lemma {:induction false} JoinNoReturn(sep: string, parts: seq<string>)
    requires NoReturn(sep) && forall i | 0 <= i < |parts| :: NoReturn(parts[i])
    ensures NoReturn(Join(sep, parts))
  {
    if |parts| > 1 {
      JoinNoReturn(sep, parts[1..]);
      NoReturnConcat(parts[0], sep);
      NoReturnConcat(parts[0] + sep, Join(sep, parts[1..]));
    }
  }

  /** The parts of a join hold no carriage return when the join holds none. */
  lemma JoinedPartsNoReturn(sep: string, parts: seq<string>)
    requires NoReturn(Join(sep, parts))
    ensures forall i | 0 <= i < |parts| :: NoReturn(parts[i])
  {
    forall i | 0 <= i < |parts|
      ensures NoReturn(parts[i])
    {
      var p := JoinHasPart(sep, parts, i);
      assert forall j | 0 <= j < |parts[i]| :: parts[i][j] == Join(sep, parts)[p + j];
    }
  }

  /** Parts without carriage returns that split back read back from their join. */
  lemma ReadBackIf(sep: string, parts: seq<string>)
    requires |sep| > 0 && NoReturn(sep) && |parts| >= 1
    requires (forall i | 0 <= i < |parts| :: NoReturn(parts[i])) && SplitsBack(parts, sep)
    ensures Split(UniversalNewlines(Join(sep, parts)), sep) == parts
  {
    JoinNoReturn(sep, parts);
    UniversalNewlinesPlain(Join(sep, parts));
    SplitJoinIf(sep, parts);
  }

  /** Parts that read back from their join hold no carriage return and split back. */
  lemma ReadBackOnlyIf(sep: string, parts: seq<string>)
    requires |sep| > 0 && NoReturn(sep) && |parts| >= 1
    requires Split(UniversalNewlines(Join(sep, parts)), sep) == parts
    ensures forall i | 0 <= i < |parts| :: NoReturn(parts[i])
    ensures SplitsBack(parts, sep)
  {
    var read := UniversalNewlines(Join(sep, parts));
    UniversalNewlinesNoReturn(Join(sep, parts));
    assert Join(sep, parts) == read by {
      assert Join(sep, Split(read, sep)) == read;
      JoinedPartsNoReturn(sep, parts);
      JoinNoReturn(sep, parts);
      UniversalNewlinesPlain(Join(sep, parts));
    }
    JoinedPartsNoReturn(sep, parts);
    SplitJoinOnlyIf(sep, parts);
  }

  /**
   * Joining parts and reading them back with universal newlines gives them
   * back exactly when none holds a carriage return and they split back.
   */
  lemma ReadBack(sep: string, parts: seq<string>)
    requires |sep| > 0 && NoReturn(sep) && |parts| >= 1
    ensures Split(UniversalNewlines(Join(sep, parts)), sep) == parts
            <==> (forall i | 0 <= i < |parts| :: NoReturn(parts[i])) && SplitsBack(parts, sep)
  {
    if Split(UniversalNewlines(Join(sep, parts)), sep) == parts {
      ReadBackOnlyIf(sep, parts);
    }
    if (forall i | 0 <= i < |parts| :: NoReturn(parts[i])) && SplitsBack(parts, sep) {
      ReadBackIf(sep, parts);
    }
  }

  // ---------------------------------------------------------------- case

  /** `str.lower()` on one character, for the characters it maps into ASCII. */
  function AsciiLower(c: char): char {
    if 'A' <= c <= 'Z' then (c as int + 32) as char else c
  }

  /** `s.lower()`, character by character. */
  function Lower(s: string): (r: string)
    ensures |r| == |s|
    ensures forall i | 0 <= i < |s| :: r[i] == AsciiLower(s[i])
  {
    if s == [] then [] else Lower(s[..|s| - 1]) + [AsciiLower(s[|s| - 1])]
  }
}
