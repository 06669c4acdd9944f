/**
 * The ingestor's sliding-window splitter: window starts are `0`, `step`,
 * `2 * step`, ... below the text's length, with `step = chunk_size -
 * chunk_overlap`; the window at `start` is `text[start:start + chunk_size]`
 * stripped of surrounding whitespace, and windows that strip to nothing are
 * dropped.
 *
 * The loop's structure (which starts it visits, what it keeps, in which
 * order) is stated once for an arbitrary window function; the facts about
 * what a single window of a text is are stated separately and combined at
 * the end.
 */
module Chunking {
  import opened Text

  /** How far one window start is from the next. */
  function Step(size: int, overlap: int): (r: nat)
    requires overlap < size
    ensures r >= 1
  {
    size - overlap
  }

  /** A chunk is kept only when stripping leaves something. */
  function Keep(chunk: string): seq<string>
  {
    if chunk != [] then [chunk] else []
  }

  /** `text[start:start + chunk_size].strip()`. */
  function ChunkAt(text: string, size: int, start: nat): string
  {
    Strip(Slice(text, start, start + size))
  }

  /** The window function of a text: each start mapped to its stripped window. */
  function Window(text: string, size: int): nat -> string
  {
    (start: nat) => ChunkAt(text, size, start)
  }

  // ---------------------------------------------------------------- the loop, for any window function

  /** The loop from window start `start` on, with `acc` the chunks collected so far. */
  function Loop(window: nat -> string, len: nat, step: nat, start: nat, acc: seq<string>): seq<string>
    requires step >= 1
    decreases len - start
  {
    if start >= len then acc
    else Loop(window, len, step, start + step, acc + Keep(window(start)))
  }

  /** `_chunk_text(text)` as a value; on a non-empty text the splitter only terminates when it advances. */
  function Chunks(text: string, size: int, overlap: int): seq<string>
    requires text != [] ==> overlap < size
  {
    if text == [] then [] else Loop(Window(text, size), |text|, Step(size, overlap), 0, [])
  }

  /**
   * `_chunk_text`: slides the window over the text, appending each stripped
   * non-empty window. On a non-empty text it only terminates when
   * `chunk_overlap < chunk_size`; for any other setting it never advances.
   */
  method ChunkText(text: string, size: int, overlap: int) returns (chunks: seq<string>)
    requires text != [] ==> overlap < size
    ensures chunks == Chunks(text, size, overlap)
  {
    chunks := [];
    var start := 0;
    var length := |text|;
    ghost var window := Window(text, size);
    ghost var step := if length > 0 then Step(size, overlap) else 1;
    while start < length
      invariant 0 <= start
      invariant length == 0 ==> chunks == []
      invariant length > 0 ==> Loop(window, length, step, start, chunks) == Chunks(text, size, overlap)
      decreases length - start
    {
      var end := start + size;
      var chunk := ChunkAt(text, size, start);
      LoopStep(window, length, step, start, chunks);
      assert window(start) == chunk;
      assert end - overlap == start + step;
      if chunk != [] {
        chunks := chunks + [chunk];
      } else {
        AppendNothing(chunks);
      }
      start := end - overlap;
    }
  }

  /** One turn of the loop. */
  lemma LoopStep(window: nat -> string, len: nat, step: nat, start: nat, acc: seq<string>)
    requires step >= 1 && start < len
    ensures Loop(window, len, step, start, acc) == Loop(window, len, step, start + step, acc + Keep(window(start)))
  {
  }

  lemma AppendNothing(acc: seq<string>)
    ensures acc + Keep([]) == acc
  {
    assert acc + [] == acc;
  }

  /** The window starts the loop visits from `start` on: `start`, `start + step`, ... below `len`. */
  function Starts(len: nat, step: nat, start: nat): seq<nat>
    requires step >= 1
    decreases len - start
  {
    if start >= len then [] else [start] + Starts(len, step, start + step)
  }

  /** The windows the loop visits from `start` on, in order. */
  function Windows(window: nat -> string, len: nat, step: nat, start: nat): seq<string>
    requires step >= 1
    decreases len - start
  {
    if start >= len then [] else [window(start)] + Windows(window, len, step, start + step)
  }

  /** The windows that do not strip to nothing, in order. */
  function Kept(ws: seq<string>): seq<string>
  {
    if ws == [] then [] else Keep(ws[0]) + Kept(ws[1..])
  }

  /** The loop from `start` adds the kept windows from `start` on to what it has collected. */
  lemma {:induction false} LoopFrom(window: nat -> string, len: nat, step: nat, start: nat, acc: seq<string>)
    requires step >= 1
    ensures Loop(window, len, step, start, acc) == acc + Kept(Windows(window, len, step, start))
    decreases len - start
  {
    if start < len {
      var ws := Windows(window, len, step, start);
      var head := Keep(window(start));
      var rest := Windows(window, len, step, start + step);
      assert ws[0] == window(start) && ws[1..] == rest;
      LoopFrom(window, len, step, start + step, acc + head);
      Assoc(acc, head, Kept(rest));
    } else {
      AppendNothing(acc);
    }
  }

  lemma Assoc(a: seq<string>, b: seq<string>, c: seq<string>)
    ensures (a + b) + c == a + (b + c)
  {
  }

  /** A kept entry is exactly a non-empty entry, and no more entries are kept than there are. */
  lemma {:induction false} KeptMembers(ws: seq<string>)
    ensures forall c :: c in Kept(ws) <==> c != [] && c in ws
    ensures |Kept(ws)| <= |ws|
  {
    if ws != [] {
      KeptMembers(ws[1..]);
      assert ws == [ws[0]] + ws[1..];
    }
  }

  /** The loop visits one window per start, and each window it visits is the window of a start. */
  lemma {:induction false} WindowsOfStarts(window: nat -> string, len: nat, step: nat, start: nat)
    requires step >= 1
    ensures |Windows(window, len, step, start)| == |Starts(len, step, start)|
    ensures forall c | c in Windows(window, len, step, start) :: exists st | st in Starts(len, step, start) :: c == window(st)
    ensures forall st | st in Starts(len, step, start) :: window(st) in Windows(window, len, step, start)
    decreases len - start
  {
    if start < len {
      WindowsOfStarts(window, len, step, start + step);
    }
  }

  /** The k-th window visited is the window at the k-th start. */
  lemma {:induction false} WindowsByPosition(window: nat -> string, len: nat, step: nat, start: nat, k: nat)
    requires step >= 1 && k < |Starts(len, step, start)|
    ensures k < |Windows(window, len, step, start)|
    ensures Windows(window, len, step, start)[k] == window(Starts(len, step, start)[k])
    decreases k
  {
    if k > 0 {
      WindowsByPosition(window, len, step, start + step, k - 1);
    }
  }

  /** Every start lies in `start .. len - 1`; consecutive starts are one step apart. */
  lemma {:induction false} StartsInRange(len: nat, step: nat, start: nat)
    requires step >= 1
    ensures forall st | st in Starts(len, step, start) :: start <= st < len
    ensures forall k | 0 <= k < |Starts(len, step, start)| - 1 ::
              Starts(len, step, start)[k + 1] == Starts(len, step, start)[k] + step
    decreases len - start
  {
    if start < len {
      var rest := Starts(len, step, start + step);
      StartsInRange(len, step, start + step);
      assert forall k | 1 <= k < |rest| + 1 :: Starts(len, step, start)[k] == rest[k - 1];
    }
  }

  /** Window `k` starts `k` steps after `start`. */
  lemma {:induction false} StartAt(len: nat, step: nat, start: nat, k: nat)
    requires step >= 1 && k < |Starts(len, step, start)|
    ensures Starts(len, step, start)[k] == start + k * step
    decreases k
  {
    if k > 0 {
      StartAt(len, step, start + step, k - 1);
      assert start + step + (k - 1) * step == start + k * step;
    }
  }

  /**
   * The loop runs ceil((len - start) / step) times: the least number of steps
   * from `start` that reaches or passes `len`.
   */
  lemma {:induction false} StartsCount(len: nat, step: nat, start: nat)
    requires step >= 1
    ensures var n := |Starts(len, step, start)|;
            && (n == 0 <==> len <= start)
            && (n > 0 ==> start + (n - 1) * step < len <= start + n * step)
    decreases len - start
  {
    if start < len {
      var n := |Starts(len, step, start)|;
      StartsCount(len, step, start + step);
      if n > 1 {
        assert start + step + (n - 2) * step == start + (n - 1) * step;
        assert start + step + (n - 1) * step == start + n * step;
      }
    }
  }

  /** A position at or after `start` and below `len` lies in the step after some window start. */
  lemma {:induction false} StartBefore(len: nat, step: nat, start: nat, p: nat) returns (st: nat)
    requires step >= 1 && start <= p < len
    ensures st in Starts(len, step, start) && st <= p < st + step
    decreases p - start
  {
    if p < start + step {
      st := start;
    } else {
      st := StartBefore(len, step, start + step, p);
    }
  }

  // ---------------------------------------------------------------- the loop over a text

  /** The number of windows over a text of length `len`: how often the loop runs. */
  function WindowCount(len: nat, step: nat): nat
    requires step >= 1
  {
    |Starts(len, step, 0)|
  }

  /**
   * The loop keeps, in order, each window that does not strip to nothing;
   * an empty text gives no chunks.
   */
  lemma ChunksByWindow(text: string, size: int, overlap: int)
    requires text != [] ==> overlap < size
    ensures text == [] ==> Chunks(text, size, overlap) == []
    ensures text != [] ==> Chunks(text, size, overlap) == Kept(Windows(Window(text, size), |text|, Step(size, overlap), 0))
  {
    if text != [] {
      var ws := Windows(Window(text, size), |text|, Step(size, overlap), 0);
      LoopFrom(Window(text, size), |text|, Step(size, overlap), 0, []);
      assert [] + Kept(ws) == Kept(ws);
    }
  }

  /**
   * The windows start at `0, step, 2 * step, ...`; there are
   * ceil(len / step) of them, none on an empty text.
   */
  lemma WindowStarts(len: nat, size: int, overlap: int)
    requires overlap < size
    ensures var step, n := Step(size, overlap), WindowCount(len, Step(size, overlap));
            && (forall k | 0 <= k < n :: Starts(len, step, 0)[k] == k * step)
            && (n == 0 <==> len == 0)
            && (n > 0 ==> (n - 1) * step < len <= n * step)
  {
    var step := Step(size, overlap);
    forall k | 0 <= k < WindowCount(len, step) ensures Starts(len, step, 0)[k] == k * step {
      StartAt(len, step, 0, k);
    }
    StartsCount(len, step, 0);
  }

  /** Window `k` of the splitter is `text[k * step : k * step + chunk_size].strip()`. */
  lemma WindowAt(text: string, size: int, overlap: int, k: nat)
    requires overlap < size && k < WindowCount(|text|, Step(size, overlap))
    ensures var step := Step(size, overlap);
            && k < |Windows(Window(text, size), |text|, step, 0)|
            && Windows(Window(text, size), |text|, step, 0)[k] == Strip(Slice(text, k * step, k * step + size))
  {
    var step := Step(size, overlap);
    WindowStarts(|text|, size, overlap);
    StartsCount(|text|, step, 0);
    WindowsByPosition(Window(text, size), |text|, step, 0, k);
  }

  // ---------------------------------------------------------------- one window of a text

  /** `c` is the text's slice starting at `a`. */
  predicate SliceOfAt(text: string, c: string, a: nat) {
    a + |c| <= |text| && text[a..a + |c|] == c
  }

  /** A well-formed chunk: non-empty, not starting or ending in whitespace, a slice of the text. */
  predicate ChunkOf(text: string, c: string) {
    && c != [] && !IsSpace(c[0]) && !IsSpace(c[|c| - 1])
    && exists a | 0 <= a <= |text| :: SliceOfAt(text, c, a)
  }

  /**
   * Stripping a slice `text[lo:hi]` leaves a slice of the text, starting at
   * `lo` plus the leading whitespace.
   */
  lemma StrippedSpan(text: string, lo: nat, hi: nat)
    requires lo <= hi <= |text|
    ensures lo + StripStart(text[lo..hi]) + |Strip(text[lo..hi])| <= hi
    ensures SliceOfAt(text, Strip(text[lo..hi]), lo + StripStart(text[lo..hi]))
  {
    StripSpan(text[lo..hi]);
    SubSlice(text, lo, hi, StripStart(text[lo..hi]), Strip(text[lo..hi]));
  }

  /** A slice of `text[lo:hi]` is a slice of the text itself. */
  lemma SubSlice(text: string, lo: nat, hi: nat, k: nat, c: string)
    requires lo <= hi <= |text| && k + |c| <= hi - lo && c == text[lo..hi][k..k + |c|]
    ensures SliceOfAt(text, c, lo + k)
  {
    SliceOfSlice(text, lo, hi, k, k + |c|);
  }

  /** Every non-whitespace character of `text[lo:hi]` lies in the stripped span. */
  lemma StrippedSpanCovers(text: string, lo: nat, hi: nat, p: nat)
    requires lo <= p < hi <= |text| && !IsSpace(text[p])
    ensures lo + StripStart(text[lo..hi]) <= p < lo + StripStart(text[lo..hi]) + |Strip(text[lo..hi])|
  {
    var w := text[lo..hi];
    assert w[p - lo] == text[p];
    StripCovers(w, p - lo);
  }

  /** Window `start` is the stripped slice `text[start:hi]`, `hi` the clamped window end. */
  lemma ChunkAtIsStrippedSlice(text: string, size: int, start: nat) returns (hi: nat)
    requires start < |text|
    ensures hi <= |text| && (size > 0 ==> hi <= start + size) && (start < start + size ==> start < hi)
    ensures 0 <= start + size ==> hi == if start + size <= |text| then start + size else |text|
    ensures start <= hi ==> ChunkAt(text, size, start) == Strip(text[start..hi])
    ensures hi < start ==> ChunkAt(text, size, start) == []
  {
    SliceFacts(text, start, start + size);
    hi := SliceBound(start + size, |text|);
    var w := Slice(text, start, start + size);
    if start <= hi {
      if w == [] {
        assert text[start..hi] == [];
      }
    } else {
      assert w == [];
    }
  }

  /** What one window yields: nothing, or a stripped slice of the text no longer than the window. */
  lemma ChunkAtShape(text: string, size: int, start: nat)
    requires start < |text|
    ensures var c := ChunkAt(text, size, start);
            c != [] ==> ChunkOf(text, c) && (size > 0 ==> |c| <= size)
  {
    var hi := ChunkAtIsStrippedSlice(text, size, start);
    if start <= hi {
      StrippedSpan(text, start, hi);
      StripEnds(text[start..hi]);
    }
  }

  /** A window holding a non-whitespace character strips to a chunk spanning that character. */
  lemma WindowCovers(text: string, size: int, start: nat, p: nat) returns (a: nat)
    requires start <= p < start + size && p < |text| && !IsSpace(text[p])
    ensures ChunkAt(text, size, start) != []
    ensures a <= p < a + |ChunkAt(text, size, start)| && SliceOfAt(text, ChunkAt(text, size, start), a)
  {
    var hi := ChunkAtIsStrippedSlice(text, size, start);
    assert start <= p < hi;
    StrippedSpan(text, start, hi);
    StrippedSpanCovers(text, start, hi, p);
    a := start + StripStart(text[start..hi]);
  }

  // ---------------------------------------------------------------- what the chunks are

  /**
   * Every chunk is non-empty, has no leading or trailing whitespace, is a
   * slice of the text and is at most `chunk_size` long; there are at most
   * as many chunks as windows.
   */
  lemma ChunksShape(text: string, size: int, overlap: int)
    requires text != [] ==> overlap < size
    ensures forall c | c in Chunks(text, size, overlap) :: ChunkOf(text, c) && (size > 0 ==> |c| <= size)
    ensures text != [] ==> |Chunks(text, size, overlap)| <= WindowCount(|text|, Step(size, overlap))
  {
    ChunksByWindow(text, size, overlap);
    if text != [] {
      var window, step := Window(text, size), Step(size, overlap);
      var ws := Windows(window, |text|, step, 0);
      KeptMembers(ws);
      WindowsOfStarts(window, |text|, step, 0);
      StartsInRange(|text|, step, 0);
      forall c | c in Chunks(text, size, overlap) ensures ChunkOf(text, c) && (size > 0 ==> |c| <= size) {
        var st :| st in Starts(|text|, step, 0) && c == window(st);
        ChunkAtShape(text, size, st);
      }
    }
  }

  /**
   * With `0 <= chunk_overlap < chunk_size` the windows leave no gap: each
   * non-whitespace character of the text lies in a window, starting at most
   * one step before it, whose chunk is kept and spans that character.
   */
  lemma NonSpaceCovered(text: string, size: int, overlap: int, p: nat) returns (st: nat)
    requires 0 <= overlap < size && p < |text| && !IsSpace(text[p])
    ensures st in Starts(|text|, Step(size, overlap), 0) && st <= p < st + Step(size, overlap)
    ensures ChunkAt(text, size, st) in Chunks(text, size, overlap)
    ensures exists a | 0 <= a <= p :: SliceOfAt(text, ChunkAt(text, size, st), a) && p < a + |ChunkAt(text, size, st)|
  {
    var window, step := Window(text, size), Step(size, overlap);
    st := StartBefore(|text|, step, 0, p);
    var a := WindowCovers(text, size, st, p);
    WindowsOfStarts(window, |text|, step, 0);
    assert window(st) == ChunkAt(text, size, st);
    KeptMembers(Windows(window, |text|, step, 0));
    ChunksByWindow(text, size, overlap);
  }

  /**
   * With `0 <= chunk_overlap < chunk_size`, a window that fits in the text
   * and the one after it share `chunk_overlap` characters: the tail of the
   * first is the head of the second.
   */
  lemma ConsecutiveWindowsOverlap(text: string, size: int, overlap: int, start: nat)
    requires 0 <= overlap < size && start + size <= |text|
    ensures var next := start + Step(size, overlap);
            && |Slice(text, start, start + size)| == size
            && overlap <= |Slice(text, next, next + size)|
            && Slice(text, start, start + size)[size - overlap..] == Slice(text, next, next + size)[..overlap]
  {
    var next := start + Step(size, overlap);
    var w := Slice(text, start, start + size);
    var v := Slice(text, next, next + size);
    SliceFacts(text, start, start + size);
    SliceFacts(text, next, next + size);
    assert w == text[start..start + size];
    var hi := if next + size <= |text| then next + size else |text|;
    assert hi >= start + size;
    if overlap > 0 {
      assert v == text[next..hi];
      assert w[size - overlap..] == text[next..start + size];
      assert v[..overlap] == text[next..start + size];
    }
  }
}
