/**
 * The chunker: a page's body text is cleaned (lines stripped, blank lines
 * dropped, rejoined with "\n") and cut into fixed-size windows that overlap
 * by a fixed number of characters, numbered 0, 1, 2, ...
 */
module Chunking {
  import opened Text

  datatype Chunk = Chunk(text: string, index: int)

  /** The lines of `lines` stripped, with the blank ones left out, in order. */
  function NonBlankLines(lines: seq<string>): (r: seq<string>)
    ensures |r| <= |lines|
    ensures forall k :: 0 <= k < |r| ==> r[k] != []
  {
    if lines == [] then []
    else (if Strip(lines[0]) != [] then [Strip(lines[0])] else []) + NonBlankLines(lines[1..])
  }

  /** `x` is one of `lines` stripped. */
  predicate IsStrippedLine(x: string, lines: seq<string>) {
    exists j :: 0 <= j < |lines| && x == Strip(lines[j])
  }

  /** Every kept line is an input line stripped, and every input line that is not blank is kept. */
  lemma NonBlankLinesExact(lines: seq<string>)
    ensures var r := NonBlankLines(lines);
            && (forall k :: 0 <= k < |r| ==> IsStrippedLine(r[k], lines))
            && (forall j :: 0 <= j < |lines| && Strip(lines[j]) != [] ==> Strip(lines[j]) in r)
  {
    NonBlankLinesSound(lines);
    NonBlankLinesComplete(lines);
  }

  lemma NonBlankLinesSound(lines: seq<string>)
    ensures forall k :: 0 <= k < |NonBlankLines(lines)| ==> IsStrippedLine(NonBlankLines(lines)[k], lines)
  {
    forall k | 0 <= k < |NonBlankLines(lines)| ensures IsStrippedLine(NonBlankLines(lines)[k], lines) {
      KeptLineAt(lines, k);
    }
  }

  /** The k-th kept line is an input line stripped. */
  lemma {:induction false} KeptLineAt(lines: seq<string>, k: nat)
    requires k < |NonBlankLines(lines)|
    ensures IsStrippedLine(NonBlankLines(lines)[k], lines)
    decreases |lines|
  {
    var tail := lines[1..];
    var rt := NonBlankLines(tail);
    if Strip(lines[0]) != [] {
      assert NonBlankLines(lines) == [Strip(lines[0])] + rt;
      if k > 0 {
        KeptLineAt(tail, k - 1);
        StrippedTail(rt[k - 1], lines);
      }
    } else {
      assert NonBlankLines(lines) == [] + rt;
      KeptLineAt(tail, k);
      StrippedTail(rt[k], lines);
    }
  }

  /** A stripped line of the later lines is a stripped line of them all. */
  lemma StrippedTail(x: string, lines: seq<string>)
    requires lines != [] && IsStrippedLine(x, lines[1..])
    ensures IsStrippedLine(x, lines)
  {
    var j :| 0 <= j < |lines[1..]| && x == Strip(lines[1..][j]);
    assert lines[1..][j] == lines[j + 1];
  }

  lemma {:induction false} NonBlankLinesComplete(lines: seq<string>)
    ensures var r := NonBlankLines(lines);
            forall j :: 0 <= j < |lines| && Strip(lines[j]) != [] ==> Strip(lines[j]) in r
    decreases |lines|
  {
    if lines != [] {
      var tail := lines[1..];
      NonBlankLinesComplete(tail);
      var head := if Strip(lines[0]) != [] then [Strip(lines[0])] else [];
      var r := NonBlankLines(lines);
      var rt := NonBlankLines(tail);
      assert r == head + rt;
      forall j | 0 <= j < |lines| && Strip(lines[j]) != [] ensures Strip(lines[j]) in r {
        if j > 0 {
          assert lines[j] == tail[j - 1];
          assert Strip(lines[j]) in rt;
        }
      }
    }
  }

  /** Lines are kept or dropped one at a time, so the kept lines keep their order. */
  lemma {:induction false} NonBlankLinesAppend(a: seq<string>, b: seq<string>)
    ensures NonBlankLines(a + b) == NonBlankLines(a) + NonBlankLines(b)
    decreases |a|
  {
    if a == [] {
      assert a + b == b;
    } else {
      assert (a + b)[1..] == a[1..] + b;
      NonBlankLinesAppend(a[1..], b);
    }
  }

  /** The text the windows are cut from. */
  function CleanText(text: string): string {
    Join("\n", NonBlankLines(SplitLines(text)))
  }

  /**
   * Whether the window loop of `chunk_text` ends on a clean text of `n`
   * characters: the text is empty, fits in one window, or each window
   * starts after the one before it.
   */
  predicate LoopEnds(n: nat, maxChars: int, overlap: int) {
    n == 0 || n <= maxChars || overlap < maxChars
  }

  /** Windows of positive size, each starting after the one before it. */
  predicate Advancing(maxChars: int, overlap: int) {
    0 < maxChars && overlap < maxChars
  }

  /** Advancing windows that share a non-negative number of characters with the next one. */
  predicate ValidWindow(maxChars: int, overlap: int) {
    Advancing(maxChars, overlap) && 0 <= overlap
  }

  /**
   * The chunks the loop emits from offset `start` on, numbered from `idx`.
   * Each chunk is the slice from `start` to `min(n, start + maxChars)`; the
   * next one starts at `max(0, end - overlap)`, moved on to `start + 1` when
   * that would not advance. Wherever the loop ends, that move never
   * happens (`CorrectionUnused`).
   */
  function ChunksFrom(clean: string, maxChars: int, overlap: int, start: nat, idx: int): seq<Chunk>
    decreases |clean| - start
  {
    if start >= |clean| then []
    else
      var end := Min(|clean|, start + maxChars);
      var part := Slice(clean, start, end);
      if end == |clean| then [Chunk(part, idx)]
      else [Chunk(part, idx)] + ChunksFrom(clean, maxChars, overlap, Max(start + 1, end - overlap), idx + 1)
  }

  /** What `chunk_text(text, maxChars, overlap)` returns. */
  function Chunks(text: string, maxChars: int, overlap: int): seq<Chunk> {
    var clean := CleanText(text);
    if clean == [] then [] else ChunksFrom(clean, maxChars, overlap, 0, 0)
  }

  /** `chunk_text`: cleans the text, then cuts it into windows. */
  method ChunkText(text: string, maxChars: int, overlap: int) returns (chunks: seq<Chunk>)
    ensures chunks == Chunks(text, maxChars, overlap)
  {
    var clean := CleanText(text);
    if clean == [] {
      return [];
    }
    chunks := CutWindows(clean, maxChars, overlap);
  }

  /**
   * The window loop of `chunk_text` over a non-empty clean text. The next
   * start is `max(0, end - overlap)`; when that does not lie past `start`
   * the loop as written would never end, and here it moves on by one.
   */
  method CutWindows(clean: string, maxChars: int, overlap: int) returns (chunks: seq<Chunk>)
    requires clean != []
    ensures chunks == ChunksFrom(clean, maxChars, overlap, 0, 0)
  {
    ghost var all := ChunksFrom(clean, maxChars, overlap, 0, 0);
    chunks := [];
    var start := 0;
    var idx := 0;
    var n := |clean|;
    while start < n
      invariant 0 <= start && idx == |chunks|
      invariant chunks + ChunksFrom(clean, maxChars, overlap, start, idx) == all
      decreases n - start
    {
      var end := Min(n, start + maxChars);
      var part := Slice(clean, start, end);
      ghost var rest := ChunksFrom(clean, maxChars, overlap, start, idx);
      ChunksFromStep(clean, maxChars, overlap, start, idx);
      ConsShift(chunks, rest, all);
      chunks := chunks + [Chunk(part, idx)];
      idx := idx + 1;
      if end >= n {
        assert rest[1..] == [];
        assert chunks == all;
        break;
      }
      var next := Max(0, end - overlap);
      if next <= start {
        next := start + 1;
      }
      start := next;
    }
  }

  /** One pass of the window loop, as an equation. */
  lemma ChunksFromStep(clean: string, maxChars: int, overlap: int, start: nat, idx: int)
    requires start < |clean|
    ensures var end := Min(|clean|, start + maxChars);
            var cs := ChunksFrom(clean, maxChars, overlap, start, idx);
            && cs != [] && cs[0] == Chunk(Slice(clean, start, end), idx)
            && (end == |clean| ==> |cs| == 1)
            && (end < |clean| ==> cs[1..] == ChunksFrom(clean, maxChars, overlap, Max(start + 1, end - overlap), idx + 1))
  {
  }

  /** Chunk k is numbered `idx + k`, whatever the window sizes. */
  lemma {:induction false} IndicesFrom(clean: string, maxChars: int, overlap: int, start: nat, idx: int)
    ensures var cs := ChunksFrom(clean, maxChars, overlap, start, idx);
            forall k :: 0 <= k < |cs| ==> cs[k].index == idx + k
    decreases |clean| - start
  {
    if start < |clean| {
      var cs := ChunksFrom(clean, maxChars, overlap, start, idx);
      ChunksFromStep(clean, maxChars, overlap, start, idx);
      var end := Min(|clean|, start + maxChars);
      if end < |clean| {
        var next := Max(start + 1, end - overlap);
        IndicesFrom(clean, maxChars, overlap, next, idx + 1);
        forall k | 1 <= k < |cs| ensures cs[k].index == idx + k {
          assert cs[k] == cs[1..][k - 1];
        }
      }
    }
  }

  /** There are no chunks exactly when the clean text is empty, and chunk k has index k, for every window size. */
  lemma ChunksNumbered(text: string, maxChars: int, overlap: int)
    ensures var cs := Chunks(text, maxChars, overlap);
            && (cs == [] <==> CleanText(text) == [])
            && forall k :: 0 <= k < |cs| ==> cs[k].index == k
  {
    var clean := CleanText(text);
    if clean != [] {
      ChunksFromStep(clean, maxChars, overlap, 0, 0);
      IndicesFrom(clean, maxChars, overlap, 0, 0);
    }
  }

  // ---------------------------------------------------------------- the loop as written

  /** The next start as the loop writes it: `max(0, end - overlap)` with `end = min(n, start + max_chars)`. */
  function NextStart(n: nat, maxChars: int, overlap: int, start: int): int {
    Max(0, Min(n, start + maxChars) - overlap)
  }

  /** Where the loop as written stands after `k` passes that did not stop it. */
  function StartAfter(n: nat, maxChars: int, overlap: int, k: nat): int {
    if k == 0 then 0 else NextStart(n, maxChars, overlap, StartAfter(n, maxChars, overlap, k - 1))
  }

  /**
   * Where the loop ends, the next start as written lies past the current
   * one, so the one-character move of `ChunksFrom` never applies.
   */
  lemma CorrectionUnused(n: nat, maxChars: int, overlap: int, start: nat)
    requires LoopEnds(n, maxChars, overlap) && start < n && start + maxChars < n
    ensures NextStart(n, maxChars, overlap, start) > start
    ensures NextStart(n, maxChars, overlap, start) == Max(start + 1, Min(n, start + maxChars) - overlap)
  {
    assert n != 0 && maxChars < n;
    assert overlap < maxChars;
    assert Min(n, start + maxChars) == start + maxChars;
  }

  /**
   * Where it does not end, the loop as written is stuck: after any number of
   * passes it is back at offset 0 and its window stops short of the end, so
   * neither the `while` test nor the `break` ever stops it.
   */
  lemma {:induction false} LoopNeverEnds(n: nat, maxChars: int, overlap: int, k: nat)
    requires !LoopEnds(n, maxChars, overlap)
    ensures StartAfter(n, maxChars, overlap, k) == 0
    ensures 0 < n && Min(n, 0 + maxChars) < n
    decreases k
  {
    if k > 0 {
      LoopNeverEnds(n, maxChars, overlap, k - 1);
    }
  }

  /** `chunk_text("abc", 1, 1)`: the clean text is "abc" and the loop as written never ends on it. */
  lemma StuckOnAbc()
    ensures CleanText("abc") == "abc"
    ensures !LoopEnds(|CleanText("abc")|, 1, 1)
  {
    var s := "abc";
    assert All(s, NotLineBreak);
    SplitLinesSingle(s);
    StripUnpadded(s);
    assert NonBlankLines([s]) == [s];
  }

  // ---------------------------------------------------------------- windows

  /** Where the k-th window starts: each window starts `maxChars - overlap` after the previous one. */
  function Offset(k: nat, maxChars: int, overlap: int): int { k * (maxChars - overlap) }

  lemma OffsetNext(k: nat, maxChars: int, overlap: int)
    ensures Offset(k + 1, maxChars, overlap) == Offset(k, maxChars, overlap) + (maxChars - overlap)
  {
    var step := maxChars - overlap;
    assert (k + 1) * step == k * step + step;
  }

  /** The window of `maxChars` characters at `at`, cut at the end of `clean`. */
  predicate IsWindow(c: Chunk, clean: string, at: int, maxChars: int, idx: int) {
    0 < maxChars && 0 <= at < |clean| && c == Chunk(clean[at..Min(|clean|, at + maxChars)], idx)
  }

  /**
   * Chunk k of the chunks from `start` is the window at
   * `start + k * (maxChars - overlap)`; the loop goes on after it exactly
   * when that window stops short of the end and the next one starts before it.
   */
  lemma {:induction false} WindowAt(clean: string, maxChars: int, overlap: int, start: nat, idx: int, k: nat)
    requires Advancing(maxChars, overlap) && start < |clean|
    requires k < |ChunksFrom(clean, maxChars, overlap, start, idx)|
    ensures var cs := ChunksFrom(clean, maxChars, overlap, start, idx);
            var at := start + Offset(k, maxChars, overlap);
            && IsWindow(cs[k], clean, at, maxChars, idx + k)
            && (k < |cs| - 1 <==> at + maxChars < |clean| && at + maxChars - overlap < |clean|)
    decreases k
  {
    if k == 0 {
      assert Offset(0, maxChars, overlap) == 0;
      WindowFirst(clean, maxChars, overlap, start, idx);
    } else {
      var cs := ChunksFrom(clean, maxChars, overlap, start, idx);
      var next := start + maxChars - overlap;
      ChunksFromUnfold(clean, maxChars, overlap, start, idx);
      assert start + maxChars < |clean|;
      var tail := ChunksFrom(clean, maxChars, overlap, next, idx + 1);
      assert tail == cs[1..];
      assert next < |clean|;
      WindowAt(clean, maxChars, overlap, next, idx + 1, k - 1);
      OffsetNext(k - 1, maxChars, overlap);
      var at := start + Offset(k, maxChars, overlap);
      assert at == next + Offset(k - 1, maxChars, overlap);
      ShiftedWindow(cs, tail, clean, maxChars, at, idx, k, at + maxChars < |clean| && at + maxChars - overlap < |clean|);
    }
  }

  /** Chunk k of a list is chunk k - 1 of its tail, and is last in one exactly when it is last in the other. */
  lemma ShiftedWindow(cs: seq<Chunk>, tail: seq<Chunk>, clean: string, maxChars: int, at: int, idx: int, k: nat, more: bool)
    requires 0 < k < |cs| && cs[1..] == tail
    requires IsWindow(tail[k - 1], clean, at, maxChars, idx + 1 + (k - 1))
    requires k - 1 < |tail| - 1 <==> more
    ensures IsWindow(cs[k], clean, at, maxChars, idx + k)
    ensures k < |cs| - 1 <==> more
  {
    assert cs[k] == tail[k - 1];
  }

  /** The first chunk from `start` is the window there; more follow exactly when the next start is inside the text. */
  lemma WindowFirst(clean: string, maxChars: int, overlap: int, start: nat, idx: int)
    requires Advancing(maxChars, overlap) && start < |clean|
    ensures var cs := ChunksFrom(clean, maxChars, overlap, start, idx);
            && IsWindow(cs[0], clean, start, maxChars, idx)
            && (0 < |cs| - 1 <==> start + maxChars < |clean| && start + maxChars - overlap < |clean|)
  {
    var next := start + maxChars - overlap;
    ChunksFromUnfold(clean, maxChars, overlap, start, idx);
    if start + maxChars < |clean| && next >= |clean| {
      assert ChunksFrom(clean, maxChars, overlap, next, idx + 1) == [];
    } else if start + maxChars < |clean| {
      ChunksFromUnfold(clean, maxChars, overlap, next, idx + 1);
    }
  }

  /**
   * `chunk_text` in closed form for advancing windows: chunk k is
   * `clean[k*(maxChars-overlap) : min(n, k*(maxChars-overlap) + maxChars)]`
   * with index k, and the windows stop at the first one that reaches the end
   * or whose successor would start past it.
   */
  lemma ChunkWindows(text: string, maxChars: int, overlap: int)
    requires Advancing(maxChars, overlap)
    ensures var cs := Chunks(text, maxChars, overlap);
            var clean := CleanText(text);
            forall k :: 0 <= k < |cs| ==>
              && IsWindow(cs[k], clean, Offset(k, maxChars, overlap), maxChars, k)
              && (k < |cs| - 1 <==> (Offset(k, maxChars, overlap) + maxChars < |clean|
                                     && Offset(k, maxChars, overlap) + maxChars - overlap < |clean|))
  {
    var clean := CleanText(text);
    if clean != [] {
      WindowsFrom(clean, maxChars, overlap);
    }
  }

  lemma WindowsFrom(clean: string, maxChars: int, overlap: int)
    requires Advancing(maxChars, overlap) && clean != []
    ensures var cs := ChunksFrom(clean, maxChars, overlap, 0, 0);
            forall k :: 0 <= k < |cs| ==>
              && IsWindow(cs[k], clean, Offset(k, maxChars, overlap), maxChars, k)
              && (k < |cs| - 1 <==> (Offset(k, maxChars, overlap) + maxChars < |clean|
                                     && Offset(k, maxChars, overlap) + maxChars - overlap < |clean|))
  {
    var cs := ChunksFrom(clean, maxChars, overlap, 0, 0);
    forall k | 0 <= k < |cs|
      ensures IsWindow(cs[k], clean, Offset(k, maxChars, overlap), maxChars, k)
      ensures k < |cs| - 1 <==> (Offset(k, maxChars, overlap) + maxChars < |clean|
                                 && Offset(k, maxChars, overlap) + maxChars - overlap < |clean|)
    {
      WindowAt(clean, maxChars, overlap, 0, 0, k);
    }
  }

  /** Every chunk is non-empty and at most `maxChars` long; a chunk other than the last is exactly `maxChars` long. */
  lemma ChunkSizes(text: string, maxChars: int, overlap: int)
    requires Advancing(maxChars, overlap)
    ensures var cs := Chunks(text, maxChars, overlap);
            && (forall k :: 0 <= k < |cs| ==> 0 < |cs[k].text| <= maxChars)
            && (forall k :: 0 <= k < |cs| - 1 ==> |cs[k].text| == maxChars)
  {
    var cs := Chunks(text, maxChars, overlap);
    var clean := CleanText(text);
    ChunkWindows(text, maxChars, overlap);
    forall k | 0 <= k < |cs| ensures 0 < |cs[k].text| <= maxChars && (k < |cs| - 1 ==> |cs[k].text| == maxChars) {
      var at := Offset(k, maxChars, overlap);
      assert IsWindow(cs[k], clean, at, maxChars, k);
      assert |cs[k].text| == Min(|clean|, at + maxChars) - at;
    }
  }

  /** Consecutive chunks share exactly `overlap` characters: the tail of one is the head of the next. */
  lemma ChunkOverlap(text: string, maxChars: int, overlap: int, k: nat)
    requires ValidWindow(maxChars, overlap)
    requires k + 1 < |Chunks(text, maxChars, overlap)|
    ensures var cs := Chunks(text, maxChars, overlap);
            Overlaps(cs[k], cs[k + 1], maxChars, overlap)
  {
    var clean := CleanText(text);
    WindowOverlap(clean, maxChars, overlap, 0, 0, k);
  }

  /** Chunk `a` is a full window whose last `overlap` characters start chunk `b`. */
  predicate Overlaps(a: Chunk, b: Chunk, maxChars: int, overlap: int)
    requires ValidWindow(maxChars, overlap)
  {
    |a.text| == maxChars && overlap < |b.text| && a.text[maxChars - overlap..] == b.text[..overlap]
  }

  lemma {:induction false} WindowOverlap(clean: string, maxChars: int, overlap: int, start: nat, idx: int, k: nat)
    requires ValidWindow(maxChars, overlap) && start < |clean|
    requires k + 1 < |ChunksFrom(clean, maxChars, overlap, start, idx)|
    ensures var cs := ChunksFrom(clean, maxChars, overlap, start, idx);
            Overlaps(cs[k], cs[k + 1], maxChars, overlap)
    decreases k
  {
    var cs := ChunksFrom(clean, maxChars, overlap, start, idx);
    ChunksFromUnfold(clean, maxChars, overlap, start, idx);
    var next := start + maxChars - overlap;
    if k == 0 {
      FirstOverlap(clean, maxChars, overlap, start, idx);
    } else {
      WindowOverlap(clean, maxChars, overlap, next, idx + 1, k - 1);
      var tail := ChunksFrom(clean, maxChars, overlap, next, idx + 1);
      assert cs[k] == tail[k - 1] && cs[k + 1] == tail[k];
    }
  }

  /** The first two chunks overlap. */
  lemma FirstOverlap(clean: string, maxChars: int, overlap: int, start: nat, idx: int)
    requires ValidWindow(maxChars, overlap) && start < |clean|
    requires 1 < |ChunksFrom(clean, maxChars, overlap, start, idx)|
    ensures var cs := ChunksFrom(clean, maxChars, overlap, start, idx);
            Overlaps(cs[0], cs[1], maxChars, overlap)
  {
    var cs := ChunksFrom(clean, maxChars, overlap, start, idx);
    var next := start + maxChars - overlap;
    ChunksFromUnfold(clean, maxChars, overlap, start, idx);
    ChunksFromUnfold(clean, maxChars, overlap, next, idx + 1);
    SliceOverlap(clean, start, maxChars, overlap);
  }

  /** Two consecutive windows of the same text, the second starting `overlap` before the first ends. */
  lemma SliceOverlap(clean: string, start: nat, maxChars: int, overlap: int)
    requires ValidWindow(maxChars, overlap) && start + maxChars < |clean|
    ensures var a := clean[start..start + maxChars];
            var next := start + maxChars - overlap;
            var b := clean[next..Min(|clean|, next + maxChars)];
            && |a| == maxChars && overlap < |b|
            && a[maxChars - overlap..] == b[..overlap]
  {
    var next := start + maxChars - overlap;
    var a := clean[start..start + maxChars];
    var b := clean[next..Min(|clean|, next + maxChars)];
    assert a[maxChars - overlap..] == clean[next..start + maxChars];
    assert b[..overlap] == clean[next..start + maxChars];
  }

  // ---------------------------------------------------------------- coverage

  /** `s` without its first `k` characters (empty if it is shorter). */
  function Drop(s: string, k: nat): string { if k <= |s| then s[k..] else [] }

  /** The chunks after the first, each without the `overlap` characters it repeats. */
  function Rest(cs: seq<Chunk>, overlap: nat): string {
    if cs == [] then [] else Drop(cs[0].text, overlap) + Rest(cs[1..], overlap)
  }

  /** The text the chunks were cut from, glued back together. */
  function Stitch(cs: seq<Chunk>, overlap: nat): string {
    if cs == [] then [] else cs[0].text + Rest(cs[1..], overlap)
  }

  lemma {:induction false} StitchFrom(clean: string, maxChars: int, overlap: int, start: nat, idx: int)
    requires ValidWindow(maxChars, overlap) && start < |clean|
    ensures Stitch(ChunksFrom(clean, maxChars, overlap, start, idx), overlap) == clean[start..]
    decreases |clean| - start
  {
    if start + maxChars < |clean| {
      StitchFrom(clean, maxChars, overlap, start + maxChars - overlap, idx + 1);
      StitchNext(clean, maxChars, overlap, start, idx);
    } else {
      ChunksFromUnfold(clean, maxChars, overlap, start, idx);
    }
  }

  /** Stitching the chunks from `start` extends stitching those from the next window by the first window. */
  lemma StitchNext(clean: string, maxChars: int, overlap: int, start: nat, idx: int)
    requires ValidWindow(maxChars, overlap) && start + maxChars < |clean|
    requires var next := start + maxChars - overlap;
             Stitch(ChunksFrom(clean, maxChars, overlap, next, idx + 1), overlap) == clean[next..]
    ensures Stitch(ChunksFrom(clean, maxChars, overlap, start, idx), overlap) == clean[start..]
  {
    var end := start + maxChars;
    var next := end - overlap;
    var cs := ChunksFrom(clean, maxChars, overlap, start, idx);
    var tail := ChunksFrom(clean, maxChars, overlap, next, idx + 1);
    ChunksFromUnfold(clean, maxChars, overlap, start, idx);
    ChunksFromUnfold(clean, maxChars, overlap, next, idx + 1);
    StitchGlue(clean, start, end, overlap, cs, tail);
  }

  /** Stitching a window before chunks that stitch to the text from `overlap` before its end gives the text from its start. */
  lemma StitchGlue(clean: string, start: nat, end: nat, overlap: nat, cs: seq<Chunk>, tail: seq<Chunk>)
    requires start <= end - overlap && end <= |clean|
    requires cs != [] && cs[0].text == clean[start..end] && cs[1..] == tail
    requires tail != [] && overlap <= |tail[0].text|
    requires Stitch(tail, overlap) == clean[end - overlap..]
    ensures Stitch(cs, overlap) == clean[start..]
  {
    var rest := Rest(tail[1..], overlap);
    assert Stitch(cs, overlap) == clean[start..end] + (tail[0].text[overlap..] + rest);
    StitchStep(clean, start, end, overlap, tail[0].text, rest);
  }

  /** One pass of the loop for advancing windows: a full window followed by those `maxChars - overlap` further on, or the last window. */
  lemma ChunksFromUnfold(clean: string, maxChars: int, overlap: int, start: nat, idx: int)
    requires Advancing(maxChars, overlap) && start < |clean|
    ensures var cs := ChunksFrom(clean, maxChars, overlap, start, idx);
            && (start + maxChars >= |clean| ==> cs == [Chunk(clean[start..], idx)])
            && (start + maxChars < |clean| ==>
                  && cs[0] == Chunk(clean[start..start + maxChars], idx)
                  && cs[1..] == ChunksFrom(clean, maxChars, overlap, start + maxChars - overlap, idx + 1))
  {
    ChunksFromStep(clean, maxChars, overlap, start, idx);
    if start + maxChars >= |clean| {
      assert clean[start..|clean|] == clean[start..];
    }
  }

  lemma ConsShift<T>(a: seq<T>, r: seq<T>, all: seq<T>)
    requires r != [] && a + r == all
    ensures (a + [r[0]]) + r[1..] == all
  {
  }

  /** The first window followed by the rest of the text past the overlap is the text from the first window on. */
  lemma StitchStep(clean: string, start: nat, end: nat, overlap: nat, head: string, tail: string)
    requires start <= end - overlap && end <= |clean|
    requires head + tail == clean[end - overlap..] && overlap <= |head|
    ensures clean[start..end] + (head[overlap..] + tail) == clean[start..]
  {
    assert head[overlap..] + tail == (head + tail)[overlap..];
    assert clean[end - overlap..][overlap..] == clean[end..];
    assert clean[start..] == clean[start..end] + clean[end..];
  }

  /**
   * The windows cover the clean text with no gap: the first chunk followed
   * by every later chunk minus its `overlap` repeated characters is exactly
   * the clean text.
   */
  lemma StitchChunks(text: string, maxChars: int, overlap: int)
    requires ValidWindow(maxChars, overlap)
    ensures Stitch(Chunks(text, maxChars, overlap), overlap) == CleanText(text)
  {
    var clean := CleanText(text);
    if clean != [] {
      StitchFrom(clean, maxChars, overlap, 0, 0);
    }
  }

  /** 2500 characters on one line, windows of 1200 overlapping by 200: chunks at 0, 1000 and 2000 of lengths 1200, 1200 and 500. */
  lemma Example2500()
    ensures var s := seq(2500, _ => 'a');
            var cs := Chunks(s, 1200, 200);
            && |cs| == 3
            && cs[0] == Chunk(s[0..1200], 0)
            && cs[1] == Chunk(s[1000..2200], 1)
            && cs[2] == Chunk(s[2000..2500], 2)
  {
    var s := seq(2500, _ => 'a');
    assert All(s, NotLineBreak);
    SplitLinesSingle(s);
    StripUnpadded(s);
    assert NonBlankLines([s]) == [s];
    assert CleanText(s) == s;
    var c2 := ChunksFrom(s, 1200, 200, 2000, 2);
    assert c2 == [Chunk(s[2000..2500], 2)];
    var c1 := ChunksFrom(s, 1200, 200, 1000, 1);
    assert c1 == [Chunk(s[1000..2200], 1)] + c2;
  }
}
