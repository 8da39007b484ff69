/** The extraction chunker: overlapping windows over the characters of a normalized text. */
module Chunker {
  import opened Text

  const CHUNK_CHARS := 1800
  const CHUNK_OVERLAP := 180

  datatype Window = Window(start: nat, end: nat)

  datatype Chunk = Chunk(ordinal: nat, start: nat, end: nat, paragraphStart: nat, paragraphEnd: nat, text: string)

  // ----- where a window ends

  /** The last position of `lo..=hi` just behind a line feed, else `hi`. */
  function LastBreak(text: string, lo: nat, hi: nat): (end: nat)
    requires 0 < lo <= hi <= |text|
    ensures lo <= end <= hi
    ensures text[end - 1] == '\n' || end == hi
    ensures forall i | end <= i < hi :: text[i] != '\n'
    ensures text[end - 1] != '\n' ==> forall i | lo - 1 <= i < hi :: text[i] != '\n'
  {
    LastBreakFrom(text, lo, hi, hi)
  }

  function LastBreakFrom(text: string, lo: nat, hi: nat, i: nat): (end: nat)
    requires 0 < lo <= hi <= |text| && lo - 1 <= i <= hi
    requires forall j | i <= j < hi :: text[j] != '\n'
    ensures lo <= end <= hi
    ensures text[end - 1] == '\n' || end == hi
    ensures forall j | end <= j < hi :: text[j] != '\n'
    ensures text[end - 1] != '\n' ==> forall j | lo - 1 <= j < hi :: text[j] != '\n'
  {
    if i < lo then hi else if text[i - 1] == '\n' then i else LastBreakFrom(text, lo, hi, i - 1)
  }

  function WindowEnd(text: string, start: nat): (end: nat)
    requires start < |text|
    ensures start < end <= |text| && end <= start + CHUNK_CHARS
    ensures end < |text| ==> start + CHUNK_CHARS / 2 <= end
  {
    if start + CHUNK_CHARS < |text| then LastBreak(text, start + CHUNK_CHARS / 2, start + CHUNK_CHARS) else |text|
  }

  // ----- the windows, and what they are for

  predicate Fits(text: string, w: Window) {
    w.start < w.end <= |text|
  }

  predicate AllFit(text: string, windows: seq<Window>) {
    forall w | w in windows :: Fits(text, w)
  }

  function Windows(text: string, start: nat): (windows: seq<Window>)
    requires start <= |text|
    ensures AllFit(text, windows)
    decreases |text| - start
  {
    if start == |text| then []
    else
      var end := WindowEnd(text, start);
      if end == |text| then [Window(start, end)] else [Window(start, end)] + Windows(text, end - CHUNK_OVERLAP)
  }

  /** At most 1,800 characters, and at least half as many when another window follows, 180 characters back. */
  predicate Joined(w: Window, next: Window) {
    w.start + CHUNK_CHARS / 2 <= w.end && next.start == w.end - CHUNK_OVERLAP
  }

  /** Windows from `start` to the end of the text, each reaching 180 characters into the next. */
  ghost predicate Tiles(text: string, windows: seq<Window>, start: nat) {
    && AllFit(text, windows)
    && (forall w | w in windows :: w.end <= w.start + CHUNK_CHARS)
    && (forall i, j | 0 <= i < j < |windows| && j == i + 1 :: Joined(windows[i], windows[j]))
    && (windows != [] ==> windows[0].start == start && windows[|windows| - 1].end == |text|)
    && (windows == [] <==> start == |text|)
  }

  lemma {:induction false} WindowsTile(text: string, start: nat)
    requires start <= |text|
    ensures Tiles(text, Windows(text, start), start)
    decreases |text| - start
  {
    if start < |text| {
      var end := WindowEnd(text, start);
      if end < |text| {
        WindowsTile(text, end - CHUNK_OVERLAP);
        TileAhead(text, Window(start, end), Windows(text, end - CHUNK_OVERLAP));
      }
    }
  }

  lemma TileAhead(text: string, w: Window, rest: seq<Window>)
    requires Fits(text, w) && w.start + CHUNK_CHARS / 2 <= w.end <= w.start + CHUNK_CHARS && w.end < |text|
    requires Tiles(text, rest, w.end - CHUNK_OVERLAP)
    ensures Tiles(text, [w] + rest, w.start)
  {
    var all := [w] + rest;
    forall i, j | 0 <= i < j < |all| && j == i + 1 ensures Joined(all[i], all[j]) {
      assert all[j] == rest[j - 1];
      if i > 0 { assert all[i] == rest[i - 1]; }
    }
  }

  /** Every window but the first has the 180 characters it shares with the one before. */
  predicate Overlapping(text: string, windows: seq<Window>) {
    AllFit(text, windows) && forall i | 0 < i < |windows| :: windows[i].start + CHUNK_OVERLAP <= windows[i].end
  }

  /** The first window, then each later one without the 180 characters it repeats. */
  function Stitched(text: string, windows: seq<Window>, n: nat): string
    requires n <= |windows| && Overlapping(text, windows)
  {
    if n == 0 then ""
    else
      var w := windows[n - 1];
      assert w in windows;
      if n == 1 then text[w.start..w.end] else Stitched(text, windows, n - 1) + text[w.start..w.end][CHUNK_OVERLAP..]
  }

  lemma TilingOverlaps(text: string, windows: seq<Window>)
    requires Tiles(text, windows, 0)
    ensures Overlapping(text, windows)
  {
    forall i | 0 < i < |windows| ensures windows[i].start + CHUNK_OVERLAP <= windows[i].end {
      assert Joined(windows[i - 1], windows[i]) && Fits(text, windows[i - 1]);
      if i + 1 < |windows| { assert Joined(windows[i], windows[i + 1]); }
    }
  }

  /** Any tiling from 0 spells the text up to the end of its last window. */
  lemma {:induction false} TilingSpells(text: string, windows: seq<Window>, n: nat)
    requires Tiles(text, windows, 0) && n <= |windows| && Overlapping(text, windows)
    ensures n > 0 ==> Fits(text, windows[n - 1])
    ensures Stitched(text, windows, n) == text[..if n == 0 then 0 else windows[n - 1].end]
  {
    if n > 0 { assert windows[n - 1] in windows; }
    if n > 1 {
      TilingSpells(text, windows, n - 1);
      var w, a, b := windows[n - 1], windows[n - 2].end, windows[n - 1].end;
      assert Joined(windows[n - 2], w);
      assert text[w.start..b][CHUNK_OVERLAP..] == text[a..b];
      assert text[..a] + text[a..b] == text[..b];
    }
  }

  lemma WindowsSpellText(text: string)
    ensures Tiles(text, Windows(text, 0), 0)
    ensures Overlapping(text, Windows(text, 0))
    ensures Stitched(text, Windows(text, 0), |Windows(text, 0)|) == text
  {
    WindowsTile(text, 0);
    TilingOverlaps(text, Windows(text, 0));
    TilingSpells(text, Windows(text, 0), |Windows(text, 0)|);
  }

  // ----- where the windows break

  /**
   * A window with more text ahead ends just behind the last line feed of its second half, or after 1,800 characters
   * where there is none.
   */
  ghost predicate AtBreak(text: string, w: Window) {
    && w.start + 1800 < |text| && w.start + 900 <= w.end <= w.start + 1800
    && (text[w.end - 1] == '\n' || w.end == w.start + 1800)
    && (forall i | w.end <= i < w.start + 1800 :: text[i] != '\n')
    && (text[w.end - 1] != '\n' ==> forall i | w.start + 899 <= i < w.start + 1800 :: text[i] != '\n')
  }

  /** Every window but the last ends at a break; the last is the first one to reach the end of the text. */
  ghost predicate Breaks(text: string, windows: seq<Window>) {
    && (forall k | 0 <= k < |windows| - 1 :: AtBreak(text, windows[k]))
    && (windows != [] ==> windows[|windows| - 1].start + 1800 >= |text|)
  }

  lemma {:induction false} WindowsBreak(text: string, start: nat)
    requires start <= |text|
    ensures Breaks(text, Windows(text, start))
    decreases |text| - start
  {
    if start < |text| && WindowEnd(text, start) < |text| {
      var w, rest := Window(start, WindowEnd(text, start)), Windows(text, WindowEnd(text, start) - CHUNK_OVERLAP);
      WindowsBreak(text, w.end - CHUNK_OVERLAP);
      assert AtBreak(text, w);
      forall k | 0 <= k < |rest| ensures AtBreak(text, ([w] + rest)[k]) {
        if k > 0 { assert ([w] + rest)[k] == rest[k - 1]; }
      }
    }
  }

  lemma BreakUnique(text: string, v: Window, w: Window)
    requires AtBreak(text, v) && AtBreak(text, w) && v.start == w.start
    ensures v == w
  {
    assert text[v.end - 1] == '\n' || v.end == v.start + 1800;
    assert text[w.end - 1] == '\n' || w.end == w.start + 1800;
  }

  lemma TilesTail(text: string, windows: seq<Window>, start: nat)
    requires Tiles(text, windows, start) && Breaks(text, windows) && |windows| > 1
    ensures start < |text| && windows[0].end - CHUNK_OVERLAP <= |text|
    ensures Tiles(text, windows[1..], windows[0].end - CHUNK_OVERLAP) && Breaks(text, windows[1..])
  {
    var rest := windows[1..];
    assert AtBreak(text, windows[0]) && Joined(windows[0], windows[1]);
    forall i, j | 0 <= i < j < |rest| && j == i + 1 ensures Joined(rest[i], rest[j]) {
      assert Joined(windows[i + 1], windows[j + 1]);
    }
    forall k | 0 <= k < |rest| - 1 ensures AtBreak(text, rest[k]) {
      assert AtBreak(text, windows[k + 1]);
    }
    assert Fits(text, rest[0]) && rest[0].start == windows[0].end - CHUNK_OVERLAP;
  }

  /** Tiling the text with windows that break so can be done in one way only. */
  lemma {:induction false} OneTiling(text: string, v: seq<Window>, w: seq<Window>, start: nat)
    requires Tiles(text, v, start) && Breaks(text, v)
    requires Tiles(text, w, start) && Breaks(text, w)
    ensures v == w
    decreases |v|
  {
    if v != [] {
      assert Fits(text, v[0]) && Fits(text, w[0]);
      assert |v| > 1 ==> AtBreak(text, v[0]);
      assert |w| > 1 ==> AtBreak(text, w[0]);
      if |v| > 1 {
        BreakUnique(text, v[0], w[0]);
        TilesTail(text, v, start);
        TilesTail(text, w, start);
        OneTiling(text, v[1..], w[1..], v[0].end - CHUNK_OVERLAP);
      }
    }
  }

  /** The windows are the one tiling of the text that breaks so. */
  lemma WindowsExactly(text: string, windows: seq<Window>)
    ensures windows == Windows(text, 0) <==> Tiles(text, windows, 0) && Breaks(text, windows)
  {
    WindowsTile(text, 0);
    WindowsBreak(text, 0);
    if Tiles(text, windows, 0) && Breaks(text, windows) {
      OneTiling(text, windows, Windows(text, 0), 0);
    }
  }

  predicate Holds(w: Window, p: nat) {
    w.start <= p < w.end
  }

  /** Every position is in some window. */
  lemma {:induction false} TilingCovers(text: string, windows: seq<Window>, start: nat, p: nat)
    requires Tiles(text, windows, start) && start <= p < |text|
    ensures exists w | w in windows :: Holds(w, p)
  {
    if Holds(windows[0], p) {
      assert windows[0] in windows;
    } else {
      var rest := windows[1..];
      assert |windows| > 1 && Joined(windows[0], windows[1]);
      forall i, j | 0 <= i < j < |rest| && j == i + 1 ensures Joined(rest[i], rest[j]) {
        assert Joined(windows[i + 1], windows[j + 1]);
      }
      TilingCovers(text, rest, windows[1].start, p);
      var w :| w in rest && Holds(w, p);
      assert w in windows;
    }
  }

  /** No position is in three: windows two apart are disjoint. */
  lemma {:induction false} TwoApartDisjoint(text: string, windows: seq<Window>, start: nat, i: nat, j: nat)
    requires Tiles(text, windows, start) && i + 2 <= j < |windows|
    ensures windows[i].end < windows[j].start
  {
    assert Joined(windows[i], windows[i + 1]) && Joined(windows[j - 1], windows[j]);
    if j == i + 2 {
    } else {
      TwoApartDisjoint(text, windows, start, i, j - 1);
    }
  }

  // ----- the chunks

  function LineFeeds(s: string): nat {
    if s == "" then 0 else LineFeeds(s[..|s| - 1]) + if s[|s| - 1] == '\n' then 1 else 0
  }

  lemma {:induction false} LineFeedsCount(s: string)
    ensures LineFeeds(s) == |set i | 0 <= i < |s| && s[i] == '\n'|
  {
    if s != "" {
      var front := s[..|s| - 1];
      LineFeedsCount(front);
      var were := set i | 0 <= i < |front| && front[i] == '\n';
      assert (set i | 0 <= i < |s| && s[i] == '\n') == were + if s[|front|] == '\n' then {|front|} else {};
    }
  }

  lemma {:induction false} LineFeedsAdd(a: string, b: string)
    ensures LineFeeds(a + b) == LineFeeds(a) + LineFeeds(b)
  {
    if b == "" {
      assert a + b == a;
    } else {
      assert (a + b)[..|a + b| - 1] == a + b[..|b| - 1];
      LineFeedsAdd(a, b[..|b| - 1]);
    }
  }

  /** The windows that hold anything but whitespace, in order. */
  function NonBlank(text: string, windows: seq<Window>): seq<Window>
    requires AllFit(text, windows)
  {
    if windows == [] then []
    else
      var last := windows[|windows| - 1];
      assert last in windows;
      var front := NonBlank(text, windows[..|windows| - 1]);
      if Blank(text[last.start..last.end]) then front else front + [last]
  }

  /** A chunk is its window's true slice with the paragraph numbers of its two ends. */
  predicate ChunkOf(text: string, chunk: Chunk, ordinal: nat, w: Window) {
    && Fits(text, w)
    && chunk == Chunk(ordinal, w.start, w.end, LineFeeds(text[..w.start]), LineFeeds(text[..w.end]),
                      text[w.start..w.end])
  }

  predicate ChunksOf(text: string, chunks: seq<Chunk>, windows: seq<Window>) {
    |chunks| == |windows| && forall i | 0 <= i < |chunks| :: ChunkOf(text, chunks[i], i, windows[i])
  }

  lemma EmitWindow(text: string, out: seq<Chunk>, passed: seq<Window>, w: Window, chunk: Chunk)
    requires AllFit(text, passed) && Fits(text, w) && ChunksOf(text, out, NonBlank(text, passed))
    requires ChunkOf(text, chunk, |out|, w)
    ensures AllFit(text, passed + [w])
    ensures ChunksOf(text, if Blank(text[w.start..w.end]) then out else out + [chunk], NonBlank(text, passed + [w]))
  {
    assert (passed + [w])[..|passed + [w]| - 1] == passed;
  }

  /** The windows passed so far, and from `start` those to come, are all the windows. */
  ghost predicate Passed(text: string, passed: seq<Window>, start: nat) {
    start <= |text| && passed + Windows(text, start) == Windows(text, 0)
  }

  lemma PassWindow(text: string, passed: seq<Window>, start: nat, w: Window)
    requires Passed(text, passed, start) && start < |text| && w == Window(start, WindowEnd(text, start))
    ensures w.end == |text| ==> passed + [w] == Windows(text, 0)
    ensures w.end < |text| ==> Passed(text, passed + [w], w.end - CHUNK_OVERLAP)
  {
    if w.end < |text| {
      var rest := Windows(text, w.end - CHUNK_OVERLAP);
      assert passed + [w] + rest == passed + ([w] + rest);
    }
  }

  /** Exactly the windows that are not blank, with consecutive ordinals. */
  method ChunkText(text: string) returns (out: seq<Chunk>)
    ensures ChunksOf(text, out, NonBlank(text, Windows(text, 0)))
  {
    out := [];
    var start := 0;
    ghost var passed: seq<Window> := [];
    ghost var done := text == "";
    while start < |text|
      invariant start <= |text|
      invariant if done then passed == Windows(text, 0) else Passed(text, passed, start)
      invariant done <==> start == |text|
      invariant AllFit(text, passed) && ChunksOf(text, out, NonBlank(text, passed))
      decreases |text| - start
    {
      var end := WindowEnd(text, start);
      var value := text[start..end];
      var paragraphStart := LineFeeds(text[..start]);
      var paragraphEnd := paragraphStart + LineFeeds(value);
      var chunk := Chunk(|out|, start, end, paragraphStart, paragraphEnd, value);
      SliceLineFeeds(text, start, end);
      PassWindow(text, passed, start, Window(start, end));
      EmitWindow(text, out, passed, Window(start, end), chunk);
      passed := passed + [Window(start, end)];
      if !Blank(value) {
        out := out + [chunk];
      }
      if end == |text| {
        break;
      }
      var back := if end < CHUNK_OVERLAP then 0 else end - CHUNK_OVERLAP;
      start := if back < start + 1 then start + 1 else back;
    }
  }

  lemma SliceLineFeeds(text: string, start: nat, end: nat)
    requires start <= end <= |text|
    ensures LineFeeds(text[..start]) + LineFeeds(text[start..end]) == LineFeeds(text[..end])
  {
    assert text[..start] + text[start..end] == text[..end];
    LineFeedsAdd(text[..start], text[start..end]);
  }

  lemma {:induction false} NonBlankMember(text: string, windows: seq<Window>, w: Window)
    requires AllFit(text, windows)
    ensures w in NonBlank(text, windows) <==> w in windows && !Blank(text[w.start..w.end])
  {
    if windows == [] {
    } else {
      var front, last := windows[..|windows| - 1], windows[|windows| - 1];
      assert windows == front + [last];
      NonBlankMember(text, front, w);
    }
  }

  /** The windows kept stay in order. */
  lemma {:induction false} NonBlankInOrder(text: string, windows: seq<Window>)
    requires AllFit(text, windows) && forall i, j | 0 <= i < j < |windows| :: windows[i].start < windows[j].start
    ensures forall i, j | 0 <= i < j < |NonBlank(text, windows)| ::
              NonBlank(text, windows)[i].start < NonBlank(text, windows)[j].start
  {
    if windows != [] {
      var front, last := windows[..|windows| - 1], windows[|windows| - 1];
      NonBlankInOrder(text, front);
      forall w | w in NonBlank(text, front) ensures w.start < last.start {
        NonBlankMember(text, front, w);
        var i :| 0 <= i < |front| && front[i] == w;
        assert windows[i].start < windows[|windows| - 1].start;
      }
    }
  }

  lemma {:induction false} StartsRise(text: string, windows: seq<Window>, start: nat, i: nat, j: nat)
    requires Tiles(text, windows, start) && i < j < |windows|
    ensures windows[i].start < windows[j].start
  {
    assert Joined(windows[j - 1], windows[j]);
    if i < j - 1 { StartsRise(text, windows, start, i, j - 1); }
  }

  /** The chunks are in the order of the text and numbered from 0. */
  lemma ChunksInOrder(text: string, chunks: seq<Chunk>)
    requires ChunksOf(text, chunks, NonBlank(text, Windows(text, 0)))
    ensures forall i, j | 0 <= i < j < |chunks| :: chunks[i].start < chunks[j].start
    ensures forall i | 0 <= i < |chunks| :: chunks[i].ordinal == i
  {
    var windows := Windows(text, 0);
    WindowsTile(text, 0);
    forall i, j | 0 <= i < j < |windows| ensures windows[i].start < windows[j].start {
      StartsRise(text, windows, 0, i, j);
    }
    NonBlankInOrder(text, windows);
    forall i | 0 <= i < |chunks| ensures ChunkOf(text, chunks[i], i, NonBlank(text, windows)[i]) {
    }
  }

  predicate Carries(c: Chunk, text: string, p: nat) {
    c.start <= p < c.end && c.end - c.start == |c.text| && p < |text| && c.text[p - c.start] == text[p]
  }

  lemma KeptWindowHolds(text: string, windows: seq<Window>, p: nat)
    requires Tiles(text, windows, 0) && p < |text| && !IsWhitespace(text[p])
    ensures exists w | w in NonBlank(text, windows) :: Holds(w, p)
  {
    TilingCovers(text, windows, 0, p);
    var w :| w in windows && Holds(w, p);
    assert text[w.start..w.end][p - w.start] == text[p];
    NonBlankMember(text, windows, w);
  }

  lemma ChunkCarries(text: string, chunks: seq<Chunk>, kept: seq<Window>, w: Window, p: nat)
    requires ChunksOf(text, chunks, kept) && w in kept && Holds(w, p)
    ensures exists c | c in chunks :: Carries(c, text, p)
  {
    var k :| 0 <= k < |kept| && kept[k] == w;
    assert ChunkOf(text, chunks[k], k, w);
    assert text[w.start..w.end][p - w.start] == text[p];
    assert chunks[k] in chunks && Carries(chunks[k], text, p);
  }

  /** Chunking drops whitespace only: every other character is in a chunk, at its place. */
  lemma NothingLost(text: string, chunks: seq<Chunk>, windows: seq<Window>, p: nat)
    requires windows == Windows(text, 0) && ChunksOf(text, chunks, NonBlank(text, windows))
    requires p < |text| && !IsWhitespace(text[p])
    ensures exists c | c in chunks :: Carries(c, text, p)
  {
    WindowsTile(text, 0);
    KeptWindowHolds(text, windows, p);
    var kept := NonBlank(text, windows);
    var w :| w in kept && Holds(w, p);
    ChunkCarries(text, chunks, kept, w, p);
  }

  lemma {:induction false} BlankKeepsNone(text: string, windows: seq<Window>)
    requires AllFit(text, windows) && Blank(text)
    ensures NonBlank(text, windows) == []
  {
    if windows != [] {
      var w := windows[|windows| - 1];
      assert w in windows && Blank(text[w.start..w.end]);
      BlankKeepsNone(text, windows[..|windows| - 1]);
    }
  }

  /** A text has no chunks exactly when it is blank, the case the caller reports as an error. */
  lemma NoChunksWhenBlank(text: string, chunks: seq<Chunk>, windows: seq<Window>)
    requires windows == Windows(text, 0) && ChunksOf(text, chunks, NonBlank(text, windows))
    ensures chunks == [] <==> Blank(text)
  {
    if Blank(text) {
      BlankKeepsNone(text, windows);
    } else {
      var p :| 0 <= p < |text| && !IsWhitespace(text[p]);
      NothingLost(text, chunks, windows, p);
    }
  }
}
