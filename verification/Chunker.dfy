/** buildChunks of scripts/lib/knowledge-ingestion-pipeline.ts: overlapping windows over a document. */
module Chunker {
  import opened Outcomes
  import opened JsStrings
  import opened Knowledge

  datatype Window = Window(start: nat, end: nat)

  function Min(a: nat, b: nat): nat {
    if a <= b then a else b
  }

  predicate ValidOptions(maxChunkSize: int, overlap: int) {
    maxChunkSize > 0 && 0 <= overlap < maxChunkSize
  }

  /** The windows that the loop visits from `start` on. */
  function WindowsFrom(n: nat, size: nat, step: nat, start: nat): (w: seq<Window>)
    requires 0 < step <= size && start < n
    ensures |w| > 0 && w[0] == Window(start, Min(start + size, n))
    decreases n - start
  {
    var end := Min(start + size, n);
    [Window(start, end)] + if end >= n then [] else WindowsFrom(n, size, step, start + step)
  }

  function Windows(n: nat, size: nat, overlap: nat): seq<Window>
    requires overlap < size
  {
    if n == 0 then [] else WindowsFrom(n, size, size - overlap, 0)
  }

  function MakeChunk(document: Document, sequence: nat, text: string, w: Window): Chunk {
    Chunk(ChunkId(document.documentId, document.version, sequence, text), document.documentId,
          document.organizationId, document.version, sequence, text, w.start, w.end)
  }

  ghost predicate Inside(w: Window, content: string) {
    w.start < w.end <= |content|
  }

  ghost predicate AllInside(windows: seq<Window>, content: string) {
    forall i :: 0 <= i < |windows| ==> Inside(windows[i], content)
  }

  /** The chunks of a list of windows: trimmed, blank ones dropped, numbered as they come. */
  function ChunksOf(document: Document, windows: seq<Window>): (chunks: seq<Chunk>)
    requires AllInside(windows, document.content)
  {
    if windows == [] then []
    else
      var front, w := ChunksOf(document, windows[..|windows| - 1]), windows[|windows| - 1];
      assert Inside(w, document.content);
      var text := Trim(document.content[w.start..w.end]);
      if text == "" then front else front + [MakeChunk(document, |front|, text, w)]
  }

  lemma {:induction false} WindowsInside(n: nat, size: nat, step: nat, start: nat)
    requires 0 < step <= size && start < n
    ensures forall i :: 0 <= i < |WindowsFrom(n, size, step, start)| ==>
              var w := WindowsFrom(n, size, step, start)[i]; w.start < w.end <= n && w.end - w.start <= size
    decreases n - start
  {
    if start + size < n {
      WindowsInside(n, size, step, start + step);
    }
  }

  /** What buildChunks returns; None is a refused pair of options. */
  function Chunks(document: Document, maxChunkSize: int, overlap: int): (chunks: Option<seq<Chunk>>) {
    if !ValidOptions(maxChunkSize, overlap) then None
    else if document.content == "" then Some([])
    else
      var windows := Windows(|document.content|, maxChunkSize, overlap);
      WindowsInside(|document.content|, maxChunkSize, maxChunkSize - overlap, 0);
      Some(ChunksOf(document, windows))
  }

  lemma NoWindowYet(document: Document)
    ensures AllInside([], document.content) && ChunksOf(document, []) == []
  {
  }

  lemma ChunksUnfold(document: Document, size: int, overlap: int)
    ensures !ValidOptions(size, overlap) ==> Chunks(document, size, overlap) == None
    ensures ValidOptions(size, overlap) && document.content == "" ==> Chunks(document, size, overlap) == Some([])
    ensures ValidOptions(size, overlap) && document.content != "" ==>
              var windows := WindowsFrom(|document.content|, size, size - overlap, 0);
              && AllInside(windows, document.content)
              && Chunks(document, size, overlap) == Some(ChunksOf(document, windows))
  {
    if ValidOptions(size, overlap) && document.content != "" {
      WindowsInside(|document.content|, size, size - overlap, 0);
    }
  }

  lemma FirstWindow(n: nat, size: nat, step: nat, start: nat)
    requires 0 < step <= size && start < n
    ensures WindowsFrom(n, size, step, start) ==
              if start + size < n then [Window(start, start + size)] + WindowsFrom(n, size, step, start + step)
              else [Window(start, n)]
  {
  }

  /** Moving the loop's current window from the ones to come to the ones seen. */
  lemma WindowSeen(all: seq<Window>, seen: seq<Window>, n: nat, size: nat, step: nat, start: nat)
    requires 0 < step <= size && start < n
    requires all == seen + WindowsFrom(n, size, step, start)
    ensures var w := Window(start, Min(start + size, n));
            if start + size < n then all == (seen + [w]) + WindowsFrom(n, size, step, start + step) else all == seen + [w]
  {
    FirstWindow(n, size, step, start);
    hide WindowsFrom;
    if start + size < n {
      Regroup(seen, Window(start, start + size), WindowsFrom(n, size, step, start + step));
    }
  }

  lemma Regroup(seen: seq<Window>, w: Window, rest: seq<Window>)
    ensures seen + ([w] + rest) == (seen + [w]) + rest
  {
  }

  lemma {:induction false} NextWindow(document: Document, seen: seq<Window>, w: Window)
    requires Inside(w, document.content)
    requires AllInside(seen, document.content)
    ensures AllInside(seen + [w], document.content)
    ensures var text := Trim(document.content[w.start..w.end]);
            var front := ChunksOf(document, seen);
            ChunksOf(document, seen + [w]) == if text == "" then front else front + [MakeChunk(document, |front|, text, w)]
  {
    hide Trim;
    assert (seen + [w])[..|seen|] == seen;
  }

  method BuildChunks(document: Document, maxChunkSize: int, overlap: int) returns (chunks: Option<seq<Chunk>>)
    ensures chunks == Chunks(document, maxChunkSize, overlap)
  {
    hide Trim, MakeChunk, ChunksOf, WindowsFrom, Windows, Chunks, AllInside;
    ChunksUnfold(document, maxChunkSize, overlap);
    if maxChunkSize <= 0 || overlap < 0 || overlap >= maxChunkSize {
      return None;
    }
    var content := document.content;
    if |content| == 0 {
      return Some([]);
    }
    var step := maxChunkSize - overlap;
    var output: seq<Chunk> := [];
    var start, sequence := 0, 0;
    NoWindowYet(document);
    ghost var all := WindowsFrom(|content|, maxChunkSize, step, 0);
    ghost var seen: seq<Window> := [];
    assert [] + all == all;
    while start < |content|
      invariant start < |content| && sequence == |output|
      invariant all == seen + WindowsFrom(|content|, maxChunkSize, step, start)
      invariant AllInside(seen, content)
      invariant output == ChunksOf(document, seen)
      decreases |content| - start
    {
      var end := Min(start + maxChunkSize, |content|);
      var text := Trim(content[start..end]);
      var w := Window(start, end);
      NextWindow(document, seen, w);
      WindowSeen(all, seen, |content|, maxChunkSize, step, start);
      if |text| > 0 {
        output := output + [MakeChunk(document, sequence, text, w)];
        sequence := sequence + 1;
      }
      seen := seen + [w];
      if end >= |content| {
        break;
      }
      start := start + step;
    }
    chunks := Some(output);
  }

  // ---------------------------------------------------------------- the windows

  /** The quotient rounded up: the least q with a <= q * b. */
  ghost function CeilDiv(a: nat, b: nat): (q: nat)
    requires b > 0
    ensures a <= q * b < a + b
    decreases a
  {
    if a == 0 then 0 else 1 + CeilDiv(if a >= b then a - b else 0, b)
  }

  lemma {:induction false} WindowCountFrom(n: nat, size: nat, step: nat, start: nat)
    requires 0 < step <= size && start < n
    ensures |WindowsFrom(n, size, step, start)| == 1 + CeilDiv(if n - start > size then n - start - size else 0, step)
    decreases n - start
  {
    var rest: nat := if n - start > size then n - start - size else 0;
    if start + size < n {
      WindowCountFrom(n, size, step, start + step);
    }
  }

  /** One window, and one more for each further step that the content needs. */
  lemma WindowCount(n: nat, size: nat, overlap: nat)
    requires overlap < size && n > 0
    ensures |Windows(n, size, overlap)| == 1 + CeilDiv(if n > size then n - size else 0, size - overlap)
  {
    WindowCountFrom(n, size, size - overlap, 0);
  }

  /** Window text after window text, each later one without its first `overlap` characters. */
  function Stitch(content: string, windows: seq<Window>, overlap: nat): string
    requires AllInside(windows, content)
  {
    if windows == [] then ""
    else
      var front, w := Stitch(content, windows[..|windows| - 1], overlap), windows[|windows| - 1];
      assert Inside(w, content);
      if |windows| == 1 then content[w.start..w.end]
      else if w.start + overlap <= w.end then front + content[w.start + overlap..w.end]
      else front
  }

  /** Each window begins `shared` characters before the end of the one before it, and reaches further. */
  ghost predicate Chained(w: seq<Window>, shared: int) {
    forall i :: 0 <= i < |w| - 1 ==> w[i + 1].start + shared == w[i].end < w[i + 1].end
  }

  lemma ChainedCons(first: Window, rest: seq<Window>, shared: int)
    requires rest != [] && Chained(rest, shared) && rest[0].start + shared == first.end < rest[0].end
    ensures Chained([first] + rest, shared)
  {
    var w := [first] + rest;
    forall i | 0 <= i < |w| - 1 ensures w[i + 1].start + shared == w[i].end < w[i + 1].end {
      if i > 0 {
        assert w[i] == rest[i - 1] && w[i + 1] == rest[i];
      }
    }
  }

  /** Neighbouring windows share exactly `overlap` characters; the last one reaches the end. */
  lemma {:induction false} WindowsOverlap(n: nat, size: nat, step: nat, start: nat)
    requires 0 < step <= size && start < n
    ensures var w := WindowsFrom(n, size, step, start); Chained(w, size - step) && w[|w| - 1].end == n
    decreases n - start
  {
    hide WindowsFrom, Chained;
    FirstWindow(n, size, step, start);
    if start + size < n {
      WindowsOverlap(n, size, step, start + step);
      ChainedCons(Window(start, start + size), WindowsFrom(n, size, step, start + step), size - step);
    } else {
      ChainedOne(Window(start, n), size - step);
    }
  }

  lemma ChainedOne(w: Window, shared: int)
    ensures Chained([w], shared)
  {
  }

  lemma StitchUnfold(content: string, windows: seq<Window>, overlap: nat)
    requires |windows| > 1 && AllInside(windows, content)
    ensures AllInside(windows[..|windows| - 1], content)
    ensures var w := windows[|windows| - 1];
            w.start + overlap <= w.end ==>
              Stitch(content, windows, overlap) ==
                Stitch(content, windows[..|windows| - 1], overlap) + content[w.start + overlap..w.end]
  {
  }

  lemma {:induction false} StitchPrefix(content: string, windows: seq<Window>, overlap: nat)
    requires |windows| > 0 && windows[0].start == 0
    requires AllInside(windows, content) && Chained(windows, overlap)
    ensures Stitch(content, windows, overlap) == content[..windows[|windows| - 1].end]
  {
    var n := |windows| - 1;
    if n > 0 {
      forall i | 0 <= i < n - 1 ensures windows[..n][i + 1].start + overlap == windows[..n][i].end < windows[..n][i + 1].end {
        assert windows[i + 1].start + overlap == windows[i].end < windows[i + 1].end;
      }
      StitchPrefix(content, windows[..n], overlap);
      hide Stitch;
      assert windows[n - 1 + 1].start + overlap == windows[n - 1].end < windows[n - 1 + 1].end;
      StitchUnfold(content, windows, overlap);
      assert content[..windows[n].end] == content[..windows[n - 1].end] + content[windows[n - 1].end..windows[n].end];
    }
  }

  /** Dropping the first `overlap` characters of each later window gives the content back. */
  lemma WindowsReassemble(content: string, size: nat, overlap: nat)
    requires overlap < size && content != ""
    ensures AllInside(Windows(|content|, size, overlap), content)
    ensures Stitch(content, Windows(|content|, size, overlap), overlap) == content
  {
    hide WindowsFrom, Stitch, Chained;
    var windows := Windows(|content|, size, overlap);
    FirstWindow(|content|, size, size - overlap, 0);
    WindowsInside(|content|, size, size - overlap, 0);
    WindowsOverlap(|content|, size, size - overlap, 0);
    StitchPrefix(content, windows, overlap);
    assert content[..|content|] == content;
  }

  /** Every position lies in some window. */
  lemma {:induction false} WindowOf(n: nat, size: nat, step: nat, start: nat, p: nat) returns (i: nat)
    requires 0 < step <= size && start <= p < n
    ensures i < |WindowsFrom(n, size, step, start)|
    ensures var w := WindowsFrom(n, size, step, start)[i]; w.start <= p < w.end
    decreases n - start
  {
    if p < Min(start + size, n) {
      i := 0;
    } else {
      var j := WindowOf(n, size, step, start + step, p);
      i := j + 1;
    }
  }

  // ---------------------------------------------------------------- the chunks

  /** A chunk's text is a stretch of its window, without blank ends, and holds position p. */
  ghost predicate Holds(c: Chunk, content: string, p: nat) {
    exists from: nat :: StretchAt(c, content, from) && from <= p < from + |c.text|
  }

  ghost predicate StretchAt(c: Chunk, content: string, from: nat) {
    c.start <= from && from + |c.text| <= c.end <= |content| && content[from..from + |c.text|] == c.text
  }

  /** The section that a chunk names is a window of the walk, and its text is that window's, trimmed. */
  ghost predicate FromWindow(c: Chunk, content: string, size: nat, overlap: nat)
    requires overlap < size
  {
    && c.start < |content| && c.end == Min(c.start + size, |content|) && IsMultiple(c.start, size - overlap)
    && c.text == Trim(content[c.start..c.end])
  }

  ghost predicate WellFormed(c: Chunk, document: Document, i: nat, size: nat) {
    && c.sequence == i && 1 <= |c.text| <= size
    && c.chunkId == ChunkId(document.documentId, document.version, i, c.text)
    && c.documentId == document.documentId && c.version == document.version && c.organizationId == document.organizationId
    && exists from: nat :: StretchAt(c, document.content, from)
  }

  lemma SliceOfSlice(s: string, a: nat, b: nat, from: nat, to: nat)
    requires a <= b <= |s| && from <= to <= b - a
    ensures s[a + from..a + to] == s[a..b][from..to]
  {
    assert forall k :: from <= k < to ==> s[a..b][k] == s[a + k];
  }

  lemma TrimmedWindow(document: Document, w: Window, sequence: nat, size: nat)
    requires Inside(w, document.content) && w.end - w.start <= size
    requires Trim(document.content[w.start..w.end]) != ""
    ensures var c := MakeChunk(document, sequence, Trim(document.content[w.start..w.end]), w);
            && WellFormed(c, document, sequence, size)
            && forall p :: w.start <= p < w.end && !IsSpace(document.content[p]) ==> Holds(c, document.content, p)
  {
    hide Trim, IsSpace;
    var window := document.content[w.start..w.end];
    var from, to := TrimIsStretch(window);
    var c := MakeChunk(document, sequence, Trim(window), w);
    SliceOfSlice(document.content, w.start, w.end, from, to);
    assert StretchAt(c, document.content, w.start + from);
    forall p | w.start <= p < w.end && !IsSpace(document.content[p]) ensures Holds(c, document.content, p) {
      assert window[p - w.start] == document.content[p];
    }
  }

  /** Chunks are numbered by position and each is a trimmed stretch of its window. */
  lemma {:induction false} ChunksAreSound(document: Document, windows: seq<Window>, size: nat)
    requires AllInside(windows, document.content) && forall i :: 0 <= i < |windows| ==> windows[i].end - windows[i].start <= size
    ensures var chunks := ChunksOf(document, windows);
            && (forall i :: 0 <= i < |chunks| ==> WellFormed(chunks[i], document, i, size))
            && |chunks| <= |windows|
  {
    hide Trim, WellFormed, MakeChunk, ChunksOf;
    NoWindowYet(document);
    if windows != [] {
      var n := |windows| - 1;
      var w := windows[n];
      SplitLast(windows);
      assert Inside(w, document.content);
      NextWindow(document, windows[..n], w);
      ChunksAreSound(document, windows[..n], size);
      if Trim(document.content[w.start..w.end]) != "" {
        TrimmedWindow(document, w, |ChunksOf(document, windows[..n])|, size);
      }
    }
  }

  lemma {:induction false} ChunkFor(document: Document, windows: seq<Window>, size: nat, k: nat, p: nat) returns (c: nat)
    requires AllInside(windows, document.content) && forall i :: 0 <= i < |windows| ==> windows[i].end - windows[i].start <= size
    requires k < |windows| && Inside(windows[k], document.content) && windows[k].start <= p < windows[k].end
    requires !IsSpace(document.content[p])
    ensures c < |ChunksOf(document, windows)| && Holds(ChunksOf(document, windows)[c], document.content, p)
  {
    hide Trim, Holds, WellFormed;
    var n := |windows| - 1;
    if k < n {
      c := ChunkFor(document, windows[..n], size, k, p);
    } else {
      var w := windows[n];
      VisibleSurvivesTrim(document.content, w, p);
      TrimmedWindow(document, w, |ChunksOf(document, windows[..n])|, size);
      c := |ChunksOf(document, windows[..n])|;
    }
  }

  lemma VisibleSurvivesTrim(content: string, w: Window, p: nat)
    requires Inside(w, content) && w.start <= p < w.end && !IsSpace(content[p])
    ensures Trim(content[w.start..w.end]) != ""
  {
    hide Trim, IsSpace;
    var from, to := TrimIsStretch(content[w.start..w.end]);
    assert content[w.start..w.end][p - w.start] == content[p];
  }

  /** For every admissible pair of options: chunks are numbered 0, 1, 2, ... and are 1 to maxChunkSize characters long. */
  lemma {:induction false} ChunksAreWellFormed(document: Document, size: int, overlap: int)
    requires ValidOptions(size, overlap)
    ensures Chunks(document, size, overlap).Some?
    ensures var chunks := Chunks(document, size, overlap).value;
            forall i :: 0 <= i < |chunks| ==> WellFormed(chunks[i], document, i, size)
  {
    var n := |document.content|;
    if n > 0 {
      hide ChunksOf, WellFormed;
      WindowsInside(n, size, size - overlap, 0);
      ChunksAreSound(document, Windows(n, size, overlap), size);
    }
  }

  /** Together they hold every visible position of the content. */
  lemma {:induction false} ChunksCoverContent(document: Document, size: int, overlap: int)
    requires ValidOptions(size, overlap)
    ensures Chunks(document, size, overlap).Some?
    ensures var chunks := Chunks(document, size, overlap).value;
            forall p :: 0 <= p < |document.content| && !IsSpace(document.content[p]) ==>
              exists i :: 0 <= i < |chunks| && Holds(chunks[i], document.content, p)
  {
    var n := |document.content|;
    if n > 0 {
      hide ChunksOf, Holds;
      WindowsInside(n, size, size - overlap, 0);
      var windows := Windows(n, size, overlap);
      forall p | 0 <= p < n && !IsSpace(document.content[p])
        ensures exists i :: 0 <= i < |ChunksOf(document, windows)| && Holds(ChunksOf(document, windows)[i], document.content, p)
      {
        var k := WindowOf(n, size, size - overlap, 0, p);
        var c := ChunkFor(document, windows, size, k, p);
      }
    }
  }

  ghost predicate Multiple(a: int, k: nat, step: int) {
    a == k * step
  }

  ghost predicate IsMultiple(a: int, step: int) {
    exists k: nat :: Multiple(a, k, step)
  }

  lemma NextMultiple(start: nat, k: nat, step: nat)
    requires Multiple(start, k, step)
    ensures Multiple(start + step, k + 1, step)
  {
  }

  /** The i-th window from the k-th multiple of the step on starts at multiple k + i and ends a size later, or with the text. */
  lemma {:induction false} WindowAt(n: nat, size: nat, step: nat, start: nat, k: nat, i: nat)
    requires 0 < step <= size && start < n && Multiple(start, k, step) && i < |WindowsFrom(n, size, step, start)|
    ensures var w := WindowsFrom(n, size, step, start)[i];
            w.start < n && w.end == Min(w.start + size, n) && Multiple(w.start, k + i, step)
    decreases n - start
  {
    hide WindowsFrom, Multiple;
    FirstWindow(n, size, step, start);
    if i > 0 {
      NextMultiple(start, k, step);
      WindowAt(n, size, step, start + step, k + 1, i - 1);
    }
  }

  lemma {:induction false} ChunksHaveWindows(document: Document, windows: seq<Window>)
    requires AllInside(windows, document.content)
    ensures forall i :: 0 <= i < |ChunksOf(document, windows)| ==>
              exists k :: 0 <= k < |windows| && OfWindow(ChunksOf(document, windows)[i], windows[k], document.content)
  {
    hide Trim, ChunksOf, OfWindow, AllInside;
    NoWindowYet(document);
    if windows != [] {
      var n := |windows| - 1;
      SplitLast(windows);
      InsideParts(windows, document.content);
      NextWindow(document, windows[..n], windows[n]);
      ChunksHaveWindows(document, windows[..n]);
      MadeOfWindow(document, |ChunksOf(document, windows[..n])|, windows[n]);
      forall i | 0 <= i < |ChunksOf(document, windows)|
        ensures exists k :: 0 <= k < |windows| && OfWindow(ChunksOf(document, windows)[i], windows[k], document.content)
      {
        if i < |ChunksOf(document, windows[..n])| {
          var k :| 0 <= k < n && OfWindow(ChunksOf(document, windows[..n])[i], windows[..n][k], document.content);
          assert windows[..n][k] == windows[k];
        }
      }
    }
  }

  ghost predicate OfWindow(c: Chunk, w: Window, content: string) {
    Inside(w, content) && c.start == w.start && c.end == w.end && c.text == Trim(content[w.start..w.end])
  }

  lemma InsideParts(windows: seq<Window>, content: string)
    requires windows != [] && AllInside(windows, content)
    ensures AllInside(windows[..|windows| - 1], content) && Inside(windows[|windows| - 1], content)
  {
  }

  lemma MadeOfWindow(document: Document, sequence: nat, w: Window)
    requires Inside(w, document.content)
    ensures OfWindow(MakeChunk(document, sequence, Trim(document.content[w.start..w.end]), w), w, document.content)
  {
    hide Trim;
  }

  /** Every chunk names its window as its section, and holds that window's text without outer white space. */
  lemma ChunksNameTheirWindows(document: Document, size: int, overlap: int)
    requires ValidOptions(size, overlap)
    ensures Chunks(document, size, overlap).Some?
    ensures forall i :: 0 <= i < |Chunks(document, size, overlap).value| ==>
              FromWindow(Chunks(document, size, overlap).value[i], document.content, size, overlap)
  {
    ChunksUnfold(document, size, overlap);
    hide Chunks, ChunksOf, Trim, AllInside, WindowsFrom;
    var n := |document.content|;
    if n > 0 {
      var windows := WindowsFrom(n, size, size - overlap, 0);
      forall k | 0 <= k < |windows|
        ensures windows[k].start < n && windows[k].end == Min(windows[k].start + size, n) && IsMultiple(windows[k].start, size - overlap)
      {
        WindowAt(n, size, size - overlap, 0, 0, k);
      }
      ChunksHaveWindows(document, windows);
    }
  }

  /** A document that starts with something visible has a chunk. */
  lemma VisibleDocumentHasChunk(document: Document, size: int, overlap: int)
    requires ValidOptions(size, overlap)
    requires document.content != "" && !IsSpace(document.content[0])
    ensures Chunks(document, size, overlap).Some? && |Chunks(document, size, overlap).value| > 0
  {
    ChunksCoverContent(document, size, overlap);
  }
}
