/**
 * normalizeWhitespace of scripts/lib/knowledge-ingestion-pipeline.ts: one line-ending
 * style, no trailing blanks, at most one blank line in a row, no outer white space.
 */
module Normalizer {
  import opened Outcomes
  import opened JsStrings

  const CR := '\r'
  const LF := '\n'

  // ---------------------------------------------------------------- the steps

  /** Every CRLF pair and every lone CR becomes LF. */
  function UnifyLineEndings(s: string): (t: string)
    ensures CR !in t
  {
    if s == "" then ""
    else if s[0] == CR then
      if |s| > 1 && s[1] == LF then [LF] + UnifyLineEndings(s[2..]) else [LF] + UnifyLineEndings(s[1..])
    else [s[0]] + UnifyLineEndings(s[1..])
  }

  /** Split at LF; the pieces hold no LF. */
  function Lines(s: string): (lines: seq<string>)
    ensures |lines| > 0 && forall i :: 0 <= i < |lines| ==> LF !in lines[i]
  {
    if s == "" then [""]
    else
      var rest := Lines(s[1..]);
      if s[0] == LF then [""] + rest else [[s[0]] + rest[0]] + rest[1..]
  }

  function Join(lines: seq<string>): string
    requires |lines| > 0
  {
    if |lines| == 1 then lines[0] else lines[0] + [LF] + Join(lines[1..])
  }

  function TrimLines(lines: seq<string>): (r: seq<string>)
    ensures |r| == |lines| && forall i :: 0 <= i < |r| ==> r[i] == TrimEnd(lines[i])
  {
    seq(|lines|, i requires 0 <= i < |lines| => TrimEnd(lines[i]))
  }

  /** Of each run of empty lines only the first is kept. */
  function Collapse(lines: seq<string>): (r: seq<string>) {
    if lines == [] then []
    else
      var front, last := Collapse(lines[..|lines| - 1]), lines[|lines| - 1];
      if last == "" && |lines| > 1 && lines[|lines| - 2] == "" then front else front + [last]
  }

  function NormalizeWhitespace(input: string): string {
    var kept := Collapse(TrimLines(Lines(UnifyLineEndings(input))));
    if kept == [] then "" else Trim(Join(kept))
  }

  /** The collapsing loop with its run counter. */
  method CollapseBlankRuns(lines: seq<string>) returns (output: seq<string>)
    ensures output == Collapse(lines)
  {
    output := [];
    var blankRun := 0;
    for i := 0 to |lines|
      invariant output == Collapse(lines[..i])
      invariant blankRun >= 0
      invariant blankRun > 0 <==> i > 0 && lines[i - 1] == ""
    {
      assert lines[..i + 1][..i] == lines[..i];
      if |lines[i]| == 0 {
        blankRun := blankRun + 1;
        if blankRun > 1 {
          continue;
        }
        output := output + [""];
        continue;
      }
      blankRun := 0;
      output := output + [lines[i]];
    }
    assert lines[..|lines|] == lines;
  }

  method Normalize(input: string) returns (result: string)
    ensures result == NormalizeWhitespace(input)
    ensures Normal(result)
  {
    NormalizeIsNormal(input);
    var output := CollapseBlankRuns(TrimLines(Lines(UnifyLineEndings(input))));
    result := if output == [] then "" else Trim(Join(output));
  }

  // ---------------------------------------------------------------- what normal text looks like

  /** No CR, nothing blank before a line end, never two blank lines in a row. Closed under substrings. */
  ghost predicate Tidy(s: string) {
    && (forall k :: 0 <= k < |s| ==> s[k] != CR)
    && (forall k :: 0 <= k < |s| - 1 ==> LineEndIsClean(s, k))
    && (forall k :: 0 <= k < |s| - 2 ==> !TripleBreak(s, k))
  }

  ghost predicate LineEndIsClean(s: string, k: nat)
    requires k + 1 < |s|
  {
    s[k + 1] == LF ==> s[k] == LF || !IsSpace(s[k])
  }

  ghost predicate TripleBreak(s: string, k: nat)
    requires k + 2 < |s|
  {
    s[k] == LF && s[k + 1] == LF && s[k + 2] == LF
  }

  /** Tidy text that neither starts nor ends with white space. */
  ghost predicate Normal(s: string) {
    Tidy(s) && (s == "" || (!IsSpace(s[0]) && !IsSpace(s[|s| - 1])))
  }

  lemma TidyStretch(s: string, from: nat, to: nat)
    requires Tidy(s) && from <= to <= |s|
    ensures Tidy(s[from..to])
  {
    var t := s[from..to];
    forall k | 0 <= k < |t| - 1 ensures LineEndIsClean(t, k) {
      assert LineEndIsClean(s, from + k);
    }
    forall k | 0 <= k < |t| - 2 ensures !TripleBreak(t, k) {
      assert !TripleBreak(s, from + k);
    }
  }

  // ---------------------------------------------------------------- joining clean lines

  /** Lines as the loop leaves them: no LF or CR inside, no blank end, no two empty neighbours. */
  ghost predicate CleanLines(lines: seq<string>) {
    && (forall i :: 0 <= i < |lines| ==> LF !in lines[i] && CR !in lines[i] && TrimEnd(lines[i]) == lines[i])
    && (forall i :: 0 <= i < |lines| - 1 ==> !(lines[i] == "" && lines[i + 1] == ""))
  }

  /** Joining clean lines gives tidy text; a blank first line is the only way to start with LF. */
  lemma {:induction false} JoinIsTidy(lines: seq<string>)
    requires |lines| > 0 && CleanLines(lines)
    ensures var s := Join(lines);
            && Tidy(s)
            && (s != "" && s[0] == LF ==> lines[0] == "")
            && (|s| > 1 && s[0] == LF && s[1] == LF ==> false)
  {
    if |lines| == 1 {
      LineIsTidy(lines[0]);
    } else {
      var head, rest := lines[0], lines[1..];
      var tail := Join(rest);
      forall i | 0 <= i < |rest| - 1 ensures !(rest[i] == "" && rest[i + 1] == "") {
        assert !(lines[i + 1] == "" && lines[i + 1 + 1] == "");
      }
      JoinIsTidy(rest);
      assert !(lines[0] == "" && lines[0 + 1] == "");
      PrependLine(head, tail);
    }
  }

  lemma LineIsTidy(line: string)
    requires LF !in line && CR !in line
    ensures Tidy(line)
  {
  }

  lemma PrependLine(line: string, tail: string)
    requires LF !in line && CR !in line && TrimEnd(line) == line && Tidy(tail)
    requires tail != "" && tail[0] == LF ==> line != ""
    requires |tail| > 1 ==> !(tail[0] == LF && tail[1] == LF)
    ensures Tidy(line + [LF] + tail)
  {
    var s, n := line + [LF] + tail, |line|;
    assert s[n] == LF && forall k :: 0 <= k < n ==> s[k] == line[k];
    assert forall k :: n < k < |s| ==> s[k] == tail[k - n - 1];
    forall k | 0 <= k < |s| - 1 ensures LineEndIsClean(s, k) {
      if k > n {
        assert LineEndIsClean(tail, k - n - 1);
      }
    }
    forall k | 0 <= k < |s| - 2 ensures !TripleBreak(s, k) {
      if k > n {
        assert !TripleBreak(tail, k - n - 1);
      }
    }
  }

  lemma {:induction false} CollapseIsClean(lines: seq<string>)
    requires forall i :: 0 <= i < |lines| ==> LF !in lines[i] && CR !in lines[i] && TrimEnd(lines[i]) == lines[i]
    ensures CleanLines(Collapse(lines))
    ensures lines != [] ==> Collapse(lines) != [] && Collapse(lines)[|Collapse(lines)| - 1] == lines[|lines| - 1]
  {
    if lines != [] {
      CollapseIsClean(lines[..|lines| - 1]);
    }
  }

  /** Splitting never adds a CR. */
  lemma {:induction false} LinesFree(s: string, c: char)
    requires c !in s
    ensures forall i :: 0 <= i < |Lines(s)| ==> c !in Lines(s)[i]
  {
    if s != "" {
      LinesFree(s[1..], c);
    }
  }

  lemma NormalizeIsNormal(input: string)
    ensures Normal(NormalizeWhitespace(input))
  {
    var unified := UnifyLineEndings(input);
    var lines := Lines(unified);
    LinesFree(unified, CR);
    var trimmed := TrimLines(lines);
    forall i | 0 <= i < |trimmed| ensures LF !in trimmed[i] && CR !in trimmed[i] && TrimEnd(trimmed[i]) == trimmed[i] {
      assert trimmed[i] == lines[i][..|trimmed[i]|];
    }
    CollapseIsClean(trimmed);
    var kept := Collapse(trimmed);
    if kept != [] {
      JoinIsTidy(kept);
      var from, to := TrimIsStretch(Join(kept));
      TidyStretch(Join(kept), from, to);
    }
  }

  // ---------------------------------------------------------------- normal text is left alone

  lemma {:induction false} JoinLines(s: string)
    ensures Join(Lines(s)) == s
  {
    if s != "" {
      JoinLines(s[1..]);
    }
  }

  lemma {:induction false} UnifyFixed(s: string)
    requires CR !in s
    ensures UnifyLineEndings(s) == s
  {
    if s != "" {
      UnifyFixed(s[1..]);
    }
  }

  lemma {:induction false} CollapseFixed(lines: seq<string>)
    requires forall i :: 0 <= i < |lines| - 1 ==> !(lines[i] == "" && lines[i + 1] == "")
    ensures Collapse(lines) == lines
  {
    if lines != [] {
      var n := |lines| - 1;
      CollapseFixed(lines[..n]);
      if n > 0 {
        assert !(lines[n - 1] == "" && lines[n - 1 + 1] == "");
      }
      SplitLast(lines);
    }
  }

  ghost predicate EndsClean(line: string) {
    line == "" || !IsSpace(line[|line| - 1])
  }

  /** Every line of tidy text ends visibly. */
  lemma {:induction false} LinesEndClean(s: string)
    requires Tidy(s) && EndsClean(s)
    ensures forall i :: 0 <= i < |Lines(s)| ==> EndsClean(Lines(s)[i])
    ensures Lines(s)[0] == "" <==> s == "" || s[0] == LF
  {
    if s != "" {
      TidyStretch(s, 1, |s|);
      assert s[1..|s|] == s[1..];
      LinesEndClean(s[1..]);
      if s[0] != LF {
        var first := Lines(s[1..])[0];
        if first == "" && |s| > 1 {
          assert LineEndIsClean(s, 0);
        }
        FirstLineEndsClean(s[0], first);
      }
    }
  }

  lemma FirstLineEndsClean(c: char, first: string)
    requires EndsClean(first) && (first == "" ==> !IsSpace(c))
    ensures EndsClean([c] + first)
  {
  }

  /** Two neighbouring empty lines need three breaks in a row, or two at the very start. */
  lemma {:induction false} LinesNotDoubled(s: string)
    requires Tidy(s) && (s == "" || s[|s| - 1] != LF)
    ensures Lines(s)[0] == "" <==> s == "" || s[0] == LF
    ensures s != "" ==> Lines(s)[|Lines(s)| - 1] != ""
    ensures |Lines(s)| > 1 && Lines(s)[0] == "" && Lines(s)[1] == "" ==> |s| > 1 && s[0] == LF && s[1] == LF
    ensures forall i :: 1 <= i < |Lines(s)| - 1 ==> !(Lines(s)[i] == "" && Lines(s)[i + 1] == "")
  {
    if s != "" {
      TidyStretch(s, 1, |s|);
      assert s[1..|s|] == s[1..];
      LinesNotDoubled(s[1..]);
      if |s| > 2 {
        assert !TripleBreak(s, 0);
      }
      hide Tidy;
      var rest := Lines(s[1..]);
      forall i | 1 <= i < |Lines(s)| - 1 ensures !(Lines(s)[i] == "" && Lines(s)[i + 1] == "") {
        if s[0] == LF {
          assert Lines(s)[i] == rest[i - 1] && Lines(s)[i + 1] == rest[i];
          if i > 1 {
            assert !(rest[i - 1] == "" && rest[i - 1 + 1] == "");
          }
        } else {
          assert Lines(s)[i] == rest[i] && Lines(s)[i + 1] == rest[i + 1];
        }
      }
    }
  }

  lemma NormalIsFixed(s: string)
    requires Normal(s)
    ensures NormalizeWhitespace(s) == s
  {
    UnifyFixed(s);
    LinesEndClean(s);
    LinesNotDoubled(s);
    var lines := Lines(s);
    assert TrimLines(lines) == lines;
    forall i | 0 <= i < |lines| - 1 ensures !(lines[i] == "" && lines[i + 1] == "") {
    }
    CollapseFixed(lines);
    JoinLines(s);
    TrimFixed(s);
  }

  /** Normalizing twice is normalizing once. */
  lemma {:induction false} NormalizeIdempotent(input: string)
    ensures NormalizeWhitespace(NormalizeWhitespace(input)) == NormalizeWhitespace(input)
  {
    NormalizeIsNormal(input);
    NormalIsFixed(NormalizeWhitespace(input));
  }

  /** A text is its own normal form exactly when it is normal. */
  lemma {:induction false} FixedExactlyWhenNormal(s: string)
    ensures NormalizeWhitespace(s) == s <==> Normal(s)
  {
    NormalizeIsNormal(s);
    if Normal(s) {
      NormalIsFixed(s);
    }
  }

  // ---------------------------------------------------------------- line endings

  function ToCrlf(s: string): string {
    if s == "" then "" else (if s[0] == LF then [CR, LF] else [s[0]]) + ToCrlf(s[1..])
  }

  lemma {:induction false} UnifyUndoesCrlf(s: string)
    requires CR !in s
    ensures UnifyLineEndings(ToCrlf(s)) == s
  {
    if s != "" {
      UnifyUndoesCrlf(s[1..]);
      var t := ToCrlf(s);
      if s[0] == LF {
        assert t[2..] == ToCrlf(s[1..]);
      } else {
        assert t[1..] == ToCrlf(s[1..]);
      }
    }
  }

  /** A file saved with LF and the same file saved with CRLF normalize to the same text. */
  lemma {:induction false} LineEndingsIrrelevant(s: string)
    requires CR !in s
    ensures NormalizeWhitespace(ToCrlf(s)) == NormalizeWhitespace(s)
  {
    UnifyUndoesCrlf(s);
    UnifyFixed(s);
  }

  function ToCr(s: string): string {
    if s == "" then "" else [if s[0] == LF then CR else s[0]] + ToCr(s[1..])
  }

  lemma {:induction false} UnifyUndoesCr(s: string)
    requires CR !in s
    ensures UnifyLineEndings(ToCr(s)) == s
  {
    if s != "" {
      UnifyUndoesCr(s[1..]);
      var t := ToCr(s);
      assert t[1..] == ToCr(s[1..]);
      if |s| > 1 {
        assert t[1] == ToCr(s[1..])[0] != LF;
      }
    }
  }

  /** So does one saved with CR alone. */
  lemma {:induction false} LoneCrIsLineEnding(s: string)
    requires CR !in s
    ensures NormalizeWhitespace(ToCr(s)) == NormalizeWhitespace(s)
  {
    UnifyUndoesCr(s);
    UnifyFixed(s);
  }

  // ---------------------------------------------------------------- nothing but white space goes

  /** The visible characters, in order. */
  function Ink(s: string): string {
    if s == "" then "" else (if IsSpace(s[0]) then "" else [s[0]]) + Ink(s[1..])
  }

  lemma {:induction false} InkAppend(a: string, b: string)
    ensures Ink(a + b) == Ink(a) + Ink(b)
  {
    if a == "" {
      assert a + b == b;
    } else {
      assert (a + b)[1..] == a[1..] + b;
      InkAppend(a[1..], b);
    }
  }

  lemma {:induction false} InkOfSpace(s: string)
    requires forall k :: 0 <= k < |s| ==> IsSpace(s[k])
    ensures Ink(s) == ""
  {
    if s != "" {
      InkOfSpace(s[1..]);
    }
  }

  lemma {:induction false} InkOfStretch(s: string, from: nat, to: nat)
    requires from <= to <= |s|
    requires forall k :: 0 <= k < |s| && !(from <= k < to) ==> IsSpace(s[k])
    ensures Ink(s[from..to]) == Ink(s)
  {
    hide Ink, IsSpace;
    var before, kept, after := s[..from], s[from..to], s[to..];
    assert s == before + kept + after;
    assert forall k :: 0 <= k < |after| ==> after[k] == s[to + k];
    InkOfSpace(before);
    InkOfSpace(after);
    InkAppend(before + kept, after);
    InkAppend(before, kept);
    assert "" + Ink(kept) + "" == Ink(kept);
  }

  lemma {:induction false} InkUnified(s: string)
    ensures Ink(UnifyLineEndings(s)) == Ink(s)
  {
    if s != "" {
      if s[0] == CR && |s| > 1 && s[1] == LF {
        InkUnified(s[2..]);
        assert s[1..][1..] == s[2..];
      } else {
        InkUnified(s[1..]);
      }
    }
  }

  function InkOfLines(lines: seq<string>): string {
    if lines == [] then "" else InkOfLines(lines[..|lines| - 1]) + Ink(lines[|lines| - 1])
  }

  lemma {:induction false} InkOfLinesCons(line: string, rest: seq<string>)
    ensures InkOfLines([line] + rest) == Ink(line) + InkOfLines(rest)
  {
    if rest == [] {
      assert [line] + rest == [line];
      assert InkOfLines([line]) == InkOfLines([]) + Ink(line);
    } else {
      var n := |rest| - 1;
      assert ([line] + rest)[..n + 1] == [line] + rest[..n];
      InkOfLinesCons(line, rest[..n]);
    }
  }

  lemma {:induction false} InkJoined(lines: seq<string>)
    requires |lines| > 0
    ensures Ink(Join(lines)) == InkOfLines(lines)
  {
    assert lines == [lines[0]] + lines[1..];
    InkOfLinesCons(lines[0], lines[1..]);
    if |lines| > 1 {
      InkJoined(lines[1..]);
      InkAppend(lines[0] + [LF], Join(lines[1..]));
      InkAppend(lines[0], [LF]);
      assert Ink([LF]) == "" + Ink([]);
    } else {
      assert InkOfLines(lines[1..]) == "";
    }
  }

  lemma {:induction false} InkTrimmed(lines: seq<string>)
    ensures InkOfLines(TrimLines(lines)) == InkOfLines(lines)
  {
    if lines != [] {
      var n := |lines| - 1;
      InkTrimmed(lines[..n]);
      assert TrimLines(lines)[..n] == TrimLines(lines[..n]);
      InkOfStretch(lines[n], 0, |TrimEnd(lines[n])|);
    }
  }

  lemma {:induction false} InkCollapsed(lines: seq<string>)
    ensures InkOfLines(Collapse(lines)) == InkOfLines(lines)
  {
    if lines != [] {
      InkCollapsed(lines[..|lines| - 1]);
    }
  }

  /** Normalizing removes white space only: the visible characters stay, in order. */
  lemma {:induction false} NormalizeKeepsInk(input: string)
    ensures Ink(NormalizeWhitespace(input)) == Ink(input)
  {
    var unified := UnifyLineEndings(input);
    var lines := Lines(unified);
    InkUnified(input);
    JoinLines(unified);
    InkJoined(lines);
    InkTrimmed(lines);
    InkCollapsed(TrimLines(lines));
    var kept := Collapse(TrimLines(lines));
    if kept != [] {
      InkJoined(kept);
      var from, to := TrimIsStretch(Join(kept));
      InkOfStretch(Join(kept), from, to);
    }
  }

  /** Text is normalized away exactly when it shows nothing. */
  lemma {:induction false} EmptyExactlyWhenBlank(input: string)
    ensures NormalizeWhitespace(input) == "" <==> Ink(input) == ""
  {
    NormalizeKeepsInk(input);
    NormalizeIsNormal(input);
  }
}
