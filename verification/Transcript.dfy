/** scripts/lib/transcript-parser.ts: dialogue turns from transcript lines, packed under a size cap. */
module Transcript {
  import opened Outcomes
  import opened JsStrings
  import opened Normalizer

  const MAX_CONTENT_CHARS: nat := 60000
  const MAX_ASSISTANT_CHARS_PER_TURN: nat := 4000
  const MAX_USER_CHARS_PER_TURN: nat := 2000

  // ---------------------------------------------------------------- text helpers

  function JoinWith(parts: seq<string>, separator: string): string {
    if parts == [] then ""
    else if |parts| == 1 then parts[0]
    else JoinWith(parts[..|parts| - 1], separator) + separator + parts[|parts| - 1]
  }

  /** split('\n\n') */
  function Paragraphs(s: string): (r: seq<string>)
    ensures |r| > 0
  {
    if |s| >= 2 && s[0] == '\n' && s[1] == '\n' then [""] + Paragraphs(s[2..])
    else if s == "" then [""]
    else
      var rest := Paragraphs(s[1..]);
      [[s[0]] + rest[0]] + rest[1..]
  }

  function TrimmedParts(parts: seq<string>, dropped: string): (r: seq<string>)
    ensures forall p :: p in r ==> p != "" && p != dropped
  {
    if parts == [] then []
    else
      var front, last := TrimmedParts(parts[..|parts| - 1], dropped), Trim(parts[|parts| - 1]);
      if last != "" && last != dropped then front + [last] else front
  }

  function CleanAssistantText(raw: string): string {
    Trim(JoinWith(TrimmedParts(Paragraphs(raw), "[REDACTED]"), "\n\n"))
  }

  predicate StartsWithTag(s: string, tag: string) {
    |s| >= |tag| && Lower(s[..|tag|]) == tag
  }

  /** Removes a lower-case tag wherever it stands, in any case, with the white space after it. */
  function RemoveTag(s: string, tag: string): string
    requires tag != ""
    decreases |s|
  {
    if s == "" then ""
    else if StartsWithTag(s, tag) then RemoveTag(TrimStart(s[|tag|..]), tag)
    else [s[0]] + RemoveTag(s[1..], tag)
  }

  function CleanUserText(raw: string): string {
    var s := RemoveTag(RemoveTag(raw, "<user_query>"), "</user_query>");
    Trim(if StartsWithTag(s, "[image]") then TrimStart(s[7..]) else s)
  }

  const CUT_MARK := "\n\n\U{2026}(dipotong)"

  function Truncate(text: string, max: nat): (r: string)
    ensures |r| <= max + |CUT_MARK|
    ensures if |text| <= max then r == text else r == text[..max] + CUT_MARK
  {
    if |text| <= max then text else text[..max] + CUT_MARK
  }

  // ---------------------------------------------------------------- parsing

  datatype Role = User | Assistant | OtherRole

  datatype Block = Block(kind: string, text: Option<string>)

  /** One line of the file: blank, not JSON, or a message. */
  datatype Line = BlankLine | Unreadable | Message(role: Role, content: seq<Block>)

  function BlockTexts(content: seq<Block>): (r: seq<string>)
    ensures forall t :: t in r ==> t != ""
  {
    if content == [] then []
    else
      var front, b := BlockTexts(content[..|content| - 1]), content[|content| - 1];
      if b.kind == "text" && b.text.Some? && Trim(b.text.value) != "" then front + [Trim(b.text.value)] else front
  }

  function ExtractTextBlocks(content: seq<Block>): string {
    JoinWith(BlockTexts(content), "\n\n")
  }

  /** What a line contributes to the dialogue. */
  datatype Utterance = UserSaid(text: string) | AssistantSaid(text: string)

  function Heard(line: Line): Option<Utterance> {
    if !line.Message? || ExtractTextBlocks(line.content) == "" then None
    else match line.role
      case User => Some(UserSaid(ExtractTextBlocks(line.content)))
      case Assistant =>
        var cleaned := CleanAssistantText(ExtractTextBlocks(line.content));
        if cleaned != "" then Some(AssistantSaid(cleaned)) else None
      case OtherRole => None
  }

  function Utterances(lines: seq<Line>): (r: seq<Utterance>)
    ensures forall u :: u in r ==> u.text != ""
  {
    if lines == [] then []
    else
      var front, u := Utterances(lines[..|lines| - 1]), Heard(lines[|lines| - 1]);
      if u.Some? then front + [u.value] else front
  }

  /** A user's text and the answers that followed it; the first one may lack the user's text. */
  datatype RawTurn = RawTurn(user: string, assistant: seq<string>)

  datatype Grouping = Grouping(closed: seq<RawTurn>, open: RawTurn)

  const NO_TURN := RawTurn("", [])

  function Closed(g: Grouping): Grouping {
    if g.open == NO_TURN then g else Grouping(g.closed + [g.open], NO_TURN)
  }

  function Group(utterances: seq<Utterance>): Grouping {
    if utterances == [] then Grouping([], NO_TURN)
    else
      var g, u := Group(utterances[..|utterances| - 1]), utterances[|utterances| - 1];
      match u
      case UserSaid(text) => Grouping(Closed(g).closed, RawTurn(text, []))
      case AssistantSaid(text) => g.(open := g.open.(assistant := g.open.assistant + [text]))
  }

  datatype DialogueTurn = DialogueTurn(user: string, assistant: string)

  function Finished(raw: RawTurn): DialogueTurn {
    DialogueTurn(Truncate(CleanUserText(raw.user), MAX_USER_CHARS_PER_TURN),
                 Truncate(CleanAssistantText(JoinWith(raw.assistant, "\n\n")), MAX_ASSISTANT_CHARS_PER_TURN))
  }

  function FinishAll(raws: seq<RawTurn>): (turns: seq<DialogueTurn>)
    ensures |turns| == |raws| && forall i :: 0 <= i < |raws| ==> turns[i] == Finished(raws[i])
  {
    seq(|raws|, i requires 0 <= i < |raws| => Finished(raws[i]))
  }

  function Spoken(turns: seq<DialogueTurn>): (r: seq<DialogueTurn>)
    ensures forall t :: t in r ==> t in turns && (t.user != "" || t.assistant != "")
  {
    if turns == [] then []
    else
      var front, t := Spoken(turns[..|turns| - 1]), turns[|turns| - 1];
      if t.user != "" || t.assistant != "" then front + [t] else front
  }

  function RawTurns(lines: seq<Line>): seq<RawTurn> {
    Closed(Group(Utterances(lines))).closed
  }

  function ParseTranscript(lines: seq<Line>): seq<DialogueTurn> {
    Spoken(FinishAll(RawTurns(lines)))
  }

  lemma NextLine(lines: seq<Line>, n: nat)
    requires n < |lines|
    ensures var before, u := Utterances(lines[..n]), Heard(lines[n]);
            && Utterances(lines[..n + 1]) == (if u.Some? then before + [u.value] else before)
            && Group(Utterances(lines[..n + 1])) ==
                 if u.None? then Group(before)
                 else match u.value
                   case UserSaid(text) => Grouping(Closed(Group(before)).closed, RawTurn(text, []))
                   case AssistantSaid(text) => Group(before).(open := Group(before).open.(assistant := Group(before).open.assistant + [text]))
  {
    assert lines[..n + 1][..n] == lines[..n];
    var before, u := Utterances(lines[..n]), Heard(lines[n]);
    if u.Some? {
      assert (before + [u.value])[..|before|] == before;
    }
  }

  lemma FinishedSoFar(raws: seq<RawTurn>, raw: RawTurn)
    ensures FinishAll(raws + [raw]) == FinishAll(raws) + [Finished(raw)]
  {
    hide Finished;
  }

  lemma NoLineYet(lines: seq<Line>)
    ensures Group(Utterances(lines[..0])) == Grouping([], NO_TURN) && FinishAll([]) == []
  {
  }

  method ParseTranscriptJsonl(lines: seq<Line>) returns (spoken: seq<DialogueTurn>)
    ensures spoken == ParseTranscript(lines)
  {
    hide Group, Utterances, FinishAll, Finished, ExtractTextBlocks, CleanAssistantText, Heard;
    var turns: seq<DialogueTurn> := [];
    var currentUser := "";
    var currentAssistant: seq<string> := [];
    NoLineYet(lines);
    for n := 0 to |lines|
      invariant turns == FinishAll(Group(Utterances(lines[..n])).closed)
      invariant Group(Utterances(lines[..n])).open == RawTurn(currentUser, currentAssistant)
    {
      NextLine(lines, n);
      HeardUnfold(lines[n]);
      if !lines[n].Message? {
        continue;
      }
      var text := ExtractTextBlocks(lines[n].content);
      if |text| == 0 {
        continue;
      }
      if lines[n].role == User {
        if |currentUser| > 0 || |currentAssistant| > 0 {
          FinishedSoFar(Group(Utterances(lines[..n])).closed, RawTurn(currentUser, currentAssistant));
          turns := turns + [Finished(RawTurn(currentUser, currentAssistant))];
        }
        currentUser := text;
        currentAssistant := [];
        continue;
      }
      if lines[n].role == Assistant {
        var cleaned := CleanAssistantText(text);
        if |cleaned| > 0 {
          currentAssistant := currentAssistant + [cleaned];
        }
      }
    }
    assert lines[..|lines|] == lines;
    if |currentUser| > 0 || |currentAssistant| > 0 {
      FinishedSoFar(Group(Utterances(lines)).closed, RawTurn(currentUser, currentAssistant));
      turns := turns + [Finished(RawTurn(currentUser, currentAssistant))];
    }
    spoken := Spoken(turns);
  }

  lemma HeardUnfold(line: Line)
    ensures Heard(line) ==
              if !line.Message? || ExtractTextBlocks(line.content) == "" then None
              else match line.role
                case User => Some(UserSaid(ExtractTextBlocks(line.content)))
                case Assistant =>
                  var cleaned := CleanAssistantText(ExtractTextBlocks(line.content));
                  if cleaned != "" then Some(AssistantSaid(cleaned)) else None
                case OtherRole => None
  {
  }

  // ---------------------------------------------------------------- nothing is lost in grouping

  function SaidByAssistant(texts: seq<string>): (r: seq<Utterance>)
    ensures |r| == |texts|
  {
    seq(|texts|, i requires 0 <= i < |texts| => AssistantSaid(texts[i]))
  }

  function UtterancesOf(raw: RawTurn): seq<Utterance> {
    (if raw.user != "" then [UserSaid(raw.user)] else []) + SaidByAssistant(raw.assistant)
  }

  function UtterancesOfAll(raws: seq<RawTurn>): seq<Utterance> {
    if raws == [] then [] else UtterancesOfAll(raws[..|raws| - 1]) + UtterancesOf(raws[|raws| - 1])
  }

  lemma GroupStep(utterances: seq<Utterance>)
    requires utterances != []
    ensures var g := Group(utterances[..|utterances| - 1]);
            Group(utterances) ==
              match utterances[|utterances| - 1]
              case UserSaid(text) => Grouping(Closed(g).closed, RawTurn(text, []))
              case AssistantSaid(text) => g.(open := g.open.(assistant := g.open.assistant + [text]))
  {
  }

  lemma OneMoreAnswer(raw: RawTurn, text: string)
    ensures UtterancesOf(raw.(assistant := raw.assistant + [text])) == UtterancesOf(raw) + [AssistantSaid(text)]
  {
    assert SaidByAssistant(raw.assistant + [text]) == SaidByAssistant(raw.assistant) + [AssistantSaid(text)];
  }

  lemma UserOnly(text: string)
    requires text != ""
    ensures UtterancesOf(RawTurn(text, [])) == [UserSaid(text)]
  {
  }

  lemma {:induction false} GroupingKeepsAll(utterances: seq<Utterance>)
    requires forall u :: u in utterances ==> u.text != ""
    ensures var g := Group(utterances); UtterancesOfAll(g.closed) + UtterancesOf(g.open) == utterances
  {
    if utterances == [] {
      assert UtterancesOfAll([]) + UtterancesOf(NO_TURN) == [];
    } else {
      hide Group, UtterancesOf, UtterancesOfAll, Closed;
      var n := |utterances| - 1;
      SplitLast(utterances);
      GroupStep(utterances);
      GroupingKeepsAll(utterances[..n]);
      var before := Group(utterances[..n]);
      match utterances[n] {
        case UserSaid(text) =>
          UserOnly(text);
          ClosedKeepsAll(before);
        case AssistantSaid(text) =>
          OneMoreAnswer(before.open, text);
      }
    }
  }

  ghost predicate Shaped(raws: seq<RawTurn>) {
    && (forall i :: 0 <= i < |raws| ==> raws[i] != NO_TURN)
    && (forall i :: 1 <= i < |raws| ==> raws[i].user != "")
  }

  lemma {:induction false} GroupingIsShaped(utterances: seq<Utterance>)
    requires forall u :: u in utterances ==> u.text != ""
    ensures var g := Group(utterances); Shaped(g.closed) && (|g.closed| > 0 ==> g.open.user != "")
  {
    if utterances != [] {
      GroupStep(utterances);
      GroupingIsShaped(utterances[..|utterances| - 1]);
    }
  }

  lemma ClosedKeepsAll(g: Grouping)
    ensures UtterancesOfAll(Closed(g).closed) == UtterancesOfAll(g.closed) + UtterancesOf(g.open)
  {
    if g.open == NO_TURN {
      assert UtterancesOf(NO_TURN) == [];
    } else {
      assert (g.closed + [g.open])[..|g.closed|] == g.closed;
    }
  }

  /**
   * The turns, before cleaning and cutting, spell out the dialogue exactly: every
   * utterance once, in order; no turn is empty and only the first may lack a user.
   */
  lemma TurnsSpellDialogue(lines: seq<Line>)
    ensures var raws := RawTurns(lines);
            UtterancesOfAll(raws) == Utterances(lines) && Shaped(raws)
  {
    hide Group, Utterances, UtterancesOf, UtterancesOfAll;
    GroupingIsShaped(Utterances(lines));
    GroupingKeepsAll(Utterances(lines));
    ClosedKeepsAll(Group(Utterances(lines)));
  }

  // ---------------------------------------------------------------- answers are cleaned once

  predicate Breaks(s: string, k: nat)
    requires k + 1 < |s|
  {
    s[k] == '\n' && s[k + 1] == '\n'
  }

  ghost predicate NoBreak(s: string) {
    forall k :: 0 <= k < |s| - 1 ==> !Breaks(s, k)
  }

  /** A paragraph as cleaning leaves it. */
  ghost predicate Solid(p: string) {
    p != "" && p != "[REDACTED]" && !IsSpace(p[0]) && !IsSpace(p[|p| - 1]) && NoBreak(p)
  }

  ghost predicate AllSolid(parts: seq<string>) {
    forall p :: p in parts ==> Solid(p)
  }

  lemma {:induction false} PiecesHaveNoBreak(s: string)
    ensures forall p :: p in Paragraphs(s) ==> NoBreak(p)
    ensures Paragraphs(s)[0] != "" ==> s != "" && Paragraphs(s)[0][0] == s[0]
    decreases |s|
  {
    if |s| >= 2 && s[0] == '\n' && s[1] == '\n' {
      PiecesHaveNoBreak(s[2..]);
    } else if s != "" {
      PiecesHaveNoBreak(s[1..]);
      var rest := Paragraphs(s[1..]);
      ConsNoBreak(s[0], rest[0]);
    }
  }

  lemma ConsNoBreak(c: char, p: string)
    requires NoBreak(p) && (p != "" ==> !(c == '\n' && p[0] == '\n'))
    ensures NoBreak([c] + p)
  {
    var q := [c] + p;
    forall k | 0 <= k < |q| - 1 ensures !Breaks(q, k) {
      if k > 0 {
        assert !Breaks(p, k - 1);
      }
    }
  }

  lemma StretchNoBreak(s: string, from: nat, to: nat)
    requires NoBreak(s) && from <= to <= |s|
    ensures NoBreak(s[from..to])
  {
    forall k | 0 <= k < to - from - 1 ensures !Breaks(s[from..to], k) {
      assert !Breaks(s, from + k);
    }
  }

  lemma {:induction false} TrimmedAreSolid(parts: seq<string>)
    requires forall p :: p in parts ==> NoBreak(p)
    ensures AllSolid(TrimmedParts(parts, "[REDACTED]"))
  {
    if parts != [] {
      hide Trim, Solid, NoBreak;
      TrimmedAreSolid(parts[..|parts| - 1]);
      assert parts[|parts| - 1] in parts;
      TrimmedIsSolid(parts[|parts| - 1]);
    }
  }

  lemma TrimmedIsSolid(s: string)
    requires NoBreak(s)
    ensures Trim(s) == "" || Trim(s) == "[REDACTED]" || Solid(Trim(s))
  {
    hide Trim, IsSpace, NoBreak;
    var from, to := TrimIsStretch(s);
    StretchNoBreak(s, from, to);
  }

  lemma {:induction false} PieceThenRest(p: string, s: string)
    requires NoBreak(p) && (p != "" ==> p[|p| - 1] != '\n')
    ensures Paragraphs(p + "\n\n" + s) == [p] + Paragraphs(s)
  {
    var t := p + "\n\n" + s;
    if p == "" {
      assert t[2..] == s;
    } else {
      assert t[1..] == p[1..] + "\n\n" + s;
      StretchNoBreak(p, 1, |p|);
      assert p[1..|p|] == p[1..];
      PieceThenRest(p[1..], s);
      if |p| > 1 {
        assert !Breaks(p, 0);
      }
      assert [p[0]] + p[1..] == p;
    }
  }

  lemma {:induction false} OnePiece(p: string)
    requires NoBreak(p)
    ensures Paragraphs(p) == [p]
  {
    if p != "" {
      StretchNoBreak(p, 1, |p|);
      assert p[1..|p|] == p[1..];
      OnePiece(p[1..]);
      if |p| > 1 {
        assert !Breaks(p, 0);
      }
      assert [p[0]] + p[1..] == p;
    }
  }

  lemma JoinUnfold(parts: seq<string>, separator: string)
    requires parts != []
    ensures JoinWith(parts, separator) ==
              if |parts| == 1 then parts[0] else JoinWith(parts[..|parts| - 1], separator) + separator + parts[|parts| - 1]
  {
  }

  lemma Regroup(a: string, s: string, b: string, c: string)
    ensures a + s + b + s + c == a + s + (b + s + c)
  {
  }

  lemma {:induction false} JoinConcatenates(a: seq<string>, b: seq<string>, separator: string)
    requires a != [] && b != []
    ensures JoinWith(a + b, separator) == JoinWith(a, separator) + separator + JoinWith(b, separator)
    decreases |b|
  {
    hide JoinWith;
    var n := |b| - 1;
    assert (a + b)[..|a| + n] == a + b[..n];
    JoinUnfold(a + b, separator);
    JoinUnfold(b, separator);
    if n > 0 {
      JoinConcatenates(a, b[..n], separator);
      Regroup(JoinWith(a, separator), separator, JoinWith(b[..n], separator), b[n]);
    } else {
      assert a + b[..n] == a;
    }
  }

  /** Solid paragraphs, joined and split, come back. */
  lemma {:induction false} SplitUndoesJoin(parts: seq<string>)
    requires parts != [] && AllSolid(parts)
    ensures Paragraphs(JoinWith(parts, "\n\n")) == parts
  {
    assert Solid(parts[0]);
    if |parts| == 1 {
      OnePiece(parts[0]);
    } else {
      SplitUndoesJoin(parts[1..]);
      assert parts == [parts[0]] + parts[1..];
      JoinConcatenates([parts[0]], parts[1..], "\n\n");
      PieceThenRest(parts[0], JoinWith(parts[1..], "\n\n"));
    }
  }

  lemma {:induction false} SolidStay(parts: seq<string>)
    requires AllSolid(parts)
    ensures TrimmedParts(parts, "[REDACTED]") == parts
  {
    if parts != [] {
      SplitLast(parts);
      SolidStay(parts[..|parts| - 1]);
      assert Solid(parts[|parts| - 1]);
      TrimFixed(parts[|parts| - 1]);
    }
  }

  lemma {:induction false} JoinedEnds(parts: seq<string>)
    requires parts != [] && AllSolid(parts)
    ensures var s := JoinWith(parts, "\n\n"); s != "" && !IsSpace(s[0]) && !IsSpace(s[|s| - 1])
  {
    assert Solid(parts[|parts| - 1]);
    if |parts| > 1 {
      JoinedEnds(parts[..|parts| - 1]);
    }
  }

  lemma {:induction false} CleanJoined(parts: seq<string>)
    requires AllSolid(parts)
    ensures CleanAssistantText(JoinWith(parts, "\n\n")) == JoinWith(parts, "\n\n")
    ensures parts != [] ==> JoinWith(parts, "\n\n") != ""
  {
    hide CleanAssistantText, JoinWith, Paragraphs, TrimmedParts, Trim, AllSolid, IsSpace;
    NothingIsClean();
    if parts != [] {
      CleanUnfold(JoinWith(parts, "\n\n"));
      SplitUndoesJoin(parts);
      SolidStay(parts);
      JoinedEnds(parts);
      TrimFixed(JoinWith(parts, "\n\n"));
    }
  }

  lemma CleanUnfold(raw: string)
    ensures CleanAssistantText(raw) == Trim(JoinWith(TrimmedParts(Paragraphs(raw), "[REDACTED]"), "\n\n"))
  {
  }

  lemma NothingIsClean()
    ensures CleanAssistantText("") == "" == JoinWith([], "\n\n") && Trim("") == ""
  {
    assert Paragraphs("") == [""];
    assert TrimmedParts([""], "[REDACTED]") == [] by {
      assert [""][..0] == [];
    }
  }

  ghost predicate Cleaned(text: string, parts: seq<string>) {
    AllSolid(parts) && text == JoinWith(parts, "\n\n") && (text == "" <==> parts == [])
  }

  /** Cleaning leaves solid paragraphs joined by one blank line, and nothing else. */
  lemma CleanMeaning(raw: string)
    ensures exists parts :: Cleaned(CleanAssistantText(raw), parts)
  {
    var parts := TrimmedParts(Paragraphs(raw), "[REDACTED]");
    hide CleanAssistantText, JoinWith, Paragraphs, TrimmedParts, Trim, AllSolid, IsSpace, NoBreak;
    CleanUnfold(raw);
    NothingIsClean();
    PiecesHaveNoBreak(raw);
    TrimmedAreSolid(Paragraphs(raw));
    if parts != [] {
      JoinedEnds(parts);
      TrimFixed(JoinWith(parts, "\n\n"));
    }
    assert Cleaned(CleanAssistantText(raw), parts);
  }

  /** Cleaning twice is cleaning once. */
  lemma CleanIdempotent(raw: string)
    ensures CleanAssistantText(CleanAssistantText(raw)) == CleanAssistantText(raw)
  {
    CleanMeaning(raw);
    var parts :| Cleaned(CleanAssistantText(raw), parts);
    CleanJoined(parts);
  }

  lemma SolidTogether(a: seq<string>, b: seq<string>)
    requires AllSolid(a) && AllSolid(b)
    ensures AllSolid(a + b)
  {
  }

  lemma {:induction false} AnswersJoin(answers: seq<string>) returns (parts: seq<string>)
    requires forall a :: a in answers ==> a != "" && CleanAssistantText(a) == a
    ensures AllSolid(parts) && JoinWith(answers, "\n\n") == JoinWith(parts, "\n\n")
    ensures parts == [] <==> answers == []
  {
    parts := [];
    if answers != [] {
      hide CleanAssistantText, JoinWith, AllSolid;
      var n := |answers| - 1;
      forall a | a in answers[..n] ensures a != "" && CleanAssistantText(a) == a {
        assert a in answers;
      }
      var front := AnswersJoin(answers[..n]);
      CleanMeaning(answers[n]);
      var last :| Cleaned(answers[n], last);
      parts := front + last;
      SolidTogether(front, last);
      LastAnswerJoins(answers, front, last);
    }
  }

  lemma LastAnswerJoins(answers: seq<string>, front: seq<string>, last: seq<string>)
    requires answers != [] && last != [] && answers[|answers| - 1] == JoinWith(last, "\n\n")
    requires JoinWith(answers[..|answers| - 1], "\n\n") == JoinWith(front, "\n\n") && (front == [] <==> |answers| == 1)
    ensures JoinWith(answers, "\n\n") == JoinWith(front + last, "\n\n")
  {
    hide JoinWith;
    JoinUnfold(answers, "\n\n");
    if front == [] {
      assert front + last == last;
    } else {
      JoinConcatenates(front, last, "\n\n");
    }
  }

  lemma {:induction false} HeardAreClean(lines: seq<Line>)
    ensures forall u :: u in Utterances(lines) && u.AssistantSaid? ==> CleanAssistantText(u.text) == u.text
  {
    if lines != [] {
      hide CleanAssistantText;
      HeardAreClean(lines[..|lines| - 1]);
      var line := lines[|lines| - 1];
      HeardUnfold(line);
      if line.Message? {
        CleanIdempotent(ExtractTextBlocks(line.content));
      }
    }
  }

  lemma {:induction false} SaidInAll(raws: seq<RawTurn>, i: nat, a: string)
    requires i < |raws| && a in raws[i].assistant
    ensures AssistantSaid(a) in UtterancesOfAll(raws)
  {
    var n := |raws| - 1;
    if i < n {
      SaidInAll(raws[..n], i, a);
    } else {
      var j :| 0 <= j < |raws[i].assistant| && raws[i].assistant[j] == a;
      assert SaidByAssistant(raws[i].assistant)[j] == AssistantSaid(a);
    }
  }

  /** The second cleaning, when a turn is finished, changes nothing: answers are joined and cut as they were heard. */
  lemma AnswersAreCleanedOnce(lines: seq<Line>, i: nat)
    requires i < |RawTurns(lines)|
    ensures Finished(RawTurns(lines)[i]).user == Truncate(CleanUserText(RawTurns(lines)[i].user), MAX_USER_CHARS_PER_TURN)
    ensures Finished(RawTurns(lines)[i]).assistant ==
              Truncate(JoinWith(RawTurns(lines)[i].assistant, "\n\n"), MAX_ASSISTANT_CHARS_PER_TURN)
  {
    hide CleanAssistantText, RawTurns, CleanUserText;
    TurnsSpellDialogue(lines);
    HeardAreClean(lines);
    var raw := RawTurns(lines)[i];
    forall a | a in raw.assistant ensures a != "" && CleanAssistantText(a) == a {
      SaidInAll(RawTurns(lines), i, a);
    }
    var parts := AnswersJoin(raw.assistant);
    CleanJoined(parts);
  }

  // ---------------------------------------------------------------- what is heard

  lemma {:induction false} JoinedInk(parts: seq<string>)
    ensures Ink(JoinWith(parts, "\n\n")) == InkOfAll(parts)
  {
    hide Ink, IsSpace;
    InkOfSeparator();
    if |parts| > 1 {
      var n := |parts| - 1;
      JoinedInk(parts[..n]);
      JoinUnfold(parts, "\n\n");
      InkAppend(JoinWith(parts[..n], "\n\n") + "\n\n", parts[n]);
      InkAppend(JoinWith(parts[..n], "\n\n"), "\n\n");
    } else if |parts| == 1 {
      assert parts[..0] == [];
    }
  }

  lemma InkOfSeparator()
    ensures Ink("\n\n") == "" && Ink("") == ""
  {
    assert "\n\n"[1..] == "\n" && "\n"[1..] == "";
  }

  /** The visible characters of a list of texts, in order. */
  ghost function InkOfAll(parts: seq<string>): string {
    if parts == [] then "" else InkOfAll(parts[..|parts| - 1]) + Ink(parts[|parts| - 1])
  }

  ghost function InkOfBlocks(content: seq<Block>): string {
    if content == [] then ""
    else
      var b := content[|content| - 1];
      InkOfBlocks(content[..|content| - 1]) + if b.kind == "text" && b.text.Some? then Ink(b.text.value) else ""
  }

  lemma TrimKeepsInk(s: string)
    ensures Ink(Trim(s)) == Ink(s)
    ensures Trim(s) == "" ==> Ink(s) == ""
  {
    InkOfTrim(s);
    assert Ink("") == "";
  }

  lemma InkOfTrim(s: string)
    ensures Ink(Trim(s)) == Ink(s)
  {
    hide Ink, Trim, IsSpace;
    var from, to := TrimIsStretch(s);
    InkOfStretch(s, from, to);
  }

  /** The text of a message shows exactly what its text blocks show, in order. */
  lemma {:induction false} TextBlocksKeepInk(content: seq<Block>)
    ensures Ink(ExtractTextBlocks(content)) == InkOfBlocks(content)
    ensures InkOfAll(BlockTexts(content)) == InkOfBlocks(content)
  {
    if content != [] {
      hide Ink, Trim, JoinWith;
      var n := |content| - 1;
      TextBlocksKeepInk(content[..n]);
      var front, b := BlockTexts(content[..n]), content[n];
      if b.text.Some? {
        TrimKeepsInk(b.text.value);
        assert (front + [Trim(b.text.value)])[..|front|] == front;
      }
    }
    JoinedInk(BlockTexts(content));
  }

  /** What paragraphs show, but for those that are redacted. */
  ghost function InkOfKept(parts: seq<string>): string {
    if parts == [] then ""
    else
      var last := parts[|parts| - 1];
      InkOfKept(parts[..|parts| - 1]) + if Trim(last) == "[REDACTED]" then "" else Ink(last)
  }

  lemma InkOfOneMore(front: seq<string>, last: string)
    ensures InkOfAll(front + [last]) == InkOfAll(front) + Ink(last)
  {
    hide Ink;
    assert (front + [last])[..|front|] == front;
  }

  lemma {:induction false} KeptInk(parts: seq<string>)
    ensures InkOfAll(TrimmedParts(parts, "[REDACTED]")) == InkOfKept(parts)
  {
    if parts != [] {
      hide Ink, Trim, InkOfAll;
      var n := |parts| - 1;
      KeptInk(parts[..n]);
      TrimKeepsInk(parts[n]);
      InkOfOneMore(TrimmedParts(parts[..n], "[REDACTED]"), Trim(parts[n]));
    }
  }

  /** Split and joined, a text is itself. */
  lemma {:induction false} ParagraphsRejoin(s: string)
    ensures JoinWith(Paragraphs(s), "\n\n") == s
    decreases |s|
  {
    if |s| >= 2 && s[0] == '\n' && s[1] == '\n' {
      ParagraphsRejoin(s[2..]);
      hide JoinWith;
      JoinConcatenates([""], Paragraphs(s[2..]), "\n\n");
      JoinUnfold([""], "\n\n");
      assert s == "" + "\n\n" + s[2..];
    } else if s != "" {
      ParagraphsRejoin(s[1..]);
      var rest := Paragraphs(s[1..]);
      FirstGrows(s[0], rest);
      assert s == [s[0]] + s[1..];
    }
  }

  lemma FirstGrows(c: char, parts: seq<string>)
    requires parts != []
    ensures JoinWith([[c] + parts[0]] + parts[1..], "\n\n") == [c] + JoinWith(parts, "\n\n")
  {
    hide JoinWith;
    var first := [[c] + parts[0]];
    JoinUnfold(first, "\n\n");
    JoinUnfold([parts[0]], "\n\n");
    if |parts| == 1 {
      assert first + parts[1..] == first && parts == [parts[0]];
    } else {
      JoinConcatenates(first, parts[1..], "\n\n");
      JoinConcatenates([parts[0]], parts[1..], "\n\n");
      assert parts == [parts[0]] + parts[1..];
    }
  }

  /** Cleaning an answer drops nothing that shows, but for redacted paragraphs. */
  lemma CleanKeepsInk(raw: string)
    ensures Ink(CleanAssistantText(raw)) == InkOfKept(Paragraphs(raw))
  {
    hide Ink, Trim, JoinWith, Paragraphs, TrimmedParts, CleanAssistantText;
    CleanUnfold(raw);
    var parts := TrimmedParts(Paragraphs(raw), "[REDACTED]");
    InkOfTrim(JoinWith(parts, "\n\n"));
    JoinedInk(parts);
    KeptInk(Paragraphs(raw));
  }

  /** A line is heard iff it is a message of the user that shows something, or one of the assistant that still does when cleaned. */
  lemma HeardExactly(line: Line)
    ensures Heard(line).Some? <==>
              line.Message? && match line.role
                               case User => InkOfBlocks(line.content) != ""
                               case Assistant => CleanAssistantText(ExtractTextBlocks(line.content)) != ""
                               case OtherRole => false
    ensures Heard(line).Some? && line.role == User ==> Heard(line).value == UserSaid(ExtractTextBlocks(line.content))
    ensures Heard(line).Some? && line.role == Assistant ==>
              Heard(line).value == AssistantSaid(CleanAssistantText(ExtractTextBlocks(line.content)))
  {
    if line.Message? {
      TextBlocksKeepInk(line.content);
      BlocksShow(line.content);
      NothingIsClean();
      hide Ink, CleanAssistantText, ExtractTextBlocks;
    }
  }

  /** The text of a message is empty iff its blocks show nothing. */
  lemma BlocksShow(content: seq<Block>)
    ensures ExtractTextBlocks(content) == "" <==> InkOfBlocks(content) == ""
  {
    TextBlocksKeepInk(content);
    hide Ink, BlockTexts, InkOfBlocks;
    var parts := BlockTexts(content);
    if ExtractTextBlocks(content) != "" {
      assert parts != [];
      BlockTextsShow(content, |parts| - 1);
      assert InkOfAll(parts) == InkOfAll(parts[..|parts| - 1]) + Ink(parts[|parts| - 1]);
    } else {
      InkOfSeparator();
    }
  }

  lemma {:induction false} BlockTextsShow(content: seq<Block>, i: nat)
    requires i < |BlockTexts(content)|
    ensures Ink(BlockTexts(content)[i]) != ""
  {
    var n := |content| - 1;
    var front := BlockTexts(content[..n]);
    if i < |front| {
      BlockTextsShow(content[..n], i);
    } else {
      var t := Trim(content[n].text.value);
      var from, to := TrimIsStretch(content[n].text.value);
      FirstShows(t);
    }
  }

  lemma FirstShows(t: string)
    requires t != "" && !IsSpace(t[0])
    ensures Ink(t) != ""
  {
  }

  /** A text in front of a tag is copied. */
  lemma {:induction false} CopiedUpTo(a: string, b: string, tag: string)
    requires tag != "" && tag[0] == '<' && '<' !in a
    ensures RemoveTag(a + b, tag) == a + RemoveTag(b, tag)
  {
    hide RemoveTag, StartsWithTag;
    if a == "" {
      assert a + b == b;
      assert "" + RemoveTag(b, tag) == RemoveTag(b, tag);
    } else {
      assert (a + b)[1..] == a[1..] + b && (a + b)[0] == a[0] && a[0] in a;
      OnlyTagsStartSo(a + b, tag);
      CharCopied(a + b, tag);
      CopiedUpTo(a[1..], b, tag);
      assert [a[0]] + (a[1..] + RemoveTag(b, tag)) == a + RemoveTag(b, tag);
    }
  }

  lemma CharCopied(s: string, tag: string)
    requires tag != "" && s != "" && !StartsWithTag(s, tag)
    ensures RemoveTag(s, tag) == [s[0]] + RemoveTag(s[1..], tag)
  {
  }

  lemma OnlyTagsStartSo(s: string, tag: string)
    requires tag != "" && tag[0] == '<' && s != "" && s[0] != '<'
    ensures !StartsWithTag(s, tag)
  {
    if |s| >= |tag| {
      assert Lower(s[..|tag|])[0] != '<';
    }
  }

  /** A tag that stands in front goes, in any case, with the white space after it. */
  lemma TagGoes(s: string, tag: string)
    requires tag != "" && StartsWithTag(s, tag)
    ensures RemoveTag(s, tag) == RemoveTag(TrimStart(s[|tag|..]), tag)
  {
  }

  lemma TextsOfQuery(text: string)
    requires text != "" && !IsSpace(text[0])
    ensures StartsWithTag("<user_query>\n" + text + "\n</user_query>", "<user_query>")
    ensures TrimStart(("<user_query>\n" + text + "\n</user_query>")[12..]) == text + "\n" + "</user_query>"
  {
    var s := "<user_query>\n" + text + "\n</user_query>";
    assert s[..12] == "<user_query>";
    assert Lower("<user_query>") == "<user_query>";
    assert s[12..] == "\n" + (text + "\n" + "</user_query>");
    assert s[12..][1..] == text + "\n" + "</user_query>";
  }

  lemma ClosingTag()
    ensures RemoveTag("</user_query>", "<user_query>") == "</user_query>" && RemoveTag("</user_query>", "</user_query>") == ""
  {
    var s := "</user_query>";
    assert Lower(s) == s && s[..13] == s && s[13..] == "";
    assert Lower(s[..12])[1] == '/';
    assert '<' !in s[1..];
    CopiedUpTo(s[1..], "", "<user_query>");
    assert s[1..] + "" == s[1..] && [s[0]] + s[1..] == s;
  }

  lemma NewlineTrimmed(text: string)
    ensures Trim(text + "\n") == Trim(text)
  {
    assert (text + "\n")[..|text|] == text;
  }

  /** An image mark in front of a query goes with the white space after it, in any case. */
  lemma ImageMarkGoes(mark: string, text: string)
    requires |mark| == 7 && StartsWithTag(mark, "[image]") && '<' !in mark && '<' !in text
    ensures CleanUserText(mark + text) == Trim(TrimStart(text))
  {
    hide RemoveTag, Trim, TrimStart, Lower;
    var s := mark + text;
    assert s[..7] == mark && s[7..] == text && mark[..7] == mark;
    assert s + "" == s;
    CopiedUpTo(s, "", "<user_query>");
    CopiedUpTo(s, "", "</user_query>");
    NothingTagged();
  }

  /** A query in its tags is the query; so is one without tags. */
  lemma QueryIsUnwrapped(text: string)
    requires text != "" && !IsSpace(text[0]) && '<' !in text && !StartsWithTag(text + "\n", "[image]")
    ensures CleanUserText("<user_query>\n" + text + "\n</user_query>") == Trim(text)
    ensures !StartsWithTag(text, "[image]") ==> CleanUserText(text) == Trim(text)
  {
    hide RemoveTag, StartsWithTag, Trim, TrimStart, Lower;
    var s, closing := "<user_query>\n" + text + "\n</user_query>", "</user_query>";
    TextsOfQuery(text);
    TagGoes(s, "<user_query>");
    ClosingTag();
    CopiedUpTo(text + "\n", closing, "<user_query>");
    CopiedUpTo(text + "\n", closing, closing);
    assert text + "\n" + "" == text + "\n";
    NewlineTrimmed(text);
    CopiedUpTo(text, "", "<user_query>");
    CopiedUpTo(text, "", closing);
    NothingTagged();
    assert text + "" == text;
  }

  lemma NothingTagged()
    ensures RemoveTag("", "<user_query>") == "" && RemoveTag("", "</user_query>") == ""
  {
  }

  /** Turns that say nothing are dropped, all others stay. */
  lemma {:induction false} SpokenExactly(turns: seq<DialogueTurn>)
    ensures forall t :: t in Spoken(turns) <==> t in turns && (t.user != "" || t.assistant != "")
  {
    if turns != [] {
      SpokenExactly(turns[..|turns| - 1]);
      SplitLast(turns);
    }
  }

  /** They stay in order: turn by turn, and each as often as it was there. */
  lemma {:induction false} SpokenInOrder(turns: seq<DialogueTurn>, more: seq<DialogueTurn>)
    ensures Spoken(turns + more) == Spoken(turns) + Spoken(more)
    decreases |more|
  {
    if more == [] {
      assert turns + more == turns;
    } else {
      var n := |more| - 1;
      assert (turns + more)[..|turns| + n] == turns + more[..n];
      SpokenInOrder(turns, more[..n]);
      SpokenUnfold(turns + more);
      SpokenUnfold(more);
      hide Spoken;
    }
  }

  lemma SpokenUnfold(turns: seq<DialogueTurn>)
    requires turns != []
    ensures var t := turns[|turns| - 1];
            Spoken(turns) == Spoken(turns[..|turns| - 1]) + if t.user != "" || t.assistant != "" then [t] else []
  {
  }

  // ---------------------------------------------------------------- packing

  const SEPARATOR := "\n\n---\n\n"

  function FormatTurn(turn: DialogueTurn, index: nat): string {
    JoinWith(["### Giliran " + NatText(index + 1)]
             + (if turn.user != "" then ["**User:**", turn.user] else [])
             + (if turn.assistant != "" then ["**Assistant:**", turn.assistant] else []), "\n\n")
  }

  function Blocks(turns: seq<DialogueTurn>): (blocks: seq<string>)
    ensures |blocks| == |turns| && forall i :: 0 <= i < |turns| ==> blocks[i] == FormatTurn(turns[i], i)
  {
    seq(|turns|, i requires 0 <= i < |turns| => FormatTurn(turns[i], i))
  }

  /** A chunk that holds these blocks. */
  function Content(header: string, part: seq<string>): string {
    header + "\n\n" + JoinWith(part, SEPARATOR)
  }

  datatype Packing = Packing(chunks: seq<string>, part: seq<string>)

  function Packed(header: string, blocks: seq<string>): Packing {
    if blocks == [] then Packing([], [])
    else
      var p, block := Packed(header, blocks[..|blocks| - 1]), blocks[|blocks| - 1];
      var next := Content(header, p.part + [block]);
      if |next| > MAX_CONTENT_CHARS && p.part != [] then Packing(p.chunks + [Content(header, p.part)], [block])
      else if |next| > MAX_CONTENT_CHARS then Packing(p.chunks + [next[..MAX_CONTENT_CHARS]], [])
      else Packing(p.chunks, p.part + [block])
  }

  function AllChunks(header: string, blocks: seq<string>): seq<string> {
    var p := Packed(header, blocks);
    var chunks := if p.part != [] then p.chunks + [Content(header, p.part)] else p.chunks;
    if chunks == [] then [header] else chunks
  }

  lemma NextBlock(header: string, blocks: seq<string>, n: nat)
    requires n < |blocks|
    ensures var p := Packed(header, blocks[..n]);
            var next := Content(header, p.part + [blocks[n]]);
            Packed(header, blocks[..n + 1]) ==
              if |next| > MAX_CONTENT_CHARS && p.part != [] then Packing(p.chunks + [Content(header, p.part)], [blocks[n]])
              else if |next| > MAX_CONTENT_CHARS then Packing(p.chunks + [next[..MAX_CONTENT_CHARS]], [])
              else Packing(p.chunks, p.part + [blocks[n]])
  {
    assert blocks[..n + 1][..n] == blocks[..n];
  }

  lemma NothingPacked(header: string, blocks: seq<string>)
    ensures Packed(header, blocks[..0]) == Packing([], [])
  {
  }

  lemma ContentOfOneMore(header: string, part: seq<string>, block: string)
    ensures Content(header, part + [block]) ==
              if part == [] then header + "\n\n" + block
              else header + "\n\n" + JoinWith(part, SEPARATOR) + SEPARATOR + block
  {
    assert (part + [block])[..|part|] == part;
  }

  method ChunkTurns(turns: seq<DialogueTurn>, header: string) returns (chunks: seq<string>)
    ensures chunks == AllChunks(header, Blocks(turns))
  {
    hide Packed, FormatTurn, JoinWith, Content;
    chunks := [];
    var partTurns: seq<string> := [];
    ghost var blocks := Blocks(turns);
    NothingPacked(header, blocks);
    for i := 0 to |turns|
      invariant Packed(header, blocks[..i]) == Packing(chunks, partTurns)
    {
      var block := FormatTurn(turns[i], i);
      NextBlock(header, blocks, i);
      ContentOfOneMore(header, partTurns, block);
      var next := if |partTurns| == 0 then header + "\n\n" + block
                  else header + "\n\n" + JoinWith(partTurns, SEPARATOR) + SEPARATOR + block;
      if |next| > MAX_CONTENT_CHARS && |partTurns| > 0 {
        chunks := chunks + [Content(header, partTurns)];
        partTurns := [block];
      } else if |next| > MAX_CONTENT_CHARS {
        chunks := chunks + [next[..MAX_CONTENT_CHARS]];
        partTurns := [];
      } else {
        partTurns := partTurns + [block];
      }
    }
    assert blocks[..|turns|] == blocks;
    if |partTurns| > 0 {
      chunks := chunks + [Content(header, partTurns)];
    }
    if |chunks| == 0 {
      chunks := [header];
    }
  }

  // ---------------------------------------------------------------- what a proper packing is

  function Concatenated(groups: seq<seq<string>>): seq<string> {
    if groups == [] then [] else Concatenated(groups[..|groups| - 1]) + groups[|groups| - 1]
  }

  /** Groups of whole blocks, in order, each under the cap, none that could have taken one more block. */
  ghost predicate Packs(header: string, blocks: seq<string>, chunks: seq<string>, groups: seq<seq<string>>) {
    && |groups| == |chunks| && Concatenated(groups) == blocks
    && (forall i :: 0 <= i < |groups| ==> groups[i] != [] && chunks[i] == Content(header, groups[i]) && |chunks[i]| <= MAX_CONTENT_CHARS)
    && (forall i :: 0 <= i < |groups| - 1 ==> Full(header, groups[i], groups[i + 1]))
  }

  ghost predicate Full(header: string, group: seq<string>, next: seq<string>) {
    next != [] && |Content(header, group + [next[0]])| > MAX_CONTENT_CHARS
  }

  /** Every block fits under the header alone. */
  ghost predicate AllFit(header: string, blocks: seq<string>) {
    forall i :: 0 <= i < |blocks| ==> |header| + 2 + |blocks[i]| <= MAX_CONTENT_CHARS
  }

  lemma {:induction false} PartIsContained(part: seq<string>, i: nat)
    requires i < |part|
    ensures |JoinWith(part, SEPARATOR)| >= |part[i]|
  {
    if |part| > 1 && i < |part| - 1 {
      PartIsContained(part[..|part| - 1], i);
    }
  }

  lemma {:induction false} InSomeGroup(groups: seq<seq<string>>, block: string) returns (i: nat)
    requires block in Concatenated(groups)
    ensures i < |groups| && block in groups[i]
  {
    var n := |groups| - 1;
    if block in groups[n] {
      i := n;
    } else {
      i := InSomeGroup(groups[..n], block);
    }
  }

  /** However blocks are grouped, chunks under the cap need blocks that fit alone. */
  lemma PackingNeedsFit(header: string, blocks: seq<string>, chunks: seq<string>, groups: seq<seq<string>>)
    requires Packs(header, blocks, chunks, groups)
    ensures AllFit(header, blocks)
  {
    forall k | 0 <= k < |blocks| ensures |header| + 2 + |blocks[k]| <= MAX_CONTENT_CHARS {
      var i := InSomeGroup(groups, blocks[k]);
      var j :| 0 <= j < |groups[i]| && groups[i][j] == blocks[k];
      PartIsContained(groups[i], j);
      assert |chunks[i]| <= MAX_CONTENT_CHARS;
    }
  }

  /** The packing so far: closed groups, and an open one that is under the cap. */
  ghost predicate PacksSoFar(header: string, blocks: seq<string>, p: Packing, groups: seq<seq<string>>) {
    if blocks == [] then p == Packing([], []) && groups == []
    else p.part != [] && Packs(header, blocks, p.chunks + [Content(header, p.part)], groups + [p.part])
  }

  lemma ConcatenatedAppend(groups: seq<seq<string>>, group: seq<string>)
    ensures Concatenated(groups + [group]) == Concatenated(groups) + group
  {
    assert (groups + [group])[..|groups|] == groups;
  }

  lemma SingleContent(header: string, block: string)
    ensures Content(header, [block]) == header + "\n\n" + block
  {
    assert [] + [block] == [block];
    ContentOfOneMore(header, [], block);
  }

  lemma OpenGrows(header: string, blocks: seq<string>, p: Packing, groups: seq<seq<string>>, block: string)
    requires Packs(header, blocks, p.chunks + [Content(header, p.part)], groups + [p.part]) && p.part != []
    requires |Content(header, p.part + [block])| <= MAX_CONTENT_CHARS
    ensures Packs(header, blocks + [block], p.chunks + [Content(header, p.part + [block])], groups + [p.part + [block]])
  {
    hide Content;
    ConcatenatedAppend(groups, p.part);
    ConcatenatedAppend(groups, p.part + [block]);
    var old', new' := groups + [p.part], groups + [p.part + [block]];
    assert Concatenated(groups) + (p.part + [block]) == Concatenated(groups) + p.part + [block];
    var chunks := p.chunks + [Content(header, p.part)];
    forall i | 0 <= i < |groups| ensures new'[i] == old'[i] && chunks[i] == p.chunks[i] && old'[i] != [] {
    }
    forall i | 0 <= i < |groups| ensures Full(header, new'[i], new'[i + 1]) {
      assert Full(header, old'[i], old'[i + 1]);
    }
  }

  lemma OpenCloses(header: string, blocks: seq<string>, p: Packing, groups: seq<seq<string>>, block: string)
    requires Packs(header, blocks, p.chunks + [Content(header, p.part)], groups + [p.part]) && p.part != []
    requires |Content(header, p.part + [block])| > MAX_CONTENT_CHARS && |header| + 2 + |block| <= MAX_CONTENT_CHARS
    ensures Packs(header, blocks + [block], p.chunks + [Content(header, p.part)] + [Content(header, [block])], groups + [p.part] + [[block]])
  {
    SingleContent(header, block);
    hide Content;
    ConcatenatedAppend(groups + [p.part], [block]);
    var old', new' := groups + [p.part], groups + [p.part] + [[block]];
    forall i | 0 <= i < |old'| ensures Full(header, new'[i], new'[i + 1]) {
      if i < |groups| {
        assert Full(header, old'[i], old'[i + 1]);
      }
    }
  }

  lemma {:induction false} GreedyPacks(header: string, blocks: seq<string>) returns (groups: seq<seq<string>>)
    requires AllFit(header, blocks)
    ensures PacksSoFar(header, blocks, Packed(header, blocks), groups)
  {
    groups := [];
    if blocks != [] {
      var n := |blocks| - 1;
      SplitLast(blocks);
      groups := GreedyPacks(header, blocks[..n]);
      var p := Packed(header, blocks[..n]);
      SingleContent(header, blocks[n]);
      if n == 0 {
        FirstBlock(header, blocks[0]);
      } else if |Content(header, p.part + [blocks[n]])| > MAX_CONTENT_CHARS {
        hide Content, Packs;
        OpenCloses(header, blocks[..n], p, groups, blocks[n]);
        groups := groups + [p.part];
      } else {
        hide Content, Packs;
        OpenGrows(header, blocks[..n], p, groups, blocks[n]);
      }
    }
  }

  lemma FirstBlock(header: string, block: string)
    requires |header| + 2 + |block| <= MAX_CONTENT_CHARS
    ensures Packed(header, [block]) == Packing([], [block])
    ensures Packs(header, [block], [] + [Content(header, [block])], [] + [[block]])
  {
    SingleContent(header, block);
    hide Content, Packs, Packed;
    NothingPacked(header, [block]);
    NextBlock(header, [block], 0);
    assert [block][..1] == [block] && [] + [block] == [block];
    OneGroupPacks(header, block);
  }

  lemma OneGroupPacks(header: string, block: string)
    requires |Content(header, [block])| <= MAX_CONTENT_CHARS
    ensures Packs(header, [block], [] + [Content(header, [block])], [] + [[block]])
  {
    hide Content;
    ConcatenatedAppend([], [block]);
  }

  /**
   * The exact condition: the chunks hold whole turns in order, each once, under the cap
   * and greedily filled, iff every turn fits under the header alone.
   */
  lemma PackedProperlyExactly(header: string, blocks: seq<string>)
    requires blocks != []
    ensures (exists groups :: Packs(header, blocks, AllChunks(header, blocks), groups)) <==> AllFit(header, blocks)
  {
    if AllFit(header, blocks) {
      var groups := GreedyPacks(header, blocks);
      assert Packs(header, blocks, AllChunks(header, blocks), groups + [Packed(header, blocks).part]);
    }
    if groups :| Packs(header, blocks, AllChunks(header, blocks), groups) {
      PackingNeedsFit(header, blocks, AllChunks(header, blocks), groups);
    }
  }

  /** Without turns the header is the one chunk; with turns it is never alone, unless it is as long as the cap itself. */
  lemma HeaderAloneExactly(header: string, blocks: seq<string>)
    ensures blocks == [] ==> AllChunks(header, blocks) == [header]
    ensures blocks != [] && |header| != MAX_CONTENT_CHARS ==> AllChunks(header, blocks) !in {[], [header]}
  {
    if blocks == [] {
      NothingPacked(header, blocks);
    } else {
      hide Packed, JoinWith;
      HeaderIsFollowed(header, blocks);
      var p, chunks := Packed(header, blocks), AllChunks(header, blocks);
      assert |Content(header, p.part)| > |header|;
      assert chunks[|chunks| - 1] == if p.part != [] then Content(header, p.part) else p.chunks[|p.chunks| - 1];
      assert |header| != MAX_CONTENT_CHARS ==> |chunks[|chunks| - 1]| != |header|;
    }
  }

  /** Every chunk of turns holds the header and more, or was cut at the cap. */
  lemma {:induction false} HeaderIsFollowed(header: string, blocks: seq<string>)
    requires blocks != []
    ensures var p := Packed(header, blocks);
            && (p.chunks != [] || p.part != [])
            && forall i :: 0 <= i < |p.chunks| ==> |p.chunks[i]| >= |header| + 2 || |p.chunks[i]| == MAX_CONTENT_CHARS
  {
    hide JoinWith;
    if |blocks| > 1 {
      HeaderIsFollowed(header, blocks[..|blocks| - 1]);
    } else {
      NothingPacked(header, blocks);
      assert blocks[..0] == [];
    }
  }

  /** A turn of 60000 characters is cut: whatever the header, one chunk that holds no whole turn. */
  lemma OversizedTurnExample(header: string)
    ensures var blocks := Blocks([DialogueTurn(Letters(60000), "")]);
            && AllChunks(header, blocks) == [Content(header, blocks)[..MAX_CONTENT_CHARS]]
            && forall groups :: !Packs(header, blocks, AllChunks(header, blocks), groups)
  {
    hide Packs, JoinWith;
    var turn := DialogueTurn(Letters(60000), "");
    var blocks := Blocks([turn]);
    FormatLength(turn, 0);
    assert blocks == [FormatTurn(turn, 0)];
    assert !AllFit(header, blocks) by {
      assert |blocks[0]| > MAX_CONTENT_CHARS;
    }
    PackedProperlyExactly(header, blocks);
    SingleContent(header, blocks[0]);
    hide Packed, Content;
    NothingPacked(header, blocks);
    NextBlock(header, blocks, 0);
    assert blocks[..1] == blocks && [] + [blocks[0]] == blocks;
  }

  function Letters(n: nat): (s: string)
    ensures |s| == n
  {
    seq(n, i => 'x')
  }

  // ---------------------------------------------------------------- turns of the parser fit

  lemma {:induction false} NatTextGrows(a: nat, b: nat)
    requires a <= b
    ensures |NatText(a)| <= |NatText(b)|
  {
    if a >= 10 {
      NatTextGrows(a / 10, b / 10);
    }
  }

  lemma JoinAppend(parts: seq<string>, last: string)
    requires parts != []
    ensures JoinWith(parts + [last], "\n\n") == JoinWith(parts, "\n\n") + "\n\n" + last
  {
    assert (parts + [last])[..|parts|] == parts;
  }

  lemma FormatLength(turn: DialogueTurn, index: nat)
    ensures |turn.user| + |turn.assistant| < |FormatTurn(turn, index)| <= 12 + |NatText(index + 1)| + 13 + |turn.user| + 18 + |turn.assistant|
  {
    hide JoinWith;
    var head := ["### Giliran " + NatText(index + 1)];
    JoinOne(head[0]);
    var withUser := head + if turn.user != "" then ["**User:**", turn.user] else [];
    if turn.user != "" {
      JoinAppend(head, "**User:**");
      JoinAppend(head + ["**User:**"], turn.user);
      assert withUser == head + ["**User:**"] + [turn.user];
    } else {
      assert withUser == head;
    }
    if turn.assistant != "" {
      JoinAppend(withUser, "**Assistant:**");
      JoinAppend(withUser + ["**Assistant:**"], turn.assistant);
      assert withUser + ["**Assistant:**", turn.assistant] == withUser + ["**Assistant:**"] + [turn.assistant];
    } else {
      assert withUser + [] == withUser;
    }
  }

  function Section(name: string, text: string): string {
    if text == "" then "" else "\n\n" + name + "\n\n" + text
  }

  lemma SectionJoins(parts: seq<string>, name: string, text: string)
    requires parts != []
    ensures JoinWith(parts + (if text != "" then [name, text] else []), "\n\n") == JoinWith(parts, "\n\n") + Section(name, text)
  {
    hide JoinWith;
    if text == "" {
      assert parts + [] == parts;
    } else {
      JoinAppend(parts, name);
      JoinAppend(parts + [name], text);
      assert parts + [name, text] == parts + [name] + [text];
      Regroup(JoinWith(parts, "\n\n"), "\n\n", name, text);
      SectionText(JoinWith(parts, "\n\n"), name, text);
    }
  }

  lemma SectionText(front: string, name: string, text: string)
    ensures front + "\n\n" + name + "\n\n" + text == front + ("\n\n" + name + "\n\n" + text)
  {
  }

  /** The text of a turn: its number, then what the user and the assistant said, each under its name, if anything. */
  lemma FormatReads(turn: DialogueTurn, index: nat)
    ensures FormatTurn(turn, index) ==
              "### Giliran " + NatText(index + 1) + Section("**User:**", turn.user) + Section("**Assistant:**", turn.assistant)
  {
    hide JoinWith, Section;
    var head := ["### Giliran " + NatText(index + 1)];
    JoinOne(head[0]);
    SectionJoins(head, "**User:**", turn.user);
    SectionJoins(head + (if turn.user != "" then ["**User:**", turn.user] else []), "**Assistant:**", turn.assistant);
  }

  lemma JoinOne(a: string)
    ensures JoinWith([a], "\n\n") == a
  {
  }

  lemma ParsedTurnsAreShort(lines: seq<Line>, t: DialogueTurn)
    requires t in ParseTranscript(lines)
    ensures |t.user| <= 2013 && |t.assistant| <= 4013 && (t.user != "" || t.assistant != "")
  {
    hide Finished, RawTurns;
    var turns := FinishAll(RawTurns(lines));
    var i :| 0 <= i < |turns| && turns[i] == t;
    FinishedIsShort(RawTurns(lines)[i]);
  }

  lemma FinishedIsShort(raw: RawTurn)
    ensures |Finished(raw).user| <= 2013 && |Finished(raw).assistant| <= 4013
  {
    assert |CUT_MARK| == 13;
  }

  /** The longest turn the parser makes takes 6069 characters and its number. */
  predicate LeavesRoom(header: string, turnCount: nat) {
    |header| + 2 + 6069 + |NatText(turnCount)| <= MAX_CONTENT_CHARS
  }

  /** Under a header that leaves room for one turn, the chunks of a parsed transcript are a proper packing. */
  lemma ParsedTranscriptPacks(lines: seq<Line>, header: string)
    requires ParseTranscript(lines) != [] && LeavesRoom(header, |ParseTranscript(lines)|)
    ensures var blocks := Blocks(ParseTranscript(lines));
            exists groups :: Packs(header, blocks, AllChunks(header, blocks), groups)
  {
    var turns := ParseTranscript(lines);
    var blocks := Blocks(turns);
    hide ParseTranscript, FormatTurn;
    forall i | 0 <= i < |blocks| ensures |header| + 2 + |blocks[i]| <= MAX_CONTENT_CHARS {
      ParsedTurnsAreShort(lines, turns[i]);
      FormatLength(turns[i], i);
      NatTextGrows(i + 1, |turns|);
    }
    PackedProperlyExactly(header, blocks);
  }
}
