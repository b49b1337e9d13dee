/** The whole of `renderGeneratedBlocks`, from text to text: line breaks are read as either kind and written as
    the source had them. */
module GeneratedBlocksText {
  import opened Alphabets
  import opened Options
  import opened Splitting
  import opened GeneratedBlocks
  import opened GeneratedBlocksProperties

  // --- Line breaks ----------------------------------------------------------------------------------------

  predicate CrLfAt(s: string, i: int) {
    0 <= i < |s| - 1 && s[i] == '\r' && s[i + 1] == '\n'
  }

  /** `includes('\r\n')`. */
  predicate HasCrLf(s: string) {
    exists i | 0 <= i < |s| :: CrLfAt(s, i)
  }

  /** `replaceAll('\r\n', '\n')`. */
  function Normalised(s: string): string {
    if s == "" then ""
    else if CrLfAt(s, 0) then ['\n'] + Normalised(s[2..])
    else [s[0]] + Normalised(s[1..])
  }

  const LF := "\n"
  const CRLF := "\r\n"

  function Newline(source: string): string {
    if HasCrLf(source) then CRLF else LF
  }

  function RenderedText(source: string, blocks: map<string, string>): Option<string> {
    var output := Rendered(SplitLines(Normalised(source)), blocks);
    if output == None then None else Some(Joined(output.value, Newline(source)))
  }

  /** `None` when one of the source's assertions fails. */
  method RenderGeneratedBlocks(source: string, blocks: map<string, string>) returns (result: Option<string>)
    ensures result == RenderedText(source, blocks)
  {
    var newline := Newline(source);
    var output := RenderLines(SplitLines(Normalised(source)), blocks);
    result := if output == None then None else Some(Joined(output.value, newline));
  }

  // --- Lines ----------------------------------------------------------------------------------------------

  /** A line holds no line break. */
  predicate IsLine(line: string) {
    '\n' !in line
  }

  predicate AreLines(lines: seq<string>) {
    AllFree(lines, '\n')
  }

  /** Each block holds its text, without the trailing line breaks. */
  lemma BlockText(text: string)
    ensures AreLines(BlockLines(text)) && Joined(BlockLines(text), LF) == TrimEnd(text)
  {
    JoiningUndoesSplitting(TrimEnd(text), '\n');
  }

  function Breaks(n: nat): string {
    seq(n, _ => '\n')
  }

  lemma {:induction false} TrimmedText(text: string) returns (n: nat)
    ensures text == TrimEnd(text) + Breaks(n) && (TrimEnd(text) != "" ==> TrimEnd(text)[|TrimEnd(text)| - 1] != '\n')
    decreases |text|
  {
    if text != "" && text[|text| - 1] == '\n' {
      n := TrimmedText(text[..|text| - 1]);
      assert text == text[..|text| - 1] + ['\n'] && Breaks(n + 1) == Breaks(n) + ['\n'];
      n := n + 1;
    } else {
      n := 0;
      assert text + Breaks(0) == text;
    }
  }

  /** A text is what its block holds and the line breaks that come last. */
  lemma TextOfBlock(text: string) returns (n: nat)
    ensures var body := Joined(BlockLines(text), LF);
      text == body + Breaks(n) && (body != "" ==> body[|body| - 1] != '\n')
  {
    BlockText(text);
    n := TrimmedText(text);
  }

  /** An id is made of small letters, digits and hyphens. */
  lemma IdsAre(id: string)
    ensures IsId(id) <==> id != "" && forall c | c in id :: c in LOWER || c in DIGITS || c == '-'
  {
    forall c | c in id ensures IdChar(c) <==> c in LOWER || c in DIGITS || c == '-' {
      LowerIs(c);
      DigitIs(c);
    }
  }

  // --- Either kind of line break --------------------------------------------------------------------------

  lemma {:induction false} NormaliseLine(line: string)
    requires IsLine(line)
    ensures Normalised(line) == line
    decreases |line|
  {
    if line != "" {
      NormaliseLine(line[1..]);
    }
  }

  lemma {:induction false} NormaliseFirst(line: string, rest: string)
    requires IsLine(line)
    ensures Normalised(line + CRLF + rest) == line + LF + Normalised(rest)
    decreases |line|
  {
    var text := line + CRLF + rest;
    if line == "" {
      assert text[2..] == rest;
    } else {
      assert text[1..] == line[1..] + CRLF + rest;
      assert !CrLfAt(text, 0);
      NormaliseFirst(line[1..], rest);
      assert [line[0]] + (line[1..] + LF + Normalised(rest)) == line + LF + Normalised(rest);
    }
  }

  lemma {:induction false} NormaliseJoined(lines: seq<string>)
    requires AreLines(lines)
    ensures Normalised(Joined(lines, CRLF)) == Joined(lines, LF)
    decreases |lines|
  {
    if |lines| == 1 {
      NormaliseLine(lines[0]);
    } else if |lines| > 1 {
      NormaliseJoined(lines[1..]);
      NormaliseFirst(lines[0], Joined(lines[1..], CRLF));
    }
  }

  lemma {:induction false} NormaliseNothing(s: string)
    requires !HasCrLf(s)
    ensures Normalised(s) == s
    decreases |s|
  {
    if s != "" {
      assert !CrLfAt(s, 0);
      forall i | 0 <= i < |s| - 1 ensures !CrLfAt(s[1..], i) {
        assert !CrLfAt(s, i + 1);
      }
      NormaliseNothing(s[1..]);
    }
  }

  predicate EndsInCr(line: string) {
    line != "" && line[|line| - 1] == '\r'
  }

  /** No line but the last ends in a carriage return. */
  predicate CrFree(lines: seq<string>) {
    forall k | 0 <= k < |lines| - 1 :: !EndsInCr(lines[k])
  }

  lemma CrLfAround(line: string, rest: string, i: int)
    requires IsLine(line)
    ensures EndsInCr(line) ==> line != ""
    ensures 0 <= i ==>
      (CrLfAt(line + LF + rest, i) <==>
       (i == |line| - 1 && EndsInCr(line)) || (i > |line| && CrLfAt(rest, i - |line| - 1)))
  {
  }

  lemma CrLfInFirst(line: string, rest: string)
    requires IsLine(line)
    ensures HasCrLf(line + LF + rest) <==> EndsInCr(line) || HasCrLf(rest)
  {
    hide CrLfAt, EndsInCr;
    var text := line + LF + rest;
    var n := |line| + 1;
    if EndsInCr(line) {
      CrLfAround(line, rest, |line| - 1);
    }
    if i :| 0 <= i < |rest| && CrLfAt(rest, i) {
      CrLfAround(line, rest, n + i);
    }
    if i :| 0 <= i < |text| && CrLfAt(text, i) {
      CrLfAround(line, rest, i);
    }
  }

  /** Lines joined by single line feeds show a carriage return and line feed only where a line ends in one. */
  lemma {:induction false} CrLfInJoined(lines: seq<string>)
    requires AreLines(lines)
    ensures HasCrLf(Joined(lines, LF)) <==> !CrFree(lines)
    decreases |lines|
  {
    if |lines| == 1 {
      assert forall i | 0 <= i < |lines[0]| :: lines[0][i] != '\n';
    } else if |lines| > 1 {
      CrLfInJoined(lines[1..]);
      CrLfInFirst(lines[0], Joined(lines[1..], LF));
      CrFreeCons(lines[0], lines[1..]);
      assert lines == [lines[0]] + lines[1..];
    }
  }

  lemma CrFreeCons(line: string, rest: seq<string>)
    requires rest != []
    ensures CrFree([line] + rest) <==> !EndsInCr(line) && CrFree(rest)
  {
    var all := [line] + rest;
    if CrFree(all) {
      assert !EndsInCr(all[0]);
      forall k | 0 <= k < |rest| - 1 ensures !EndsInCr(rest[k]) {
        assert !EndsInCr(all[k + 1]);
      }
    }
  }

  lemma CrLfInCrLfJoined(lines: seq<string>)
    requires |lines| > 1
    ensures HasCrLf(Joined(lines, CRLF))
  {
    var text := Joined(lines, CRLF);
    assert text == lines[0] + (CRLF + Joined(lines[1..], CRLF));
    assert CrLfAt(text, |lines[0]|);
  }

  // --- Rendering again ------------------------------------------------------------------------------------

  predicate NoneEndsInCr(lines: seq<string>) {
    forall k | 0 <= k < |lines| :: !EndsInCr(lines[k])
  }

  /** No line of generated text ends in a carriage return. */
  predicate NoCr(blocks: map<string, string>) {
    forall id | id in blocks :: NoneEndsInCr(BlockLines(blocks[id]))
  }

  lemma CrFreeConcat(a: seq<string>, b: seq<string>)
    requires b != []
    ensures CrFree(a + b) <==> NoneEndsInCr(a) && CrFree(b)
  {
    var all := a + b;
    assert forall k | 0 <= k < |a| :: all[k] == a[k];
    assert forall k | 0 <= k < |b| :: all[|a| + k] == b[k];
    if CrFree(all) {
      forall k | 0 <= k < |a| ensures !EndsInCr(a[k]) {
        assert !EndsInCr(all[k]);
      }
      forall k | 0 <= k < |b| - 1 ensures !EndsInCr(b[k]) {
        assert !EndsInCr(all[|a| + k]);
      }
    }
  }

  lemma MarkerIsLine(id: string)
    requires IsId(id)
    ensures IsLine(StartLine(id)) && IsLine(EndLine(id)) && !EndsInCr(StartLine(id)) && !EndsInCr(EndLine(id))
  {
    assert IsLine(id);
  }

  lemma BlockCr(id: string, body: seq<string>)
    requires IsId(id)
    ensures NoneEndsInCr(SegmentLines(Block(id, body))) <==> NoneEndsInCr(body)
    ensures CrFree(SegmentLines(Block(id, body))) <==> NoneEndsInCr(body)
  {
    var start, end := [StartLine(id)], [EndLine(id)];
    MarkerIsLine(id);
    CrFreeConcat(start + body, end);
    assert forall k | 0 <= k < |body| :: (start + body)[k + 1] == body[k];
    assert NoneEndsInCr(start + body) <==> NoneEndsInCr(body);
    assert SegmentLines(Block(id, body)) == start + body + end;
    assert NoneEndsInCr(start + body + end) <==> NoneEndsInCr(start + body);
  }

  /** In a document without carriage returns at line ends, filling brings one in exactly with a text that has one. */
  lemma {:induction false} FillBringsCr(segments: seq<Segment>, blocks: map<string, string>)
    requires WellNested(segments) && CrFree(Lines(segments)) && forall id | id in Ids(segments) :: id in blocks
    ensures CrFree(Lines(Fill(segments, blocks))) <==>
            forall id | id in Ids(segments) :: NoneEndsInCr(BlockLines(blocks[id]))
    decreases |segments|
  {
    hide CrFree, NoneEndsInCr;
    if segments != [] {
      var s, rest := segments[0], segments[1..];
      var t, filled := FillOne(s, blocks), Fill(rest, blocks);
      assert segments == [s] + rest;
      WellNestedCons(s, rest);
      IdsCons(s, rest);
      LinesCons(s, rest);
      LinesCons(t, filled);
      assert forall id :: id in Ids(segments) <==> (s.Block? && id == s.id) || id in Ids(rest);
      if s.Block? {
        BlockCr(s.id, BlockLines(blocks[s.id]));
      }
      if rest == [] {
        assert SegmentLines(t) + Lines(filled) == SegmentLines(t);
      } else {
        SomeLines(rest);
        SomeLines(filled);
        CrFreeConcat(SegmentLines(s), Lines(rest));
        CrFreeConcat(SegmentLines(t), Lines(filled));
        FillBringsCr(rest, blocks);
      }
    }
  }

  lemma SomeLines(segments: seq<Segment>)
    requires segments != []
    ensures Lines(segments) != []
  {
  }

  lemma {:induction false} FilledAreLines(segments: seq<Segment>, blocks: map<string, string>)
    requires WellNested(segments) && AreLines(Lines(segments)) && forall id | id in Ids(segments) :: id in blocks
    ensures AreLines(Lines(Fill(segments, blocks)))
    decreases |segments|
  {
    if segments != [] {
      var s, rest := segments[0], segments[1..];
      var t, filled := FillOne(s, blocks), Fill(rest, blocks);
      assert segments == [s] + rest;
      WellNestedCons(s, rest);
      IdsCons(s, rest);
      LinesCons(s, rest);
      LinesCons(t, filled);
      AreLinesConcat(SegmentLines(s), Lines(rest));
      AreLinesConcat(SegmentLines(t), Lines(filled));
      FilledAreLines(rest, blocks);
      if s.Block? {
        MarkerIsLine(s.id);
        BlockText(blocks[s.id]);
      }
    }
  }

  lemma AreLinesConcat(a: seq<string>, b: seq<string>)
    ensures AreLines(a + b) <==> AreLines(a) && AreLines(b)
  {
    var all := a + b;
    assert forall k | 0 <= k < |a| :: all[k] == a[k];
    assert forall k | 0 <= k < |b| :: all[|a| + k] == b[k];
    if AreLines(all) {
      forall k | 0 <= k < |a| ensures IsLine(a[k]) {
        assert IsLine(all[k]);
      }
      forall k | 0 <= k < |b| ensures IsLine(b[k]) {
        assert IsLine(all[|a| + k]);
      }
    }
  }

  /** Every line but the last ends in a carriage return. */
  predicate AllEndInCr(lines: seq<string>) {
    forall k | 0 <= k < |lines| - 1 :: EndsInCr(lines[k])
  }

  /** Split at line feeds alone, a text with the other line breaks leaves a carriage return on every line. */
  lemma {:induction false} CrLfLeavesCr(lines: seq<string>)
    requires lines != [] && AreLines(lines)
    ensures AllEndInCr(SplitLines(Joined(lines, CRLF)))
    decreases |lines|
  {
    if |lines| == 1 {
      SplitOne(lines[0], '\n');
    } else {
      CrLfLeavesCr(lines[1..]);
      var line, rest := lines[0] + ['\r'], Joined(lines[1..], CRLF);
      assert Joined(lines, CRLF) == line + LF + rest;
      SplitFirst(line, '\n', rest);
    }
  }

  /** An opening marker is neither the last line nor ends in a carriage return. */
  lemma {:induction false} StartStands(segments: seq<Segment>, blocks: map<string, string>, id: string)
    requires WellNested(segments) && id in Ids(segments)
    ensures !AllEndInCr(Lines(Fill(segments, blocks)))
    decreases |segments|
  {
    hide WellNested, AllEndInCr, BlockLines;
    var s, rest := segments[0], segments[1..];
    var t, filled := FillOne(s, blocks), Fill(rest, blocks);
    assert segments == [s] + rest;
    WellNestedCons(s, rest);
    IdsCons(s, rest);
    LinesCons(t, filled);
    if s.Block? {
      BlockStands(s.id, t.body, Lines(filled));
    } else {
      StartStands(rest, blocks, id);
      LineInFront(s.line, Lines(filled));
    }
  }

  lemma BlockStands(id: string, body: seq<string>, rest: seq<string>)
    requires IsId(id)
    ensures !AllEndInCr(SegmentLines(Block(id, body)) + rest)
  {
    MarkerIsLine(id);
    var all := SegmentLines(Block(id, body)) + rest;
    assert all[0] == StartLine(id) && |all| >= 2;
  }

  lemma LineInFront(line: string, rest: seq<string>)
    requires !AllEndInCr(rest)
    ensures !AllEndInCr([line] + rest)
  {
    var k :| 0 <= k < |rest| - 1 && !EndsInCr(rest[k]);
    assert ([line] + rest)[k + 1] == rest[k];
  }

  /** What is rendered from a text: lines without line breaks, with carriage returns at line ends exactly if the
      generated texts bring them in. */
  lemma RenderedLines(source: string, blocks: map<string, string>) returns (output: seq<string>)
    requires RenderedText(source, blocks).Some?
    ensures Rendered(SplitLines(Normalised(source)), blocks) == Some(output) && output != [] && AreLines(output)
    ensures !HasCrLf(source) ==> (CrFree(output) <==> NoCr(blocks))
    ensures blocks != map[] ==> !AllEndInCr(output)
  {
    var lines := SplitLines(Normalised(source));
    output := Rendered(lines, blocks).value;
    ParseIsSound(lines, 0);
    var segments := Parse(lines, 0).value;
    JoiningUndoesSplitting(Normalised(source), '\n');
    FilledAreLines(segments, blocks);
    SomeLines(Fill(segments, blocks));
    if !HasCrLf(source) {
      NormaliseNothing(source);
      CrLfInJoined(lines);
      FillBringsCr(segments, blocks);
    }
    if id :| id in blocks {
      StartStands(segments, blocks, id);
    }
  }

  /** Lines joined by either line break read back as they are. */
  lemma JoinedReadsBack(lines: seq<string>, newline: string)
    requires lines != [] && AreLines(lines) && (newline == CRLF || (newline == LF && CrFree(lines)))
    ensures SplitLines(Normalised(Joined(lines, newline))) == lines
    ensures Joined(lines, Newline(Joined(lines, newline))) == Joined(lines, newline)
  {
    SplittingUndoesJoining(lines, '\n');
    if newline == CRLF {
      NormaliseJoined(lines);
      if |lines| > 1 {
        CrLfInCrLfJoined(lines);
      }
    } else {
      CrLfInJoined(lines);
      NormaliseNothing(Joined(lines, LF));
    }
  }

  /** Rendering its own result gives it back exactly when no generated text holds a marker line and none brings
      in a carriage return and line feed that the document had not. */
  lemma RenderingTextAgain(source: string, blocks: map<string, string>, text: string)
    requires RenderedText(source, blocks) == Some(text)
    ensures RenderedText(text, blocks) == Some(text) <==> MarkerFree(blocks) && (HasCrLf(source) || NoCr(blocks))
  {
    var lines := SplitLines(Normalised(source));
    var output := RenderedLines(source, blocks);
    if HasCrLf(source) || NoCr(blocks) {
      JoinedReadsBack(output, Newline(source));
      RenderingAgain(lines, blocks, output);
    } else if RenderedText(text, blocks) == Some(text) {
      CrLfInJoined(output);
      var again := RenderedLines(text, blocks);
      CrLfLeavesCr(again);
      SplittingUndoesJoining(output, '\n');
      assert false;
    }
  }

  // --- Documents that are up to date ----------------------------------------------------------------------

  /** Every block holds its text already. */
  predicate UpToDate(segments: seq<Segment>, blocks: map<string, string>) {
    forall k | 0 <= k < |segments| && segments[k].Block? ::
      segments[k].id in blocks && segments[k].body == BlockLines(blocks[segments[k].id])
  }

  lemma {:induction false} NothingToFill(segments: seq<Segment>, blocks: map<string, string>)
    requires UpToDate(segments, blocks)
    ensures Fill(segments, blocks) == segments
    decreases |segments|
  {
    if segments != [] {
      forall k | 0 <= k < |segments[1..]| && segments[1..][k].Block?
        ensures segments[1..][k].id in blocks && segments[1..][k].body == BlockLines(blocks[segments[1..][k].id])
      {
        assert segments[1..][k] == segments[k + 1];
      }
      NothingToFill(segments[1..], blocks);
      assert FillOne(segments[0], blocks) == segments[0] && segments == [segments[0]] + segments[1..];
    }
  }

  /** A document that is up to date is rendered as it is, with the line breaks that it has. */
  lemma UpToDateIsKept(segments: seq<Segment>, blocks: map<string, string>, newline: string)
    requires segments != [] && WellNested(segments) && Matches(segments, blocks) && UpToDate(segments, blocks)
    requires AreLines(Lines(segments)) && (newline == "\r\n" || (newline == "\n" && CrFree(Lines(segments))))
    ensures RenderedText(Joined(Lines(segments), newline), blocks) == Some(Joined(Lines(segments), newline))
  {
    hide Matches, UpToDate, WellNested, AreLines, CrFree, Normalised, HasCrLf, Rendered;
    SomeLines(segments);
    JoinedReadsBack(Lines(segments), newline);
    RenderingFillsBlocks(segments, blocks);
    NothingToFill(segments, blocks);
  }

  // --- One document for each ------------------------------------------------------------------------------

  const OPENING := "<!-- generated:a -->"
  const CLOSING := "<!-- /generated:a -->"

  /** An empty block. */
  const DOCUMENT := OPENING + "\n" + CLOSING

  lemma MarkersStand()
    ensures IsId("a") && StartLine("a") == OPENING && EndLine("a") == CLOSING
    ensures AreLines([OPENING, CLOSING]) && CrFree([OPENING, CLOSING]) && Joined([OPENING, CLOSING], LF) == DOCUMENT
  {
    MarkerIsLine("a");
    assert START + "a" + TAIL == OPENING && END + "a" + TAIL == CLOSING;
    assert [OPENING, CLOSING][1..] == [CLOSING];
  }

  lemma EmptyBlock(text: string)
    ensures Lines([Block("a", [])]) == [OPENING, CLOSING] && WellNested([Block("a", [])])
    ensures Matches([Block("a", [])], map["a" := text])
    ensures Lines(Fill([Block("a", [])], map["a" := text])) == [OPENING] + BlockLines(text) + [CLOSING]
  {
    hide BlockLines;
    MarkersStand();
    var none: seq<string>, one := [], Block("a", []);
    assert [one][1..] == [] && SegmentLines(one) == [StartLine("a")] + none + [EndLine("a")];
    assert Lines([one]) == SegmentLines(one) + Lines([]);
    assert Ids([one]) == ["a"];
    var filled := FillOne(one, map["a" := text]);
    assert Fill([one], map["a" := text]) == [filled];
    assert [filled][1..] == [] && Lines([filled]) == SegmentLines(filled) + Lines([]);
  }

  /** The text is put into the document. */
  lemma DocumentIsFilled(text: string)
    ensures RenderedText(DOCUMENT, map["a" := text]) == Some(Joined([OPENING] + BlockLines(text) + [CLOSING], LF))
    ensures !HasCrLf(DOCUMENT)
  {
    hide Rendered, Lines, Fill, Matches, WellNested, BlockLines, Normalised, HasCrLf;
    MarkersStand();
    EmptyBlock(text);
    JoinedReadsBack([OPENING, CLOSING], LF);
    CrLfInJoined([OPENING, CLOSING]);
    RenderingFillsBlocks([Block("a", [])], map["a" := text]);
  }

  lemma OneLine(text: string)
    requires IsLine(text)
    ensures BlockLines(text) == [text]
  {
    assert text != "" ==> text[|text| - 1] in text;
    SplitOne(text, '\n');
  }

  lemma OpeningText()
    ensures Joined([OPENING, OPENING, CLOSING], LF) == OPENING + "\n" + OPENING + "\n" + CLOSING
  {
    var output := [OPENING, OPENING, CLOSING];
    MarkersStand();
    assert output[1..] == [OPENING, CLOSING];
    assert Joined(output, LF) == OPENING + LF + (OPENING + LF + CLOSING);
  }

  /** A document whose generated text is its own opening marker is rendered, and its rendering is refused. */
  lemma MarkerTextIsRefused()
    ensures var blocks, text := map["a" := OPENING], OPENING + "\n" + OPENING + "\n" + CLOSING;
      RenderedText(DOCUMENT, blocks) == Some(text) && RenderedText(text, blocks) == None
  {
    hide RenderedText, HasCrLf, Joined, BlockLines, IsLine;
    MarkersStand();
    OneLine(OPENING);
    DocumentIsFilled(OPENING);
    assert [OPENING] + [OPENING] + [CLOSING] == [OPENING, OPENING, CLOSING];
    OpeningText();
    MarkerTextFails();
  }

  lemma OpeningIsFilled()
    ensures Rendered([OPENING, CLOSING], map["a" := OPENING]) == Some([OPENING, OPENING, CLOSING])
  {
    hide Rendered, Lines, Fill, Matches, WellNested, BlockLines;
    MarkersStand();
    OneLine(OPENING);
    EmptyBlock(OPENING);
    RenderingFillsBlocks([Block("a", [])], map["a" := OPENING]);
    assert [OPENING] + [OPENING] + [CLOSING] == [OPENING, OPENING, CLOSING];
  }

  lemma OpeningIsNotFree()
    ensures !MarkerFree(map["a" := OPENING])
  {
    hide IsMarker, BlockLines;
    MarkersStand();
    OneLine(OPENING);
    OneMarker();
    assert "a" in map["a" := OPENING];
  }

  lemma MarkerTextFails()
    ensures RenderedText(Joined([OPENING, OPENING, CLOSING], LF), map["a" := OPENING]) == None
  {
    hide Rendered, Normalised, HasCrLf, Joined, MarkerFree;
    var output := [OPENING, OPENING, CLOSING];
    OpeningIsFilled();
    OpeningIsNotFree();
    RenderingAgain([OPENING, CLOSING], map["a" := OPENING], output);
    assert !EndsInCr(OPENING) && !EndsInCr(CLOSING);
    JoinedReadsBack(output, LF);
  }

  lemma OneMarker()
    ensures Markers([OPENING]) == 1
  {
    MarkersStand();
    MarkerIdOf(START, "a");
    assert Markers([]) == 0 && [OPENING][1..] == [];
  }

  /** The id of a block of the repository. */
  lemma CommandsAreAnId()
    ensures IsId("development-commands")
  {
    assert forall c | c in "development-commands" :: 'a' <= c <= 'z' || c == '-';
  }

  /** A text that brings the other line break into a document is not given back when its rendering is rendered. */
  lemma CrLfTextIsRewritten() returns (text: string)
    ensures var blocks := map["a" := "x\r\ny"];
      RenderedText(DOCUMENT, blocks) == Some(text) && RenderedText(text, blocks) != Some(text)
  {
    hide RenderedText, HasCrLf, BlockLines;
    var blocks := map["a" := "x\r\ny"];
    DocumentIsFilled("x\r\ny");
    text := RenderedText(DOCUMENT, blocks).value;
    CrLfBlock();
    assert "a" in blocks && !NoneEndsInCr(BlockLines(blocks["a"]));
    RenderingTextAgain(DOCUMENT, blocks, text);
  }

  lemma CrLfBlock()
    ensures !NoneEndsInCr(BlockLines("x\r\ny"))
  {
    SplitFirst("x\r", '\n', "y");
    SplitOne("y", '\n');
    assert "x\r" + ['\n'] + "y" == "x\r\ny";
    assert BlockLines("x\r\ny") == ["x\r", "y"];
    assert EndsInCr(["x\r", "y"][0]);
  }
}
