/** `renderGeneratedBlocks` of `scripts/checks/check-generated-docs.ts`: puts generated text between the
    marker lines of a document. */
module GeneratedBlocks {
  import opened Options
  import opened Lists
  import opened Splitting

  // --- Marker lines ---------------------------------------------------------------------------------------

  predicate IdChar(c: char) {
    'a' <= c <= 'z' || '0' <= c <= '9' || c == '-'
  }

  predicate IsId(id: string) {
    id != "" && forall c | c in id :: IdChar(c)
  }

  const START := "<!-- generated:"
  const END := "<!-- /generated:"
  const TAIL := " -->"

  function StartLine(id: string): string { START + id + TAIL }

  function EndLine(id: string): string { END + id + TAIL }

  /** The id between `head` and the tail of a marker line, if the line is one. */
  function MarkerId(line: string, head: string): (id: Option<string>)
    ensures id.Some? ==> IsId(id.value) && line == head + id.value + TAIL
  {
    if |line| > |head| + 4 && line[..|head|] == head && line[|line| - 4..] == TAIL && IsId(line[|head|..|line| - 4])
    then
      assert line == line[..|head|] + line[|head|..|line| - 4] + line[|line| - 4..];
      Some(line[|head|..|line| - 4])
    else None
  }

  lemma MarkerIdOf(head: string, id: string)
    requires IsId(id)
    ensures MarkerId(head + id + TAIL, head) == Some(id)
  {
    var line := head + id + TAIL;
    assert line[..|head|] == head && line[|head|..|line| - 4] == id && line[|line| - 4..] == TAIL;
  }

  lemma StartIsNotEnd(line: string)
    ensures !(MarkerId(line, START).Some? && MarkerId(line, END).Some?)
  {
    if MarkerId(line, START).Some? {
      assert line[5] == START[5];
    }
    if MarkerId(line, END).Some? {
      assert line[5] == END[5];
    }
  }

  predicate IsMarker(line: string) {
    MarkerId(line, START).Some? || MarkerId(line, END).Some?
  }

  // --- Documents as segments ------------------------------------------------------------------------------

  /** A line outside all blocks, or a block with what stands between its markers. */
  datatype Segment = Line(line: string) | Block(id: string, body: seq<string>)

  predicate SegmentOk(s: Segment) {
    match s
    case Line(line) => !IsMarker(line)
    case Block(id, body) => IsId(id) && forall l | l in body :: !IsMarker(l)
  }

  function SegmentLines(s: Segment): seq<string> {
    match s
    case Line(line) => [line]
    case Block(id, body) => [StartLine(id)] + body + [EndLine(id)]
  }

  function Lines(segments: seq<Segment>): seq<string> {
    if segments == [] then [] else SegmentLines(segments[0]) + Lines(segments[1..])
  }

  function Ids(segments: seq<Segment>): seq<string> {
    if segments == [] then []
    else (if segments[0].Block? then [segments[0].id] else []) + Ids(segments[1..])
  }

  /** Every block of the document is given, once, and every given block is in the document. */
  predicate Matches(segments: seq<Segment>, blocks: map<string, string>) {
    && Distinct(Ids(segments))
    && (forall id | id in Ids(segments) :: id in blocks)
    && (forall id | id in blocks :: id in Ids(segments))
  }

  // --- Generated text -------------------------------------------------------------------------------------

  /** `replace(/\n+$/, '')`. */
  function TrimEnd(text: string): string {
    if text != "" && text[|text| - 1] == '\n' then TrimEnd(text[..|text| - 1]) else text
  }

  /** `split('\n')`. */
  function SplitLines(text: string): seq<string> {
    Split(text, '\n')
  }

  function BlockLines(text: string): seq<string> {
    SplitLines(TrimEnd(text))
  }

  function FillOne(s: Segment, blocks: map<string, string>): Segment {
    if s.Block? && s.id in blocks then Block(s.id, BlockLines(blocks[s.id])) else s
  }

  /** The document with the given text in every block. */
  function Fill(segments: seq<Segment>, blocks: map<string, string>): seq<Segment> {
    if segments == [] then [] else [FillOne(segments[0], blocks)] + Fill(segments[1..], blocks)
  }

  // --- Reading a document -----------------------------------------------------------------------------------

  /** The line from `j` on that closes block `id`, if no other marker comes before it. */
  function CloseOf(lines: seq<string>, j: nat, id: string): (r: Option<nat>)
    requires j <= |lines|
    ensures r.Some? ==> j <= r.value < |lines| && lines[r.value] == EndLine(id)
    decreases |lines| - j
  {
    if j == |lines| then None
    else if lines[j] == EndLine(id) then Some(j)
    else if IsMarker(lines[j]) then None
    else CloseOf(lines, j + 1, id)
  }

  /** The segments from line `i` on, if the markers are well nested. */
  function Parse(lines: seq<string>, i: nat): Option<seq<Segment>>
    requires i <= |lines|
    decreases |lines| - i
  {
    if i == |lines| then Some([])
    else if MarkerId(lines[i], END).Some? then None
    else if MarkerId(lines[i], START) == None then
      Prepend(Line(lines[i]), Parse(lines, i + 1))
    else
      var id := MarkerId(lines[i], START).value;
      var close := CloseOf(lines, i + 1, id);
      if close == None then None
      else Prepend(Block(id, lines[i + 1..close.value]), Parse(lines, close.value + 1))
  }

  function Prepend(s: Segment, rest: Option<seq<Segment>>): Option<seq<Segment>> {
    if rest == None then None else Some([s] + rest.value)
  }

  /** What is rendered: nothing when an assertion fails. */
  function Rendered(lines: seq<string>, blocks: map<string, string>): Option<seq<string>> {
    var segments := Parse(lines, 0);
    if segments.Some? && Matches(segments.value, blocks) then Some(Lines(Fill(segments.value, blocks))) else None
  }

  // --- The loop -------------------------------------------------------------------------------------------

  lemma Associate(a: seq<string>, b: seq<string>, c: seq<string>)
    ensures a + b + c == a + (b + c)
  {
  }

  lemma LinesCons(s: Segment, rest: seq<Segment>)
    ensures Lines([s] + rest) == SegmentLines(s) + Lines(rest)
  {
    assert ([s] + rest)[1..] == rest;
  }

  lemma FirstOf(a: seq<Segment>, b: seq<Segment>)
    requires a != []
    ensures a == [a[0]] + a[1..] && a + b == [a[0]] + (a[1..] + b)
  {
  }

  lemma {:induction false} LinesConcat(a: seq<Segment>, b: seq<Segment>)
    ensures Lines(a + b) == Lines(a) + Lines(b)
    decreases |a|
  {
    if a == [] {
      assert a + b == b;
    } else {
      LinesConcat(a[1..], b);
      FirstOf(a, b);
      LinesCons(a[0], a[1..]);
      LinesCons(a[0], a[1..] + b);
      Associate(SegmentLines(a[0]), Lines(a[1..]), Lines(b));
    }
  }

  lemma IdsCons(s: Segment, rest: seq<Segment>)
    ensures Ids([s] + rest) == (if s.Block? then [s.id] else []) + Ids(rest)
  {
    assert ([s] + rest)[1..] == rest;
  }

  lemma {:induction false} IdsConcat(a: seq<Segment>, b: seq<Segment>)
    ensures Ids(a + b) == Ids(a) + Ids(b)
    decreases |a|
  {
    if a == [] {
      assert a + b == b;
    } else {
      IdsConcat(a[1..], b);
      FirstOf(a, b);
      IdsCons(a[0], a[1..]);
      IdsCons(a[0], a[1..] + b);
      Associate(if a[0].Block? then [a[0].id] else [], Ids(a[1..]), Ids(b));
    }
  }

  lemma {:induction false} FillConcat(a: seq<Segment>, b: seq<Segment>, blocks: map<string, string>)
    ensures Fill(a + b, blocks) == Fill(a, blocks) + Fill(b, blocks)
    decreases |a|
  {
    if a == [] {
      assert a + b == b;
    } else {
      FillConcat(a[1..], b, blocks);
      assert (a + b)[1..] == a[1..] + b;
    }
  }

  /** One more segment. */
  lemma Snoc(done: seq<Segment>, s: Segment, blocks: map<string, string>)
    ensures Ids(done + [s]) == Ids(done) + if s.Block? then [s.id] else []
    ensures Lines(Fill(done + [s], blocks)) == Lines(Fill(done, blocks)) + SegmentLines(FillOne(s, blocks))
  {
    var t := FillOne(s, blocks);
    IdsConcat(done, [s]);
    FillConcat(done, [s], blocks);
    assert [s][1..] == [] && [t][1..] == [];
    assert Fill([s], blocks) == [t] && Lines([t]) == SegmentLines(t) + Lines([]);
    LinesConcat(Fill(done, blocks), [t]);
  }

  /** Whatever follows, the whole document reads as `done` and the rest. */
  ghost predicate Read(lines: seq<string>, done: seq<Segment>, index: nat)
    requires index <= |lines|
  {
    Parse(lines, 0) == if Parse(lines, index) == None then None else Some(done + Parse(lines, index).value)
  }

  lemma ReadMore(lines: seq<string>, done: seq<Segment>, index: nat, s: Segment, next: nat)
    requires index <= |lines| && next <= |lines| && Read(lines, done, index)
    requires Parse(lines, index) == Prepend(s, Parse(lines, next))
    ensures Read(lines, done + [s], next)
  {
    if Parse(lines, next).Some? {
      assert done + ([s] + Parse(lines, next).value) == done + [s] + Parse(lines, next).value;
    }
  }

  /** The blocks read so far are distinct and given. */
  ghost predicate Known(ids: seq<string>, seen: set<string>, blocks: map<string, string>) {
    && Distinct(ids)
    && (forall id :: id in seen <==> id in ids)
    && (forall id | id in ids :: id in blocks)
  }

  lemma KnownMore(ids: seq<string>, seen: set<string>, blocks: map<string, string>, id: string)
    requires Known(ids, seen, blocks) && id !in seen && id in blocks
    ensures Known(ids + [id], seen + {id}, blocks)
  {
  }

  lemma NotKnown(before: seq<string>, id: string, after: seq<string>, seen: set<string>, blocks: map<string, string>)
    requires Known(before, seen, blocks) && (id in seen || id !in blocks)
    ensures !Distinct(before + ([id] + after)) || exists x :: x in before + ([id] + after) && x !in blocks
  {
    var ids := before + ([id] + after);
    assert ids[|before|] == id;
    if id in seen {
      var k :| 0 <= k < |before| && before[k] == id;
      assert ids[k] == id;
    }
  }

  /** `output` is the rendering of `done`, and `seen` are its blocks. */
  ghost predicate Done(blocks: map<string, string>, done: seq<Segment>, output: seq<string>, seen: set<string>) {
    Known(Ids(done), seen, blocks) && output == Lines(Fill(done, blocks))
  }

  lemma DoneMore(blocks: map<string, string>, done: seq<Segment>, output: seq<string>, seen: set<string>, s: Segment)
    requires Done(blocks, done, output, seen) && (s.Block? ==> s.id in blocks && s.id !in seen)
    ensures Done(blocks, done + [s], output + SegmentLines(FillOne(s, blocks)),
             if s.Block? then seen + {s.id} else seen)
  {
    Snoc(done, s, blocks);
    if s.Block? {
      KnownMore(Ids(done), seen, blocks, s.id);
    }
  }

  /** A block that is not given, or that was there before, cannot be rendered. */
  lemma Refused(lines: seq<string>, blocks: map<string, string>, done: seq<Segment>, output: seq<string>,
      seen: set<string>, index: nat, s: Segment, next: nat)
    requires index <= |lines| && next <= |lines| && Read(lines, done, index) && Done(blocks, done, output, seen)
    requires Parse(lines, index) == Prepend(s, Parse(lines, next))
    requires s.Block? && (s.id !in blocks || s.id in seen)
    ensures Rendered(lines, blocks) == None
  {
    if Parse(lines, 0).Some? {
      var rest := Parse(lines, next).value;
      IdsConcat(done, [s] + rest);
      IdsCons(s, rest);
      NotKnown(Ids(done), s.id, Ids(rest), seen, blocks);
    }
  }

  lemma ParseBlock(lines: seq<string>, index: nat, id: string, close: nat)
    requires index < |lines| && MarkerId(lines[index], START) == Some(id)
    requires CloseOf(lines, index + 1, id) == Some(close)
    ensures Parse(lines, index) == Prepend(Block(id, lines[index + 1..close]), Parse(lines, close + 1))
  {
    StartIsNotEnd(lines[index]);
  }

  /** The inner loop: looks for the closing line of `id`. */
  method FindClose(lines: seq<string>, from: nat, id: string) returns (close: Option<nat>)
    requires from <= |lines|
    ensures close == CloseOf(lines, from, id)
  {
    var index := from;
    while index < |lines| && lines[index] != EndLine(id)
      invariant from <= index <= |lines| && CloseOf(lines, index, id) == CloseOf(lines, from, id)
    {
      if MarkerId(lines[index], START).Some? || MarkerId(lines[index], END).Some? {
        return None;
      }
      index := index + 1;
    }
    close := if index < |lines| then Some(index) else None;
  }

  /** The segment at `index`, and where the next one starts; `None` when the markers there are not well nested. */
  method NextSegment(lines: seq<string>, index: nat) returns (found: Option<(Segment, nat)>)
    requires index < |lines|
    ensures found == None ==> Parse(lines, index) == None
    ensures found.Some? ==>
      && index < found.value.1 <= |lines|
      && Parse(lines, index) == Prepend(found.value.0, Parse(lines, found.value.1))
  {
    var start, end := MarkerId(lines[index], START), MarkerId(lines[index], END);
    if end.Some? {
      found := None;
    } else if start == None {
      found := Some((Line(lines[index]), index + 1));
    } else {
      var close := FindClose(lines, index + 1, start.value);
      if close == None {
        found := None;
      } else {
        ParseBlock(lines, index, start.value, close.value);
        found := Some((Block(start.value, lines[index + 1..close.value]), close.value + 1));
      }
    }
  }

  lemma AllDone(lines: seq<string>, blocks: map<string, string>, done: seq<Segment>, output: seq<string>,
      seen: set<string>)
    requires Read(lines, done, |lines|) && Done(blocks, done, output, seen)
    ensures Rendered(lines, blocks) == if blocks.Keys <= seen then Some(output) else None
  {
    assert done + [] == done;
    assert Parse(lines, 0) == Some(done);
    if blocks.Keys <= seen {
      assert Matches(done, blocks);
    } else {
      var missing :| missing in blocks && missing !in seen;
      assert !Matches(done, blocks);
    }
  }

  /** `None` when one of the source's assertions fails. */
  method RenderLines(lines: seq<string>, blocks: map<string, string>) returns (result: Option<seq<string>>)
    ensures result == Rendered(lines, blocks)
  {
    var output: seq<string>, seen: set<string>, index := [], {}, 0;
    ghost var done: seq<Segment> := [];
    assert Parse(lines, 0).Some? ==> [] + Parse(lines, 0).value == Parse(lines, 0).value;
    while index < |lines|
      invariant 0 <= index <= |lines| && Read(lines, done, index) && Done(blocks, done, output, seen)
    {
      var found := NextSegment(lines, index);
      if found == None {
        return None;
      }
      var (s, next) := found.value;
      if s.Block? && (s.id !in blocks || s.id in seen) {
        Refused(lines, blocks, done, output, seen, index, s, next);
        return None;
      }
      ReadMore(lines, done, index, s, next);
      DoneMore(blocks, done, output, seen, s);
      seen := if s.Block? then seen + {s.id} else seen;
      output, index := output + SegmentLines(FillOne(s, blocks)), next;
      done := done + [s];
    }
    AllDone(lines, blocks, done, output, seen);
    result := if blocks.Keys <= seen then Some(output) else None;
  }
}
