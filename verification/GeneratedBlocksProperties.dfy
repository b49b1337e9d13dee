/** What `renderGeneratedBlocks` promises about the lines of a document: it succeeds exactly on well nested
    markers with every given block once, changes nothing outside the blocks, and rendering its own result again
    gives that result exactly when no generated text holds a marker line. */
module GeneratedBlocksProperties {
  import opened Options
  import opened Lists
  import opened GeneratedBlocks

  predicate WellNested(segments: seq<Segment>) {
    forall k | 0 <= k < |segments| :: SegmentOk(segments[k])
  }

  // --- Reading undoes writing -----------------------------------------------------------------------------

  lemma {:induction false} BlockBody(lines: seq<string>, j: nat, id: string)
    requires j <= |lines|
    ensures CloseOf(lines, j, id).Some? ==> forall k | j <= k < CloseOf(lines, j, id).value :: !IsMarker(lines[k])
    decreases |lines| - j
  {
    if j < |lines| && lines[j] != EndLine(id) && !IsMarker(lines[j]) {
      BlockBody(lines, j + 1, id);
    }
  }

  lemma {:induction false} FirstMarkerCloses(lines: seq<string>, j: nat, id: string, close: nat)
    requires j <= close < |lines| && IsId(id) && lines[close] == EndLine(id)
    requires forall k | j <= k < close :: !IsMarker(lines[k])
    ensures CloseOf(lines, j, id) == Some(close)
    decreases close - j
  {
    if j < close {
      MarkerIdOf(END, id);
      FirstMarkerCloses(lines, j + 1, id, close);
    }
  }

  lemma SplitOff(lines: seq<string>, i: nat, s: Segment, next: nat, rest: seq<Segment>)
    requires i <= next <= |lines| && lines[i..next] == SegmentLines(s)
    ensures Lines([s] + rest) == lines[i..] <==> Lines(rest) == lines[next..]
  {
    LinesCons(s, rest);
    assert lines[i..] == lines[i..next] + lines[next..];
    assert lines[i..][next - i..] == lines[next..];
    assert (SegmentLines(s) + Lines(rest))[next - i..] == Lines(rest);
  }

  lemma WellNestedCons(s: Segment, rest: seq<Segment>)
    ensures WellNested([s] + rest) <==> SegmentOk(s) && WellNested(rest)
  {
    var all := [s] + rest;
    if WellNested(all) {
      assert SegmentOk(all[0]);
      forall k | 0 <= k < |rest| ensures SegmentOk(rest[k]) {
        assert SegmentOk(all[k + 1]);
      }
    }
  }

  lemma ReadLine(lines: seq<string>, i: nat)
    requires i < |lines| && !IsMarker(lines[i])
    ensures Parse(lines, i) == Prepend(Line(lines[i]), Parse(lines, i + 1))
    ensures lines[i..i + 1] == SegmentLines(Line(lines[i])) && SegmentOk(Line(lines[i]))
  {
  }

  lemma Between<T>(s: seq<T>, i: nat, close: nat)
    requires i < close < |s|
    ensures s[i..close + 1] == [s[i]] + s[i + 1..close] + [s[close]]
  {
  }

  lemma NoMarkerInside(lines: seq<string>, from: nat, to: nat)
    requires from <= to <= |lines| && forall k | from <= k < to :: !IsMarker(lines[k])
    ensures forall l | l in lines[from..to] :: !IsMarker(l)
  {
  }

  lemma ReadBlock(lines: seq<string>, i: nat, id: string, close: nat)
    requires i < |lines| && IsId(id) && lines[i] == StartLine(id) && CloseOf(lines, i + 1, id) == Some(close)
    ensures lines[i..close + 1] == SegmentLines(Block(id, lines[i + 1..close]))
    ensures SegmentOk(Block(id, lines[i + 1..close]))
  {
    BlockBody(lines, i + 1, id);
    NoMarkerInside(lines, i + 1, close);
    Between(lines, i, close);
  }

  /** The first segment read at `i`. */
  lemma ReadSegment(lines: seq<string>, i: nat) returns (s: Segment, next: nat)
    requires i < |lines| && Parse(lines, i).Some?
    ensures i < next <= |lines| && Parse(lines, next).Some? && Parse(lines, i) == Prepend(s, Parse(lines, next))
    ensures SegmentOk(s) && lines[i..next] == SegmentLines(s)
  {
    var id := MarkerId(lines[i], START);
    if id == None {
      ReadLine(lines, i);
      s, next := Line(lines[i]), i + 1;
    } else {
      var close := CloseOf(lines, i + 1, id.value).value;
      ParseBlock(lines, i, id.value, close);
      ReadBlock(lines, i, id.value, close);
      s, next := Block(id.value, lines[i + 1..close]), close + 1;
    }
  }

  lemma {:induction false} ParseIsSound(lines: seq<string>, i: nat)
    requires i <= |lines|
    ensures Parse(lines, i).Some? ==> WellNested(Parse(lines, i).value) && Lines(Parse(lines, i).value) == lines[i..]
    decreases |lines| - i
  {
    if i < |lines| && Parse(lines, i).Some? {
      var s, next := ReadSegment(lines, i);
      ParseIsSound(lines, next);
      SplitOff(lines, i, s, next, Parse(lines, next).value);
      WellNestedCons(s, Parse(lines, next).value);
    }
  }

  /** Where the first segment's lines stand. */
  lemma FirstSegment(lines: seq<string>, i: nat, s: Segment, rest: seq<Segment>)
    requires i <= |lines| && lines[i..] == Lines([s] + rest)
    ensures i + |SegmentLines(s)| <= |lines| && lines[i..i + |SegmentLines(s)|] == SegmentLines(s)
    ensures lines[i + |SegmentLines(s)|..] == Lines(rest)
  {
    var n := |SegmentLines(s)|;
    LinesCons(s, rest);
    assert lines[i..][..n] == SegmentLines(s) && lines[i..][n..] == Lines(rest);
  }

  lemma ParseSegment(lines: seq<string>, i: nat, s: Segment)
    requires SegmentOk(s) && i + |SegmentLines(s)| <= |lines| && lines[i..i + |SegmentLines(s)|] == SegmentLines(s)
    ensures Parse(lines, i) == Prepend(s, Parse(lines, i + |SegmentLines(s)|))
  {
    hide Parse;
    assert lines[i] == SegmentLines(s)[0];
    match s {
      case Line(line) => ReadLine(lines, i);
      case Block(id, body) => ParseWholeBlock(lines, i, id, body);
    }
  }

  lemma Around<T>(s: seq<T>, i: nat, first: T, body: seq<T>, last: T)
    requires i + |body| + 2 <= |s| && s[i..i + |body| + 2] == [first] + body + [last]
    ensures s[i] == first && s[i + 1..i + |body| + 1] == body && s[i + |body| + 1] == last
  {
    var all := s[i..i + |body| + 2];
    assert s[i] == all[0] && s[i + |body| + 1] == all[|body| + 1];
    forall k | 0 <= k < |body| ensures s[i + 1 + k] == body[k] {
      assert s[i + 1 + k] == all[k + 1];
    }
  }

  lemma NoMarkerAt(lines: seq<string>, from: nat, to: nat)
    requires from <= to <= |lines| && forall l | l in lines[from..to] :: !IsMarker(l)
    ensures forall k | from <= k < to :: !IsMarker(lines[k])
  {
    forall k | from <= k < to ensures !IsMarker(lines[k]) {
      assert lines[k] == lines[from..to][k - from];
    }
  }

  lemma ParseWholeBlock(lines: seq<string>, i: nat, id: string, body: seq<string>)
    requires IsId(id) && (forall l | l in body :: !IsMarker(l)) && i + |body| + 2 <= |lines|
    requires lines[i..i + |body| + 2] == [StartLine(id)] + body + [EndLine(id)]
    ensures Parse(lines, i) == Prepend(Block(id, body), Parse(lines, i + |body| + 2))
  {
    var close := i + |body| + 1;
    Around(lines, i, StartLine(id), body, EndLine(id));
    NoMarkerAt(lines, i + 1, close);
    MarkerIdOf(START, id);
    FirstMarkerCloses(lines, i + 1, id, close);
    ParseBlock(lines, i, id, close);
  }

  lemma ParseNothing(lines: seq<string>)
    ensures Parse(lines, |lines|) == Some([])
  {
  }

  lemma {:induction false} ParseIsComplete(lines: seq<string>, i: nat, segments: seq<Segment>)
    requires i <= |lines| && WellNested(segments) && lines[i..] == Lines(segments)
    ensures Parse(lines, i) == Some(segments)
    decreases |segments|
  {
    hide Parse, SegmentLines, SegmentOk;
    if segments == [] {
      ParseNothing(lines);
    } else {
      var s, rest := segments[0], segments[1..];
      assert segments == [s] + rest;
      FirstSegment(lines, i, s, rest);
      ParseSegment(lines, i, s);
      ParseIsComplete(lines, i + |SegmentLines(s)|, rest);
    }
  }

  /** A document written from segments is rendered by filling them. */
  lemma RenderingFillsBlocks(segments: seq<Segment>, blocks: map<string, string>)
    requires WellNested(segments)
    ensures Rendered(Lines(segments), blocks) ==
            if Matches(segments, blocks) then Some(Lines(Fill(segments, blocks))) else None
  {
    ParseIsComplete(Lines(segments), 0, segments);
  }

  /** Rendering succeeds exactly when the markers are well nested and the given blocks are each there once. */
  lemma RenderingSucceeds(lines: seq<string>, blocks: map<string, string>)
    ensures Rendered(lines, blocks).Some? <==>
            exists segments :: WellNested(segments) && Lines(segments) == lines && Matches(segments, blocks)
  {
    ParseIsSound(lines, 0);
    if segments :| WellNested(segments) && Lines(segments) == lines && Matches(segments, blocks) {
      RenderingFillsBlocks(segments, blocks);
    }
  }

  /** Outside the blocks nothing changes; inside each block stand the lines of its text. */
  lemma {:induction false} FillKeepsOutside(segments: seq<Segment>, blocks: map<string, string>)
    requires forall id | id in Ids(segments) :: id in blocks
    ensures |Fill(segments, blocks)| == |segments| && Ids(Fill(segments, blocks)) == Ids(segments)
    ensures forall k | 0 <= k < |segments| ::
              match segments[k]
              case Line(line) => Fill(segments, blocks)[k] == Line(line)
              case Block(id, body) => id in blocks && Fill(segments, blocks)[k] == Block(id, BlockLines(blocks[id]))
    decreases |segments|
  {
    if segments != [] {
      forall id | id in Ids(segments[1..]) ensures id in blocks {
        assert id in Ids(segments);
      }
      assert segments[0].Block? ==> Ids(segments)[0] == segments[0].id;
      FillKeepsOutside(segments[1..], blocks);
      assert Fill(segments, blocks)[1..] == Fill(segments[1..], blocks);
    }
  }

  // --- Rendering again ------------------------------------------------------------------------------------

  /** No generated text holds a marker line. */
  predicate MarkerFree(blocks: map<string, string>) {
    forall id | id in blocks :: Markers(BlockLines(blocks[id])) == 0
  }

  /** The number of marker lines. */
  function Markers(lines: seq<string>): nat {
    if lines == [] then 0 else (if IsMarker(lines[0]) then 1 else 0) + Markers(lines[1..])
  }

  lemma {:induction false} MarkersConcat(a: seq<string>, b: seq<string>)
    ensures Markers(a + b) == Markers(a) + Markers(b)
    decreases |a|
  {
    if a == [] {
      assert a + b == b;
    } else {
      MarkersConcat(a[1..], b);
      assert (a + b)[1..] == a[1..] + b;
    }
  }

  lemma {:induction false} NoMarkers(lines: seq<string>)
    ensures Markers(lines) == 0 <==> forall l | l in lines :: !IsMarker(l)
    decreases |lines|
  {
    if lines != [] {
      NoMarkers(lines[1..]);
      assert lines == [lines[0]] + lines[1..];
    }
  }

  lemma SegmentMarkers(s: Segment)
    requires s.Block? ==> IsId(s.id)
    ensures Markers(SegmentLines(s)) == if s.Block? then 2 + Markers(s.body) else Markers([s.line])
  {
    if s.Block? {
      var start, end := [StartLine(s.id)], [EndLine(s.id)];
      MarkerIdOf(START, s.id);
      MarkerIdOf(END, s.id);
      assert start[1..] == [] && end[1..] == [];
      MarkersConcat(start, s.body);
      MarkersConcat(start + s.body, end);
    }
  }

  /** A well nested document has two marker lines for each block. */
  lemma {:induction false} TwoMarkersEach(segments: seq<Segment>)
    requires WellNested(segments)
    ensures Markers(Lines(segments)) == 2 * |Ids(segments)|
    decreases |segments|
  {
    if segments != [] {
      var s := segments[0];
      TwoMarkersEach(segments[1..]);
      SegmentMarkers(s);
      MarkersConcat(SegmentLines(s), Lines(segments[1..]));
      if s.Block? {
        NoMarkers(s.body);
      } else {
        NoMarkers([s.line]);
      }
    }
  }

  /** Filling a block with a marker line gives more than two for each. */
  lemma {:induction false} FilledMarkers(segments: seq<Segment>, blocks: map<string, string>, id: string)
    requires WellNested(segments) && forall id | id in Ids(segments) :: id in blocks
    ensures Markers(Lines(Fill(segments, blocks))) >= 2 * |Ids(segments)| +
            if id in Ids(segments) then Markers(BlockLines(blocks[id])) else 0
    decreases |segments|
  {
    if segments != [] {
      var s := segments[0];
      var t := FillOne(s, blocks);
      assert SegmentOk(s);
      forall id | id in Ids(segments[1..]) ensures id in Ids(segments) {
      }
      FilledMarkers(segments[1..], blocks, id);
      SegmentMarkers(t);
      assert Fill(segments, blocks)[1..] == Fill(segments[1..], blocks);
      MarkersConcat(SegmentLines(t), Lines(Fill(segments[1..], blocks)));
      assert s.Block? ==> Ids(segments)[0] == s.id;
    }
  }

  lemma {:induction false} FillTwice(segments: seq<Segment>, blocks: map<string, string>)
    ensures Fill(Fill(segments, blocks), blocks) == Fill(segments, blocks)
    decreases |segments|
  {
    if segments != [] {
      FillTwice(segments[1..], blocks);
      assert Fill(segments, blocks)[1..] == Fill(segments[1..], blocks);
    }
  }

  lemma FilledIsWellNested(segments: seq<Segment>, blocks: map<string, string>)
    requires WellNested(segments) && Matches(segments, blocks) && MarkerFree(blocks)
    ensures WellNested(Fill(segments, blocks)) && Matches(Fill(segments, blocks), blocks)
  {
    var filled := Fill(segments, blocks);
    FillKeepsOutside(segments, blocks);
    forall k | 0 <= k < |filled| ensures SegmentOk(filled[k]) {
      assert SegmentOk(segments[k]);
      if segments[k].Block? {
        NoMarkers(BlockLines(blocks[segments[k].id]));
      }
    }
  }

  /** Rendering its own result gives it back, or fails: the latter exactly when some generated text holds a
      marker line. */
  lemma RenderingAgain(lines: seq<string>, blocks: map<string, string>, output: seq<string>)
    requires Rendered(lines, blocks) == Some(output)
    ensures Rendered(output, blocks) == if MarkerFree(blocks) then Some(output) else None
  {
    ParseIsSound(lines, 0);
    var segments := Parse(lines, 0).value;
    if MarkerFree(blocks) {
      FilledIsWellNested(segments, blocks);
      FillTwice(segments, blocks);
      RenderingFillsBlocks(Fill(segments, blocks), blocks);
    } else if Rendered(output, blocks).Some? {
      var id :| id in blocks && Markers(BlockLines(blocks[id])) != 0;
      ParseIsSound(output, 0);
      var again := Parse(output, 0).value;
      TwoMarkersEach(again);
      FilledMarkers(segments, blocks, id);
      DistinctCount(Ids(again), blocks.Keys);
      DistinctCount(Ids(segments), blocks.Keys);
      assert false;
    }
  }
}
