/** `splitInlineTests` of `scripts/checks/rust-source.ts`: the ranges behind `#[cfg(test)]`, and the two halves of a
    source, without them and of them alone. `Items` proves when a range is one item. */
module InlineTests {
  import opened Strings
  import opened RustLexer
  import opened LexerBlanking
  import opened CodeOnly

  const ATTRIBUTE := "#[cfg(test)]"

  datatype Range = Range(start: nat, end: nat)

  predicate HasAttribute(s: string, i: nat) {
    i + 12 <= |s| && s[i..i + 12] == ATTRIBUTE
  }

  /** `#[cfg(test)]` written as code. */
  predicate Accepted(s: string, i: nat) {
    HasAttribute(s, i) && CodeAt(s, 0, i)
  }

  // --- Where an item ends -----------------------------------------------------------------------

  function Delta(c: char): int {
    if c == '[' || c == '(' || c == '{' then 1 else if c == ']' || c == ')' || c == '}' then -1 else 0
  }

  /** How many brackets of code are opened in `s[from..k]` and not closed; negative when too many close. */
  function Depth(s: string, from: nat, k: nat): int
    requires from <= k <= |s|
  {
    if k == from then 0
    else Depth(s, from, k - 1) + if CodeAt(s, 0, k - 1) then Delta(s[k - 1]) else 0
  }

  /** The item that begins at `from` is over with the character at `k`. */
  predicate Stops(s: string, from: nat, k: nat)
    requires from <= k < |s|
  {
    && CodeAt(s, 0, k)
    && ((s[k] == ';' && Depth(s, from, k) == 0) || (s[k] == '}' && Depth(s, from, k + 1) == 0))
  }

  function SpaceEnd(s: string, k: nat): (r: nat)
    requires k <= |s|
    ensures k <= r <= |s|
    ensures r < |s| ==> !IsSpace(s[r])
    decreases |s| - k
  {
    if k == |s| || !IsSpace(s[k]) then k else SpaceEnd(s, k + 1)
  }

  /** The length of `\s*;` at `k`, or 0. */
  function SemicolonAfter(s: string, k: nat): (n: nat)
    requires k <= |s|
    ensures k + n <= |s|
  {
    var r := SpaceEnd(s, k);
    if r < |s| && s[r] == ';' then r + 1 - k else 0
  }

  function StopEnd(s: string, k: nat): (end: nat)
    requires k < |s|
    ensures k < end <= |s|
  {
    k + 1 + if s[k] == '}' then SemicolonAfter(s, k + 1) else 0
  }

  /** After the first stop at or after `k`, or the end of the source when nothing stops the item. */
  function ItemEndFrom(s: string, from: nat, k: nat): (end: nat)
    requires from <= k <= |s|
    ensures k <= end <= |s|
    decreases |s| - k
  {
    if k == |s| then |s|
    else if Stops(s, from, k) then StopEnd(s, k)
    else ItemEndFrom(s, from, k + 1)
  }

  /** The end of the item whose attribute stands at `m`. */
  function ItemEnd(s: string, m: nat): (end: nat)
    requires HasAttribute(s, m)
    ensures m + 12 <= end <= |s|
  {
    ItemEndFrom(s, m + 12, m + 12)
  }

  // --- The test ranges ----------------------------------------------------------------------------

  function FirstAccepted(s: string, at: nat): (r: nat)
    requires at <= |s|
    ensures at <= r <= |s|
    ensures r < |s| ==> Accepted(s, r)
    decreases |s| - at
  {
    if at == |s| || Accepted(s, at) then at else FirstAccepted(s, at + 1)
  }

  /** The ranges from `at` on: the next accepted attribute, its item, and so on after the item. */
  function TestRanges(s: string, at: nat): seq<Range>
    requires at <= |s|
    decreases |s| - at
  {
    var m := FirstAccepted(s, at);
    if m == |s| then [] else [Range(m, ItemEnd(s, m))] + TestRanges(s, ItemEnd(s, m))
  }

  /** Whether `k` lies in one of the ranges from `at` on. */
  predicate InTest(s: string, at: nat, k: nat)
    requires at <= |s|
    decreases |s| - at
  {
    var m := FirstAccepted(s, at);
    m < |s| && m <= k && (k < ItemEnd(s, m) || InTest(s, ItemEnd(s, m), k))
  }

  function TestMask(s: string): (b: seq<bool>)
    ensures |b| == |s| && forall k | 0 <= k < |s| :: b[k] == InTest(s, 0, k)
  {
    seq(|s|, k requires 0 <= k < |s| => InTest(s, 0, k))
  }

  function Not(b: seq<bool>): (r: seq<bool>)
    ensures |r| == |b| && forall k | 0 <= k < |b| :: r[k] == !b[k]
  {
    seq(|b|, k requires 0 <= k < |b| => !b[k])
  }

  function Production(s: string): string { Blank(s, TestMask(s)) }

  function Tests(s: string): string { Blank(s, Not(TestMask(s))) }

  // --- The loops ------------------------------------------------------------------------------------

  /** `isCode`: reads the calls of a scan until the one for `offset`. */
  method IsCode(source: string, offset: nat) returns (code: bool)
    ensures code == (offset < |source| ==> CodeAt(source, 0, offset))
  {
    var calls := Scan(source, 0);
    code := true;
    var index := 0;
    while index < |source|
      invariant 0 <= index <= |source|
      invariant offset < index ==> code == CodeAt(source, 0, offset)
      invariant index <= offset ==> code
    {
      if index == offset {
        code := calls[index];
        FlagsAreCodeAt(source, 0, index);
        break;
      }
      index := index + 1;
    }
  }

  /** `itemEnd`: reads the calls of a scan that starts after the attribute. */
  method FindItemEnd(source: string, from: nat) returns (end: nat)
    requires from <= |source| && Boundary(source, 0, from)
    ensures end == ItemEndFrom(source, from, from)
  {
    hide CodeAt, Boundary, Flags, SemicolonAfter;
    var calls := Scan(source, from);
    var depth, index := 0, from;
    end := |source|;
    while index < |source|
      invariant from <= index <= |source|
      invariant depth == Depth(source, from, index)
      invariant end == |source|
      invariant ItemEndFrom(source, from, index) == ItemEndFrom(source, from, from)
    {
      FlagsAreCodeAt(source, from, index);
      ScanRestarts(source, 0, from, index);
      var c := source[index];
      if calls[index - from] {
        if c == '[' || c == '(' {
          depth := depth + 1;
        } else if c == ']' || c == ')' {
          depth := depth - 1;
        } else if depth == 0 && c == ';' {
          end := index + 1;
          break;
        } else if c == '{' {
          depth := depth + 1;
        } else if c == '}' {
          depth := depth - 1;
          if depth == 0 {
            end := index + 1 + SemicolonAfter(source, index + 1);
            break;
          }
        }
      }
      index := index + 1;
    }
  }

  /** `pattern.exec`: the next match at or after `at`, accepted or not. */
  function FindAttribute(s: string, at: nat): (r: nat)
    requires at <= |s|
    ensures at <= r <= |s|
    ensures r < |s| ==> HasAttribute(s, r)
    decreases |s| - at
  {
    if at == |s| || HasAttribute(s, at) then at else FindAttribute(s, at + 1)
  }

  lemma {:induction false} NothingAcceptedBefore(s: string, at: nat, m: nat)
    requires at <= m <= |s|
    requires forall k | at <= k < m :: !Accepted(s, k)
    ensures FirstAccepted(s, at) == FirstAccepted(s, m)
    decreases m - at
  {
    if at < m {
      NothingAcceptedBefore(s, at + 1, m);
    }
  }

  lemma {:induction false} NothingMatchesBefore(s: string, at: nat)
    requires at <= |s|
    ensures forall k | at <= k < FindAttribute(s, at) :: !HasAttribute(s, k)
    decreases |s| - at
  {
    if at < |s| && !HasAttribute(s, at) {
      NothingMatchesBefore(s, at + 1);
    }
  }

  lemma AttributeChars(s: string, m: nat)
    requires HasAttribute(s, m)
    ensures forall k | m <= k < m + 12 :: s[k] == ATTRIBUTE[k - m]
  {
    forall k | m <= k < m + 12 ensures s[k] == ATTRIBUTE[k - m] {
      assert s[m..m + 12][k - m] == s[k];
    }
  }

  lemma AttributesDoNotOverlap(s: string, m: nat, k: nat)
    requires HasAttribute(s, m) && m < k < m + 12
    ensures !HasAttribute(s, k)
  {
    assert forall j | 1 <= j < 12 :: ATTRIBUTE[j] != '#';
    AttributeChars(s, m);
    assert s[k] == ATTRIBUTE[k - m] != '#';
    if HasAttribute(s, k) {
      AttributeChars(s, k);
    }
  }

  lemma NextMatch(s: string, at: nat)
    requires at <= |s|
    ensures FirstAccepted(s, at) == FirstAccepted(s, FindAttribute(s, at))
  {
    NothingMatchesBefore(s, at);
    NothingAcceptedBefore(s, at, FindAttribute(s, at));
  }

  lemma AcceptedMatch(s: string, at: nat, m: nat)
    requires at <= m <= |s| && FirstAccepted(s, at) == FirstAccepted(s, m) && Accepted(s, m)
    ensures TestRanges(s, at) == [Range(m, ItemEnd(s, m))] + TestRanges(s, ItemEnd(s, m))
  {
  }

  lemma RejectedMatch(s: string, at: nat, m: nat)
    requires at <= m <= |s| && FirstAccepted(s, at) == FirstAccepted(s, m)
    requires HasAttribute(s, m) && !CodeAt(s, 0, m)
    ensures TestRanges(s, at) == TestRanges(s, m + 12)
  {
    forall k | m < k < m + 12 ensures !HasAttribute(s, k) {
      AttributesDoNotOverlap(s, m, k);
    }
    NothingAcceptedBefore(s, m, m + 12);
  }

  lemma AttributeToken(s: string, m: nat, k: nat)
    requires HasAttribute(s, m) && m <= k < m + 12
    ensures TokenKind(s, k) == Code
  {
    AttributeChars(s, m);
    assert s[k] == ATTRIBUTE[k - m];
  }

  lemma CodeTokenIsCode(s: string, k: nat)
    requires k < |s| && Boundary(s, 0, k) && TokenKind(s, k) == Code
    ensures CodeAt(s, 0, k) && Boundary(s, 0, k + 1)
  {
    ScanRestarts(s, 0, k, k);
    CodeIsBoundary(s, 0, k);
  }

  /** An accepted attribute is code to its end, so the item is scanned from the beginning of a token. */
  lemma AttributeIsCode(s: string, m: nat)
    requires Accepted(s, m)
    ensures Boundary(s, 0, m + 12)
    ensures forall k | m <= k < m + 12 :: CodeAt(s, 0, k)
  {
    hide NextToken, CodeAt, Boundary;
    CodeIsBoundary(s, 0, m);
    var k := m;
    while k < m + 12
      invariant m <= k <= m + 12 && Boundary(s, 0, k)
      invariant forall j | m <= j < k :: CodeAt(s, 0, j)
    {
      AttributeToken(s, m, k);
      CodeTokenIsCode(s, k);
      k := k + 1;
    }
  }

  lemma ItemStartsToken(s: string, m: nat)
    requires Accepted(s, m)
    ensures m + 12 <= |s| && Boundary(s, 0, m + 12)
  {
    AttributeIsCode(s, m);
  }

  method AcceptedEnd(source: string, start: nat) returns (end: nat)
    requires Accepted(source, start)
    ensures end == ItemEnd(source, start)
  {
    ItemStartsToken(source, start);
    end := FindItemEnd(source, start + 12);
  }

  /** One turn of the loop in `inlineTestRanges`: a rejected match is stepped over, an accepted one is
      moved past together with its item. */
  method NextRange(source: string, lastIndex: nat) returns (found: seq<Range>, next: nat)
    requires lastIndex <= |source|
    ensures lastIndex <= next <= |source|
    ensures found == [] ==> TestRanges(source, lastIndex) == TestRanges(source, next)
    ensures found != [] ==> TestRanges(source, lastIndex) == found + TestRanges(source, next)
    ensures lastIndex == next ==> found == [] && next == |source|
  {
    var start := FindAttribute(source, lastIndex);
    NextMatch(source, lastIndex);
    if start == |source| {
      return [], |source|;
    }
    var code := IsCode(source, start);
    if code {
      var end := AcceptedEnd(source, start);
      AcceptedMatch(source, lastIndex, start);
      found, next := [Range(start, end)], end;
    } else {
      RejectedMatch(source, lastIndex, start);
      found, next := [], start + 12;
    }
  }

  /** `ranges` are the ranges before `at`. */
  ghost predicate Found(s: string, ranges: seq<Range>, at: nat) {
    at <= |s| && ranges + TestRanges(s, at) == TestRanges(s, 0)
  }

  lemma FoundMore(s: string, ranges: seq<Range>, at: nat, found: seq<Range>, next: nat)
    requires Found(s, ranges, at) && next <= |s|
    requires found == [] ==> TestRanges(s, at) == TestRanges(s, next)
    requires found != [] ==> TestRanges(s, at) == found + TestRanges(s, next)
    ensures Found(s, ranges + found, next)
  {
    var rest := TestRanges(s, next);
    if found == [] {
      assert ranges + found == ranges;
    } else {
      assert ranges + (found + rest) == ranges + found + rest;
    }
  }

  method InlineTestRanges(source: string) returns (ranges: seq<Range>)
    ensures ranges == TestRanges(source, 0)
  {
    ranges := [];
    var lastIndex := 0;
    while lastIndex < |source|
      invariant 0 <= lastIndex && Found(source, ranges, lastIndex)
    {
      var found, next := NextRange(source, lastIndex);
      FoundMore(source, ranges, lastIndex, found, next);
      ranges, lastIndex := ranges + found, next;
    }
    assert ranges + [] == ranges;
  }

  method Chars(source: string) returns (chars: array<char>)
    ensures fresh(chars) && chars[..] == source
  {
    chars := new char[|source|](i requires 0 <= i < |source| => source[i]);
  }

  method BlankIn(chars: array<char>, start: nat, end: nat)
    requires end <= chars.Length
    modifies chars
    ensures forall k | 0 <= k < chars.Length ::
      chars[k] == if start <= k < end && old(chars[k]) != '\n' then ' ' else old(chars[k])
  {
    var index := start;
    while index < end
      invariant start <= index && (index <= end || index == start)
      invariant forall k | 0 <= k < chars.Length ::
        chars[k] == if start <= k < index && old(chars[k]) != '\n' then ' ' else old(chars[k])
    {
      if chars[index] != '\n' {
        chars[index] := ' ';
      }
      index := index + 1;
    }
  }

  /** `InTest` is membership in the ranges. */
  lemma {:induction false} InTestIsMembership(s: string, at: nat, k: nat)
    requires at <= |s|
    ensures InTest(s, at, k) <==> exists r :: r in TestRanges(s, at) && r.start <= k < r.end
    decreases |s| - at
  {
    var m := FirstAccepted(s, at);
    if m < |s| {
      var first, rest := Range(m, ItemEnd(s, m)), TestRanges(s, ItemEnd(s, m));
      InTestIsMembership(s, ItemEnd(s, m), k);
      RangesStartAfter(s, ItemEnd(s, m));
      assert TestRanges(s, at) == [first] + rest;
      assert forall r :: r in TestRanges(s, at) <==> r == first || r in rest;
    }
  }

  lemma {:induction false} RangesStartAfter(s: string, at: nat)
    requires at <= |s|
    ensures forall r | r in TestRanges(s, at) :: at <= r.start && r.start + 12 <= r.end <= |s| && Accepted(s, r.start)
    decreases |s| - at
  {
    var m := FirstAccepted(s, at);
    if m < |s| {
      RangesStartAfter(s, ItemEnd(s, m));
    }
  }

  predicate Ordered(ranges: seq<Range>) {
    forall i, j | 0 <= i < j < |ranges| :: ranges[i].end <= ranges[j].start
  }

  lemma OrderedCons(first: Range, rest: seq<Range>)
    requires Ordered(rest) && forall r | r in rest :: first.end <= r.start
    ensures Ordered([first] + rest)
  {
    var all := [first] + rest;
    forall i, j | 0 <= i < j < |all| ensures all[i].end <= all[j].start {
      assert all[j] == rest[j - 1] && rest[j - 1] in rest;
      assert i > 0 ==> all[i] == rest[i - 1];
    }
  }

  /** The ranges come in order and do not overlap. */
  lemma {:induction false} RangesAreOrdered(s: string, at: nat)
    requires at <= |s|
    ensures Ordered(TestRanges(s, at))
    decreases |s| - at
  {
    var m := FirstAccepted(s, at);
    if m < |s| {
      RangesAreOrdered(s, ItemEnd(s, m));
      RangesStartAfter(s, ItemEnd(s, m));
      OrderedCons(Range(m, ItemEnd(s, m)), TestRanges(s, ItemEnd(s, m)));
    }
  }

  /** Up to `cursor` the two halves are done; from there on both still hold the source. */
  ghost predicate SplitTo(s: string, cursor: nat, p: seq<char>, t: seq<char>) {
    && |p| == |t| == |s| && cursor <= |s|
    && (forall k | 0 <= k < cursor :: p[k] == Production(s)[k] && t[k] == Tests(s)[k])
    && (forall k | cursor <= k < |s| :: p[k] == t[k] == s[k])
  }

  /** The ranges from `cursor` on decide about everything from `cursor` on. */
  ghost predicate RestDecides(s: string, cursor: nat) {
    cursor <= |s| && forall k | cursor <= k < |s| :: InTest(s, 0, k) == InTest(s, cursor, k)
  }

  /** One turn of the loop in `splitInlineTests`: `ranges` are the ranges still to come. */
  method SplitRange(s: string, p: array<char>, t: array<char>, cursor: nat, ranges: seq<Range>)
    requires p != t && SplitTo(s, cursor, p[..], t[..]) && RestDecides(s, cursor)
    requires ranges == TestRanges(s, cursor) && ranges != []
    modifies p, t
    ensures SplitTo(s, ranges[0].end, p[..], t[..]) && RestDecides(s, ranges[0].end)
    ensures ranges[1..] == TestRanges(s, ranges[0].end)
  {
    BlankIn(t, cursor, ranges[0].start);
    BlankIn(p, ranges[0].start, ranges[0].end);
  }

  method BlankTail(s: string, p: array<char>, t: array<char>, cursor: nat)
    requires p != t && SplitTo(s, cursor, p[..], t[..]) && RestDecides(s, cursor)
    requires TestRanges(s, cursor) == []
    modifies t
    ensures p[..] == Production(s) && t[..] == Tests(s)
  {
    BlankIn(t, cursor, |s|);
  }

  method SplitInlineTests(source: string) returns (production: string, tests: string)
    ensures production == Production(source) && tests == Tests(source)
  {
    var ranges := InlineTestRanges(source);
    var p := Chars(source);
    var t := Chars(source);
    var cursor: nat, n := 0, 0;
    while n < |ranges|
      invariant 0 <= n <= |ranges|
      invariant SplitTo(source, cursor, p[..], t[..]) && RestDecides(source, cursor)
      invariant ranges[n..] == TestRanges(source, cursor)
    {
      SplitRange(source, p, t, cursor, ranges[n..]);
      assert ranges[n..][1..] == ranges[n + 1..];
      cursor := ranges[n].end;
      n := n + 1;
    }
    BlankTail(source, p, t, cursor);
    production, tests := p[..], t[..];
  }
}
