/** What the two halves of `splitInlineTests` have to do with the source and with each other. */
module SplitProperties {
  import opened Strings
  import opened RustLexer
  import opened LexerBlanking
  import opened CodeOnly
  import opened InlineTests

  // --- A partition --------------------------------------------------------------------------------

  /** Every character survives in exactly one half, line ends survive in both, and laying the halves
      over each other gives the source back. */
  lemma HalvesPartitionSource(s: string, k: nat)
    requires k < |s|
    ensures |Production(s)| == |Tests(s)| == |s|
    ensures s[k] == '\n' ==> Production(s)[k] == Tests(s)[k] == '\n'
    ensures s[k] != '\n' ==> (Production(s)[k], Tests(s)[k]) == if InTest(s, 0, k) then (' ', s[k]) else (s[k], ' ')
    ensures s[k] == if Production(s)[k] == ' ' then Tests(s)[k] else Production(s)[k]
  {
    assert TestMask(s)[k] == InTest(s, 0, k);
  }

  // --- The end of an item -----------------------------------------------------------------------

  /** The item ends with the first character that stops it, or with the source when nothing does. */
  lemma {:induction false} ItemEndsAtFirstStop(s: string, from: nat, k: nat) returns (stop: nat)
    requires from <= k <= |s|
    ensures k <= stop <= |s|
    ensures forall j | k <= j < stop :: !Stops(s, from, j)
    ensures stop < |s| ==> Stops(s, from, stop) && ItemEndFrom(s, from, k) == StopEnd(s, stop)
    ensures stop == |s| ==> ItemEndFrom(s, from, k) == |s|
    decreases |s| - k
  {
    if k == |s| || Stops(s, from, k) {
      stop := k;
    } else {
      stop := ItemEndsAtFirstStop(s, from, k + 1);
    }
  }

  lemma SpaceIsCode(s: string, k: nat)
    requires k < |s| && (IsSpace(s[k]) || s[k] == ';')
    ensures TokenKind(s, k) == Code
  {
  }

  /** White space and a semicolon after an item are code, and no bracket. */
  lemma {:induction false} SpacesAreCode(s: string, from: nat, k: nat)
    requires from <= k <= |s| && Boundary(s, 0, k)
    ensures SpaceEnd(s, k) < |s| && s[SpaceEnd(s, k)] == ';' ==>
      && Boundary(s, 0, SpaceEnd(s, k) + 1) && CodeAt(s, 0, SpaceEnd(s, k))
      && Depth(s, from, SpaceEnd(s, k) + 1) == Depth(s, from, k)
    decreases |s| - k
  {
    hide NextToken, TokenKind, Boundary, CodeAt;
    if k < |s| && (IsSpace(s[k]) || s[k] == ';') {
      SpaceIsCode(s, k);
      CodeTokenIsCode(s, k);
      if IsSpace(s[k]) {
        SpacesAreCode(s, from, k + 1);
      }
    }
  }

  /** A stopped item ends after a `;` or `}` of code, with as many brackets closed as opened. */
  lemma StoppedItem(s: string, from: nat, stop: nat)
    requires from <= stop < |s| && Stops(s, from, stop)
    ensures var end := StopEnd(s, stop);
      Boundary(s, 0, end) && CodeAt(s, 0, end - 1) && s[end - 1] in ";}" && Depth(s, from, end) == 0
  {
    CodeIsBoundary(s, 0, stop);
    if s[stop] == '}' {
      SpacesAreCode(s, from, stop + 1);
    }
  }

  /** Where an item ends: with the source, or after a `;` or `}` of code. */
  lemma ItemEnds(s: string, m: nat)
    requires Accepted(s, m)
    ensures var end := ItemEnd(s, m);
      end == |s| || (Boundary(s, 0, end) && CodeAt(s, 0, end - 1) && s[end - 1] in ";}" && Depth(s, m + 12, end) == 0)
  {
    var stop := ItemEndsAtFirstStop(s, m + 12, m + 12);
    if stop < |s| {
      StoppedItem(s, m + 12, stop);
    }
  }

  /** Counting brackets from an accepted attribute or from behind it is the same. */
  lemma {:induction false} AttributeIsBalanced(s: string, m: nat, k: nat)
    requires Accepted(s, m) && m + 12 <= k <= |s|
    ensures Depth(s, m, k) == Depth(s, m + 12, k)
    decreases k
  {
    if k > m + 12 {
      AttributeIsBalanced(s, m, k - 1);
    } else {
      AttributeDepth(s, m, 12);
    }
  }

  lemma {:induction false} AttributeDepth(s: string, m: nat, n: nat)
    requires Accepted(s, m) && n <= 12
    ensures Depth(s, m, m + n) == if n < 2 || n == 12 then 0 else if n < 6 || n == 11 then 1 else 2
    decreases n
  {
    hide CodeAt;
    if n > 0 {
      AttributeDepth(s, m, n - 1);
      AttributeIsCode(s, m);
      AttributeChars(s, m);
      assert s[m + n - 1] == ATTRIBUTE[n - 1];
    }
  }

  /** How many characters of code in `s[a..b]` are among `marks`. */
  function CountIn(s: string, marks: string, a: nat, b: nat): nat
    requires a <= b <= |s|
  {
    if a == b then 0
    else CountIn(s, marks, a, b - 1) + if CodeAt(s, 0, b - 1) && s[b - 1] in marks then 1 else 0
  }

  lemma DeltaIs(c: char)
    ensures Delta(c) == (if c in "([{" then 1 else 0) - (if c in ")]}" then 1 else 0)
  {
  }

  lemma {:induction false} DepthCounts(s: string, a: nat, b: nat)
    requires a <= b <= |s|
    ensures Depth(s, a, b) == CountIn(s, "([{", a, b) - CountIn(s, ")]}", a, b)
    decreases b
  {
    hide CodeAt, Delta;
    if a < b {
      DepthCounts(s, a, b - 1);
      DeltaIs(s[b - 1]);
    }
  }

  ghost predicate Balanced(s: string, r: Range) {
    r.start <= r.end <= |s| && CountIn(s, "([{", r.start, r.end) == CountIn(s, ")]}", r.start, r.end)
  }

  /** Each range that ends before the source does closes as many brackets as it opens. */
  lemma {:induction false} RangesAreBalanced(s: string, at: nat)
    requires at <= |s|
    ensures forall r | r in TestRanges(s, at) && r.end < |s| :: Balanced(s, r)
    decreases |s| - at
  {
    hide CountIn, CodeAt;
    RangesStartAfter(s, at);
    var m := FirstAccepted(s, at);
    if m < |s| {
      ItemEnds(s, m);
      AttributeIsBalanced(s, m, ItemEnd(s, m));
      DepthCounts(s, m, ItemEnd(s, m));
      RangesAreBalanced(s, ItemEnd(s, m));
    }
  }

  // --- Each half is lexed as it was in the whole ----------------------------------------------------

  /** Where the halves meet: a test range begins with its attribute, and ends after `;` or `}`. */
  lemma {:induction false} MaskEdge(s: string, at: nat, k: nat)
    requires at < k < |s| && InTest(s, at, k) != InTest(s, at, k - 1)
    ensures InTest(s, at, k) ==> Accepted(s, k) && forall j | k <= j < k + 12 :: InTest(s, at, j)
    ensures !InTest(s, at, k) ==> s[k - 1] in ";}" && CodeAt(s, 0, k - 1)
    decreases |s| - at
  {
    hide CodeAt, Boundary, Depth, HasAttribute;
    var m := FirstAccepted(s, at);
    var end := ItemEnd(s, m);
    ItemEnds(s, m);
    if k > end {
      MaskEdge(s, end, k);
    }
  }

  /** Every attribute written as code is in a test range. */
  lemma {:induction false} AcceptedIsInTest(s: string, at: nat, k: nat)
    requires at <= k < |s| && Accepted(s, k)
    ensures InTest(s, at, k)
    decreases |s| - at
  {
    FirstAcceptedIsFirst(s, at, k);
    var m := FirstAccepted(s, at);
    if k >= ItemEnd(s, m) {
      AcceptedIsInTest(s, ItemEnd(s, m), k);
    }
  }

  lemma {:induction false} FirstAcceptedIsFirst(s: string, at: nat, k: nat)
    requires at <= k < |s| && Accepted(s, k)
    ensures FirstAccepted(s, at) <= k
    decreases |s| - at
  {
    if !Accepted(s, at) {
      FirstAcceptedIsFirst(s, at + 1, k);
    }
  }

  /** The text of the attribute, as code. */
  predicate TestAttribute(s: string, k: nat) {
    k + 12 <= |s| && s[k..k + 12] == "#[cfg(test)]" && CodeAt(s, 0, k)
  }

  lemma TestAttributeIsAccepted(s: string, k: nat)
    ensures TestAttribute(s, k) <==> Accepted(s, k)
  {
  }

  /** No attribute of code is outside all ranges. */
  lemma AttributesAreInRanges(s: string, k: nat)
    requires TestAttribute(s, k)
    ensures exists r :: r in TestRanges(s, 0) && r.start <= k < r.end
  {
    hide CodeAt, InTest, TestRanges;
    TestAttributeIsAccepted(s, k);
    AcceptedIsInTest(s, 0, k);
    InTestIsMembership(s, 0, k);
  }

  /** The range of some attribute begins at `m`. */
  ghost predicate Begins(s: string, m: nat) {
    exists r :: r in TestRanges(s, 0) && r.start == m
  }

  ghost predicate OutsideEarlier(s: string, m: nat) {
    forall r | r in TestRanges(s, 0) && r.start < m :: r.end <= m
  }

  /** A range begins at exactly those attributes of code that stand in no earlier range. */
  lemma RangesBeginAtAttributes(s: string, m: nat)
    ensures Begins(s, m) <==> TestAttribute(s, m) && OutsideEarlier(s, m)
  {
    hide CodeAt, TestRanges, Accepted;
    TestAttributeIsAccepted(s, m);
    if Begins(s, m) {
      RangesStartAfter(s, 0);
      EarlierRangesEnd(s, m);
    }
    if TestAttribute(s, m) && OutsideEarlier(s, m) {
      AttributesAreInRanges(s, m);
      var r :| r in TestRanges(s, 0) && r.start <= m < r.end;
      assert r.start == m;
    }
  }

  lemma EarlierRangesEnd(s: string, m: nat)
    requires Begins(s, m)
    ensures OutsideEarlier(s, m)
  {
    hide TestRanges;
    var ranges := TestRanges(s, 0);
    RangesAreOrdered(s, 0);
    RangesStartAfter(s, 0);
    var j :| 0 <= j < |ranges| && ranges[j].start == m;
    forall r | r in ranges && r.start < m ensures r.end <= m {
      var i :| 0 <= i < |ranges| && ranges[i] == r;
      if j < i {
        assert ranges[j].end <= ranges[i].start;
      }
    }
  }

  /** A run of characters that are not code lies on one side of every edge. */
  lemma {:induction false} NoEdgeOutsideCode(s: string, i: nat, k: nat)
    requires i <= k < |s| && forall j | i <= j <= k :: !CodeAt(s, 0, j)
    ensures InTest(s, 0, k) == InTest(s, 0, i)
    decreases k
  {
    if i < k {
      NoEdgeOutsideCode(s, i, k - 1);
      if InTest(s, 0, k) != InTest(s, 0, k - 1) {
        MaskEdge(s, 0, k);
      }
    }
  }

  lemma NotCodeInToken(s: string, i: nat, k: nat)
    requires i <= k < |s| && Boundary(s, 0, i) && !NextToken(s, i).code && k < NextToken(s, i).end
    ensures !CodeAt(s, 0, k)
  {
    ScanRestarts(s, 0, i, k);
  }

  /** No comment or literal lies partly in a test range. */
  lemma TokenOnOneSide(s: string, i: nat, k: nat)
    requires i <= k < |s| && Boundary(s, 0, i) && !NextToken(s, i).code && k < NextToken(s, i).end
    ensures InTest(s, 0, k) == InTest(s, 0, i)
  {
    forall j | i <= j <= k ensures !CodeAt(s, 0, j) {
      NotCodeInToken(s, i, j);
    }
    NoEdgeOutsideCode(s, i, k);
  }

  lemma MaskIsWhole(s: string)
    ensures WholeTokens(s, TestMask(s)) && WholeTokens(s, Not(TestMask(s)))
  {
    forall i, k | 0 <= i < |s| && Boundary(s, 0, i) && !NextToken(s, i).code && i <= k < NextToken(s, i).end
      ensures InTest(s, 0, k) == InTest(s, 0, i)
    {
      TokenOnOneSide(s, i, k);
    }
  }

  lemma TestMaskIsBlankable(s: string)
    ensures Blankable(s, TestMask(s))
  {
    MaskIsWhole(s);
    forall k | 0 < k < |s| - 1 ensures !Sandwiched(s, TestMask(s), k) {
      if InTest(s, 0, k) && !InTest(s, 0, k - 1) {
        MaskEdge(s, 0, k);
        assert InTest(s, 0, k + 1);
      }
    }
    forall i | 0 < i < |s| ensures !FreesRaw(s, TestMask(s), i) {
      if InTest(s, 0, i - 1) && !InTest(s, 0, i) {
        MaskEdge(s, 0, i);
      }
    }
  }

  lemma ProductionMaskIsBlankable(s: string)
    ensures Blankable(s, Not(TestMask(s)))
  {
    MaskIsWhole(s);
    forall k | 0 < k < |s| - 1 ensures !Sandwiched(s, Not(TestMask(s)), k) {
      if !InTest(s, 0, k) && InTest(s, 0, k - 1) {
        MaskEdge(s, 0, k);
      }
    }
    forall i | 0 < i < |s| ensures !FreesRaw(s, Not(TestMask(s)), i) {
      if InTest(s, 0, i) && !InTest(s, 0, i - 1) {
        MaskEdge(s, 0, i);
        AttributeChars(s, i);
        assert s[i] == '#';
      }
    }
  }

  /** Lexing a half says about each of its characters what lexing the whole file says. */
  lemma HalvesLexAsTheWhole(s: string, k: nat)
    requires k < |s|
    ensures CodeAt(Production(s), 0, k) == (InTest(s, 0, k) || CodeAt(s, 0, k))
    ensures CodeAt(Tests(s), 0, k) == (!InTest(s, 0, k) || CodeAt(s, 0, k))
  {
    TestMaskIsBlankable(s);
    BlankingKeepsFlags(s, TestMask(s), 0, k);
    ProductionMaskIsBlankable(s);
    BlankingKeepsFlags(s, Not(TestMask(s)), 0, k);
  }

  /** Stripping a half of comments and literals is halving the stripped file: the boundary check, which
      strips each half, reads exactly the code that the file holds. */
  lemma StrippingCommutesWithSplitting(s: string)
    ensures Stripped(Production(s)) == Blank(Stripped(s), TestMask(s))
    ensures Stripped(Tests(s)) == Blank(Stripped(s), Not(TestMask(s)))
  {
    forall k | 0 <= k < |s|
      ensures Stripped(Production(s))[k] == Blank(Stripped(s), TestMask(s))[k]
      ensures Stripped(Tests(s))[k] == Blank(Stripped(s), Not(TestMask(s)))[k]
    {
      HalvesLexAsTheWhole(s, k);
    }
  }

  // --- Splitting a half again -----------------------------------------------------------------------

  /** The production half holds no test item. */
  lemma ProductionHasNoTests(s: string, k: nat)
    requires k < |s|
    ensures !TestAttribute(Production(s), k)
  {
    hide CodeAt, InTest;
    var p := Production(s);
    TestAttributeIsAccepted(p, k);
    if HasAttribute(p, k) {
      AttributeChars(p, k);
      forall j | k <= j < k + 12 ensures p[j] == s[j] && !InTest(s, 0, j) {
        assert ATTRIBUTE[j - k] != ' ' && ATTRIBUTE[j - k] != '\n';
      }
      assert p[k..k + 12] == s[k..k + 12];
      HalvesLexAsTheWhole(s, k);
      if CodeAt(s, 0, k) {
        AcceptedIsInTest(s, 0, k);
      }
    }
  }

  lemma ProductionSplitsIntoItself(s: string)
    ensures TestRanges(Production(s), 0) == []
    ensures Production(Production(s)) == Production(s)
  {
    var p := Production(s);
    forall k | 0 <= k < |p| ensures !Accepted(p, k) {
      ProductionHasNoTests(s, k);
      TestAttributeIsAccepted(p, k);
    }
    NothingAcceptedBefore(p, 0, |p|);
  }

  /** From `at` to `end` the halves hold and say what the source does. */
  ghost predicate Kept(s: string, t: string, at: nat, end: nat) {
    |s| == |t| && at <= end <= |s| && forall k | at <= k < end :: t[k] == s[k] && CodeAt(t, 0, k) == CodeAt(s, 0, k)
  }

  lemma {:induction false} KeptDepth(s: string, t: string, from: nat, k: nat)
    requires from <= k && Kept(s, t, from, k)
    ensures Depth(t, from, k) == Depth(s, from, k)
    decreases k
  {
    if from < k {
      KeptDepth(s, t, from, k - 1);
    }
  }

  lemma KeptStop(s: string, t: string, from: nat, k: nat)
    requires from <= k < |s| && Kept(s, t, from, k + 1)
    ensures Stops(t, from, k) == Stops(s, from, k)
  {
    KeptDepth(s, t, from, k);
    KeptDepth(s, t, from, k + 1);
  }

  lemma {:induction false} KeptSpaceEnd(s: string, t: string, k: nat)
    requires k <= |s| && SpaceEnd(s, k) < |s| == |t| && forall j | k <= j <= SpaceEnd(s, k) :: t[j] == s[j]
    ensures SpaceEnd(t, k) == SpaceEnd(s, k)
    decreases |s| - k
  {
    if IsSpace(s[k]) {
      KeptSpaceEnd(s, t, k + 1);
    }
  }

  /** White space at `k`, if any, runs up to the end or to a `#`. */
  predicate NoSemicolonAt(t: string, k: nat)
    requires k <= |t|
  {
    SpaceEnd(t, k) < |t| ==> t[SpaceEnd(t, k)] == '#'
  }

  /** After a range, the test half holds only spaces until the next attribute or its end. */
  lemma {:induction false} NoSemicolonFollows(s: string, k: nat)
    requires 0 < k <= |s|
    requires k < |s| && InTest(s, 0, k) ==> s[k] == '#'
    ensures NoSemicolonAt(Tests(s), k)
    decreases |s| - k
  {
    hide InTest;
    if k < |s| && !InTest(s, 0, k) {
      assert IsSpace(Tests(s)[k]);
      if k + 1 < |s| && InTest(s, 0, k + 1) {
        RangeBegins(s, k + 1);
      }
      NoSemicolonFollows(s, k + 1);
    }
  }

  lemma RangeBegins(s: string, k: nat)
    requires 0 < k < |s| && InTest(s, 0, k) && !InTest(s, 0, k - 1)
    ensures s[k] == '#'
  {
    hide InTest, CodeAt;
    MaskEdge(s, 0, k);
    AttributeChars(s, k);
  }

  lemma KeptSemicolon(s: string, t: string, k: nat)
    requires k <= |s| == |t| && NoSemicolonAt(t, k + SemicolonAfter(s, k))
    requires forall j | k <= j < k + SemicolonAfter(s, k) :: t[j] == s[j]
    ensures SemicolonAfter(t, k) == SemicolonAfter(s, k)
  {
    if SemicolonAfter(s, k) > 0 {
      KeptSpaceEnd(s, t, k);
    }
  }

  /** Where everything up to the end of an item is kept, and no semicolon follows, the item ends there. */
  lemma {:induction false} KeptItemEnd(s: string, t: string, from: nat, k: nat)
    requires from <= k <= |s| && Kept(s, t, from, ItemEndFrom(s, from, k))
    requires NoSemicolonAt(t, ItemEndFrom(s, from, k))
    ensures ItemEndFrom(t, from, k) == ItemEndFrom(s, from, k)
    decreases |s| - k
  {
    if k < |s| {
      KeptStop(s, t, from, k);
      if !Stops(s, from, k) {
        KeptItemEnd(s, t, from, k + 1);
      } else {
        KeptStopEnd(s, t, k);
      }
    }
  }

  lemma KeptStopEnd(s: string, t: string, k: nat)
    requires k < |s| == |t| && NoSemicolonAt(t, StopEnd(s, k))
    requires forall j | k <= j < StopEnd(s, k) :: t[j] == s[j]
    ensures StopEnd(t, k) == StopEnd(s, k)
  {
    if s[k] == '}' {
      KeptSemicolon(s, t, k + 1);
    }
  }

  /** What the ranges from `at` on leave behind: the test half agrees with the source inside them. */
  lemma {:induction false} RangeIsKept(s: string, at: nat, k: nat)
    requires at <= k < |s| && RestDecides(s, at) && InTest(s, at, k)
    ensures Tests(s)[k] == s[k] && CodeAt(Tests(s), 0, k) == CodeAt(s, 0, k)
  {
    assert TestMask(s)[k];
    HalvesLexAsTheWhole(s, k);
  }

  lemma NotBlankAttribute(t: string, k: nat)
    requires k < |t| && t[k] != '#'
    ensures !HasAttribute(t, k)
  {
    if HasAttribute(t, k) {
      AttributeChars(t, k);
    }
  }

  /** Before the next range nothing in the test half reads as an attribute. */
  lemma NothingBetweenRanges(s: string, at: nat, m: nat)
    requires RestDecides(s, at) && m == FirstAccepted(s, at)
    ensures FirstAccepted(Tests(s), at) == FirstAccepted(Tests(s), m)
  {
    var t := Tests(s);
    forall k | at <= k < m ensures !Accepted(t, k) {
      assert !InTest(s, 0, k);
      assert t[k] == ' ' || t[k] == '\n';
      NotBlankAttribute(t, k);
    }
    NothingAcceptedBefore(t, at, m);
  }

  lemma NextRangeIsKept(s: string, at: nat, m: nat)
    requires RestDecides(s, at) && m == FirstAccepted(s, at) < |s|
    ensures Kept(s, Tests(s), m, ItemEnd(s, m)) && Accepted(Tests(s), m)
  {
    hide CodeAt, ItemEndFrom;
    var t := Tests(s);
    forall k | m <= k < ItemEnd(s, m) ensures t[k] == s[k] && CodeAt(t, 0, k) == CodeAt(s, 0, k) {
      RangeIsKept(s, at, k);
    }
    assert t[m..m + 12] == s[m..m + 12];
  }

  lemma NextItemIsTheSame(s: string, at: nat, m: nat)
    requires RestDecides(s, at) && m == FirstAccepted(s, at) < |s|
    requires Kept(s, Tests(s), m, ItemEnd(s, m)) && Accepted(Tests(s), m)
    ensures ItemEnd(Tests(s), m) == ItemEnd(s, m)
  {
    hide CodeAt, ItemEndFrom, InTest, FirstAccepted, Tests, NoSemicolonAt;
    var end := ItemEnd(s, m);
    BehindItem(s, at, m);
    NoSemicolonFollows(s, end);
    KeptItemEnd(s, Tests(s), m + 12, m + 12);
  }

  /** Right behind a range, the next one begins or there is none. */
  lemma BehindItem(s: string, at: nat, m: nat)
    requires RestDecides(s, at) && m == FirstAccepted(s, at) < |s|
    ensures ItemEnd(s, m) < |s| && InTest(s, 0, ItemEnd(s, m)) ==> s[ItemEnd(s, m)] == '#'
  {
    hide CodeAt, ItemEndFrom;
    var end := ItemEnd(s, m);
    if end < |s| && InTest(s, at, end) {
      assert InTest(s, end, end) && Accepted(s, end);
      AttributeChars(s, end);
    }
  }

  lemma {:induction false} TestsKeepTheirRanges(s: string, at: nat)
    requires RestDecides(s, at)
    ensures TestRanges(Tests(s), at) == TestRanges(s, at)
    decreases |s| - at
  {
    var m := FirstAccepted(s, at);
    NothingBetweenRanges(s, at, m);
    if m < |s| {
      NextRangeIsKept(s, at, m);
      NextItemIsTheSame(s, at, m);
      TestsKeepTheirRanges(s, ItemEnd(s, m));
    }
  }

  /** The test half is all tests: splitting it again changes nothing and leaves no production code. */
  lemma TestsSplitIntoThemselves(s: string, k: nat)
    requires k < |s|
    ensures InTest(Tests(s), 0, k) == InTest(s, 0, k)
    ensures Tests(Tests(s))[k] == Tests(s)[k]
    ensures Production(Tests(s))[k] == ' ' || Production(Tests(s))[k] == '\n'
  {
    TestsKeepTheirRanges(s, 0);
    InTestIsMembership(Tests(s), 0, k);
    InTestIsMembership(s, 0, k);
  }
}
