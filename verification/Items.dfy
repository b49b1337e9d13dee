/** Whether a test range is one item: the items an attribute can stand on (The Rust Reference, chapters "Items"
    and "Attributes"), as a header with well nested brackets and what ends it, and the proof when `itemEnd` of
    `scripts/checks/rust-source.ts` finds their end. */
module Items {
  import opened Alphabets
  import opened Options
  import opened Strings
  import opened RustLexer
  import opened CodeOnly
  import opened InlineTests
  import opened SplitProperties

  // --- The grammar ----------------------------------------------------------------------------------------

  datatype Bracket = Round | Square | Curly

  function OpenOf(b: Bracket): char {
    match b
    case Round => '('
    case Square => '['
    case Curly => '{'
  }

  function CloseOf(b: Bracket): char {
    match b
    case Round => ')'
    case Square => ']'
    case Curly => '}'
  }

  /** A stretch of source: characters that are no brackets of code, and groups between matching brackets. */
  datatype Nest = Nil | Plain(rest: Nest) | Group(bracket: Bracket, inner: Nest, after: Nest)

  function Size(n: Nest): nat {
    match n
    case Nil => 0
    case Plain(rest) => 1 + Size(rest)
    case Group(_, inner, after) => 2 + Size(inner) + Size(after)
  }

  predicate IsBracket(c: char) {
    c == '(' || c == ')' || c == '[' || c == ']' || c == '{' || c == '}'
  }

  /** The stretch `n` stands in `s` at `k`. */
  predicate Reads(s: string, k: nat, n: Nest)
    decreases n
  {
    match n
    case Nil => k <= |s|
    case Plain(rest) => k < |s| && (CodeAt(s, 0, k) ==> !IsBracket(s[k])) && Reads(s, k + 1, rest)
    case Group(b, inner, after) =>
      var close := k + 1 + Size(inner);
      && close < |s| && CodeAt(s, 0, k) && s[k] == OpenOf(b) && CodeAt(s, 0, close) && s[close] == CloseOf(b)
      && Reads(s, k + 1, inner) && Reads(s, close + 1, after)
  }

  /** No semicolon of code stands outside the groups. */
  predicate NoSemicolon(s: string, k: nat, n: Nest)
    decreases n
  {
    match n
    case Nil => true
    case Plain(rest) => k < |s| && !(CodeAt(s, 0, k) && s[k] == ';') && NoSemicolon(s, k + 1, rest)
    case Group(_, inner, after) => NoSemicolon(s, k + 2 + Size(inner), after)
  }

  /** A semicolon; a block; a comma, as after a field, a variant or an arm; or, behind white space, the bracket around
      it all. */
  datatype Ending = Semicolon | Block(body: Nest) | Comma | Enclosing(gap: nat)

  /** What stands behind the attribute. */
  datatype Item = Item(header: Nest, ending: Ending)

  predicate IsClosing(c: char) {
    c == ')' || c == ']' || c == '}'
  }

  /** White space from `a` up to `b`. */
  predicate Gap(s: string, a: nat, b: nat) {
    a <= b <= |s| && forall k | a <= k < b :: SpaceChar(s[k])
  }

  predicate Ends(s: string, e: nat, ending: Ending) {
    match ending
    case Semicolon => e < |s| && CodeAt(s, 0, e) && s[e] == ';'
    case Block(body) => Reads(s, e, Group(Curly, body, Nil))
    case Comma => e < |s| && CodeAt(s, 0, e) && s[e] == ','
    case Enclosing(gap) =>
      && Gap(s, e, e + gap) && e + gap < |s| && CodeAt(s, 0, e + gap) && IsClosing(s[e + gap])
      && e > 0 && !SpaceChar(s[e - 1])
  }

  predicate ItemAt(s: string, from: nat, item: Item) {
    var e := from + Size(item.header);
    && Reads(s, from, item.header) && NoSemicolon(s, from, item.header) && Ends(s, e, item.ending)
    && (item.ending.Enclosing? ==> item.header != Nil)
  }

  /** Where the item is over. */
  function EndOf(s: string, from: nat, item: Item): nat
    requires ItemAt(s, from, item)
  {
    var e := from + Size(item.header);
    match item.ending
    case Semicolon => e + 1
    case Block(body) => e + 2 + Size(body)
    case Comma => e + 1
    case Enclosing(_) => e
  }

  /** How far the first group of curly brackets in the header reaches. */
  function FirstCurly(n: Nest): (end: Option<nat>)
    ensures end.Some? ==> 0 < end.value <= Size(n)
  {
    match n
    case Nil => None
    case Plain(rest) => if FirstCurly(rest) == None then None else Some(1 + FirstCurly(rest).value)
    case Group(b, inner, after) =>
      if b == Curly then Some(2 + Size(inner))
      else if FirstCurly(after) == None then None
      else Some(2 + Size(inner) + FirstCurly(after).value)
  }

  /** Behind white space a semicolon stands. */
  predicate StatementAt(s: string, c: nat) {
    exists r | c <= r < |s| :: s[r] == ';' && Gap(s, c, r)
  }

  /** The items whose end is found: without curly brackets in the header those that end in a semicolon, or in a block
      that no empty statement follows; with some, those that end right behind the first of them, but for white space
      before a semicolon. */
  predicate EndIsFound(s: string, from: nat, item: Item)
    requires ItemAt(s, from, item)
  {
    var e, curly := from + Size(item.header), FirstCurly(item.header);
    ReadsFits(s, from, item.header);
    match item.ending
    case Semicolon => curly == None || Gap(s, from + curly.value, e)
    case Block(body) => curly == None && !StatementAt(s, e + 2 + Size(body))
    case Comma => curly == None && e + 1 == |s|
    case Enclosing(_) => curly == Some(Size(item.header))
  }

  // --- White space --------------------------------------------------------------------------------------------

  lemma {:induction false} GapEnds(s: string, a: nat, b: nat)
    requires Gap(s, a, b) && b < |s| && !SpaceChar(s[b])
    ensures SpaceEnd(s, a) == b
    decreases b - a
  {
    hide SpaceChar;
    SpaceIs(s[a]);
    if a < b {
      GapEnds(s, a + 1, b);
    }
  }

  lemma {:induction false} SpacesAreGap(s: string, a: nat)
    requires a <= |s|
    ensures Gap(s, a, SpaceEnd(s, a)) && (SpaceEnd(s, a) < |s| ==> !SpaceChar(s[SpaceEnd(s, a)]))
    decreases |s| - a
  {
    hide SpaceChar;
    if a < |s| {
      SpaceIs(s[a]);
      if IsSpace(s[a]) {
        SpacesAreGap(s, a + 1);
      }
    }
  }

  lemma SemicolonIsNoSpace()
    ensures !SpaceChar(';') && !SpaceChar('{') && !SpaceChar(',') && forall c | IsClosing(c) :: !SpaceChar(c)
  {
    hide SpaceChar;
    SpacesAre();
  }

  lemma StatementIs(s: string, c: nat)
    requires c <= |s|
    ensures StatementAt(s, c) <==> SemicolonAfter(s, c) > 0
  {
    hide SpaceChar, SpaceEnd;
    SpacesAreGap(s, c);
    SemicolonIsNoSpace();
    if r :| c <= r < |s| && s[r] == ';' && Gap(s, c, r) {
      GapEnds(s, c, r);
    }
  }

  lemma GapToSemicolon(s: string, c: nat, e: nat)
    requires c <= e < |s| && s[e] == ';'
    ensures Gap(s, c, e) <==> SpaceEnd(s, c) == e
  {
    hide SpaceChar, SpaceEnd, Gap;
    SemicolonIsNoSpace();
    SpacesAreGap(s, c);
    if Gap(s, c, e) {
      GapEnds(s, c, e);
    }
  }

  // --- Depth in a stretch -----------------------------------------------------------------------------------

  lemma {:induction false} ReadsFits(s: string, k: nat, n: Nest)
    requires Reads(s, k, n)
    ensures k + Size(n) <= |s|
    decreases n
  {
    match n
    case Nil =>
    case Plain(rest) => ReadsFits(s, k + 1, rest);
    case Group(_, inner, after) => ReadsFits(s, k + 2 + Size(inner), after);
  }

  lemma DepthStep(s: string, from: nat, k: nat)
    requires from <= k < |s|
    ensures Depth(s, from, k + 1) == Depth(s, from, k) + if CodeAt(s, 0, k) then Delta(s[k]) else 0
  {
  }

  lemma DepthStart(s: string, from: nat)
    requires from <= |s|
    ensures Depth(s, from, from) == 0
  {
  }

  lemma BracketDelta(b: Bracket)
    ensures Delta(OpenOf(b)) == 1 && Delta(CloseOf(b)) == -1
  {
  }

  lemma PlainDelta(c: char)
    requires !IsBracket(c)
    ensures Delta(c) == 0
  {
  }

  /** A stretch ends at the depth at which it begins. */
  lemma {:induction false} DepthIsKept(s: string, from: nat, k: nat, n: Nest)
    requires from <= k && Reads(s, k, n)
    ensures k + Size(n) <= |s| && Depth(s, from, k + Size(n)) == Depth(s, from, k)
    decreases n
  {
    hide CodeAt, Depth, Delta, OpenOf, CloseOf, IsBracket;
    match n
    case Nil =>
    case Plain(rest) =>
      DepthStep(s, from, k);
      if CodeAt(s, 0, k) {
        PlainDelta(s[k]);
      }
      DepthIsKept(s, from, k + 1, rest);
    case Group(b, inner, after) =>
      var close := k + 1 + Size(inner);
      BracketDelta(b);
      DepthStep(s, from, k);
      DepthIsKept(s, from, k + 1, inner);
      DepthStep(s, from, close);
      DepthIsKept(s, from, close + 1, after);
  }

  lemma DeepIsNoStop(s: string, from: nat, j: nat)
    requires from <= j < |s| && Depth(s, from, j) >= 1 && Depth(s, from, j + 1) >= 1
    ensures !Stops(s, from, j)
  {
  }

  /** Inside a group nothing stops the item. */
  lemma {:induction false} NothingStopsInside(s: string, from: nat, k: nat, n: Nest, j: nat)
    requires from <= k && Reads(s, k, n) && k <= j < k + Size(n)
    requires k + Size(n) <= |s| && Depth(s, from, k) >= 1
    ensures !Stops(s, from, j)
    decreases n
  {
    hide CodeAt, Depth, Delta, Stops, IsBracket, OpenOf, CloseOf;
    DepthStep(s, from, k);
    match n
    case Plain(rest) =>
      if CodeAt(s, 0, k) {
        PlainDelta(s[k]);
      }
      if j > k {
        NothingStopsInside(s, from, k + 1, rest, j);
      } else {
        DeepIsNoStop(s, from, k);
      }
    case Group(b, inner, after) =>
      var close := k + 1 + Size(inner);
      BracketDelta(b);
      DepthIsKept(s, from, k + 1, inner);
      DepthStep(s, from, close);
      if k < j < close {
        NothingStopsInside(s, from, k + 1, inner, j);
      } else if j > close {
        NothingStopsInside(s, from, close + 1, after, j);
      } else {
        DeepIsNoStop(s, from, j);
      }
  }

  /** In the header nothing stops the item before its first group of curly brackets, and that group does. */
  lemma {:induction false} HeaderStops(s: string, from: nat, k: nat, n: Nest, j: nat)
    requires from <= k && Reads(s, k, n) && NoSemicolon(s, k, n) && Depth(s, from, k) == 0
    requires k + Size(n) <= |s| && k <= j < k + Size(n)
    ensures FirstCurly(n) == None || j < k + FirstCurly(n).value - 1 ==> !Stops(s, from, j)
    ensures FirstCurly(n).Some? && j == k + FirstCurly(n).value - 1 ==> s[j] == '}' && Stops(s, from, j)
    decreases n
  {
    hide CodeAt, Depth, Delta;
    match n
    case Plain(rest) =>
      DepthStep(s, from, k);
      if CodeAt(s, 0, k) {
        PlainDelta(s[k]);
      }
      if j > k {
        HeaderStops(s, from, k + 1, rest, j);
      }
    case Group(b, inner, after) =>
      var close := k + 1 + Size(inner);
      GroupStops(s, from, k, n, j);
      if j > close && b != Curly {
        HeaderStops(s, from, close + 1, after, j);
      }
  }

  lemma GroupDepths(s: string, from: nat, k: nat, n: Nest)
    requires from <= k && n.Group? && Reads(s, k, n) && Depth(s, from, k) == 0 && k + Size(n) <= |s|
    ensures Depth(s, from, k + 1) == 1 && Depth(s, from, k + 1 + Size(n.inner)) == 1
    ensures Depth(s, from, k + 2 + Size(n.inner)) == 0
  {
    hide CodeAt, Depth, Delta, OpenOf, CloseOf;
    BracketDelta(n.bracket);
    DepthStep(s, from, k);
    DepthIsKept(s, from, k + 1, n.inner);
    DepthStep(s, from, k + 1 + Size(n.inner));
  }

  lemma EdgeStops(s: string, from: nat, k: nat, n: Nest)
    requires from <= k && n.Group? && Reads(s, k, n) && Depth(s, from, k) == 0 && k + Size(n) <= |s|
    ensures !Stops(s, from, k) && (Stops(s, from, k + 1 + Size(n.inner)) <==> n.bracket == Curly)
  {
    hide CodeAt, Depth, Delta;
    GroupDepths(s, from, k, n);
  }

  /** A group that stands outside all others stops the item exactly if its brackets are curly. */
  lemma GroupStops(s: string, from: nat, k: nat, n: Nest, j: nat)
    requires from <= k && n.Group? && Reads(s, k, n) && Depth(s, from, k) == 0 && k + Size(n) <= |s|
    ensures k <= j <= k + 1 + Size(n.inner) ==>
      (Stops(s, from, j) <==> n.bracket == Curly && j == k + 1 + Size(n.inner))
    ensures Depth(s, from, k + 2 + Size(n.inner)) == 0
  {
    hide CodeAt, Depth, Delta, Stops, OpenOf, CloseOf;
    GroupDepths(s, from, k, n);
    EdgeStops(s, from, k, n);
    if k < j < k + 1 + Size(n.inner) {
      NothingStopsInside(s, from, k + 1, n.inner, j);
    }
  }

  // --- Where the code ends an item --------------------------------------------------------------------------

  lemma {:induction false} SkipTo(s: string, from: nat, k: nat, j: nat)
    requires from <= k <= j <= |s| && forall i | k <= i < j :: !Stops(s, from, i)
    ensures ItemEndFrom(s, from, k) == ItemEndFrom(s, from, j)
    decreases j - k
  {
    if k < j {
      SkipTo(s, from, k + 1, j);
    }
  }

  lemma {:induction false} EndIsBehind(s: string, from: nat, k: nat)
    requires from <= k < |s|
    ensures ItemEndFrom(s, from, k) > k
    decreases |s| - k
  {
    if !Stops(s, from, k) && k + 1 < |s| {
      EndIsBehind(s, from, k + 1);
    }
  }

  /** With curly brackets in its header the item is taken to end with the first of them. */
  lemma CurlyHeaderEnds(s: string, from: nat, n: Nest)
    requires Reads(s, from, n) && NoSemicolon(s, from, n) && FirstCurly(n).Some? && from + Size(n) <= |s|
    ensures var c := from + FirstCurly(n).value; ItemEndFrom(s, from, from) == c + SemicolonAfter(s, c)
  {
    hide CodeAt, Depth, Reads, NoSemicolon, Stops, SemicolonAfter;
    DepthStart(s, from);
    var stop := from + FirstCurly(n).value - 1;
    forall j | from <= j < stop ensures !Stops(s, from, j) {
      HeaderStops(s, from, from, n, j);
    }
    HeaderStops(s, from, from, n, stop);
    SkipTo(s, from, from, stop);
  }

  /** Without, it is looked for behind the header. */
  lemma PlainHeaderGoesOn(s: string, from: nat, n: Nest)
    requires Reads(s, from, n) && NoSemicolon(s, from, n) && FirstCurly(n) == None && from + Size(n) <= |s|
    ensures Depth(s, from, from + Size(n)) == 0
    ensures ItemEndFrom(s, from, from) == ItemEndFrom(s, from, from + Size(n))
  {
    hide CodeAt, Depth, Reads, NoSemicolon, Stops, ItemEndFrom;
    DepthStart(s, from);
    DepthIsKept(s, from, from, n);
    forall j | from <= j < from + Size(n) ensures !Stops(s, from, j) {
      HeaderStops(s, from, from, n, j);
    }
    SkipTo(s, from, from, from + Size(n));
  }

  lemma {:induction false} SpacesDoNotStop(s: string, from: nat, k: nat)
    requires from <= k <= |s|
    ensures ItemEndFrom(s, from, k) == ItemEndFrom(s, from, SpaceEnd(s, k))
    ensures Depth(s, from, SpaceEnd(s, k)) == Depth(s, from, k)
    decreases |s| - k
  {
    hide CodeAt, Depth;
    if k < |s| && IsSpace(s[k]) {
      DepthStep(s, from, k);
      SpacesDoNotStop(s, from, k + 1);
    }
  }

  lemma SemicolonEnds(s: string, from: nat, e: nat)
    requires from <= e < |s| && CodeAt(s, 0, e) && s[e] == ';' && Depth(s, from, e) == 0
    ensures ItemEndFrom(s, from, e) == e + 1
  {
    assert Stops(s, from, e);
  }

  lemma BlockEnds(s: string, from: nat, e: nat, body: Nest)
    requires from <= e && Reads(s, e, Group(Curly, body, Nil)) && e + 2 + Size(body) <= |s| && Depth(s, from, e) == 0
    ensures ItemEndFrom(s, from, e) == e + 2 + Size(body) + SemicolonAfter(s, e + 2 + Size(body))
  {
    hide CodeAt, Depth, Stops, Reads, SemicolonAfter;
    var block, close := Group(Curly, body, Nil), e + 1 + Size(body);
    forall j | e <= j < close ensures !Stops(s, from, j) {
      GroupStops(s, from, e, block, j);
    }
    GroupStops(s, from, e, block, close);
    GroupCloses(s, e, block);
    SkipTo(s, from, e, close);
  }

  lemma GroupCloses(s: string, k: nat, n: Nest)
    requires n.Group? && Reads(s, k, n)
    ensures k + 1 + Size(n.inner) < |s| && s[k + 1 + Size(n.inner)] == CloseOf(n.bracket)
  {
  }

  /** A comma does not end it, unless the source ends there. */
  lemma CommaIsPassed(s: string, from: nat, e: nat)
    requires from <= e < |s| && s[e] == ','
    ensures ItemEndFrom(s, from, e) == e + 1 <==> e + 1 == |s|
  {
    assert !Stops(s, from, e);
    if e + 1 < |s| {
      EndIsBehind(s, from, e + 1);
    }
  }

  /** A closing bracket around the item does not end it. */
  lemma ClosingIsPassed(s: string, from: nat, e: nat)
    requires from <= e <= |s| && SpaceEnd(s, e) < |s|
    ensures ItemEndFrom(s, from, e) > e
  {
    SpacesDoNotStop(s, from, e);
    EndIsBehind(s, from, SpaceEnd(s, e));
  }

  lemma EndsFits(s: string, e: nat, ending: Ending)
    requires Ends(s, e, ending)
    ensures e <= |s| && (ending.Semicolon? || ending.Comma? ==> e < |s|)
    ensures (ending.Block? ==> e + 2 + Size(ending.body) <= |s|)
  {
    if ending.Block? {
      ReadsFits(s, e, Group(Curly, ending.body, Nil));
    }
  }

  /** The end behind a header without curly brackets. */
  lemma PlainHeaderEnd(s: string, from: nat, item: Item)
    requires ItemAt(s, from, item) && FirstCurly(item.header) == None
    ensures ItemEndFrom(s, from, from) == EndOf(s, from, item) <==> EndIsFound(s, from, item)
  {
    hide CodeAt, Depth, NoSemicolon, Stops, ItemEndFrom, Reads, FirstCurly, StatementAt, SpaceChar, SemicolonAfter;
    var e := from + Size(item.header);
    EndsFits(s, e, item.ending);
    PlainHeaderGoesOn(s, from, item.header);
    match item.ending
    case Semicolon => SemicolonEnds(s, from, e);
    case Block(body) =>
      BlockEnds(s, from, e, body);
      StatementIs(s, e + 2 + Size(body));
    case Comma => CommaIsPassed(s, from, e);
    case Enclosing(gap) =>
      SemicolonIsNoSpace();
      GapEnds(s, e, e + gap);
      ClosingIsPassed(s, from, e);
  }

  lemma {:induction false} NoSemicolonBehindSpaces(s: string, k: nat, n: Nest)
    requires Reads(s, k, n) && NoSemicolon(s, k, n) && k + Size(n) <= |s|
    requires SpaceEnd(s, k) < k + Size(n) && CodeAt(s, 0, SpaceEnd(s, k))
    ensures s[SpaceEnd(s, k)] != ';'
    decreases n
  {
    match n
    case Plain(rest) =>
      if IsSpace(s[k]) {
        NoSemicolonBehindSpaces(s, k + 1, rest);
      }
    case Group(b, _, _) =>
      assert s[k] == OpenOf(b) && !IsSpace(s[k]);
  }

  /** What comes behind the first group of curly brackets. */
  function BehindCurly(n: Nest): (after: Nest)
    requires FirstCurly(n).Some?
    ensures FirstCurly(n).value + Size(after) == Size(n)
  {
    match n
    case Plain(rest) => BehindCurly(rest)
    case Group(b, _, rest) => if b == Curly then rest else BehindCurly(rest)
  }

  lemma {:induction false} BehindCurlyReads(s: string, k: nat, n: Nest)
    requires Reads(s, k, n) && NoSemicolon(s, k, n) && FirstCurly(n).Some?
    ensures var c := k + FirstCurly(n).value; Reads(s, c, BehindCurly(n)) && NoSemicolon(s, c, BehindCurly(n))
    decreases n
  {
    hide CodeAt;
    match n
    case Plain(rest) => BehindCurlyReads(s, k + 1, rest);
    case Group(b, inner, rest) =>
      if b != Curly {
        BehindCurlyReads(s, k + 2 + Size(inner), rest);
      }
  }

  /** White space behind a group of the header leads to no semicolon within the header. */
  lemma SpacesLeadOut(s: string, from: nat, n: Nest)
    requires Reads(s, from, n) && NoSemicolon(s, from, n) && FirstCurly(n).Some? && from + Size(n) <= |s|
    ensures var r := SpaceEnd(s, from + FirstCurly(n).value); r < from + Size(n) ==> s[r] != ';'
  {
    hide Depth;
    DepthStart(s, from);
    var c := from + FirstCurly(n).value;
    var r := SpaceEnd(s, c);
    if r < from + Size(n) && s[r] == ';' {
      HeaderStops(s, from, from, n, c - 1);
      CodeIsBoundary(s, 0, c - 1);
      SpacesAreCode(s, from, c);
      BehindCurlyReads(s, from, n);
      NoSemicolonBehindSpaces(s, c, BehindCurly(n));
    }
  }

  lemma {:induction false} SpacesEndBefore(s: string, k: nat, e: nat)
    requires k <= e < |s| && !IsSpace(s[e])
    ensures SpaceEnd(s, k) <= e
    decreases e - k
  {
    if k < e && IsSpace(s[k]) {
      SpacesEndBefore(s, k + 1, e);
    }
  }

  lemma BlockOpens(s: string, e: nat, body: Nest)
    requires Reads(s, e, Group(Curly, body, Nil))
    ensures e < |s| && s[e] == '{'
  {
    ReadsFits(s, e, Group(Curly, body, Nil));
  }

  lemma SpacesAndSemicolon(s: string, c: nat)
    requires c <= |s|
    ensures var r := SpaceEnd(s, c); c + SemicolonAfter(s, c) == if r < |s| && s[r] == ';' then r + 1 else c
  {
  }

  /** The end with curly brackets in the header. */
  lemma CurlyHeaderEnd(s: string, from: nat, item: Item)
    requires ItemAt(s, from, item) && FirstCurly(item.header).Some?
    ensures ItemEndFrom(s, from, from) == EndOf(s, from, item) <==> EndIsFound(s, from, item)
  {
    hide CodeAt, Depth, NoSemicolon, Reads, Stops, ItemEndFrom, FirstCurly, SemicolonAfter, SpaceEnd, SpaceChar, Gap;
    EndsFits(s, from + Size(item.header), item.ending);
    var e, c := from + Size(item.header), from + FirstCurly(item.header).value;
    SpacesAndSemicolon(s, c);
    ReadsFits(s, from, item.header);
    CurlyHeaderEnds(s, from, item.header);
    SpacesLeadOut(s, from, item.header);
    match item.ending
    case Semicolon =>
      GapToSemicolon(s, c, e);
      SpacesEndBefore(s, c, e);
    case Block(body) =>
      BlockOpens(s, e, body);
      SpacesEndBefore(s, c, e);
    case Comma =>
      SpacesEndBefore(s, c, e);
    case Enclosing(gap) =>
      SemicolonIsNoSpace();
      GapEnds(s, e, e + gap);
      if c < e {
        SpaceIs(s[e - 1]);
        SpacesEndBefore(s, c, e - 1);
      }
  }

  /** A range ends where the item behind its attribute ends exactly if the end is found. */
  lemma RangeIsItem(s: string, r: Range, item: Item)
    requires r in TestRanges(s, 0) && ItemAt(s, r.start + 12, item)
    ensures r.end == EndOf(s, r.start + 12, item) <==> EndIsFound(s, r.start + 12, item)
  {
    hide ItemAt, EndOf, EndIsFound, FirstCurly, TestRanges, CodeAt;
    RangeEnds(s, 0, r);
    if FirstCurly(item.header) == None {
      PlainHeaderEnd(s, r.start + 12, item);
    } else {
      CurlyHeaderEnd(s, r.start + 12, item);
    }
  }

  lemma {:induction false} RangeEnds(s: string, at: nat, r: Range)
    requires at <= |s| && r in TestRanges(s, at)
    ensures Accepted(s, r.start) && r.end == ItemEnd(s, r.start)
    decreases |s| - at
  {
    hide CodeAt, ItemEndFrom;
    var m := FirstAccepted(s, at);
    if r != Range(m, ItemEnd(s, m)) {
      RangeEnds(s, ItemEnd(s, m), r);
    }
  }

  lemma FirstRange(s: string)
    requires Accepted(s, 0)
    ensures TestRanges(s, 0) != [] && TestRanges(s, 0)[0] == Range(0, ItemEnd(s, 0))
  {
  }

  // --- Items whose end is not found -----------------------------------------------------------------------

  /** Without quotes and slashes everything is code. */
  lemma {:induction false} AllIsCode(s: string, from: nat, k: nat)
    requires from <= k < |s| && forall c | c in s :: c != '"' && c != '\'' && c != '/'
    ensures CodeAt(s, from, k)
    decreases |s| - from
  {
    assert forall i | 0 <= i < |s| :: s[i] in s;
    if from < k {
      AllIsCode(s, from + 1, k);
    }
  }

  lemma AttributeFirst(s: string)
    requires |s| >= 12 && s[..12] == ATTRIBUTE && forall c | c in s :: c != '"' && c != '\'' && c != '/'
    ensures Accepted(s, 0)
  {
    AllIsCode(s, 0, 0);
    assert s[0..12] == s[..12];
  }

  /** An enum variant that only tests compile, and what comes behind it. */
  const VARIANT := "#[cfg(test)]A,B}x"

  /** The variant ends with its comma, but its range runs on. */
  lemma VariantRunsOn()
    ensures ItemAt(VARIANT, 12, Item(Plain(Nil), Comma)) && EndOf(VARIANT, 12, Item(Plain(Nil), Comma)) == 14
    ensures TestRanges(VARIANT, 0) != [] && TestRanges(VARIANT, 0)[0].start == 0 && TestRanges(VARIANT, 0)[0].end > 14
  {
    hide CodeAt, ItemEndFrom, TestRanges;
    AttributeFirst(VARIANT);
    FirstRange(VARIANT);
    AllIsCode(VARIANT, 0, 12);
    AllIsCode(VARIANT, 0, 13);
    assert Reads(VARIANT, 13, Nil) && NoSemicolon(VARIANT, 13, Nil);
    DepthStart(VARIANT, 12);
    PlainHeaderGoesOn(VARIANT, 12, Plain(Nil));
    CommaIsPassed(VARIANT, 12, 13);
    EndIsBehind(VARIANT, 12, 13);
  }

  function Plains(n: nat, rest: Nest): (r: Nest)
    ensures Size(r) == n + Size(rest)
  {
    if n == 0 then rest else Plain(Plains(n - 1, rest))
  }

  lemma {:induction false} PlainsRead(s: string, k: nat, n: nat, rest: Nest)
    requires k + n <= |s| && (forall j | k <= j < k + n :: !IsBracket(s[j]) && s[j] != ';')
    requires Reads(s, k + n, rest) && NoSemicolon(s, k + n, rest)
    ensures Reads(s, k, Plains(n, rest)) && NoSemicolon(s, k, Plains(n, rest))
    ensures FirstCurly(Plains(n, rest)) ==
            if FirstCurly(rest) == None then None else Some(n + FirstCurly(rest).value)
    decreases n
  {
    hide CodeAt;
    if n > 0 {
      PlainsRead(s, k + 1, n - 1, rest);
    }
  }

  predicate PlainAt(s: string, k: nat, n: nat) {
    k + n <= |s| && forall j | k <= j < k + n :: !IsBracket(s[j]) && s[j] != ';'
  }

  predicate BracketAt(s: string, k: nat, c: char) {
    k < |s| && s[k] == c && CodeAt(s, 0, k)
  }

  /** A header with one group of curly brackets: `a`, `b` and `c` characters before, in and behind it. */
  function CurlyHeader(a: nat, b: nat, c: nat): Nest {
    Plains(a, Group(Curly, Plains(b, Nil), Plains(c, Nil)))
  }

  lemma GroupReads(s: string, k: nat, b: Bracket, inner: Nest, after: Nest, close: nat)
    requires close == k + 1 + Size(inner) && close < |s| && CodeAt(s, 0, k) && s[k] == OpenOf(b)
    requires CodeAt(s, 0, close) && s[close] == CloseOf(b) && Reads(s, k + 1, inner) && Reads(s, close + 1, after)
    ensures Reads(s, k, Group(b, inner, after))
  {
    hide CodeAt, OpenOf, CloseOf, IsBracket, Size;
  }

  lemma CurlyReads(s: string, k: nat, inner: Nest, after: Nest)
    requires BracketAt(s, k, '{') && Reads(s, k + 1, inner) && BracketAt(s, k + 1 + Size(inner), '}')
    requires Reads(s, k + 2 + Size(inner), after)
    ensures Reads(s, k, Group(Curly, inner, after))
  {
    hide CodeAt, Reads, Size;
    GroupReads(s, k, Curly, inner, after, k + 1 + Size(inner));
  }

  lemma CurlyHeads(s: string, k: nat, inner: Nest, after: Nest)
    requires NoSemicolon(s, k + 2 + Size(inner), after)
    ensures NoSemicolon(s, k, Group(Curly, inner, after))
    ensures FirstCurly(Group(Curly, inner, after)) == Some(2 + Size(inner))
  {
    hide CodeAt;
  }

  lemma NothingReads(s: string, k: nat)
    requires k <= |s|
    ensures Reads(s, k, Nil) && NoSemicolon(s, k, Nil)
  {
  }

  lemma CurlyHeaderReads(s: string, k: nat, a: nat, b: nat, c: nat)
    requires PlainAt(s, k, a) && BracketAt(s, k + a, '{') && PlainAt(s, k + a + 1, b)
    requires BracketAt(s, k + a + 1 + b, '}') && PlainAt(s, k + a + 2 + b, c)
    ensures Reads(s, k, CurlyHeader(a, b, c)) && NoSemicolon(s, k, CurlyHeader(a, b, c))
    ensures FirstCurly(CurlyHeader(a, b, c)) == Some(a + b + 2) && Size(CurlyHeader(a, b, c)) == a + b + c + 2
  {
    hide CodeAt, Plains, Reads, NoSemicolon, FirstCurly, IsBracket;
    var close := k + a + 1 + b;
    NothingReads(s, close);
    NothingReads(s, close + 1 + c);
    PlainsRead(s, close + 1, c, Nil);
    PlainsRead(s, k + a + 1, b, Nil);
    CurlyReads(s, k + a, Plains(b, Nil), Plains(c, Nil));
    CurlyHeads(s, k + a, Plains(b, Nil), Plains(c, Nil));
    PlainsRead(s, k, a, Group(Curly, Plains(b, Nil), Plains(c, Nil)));
  }

  lemma EmptyBlockReads(s: string, e: nat)
    requires BracketAt(s, e, '{') && BracketAt(s, e + 1, '}')
    ensures Reads(s, e, Group(Curly, Nil, Nil))
  {
    hide CodeAt;
    assert Reads(s, e + 1, Nil) && Reads(s, e + 2, Nil);
  }

  /** An implementation whose type holds a block. */
  const IMPLEMENTATION := "#[cfg(test)]impl A<{1}>{}"

  lemma ImplementationIsWritten()
    ensures PlainAt(IMPLEMENTATION, 12, 7) && BracketAt(IMPLEMENTATION, 19, '{') && PlainAt(IMPLEMENTATION, 20, 1)
    ensures BracketAt(IMPLEMENTATION, 21, '}') && PlainAt(IMPLEMENTATION, 22, 1)
    ensures BracketAt(IMPLEMENTATION, 23, '{') && BracketAt(IMPLEMENTATION, 24, '}')
  {
    hide CodeAt;
    AllIsCode(IMPLEMENTATION, 0, 19);
    AllIsCode(IMPLEMENTATION, 0, 21);
    AllIsCode(IMPLEMENTATION, 0, 23);
    AllIsCode(IMPLEMENTATION, 0, 24);
  }

  lemma ItemWithBlock(s: string, from: nat, header: Nest)
    requires Reads(s, from, header) && NoSemicolon(s, from, header)
    requires Reads(s, from + Size(header), Group(Curly, Nil, Nil))
    ensures ItemAt(s, from, Item(header, Ending.Block(Nil)))
    ensures EndOf(s, from, Item(header, Ending.Block(Nil))) == from + Size(header) + 2
  {
    hide Reads, NoSemicolon;
  }

  /** The implementation ends with the source, but its range ends with the block of the type. */
  lemma ImplementationIsCut()
    ensures var item := Item(CurlyHeader(7, 1, 1), Ending.Block(Nil));
      && ItemAt(IMPLEMENTATION, 12, item) && EndOf(IMPLEMENTATION, 12, item) == |IMPLEMENTATION| > 22
      && TestRanges(IMPLEMENTATION, 0) != [] && TestRanges(IMPLEMENTATION, 0)[0] == Range(0, 22)
  {
    hide CodeAt, ItemEndFrom, TestRanges, Reads, NoSemicolon, BracketAt, PlainAt, Accepted, CurlyHeader, ItemAt,
      EndOf, FirstCurly;
    ImplementationIsWritten();
    AttributeFirst(IMPLEMENTATION);
    FirstRange(IMPLEMENTATION);
    CurlyHeaderReads(IMPLEMENTATION, 12, 7, 1, 1);
    EmptyBlockReads(IMPLEMENTATION, 23);
    ItemWithBlock(IMPLEMENTATION, 12, CurlyHeader(7, 1, 1));
    CurlyHeaderEnds(IMPLEMENTATION, 12, CurlyHeader(7, 1, 1));
    assert SpaceEnd(IMPLEMENTATION, 22) == 22;
  }

  /** A block item and an empty statement. */
  const STATEMENT := "#[cfg(test)]impl A{};"

  lemma StatementIsWritten()
    ensures PlainAt(STATEMENT, 12, 6) && BracketAt(STATEMENT, 18, '{') && BracketAt(STATEMENT, 19, '}')
    ensures Reads(STATEMENT, 12, Plains(6, Nil)) && NoSemicolon(STATEMENT, 12, Plains(6, Nil))
    ensures FirstCurly(Plains(6, Nil)) == None
  {
    hide CodeAt, Plains;
    AllIsCode(STATEMENT, 0, 18);
    AllIsCode(STATEMENT, 0, 19);
    NothingReads(STATEMENT, 18);
    PlainsRead(STATEMENT, 12, 6, Nil);
  }

  /** The item ends with its block, but its range takes the empty statement along. */
  lemma StatementGoesAlong()
    ensures var item := Item(Plains(6, Nil), Ending.Block(Nil));
      && ItemAt(STATEMENT, 12, item) && EndOf(STATEMENT, 12, item) == 20 < |STATEMENT|
      && TestRanges(STATEMENT, 0) != [] && TestRanges(STATEMENT, 0)[0] == Range(0, |STATEMENT|)
  {
    hide CodeAt, ItemEndFrom, TestRanges, Reads, NoSemicolon, PlainAt, BracketAt, Accepted, Plains, FirstCurly, ItemAt,
      EndOf, Depth;
    StatementIsWritten();
    AttributeFirst(STATEMENT);
    FirstRange(STATEMENT);
    EmptyBlockReads(STATEMENT, 18);
    ItemWithBlock(STATEMENT, 12, Plains(6, Nil));
    PlainHeaderGoesOn(STATEMENT, 12, Plains(6, Nil));
    BlockEnds(STATEMENT, 12, 18, Nil);
    assert SpaceEnd(STATEMENT, 20) == 20;
  }
}
