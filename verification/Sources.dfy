/** Whole sources, written as comments, literals, names, lifetimes and marks (The Rust Reference, chapter "Tokens"):
    when all comments and literals are readable, the lexer's flags are what the parts say. */
module Sources {
  import opened Alphabets
  import opened Strings
  import opened RustLexer
  import opened Lexemes
  import opened CodeOnly

  /** White space and punctuation are marks. */
  datatype Part =
    | Literal(lx: Lexeme)
    | Ident(raw: bool, name: string)
    | Lifetime(raw: bool, name: string)
    | Mark(c: char)

  /** Keywords and numbers are made of these characters as well. */
  predicate IdentChar(c: char) {
    WordChar(c) || (c >= '\U{80}' && !SpaceChar(c))
  }

  lemma IdentIs(c: char)
    ensures IdentChar(c) <==> IsWord(c) || (c >= '\U{80}' && !IsSpace(c))
  {
    hide WordChar, SpaceChar;
    WordIs(c);
    SpaceIs(c);
  }

  lemma IdentIsPlain(c: char)
    ensures IdentChar(c) ==> c != '"' && c != '\'' && c != '#' && c != '/' && c != '\\'
    ensures c == 'r' || c == 'b' ==> IdentChar(c)
  {
    hide IdentChar;
    IdentIs(c);
  }

  function Name(raw: bool, name: string): string {
    if raw then "r#" + name else name
  }

  function PartText(part: Part): string {
    match part
    case Literal(lx) => Text(lx)
    case Ident(raw, name) => Name(raw, name)
    case Lifetime(raw, name) => "'" + Name(raw, name)
    case Mark(c) => [c]
  }

  /** A name goes as far as it can, and no quote or hash follows it: those are reserved for prefixes. */
  predicate NameEnds(s: string, k: nat) {
    k < |s| ==> !IdentChar(s[k]) && s[k] != '"' && s[k] != '\'' && s[k] != '#'
  }

  predicate NameAt(s: string, i: nat, raw: bool, name: string) {
    && Stands(s, i, Name(raw, name)) && NameEnds(s, i + |Name(raw, name)|)
    && name != "" && forall c | c in name :: IdentChar(c)
  }

  predicate IsMark(c: char) {
    !IdentChar(c) && c != '"' && c != '\''
  }

  /** A slash that a comment begins with is no mark. */
  predicate PartAt(s: string, i: nat, part: Part) {
    match part
    case Literal(lx) => Written(s, i, lx)
    case Ident(raw, name) => NameAt(s, i, raw, name)
    case Lifetime(raw, name) => Stands(s, i, "'") && NameAt(s, i + 1, raw, name)
    case Mark(c) => Stands(s, i, [c]) && IsMark(c) && !Stands(s, i, "//") && !Stands(s, i, "/*")
  }

  /** From `i` on `s` consists of the parts. */
  predicate SourceAt(s: string, i: nat, parts: seq<Part>)
    decreases |parts|
  {
    if parts == [] then i == |s|
    else PartAt(s, i, parts[0]) && SourceAt(s, i + |PartText(parts[0])|, parts[1..])
  }

  /** All comments and literals among the parts are readable. */
  predicate AllReadable(s: string, i: nat, parts: seq<Part>)
    decreases |parts|
  {
    parts != [] ==>
      && (parts[0].Literal? ==> ReadableAt(s, i, parts[0].lx))
      && AllReadable(s, i + |PartText(parts[0])|, parts[1..])
  }

  /** Comments and literals are not code, but for the prefix of some and the suffix of raw C strings. */
  function PartFlags(part: Part): (f: seq<bool>)
    ensures |f| == |PartText(part)|
  {
    match part
    case Literal(lx) =>
      PrefixFits(lx);
      Repeat(true, Prefix(lx)) + Repeat(false, |Text(lx)| - Prefix(lx) - Suffix(lx)) + Repeat(true, Suffix(lx))
    case _ => Repeat(true, |PartText(part)|)
  }

  function SourceFlags(parts: seq<Part>): seq<bool> {
    if parts == [] then [] else PartFlags(parts[0]) + SourceFlags(parts[1..])
  }

  lemma PrefixFits(lx: Lexeme)
    ensures Prefix(lx) + Suffix(lx) <= |Text(lx)|
  {
  }

  // --- Code -------------------------------------------------------------------------------------------------

  lemma {:induction false} CodeFlags(s: string, a: nat, b: nat)
    requires a <= b <= |s| && AllCode(s, a, b)
    ensures Flags(s, a) == Repeat(true, b - a) + Flags(s, b)
    decreases b - a
  {
    hide CodeToken, Flags;
    if a < b {
      OneFlag(s, a);
      CodeFlags(s, a + 1, b);
      assert [true] + (Repeat(true, b - a - 1) + Flags(s, b)) == Repeat(true, b - a) + Flags(s, b);
    }
  }

  lemma OneFlag(s: string, a: nat)
    requires a < |s| && CodeToken(s, a)
    ensures Flags(s, a) == [true] + Flags(s, a + 1)
  {
    hide NextToken;
    assert Repeat(true, 1) == [true];
  }

  lemma TokenFlags(s: string, a: nat, b: nat)
    requires a < b <= |s| && NextToken(s, a) == Token(b, false)
    ensures Flags(s, a) == Repeat(false, b - a) + Flags(s, b)
  {
    hide NextToken;
  }

  lemma ThreeFlags(a: seq<bool>, b: seq<bool>, c: seq<bool>, d: seq<bool>)
    ensures a + (b + (c + d)) == a + b + c + d
  {
  }

  /** A readable comment or literal gives the flags of its part. */
  lemma LiteralFlags(s: string, i: nat, lx: Lexeme)
    requires Written(s, i, lx) && ReadableAt(s, i, lx)
    ensures i + |Text(lx)| <= |s| && Flags(s, i) == PartFlags(Literal(lx)) + Flags(s, i + |Text(lx)|)
  {
    hide Written, ReadableAt, NextToken, Flags, Text, AllCode;
    LexemesAreRead(s, i, lx);
    PrefixFits(lx);
    var a, b, end := i + Prefix(lx), i + |Text(lx)| - Suffix(lx), i + |Text(lx)|;
    CodeFlags(s, i, a);
    TokenFlags(s, a, b);
    CodeFlags(s, b, end);
    ThreeFlags(Repeat(true, Prefix(lx)), Repeat(false, b - a), Repeat(true, Suffix(lx)), Flags(s, end));
  }

  lemma NoRawOpen(s: string, k: nat)
    requires k < |s| && IdentChar(s[k])
    requires k + 1 < |s| ==> s[k + 1] != '"' && s[k + 1] != '#'
    requires k + 2 < |s| && IdentChar(s[k + 1]) ==> s[k + 2] != '"' && s[k + 2] != '#'
    ensures RawOpen(s, k) == 0
  {
    hide IdentChar;
    if k + 1 < |s| {
      IdentIsPlain(s[k + 1]);
    }
    if k + 2 < |s| {
      IdentIsPlain(s[k + 2]);
    }
  }

  /** A character of a name is code, whatever it begins with. */
  lemma IdentIsCode(s: string, k: nat)
    requires k < |s| && IdentChar(s[k])
    requires k + 1 < |s| ==> s[k + 1] != '"' && s[k + 1] != '#'
    requires k + 2 < |s| && IdentChar(s[k + 1]) ==> s[k + 2] != '"' && s[k + 2] != '#'
    ensures CodeToken(s, k)
  {
    hide RawOpen, IdentChar;
    NoRawOpen(s, k);
    IdentIsPlain(s[k]);
  }

  lemma NameIsCode(s: string, i: nat, name: string)
    requires NameAt(s, i, false, name)
    ensures i + |name| <= |s| && AllCode(s, i, i + |name|)
  {
    hide CodeToken, IdentChar;
    StandsAt(s, i, name);
    forall k | i <= k < i + |name| ensures IdentChar(s[k]) && s[k] != '"' && s[k] != '#' {
      assert s[i + (k - i)] == name[k - i];
      IdentIsPlain(s[k]);
    }
    forall k | i <= k < i + |name| ensures CodeToken(s, k) {
      IdentIsCode(s, k);
    }
  }

  /** The `r` of a raw name opens no raw string. */
  lemma RawMarkIsCode(s: string, i: nat)
    requires i + 2 < |s| && s[i] == 'r' && s[i + 1] == '#' && IdentChar(s[i + 2])
    ensures CodeToken(s, i) && CodeToken(s, i + 1)
  {
    hide IdentChar;
    IdentIsPlain(s[i + 2]);
    assert HashRun(s, i + 2) == 0 && HashRun(s, i + 1) == 1;
  }

  lemma RawNameStands(s: string, i: nat, name: string)
    requires NameAt(s, i, true, name)
    ensures i + 2 < |s| && s[i] == 'r' && s[i + 1] == '#' && IdentChar(s[i + 2]) && NameAt(s, i + 2, false, name)
  {
    hide IdentChar;
    StandsSplit(s, i, "r#", name);
    TwoStand(s, i, 'r', '#');
    StandsAt(s, i + 2, name);
    assert s[i + 2 + 0] == name[0] && name[0] in name;
  }

  lemma AnyNameIsCode(s: string, i: nat, raw: bool, name: string)
    requires NameAt(s, i, raw, name)
    ensures i + |Name(raw, name)| <= |s| && AllCode(s, i, i + |Name(raw, name)|)
  {
    hide CodeToken, NameAt, IdentChar;
    if raw {
      RawNameStands(s, i, name);
      RawMarkIsCode(s, i);
      NameIsCode(s, i + 2, name);
    } else {
      NameIsCode(s, i, name);
    }
  }

  lemma MarkIsCode(s: string, i: nat)
    requires i < |s| && IsMark(s[i]) && !Pair(s, i, '/', '/') && !Pair(s, i, '/', '*')
    ensures CodeToken(s, i)
  {
    hide IdentChar;
    IdentIsPlain(s[i]);
  }

  lemma NoCommentHere(s: string, i: nat)
    requires !Stands(s, i, "//") && !Stands(s, i, "/*")
    ensures !Pair(s, i, '/', '/') && !Pair(s, i, '/', '*')
  {
    if i + 2 <= |s| {
      assert s[i..i + 2] == [s[i], s[i + 1]];
    }
  }

  lemma TickIsCode(s: string, i: nat, raw: bool, name: string)
    requires Stands(s, i, "'") && NameAt(s, i + 1, raw, name)
    ensures i + 1 + |Name(raw, name)| <= |s| && AllCode(s, i, i + 1 + |Name(raw, name)|)
  {
    hide CodeToken, IdentChar, AllCode;
    var text := Name(raw, name);
    assert s[i..i + 1 + |text|] == s[i..i + 1] + s[i + 1..i + 1 + |text|];
    NameIsPlain(raw, name);
    assert text[0] in text;
    TickToken(s, i, text);
    AnyNameIsCode(s, i + 1, raw, name);
    CodeBehindOne(s, i, i + 1 + |text|);
  }

  lemma NameIsPlain(raw: bool, name: string)
    requires forall c | c in name :: IdentChar(c)
    ensures forall c | c in Name(raw, name) :: c != '\'' && c != '\\'
  {
    hide IdentChar;
    forall c | c in Name(raw, name) ensures c != '\'' && c != '\\' {
      IdentIsPlain(c);
    }
  }

  lemma CodeBehindOne(s: string, i: nat, end: nat)
    requires i < end <= |s| && CodeToken(s, i) && AllCode(s, i + 1, end)
    ensures AllCode(s, i, end)
  {
    hide CodeToken;
  }

  lemma TickToken(s: string, i: nat, text: string)
    requires Stands(s, i, "'" + text) && text != "" && text[0] != '\\' && '\'' !in text
    requires i + 1 + |text| < |s| ==> s[i + 1 + |text|] != '\''
    ensures CodeToken(s, i)
  {
    LifetimeIsCode(s, i, text);
  }

  lemma PartIsCode(s: string, i: nat, part: Part)
    requires PartAt(s, i, part) && !part.Literal?
    ensures i + |PartText(part)| <= |s| && AllCode(s, i, i + |PartText(part)|)
  {
    hide CodeToken, NameAt;
    match part
    case Ident(raw, name) => AnyNameIsCode(s, i, raw, name);
    case Lifetime(raw, name) => TickIsCode(s, i, raw, name);
    case Mark(c) =>
      OneStands(s, i, c);
      NoCommentHere(s, i);
      MarkIsCode(s, i);
  }

  lemma PartIsRead(s: string, i: nat, part: Part)
    requires PartAt(s, i, part) && (part.Literal? ==> ReadableAt(s, i, part.lx))
    ensures i + |PartText(part)| <= |s| && Flags(s, i) == PartFlags(part) + Flags(s, i + |PartText(part)|)
  {
    hide NameAt, ReadableAt, Written, Flags, AllCode, Text, Pair;
    if part.Literal? {
      LiteralFlags(s, i, part.lx);
    } else {
      PartIsCode(s, i, part);
      CodeFlags(s, i, i + |PartText(part)|);
    }
  }

  /** The lexer's flags for a source are exactly those of its parts. */
  lemma {:induction false} SourceIsRead(s: string, i: nat, parts: seq<Part>)
    requires i <= |s| && SourceAt(s, i, parts) && AllReadable(s, i, parts)
    ensures Flags(s, i) == SourceFlags(parts)
    decreases |parts|
  {
    hide PartAt, ReadableAt, NextToken;
    if parts != [] {
      PartIsRead(s, i, parts[0]);
      SourceIsRead(s, i + |PartText(parts[0])|, parts[1..]);
    }
  }

  // --- What codeOnly leaves -----------------------------------------------------------------------------------

  /** Flagged characters and line ends stay, the others are blanked. */
  function Kept(t: string, flags: seq<bool>): (r: string)
    requires |flags| == |t|
    ensures |r| == |t|
  {
    seq(|t|, k requires 0 <= k < |t| => if flags[k] || t[k] == '\n' then t[k] else ' ')
  }

  /** Of a comment or literal the prefix and the suffix stay. */
  function PartCode(part: Part): string {
    match part
    case Literal(lx) =>
      PrefixFits(lx);
      var text, a, b := Text(lx), Prefix(lx), |Text(lx)| - Suffix(lx);
      text[..a] + Kept(text[a..b], Repeat(false, b - a)) + text[b..]
    case _ => PartText(part)
  }

  function SourceCode(parts: seq<Part>): string {
    if parts == [] then "" else PartCode(parts[0]) + SourceCode(parts[1..])
  }

  lemma KeptConcat(t: string, f: seq<bool>, u: string, g: seq<bool>)
    requires |f| == |t| && |g| == |u|
    ensures Kept(t + u, f + g) == Kept(t, f) + Kept(u, g)
  {
  }

  lemma KeptAll(t: string)
    ensures Kept(t, Repeat(true, |t|)) == t
  {
  }

  lemma KeptPart(part: Part)
    ensures Kept(PartText(part), PartFlags(part)) == PartCode(part)
  {
    hide Kept, Text, Prefix, Suffix;
    if part.Literal? {
      PrefixFits(part.lx);
      var text, a, b := Text(part.lx), Prefix(part.lx), |Text(part.lx)| - Suffix(part.lx);
      assert text == text[..a] + text[a..b] + text[b..];
      KeptConcat(text[..a] + text[a..b], Repeat(true, a) + Repeat(false, b - a), text[b..], Repeat(true, |text| - b));
      KeptConcat(text[..a], Repeat(true, a), text[a..b], Repeat(false, b - a));
      KeptAll(text[..a]);
      KeptAll(text[b..]);
    } else {
      KeptAll(PartText(part));
    }
  }

  lemma PartStands(s: string, i: nat, part: Part)
    requires PartAt(s, i, part)
    ensures i + |PartText(part)| <= |s| && s[i..] == PartText(part) + s[i + |PartText(part)|..]
  {
    hide Text, Name, IdentChar, Stands;
    match part {
      case Lifetime(raw, name) => TickStands(s, i, Name(raw, name));
      case _ =>
    }
    TextInFront(s, i, PartText(part));
  }

  lemma TickStands(s: string, i: nat, name: string)
    requires Stands(s, i, "'") && Stands(s, i + 1, name)
    ensures Stands(s, i, "'" + name)
  {
    assert s[i..i + 1 + |name|] == s[i..i + 1] + s[i + 1..i + 1 + |name|];
  }

  lemma TextInFront(s: string, i: nat, text: string)
    requires Stands(s, i, text)
    ensures i + |text| <= |s| && s[i..] == text + s[i + |text|..]
  {
  }

  lemma {:induction false} SourceIsKept(s: string, i: nat, parts: seq<Part>)
    requires i <= |s| && SourceAt(s, i, parts)
    ensures |SourceFlags(parts)| == |s| - i && Kept(s[i..], SourceFlags(parts)) == SourceCode(parts)
    decreases |parts|
  {
    hide PartAt, Kept, PartCode, PartFlags;
    if parts == [] {
      KeptAll("");
      assert s[i..] == "" && Repeat(true, 0) == [];
    } else {
      var next := i + |PartText(parts[0])|;
      PartStands(s, i, parts[0]);
      SourceIsKept(s, next, parts[1..]);
      KeptConcat(PartText(parts[0]), PartFlags(parts[0]), s[next..], SourceFlags(parts[1..]));
      KeptPart(parts[0]);
    }
  }

  /** `codeOnly` leaves exactly the names, lifetimes and marks of a source, and of its comments and literals what the
      lexer takes for code; everything else is blanked, and line ends stay. */
  lemma SourceIsStripped(s: string, parts: seq<Part>)
    requires SourceAt(s, 0, parts) && AllReadable(s, 0, parts)
    ensures Stripped(s) == SourceCode(parts)
  {
    hide SourceAt, AllReadable, CodeAt, Flags, SourceCode, SourceFlags;
    SourceIsRead(s, 0, parts);
    SourceIsKept(s, 0, parts);
    forall k | 0 <= k < |s| ensures Flags(s, 0)[k] == !NotCode(s)[k] {
      FlagsAreCodeAt(s, 0, k);
    }
    assert s[0..] == s && Stripped(s) == Kept(s, Flags(s, 0));
  }
}
