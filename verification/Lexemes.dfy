/** Comments and literals as the Rust Reference (chapters "Comments" and "Tokens") writes them, and what the
    lexer makes of each: most are one token, some one token behind a prefix of code, and for the rest the
    condition that decides whether they are read at all. */
module Lexemes {
  import opened Alphabets
  import opened Strings
  import opened RustLexer

  /** What follows the opening of a block comment, up to and with its own end. */
  datatype Body = End | Plain(c: char, rest: Body) | Nest(inner: Body, after: Body)

  function BodyText(body: Body): (t: string)
    ensures |t| >= 2
  {
    match body
    case End => "*/"
    case Plain(c, rest) => [c] + BodyText(rest)
    case Nest(inner, after) => "/*" + BodyText(inner) + BodyText(after)
  }

  /** No two plain characters of the body read as the start or the end of a comment. */
  predicate BodyOk(body: Body) {
    match body
    case End => true
    case Plain(c, rest) =>
      BodyOk(rest) && !(c == '/' && BodyText(rest)[0] == '*') && !(c == '*' && BodyText(rest)[0] == '/')
    case Nest(inner, after) => BodyOk(inner) && BodyOk(after)
  }

  datatype Piece = Char(c: char) | Escape(c: char)

  function PiecesText(pieces: seq<Piece>): string {
    if pieces == [] then ""
    else (match pieces[0] case Char(c) => [c] case Escape(c) => ['\\', c]) + PiecesText(pieces[1..])
  }

  predicate PiecesOk(pieces: seq<Piece>) {
    forall p | p in pieces && p.Char? :: p.c != '"' && p.c != '\\'
  }

  function Hashes(n: nat): (t: string)
    ensures |t| == n && forall k | 0 <= k < n :: t[k] == '#'
  {
    seq(n, _ => '#')
  }

  datatype CharContent = One(c: char) | Simple(c: char) | Hex(a: char, b: char) | Unicode(digits: string)

  function ContentText(content: CharContent): string {
    match content
    case One(c) => [c]
    case Simple(c) => ['\\', c]
    case Hex(a, b) => ['\\', 'x', a, b]
    case Unicode(digits) => "\\u{" + digits + "}"
  }

  const ESCAPES := "nrt0\\'\""

  predicate ContentOk(content: CharContent) {
    match content
    case One(c) => c != '\'' && c != '\\'
    case Simple(c) => c in ESCAPES
    case Hex(a, b) => HexDigit(a) && HexDigit(b)
    case Unicode(digits) =>
      1 <= HexCount(digits) <= 6 && HexDigit(digits[0]) && forall d | d in digits :: HexDigit(d) || d == '_'
  }

  function HexCount(digits: string): (n: nat)
    ensures n <= |digits|
  {
    if digits == "" then 0 else (if HexDigit(digits[0]) then 1 else 0) + HexCount(digits[1..])
  }

  datatype Lexeme =
    | LineComment(text: string)
    | BlockComment(body: Body)
    | StringLiteral(byte: bool, pieces: seq<Piece>)
    | RawString(byte: bool, hashes: nat, raw: string)
    | CharLiteral(content: CharContent)
    | CString(pieces: seq<Piece>)
    | RawCString(hashes: nat, raw: string)
    | ByteChar(content: CharContent)

  function Text(lx: Lexeme): string {
    match lx
    case LineComment(text) => "//" + text
    case BlockComment(body) => "/*" + BodyText(body)
    case StringLiteral(byte, pieces) => (if byte then "b\"" else "\"") + PiecesText(pieces) + "\""
    case RawString(byte, hashes, raw) =>
      (if byte then "br" else "r") + Hashes(hashes) + "\"" + raw + "\"" + Hashes(hashes)
    case CharLiteral(content) => "'" + ContentText(content) + "'"
    case CString(pieces) => "c\"" + PiecesText(pieces) + "\""
    case RawCString(hashes, raw) => "cr" + Hashes(hashes) + "\"" + raw + "\"" + Hashes(hashes)
    case ByteChar(content) => "b'" + ContentText(content) + "'"
  }

  function Closing(hashes: nat): string {
    "\"" + Hashes(hashes)
  }

  /** In front of the closing quote and hashes, no quote with as many hashes stands in `raw`. */
  predicate RawOk(raw: string, hashes: nat) {
    forall k | 0 <= k < |raw| :: !Stands(raw + Closing(hashes), k, Closing(hashes))
  }

  /** `lx` is written in `s` at `i` as the language allows. A raw string has at most 255 hashes, and no name runs
      into it. */
  predicate Written(s: string, i: nat, lx: Lexeme) {
    && Stands(s, i, Text(lx))
    && match lx
       case LineComment(text) => '\n' !in text && (i + |Text(lx)| < |s| ==> s[i + |Text(lx)|] == '\n')
       case BlockComment(body) => BodyOk(body)
       case StringLiteral(_, pieces) => PiecesOk(pieces)
       case RawString(byte, hashes, raw) =>
         && (i > 0 ==> !WordChar(s[i - 1]))
         && hashes <= 255
         && RawOk(raw, hashes)
       case CharLiteral(content) => ContentOk(content)
       case CString(pieces) => PiecesOk(pieces)
       case RawCString(hashes, raw) => RawOk(raw, hashes)
       case ByteChar(content) => ContentOk(content) && !content.Unicode?
  }

  // --- What the lexer is to make of them ------------------------------------------------------------------

  /** The characters of the lexeme before its token: the prefix of a C string or a byte char is read as code. */
  function Prefix(lx: Lexeme): nat {
    match lx
    case CString(_) => 1
    case RawCString(hashes, _) => 2 + hashes
    case ByteChar(_) => 1
    case _ => 0
  }

  /** The hashes behind the closing quote of a raw C string are read as code. */
  function Suffix(lx: Lexeme): nat {
    if lx.RawCString? then lx.hashes else 0
  }

  /** Every quote in `raw` is escaped by a backslash, and the quote behind `raw` is not. */
  predicate OrdinaryBody(raw: string) {
    if raw == "" then true
    else if raw[0] == '\\' then |raw| >= 2 && OrdinaryBody(raw[2..])
    else raw[0] != '"' && OrdinaryBody(raw[1..])
  }

  /** A char written with a code point has no underscore among the digits; the text of a raw C string would
      also do between ordinary quotes. */
  predicate Readable(lx: Lexeme) {
    match lx
    case CharLiteral(Unicode(digits)) => '_' !in digits
    case RawCString(_, raw) => OrdinaryBody(raw)
    case _ => true
  }

  /** Where the source ends right behind the lexeme, a string that runs on ends there as well. */
  predicate ReadableAt(s: string, i: nat, lx: Lexeme) {
    Readable(lx) || (lx.RawCString? && lx.hashes == 0 && i + |Text(lx)| == |s|)
  }

  // --- One lemma per kind -----------------------------------------------------------------------

  lemma PlainStands(s: string, e: nat, c: char, rest: Body)
    requires BodyOk(Plain(c, rest)) && Stands(s, e, BodyText(Plain(c, rest)))
    ensures !Pair(s, e, '/', '*') && !Pair(s, e, '*', '/') && Stands(s, e + 1, BodyText(rest))
  {
    StandsAt(s, e, BodyText(Plain(c, rest)));
    StandsSplit(s, e, [c], BodyText(rest));
  }

  lemma NestStands(s: string, e: nat, inner: Body, after: Body)
    requires Stands(s, e, BodyText(Nest(inner, after)))
    ensures Pair(s, e, '/', '*') && Stands(s, e + 2, BodyText(inner))
    ensures Stands(s, e + 2 + |BodyText(inner)|, BodyText(after))
  {
    StandsSplit(s, e, "/*" + BodyText(inner), BodyText(after));
    StandsSplit(s, e, "/*", BodyText(inner));
    StandsAt(s, e, "/*");
  }

  lemma EndStands(s: string, e: nat, depth: nat)
    requires depth > 0 && Stands(s, e, "*/")
    ensures BlockEnd(s, e, depth) == BlockEnd(s, e + 2, depth - 1)
  {
    TwoStand(s, e, '*', '/');
  }

  lemma PlainGoesOn(s: string, e: nat, depth: nat)
    requires depth > 0 && e < |s| && !Pair(s, e, '/', '*') && !Pair(s, e, '*', '/')
    ensures BlockEnd(s, e, depth) == BlockEnd(s, e + 1, depth)
  {
  }

  /** Reading a comment's body closes exactly one comment, however deep they are nested. */
  lemma {:induction false} BodyCloses(s: string, e: nat, body: Body, depth: nat)
    requires BodyOk(body) && depth > 0 && Stands(s, e, BodyText(body))
    ensures BlockEnd(s, e, depth) == BlockEnd(s, e + |BodyText(body)|, depth - 1)
    decreases body, 1
  {
    hide Stands, Pair;
    match body
    case End =>
      EndStands(s, e, depth);
    case Plain(c, rest) =>
      PlainStands(s, e, c, rest);
      PlainGoesOn(s, e, depth);
      BodyCloses(s, e + 1, rest, depth);
    case Nest(inner, after) =>
      NestCloses(s, e, inner, after, depth);
  }

  lemma NestOpens(s: string, e: nat, depth: nat)
    requires depth > 0 && Pair(s, e, '/', '*')
    ensures BlockEnd(s, e, depth) == BlockEnd(s, e + 2, depth + 1)
  {
  }

  lemma {:induction false} NestCloses(s: string, e: nat, inner: Body, after: Body, depth: nat)
    requires BodyOk(inner) && BodyOk(after) && depth > 0 && Stands(s, e, BodyText(Nest(inner, after)))
    ensures BlockEnd(s, e, depth) == BlockEnd(s, e + |BodyText(Nest(inner, after))|, depth - 1)
    decreases Nest(inner, after), 0
  {
    hide BlockEnd, Stands, BodyOk, Pair;
    NestStands(s, e, inner, after);
    NestOpens(s, e, depth);
    var middle := e + 2 + |BodyText(inner)|;
    BodyCloses(s, e + 2, inner, depth + 1);
    BodyCloses(s, middle, after, depth);
    assert |BodyText(Nest(inner, after))| == middle - e + |BodyText(after)|;
  }

  lemma {:induction false} PiecesReachQuote(s: string, e: nat, pieces: seq<Piece>)
    requires PiecesOk(pieces) && Stands(s, e, PiecesText(pieces) + "\"")
    ensures StringClose(s, e) == e + |PiecesText(pieces)|
    decreases |pieces|
  {
    hide Stands;
    if pieces == [] {
      assert PiecesText(pieces) + "\"" == "\"";
      OneStands(s, e, '"');
    } else {
      var head := match pieces[0] case Char(c) => [c] case Escape(c) => ['\\', c];
      assert pieces[0] in pieces;
      assert PiecesText(pieces) + "\"" == head + (PiecesText(pieces[1..]) + "\"");
      StandsSplit(s, e, head, PiecesText(pieces[1..]) + "\"");
      StandsAt(s, e, head);
      assert s[e + 0] == head[0];
      PiecesReachQuote(s, e + |head|, pieces[1..]);
    }
  }

  lemma {:induction false} HashRunIs(s: string, i: nat, n: nat)
    requires i + n < |s| && (forall k | i <= k < i + n :: s[k] == '#') && s[i + n] != '#'
    ensures HashRun(s, i) == n
    decreases n
  {
    if n > 0 {
      HashRunIs(s, i + 1, n - 1);
    }
  }

  lemma {:induction false} HexRunIs(s: string, i: nat, n: nat)
    requires i + n < |s| && (forall k | i <= k < i + n :: IsHex(s[k])) && !IsHex(s[i + n])
    ensures HexRun(s, i) == n
    decreases n
  {
    if n > 0 {
      HexRunIs(s, i + 1, n - 1);
    }
  }

  lemma {:induction false} FindCloseIs(s: string, hashes: nat, k: nat, r: nat)
    requires k <= r < |s| && CloseAt(s, r, hashes)
    requires forall j | k <= j < r :: !CloseAt(s, j, hashes)
    ensures FindClose(s, hashes, k) == r
    decreases r - k
  {
    if k < r {
      FindCloseIs(s, hashes, k + 1, r);
    }
  }

  lemma {:induction false} FindCharIs(s: string, c: char, i: nat, r: nat)
    requires i <= r <= |s| && (r < |s| ==> s[r] == c)
    requires forall k | i <= k < r :: s[k] != c
    ensures FindChar(s, c, i) == r
    decreases r - i
  {
    if i < r {
      FindCharIs(s, c, i + 1, r);
    }
  }

  lemma RawOpenIs(s: string, i: nat, byte: bool, hashes: nat)
    requires Stands(s, i, (if byte then "br" else "r") + Hashes(hashes) + "\"")
    requires hashes + (if byte then 3 else 2) <= 260
    ensures RawOpen(s, i) == hashes + (if byte then 3 else 2)
    ensures ByteMark(s, i) == if byte then 1 else 0
  {
    var mark := if byte then 1 else 0;
    var open := (if byte then "br" else "r") + Hashes(hashes) + "\"";
    StandsAt(s, i, open);
    assert s[i] == open[0] && s[i + mark] == open[mark] == 'r';
    forall k | i + mark + 1 <= k < i + mark + 1 + hashes ensures s[k] == '#' {
      assert s[i + (k - i)] == open[k - i];
    }
    assert s[i + mark + 1 + hashes] == open[mark + 1 + hashes] == '"';
    HashRunIs(s, i + mark + 1, hashes);
  }

  /** What closes a raw string for the lexer. */
  lemma CloseStands(s: string, k: nat, hashes: nat)
    ensures CloseAt(s, k, hashes) <==> Stands(s, k, Closing(hashes))
  {
    var close := Closing(hashes);
    if CloseAt(s, k, hashes) {
      assert forall j | 0 <= j < |close| :: s[k..k + |close|][j] == close[j];
    }
    if Stands(s, k, close) {
      StandsAt(s, k, close);
      assert s[k + 0] == close[0];
      forall j | k < j <= k + hashes ensures s[j] == '#' {
        assert s[k + (j - k)] == close[j - k];
      }
    }
  }

  lemma RawOkIs(raw: string, hashes: nat)
    requires RawOk(raw, hashes)
    ensures forall k | 0 <= k < |raw| :: !CloseAt(raw + "\"" + Hashes(hashes), k, hashes)
  {
    hide CloseAt, Stands, Hashes;
    assert raw + Closing(hashes) == raw + "\"" + Hashes(hashes);
    forall k | 0 <= k < |raw| ensures !CloseAt(raw + "\"" + Hashes(hashes), k, hashes) {
      CloseStands(raw + "\"" + Hashes(hashes), k, hashes);
    }
  }

  lemma CloseAtShift(s: string, k: nat, t: string, m: nat, hashes: nat)
    requires Stands(s, k, t) && m + hashes < |t|
    ensures CloseAt(s, k + m, hashes) == CloseAt(t, m, hashes)
  {
    StandsAt(s, k, t);
    if CloseAt(s, k + m, hashes) {
      assert forall j | m < j <= m + hashes :: t[j] == s[k + j];
    }
    if CloseAt(t, m, hashes) {
      forall j | k + m < j <= k + m + hashes ensures s[j] == '#' {
        assert s[k + (j - k)] == t[j - k];
      }
    }
  }

  lemma RawBodyEnds(s: string, k: nat, hashes: nat, raw: string)
    requires Stands(s, k, raw + "\"" + Hashes(hashes))
    requires RawOk(raw, hashes)
    ensures FindClose(s, hashes, k) == k + |raw| < |s|
  {
    hide RawOk;
    RawOkIs(raw, hashes);
    var tail := raw + "\"" + Hashes(hashes);
    StandsAt(s, k, tail);
    forall j | k <= j < k + |raw|
      ensures !CloseAt(s, j, hashes)
    {
      CloseAtShift(s, k, tail, j - k, hashes);
    }
    CloseAtShift(s, k, tail, |raw|, hashes);
    FindCloseIs(s, hashes, k, k + |raw|);
  }

  lemma RawStringToken(s: string, i: nat, byte: bool, hashes: nat, raw: string)
    requires i <= |s| && !WordBefore(s, i) && hashes + (if byte then 3 else 2) <= 260
    requires RawOk(raw, hashes)
    requires Stands(s, i, (if byte then "br" else "r") + Hashes(hashes) + "\"" + raw + "\"" + Hashes(hashes))
    ensures i < |s| && TokenKind(s, i) == Raw && RawEnd(s, i) == i + (if byte then 4 else 3) + 2 * hashes + |raw|
  {
    hide TokenKind, RawOk, HashRun, FindClose, CloseAt;
    var open := (if byte then "br" else "r") + Hashes(hashes) + "\"";
    var tail := raw + "\"" + Hashes(hashes);
    SixParts(if byte then "br" else "r", Hashes(hashes), "\"", raw, "\"", Hashes(hashes));
    StandsSplit(s, i, open, tail);
    RawOpenIs(s, i, byte, hashes);
    RawBodyEnds(s, i + |open|, hashes, raw);
    RawKind(s, i);
  }

  lemma RawKind(s: string, i: nat)
    requires i < |s| && RawOpen(s, i) > 0 && !WordBefore(s, i)
    ensures TokenKind(s, i) == Raw
  {
  }

  lemma SixParts(a: string, b: string, c: string, d: string, e: string, f: string)
    ensures a + b + c + d + e + f == (a + b + c) + (d + e + f)
  {
  }

  lemma QuoteToken(s: string, i: nat)
    requires i < |s| && s[i] == '\''
    ensures NextToken(s, i) == if CharLen(s, i) > 0 then Token(i + CharLen(s, i), false) else Token(i + 1, true)
  {
  }

  lemma OneLen(s: string, i: nat, c: char)
    requires Stands(s, i, ['\'', c, '\'']) && c != '\'' && c != '\\'
    ensures s[i] == '\'' && CharLen(s, i) == 3
  {
    StandsAt(s, i, ['\'', c, '\'']);
    assert s[i + 0] == '\'' && s[i + 1] == c && s[i + 2] == '\'';
  }

  lemma SimpleLen(s: string, i: nat, c: char)
    requires FourStandsAs(s, i, '\'', '\\', c, '\'') && c in ESCAPES
    ensures s[i] == '\'' && CharLen(s, i) == 4
  {
    hide HexRun;
  }

  predicate FourStandsAs(s: string, i: nat, a: char, b: char, c: char, d: char) {
    i + 4 <= |s| && s[i] == a && s[i + 1] == b && s[i + 2] == c && s[i + 3] == d
  }

  lemma HexLen(s: string, i: nat, a: char, b: char)
    requires FourStandsAs(s, i, '\'', '\\', 'x', a) && i + 6 <= |s| && s[i + 4] == b && s[i + 5] == '\''
    requires HexDigit(a) && HexDigit(b)
    ensures s[i] == '\'' && CharLen(s, i) == 6
  {
    hide HexRun, HexDigit;
    HexIs(a);
    HexIs(b);
  }

  lemma SixStand(s: string, i: nat, a: char, b: char, c: char, d: char, e: char, f: char)
    requires Stands(s, i, [a, b, c, d, e, f])
    ensures FourStandsAs(s, i, a, b, c, d) && i + 6 <= |s| && s[i + 4] == e && s[i + 5] == f
  {
    var t := s[i..i + 6];
    assert t[0] == a && t[1] == b && t[2] == c && t[3] == d && t[4] == e && t[5] == f;
  }

  lemma UnicodeIsLong(s: string, i: nat, digits: string)
    requires ContentOk(Unicode(digits)) && Stands(s, i, "'\\u{" + digits + "}'")
    ensures s[i] == '\'' && CharLen(s, i) == if '_' in digits then 0 else |digits| + 6
  {
    hide HexRun, UnicodeLen, Stands, HexDigit;
    UnicodeStands(s, i, digits);
    UnicodeContent(s, i, digits);
    UnicodeOpens(s, i, digits);
  }

  lemma UnicodeOpens(s: string, i: nat, digits: string)
    requires Stands(s, i, "'\\u{" + digits + "}'")
    ensures s[i] == '\''
  {
    StandsAt(s, i, "'\\u{" + digits + "}'");
    assert s[i + 0] == '\'';
  }

  lemma CharLenIs(s: string, i: nat, content: CharContent)
    requires ContentOk(content) && Stands(s, i, Text(CharLiteral(content)))
    ensures i < |s| && s[i] == '\''
    ensures CharLen(s, i) == if Readable(CharLiteral(content)) then |Text(CharLiteral(content))| else 0
  {
    hide HexRun, HexCount, HexDigit, CharLen, Stands;
    StandsFits(s, i, Text(CharLiteral(content)));
    match content
    case One(c) =>
      assert Text(CharLiteral(content)) == ['\'', c, '\''];
      OneLen(s, i, c);
    case Simple(c) =>
      assert Text(CharLiteral(content)) == ['\'', '\\', c, '\''];
      FourStand(s, i, '\'', '\\', c, '\'');
      SimpleLen(s, i, c);
    case Hex(a, b) =>
      assert Text(CharLiteral(content)) == ['\'', '\\', 'x', a, b, '\''];
      SixStand(s, i, '\'', '\\', 'x', a, b, '\'');
      HexLen(s, i, a, b);
    case Unicode(digits) =>
      assert Text(CharLiteral(content)) == "'\\u{" + digits + "}'";
      UnicodeIsLong(s, i, digits);
  }

  /** A char literal is one token unless underscores stand among the digits of its code point; then its opening
      quote is code. */
  lemma CharToken(s: string, i: nat, content: CharContent)
    requires ContentOk(content) && Stands(s, i, Text(CharLiteral(content)))
    ensures NextToken(s, i) == if Readable(CharLiteral(content)) then Token(i + |Text(CharLiteral(content))|, false)
                               else Token(i + 1, true)
  {
    hide NextToken, CharLen, Readable, Text;
    CharLenIs(s, i, content);
    QuoteToken(s, i);
    TextIsNotEmpty(content);
  }

  lemma TextIsNotEmpty(content: CharContent)
    ensures |Text(CharLiteral(content))| > 0
  {
  }

  lemma UnicodeStands(s: string, i: nat, digits: string)
    requires Stands(s, i, "'\\u{" + digits + "}'")
    ensures s[i + 1] == '\\' && s[i + 2] == 'u' && s[i + 3] == '{' && Pair(s, i + 4 + |digits|, '}', '\'')
    ensures forall k | 0 <= k < |digits| :: s[i + 4 + k] == digits[k]
  {
    assert "'\\u{" + digits + "}'" == "'\\u{" + (digits + "}'");
    StandsSplit(s, i, "'\\u{", digits + "}'");
    StandsSplit(s, i + 4, digits, "}'");
    FourStand(s, i, '\'', '\\', 'u', '{');
    TwoStand(s, i + 4 + |digits|, '}', '\'');
    StandsAt(s, i + 4, digits);
  }

  lemma TwoStand(s: string, i: nat, a: char, b: char)
    requires Stands(s, i, [a, b])
    ensures i + 2 <= |s| && s[i] == a && s[i + 1] == b
  {
    assert s[i..i + 2][0] == a && s[i..i + 2][1] == b;
  }

  lemma FourStand(s: string, i: nat, a: char, b: char, c: char, d: char)
    requires Stands(s, i, [a, b, c, d])
    ensures i + 4 <= |s| && s[i] == a && s[i + 1] == b && s[i + 2] == c && s[i + 3] == d
  {
    var t := s[i..i + 4];
    assert t[0] == a && t[1] == b && t[2] == c && t[3] == d;
  }

  lemma UnicodeLenIs(s: string, i: nat, n: nat)
    requires i + 4 < |s| && s[i + 2] == 'u' && s[i + 3] == '{' && HexRun(s, i + 4) == n
    ensures UnicodeLen(s, i) == if 1 <= n <= 6 && Pair(s, i + 4 + n, '}', '\'') then n + 6 else 0
  {
  }

  lemma HexDigitsRun(s: string, i: nat, digits: string, n: nat)
    requires n <= |digits| && i + n < |s| && !IsHex(s[i + n]) && '_' !in digits[..n]
    requires forall k | 0 <= k < n :: s[i + k] == digits[k]
    requires forall d | d in digits :: HexDigit(d) || d == '_'
    ensures HexRun(s, i) == n
  {
    hide HexDigit, IsHex;
    HexesAre();
    forall k | i <= k < i + n ensures IsHex(s[k]) {
      assert s[i + (k - i)] == digits[k - i] == digits[..n][k - i];
    }
    HexRunIs(s, i, n);
  }

  lemma UnicodeContent(s: string, i: nat, digits: string)
    requires ContentOk(Unicode(digits)) && Stands(s, i, "'\\u{" + digits + "}'")
    ensures s[i + 1] == '\\' && s[i + 2] == 'u' && s[i + 3] == '{'
    ensures UnicodeLen(s, i) == if '_' in digits then 0 else |digits| + 6
  {
    hide HexRun, UnicodeLen, Stands, HexDigit;
    UnicodeStands(s, i, digits);
    if '_' in digits {
      var n := FirstUnderscore(digits);
      assert s[i + 4 + n] == '_';
      HexDigitsRun(s, i + 4, digits, n);
      UnicodeLenIs(s, i, n);
    } else {
      AllAreHex(digits);
      HexDigitsRun(s, i + 4, digits, |digits|);
      UnicodeLenIs(s, i, |digits|);
    }
  }

  lemma {:induction false} AllAreHex(digits: string)
    requires forall d | d in digits :: HexDigit(d)
    ensures HexCount(digits) == |digits|
    decreases |digits|
  {
    hide HexDigit;
    if digits != "" {
      assert digits[0] in digits;
      AllAreHex(digits[1..]);
    }
  }

  function FirstUnderscore(digits: string): (n: nat)
    requires '_' in digits
    ensures n < |digits| && digits[n] == '_' && '_' !in digits[..n]
  {
    if digits[0] == '_' then 0
    else
      var n := FirstUnderscore(digits[1..]);
      assert digits[..n + 1] == [digits[0]] + digits[1..][..n];
      n + 1
  }

  lemma StringToken(s: string, i: nat, byte: bool, pieces: seq<Piece>)
    requires PiecesOk(pieces) && Stands(s, i, Text(StringLiteral(byte, pieces)))
    ensures NextToken(s, i) == Token(i + |Text(StringLiteral(byte, pieces))|, false)
  {
    hide TokenKind, PiecesOk, PiecesText, StringClose;
    var open := if byte then "b\"" else "\"";
    assert Text(StringLiteral(byte, pieces)) == open + (PiecesText(pieces) + "\"");
    StandsSplit(s, i, open, PiecesText(pieces) + "\"");
    if byte {
      TwoStand(s, i, 'b', '"');
    } else {
      OneStands(s, i, '"');
    }
    PiecesReachQuote(s, i + |open|, pieces);
    StringKind(s, i, byte);
  }

  lemma StringKind(s: string, i: nat, byte: bool)
    requires if byte then Pair(s, i, 'b', '"') else i < |s| && s[i] == '"'
    ensures TokenKind(s, i) == if byte then ByteStr else Str
  {
  }

  lemma LineCommentToken(s: string, i: nat, text: string)
    requires Stands(s, i, "//" + text) && '\n' !in text
    requires i + 2 + |text| < |s| ==> s[i + 2 + |text|] == '\n'
    ensures TokenKind(s, i) == Line && FindChar(s, '\n', i + 2) == i + 2 + |text|
  {
    StandsAt(s, i, "//" + text);
    assert Pair(s, i, '/', '/');
    forall k | i + 2 <= k < i + 2 + |text| ensures s[k] != '\n' {
      assert s[i + (k - i)] == ("//" + text)[k - i] == text[k - i - 2];
    }
    FindCharIs(s, '\n', i + 2, i + 2 + |text|);
  }

  lemma BlockIsThere(s: string, e: nat)
    requires e <= |s|
    ensures BlockEnd(s, e, 0) == e
  {
  }

  lemma BlockCommentToken(s: string, i: nat, body: Body)
    requires BodyOk(body) && Stands(s, i, "/*" + BodyText(body))
    ensures TokenKind(s, i) == Block && BlockEnd(s, i + 2, 1) == i + 2 + |BodyText(body)|
  {
    hide Stands, BlockEnd, BodyOk, BodyText;
    StandsSplit(s, i, "/*", BodyText(body));
    TwoStand(s, i, '/', '*');
    BodyCloses(s, i + 2, body, 1);
    BlockIsThere(s, i + 2 + |BodyText(body)|);
  }

  // --- Behind a prefix ------------------------------------------------------------------------------------

  /** Letters that open nothing, and hashes, are code. */
  lemma PlainIsCode(s: string, i: nat)
    requires i < |s| && (s[i] == 'c' || s[i] == '#' || (s[i] == 'r' && WordBefore(s, i)) || Pair(s, i, 'b', '\''))
    ensures NextToken(s, i) == Token(i + 1, true)
  {
  }

  lemma CStringToken(s: string, i: nat, pieces: seq<Piece>)
    requires PiecesOk(pieces) && Stands(s, i, Text(CString(pieces)))
    ensures i + |Text(CString(pieces))| <= |s| && CodeToken(s, i)
    ensures NextToken(s, i + 1) == Token(i + |Text(CString(pieces))|, false)
  {
    assert Text(CString(pieces)) == "c" + Text(StringLiteral(false, pieces));
    StandsSplit(s, i, "c", Text(StringLiteral(false, pieces)));
    StandsAt(s, i, "c");
    PlainIsCode(s, i);
    StringToken(s, i + 1, false, pieces);
  }

  lemma ByteCharToken(s: string, i: nat, content: CharContent)
    requires ContentOk(content) && !content.Unicode? && Stands(s, i, Text(ByteChar(content)))
    ensures i + |Text(ByteChar(content))| <= |s| && CodeToken(s, i)
    ensures NextToken(s, i + 1) == Token(i + |Text(ByteChar(content))|, false)
  {
    var rest := Text(CharLiteral(content));
    assert Text(ByteChar(content)) == "b" + rest;
    StandsSplit(s, i, "b", rest);
    StandsAt(s, i, "b");
    StandsAt(s, i + 1, rest);
    assert s[i + 1] == rest[0] == '\'';
    PlainIsCode(s, i);
    CharToken(s, i + 1, content);
  }

  /** A string literal is read up to the quote behind `raw` exactly if `raw` has no quote of its own there. */
  lemma {:induction false} OrdinaryBodyCloses(s: string, k: nat, raw: string)
    requires Stands(s, k, raw + "\"")
    ensures StringClose(s, k) == k + |raw| <==> OrdinaryBody(raw)
    decreases |raw|
  {
    StandsAt(s, k, raw + "\"");
    if raw != "" {
      assert s[k] == (raw + "\"")[0] == raw[0];
      var n := if raw[0] == '\\' then 2 else 1;
      if n <= |raw| {
        assert raw + "\"" == raw[..n] + (raw[n..] + "\"");
        StandsSplit(s, k, raw[..n], raw[n..] + "\"");
        OrdinaryBodyCloses(s, k + n, raw[n..]);
      }
    }
  }

  lemma HashesStand(s: string, i: nat, n: nat)
    requires Stands(s, i, Hashes(n))
    ensures forall k | i <= k < i + n :: s[k] == '#'
  {
    StandsAt(s, i, Hashes(n));
    forall k | i <= k < i + n ensures s[k] == '#' {
      assert s[i + (k - i)] == Hashes(n)[k - i];
    }
  }

  lemma RawCStringParts(hashes: nat, raw: string)
    ensures Text(RawCString(hashes, raw)) == "cr" + (Hashes(hashes) + ("\"" + ((raw + "\"") + Hashes(hashes))))
  {
  }

  lemma FiveStand(s: string, i: nat, a: string, b: string, c: string, d: string, e: string)
    requires Stands(s, i, a + (b + (c + (d + e))))
    ensures Stands(s, i, a) && Stands(s, i + |a|, b) && Stands(s, i + |a| + |b|, c)
    ensures Stands(s, i + |a| + |b| + |c|, d) && Stands(s, i + |a| + |b| + |c| + |d|, e)
  {
    hide Stands;
    StandsSplit(s, i, a, b + (c + (d + e)));
    StandsSplit(s, i + |a|, b, c + (d + e));
    StandsSplit(s, i + |a| + |b|, c, d + e);
    StandsSplit(s, i + |a| + |b| + |c|, d, e);
  }

  lemma RawCStringStands(s: string, i: nat, hashes: nat, raw: string)
    requires Stands(s, i, Text(RawCString(hashes, raw)))
    ensures i + 4 + 2 * hashes + |raw| <= |s|
    ensures s[i] == 'c' && s[i + 1] == 'r' && s[i + 2 + hashes] == '"'
    ensures Stands(s, i + 2, Hashes(hashes)) && Stands(s, i + 3 + hashes, raw + "\"")
    ensures Stands(s, i + 4 + hashes + |raw|, Hashes(hashes))
  {
    hide Stands, Text, Hashes;
    RawCStringParts(hashes, raw);
    RawCStringLength(hashes, raw);
    StandsFits(s, i, Text(RawCString(hashes, raw)));
    FiveStand(s, i, "cr", Hashes(hashes), "\"", raw + "\"", Hashes(hashes));
    TwoStand(s, i, 'c', 'r');
    OneStands(s, i + 2 + hashes, '"');
  }

  lemma OneStands(s: string, i: nat, a: char)
    requires Stands(s, i, [a])
    ensures i < |s| && s[i] == a
  {
    assert s[i..i + 1][0] == a;
  }

  lemma {:induction false} NoQuoteBefore(s: string, k: nat, close: nat)
    requires k <= close <= |s| && forall j | k <= j < close :: s[j] != '"'
    ensures StringClose(s, k) >= close
    decreases close - k
  {
    if k + 1 < close {
      NoQuoteBefore(s, k + 1, close);
      if s[k] == '\\' {
        NoQuoteBefore(s, k + 2, close);
      }
    }
  }

  lemma RawBodyHasNoQuote(raw: string)
    requires RawOk(raw, 0)
    ensures '"' !in raw
  {
    RawOkIs(raw, 0);
    forall k | 0 <= k < |raw| ensures raw[k] != '"' {
      assert !CloseAt(raw + "\"" + Hashes(0), k, 0);
    }
  }

  /** Where a string from the quote on ends. */
  lemma QuoteEnds(s: string, quote: nat, raw: string)
    requires Stands(s, quote + 1, raw + "\"") && (quote + |raw| + 2 == |s| ==> '"' !in raw)
    ensures Min(StringClose(s, quote + 1) + 1, |s|) == quote + |raw| + 2 <==>
            OrdinaryBody(raw) || quote + |raw| + 2 == |s|
  {
    OrdinaryBodyCloses(s, quote + 1, raw);
    StandsAt(s, quote + 1, raw + "\"");
    if quote + |raw| + 2 == |s| {
      forall j | quote + 1 <= j < quote + 1 + |raw| ensures s[j] != '"' {
        assert s[quote + 1 + (j - quote - 1)] == (raw + "\"")[j - quote - 1] == raw[j - quote - 1];
      }
      NoQuoteBefore(s, quote + 1, quote + 1 + |raw|);
    }
  }

  lemma QuoteOpensString(s: string, i: nat)
    requires i < |s| && s[i] == '"'
    ensures NextToken(s, i) == Token(Min(StringClose(s, i + 1) + 1, |s|), false)
  {
  }

  predicate CodeToken(s: string, k: nat)
    requires k < |s|
  {
    NextToken(s, k) == Token(k + 1, true)
  }

  /** From `a` up to `b` every character is a token of code. */
  predicate AllCode(s: string, a: nat, b: nat)
    requires b <= |s|
  {
    forall k | a <= k < b :: CodeToken(s, k)
  }

  lemma HashesAreCode(s: string, a: nat, b: nat)
    requires b <= |s| && forall k | a <= k < b :: s[k] == '#'
    ensures AllCode(s, a, b)
  {
    forall k | a <= k < b ensures CodeToken(s, k) {
      PlainIsCode(s, k);
    }
  }

  lemma CrIsCode(s: string, i: nat, quote: nat)
    requires i + 2 <= quote <= |s| && s[i] == 'c' && s[i + 1] == 'r' && AllCode(s, i + 2, quote)
    ensures AllCode(s, i, quote)
  {
    forall k | i <= k < quote ensures CodeToken(s, k) {
      if k < i + 2 {
        PlainIsCode(s, k);
      }
    }
  }

  /** Around its quotes a raw C string is code. */
  lemma RawCStringEdges(s: string, i: nat, hashes: nat, raw: string)
    requires Stands(s, i, Text(RawCString(hashes, raw)))
    ensures i + 4 + 2 * hashes + |raw| <= |s| && AllCode(s, i, i + 2 + hashes)
    ensures AllCode(s, i + 4 + hashes + |raw|, i + 4 + 2 * hashes + |raw|)
  {
    hide NextToken, CodeToken, Stands, Text, Hashes;
    RawCStringStands(s, i, hashes, raw);
    HashesStand(s, i + 2, hashes);
    HashesStand(s, i + 4 + hashes + |raw|, hashes);
    HashesAreCode(s, i + 2, i + 2 + hashes);
    CrIsCode(s, i, i + 2 + hashes);
    HashesAreCode(s, i + 4 + hashes + |raw|, i + 4 + 2 * hashes + |raw|);
  }

  lemma RawCStringQuotes(s: string, i: nat, hashes: nat, raw: string, ok: bool)
    requires RawOk(raw, hashes) && Stands(s, i, Text(RawCString(hashes, raw)))
    requires ok <==> ReadableAt(s, i, RawCString(hashes, raw))
    ensures i + 4 + 2 * hashes + |raw| <= |s| && s[i + 2 + hashes] == '"'
    ensures Min(StringClose(s, i + 3 + hashes) + 1, |s|) == i + 4 + hashes + |raw| <==> ok
  {
    hide NextToken, StringClose, Stands, Text, Hashes, RawOk, OrdinaryBody;
    RawCStringStands(s, i, hashes, raw);
    RawCStringLength(hashes, raw);
    if hashes == 0 {
      RawBodyHasNoQuote(raw);
    }
    QuoteEnds(s, i + 2 + hashes, raw);
  }

  /** The characters from `i` up to `a` and from `b` up to `end` are code; `ok` tells whether what is between
      them is one token that is not code. */
  predicate Enclosed(s: string, i: nat, a: nat, b: nat, end: nat, ok: bool) {
    && i <= a < b <= end <= |s| && AllCode(s, i, a) && AllCode(s, b, end)
    && (NextToken(s, a) == Token(b, false) <==> ok)
  }

  lemma EnclosedString(s: string, i: nat, a: nat, b: nat, end: nat, ok: bool)
    requires i <= a < b <= end <= |s| && AllCode(s, i, a) && AllCode(s, b, end) && s[a] == '"'
    requires Min(StringClose(s, a + 1) + 1, |s|) == b <==> ok
    ensures Enclosed(s, i, a, b, end, ok)
  {
    QuoteOpensString(s, a);
  }

  lemma RawCStringLength(hashes: nat, raw: string)
    ensures |Text(RawCString(hashes, raw))| == 4 + 2 * hashes + |raw|
  {
  }

  lemma RawCStringRead(s: string, i: nat, lx: Lexeme, ok: bool)
    requires lx.RawCString? && RawOk(lx.raw, lx.hashes) && Stands(s, i, Text(lx))
    requires ok <==> ReadableAt(s, i, lx)
    ensures Enclosed(s, i, i + Prefix(lx), i + |Text(lx)| - Suffix(lx), i + |Text(lx)|, ok)
  {
    hide NextToken, OrdinaryBody, RawOk, Text, Stands, AllCode, StringClose;
    var quote, end := i + 2 + lx.hashes, i + 4 + lx.hashes + |lx.raw|;
    RawCStringLength(lx.hashes, lx.raw);
    RawCStringEdges(s, i, lx.hashes, lx.raw);
    RawCStringQuotes(s, i, lx.hashes, lx.raw, ok);
    EnclosedString(s, i, quote, end, end + lx.hashes, ok);
  }

  // --- All lexemes ----------------------------------------------------------------------------------------

  lemma NoNameBefore(s: string, i: nat)
    requires i <= |s| && (i > 0 ==> !WordChar(s[i - 1]))
    ensures !WordBefore(s, i)
  {
    if i > 0 {
      WordIs(s[i - 1]);
    }
  }

  /** A lexeme that no code is a prefix of is one token, which is not code, exactly if it is readable. */
  lemma WholeLexeme(s: string, i: nat, lx: Lexeme)
    requires Written(s, i, lx) && Prefix(lx) == 0
    ensures i + |Text(lx)| <= |s| && |Text(lx)| > 0
    ensures NextToken(s, i) == Token(i + |Text(lx)|, false) <==> Readable(lx)
  {
    hide Stands, TokenKind, BodyOk, PiecesOk, RawOk, ContentOk, WordChar, FindChar, BlockEnd, RawEnd;
    StandsFits(s, i, Text(lx));
    match lx
    case LineComment(text) => LineCommentToken(s, i, text);
    case BlockComment(body) => BlockCommentToken(s, i, body);
    case StringLiteral(byte, pieces) => StringToken(s, i, byte, pieces);
    case RawString(byte, hashes, raw) =>
      NoNameBefore(s, i);
      RawStringToken(s, i, byte, hashes, raw);
    case CharLiteral(content) => CharToken(s, i, content);
  }

  lemma EnclosedBehindOne(s: string, i: nat, end: nat)
    requires i + 1 < end <= |s| && CodeToken(s, i) && NextToken(s, i + 1) == Token(end, false)
    ensures Enclosed(s, i, i + 1, end, end, true)
  {
  }

  lemma CStringRead(s: string, i: nat, lx: Lexeme)
    requires lx.CString? && PiecesOk(lx.pieces) && Stands(s, i, Text(lx))
    ensures Enclosed(s, i, i + Prefix(lx), i + |Text(lx)| - Suffix(lx), i + |Text(lx)|, true)
  {
    CStringToken(s, i, lx.pieces);
    EnclosedBehindOne(s, i, i + |Text(lx)|);
  }

  lemma ByteCharRead(s: string, i: nat, lx: Lexeme)
    requires lx.ByteChar? && ContentOk(lx.content) && !lx.content.Unicode? && Stands(s, i, Text(lx))
    ensures Enclosed(s, i, i + Prefix(lx), i + |Text(lx)| - Suffix(lx), i + |Text(lx)|, true)
  {
    ByteCharToken(s, i, lx.content);
    EnclosedBehindOne(s, i, i + |Text(lx)|);
  }

  lemma PrefixedLexeme(s: string, i: nat, lx: Lexeme, ok: bool)
    requires Written(s, i, lx) && Prefix(lx) > 0 && (ok <==> ReadableAt(s, i, lx))
    ensures Enclosed(s, i, i + Prefix(lx), i + |Text(lx)| - Suffix(lx), i + |Text(lx)|, ok)
  {
    if lx.CString? {
      CStringRead(s, i, lx);
    } else if lx.ByteChar? {
      ByteCharRead(s, i, lx);
    } else {
      RawCStringRead(s, i, lx, ok);
    }
  }

  /** What the lexer makes of every comment and literal of the language: its prefix and suffix are code, and
      what is between them is one token that is not code exactly if the lexeme is readable. */
  lemma LexemesAreRead(s: string, i: nat, lx: Lexeme)
    requires Written(s, i, lx)
    ensures Enclosed(s, i, i + Prefix(lx), i + |Text(lx)| - Suffix(lx), i + |Text(lx)|, ReadableAt(s, i, lx))
  {
    if Prefix(lx) == 0 {
      WholeLexeme(s, i, lx);
    } else {
      PrefixedLexeme(s, i, lx, ReadableAt(s, i, lx));
    }
  }

  /** A lexeme is one token, which is not code, exactly if it has no prefix of code and is readable. */
  lemma LexemeIsOneToken(s: string, i: nat, lx: Lexeme)
    requires Written(s, i, lx)
    ensures i < |s|
    ensures NextToken(s, i) == Token(i + |Text(lx)|, false) <==> Prefix(lx) == 0 && Readable(lx)
  {
    if Prefix(lx) == 0 {
      WholeLexeme(s, i, lx);
    } else {
      PrefixIsCode(s, i, lx);
    }
  }

  lemma PrefixIsCode(s: string, i: nat, lx: Lexeme)
    requires Written(s, i, lx) && Prefix(lx) > 0
    ensures i < |s| && NextToken(s, i).code
  {
    PrefixedLexeme(s, i, lx, ReadableAt(s, i, lx));
    assert CodeToken(s, i);
  }

  /** The underscore in `'\u{1_0}'` makes its opening quote code. */
  lemma UnderscoreIsNotRead()
    ensures Written("'\\u{1_0}'", 0, CharLiteral(Unicode("1_0")))
    ensures NextToken("'\\u{1_0}'", 0) == Token(1, true)
  {
    hide HexDigit;
    HexIs('1');
    HexIs('0');
    HexIs('_');
    var digits := "1_0";
    assert digits[0] == '1' && digits[1..] == "_0" && digits[1..][1..] == "0" && digits[1..][1..][1..] == "";
    assert HexCount(digits) == 2;
    assert "'\\u{1_0}'" == "'" + ContentText(Unicode(digits)) + "'";
    assert '_' == digits[1];
    CharToken("'\\u{1_0}'", 0, Unicode(digits));
  }

  const RUNS_ON := "cr\"\\\" let x = 1;"

  lemma RunsOnIsWritten()
    ensures Written(RUNS_ON, 0, RawCString(0, "\\"))
  {
    assert Hashes(0) == "" && Text(RawCString(0, "\\")) == RUNS_ON[..5];
    assert Closing(0) == "\"" && ("\\" + Closing(0))[0..1] == "\\";
  }

  /** The backslash in `cr"\" let x = 1;` hides the closing quote: the rest of the source is read as literal. */
  lemma RawCStringRunsOn()
    ensures Written(RUNS_ON, 0, RawCString(0, "\\")) && NextToken(RUNS_ON, 2) == Token(|RUNS_ON|, false)
  {
    hide NextToken, Written;
    RunsOnIsWritten();
    NoQuoteAhead(RUNS_ON, 5);
    assert StringClose(RUNS_ON, 3) == StringClose(RUNS_ON, 5);
    QuoteOpensString(RUNS_ON, 2);
  }

  lemma {:induction false} NoQuoteAhead(s: string, k: nat)
    requires forall j | k <= j < |s| :: s[j] != '"'
    ensures StringClose(s, k) >= |s|
    decreases |s| - k
  {
    if k < |s| {
      NoQuoteAhead(s, k + if s[k] == '\\' then 2 else 1);
    }
  }

  /** A quote that opens a lifetime is code: `'name` not followed by another quote. */
  lemma LifetimeIsCode(s: string, i: nat, name: string)
    requires Stands(s, i, "'" + name) && name != "" && name[0] != '\\' && '\'' !in name
    requires i + 1 + |name| < |s| ==> s[i + 1 + |name|] != '\''
    ensures NextToken(s, i) == Token(i + 1, true)
  {
    StandsAt(s, i, "'" + name);
    assert s[i + 1] == ("'" + name)[1] == name[0] && name[0] in name;
    if |name| > 1 {
      assert s[i + 2] == ("'" + name)[2] == name[1] && name[1] in name;
    }
  }
}
