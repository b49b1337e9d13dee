/** Comments and literals in the middle of which the source ends: all of the rest is taken for literal. */
module UnclosedLexemes {
  import opened Alphabets
  import opened Strings
  import opened RustLexer
  import opened Lexemes

  /** A comment's body without its end: comments within it are closed, or not closed either. */
  datatype OpenBody =
    | Stop
    | OpenPlain(c: char, rest: OpenBody)
    | Within(inner: Body, after: OpenBody)
    | Deeper(rest: OpenBody)

  function OpenText(body: OpenBody): string {
    match body
    case Stop => ""
    case OpenPlain(c, rest) => [c] + OpenText(rest)
    case Within(inner, after) => "/*" + BodyText(inner) + OpenText(after)
    case Deeper(inner) => "/*" + OpenText(inner)
  }

  predicate Follows(c: char, text: string) {
    text != "" && text[0] == c
  }

  predicate OpenOk(body: OpenBody) {
    match body
    case Stop => true
    case OpenPlain(c, rest) =>
      OpenOk(rest) && !(c == '/' && Follows('*', OpenText(rest))) && !(c == '*' && Follows('/', OpenText(rest)))
    case Within(inner, after) => BodyOk(inner) && OpenOk(after)
    case Deeper(inner) => OpenOk(inner)
  }

  /** `cut`: the source ends with a lone backslash. */
  datatype Unclosed =
    | OpenComment(body: OpenBody)
    | OpenString(byte: bool, pieces: seq<Piece>, cut: bool)
    | OpenRaw(byte: bool, hashes: nat, raw: string)

  function UnclosedText(u: Unclosed): string {
    match u
    case OpenComment(body) => "/*" + OpenText(body)
    case OpenString(byte, pieces, cut) =>
      (if byte then "b\"" else "\"") + (PiecesText(pieces) + if cut then "\\" else "")
    case OpenRaw(byte, hashes, raw) => (if byte then "br" else "r") + Hashes(hashes) + "\"" + raw
  }

  /** From `i` on the source holds `u` and nothing else. */
  predicate UnclosedAt(s: string, i: nat, u: Unclosed) {
    && Stands(s, i, UnclosedText(u)) && i + |UnclosedText(u)| == |s|
    && match u
       case OpenComment(body) => OpenOk(body)
       case OpenString(_, pieces, _) => PiecesOk(pieces)
       case OpenRaw(_, hashes, raw) =>
         && (i > 0 ==> !WordChar(s[i - 1]))
         && hashes <= 255
         && forall k | 0 <= k < |raw| :: !Stands(raw, k, Closing(hashes))
  }

  // --- Comments ---------------------------------------------------------------------------------------------

  lemma OpenPlainStands(s: string, e: nat, c: char, rest: OpenBody)
    requires OpenOk(OpenPlain(c, rest)) && Stands(s, e, OpenText(OpenPlain(c, rest)))
    requires e + |OpenText(OpenPlain(c, rest))| == |s|
    ensures !Pair(s, e, '/', '*') && !Pair(s, e, '*', '/') && Stands(s, e + 1, OpenText(rest))
  {
    StandsAt(s, e, OpenText(OpenPlain(c, rest)));
    StandsSplit(s, e, [c], OpenText(rest));
    StandsAt(s, e + 1, OpenText(rest));
    assert s[e + 0] == c;
    assert OpenText(rest) != "" ==> s[e + 1 + 0] == OpenText(rest)[0];
  }

  lemma WithinStands(s: string, e: nat, inner: Body, after: OpenBody)
    requires Stands(s, e, OpenText(Within(inner, after)))
    ensures Pair(s, e, '/', '*') && Stands(s, e + 2, BodyText(inner))
    ensures Stands(s, e + 2 + |BodyText(inner)|, OpenText(after))
  {
    hide Stands, BodyText;
    StandsSplit(s, e, "/*" + BodyText(inner), OpenText(after));
    StandsSplit(s, e, "/*", BodyText(inner));
    TwoStand(s, e, '/', '*');
  }

  lemma DeeperStands(s: string, e: nat, inner: OpenBody)
    requires Stands(s, e, OpenText(Deeper(inner)))
    ensures Pair(s, e, '/', '*') && Stands(s, e + 2, OpenText(inner))
  {
    StandsSplit(s, e, "/*", OpenText(inner));
    TwoStand(s, e, '/', '*');
  }

  lemma {:induction false} CommentRunsOn(s: string, e: nat, body: OpenBody, depth: nat)
    requires OpenOk(body) && depth > 0 && Stands(s, e, OpenText(body)) && e + |OpenText(body)| == |s|
    ensures BlockEnd(s, e, depth) == |s|
    decreases body
  {
    hide BlockEnd, Stands, Pair, BodyOk;
    match body
    case Stop => NothingLeft(s, depth);
    case OpenPlain(c, rest) =>
      OpenPlainStands(s, e, c, rest);
      PlainGoesOn(s, e, depth);
      CommentRunsOn(s, e + 1, rest, depth);
    case Within(inner, after) =>
      WithinStands(s, e, inner, after);
      NestOpens(s, e, depth);
      BodyCloses(s, e + 2, inner, depth + 1);
      CommentRunsOn(s, e + 2 + |BodyText(inner)|, after, depth);
    case Deeper(inner) =>
      DeeperStands(s, e, inner);
      NestOpens(s, e, depth);
      CommentRunsOn(s, e + 2, inner, depth + 1);
  }

  lemma NothingLeft(s: string, depth: nat)
    ensures BlockEnd(s, |s|, depth) == |s|
  {
  }

  // --- Strings ----------------------------------------------------------------------------------------------

  lemma {:induction false} PiecesRunOn(s: string, e: nat, pieces: seq<Piece>, tail: string)
    requires PiecesOk(pieces) && Stands(s, e, PiecesText(pieces) + tail) && e + |PiecesText(pieces) + tail| == |s|
    requires tail == "" || tail == "\\"
    ensures StringClose(s, e) >= |s|
    decreases |pieces|
  {
    hide Stands;
    if pieces != [] {
      var head := match pieces[0] case Char(c) => [c] case Escape(c) => ['\\', c];
      assert pieces[0] in pieces;
      assert PiecesText(pieces) + tail == head + (PiecesText(pieces[1..]) + tail);
      StandsSplit(s, e, head, PiecesText(pieces[1..]) + tail);
      StandsAt(s, e, head);
      assert s[e + 0] == head[0];
      PiecesRunOn(s, e + |head|, pieces[1..], tail);
    } else if tail != "" {
      assert PiecesText(pieces) + tail == "\\";
      OneStands(s, e, '\\');
    }
  }

  // --- Raw strings ------------------------------------------------------------------------------------------

  lemma {:induction false} NoCloseAhead(s: string, hashes: nat, k: nat)
    requires k <= |s| && forall j | k <= j < |s| :: !CloseAt(s, j, hashes)
    ensures FindClose(s, hashes, k) == |s|
    decreases |s| - k
  {
    if k < |s| {
      NoCloseAhead(s, hashes, k + 1);
    }
  }

  lemma SuffixStands(s: string, k: nat, m: nat, t: string)
    requires k + m <= |s|
    ensures Stands(s, k + m, t) <==> Stands(s[k..], m, t)
  {
    assert k + m + |t| <= |s| ==> s[k + m..k + m + |t|] == s[k..][m..m + |t|];
  }

  lemma RawRunsOn(s: string, k: nat, hashes: nat, raw: string)
    requires Stands(s, k, raw) && k + |raw| == |s| && forall j | 0 <= j < |raw| :: !Stands(raw, j, Closing(hashes))
    ensures FindClose(s, hashes, k) == |s|
  {
    hide CloseAt, Closing;
    assert s[k..] == raw;
    forall j | k <= j < |s| ensures !CloseAt(s, j, hashes) {
      CloseStands(s, j, hashes);
      SuffixStands(s, k, j - k, Closing(hashes));
    }
    NoCloseAhead(s, hashes, k);
  }

  lemma OpenRawToken(s: string, i: nat, byte: bool, hashes: nat, open: string, raw: string)
    requires open == (if byte then "br" else "r") + Hashes(hashes) + "\"" && hashes <= 255
    requires Stands(s, i, open + raw) && i + |open| + |raw| == |s| && (i > 0 ==> !WordChar(s[i - 1]))
    requires forall k | 0 <= k < |raw| :: !Stands(raw, k, Closing(hashes))
    ensures i < |s| && NextToken(s, i) == Token(|s|, false)
  {
    hide FindClose, HashRun, Closing, WordChar, RawOpen, TokenKind, NextToken, Stands, Hashes;
    StandsSplit(s, i, open, raw);
    RawOpenIs(s, i, byte, hashes);
    NoNameBefore(s, i);
    RawRunsOn(s, i + |open|, hashes, raw);
    RawUnclosed(s, i, hashes);
  }

  lemma RawUnclosed(s: string, i: nat, hashes: nat)
    requires i < |s| && RawOpen(s, i) > 0 && !WordBefore(s, i) && hashes == RawOpen(s, i) - ByteMark(s, i) - 2
    requires FindClose(s, hashes, i + RawOpen(s, i)) == |s|
    ensures NextToken(s, i) == Token(|s|, false)
  {
    hide FindClose, RawOpen;
    RawKind(s, i);
  }

  lemma OpenStringToken(s: string, i: nat, byte: bool, text: string, pieces: seq<Piece>, tail: string)
    requires PiecesOk(pieces) && text == PiecesText(pieces) + tail && (tail == "" || tail == "\\")
    requires Stands(s, i, (if byte then "b\"" else "\"") + text) && i + (if byte then 2 else 1) + |text| == |s|
    ensures i < |s| && NextToken(s, i) == Token(|s|, false)
  {
    hide StringClose, TokenKind, PiecesText, PiecesOk, Stands;
    var open := if byte then "b\"" else "\"";
    StandsSplit(s, i, open, text);
    if byte {
      TwoStand(s, i, 'b', '"');
    } else {
      OneStands(s, i, '"');
    }
    PiecesRunOn(s, i + |open|, pieces, tail);
    StringKind(s, i, byte);
  }

  lemma OpenCommentToken(s: string, i: nat, body: OpenBody)
    requires UnclosedAt(s, i, OpenComment(body))
    ensures i < |s| && NextToken(s, i) == Token(|s|, false)
  {
    hide BlockEnd, OpenText, OpenOk;
    StandsSplit(s, i, "/*", OpenText(body));
    TwoStand(s, i, '/', '*');
    CommentRunsOn(s, i + 2, body, 1);
  }

  /** Whatever is not closed is one token, and not code, up to the end of the source. */
  lemma UnclosedRunsOn(s: string, i: nat, u: Unclosed)
    requires UnclosedAt(s, i, u)
    ensures i < |s| && NextToken(s, i) == Token(|s|, false)
  {
    hide NextToken, Stands, PiecesOk, PiecesText, Hashes, Closing, WordChar;
    match u
    case OpenComment(body) => OpenCommentToken(s, i, body);
    case OpenString(byte, pieces, cut) =>
      var tail := if cut then "\\" else "";
      OpenStringToken(s, i, byte, PiecesText(pieces) + tail, pieces, tail);
    case OpenRaw(byte, hashes, raw) =>
      OpenRawToken(s, i, byte, hashes, (if byte then "br" else "r") + Hashes(hashes) + "\"", raw);
  }
}
