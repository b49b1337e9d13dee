/** What overwriting parts of a source with spaces does to the lexer's answer.

    Both users of the lexer blank characters and lex the result again: `codeOnly` blanks what is not
    code, `splitInlineTests` blanks one half of a file. One theorem covers all of them. */
module LexerBlanking {
  import opened Strings
  import opened RustLexer

  /** `s` with the characters chosen by `b` overwritten with spaces; line ends stay. */
  function Blank(s: string, b: seq<bool>): (t: string)
    requires |b| == |s|
    ensures |t| == |s|
    ensures forall k | 0 <= k < |s| :: t[k] == if b[k] && s[k] != '\n' then ' ' else s[k]
  {
    seq(|s|, k requires 0 <= k < |s| => if b[k] && s[k] != '\n' then ' ' else s[k])
  }

  /** No comment or literal is blanked in part. */
  ghost predicate WholeTokens(s: string, b: seq<bool>)
    requires |b| == |s|
  {
    forall i | 0 <= i < |s| && Boundary(s, 0, i) && !NextToken(s, i).code ::
      forall k | i <= k < NextToken(s, i).end :: b[k] == b[i]
  }

  /** A single blanked character stands where it could be the content of a char literal. */
  predicate Sandwiched(s: string, b: seq<bool>, k: nat)
    requires |b| == |s| && 0 < k < |s| - 1
  {
    b[k] && !b[k - 1] && !b[k + 1] && s[k - 1] in "'\\" && s[k + 1] == '\''
  }

  /** Blanking takes away the word character before an `r"` that it keeps: a raw string would begin. */
  predicate FreesRaw(s: string, b: seq<bool>, i: nat)
    requires |b| == |s| && 0 < i < |s|
  {
    b[i - 1] && IsWord(s[i - 1]) && RawOpen(s, i) > 0 && !b[i] && !b[i + RawOpen(s, i) - 1]
  }

  predicate NoSandwich(s: string, b: seq<bool>)
    requires |b| == |s|
  {
    forall k | 0 < k < |s| - 1 :: !Sandwiched(s, b, k)
  }

  predicate NoFreedRaw(s: string, b: seq<bool>)
    requires |b| == |s|
  {
    forall i | 0 < i < |s| :: !FreesRaw(s, b, i)
  }

  ghost predicate Blankable(s: string, b: seq<bool>) {
    |b| == |s| && WholeTokens(s, b) && NoSandwich(s, b) && NoFreedRaw(s, b)
  }

  // --- A token whose characters are kept is recognised again ----------------------------------

  lemma {:induction false} SameFindChar(s: string, t: string, c: char, i: nat)
    requires |s| == |t| && i <= |s|
    requires forall k | i <= k < FindChar(s, c, i) :: s[k] == t[k]
    requires FindChar(s, c, i) < |s| ==> t[FindChar(s, c, i)] == c
    ensures FindChar(t, c, i) == FindChar(s, c, i)
    decreases |s| - i
  {
    if i < |s| && s[i] != c {
      SameFindChar(s, t, c, i + 1);
    }
  }

  lemma {:induction false} SameBlockEnd(s: string, t: string, e: nat, depth: nat)
    requires |s| == |t| && e <= |s|
    requires forall k | e <= k < BlockEnd(s, e, depth) :: s[k] == t[k]
    ensures BlockEnd(t, e, depth) == BlockEnd(s, e, depth)
    decreases |s| - e
  {
    if depth > 0 && e < |s| {
      if Pair(s, e, '/', '*') {
        SameBlockEnd(s, t, e + 2, depth + 1);
      } else if Pair(s, e, '*', '/') {
        SameBlockEnd(s, t, e + 2, depth - 1);
      } else {
        SameBlockEnd(s, t, e + 1, depth);
      }
    }
  }

  lemma {:induction false} SameHashRun(s: string, t: string, i: nat)
    requires |s| == |t| && i <= |s|
    requires forall k | i <= k <= i + HashRun(s, i) && k < |s| :: s[k] == t[k]
    ensures HashRun(t, i) == HashRun(s, i)
    decreases |s| - i
  {
    if i < |s| && s[i] == '#' {
      SameHashRun(s, t, i + 1);
    }
  }

  lemma {:induction false} HashRunIsHashes(s: string, i: nat)
    requires i <= |s|
    ensures forall k | i <= k < i + HashRun(s, i) :: s[k] == '#'
    decreases |s| - i
  {
    if i < |s| && s[i] == '#' {
      HashRunIsHashes(s, i + 1);
    }
  }

  lemma {:induction false} HexRunIsHex(s: string, i: nat)
    requires i <= |s|
    ensures forall k | i <= k < i + HexRun(s, i) :: IsHex(s[k])
    decreases |s| - i
  {
    if i < |s| && IsHex(s[i]) {
      HexRunIsHex(s, i + 1);
    }
  }

  lemma SameRawOpen(s: string, t: string, i: nat)
    requires |s| == |t| && i < |s| && RawOpen(s, i) > 0
    requires forall k | i <= k < i + RawOpen(s, i) :: s[k] == t[k]
    ensures RawOpen(t, i) == RawOpen(s, i)
  {
    SameHashRun(s, t, i + ByteMark(s, i) + 1);
  }

  lemma {:induction false} SameFindClose(s: string, t: string, hashes: nat, k: nat)
    requires |s| == |t| && k <= |s|
    requires var r := FindClose(s, hashes, k);
      forall j | k <= j < (if r == |s| then r else r + 1 + hashes) :: s[j] == t[j]
    ensures FindClose(t, hashes, k) == FindClose(s, hashes, k)
    decreases |s| - k
  {
    var r := FindClose(s, hashes, k);
    if k < |s| {
      if CloseAt(s, k, hashes) {
        assert CloseAt(t, k, hashes);
      } else {
        assert r < |s| ==> k < r;
        SameFindClose(s, t, hashes, k + 1);
      }
    }
  }

  lemma SameRawEnd(s: string, t: string, i: nat)
    requires |s| == |t| && i < |s| && RawOpen(s, i) > 0
    requires forall k | i <= k < RawEnd(s, i) :: s[k] == t[k]
    ensures RawOpen(t, i) > 0 && RawEnd(t, i) == RawEnd(s, i)
  {
    SameRawOpen(s, t, i);
    SameFindClose(s, t, RawOpen(s, i) - ByteMark(s, i) - 2, i + RawOpen(s, i));
  }

  lemma {:induction false} SameStringClose(s: string, t: string, e: nat)
    requires |s| == |t|
    requires forall k | e <= k < Min(StringClose(s, e) + 1, |s|) :: s[k] == t[k]
    ensures StringClose(t, e) == StringClose(s, e)
    decreases |s| - e
  {
    if e < |s| && s[e] != '"' {
      SameStringClose(s, t, e + if s[e] == '\\' then 2 else 1);
    }
  }

  lemma {:induction false} SameHexRun(s: string, t: string, i: nat)
    requires |s| == |t| && i <= |s|
    requires forall k | i <= k <= i + HexRun(s, i) && k < |s| :: s[k] == t[k]
    ensures HexRun(t, i) == HexRun(s, i)
    decreases |s| - i
  {
    if i < |s| && IsHex(s[i]) {
      SameHexRun(s, t, i + 1);
    }
  }

  lemma SameCharLen(s: string, t: string, i: nat)
    requires |s| == |t| && i < |s| && CharLen(s, i) > 0
    requires forall k | i <= k < i + CharLen(s, i) :: s[k] == t[k]
    ensures CharLen(t, i) == CharLen(s, i)
  {
    if i + 1 < |s| && s[i + 1] == '\\' && UnicodeLen(s, i) > 0 {
      SameHexRun(s, t, i + 4);
    }
  }

  /** The same kind of token begins at `i` when all its characters are kept. */
  lemma KeptKind(s: string, t: string, i: nat)
    requires |s| == |t| && i < |s| && !TokenKind(s, i).Code?
    requires forall k | i <= k < NextToken(s, i).end :: s[k] == t[k]
    requires WordBefore(t, i) ==> WordBefore(s, i)
    ensures TokenKind(t, i) == TokenKind(s, i)
  {
    match TokenKind(s, i)
    case Raw => SameRawOpen(s, t, i);
    case Char => SameCharLen(s, t, i);
    case _ =>
  }

  /** A comment or literal whose characters are kept ends at the same place. */
  lemma KeptEnd(s: string, t: string, i: nat)
    requires |s| == |t| && i < |s| && !TokenKind(s, i).Code? && TokenKind(t, i) == TokenKind(s, i)
    requires forall k | i <= k < NextToken(s, i).end :: s[k] == t[k]
    requires forall k | 0 <= k < |s| && s[k] == '\n' :: t[k] == '\n'
    ensures NextToken(t, i).end == NextToken(s, i).end
  {
    match TokenKind(s, i)
    case Line => SameFindChar(s, t, '\n', i + 2);
    case Block => SameBlockEnd(s, t, i + 2, 1);
    case Raw => SameRawEnd(s, t, i);
    case Str => SameStringClose(s, t, i + 1);
    case ByteStr => SameStringClose(s, t, i + 2);
    case Char => SameCharLen(s, t, i);
  }

  // --- Blanking makes no new token --------------------------------------------------------------

  lemma BlankIsCode(s: string, i: nat)
    requires i < |s| && (s[i] == ' ' || s[i] == '\n')
    ensures NextToken(s, i) == Token(i + 1, true)
  {
  }

  /** A raw string opening in the blanked text stands in the source as well. */
  lemma RawOpenComesFromSource(s: string, b: seq<bool>, i: nat)
    requires |b| == |s| && i < |s|
    requires RawOpen(Blank(s, b), i) > 0
    ensures RawOpen(s, i) == RawOpen(Blank(s, b), i)
    ensures !b[i] && !b[i + RawOpen(s, i) - 1]
  {
    HashRunIsHashes(Blank(s, b), i + ByteMark(Blank(s, b), i) + 1);
    SameRawOpen(Blank(s, b), s, i);
  }

  lemma UnicodeLenComesFromSource(s: string, b: seq<bool>, i: nat)
    requires |b| == |s| && i + 1 < |s|
    requires UnicodeLen(Blank(s, b), i) > 0
    ensures UnicodeLen(s, i) == UnicodeLen(Blank(s, b), i)
  {
    HexRunIsHex(Blank(s, b), i + 4);
    SameHexRun(Blank(s, b), s, i + 4);
  }

  lemma CharLenComesFromSource(s: string, b: seq<bool>, i: nat)
    requires |b| == |s| && NoSandwich(s, b) && i < |s|
    requires !b[i] && s[i] == '\'' && CharLen(Blank(s, b), i) > 0
    ensures CharLen(s, i) > 0
  {
    var t := Blank(s, b);
    if t[i + 1] == '\\' {
      assert !b[i + 1] && s[i + 1] == '\\';
      if UnicodeLen(t, i) > 0 {
        UnicodeLenComesFromSource(s, b, i);
      } else if CharLen(t, i) == 4 {
        assert !b[i + 3] && !Sandwiched(s, b, i + 2);
      }
    } else {
      assert t[i + 2] == '\'' && !b[i + 2] && !Sandwiched(s, b, i + 1);
    }
  }

  lemma NoNewToken(s: string, b: seq<bool>, i: nat)
    requires |b| == |s| && NoSandwich(s, b) && NoFreedRaw(s, b)
    requires i < |s| && !b[i] && TokenKind(s, i).Code?
    ensures TokenKind(Blank(s, b), i).Code?
  {
    var t := Blank(s, b);
    match TokenKind(t, i)
    case Raw =>
      RawOpenComesFromSource(s, b, i);
      assert WordBefore(s, i) ==> FreesRaw(s, b, i);
      assert false;
    case Char =>
      CharLenComesFromSource(s, b, i);
      assert false;
    case _ =>
  }

  // --- The theorem ------------------------------------------------------------------------------

  lemma {:induction false} BoundaryStep(s: string, from: nat, i: nat)
    requires from <= |s| && i < |s| && Boundary(s, from, i)
    ensures Boundary(s, from, NextToken(s, i).end)
    decreases |s| - from
  {
    if from != i {
      BoundaryStep(s, NextToken(s, from).end, i);
    }
  }

  /** Text of spaces and line ends is all code. */
  lemma {:induction false} BlankRun(t: string, i: nat, e: nat, k: nat)
    requires i <= e <= |t| && i <= k < |t|
    requires forall j | i <= j < e :: t[j] == ' ' || t[j] == '\n'
    ensures if k < e then CodeAt(t, i, k) else CodeAt(t, i, k) == CodeAt(t, e, k)
    decreases e - i
  {
    if i < e {
      BlankIsCode(t, i);
      if i < k {
        BlankRun(t, i + 1, e, k);
      }
    }
  }

  /** What blanking does to the token at `i`. */
  lemma BlankedToken(s: string, b: seq<bool>, i: nat, k: nat)
    requires |b| == |s| && NoSandwich(s, b) && NoFreedRaw(s, b) && i <= k < |s|
    requires forall j | i <= j < NextToken(s, i).end :: b[j] == b[i]
    ensures var token, t := NextToken(s, i), Blank(s, b);
      if k < token.end then CodeAt(t, i, k) == (b[k] || token.code) else CodeAt(t, i, k) == CodeAt(t, token.end, k)
  {
    var t, token := Blank(s, b), NextToken(s, i);
    if b[i] {
      BlankRun(t, i, token.end, k);
    } else {
      if token.code {
        NoNewToken(s, b, i);
      } else {
        KeptKind(s, t, i);
        KeptEnd(s, t, i);
      }
      assert NextToken(t, i) == token;
    }
  }

  /** Blanked characters become code, and every other character is code exactly when it was before. */
  lemma {:induction false} BlankingKeepsFlags(s: string, b: seq<bool>, i: nat, k: nat)
    requires Blankable(s, b) && i <= k < |s| && Boundary(s, 0, i)
    ensures CodeAt(Blank(s, b), i, k) == (b[k] || CodeAt(s, i, k))
    decreases |s| - i
  {
    BlankedToken(s, b, i, k);
    var end := NextToken(s, i).end;
    if k >= end {
      BoundaryStep(s, 0, i);
      BlankingKeepsFlags(s, b, end, k);
    }
  }
}
