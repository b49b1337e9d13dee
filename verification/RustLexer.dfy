/** The lexer of `scripts/checks/rust-source.ts`: which characters of a Rust source are code.

    `scan` reports every character once, in order, with a flag that is false inside comments and
    literals. Here the sequence of those flags is the result of `Scan`; a caller that stops early
    simply stops reading the sequence. */
module RustLexer {
  import opened Strings

  datatype Token = Token(end: nat, code: bool)

  // --- Where each kind of token ends ----------------------------------------------------------

  predicate Pair(s: string, i: nat, a: char, b: char) {
    i + 1 < |s| && s[i] == a && s[i + 1] == b
  }

  /** The first index at or after `i` that holds `c`, or the length of `s`. */
  function FindChar(s: string, c: char, i: nat): (r: nat)
    requires i <= |s|
    ensures i <= r <= |s|
    ensures r < |s| ==> s[r] == c
    decreases |s| - i
  {
    if i == |s| || s[i] == c then i else FindChar(s, c, i + 1)
  }

  /** The end of a block comment read up to `e`, `depth` comments deep. */
  function BlockEnd(s: string, e: nat, depth: nat): (r: nat)
    requires e <= |s|
    ensures e <= r <= |s|
    decreases |s| - e
  {
    if depth == 0 || e == |s| then e
    else if Pair(s, e, '/', '*') then BlockEnd(s, e + 2, depth + 1)
    else if Pair(s, e, '*', '/') then BlockEnd(s, e + 2, depth - 1)
    else BlockEnd(s, e + 1, depth)
  }

  /** The number of `#` characters from `i` on. */
  function HashRun(s: string, i: nat): (n: nat)
    requires i <= |s|
    ensures i + n <= |s|
    decreases |s| - i
  {
    if i == |s| || s[i] != '#' then 0 else 1 + HashRun(s, i + 1)
  }

  function ByteMark(s: string, i: nat): (b: nat)
    requires i < |s|
  {
    if s[i] == 'b' then 1 else 0
  }

  /** The length of `b?r#*"` at `i`, or 0 when it is not there. The source looks at 260 characters. */
  function RawOpen(s: string, i: nat): (n: nat)
    requires i < |s|
    ensures n > 0 ==> i + n <= |s| && s[i + n - 1] == '"' && n <= 260
    ensures n > 0 ==> n >= ByteMark(s, i) + 2
  {
    var r := i + ByteMark(s, i);
    if r < |s| && s[r] == 'r' then
      var q := r + 1 + HashRun(s, r + 1);
      if q < |s| && s[q] == '"' && q + 1 - i <= 260 then q + 1 - i else 0
    else 0
  }

  predicate CloseAt(s: string, k: nat, hashes: nat) {
    k + hashes < |s| && s[k] == '"' && forall j | k < j <= k + hashes :: s[j] == '#'
  }

  /** The first index at or after `k` where a quote and `hashes` hashes stand, or the length of `s`. */
  function FindClose(s: string, hashes: nat, k: nat): (r: nat)
    requires k <= |s|
    ensures k <= r && (r == |s| || r + hashes < |s|)
    decreases |s| - k
  {
    if k == |s| || CloseAt(s, k, hashes) then k else FindClose(s, hashes, k + 1)
  }

  function RawEnd(s: string, i: nat): (r: nat)
    requires i < |s| && RawOpen(s, i) > 0
    ensures i + RawOpen(s, i) <= r <= |s|
  {
    var open := RawOpen(s, i);
    var hashes := open - ByteMark(s, i) - 2;
    var close := FindClose(s, hashes, i + open);
    if close == |s| then |s| else close + 1 + hashes
  }

  /** Where the quote that ends a string literal is, reading from `e`; past the end when there is none. */
  function StringClose(s: string, e: nat): (r: nat)
    ensures e <= r
    ensures r < |s| ==> s[r] == '"'
    decreases |s| - e
  {
    if e >= |s| || s[e] == '"' then e
    else StringClose(s, e + if s[e] == '\\' then 2 else 1)
  }

  function Min(a: nat, b: nat): nat { if a < b then a else b }

  function HexRun(s: string, i: nat): (n: nat)
    requires i <= |s|
    ensures i + n <= |s|
    decreases |s| - i
  {
    if i == |s| || !IsHex(s[i]) then 0 else 1 + HexRun(s, i + 1)
  }

  /** The length of the char literal at the quote `i`, or 0. The source looks at 12 characters. */
  function CharLen(s: string, i: nat): (n: nat)
    requires i < |s|
    ensures n > 0 ==> 3 <= n <= 12 && i + n <= |s| && s[i + n - 1] == '\''
  {
    if i + 1 < |s| && s[i + 1] == '\\' then
      if i + 5 < |s| && s[i + 2] == 'x' && IsHex(s[i + 3]) && IsHex(s[i + 4]) && s[i + 5] == '\'' then 6
      else if UnicodeLen(s, i) > 0 then UnicodeLen(s, i)
      else if i + 3 < |s| && !IsLineEnd(s[i + 2]) && s[i + 3] == '\'' then 4
      else 0
    else if i + 2 < |s| && s[i + 1] != '\'' && s[i + 2] == '\'' then 3
    else 0
  }

  /** The length of `'\u{...}'` at `i`, or 0. */
  function UnicodeLen(s: string, i: nat): (n: nat)
    requires i + 1 < |s|
    ensures n > 0 ==> 7 <= n <= 12 && i + n <= |s| && s[i + n - 1] == '\''
  {
    if i + 4 < |s| && s[i + 2] == 'u' && s[i + 3] == '{' then
      var d := HexRun(s, i + 4);
      if 1 <= d <= 6 && Pair(s, i + 4 + d, '}', '\'') then d + 6 else 0
    else 0
  }

  predicate WordBefore(s: string, i: nat)
    requires i <= |s|
  {
    i > 0 && IsWord(s[i - 1])
  }

  datatype Kind = Line | Block | Raw | Str | ByteStr | Char | Code

  /** What begins at `i`, in the order in which the source asks. */
  function TokenKind(s: string, i: nat): (kind: Kind)
    requires i < |s|
  {
    if Pair(s, i, '/', '/') then Line
    else if Pair(s, i, '/', '*') then Block
    else if RawOpen(s, i) > 0 && !WordBefore(s, i) then Raw
    else if s[i] == '"' then Str
    else if Pair(s, i, 'b', '"') then ByteStr
    else if s[i] == '\'' && CharLen(s, i) > 0 then Char
    else Code
  }

  function TokenEnd(s: string, i: nat, kind: Kind): (end: nat)
    requires i < |s| && TokenKind(s, i) == kind
    ensures i < end <= |s|
    ensures kind.Code? ==> end == i + 1
    ensures !kind.Code? ==> end >= i + 2 || end == |s|
  {
    match kind
    case Line => FindChar(s, '\n', i + 2)
    case Block => BlockEnd(s, i + 2, 1)
    case Raw => RawEnd(s, i)
    case Str => Min(StringClose(s, i + 1) + 1, |s|)
    case ByteStr => Min(StringClose(s, i + 2) + 1, |s|)
    case Char => i + CharLen(s, i)
    case Code => i + 1
  }

  /** One turn of the main loop: the token at `i`. Code is taken one character at a time. */
  function NextToken(s: string, i: nat): (t: Token)
    requires i < |s|
    ensures i < t.end <= |s|
    ensures t.code ==> t.end == i + 1
    ensures !t.code ==> t.end >= i + 2 || t.end == |s|
  {
    Token(TokenEnd(s, i, TokenKind(s, i)), TokenKind(s, i).Code?)
  }

  function Repeat(code: bool, n: nat): (r: seq<bool>)
    ensures |r| == n && forall k | 0 <= k < n :: r[k] == code
  {
    seq(n, _ => code)
  }

  /** The flags `scan` reports from `from` on. */
  function Flags(s: string, from: nat): (f: seq<bool>)
    requires from <= |s|
    ensures |f| == |s| - from
    decreases |s| - from
  {
    if from == |s| then []
    else
      var t := NextToken(s, from);
      Repeat(t.code, t.end - from) + Flags(s, t.end)
  }

  /** Whether `k` is code for a scan that starts at `from`. */
  predicate CodeAt(s: string, from: nat, k: nat)
    requires from <= k < |s|
    decreases |s| - from
  {
    var t := NextToken(s, from);
    if k < t.end then t.code else CodeAt(s, t.end, k)
  }

  lemma {:induction false} FlagsAreCodeAt(s: string, from: nat, k: nat)
    requires from <= k < |s|
    ensures Flags(s, from)[k - from] == CodeAt(s, from, k)
    decreases |s| - from
  {
    var t := NextToken(s, from);
    if k >= t.end {
      FlagsAreCodeAt(s, t.end, k);
    }
  }

  /** Whether a scan that starts at `from` begins a token at `b`. */
  predicate Boundary(s: string, from: nat, b: nat)
    requires from <= |s|
    decreases |s| - from
  {
    from == b || (from < |s| && Boundary(s, NextToken(s, from).end, b))
  }

  // --- The loop itself --------------------------------------------------------------------------

  /** `skip`: reports everything before `to` as not code. */
  method Skip(source: string, from: nat, to: nat, seen: seq<bool>) returns (index: nat, calls: seq<bool>)
    requires from <= |source| && from <= to
    ensures index == Min(to, |source|)
    ensures calls == seen + Repeat(false, index - from)
  {
    index, calls := from, seen;
    while index < to && index < |source|
      invariant from <= index <= Min(to, |source|)
      invariant calls == seen + Repeat(false, index - from)
    {
      calls := calls + [false];
      index := index + 1;
    }
  }

  method BlockCommentEnd(source: string, index: nat) returns (end: nat)
    requires Pair(source, index, '/', '*')
    ensures end == BlockEnd(source, index + 2, 1)
  {
    var depth := 0;
    end := index;
    while true
      invariant depth == 0 ==> end == index
      invariant depth > 0 ==> index < end < |source|
      invariant depth > 0 ==> BlockEnd(source, end, depth) == BlockEnd(source, index + 2, 1)
      decreases |source| - end
    {
      if Pair(source, end, '/', '*') {
        depth := depth + 1;
        end := end + 2;
      } else if Pair(source, end, '*', '/') {
        depth := depth - 1;
        end := end + 2;
      } else {
        end := end + 1;
      }
      if !(depth > 0 && end < |source|) {
        break;
      }
    }
  }

  method StringEnd(source: string, open: nat) returns (end: nat)
    ensures end == StringClose(source, open)
  {
    end := open;
    while end < |source| && source[end] != '"'
      invariant StringClose(source, end) == StringClose(source, open)
    {
      end := end + if source[end] == '\\' then 2 else 1;
    }
  }

  /** The branches of the main loop: how far the token at `index` is said to reach. */
  method ReadToken(source: string, index: nat) returns (to: nat, code: bool)
    requires index < |source|
    ensures index < to && Token(Min(to, |source|), code) == NextToken(source, index)
  {
    if Pair(source, index, '/', '/') {
      assert FindChar(source, '\n', index) == FindChar(source, '\n', index + 1);
      to, code := FindChar(source, '\n', index), false;
    } else if Pair(source, index, '/', '*') {
      to := BlockCommentEnd(source, index);
      code := false;
    } else if RawOpen(source, index) > 0 && !WordBefore(source, index) {
      to, code := RawEnd(source, index), false;
    } else if source[index] == '"' || Pair(source, index, 'b', '"') {
      to := StringEnd(source, index + if source[index] == '"' then 1 else 2);
      to, code := to + 1, false;
    } else if source[index] == '\'' && CharLen(source, index) > 0 {
      to, code := index + CharLen(source, index), false;
    } else {
      to, code := index + 1, true;
    }
  }

  /** One turn of the main loop. */
  method ScanToken(source: string, from: nat, seen: seq<bool>) returns (index: nat, calls: seq<bool>)
    requires from < |source|
    ensures from < index <= |source|
    ensures calls + Flags(source, index) == seen + Flags(source, from)
  {
    var to, code := ReadToken(source, from);
    if code {
      index, calls := from + 1, seen + [true];
    } else {
      index, calls := Skip(source, from, to, seen);
    }
    assert calls == seen + Repeat(code, index - from);
    FlagsStep(source, from, seen, Token(index, code));
  }

  lemma FlagsStep(s: string, i: nat, seen: seq<bool>, t: Token)
    requires i < t.end <= |s| && t == NextToken(s, i)
    ensures seen + Repeat(t.code, t.end - i) + Flags(s, t.end) == seen + Flags(s, i)
  {
    assert seen + Repeat(t.code, t.end - i) + Flags(s, t.end) == seen + (Repeat(t.code, t.end - i) + Flags(s, t.end));
  }

  method Scan(source: string, from: nat) returns (calls: seq<bool>)
    requires from <= |source|
    ensures calls == Flags(source, from)
  {
    var index := from;
    calls := [];
    while index < |source|
      invariant from <= index <= |source|
      invariant calls + Flags(source, index) == Flags(source, from)
    {
      index, calls := ScanToken(source, index, calls);
    }
  }
}
