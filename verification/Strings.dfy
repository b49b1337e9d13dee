/** Characters and pieces of text, as the repository's regular expressions and string calls see them. */
module Strings {

  /** `\w` without the `u` and `i` flags. */
  predicate IsWord(c: char) {
    'a' <= c <= 'z' || 'A' <= c <= 'Z' || '0' <= c <= '9' || c == '_'
  }

  predicate IsHex(c: char) {
    'a' <= c <= 'f' || 'A' <= c <= 'F' || '0' <= c <= '9'
  }

  /** The characters `.` does not match. */
  predicate IsLineEnd(c: char) {
    c == '\n' || c == '\r' || c == '\U{2028}' || c == '\U{2029}'
  }

  /** The characters `\s` matches. */
  predicate IsSpace(c: char) {
    || '\t' <= c <= '\r' || c == ' ' || c == '\U{A0}' || c == '\U{1680}' || '\U{2000}' <= c <= '\U{200A}'
    || c == '\U{2028}' || c == '\U{2029}' || c == '\U{202F}' || c == '\U{205F}' || c == '\U{3000}' || c == '\U{FEFF}'
  }

  /** `t` stands in `s` at `i`. */
  predicate Stands(s: string, i: nat, t: string) {
    i + |t| <= |s| && s[i..i + |t|] == t
  }

  lemma StandsFits(s: string, i: nat, t: string)
    requires Stands(s, i, t)
    ensures i + |t| <= |s|
  {
  }

  /** Which is to say that all its characters are there. */
  lemma StandsExactly(s: string, i: nat, t: string)
    ensures Stands(s, i, t) <==> i + |t| <= |s| && forall k | 0 <= k < |t| :: s[i + k] == t[k]
  {
    if i + |t| <= |s| {
      var piece := s[i..i + |t|];
      assert forall k | 0 <= k < |t| :: piece[k] == s[i + k];
    }
  }

  lemma StandsSplit(s: string, i: nat, a: string, b: string)
    requires Stands(s, i, a + b)
    ensures Stands(s, i, a) && Stands(s, i + |a|, b)
  {
    assert s[i..i + |a|] == (a + b)[..|a|];
    assert s[i + |a|..i + |a| + |b|] == (a + b)[|a|..];
  }

  lemma StandsAt(s: string, i: nat, t: string)
    requires Stands(s, i, t)
    ensures forall k | 0 <= k < |t| :: s[i + k] == t[k]
  {
    forall k | 0 <= k < |t| ensures s[i + k] == t[k] {
      assert s[i..i + |t|][k] == s[i + k];
    }
  }
}
