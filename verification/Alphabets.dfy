/** The characters that the repository's regular expressions and the Rust Reference speak of, spelled out. */
module Alphabets {
  import opened Strings

  const LOWER := "abcdefghijklm" + "nopqrstuvwxyz"
  const UPPER := "ABCDEFGHIJKLM" + "NOPQRSTUVWXYZ"
  const DIGITS := "0123456789"
  const WORD := LOWER + UPPER + DIGITS + "_"
  const HEX := DIGITS + "abcdef" + "ABCDEF"

  /** White space of JavaScript: that of ASCII first. */
  const SPACES :=
    "\t\n\U{B}\U{C}\r "
    + "\U{A0}\U{1680}\U{2000}\U{2001}\U{2002}\U{2003}\U{2004}\U{2005}\U{2006}\U{2007}\U{2008}\U{2009}\U{200A}"
    + "\U{2028}\U{2029}\U{202F}\U{205F}\U{3000}\U{FEFF}"

  /** White space of Rust (The Rust Reference, chapter "Whitespace"). */
  const RUST_SPACES := "\t\n\U{B}\U{C}\r \U{85}\U{200E}\U{200F}\U{2028}\U{2029}"

  const LINE_ENDS := "\n\r\U{2028}\U{2029}"

  predicate Among(c: char, text: string) {
    text != "" && (text[0] == c || Among(c, text[1..]))
  }

  lemma {:induction false} AmongIs(c: char, text: string)
    ensures Among(c, text) <==> c in text
    decreases |text|
  {
    if text != "" {
      AmongIs(c, text[1..]);
    }
  }

  predicate WordChar(c: char) { Among(c, WORD) }

  predicate HexDigit(c: char) { Among(c, HEX) }

  predicate SpaceChar(c: char) { Among(c, SPACES) }

  lemma LowerHalf(c: char)
    ensures c in "abcdefghijklm" <==> 'a' <= c <= 'm'
  {
    if 'a' <= c <= 'm' {
      var k := c as int - 'a' as int;
      assert "abcdefghijklm"[k] == c;
    }
  }

  lemma LowerRest(c: char)
    ensures c in "nopqrstuvwxyz" <==> 'n' <= c <= 'z'
  {
    if 'n' <= c <= 'z' {
      var k := c as int - 'n' as int;
      assert "nopqrstuvwxyz"[k] == c;
    }
  }

  lemma LowerIs(c: char)
    ensures c in LOWER <==> 'a' <= c <= 'z'
  {
    LowerHalf(c);
    LowerRest(c);
    TwoTexts("abcdefghijklm", "nopqrstuvwxyz", c);
  }

  lemma UpperHalf(c: char)
    ensures c in "ABCDEFGHIJKLM" <==> 'A' <= c <= 'M'
  {
    if 'A' <= c <= 'M' {
      var k := c as int - 'A' as int;
      assert "ABCDEFGHIJKLM"[k] == c;
    }
  }

  lemma UpperRest(c: char)
    ensures c in "NOPQRSTUVWXYZ" <==> 'N' <= c <= 'Z'
  {
    if 'N' <= c <= 'Z' {
      var k := c as int - 'N' as int;
      assert "NOPQRSTUVWXYZ"[k] == c;
    }
  }

  lemma UpperIs(c: char)
    ensures c in UPPER <==> 'A' <= c <= 'Z'
  {
    UpperHalf(c);
    UpperRest(c);
    TwoTexts("ABCDEFGHIJKLM", "NOPQRSTUVWXYZ", c);
  }

  lemma TwoTexts(a: string, b: string, c: char)
    ensures c in a + b <==> c in a || c in b
  {
  }

  lemma DigitIs(c: char)
    ensures c in DIGITS <==> '0' <= c <= '9'
  {
    if '0' <= c <= '9' {
      var k := c as int - '0' as int;
      assert DIGITS[k] == c;
    }
  }

  /** `\w`. */
  lemma WordIs(c: char)
    ensures WordChar(c) <==> IsWord(c)
  {
    AmongIs(c, WORD);
    LowerIs(c);
    UpperIs(c);
    DigitIs(c);
    hide LOWER, UPPER, DIGITS;
    assert c in WORD <==> c in LOWER || c in UPPER || c in DIGITS || c in "_";
  }

  /** `[0-9a-fA-F]`. */
  lemma HexIs(c: char)
    ensures HexDigit(c) <==> IsHex(c)
  {
    AmongIs(c, HEX);
  }

  /** `\s`. */
  lemma SpaceIs(c: char)
    ensures SpaceChar(c) <==> IsSpace(c)
  {
    AmongIs(c, SPACES);
  }

  /** Three characters are white space in Rust and not in JavaScript. */
  lemma RustSpaces(c: char)
    requires c in RUST_SPACES
    ensures SpaceChar(c) <==> c !in "\U{85}\U{200E}\U{200F}"
  {
    SpaceIs(c);
  }

  /** What `.` does not match. */
  lemma LineEndIs(c: char)
    ensures c in LINE_ENDS <==> IsLineEnd(c)
  {
  }

  lemma SpacesAre()
    ensures forall c :: SpaceChar(c) <==> IsSpace(c)
  {
    forall c ensures SpaceChar(c) <==> IsSpace(c) {
      SpaceIs(c);
    }
  }

  lemma WordsAre()
    ensures forall c :: WordChar(c) <==> IsWord(c)
  {
    forall c ensures WordChar(c) <==> IsWord(c) {
      WordIs(c);
    }
  }

  lemma HexesAre()
    ensures forall c :: HexDigit(c) <==> IsHex(c)
  {
    forall c ensures HexDigit(c) <==> IsHex(c) {
      HexIs(c);
    }
  }
}
