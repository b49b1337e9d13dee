/** `codeOnly`: a source with everything that is not code blanked. */
module CodeOnly {
  import opened RustLexer
  import opened LexerBlanking

  function NotCode(s: string): (b: seq<bool>)
    ensures |b| == |s| && forall k | 0 <= k < |s| :: b[k] == !CodeAt(s, 0, k)
  {
    seq(|s|, k requires 0 <= k < |s| => !CodeAt(s, 0, k))
  }

  function Stripped(s: string): string {
    Blank(s, NotCode(s))
  }

  lemma ScanTellsNotCode(s: string)
    ensures forall k | 0 <= k < |s| :: Flags(s, 0)[k] == !NotCode(s)[k]
  {
    forall k | 0 <= k < |s| ensures Flags(s, 0)[k] == !NotCode(s)[k] {
      FlagsAreCodeAt(s, 0, k);
    }
  }

  method CodeOnly(source: string) returns (text: string)
    ensures text == Stripped(source)
  {
    hide Flags, CodeAt;
    var chars := new char[|source|](i requires 0 <= i < |source| => source[i]);
    var calls := Scan(source, 0);
    ScanTellsNotCode(source);
    ghost var stripped := Blank(source, NotCode(source));
    var index := 0;
    while index < |source|
      invariant 0 <= index <= |source|
      invariant forall k | 0 <= k < |source| :: chars[k] == if k < index then stripped[k] else source[k]
    {
      if !calls[index] && chars[index] != '\n' {
        chars[index] := ' ';
      }
      index := index + 1;
    }
    assert chars[..] == stripped;
    text := chars[..];
  }

  // --- Restarting the scan ------------------------------------------------------------------------

  /** Every character of code begins a token of its own. */
  lemma {:induction false} CodeIsBoundary(s: string, from: nat, k: nat)
    requires from <= k < |s|
    ensures CodeAt(s, from, k) ==> Boundary(s, from, k) && NextToken(s, k).code && Boundary(s, from, k + 1)
    decreases |s| - from
  {
    var end := NextToken(s, from).end;
    if k >= end {
      CodeIsBoundary(s, end, k);
    } else if CodeAt(s, from, k) {
      assert Boundary(s, end, k + 1);
    }
  }

  /** A scan begun where a scan from `from` begins a token says the same about all that follows. */
  lemma {:induction false} ScanRestarts(s: string, from: nat, i: nat, k: nat)
    requires from <= i <= k < |s| && Boundary(s, from, i)
    ensures CodeAt(s, i, k) == CodeAt(s, from, k)
    decreases |s| - from
  {
    if from < i {
      BoundaryAhead(s, NextToken(s, from).end, i);
      ScanRestarts(s, NextToken(s, from).end, i, k);
    }
  }

  lemma {:induction false} BoundaryAhead(s: string, from: nat, i: nat)
    requires from <= |s| && Boundary(s, from, i)
    ensures from <= i <= |s|
    decreases |s| - from
  {
    if from != i {
      BoundaryAhead(s, NextToken(s, from).end, i);
    }
  }

  lemma FlagRestart(s: string, i: nat, k: nat)
    requires i <= k < |s| && Boundary(s, 0, i)
    ensures Flags(s, i)[k - i] == Flags(s, 0)[k]
  {
    FlagsAreCodeAt(s, i, k);
    FlagsAreCodeAt(s, 0, k);
    ScanRestarts(s, 0, i, k);
  }

  /** The flags of the restarted scan are the tail of the first scan's flags. */
  lemma FlagsRestart(s: string, i: nat)
    requires i <= |s| && Boundary(s, 0, i)
    ensures Flags(s, i) == Flags(s, 0)[i..]
  {
    forall n | 0 <= n < |s| - i ensures Flags(s, i)[n] == Flags(s, 0)[i..][n] {
      FlagRestart(s, i, i + n);
    }
  }

  // --- Blanking all that is not code ----------------------------------------------------------------

  lemma QuoteIsNotCode(s: string, k: nat)
    requires k < |s| && s[k] == '"'
    ensures !CodeAt(s, 0, k)
  {
    CodeIsBoundary(s, 0, k);
  }

  /** What is not code and follows code begins a token of at least two characters. */
  lemma NoLoneBlank(s: string, k: nat)
    requires 0 < k < |s| - 1 && CodeAt(s, 0, k - 1) && !CodeAt(s, 0, k)
    ensures !CodeAt(s, 0, k + 1)
  {
    CodeIsBoundary(s, 0, k - 1);
    ScanRestarts(s, 0, k, k);
    ScanRestarts(s, 0, k, k + 1);
  }

  lemma NotCodeIsWhole(s: string)
    ensures WholeTokens(s, NotCode(s))
  {
    var b := NotCode(s);
    forall i | 0 <= i < |s| && Boundary(s, 0, i) && !NextToken(s, i).code
      ensures forall k | i <= k < NextToken(s, i).end :: b[k] == b[i]
    {
      forall k | i <= k < NextToken(s, i).end ensures b[k] {
        ScanRestarts(s, 0, i, k);
      }
    }
  }

  lemma NotCodeHasNoSandwich(s: string)
    ensures NoSandwich(s, NotCode(s))
  {
    forall k | 0 < k < |s| - 1 ensures !Sandwiched(s, NotCode(s), k) {
      if CodeAt(s, 0, k - 1) && !CodeAt(s, 0, k) {
        NoLoneBlank(s, k);
      }
    }
  }

  lemma RawQuoteIsNotCode(s: string, i: nat)
    requires i < |s| && RawOpen(s, i) > 0
    ensures NotCode(s)[i + RawOpen(s, i) - 1]
  {
    QuoteIsNotCode(s, i + RawOpen(s, i) - 1);
  }

  lemma NotCodeFreesNoRaw(s: string)
    ensures NoFreedRaw(s, NotCode(s))
  {
    forall i | 0 < i < |s| ensures !FreesRaw(s, NotCode(s), i) {
      if RawOpen(s, i) > 0 {
        RawQuoteIsNotCode(s, i);
      }
    }
  }

  lemma NotCodeIsBlankable(s: string)
    ensures Blankable(s, NotCode(s))
  {
    NotCodeIsWhole(s);
    NotCodeHasNoSandwich(s);
    NotCodeFreesNoRaw(s);
  }

  /** All that is left after `codeOnly` is code. */
  lemma StrippedIsCode(s: string, k: nat)
    requires k < |s|
    ensures CodeAt(Stripped(s), 0, k)
  {
    NotCodeIsBlankable(s);
    BlankingKeepsFlags(s, NotCode(s), 0, k);
  }

  lemma StrippingTwiceIsStrippingOnce(s: string)
    ensures Stripped(Stripped(s)) == Stripped(s)
  {
    forall k | 0 <= k < |s| ensures !NotCode(Stripped(s))[k] {
      StrippedIsCode(s, k);
    }
  }
}
