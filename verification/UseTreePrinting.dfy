/** Every way of writing a use tree down expands to the same paths, whatever the white space between the tokens,
    and when these are the paths that the tree names. */
module UseTreePrinting {
  import opened Alphabets
  import opened Strings
  import opened UseTrees
  import opened UseTreeExpansion

  // --- Tokens -------------------------------------------------------------------------------------------

  datatype Tok = Word(text: string) | Mark(text: string) | AsName(name: string)

  /** The empty segment in front of a leading `::` is no token. */
  function SegmentToks(p: string): seq<Tok> {
    if p == "" then [] else [Word(p)]
  }

  function PathToks(path: seq<string>): seq<Tok> {
    if path == [] then []
    else if |path| == 1 then SegmentToks(path[0])
    else SegmentToks(path[0]) + [Mark("::")] + PathToks(path[1..])
  }

  function HeadToks(path: seq<string>): seq<Tok> {
    if path == [] then [] else PathToks(path) + [Mark("::")]
  }

  function Tokens(tree: Tree): seq<Tok>
    decreases tree, 0
  {
    match tree
    case Leaf(path, alias) => PathToks(path) + if alias.As? then [AsName(alias.name)] else []
    case Glob(path) => HeadToks(path) + [Mark("*")]
    case Group(path, items, comma) => HeadToks(path) + [Mark("{")] + ItemToks(items, comma) + [Mark("}")]
  }

  function ItemToks(items: seq<Tree>, comma: bool): seq<Tok>
    decreases items, 1
  {
    if items == [] then []
    else if |items| == 1 then Tokens(items[0]) + if comma then [Mark(",")] else []
    else Tokens(items[0]) + [Mark(",")] + ItemToks(items[1..], comma)
  }

  /** A token with the white space in front of it and, for an alias, behind its `as`. */
  datatype Spaced = Spaced(gap: string, tok: Tok, inner: string)

  predicate Spaces(s: string) {
    forall i | 0 <= i < |s| :: SpaceChar(s[i])
  }

  lemma {:induction false} ResidueIs(name: string)
    ensures BehindWord(name) == name[WordRun(name)..]
    ensures Residue(name) == if WordRun(name) == 0 then "as" + name else name[WordRun(name)..]
    decreases |name|
  {
    hide WordChar;
    if name != "" {
      WordIs(name[0]);
      ResidueIs(name[1..]);
    }
  }

  /** White space may stand anywhere between tokens, and must stand on both sides of `as`. */
  predicate SpacingOk(printed: seq<Spaced>) {
    forall p | p in printed :: Spaces(p.gap) && Spaces(p.inner) && (p.tok.AsName? ==> p.gap != "" && p.inner != "")
  }

  function Piece(p: Spaced): string {
    p.gap + if p.tok.AsName? then "as" + p.inner + p.tok.name else p.tok.text
  }

  function Print(printed: seq<Spaced>, tail: string): string {
    if printed == [] then tail else Piece(printed[0]) + Print(printed[1..], tail)
  }

  function Toks(printed: seq<Spaced>): (r: seq<Tok>)
    ensures |r| == |printed| && forall i | 0 <= i < |r| :: r[i] == printed[i].tok
  {
    seq(|printed|, i requires 0 <= i < |printed| => printed[i].tok)
  }

  // --- Tokens keep apart --------------------------------------------------------------------------------

  predicate TokOk(t: Tok) {
    match t
    case Word(text) => IsName(text) && text != "as"
    case Mark(text) => text in ["::", "{", "}", ",", "*"]
    case AsName(name) => IsName(name)
  }

  predicate EndsWord(toks: seq<Tok>) {
    toks != [] && !toks[|toks| - 1].Mark?
  }

  predicate StartsWord(toks: seq<Tok>) {
    toks != [] && toks[0].Word?
  }

  /** No word follows a word or an alias. */
  predicate Fits(toks: seq<Tok>) {
    && (forall t | t in toks :: TokOk(t))
    && forall i | 0 < i < |toks| :: toks[i - 1].Mark? || !toks[i].Word?
  }

  lemma FitsConcat(a: seq<Tok>, b: seq<Tok>)
    requires Fits(a) && Fits(b) && !(EndsWord(a) && StartsWord(b))
    ensures Fits(a + b)
  {
    var c := a + b;
    forall i | 0 < i < |c| ensures c[i - 1].Mark? || !c[i].Word? {
      if i > |a| {
        assert b[i - |a| - 1].Mark? || !b[i - |a|].Word?;
      }
    }
  }

  lemma FitsTail(toks: seq<Tok>)
    requires Fits(toks) && toks != []
    ensures Fits(toks[1..]) && TokOk(toks[0])
    ensures !toks[0].Mark? ==> !StartsWord(toks[1..])
  {
    var rest := toks[1..];
    forall i | 0 < i < |rest| ensures rest[i - 1].Mark? || !rest[i].Word? {
      assert toks[i].Mark? || !toks[i + 1].Word?;
    }
    if |toks| > 1 {
      assert toks[1 - 1].Mark? || !toks[1].Word?;
    }
  }

  predicate AreWords(path: seq<string>) {
    forall k | 0 <= k < |path| :: path[k] == "" || TokOk(Word(path[k]))
  }

  lemma PathIsWords(path: seq<string>, start: bool)
    requires IsPath(path, start)
    ensures AreWords(path)
  {
    forall k | 0 <= k < |path| ensures path[k] == "" || TokOk(Word(path[k])) {
      assert path[k] in path;
      if IsRooted(path) {
        assert k > 0 ==> path[k] == Unrooted(path)[k - 1] && Unrooted(path)[k - 1] in Unrooted(path);
      }
    }
  }

  lemma {:induction false} PathFits(path: seq<string>)
    requires AreWords(path)
    ensures Fits(PathToks(path))
    decreases |path|
  {
    if |path| > 1 {
      PathFits(path[1..]);
      FitsConcat(SegmentToks(path[0]), [Mark("::")]);
      FitsConcat(SegmentToks(path[0]) + [Mark("::")], PathToks(path[1..]));
    }
  }

  lemma HeadFits(path: seq<string>)
    requires AreWords(path)
    ensures Fits(HeadToks(path)) && !EndsWord(HeadToks(path))
  {
    PathFits(path);
    if path != [] {
      FitsConcat(PathToks(path), [Mark("::")]);
    }
  }

  lemma {:induction false} TokensFit(tree: Tree, start: bool)
    requires WellFormed(tree, start)
    ensures Fits(Tokens(tree))
    decreases tree, 0
  {
    PathIsWords(tree.path, start);
    match tree
    case Leaf(path, alias) =>
      PathFits(path);
      FitsConcat(PathToks(path), if alias.As? then [AsName(alias.name)] else []);
    case Glob(path) =>
      HeadFits(path);
      FitsConcat(HeadToks(path), [Mark("*")]);
    case Group(path, items, comma) =>
      HeadFits(path);
      ItemsFit(items, comma, start && path == []);
      FitsConcat(HeadToks(path), [Mark("{")]);
      FitsConcat(HeadToks(path) + [Mark("{")], ItemToks(items, comma));
      FitsConcat(HeadToks(path) + [Mark("{")] + ItemToks(items, comma), [Mark("}")]);
  }

  lemma {:induction false} ItemsFit(items: seq<Tree>, comma: bool, start: bool)
    requires forall t | t in items :: WellFormed(t, start)
    ensures Fits(ItemToks(items, comma))
    decreases items, 1
  {
    if items != [] {
      assert items[0] in items;
      TokensFit(items[0], start);
      FitsConcat(Tokens(items[0]), [Mark(",")]);
      if |items| == 1 {
        FitsConcat(Tokens(items[0]), if comma then [Mark(",")] else []);
      } else {
        ItemsFit(items[1..], comma, start);
        FitsConcat(Tokens(items[0]) + [Mark(",")], ItemToks(items[1..], comma));
      }
    }
  }

  // --- The tokens without white space and aliases ---------------------------------------------------------

  /** What stripping leaves of a token. */
  function WithoutAlias(t: Tok): string {
    if t.AsName? then Residue(t.name) else t.text
  }

  function Compact(toks: seq<Tok>): string {
    if toks == [] then "" else WithoutAlias(toks[0]) + Compact(toks[1..])
  }

  lemma CompactFirst(a: seq<Tok>)
    requires a != []
    ensures Compact(a) == WithoutAlias(a[0]) + Compact(a[1..])
  {
  }

  lemma {:induction false} CompactConcat(a: seq<Tok>, b: seq<Tok>)
    ensures Compact(a + b) == Compact(a) + Compact(b)
    decreases |a|
  {
    hide WithoutAlias;
    if a == [] {
      assert a + b == b;
    } else {
      hide Compact;
      CompactConcat(a[1..], b);
      CompactFirst(a);
      CompactFirst(a + b);
      assert (a + b)[0] == a[0] && (a + b)[1..] == a[1..] + b;
      ThreeTexts(WithoutAlias(a[0]), Compact(a[1..]), Compact(b));
    }
  }

  lemma ThreeTexts(a: string, b: string, c: string)
    ensures a + (b + c) == a + b + c
  {
  }

  lemma {:induction false} CompactPath(path: seq<string>)
    ensures Compact(PathToks(path)) == Join(path)
    decreases |path|
  {
    if path != [] {
      CompactSegment(path[0]);
      if |path| > 1 {
        CompactPath(path[1..]);
        CompactConcat(SegmentToks(path[0]) + [Mark("::")], PathToks(path[1..]));
        CompactConcat(SegmentToks(path[0]), [Mark("::")]);
        CompactOne(Mark("::"));
      }
    }
  }

  lemma CompactSegment(p: string)
    ensures Compact(SegmentToks(p)) == p
  {
    if p != "" {
      CompactOne(Word(p));
    }
  }

  lemma CompactOne(t: Tok)
    ensures Compact([t]) == WithoutAlias(t)
  {
    assert [t][1..] == [];
  }

  lemma CompactHead(path: seq<string>)
    ensures Compact(HeadToks(path)) == Head(path)
  {
    if path != [] {
      CompactPath(path);
      CompactConcat(PathToks(path), [Mark("::")]);
      CompactOne(Mark("::"));
    }
  }

  lemma {:induction false} CompactTokens(tree: Tree)
    ensures Compact(Tokens(tree)) == Text(tree)
    decreases tree, 0
  {
    match tree
    case Leaf(path, alias) =>
      CompactPath(path);
      var last := if alias.As? then [AsName(alias.name)] else [];
      CompactConcat(PathToks(path), last);
      if alias.As? {
        CompactOne(AsName(alias.name));
      }
    case Glob(path) =>
      CompactHead(path);
      CompactConcat(HeadToks(path), [Mark("*")]);
      CompactOne(Mark("*"));
    case Group(path, items, comma) =>
      CompactGroup(path, items, comma);
  }

  lemma {:induction false} CompactGroup(path: seq<string>, items: seq<Tree>, comma: bool)
    ensures Compact(Tokens(Group(path, items, comma))) == Text(Group(path, items, comma))
    decreases items, 2
  {
    var head, members := HeadToks(path), ItemToks(items, comma);
    CompactHead(path);
    CompactItems(items, comma);
    CompactConcat(head + [Mark("{")] + members, [Mark("}")]);
    CompactConcat(head + [Mark("{")], members);
    CompactConcat(head, [Mark("{")]);
    CompactOne(Mark("{"));
    CompactOne(Mark("}"));
  }

  lemma {:induction false} CompactItems(items: seq<Tree>, comma: bool)
    ensures Compact(ItemToks(items, comma)) == ItemsText(items, comma)
    decreases items, 1
  {
    if items != [] {
      CompactTokens(items[0]);
      CompactOne(Mark(","));
      if |items| == 1 {
        CompactConcat(Tokens(items[0]), if comma then [Mark(",")] else []);
      } else {
        CompactItems(items[1..], comma);
        CompactConcat(Tokens(items[0]) + [Mark(",")], ItemToks(items[1..], comma));
        CompactConcat(Tokens(items[0]), [Mark(",")]);
      }
    }
  }

  // --- Stripping aliases and white space ----------------------------------------------------------------

  lemma {:induction false} SpaceRunIs(gap: string, rest: string)
    requires Spaces(gap) && (rest == "" || !IsSpace(rest[0]))
    ensures SpaceRun(gap + rest) == |gap|
    decreases |gap|
  {
    hide SpaceChar;
    SpacesAre();
    if gap != "" {
      SpaceRunIs(gap[1..], rest);
      assert (gap + rest)[1..] == gap[1..] + rest;
    } else {
      assert gap + rest == rest;
    }
  }

  lemma {:induction false} WordRunIs(name: string, rest: string)
    requires (forall c | c in name :: IsWord(c)) && (rest == "" || !IsWord(rest[0]))
    ensures WordRun(name + rest) == |name|
    decreases |name|
  {
    if name != "" {
      assert name[0] in name;
      WordRunIs(name[1..], rest);
      assert (name + rest)[1..] == name[1..] + rest;
    } else {
      assert name + rest == rest;
    }
  }

  /** `rest` begins with the keyword `as`, closed by white space. */
  predicate StartsAs(rest: string) {
    |rest| >= 3 && rest[0] == 'a' && rest[1] == 's' && IsSpace(rest[2])
  }

  lemma NoAlias(gap: string, rest: string)
    requires Spaces(gap) && (rest == "" || !IsSpace(rest[0])) && !StartsAs(rest)
    ensures AliasLen(gap + rest) == 0
  {
    var s := gap + rest;
    SpaceRunIs(gap, rest);
    if |gap| + 2 <= |s| {
      assert s[|gap| + 2..] == rest[2..];
    }
  }

  /** White space that no alias follows stays. */
  lemma {:induction false} GapStays(gap: string, rest: string)
    requires Spaces(gap) && (rest == "" || !IsSpace(rest[0])) && !StartsAs(rest)
    ensures StripSpaces(StripAliases(gap + rest)) == StripSpaces(StripAliases(rest))
    decreases |gap|
  {
    if gap == "" {
      assert gap + rest == rest;
    } else {
      GapStep(gap, rest);
      GapStays(gap[1..], rest);
    }
  }

  lemma GapStep(gap: string, rest: string)
    requires Spaces(gap) && gap != "" && (rest == "" || !IsSpace(rest[0])) && !StartsAs(rest)
    ensures StripSpaces(StripAliases(gap + rest)) == StripSpaces(StripAliases(gap[1..] + rest))
  {
    hide SpaceChar;
    SpacesAre();
    NoAlias(gap, rest);
    StripFirst(gap + rest);
    FirstAndRest(gap, rest);
  }

  lemma StripFirst(s: string)
    requires s != "" && AliasLen(s) == 0
    ensures StripSpaces(StripAliases(s)) == (if IsSpace(s[0]) then "" else [s[0]]) + StripSpaces(StripAliases(s[1..]))
  {
    var t := [s[0]] + StripAliases(s[1..]);
    assert t[1..] == StripAliases(s[1..]);
  }

  /** Characters that are not white space stay. */
  lemma {:induction false} TextStays(text: string, rest: string)
    requires forall i | 0 <= i < |text| :: !IsSpace(text[i])
    ensures StripSpaces(StripAliases(text + rest)) == text + StripSpaces(StripAliases(rest))
    decreases |text|
  {
    if text == "" {
      assert text + rest == rest;
    } else {
      TextStep(text, rest);
      TextStays(text[1..], rest);
      FirstAndRest(text, StripSpaces(StripAliases(rest)));
    }
  }

  lemma FirstAndRest(text: string, rest: string)
    requires text != ""
    ensures (text + rest)[0] == text[0] && (text + rest)[1..] == text[1..] + rest
    ensures text + rest == [text[0]] + (text[1..] + rest)
  {
  }

  lemma TextStep(text: string, rest: string)
    requires text != "" && !IsSpace(text[0])
    ensures StripSpaces(StripAliases(text + rest)) == [text[0]] + StripSpaces(StripAliases(text[1..] + rest))
  {
    StripFirst(text + rest);
    FirstAndRest(text, rest);
  }

  /** The word characters of `name` that come first are not followed by another one. */
  lemma {:induction false} WordRunStops(name: string, rest: string)
    requires rest == "" || !IsWord(rest[0])
    ensures WordRun(name + rest) == WordRun(name)
    decreases |name|
  {
    if name != "" {
      WordRunStops(name[1..], rest);
      FirstAndRest(name, rest);
    } else {
      assert name + rest == rest;
    }
  }

  lemma AliasLenParts(s: string, a: nat, b: nat)
    requires 0 < a && a + 2 + b <= |s| && SpaceRun(s) == a && s[a] == 'a' && s[a + 1] == 's'
    requires SpaceRun(s[a + 2..]) == b > 0
    ensures AliasLen(s) == if WordRun(s[a + 2 + b..]) == 0 then 0 else a + 2 + b + WordRun(s[a + 2 + b..])
  {
    hide SpaceRun, WordRun;
  }

  lemma ThreeParts(a: string, b: string, c: string, d: string, e: string)
    ensures a + (b + c + d) + e == a + (b + (c + (d + e)))
  {
  }

  lemma AliasLenIs(gap: string, inner: string, name: string, rest: string)
    requires Spaces(gap) && Spaces(inner) && gap != "" && inner != "" && IsName(name)
    requires (rest == "" || !IsWord(rest[0]))
    ensures AliasLen(gap + ("as" + inner + name) + rest) ==
            if WordRun(name) == 0 then 0 else |gap| + 2 + |inner| + WordRun(name)
  {
    hide AliasLen, SpaceRun, WordRun, IsWord, NameChar;
    var s := gap + ("as" + inner + name) + rest;
    ThreeParts(gap, "as", inner, name, rest);
    assert !IsSpace(name[0]) by { FirstIsNoSpace(name); }
    SpaceRunIs(gap, "as" + (inner + (name + rest)));
    assert s[|gap|] == 'a' && s[|gap| + 1] == 's';
    assert s[|gap| + 2..] == inner + (name + rest);
    SpaceRunIs(inner, name + rest);
    assert s[|gap| + 2 + |inner|..] == name + rest;
    AliasLenParts(s, |gap|, |inner|);
    WordRunStops(name, rest);
  }

  lemma FirstIsNoSpace(name: string)
    requires IsName(name)
    ensures !IsSpace(name[0])
  {
    hide SpaceChar;
    SpacesAre();
    assert name[0] in name;
  }

  lemma AliasIsStripped(s: string)
    requires s != "" && AliasLen(s) > 0
    ensures StripAliases(s) == StripAliases(s[AliasLen(s)..])
  {
    hide AliasLen;
  }

  /** An alias of word characters disappears with the white space around it; of another one the rest stays. */
  lemma AliasGoes(gap: string, inner: string, name: string, rest: string)
    requires Spaces(gap) && Spaces(inner) && gap != "" && inner != "" && IsName(name)
    requires (rest == "" || !IsWord(rest[0]))
    requires WordRun(name) > 0
    ensures StripAliases(gap + ("as" + inner + name) + rest) == StripAliases(Residue(name) + rest)
  {
    hide AliasLen, StripAliases, WordRun, IsWord, NameChar;
    var s := gap + ("as" + inner + name) + rest;
    AliasLenIs(gap, inner, name, rest);
    ResidueIs(name);
    assert s[|gap| + 2 + |inner| + WordRun(name)..] == Residue(name) + rest;
    AliasIsStripped(s);
  }

  /** Where no word character follows `as`, everything but the white space stays. */
  lemma {:induction false} AliasStays(gap: string, inner: string, name: string, rest: string)
    requires Spaces(gap) && Spaces(inner) && inner != "" && IsName(name) && (rest == "" || !IsWord(rest[0]))
    requires WordRun(name) == 0
    ensures StripSpaces(StripAliases(gap + ("as" + inner + name) + rest)) ==
      "as" + name + StripSpaces(StripAliases(rest))
    decreases |gap|
  {
    hide SpaceChar;
    SpacesAre();
    hide AliasLen, StripAliases, StripSpaces, WordRun, IsWord, NameChar, StartsAs;
    if gap == "" {
      NameIsPlain(name, rest);
      ThreeParts(gap, "as", inner, name, rest);
      assert gap + ("as" + (inner + (name + rest))) == "as" + (inner + (name + rest));
      TextStays("as", inner + (name + rest));
      GapStays(inner, name + rest);
      TextStays(name, rest);
      assert "as" + (name + StripSpaces(StripAliases(rest))) == "as" + name + StripSpaces(StripAliases(rest));
    } else {
      AliasLenIs(gap, inner, name, rest);
      AliasStays(gap[1..], inner, name, rest);
      var s := gap + ("as" + inner + name) + rest;
      assert s[0] == gap[0] && s[1..] == gap[1..] + ("as" + inner + name) + rest;
      StripFirst(s);
    }
  }

  lemma NameIsPlain(name: string, rest: string)
    requires IsName(name) && WordRun(name) == 0
    ensures (forall i | 0 <= i < |name| :: !IsSpace(name[i])) && name + rest != ""
    ensures !IsSpace((name + rest)[0]) && !StartsAs(name + rest)
  {
    hide SpaceChar;
    SpacesAre();
    forall i | 0 <= i < |name| ensures !IsSpace(name[i]) {
      assert name[i] in name;
    }
    assert (name + rest)[0] == name[0] && !IsWord(name[0]);
  }

  /** What is printed begins with no word character unless its first token is a word. */
  lemma PrintStart(printed: seq<Spaced>, tail: string)
    requires SpacingOk(printed) && Spaces(tail) && Fits(Toks(printed)) && !StartsWord(Toks(printed))
    ensures var text := Print(printed, tail); text == "" || !IsWord(text[0])
  {
    hide SpaceChar;
    SpacesAre();
    if printed != [] {
      var p := printed[0];
      assert p in printed && Toks(printed)[0] == p.tok && p.tok in Toks(printed);
      if p.gap != "" {
        assert Print(printed, tail)[0] == p.gap[0];
      } else if p.tok.Mark? {
        assert Print(printed, tail)[0] == p.tok.text[0];
      }
    } else if tail != "" {
      assert IsSpace(tail[0]);
    }
  }

  lemma NotAs(t: Tok, rest: string)
    requires TokOk(t) && !t.AsName? && (t.Word? ==> rest == "" || !IsWord(rest[0]))
    ensures t.text != "" && (forall i | 0 <= i < |t.text| :: !IsSpace(t.text[i])) && !StartsAs(t.text + rest)
  {
    hide SpaceChar;
    SpacesAre();
    if t.Word? {
      forall i | 0 <= i < |t.text| ensures NameChar(t.text[i]) {
        assert t.text[i] in t.text;
      }
      assert |t.text| == 2 ==> t.text == [t.text[0], t.text[1]];
    }
  }

  lemma ResidueStays(name: string, rest: string)
    requires IsName(name)
    ensures StripSpaces(StripAliases(Residue(name) + rest)) == Residue(name) + StripSpaces(StripAliases(rest))
  {
    hide SpaceChar;
    SpacesAre();
    ResidueIsName(name);
    forall i | 0 <= i < |Residue(name)| ensures !IsSpace(Residue(name)[i]) {
      assert Residue(name)[i] in Residue(name);
    }
    TextStays(Residue(name), rest);
  }

  lemma StripPiece(p: Spaced, rest: string)
    requires Spaces(p.gap) && Spaces(p.inner) && (p.tok.AsName? ==> p.gap != "" && p.inner != "") && TokOk(p.tok)
    requires p.tok.Mark? || rest == "" || !IsWord(rest[0])
    ensures StripSpaces(StripAliases(Piece(p) + rest)) == WithoutAlias(p.tok) + StripSpaces(StripAliases(rest))
  {
    hide SpaceChar, Residue, NameChar, StripAliases, StripSpaces, StartsAs;
    if p.tok.AsName? {
      ResidueIs(p.tok.name);
      if WordRun(p.tok.name) == 0 {
        AliasStays(p.gap, p.inner, p.tok.name, rest);
      } else {
        AliasGoes(p.gap, p.inner, p.tok.name, rest);
        ResidueStays(p.tok.name, rest);
      }
    } else {
      NotAs(p.tok, rest);
      assert Piece(p) + rest == p.gap + (p.tok.text + rest);
      GapStays(p.gap, p.tok.text + rest);
      TextStays(p.tok.text, rest);
    }
  }

  lemma StripTail(tail: string)
    requires Spaces(tail)
    ensures StripSpaces(StripAliases(tail)) == ""
  {
    assert tail + "" == tail;
    GapStays(tail, "");
  }

  lemma {:induction false} StripPrinted(printed: seq<Spaced>, tail: string)
    requires SpacingOk(printed) && Spaces(tail) && Fits(Toks(printed))
    ensures StripSpaces(StripAliases(Print(printed, tail))) == Compact(Toks(printed))
    decreases |printed|
  {
    if printed == [] {
      StripTail(tail);
    } else {
      var rest := printed[1..];
      assert Toks(printed)[1..] == Toks(rest);
      assert printed[0] in printed;
      FitsTail(Toks(printed));
      StripPrinted(rest, tail);
      if !printed[0].tok.Mark? {
        PrintStart(rest, tail);
      }
      StripPiece(printed[0], Print(rest, tail));
    }
  }

  // --- The theorem ----------------------------------------------------------------------------------------

  /** The tree without the `::` in front of it, which is dropped before anything else. */
  function Top(tree: Tree): Tree {
    match tree
    case Leaf(path, alias) => Leaf(Unrooted(path), alias)
    case Glob(path) => Glob(Unrooted(path))
    case Group(path, items, comma) => Group(Unrooted(path), items, comma)
  }

  lemma TopIsExpandable(tree: Tree)
    requires WellFormed(tree, true)
    ensures Expandable(Top(tree))
  {
    WellFormedIsExpandable(tree, true);
    if tree.Leaf? {
      var left := Left(tree.alias);
      if IsRooted(tree.path) {
        assert Glued(Unrooted(tree.path), left) == Glued(tree.path, left)[1..];
        assert Unrooted(tree.path)[0] in Unrooted(tree.path);
      }
    }
  }

  /** A name does not begin with a colon, and neither does a path of names. */
  lemma NamesStartPlain(path: seq<string>)
    requires path != [] && IsName(path[0])
    ensures Join(path) != "" && Join(path)[0] == path[0][0] != ':'
  {
    assert path[0][0] in path[0];
  }

  lemma RootedJoin(path: seq<string>)
    requires IsRooted(path) && |path| > 1
    ensures Join(path) == "::" + Join(path[1..])
  {
  }

  lemma DropNothing(s: string)
    requires s == "" || s[0] != ':'
    ensures DropPrefix(s, "::") == s
  {
  }

  lemma RootedText(tree: Tree)
    requires IsRooted(tree.path) && (tree.Leaf? ==> |tree.path| > 1)
    ensures Text(tree) == "::" + Text(Top(tree))
  {
    var path := tree.path;
    RootedHead(path);
    match tree
    case Leaf(_, alias) => ThreeTexts("::", Join(path[1..]), Left(alias));
    case Glob(_) => ThreeTexts("::", Head(path[1..]), "*");
    case Group(_, items, comma) =>
      var members := ItemsText(items, comma);
      ThreeTexts("::", Head(path[1..]), "{");
      ThreeTexts("::", Head(path[1..]) + "{", members);
      ThreeTexts("::", Head(path[1..]) + "{" + members, "}");
  }

  lemma RootedHead(path: seq<string>)
    requires IsRooted(path)
    ensures Head(path) == "::" + Head(path[1..])
    ensures |path| > 1 ==> Join(path) == "::" + Join(path[1..])
  {
    if |path| > 1 {
      RootedJoin(path);
      ThreeTexts("::", Join(path[1..]), "::");
    }
  }

  lemma PlainText(tree: Tree)
    requires tree.path != [] && IsName(tree.path[0])
    ensures Text(tree) != "" && Text(tree)[0] != ':'
  {
    NamesStartPlain(tree.path);
  }

  lemma TextOfTop(tree: Tree)
    requires WellFormed(tree, true)
    ensures DropPrefix(Text(tree), "::") == Text(Top(tree))
  {
    hide Text;
    var path := tree.path;
    if IsRooted(path) {
      RootedText(tree);
      assert ("::" + Text(Top(tree)))[2..] == Text(Top(tree));
    } else if path != [] {
      assert path[0] in path;
      PlainText(tree);
      DropNothing(Text(tree));
    } else {
      BareText(tree);
      DropNothing(Text(tree));
    }
  }

  lemma BareText(tree: Tree)
    requires tree.path == [] && !tree.Leaf?
    ensures Text(tree) != "" && Text(tree)[0] != ':'
  {
  }

  /** However a use tree is written down, expanding it gives the paths that `Reading` says, in order. */
  lemma ExpansionUndoesPrinting(tree: Tree, printed: seq<Spaced>, tail: string)
    requires WellFormed(tree, true) && Toks(printed) == Tokens(tree)
    requires SpacingOk(printed) && Spaces(tail)
    ensures ExpandUseTree(Print(printed, tail)) == Joined(Reading(Top(tree), []))
  {
    TokensFit(tree, true);
    StripPrinted(printed, tail);
    CompactTokens(tree);
    TextOfTop(tree);
    TopIsExpandable(tree);
    ExpandReadsText(Top(tree), []);
  }
}
