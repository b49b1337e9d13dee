/** For which use trees `expandUseTree` of `scripts/checks/check-rust-boundaries.ts` gives exactly the paths that
    the tree names, and an input for each way in which it does not. */
module UseTreeExactness {
  import opened Alphabets
  import opened Strings
  import opened UseTrees
  import opened UseTreeExpansion
  import opened UseTreePrinting

  // --- The condition ----------------------------------------------------------------------------------------

  /** The alias is made of ASCII word characters: no raw name, and nothing beyond ASCII. */
  predicate PlainAlias(alias: Alias) {
    alias.As? ==> forall c | c in alias.name :: WordChar(c)
  }

  predicate NamesNothing(tree: Tree) {
    tree.Group? && forall t | t in tree.items :: NamesNothing(t)
  }

  /** Aliases are plain, there is no glob of bare `self`, and no member's path begins with `::` and a name. */
  predicate Faithful(tree: Tree) {
    match tree
    case Leaf(path, alias) => !IsRooted(path) && PlainAlias(alias)
    case Glob(path) => path != ["self"] && (IsRooted(path) ==> path == [""])
    case Group(path, items, _) =>
      if IsRooted(path) && path != [""] then forall t | t in items :: NamesNothing(t)
      else forall t | t in items :: Faithful(t)
  }

  // --- Aliases ----------------------------------------------------------------------------------------------

  lemma {:induction false} WordRunIsAll(name: string)
    ensures WordRun(name) == |name| <==> forall c | c in name :: WordChar(c)
    ensures WordRun(name) < |name| ==> !WordChar(name[WordRun(name)])
    decreases |name|
  {
    hide WordChar;
    WordsAre();
    if name != "" && IsWord(name[0]) {
      WordRunIsAll(name[1..]);
      assert name == [name[0]] + name[1..];
    }
  }

  /** What is left of an alias that is not plain holds a character that no keyword holds. */
  lemma LeftIsOdd(alias: Alias)
    requires alias.As? ==> IsName(alias.name)
    ensures Left(alias) == "" <==> PlainAlias(alias)
    ensures Left(alias) != "" ==> exists c :: c in Left(alias) && !WordChar(c)
  {
    if alias.As? {
      var name := alias.name;
      hide WordChar, NameChar, Residue;
      WordRunIsAll(name);
      ResidueIs(name);
      if WordRun(name) < |name| {
        assert name[WordRun(name)] in Left(alias) by {
          if WordRun(name) == 0 {
            assert ("as" + name)[2] == name[0];
          } else {
            assert name[WordRun(name)..][0] == name[WordRun(name)];
          }
        }
      }
    }
  }

  lemma GluedIsNotSelf(path: seq<string>, left: string)
    requires path != [] && exists c :: c in left && !WordChar(c)
    ensures Glued(path, left) != ["self"]
  {
    hide WordChar;
    WordsAre();
    var c :| c in left && !WordChar(c);
    var last := path[|path| - 1] + left;
    assert Glued(path, left)[|path| - 1] == last && c in last;
    assert forall d | d in "self" :: IsWord(d);
  }

  // --- Paths as text ----------------------------------------------------------------------------------------

  /** Both lists print the same. */
  predicate SameText(r: seq<seq<string>>, f: seq<seq<string>>) {
    |r| == |f| && forall i | 0 <= i < |r| :: Join(r[i]) == Join(f[i])
  }

  lemma SameTextConcat(a: seq<seq<string>>, b: seq<seq<string>>, c: seq<seq<string>>, d: seq<seq<string>>)
    requires |a| == |b|
    ensures SameText(a + c, b + d) <==> SameText(a, b) && SameText(c, d)
  {
    var r, f := a + c, b + d;
    assert forall i | 0 <= i < |a| :: r[i] == a[i] && f[i] == b[i];
    assert |c| == |d| ==> forall i | 0 <= i < |c| :: r[|a| + i] == c[i] && f[|a| + i] == d[i];
    if SameText(r, f) {
      forall i | 0 <= i < |a| ensures Join(a[i]) == Join(b[i]) {
        assert Join(r[i]) == Join(f[i]);
      }
      forall i | 0 <= i < |c| ensures Join(c[i]) == Join(d[i]) {
        assert Join(r[|a| + i]) == Join(f[|a| + i]);
      }
    }
  }

  lemma {:induction false} JoinGrows(path: seq<string>, last: string)
    requires last != ""
    ensures |Join(path + [last])| > |Join(path)|
    decreases |path|
  {
    if path == [] {
      assert path + [last] == [last];
    } else {
      JoinGrows(path[1..], last);
      assert (path + [last])[1..] == path[1..] + [last];
    }
  }

  /** Gluing something to the last segment shows in the text. */
  lemma GluedGrows(prefix: seq<string>, path: seq<string>, left: string)
    requires path != []
    ensures |Join(prefix + Glued(path, left))| == |Join(prefix + path)| + |left|
  {
    assert prefix + Glued(path, left) == Glued(prefix + path, left);
    JoinGlued(prefix + path, left);
  }

  // --- Behind a leading `::` --------------------------------------------------------------------------------

  lemma {:induction false} ReadingBehind(tree: Tree, prefix: seq<string>, i: nat)
    requires i < |Reading(tree, prefix)|
    ensures prefix <= Reading(tree, prefix)[i]
    decreases tree, 0
  {
    if tree.Group? {
      ReadingAllBehind(tree.items, if tree.path == [""] then prefix else prefix + tree.path, i);
    }
  }

  lemma {:induction false} ReadingAllBehind(items: seq<Tree>, prefix: seq<string>, i: nat)
    requires i < |ReadingAll(items, prefix)|
    ensures prefix <= ReadingAll(items, prefix)[i]
    decreases items, 1
  {
    var n := |Reading(items[0], prefix)|;
    if i < n {
      ReadingBehind(items[0], prefix, i);
    } else {
      ReadingAllBehind(items[1..], prefix, i - n);
    }
  }

  lemma {:induction false} FlattenBehind(tree: Tree, prefix: seq<string>, i: nat)
    requires i < |Flatten(tree, prefix)|
    ensures prefix <= Flatten(tree, prefix)[i]
    decreases tree, 0
  {
    if tree.Group? {
      FlattenAllBehind(tree.items, prefix + Unrooted(tree.path), i);
    }
  }

  lemma {:induction false} FlattenAllBehind(items: seq<Tree>, prefix: seq<string>, i: nat)
    requires i < |FlattenAll(items, prefix)|
    ensures prefix <= FlattenAll(items, prefix)[i]
    decreases items, 1
  {
    var n := |Flatten(items[0], prefix)|;
    if i < n {
      FlattenBehind(items[0], prefix, i);
    } else {
      FlattenAllBehind(items[1..], prefix, i - n);
    }
  }

  /** Reading and naming give equally many paths. */
  lemma {:induction false} EquallyMany(tree: Tree, p: seq<string>, q: seq<string>)
    ensures |Reading(tree, p)| == |Flatten(tree, q)|
    ensures |Flatten(tree, q)| == 0 <==> NamesNothing(tree)
    decreases tree, 0
  {
    if tree.Group? {
      EquallyManyAll(tree.items, if tree.path == [""] then p else p + tree.path, q + Unrooted(tree.path));
    }
  }

  lemma {:induction false} EquallyManyAll(items: seq<Tree>, p: seq<string>, q: seq<string>)
    ensures |ReadingAll(items, p)| == |FlattenAll(items, q)|
    ensures |FlattenAll(items, q)| == 0 <==> forall t | t in items :: NamesNothing(t)
    decreases items, 1
  {
    if items != [] {
      EquallyMany(items[0], p, q);
      EquallyManyAll(items[1..], p, q);
      assert forall t :: t in items <==> t == items[0] || t in items[1..];
    }
  }

  /** A path that begins with `::` is not printed like one that begins with a name. */
  lemma RootedDiffers(r: seq<string>, f: seq<string>)
    requires IsRooted(r) && |r| > 1 && f != [] && IsName(f[0])
    ensures Join(r) != Join(f)
  {
    RootedJoin(r);
    NamesStartPlain(f);
  }

  /** Nothing under a path that begins with `::` and a name is printed as it should be. */
  lemma RootedGroup(items: seq<Tree>, path: seq<string>)
    requires IsRooted(path) && |path| > 1 && IsName(path[1])
    ensures SameText(ReadingAll(items, path), FlattenAll(items, path[1..])) <==>
      forall t | t in items :: NamesNothing(t)
  {
    var r, f := ReadingAll(items, path), FlattenAll(items, path[1..]);
    EquallyManyAll(items, path, path[1..]);
    if |f| > 0 {
      ReadingAllBehind(items, path, 0);
      FlattenAllBehind(items, path[1..], 0);
      assert r[0][0] == path[0] && f[0][0] == path[1];
      RootedDiffers(r[0], f[0]);
    }
  }

  // --- Exactness --------------------------------------------------------------------------------------------

  lemma LeafPairs(path: seq<string>, alias: Alias, p: seq<string>, start: bool)
    requires WellFormed(Leaf(path, alias), start) && (start ==> p == [])
    ensures SameText(Reading(Leaf(path, alias), p), Flatten(Leaf(path, alias), p)) <==> Faithful(Leaf(path, alias))
  {
    var left := Left(alias);
    var r, f := Reading(Leaf(path, alias), p)[0], Flatten(Leaf(path, alias), p)[0];
    LeftIsOdd(alias);
    if left != "" {
      GluedIsNotSelf(path, left);
    } else {
      assert path[|path| - 1] + left == path[|path| - 1];
      assert Glued(path, left) == path;
    }
    if IsRooted(path) {
      assert p == [] && |path| > 1 && path[1..][0] == path[1] && path[1] in path[1..];
      assert |Glued(path, left)| == |path| && Glued(path, left)[0] == "";
      assert p + Glued(path, left) == Glued(path, left);
      assert p + path[1..] == path[1..];
      RootedDiffers(r, f);
    } else if left != "" {
      GluedGrows(p, path, left);
      if path == ["self"] {
        JoinGrows(p, "self");
      }
    }
  }

  lemma GlobPairs(path: seq<string>, p: seq<string>, start: bool)
    requires WellFormed(Glob(path), start) && (start ==> p == [])
    ensures SameText(Reading(Glob(path), p), Flatten(Glob(path), p)) <==> Faithful(Glob(path))
  {
    var r, f := Reading(Glob(path), p)[0], Flatten(Glob(path), p)[0];
    if path == ["self"] {
      JoinGrows(p, "self");
    } else if IsRooted(path) && |path| > 1 {
      assert p + path == path && p + path[1..] == path[1..] && path[1] in path[1..];
      RootedDiffers(r, f);
    }
  }

  lemma {:induction false} TreePairs(tree: Tree, p: seq<string>, start: bool)
    requires WellFormed(tree, start) && (start ==> p == [])
    ensures SameText(Reading(tree, p), Flatten(tree, p)) <==> Faithful(tree)
    decreases tree, 0
  {
    match tree
    case Leaf(path, alias) => LeafPairs(path, alias, p, start);
    case Glob(path) => GlobPairs(path, p, start);
    case Group(path, items, _) =>
      if IsRooted(path) && |path| > 1 {
        assert p + path == path && p + Unrooted(path) == path[1..] && path[1] in path[1..];
        RootedGroup(items, path);
      } else {
        assert path == [""] ==> p + Unrooted(path) == p;
        ItemsPair(items, p + Unrooted(path), start && path == []);
      }
  }

  lemma {:induction false} ItemsPair(items: seq<Tree>, p: seq<string>, start: bool)
    requires (forall t | t in items :: WellFormed(t, start)) && (start ==> p == [])
    ensures SameText(ReadingAll(items, p), FlattenAll(items, p)) <==> forall t | t in items :: Faithful(t)
    decreases items, 1
  {
    if items != [] {
      TreePairs(items[0], p, start);
      ItemsPair(items[1..], p, start);
      EquallyMany(items[0], p, p);
      SameTextConcat(Reading(items[0], p), Flatten(items[0], p), ReadingAll(items[1..], p), FlattenAll(items[1..], p));
      assert forall t :: t in items <==> t == items[0] || t in items[1..];
    }
  }

  lemma {:induction false} WellFormedAtStart(tree: Tree, start: bool)
    requires WellFormed(tree, start)
    ensures WellFormed(tree, true)
    decreases tree
  {
    if tree.Group? {
      forall t | t in tree.items ensures WellFormed(t, tree.path == []) {
        if tree.path == [] {
          WellFormedAtStart(t, start);
        }
      }
    }
  }

  lemma UnrootedPath(path: seq<string>)
    requires IsPath(path, true)
    ensures IsPath(Unrooted(path), true) && Unrooted(Unrooted(path)) == Unrooted(path)
    ensures Unrooted(path) == ["self"] ==> path == ["self"]
  {
    if IsRooted(path) && |path| > 1 {
      assert path[1..][0] == path[1] && path[1] in path[1..];
    }
  }

  lemma TopIsWellFormed(tree: Tree)
    requires WellFormed(tree, true)
    ensures WellFormed(Top(tree), true) && Flatten(Top(tree), []) == Flatten(tree, [])
  {
    UnrootedPath(tree.path);
    if tree.Group? {
      forall t | t in tree.items ensures WellFormed(t, Unrooted(tree.path) == []) {
        if Unrooted(tree.path) == [] {
          WellFormedAtStart(t, tree.path == []);
        }
      }
    }
  }

  /** The expansion is exactly the list of the tree's paths if and only if its aliases are plain, it has no glob of
      bare `self`, and none of its members begins with `::` and a name. The `::` in front of the whole is fine. */
  lemma ExpansionIsExact(tree: Tree, printed: seq<Spaced>, tail: string)
    requires WellFormed(tree, true) && Toks(printed) == Tokens(tree)
    requires SpacingOk(printed) && Spaces(tail)
    ensures ExpandUseTree(Print(printed, tail)) == Joined(Flatten(tree, [])) <==> Faithful(Top(tree))
  {
    ExpansionUndoesPrinting(tree, printed, tail);
    TopIsWellFormed(tree);
    TreePairs(Top(tree), [], true);
    var r, f := Reading(Top(tree), []), Flatten(tree, []);
    assert SameText(r, f) <==> Joined(r) == Joined(f) by {
      if Joined(r) == Joined(f) {
        assert |r| == |f|;
        forall i | 0 <= i < |r| ensures Join(r[i]) == Join(f[i]) {
          assert Joined(r)[i] == Joined(f)[i];
        }
      }
    }
  }

  // --- One input for each ----------------------------------------------------------------------------------

  predicate NoSpaceIn(s: string) {
    forall i | 0 <= i < |s| :: !IsSpace(s[i])
  }

  /** No white space and no mark of a use tree. */
  predicate PlainText(s: string) {
    forall c | c in s :: !IsSpace(c) && c != ':' && c != ',' && c != '{' && c != '}' && c != '*'
  }

  lemma PlainTextIsName(s: string)
    requires PlainText(s)
    ensures IsSegment(s) && (s != "" ==> IsName(s))
  {
    hide SpaceChar;
    SpacesAre();
  }

  lemma OneSpace()
    ensures Spaces(" ")
  {
    SpaceIs(' ');
  }

  /** An alias whose name is a word goes, with `as` and the white space. */
  lemma WordAliasGoes(name: string)
    requires PlainText(name) && name != "" && forall c | c in name :: IsWord(c)
    ensures ExpandUseTree("a as " + name) == ["a"]
  {
    hide Expand, StripAliases, StripSpaces, SpaceChar, WordChar, NameChar, Residue;
    var text := "as" + " " + name;
    assert "a as " + name == "a" + (" " + text + "");
    TextStays("a", " " + text + "");
    PlainTextIsName(name);
    PlainTextIsName("a");
    OneSpace();
    WordsAre();
    WordRunIsAll(name);
    ResidueIs(name);
    AliasGoes(" ", " ", name, "");
    NothingStripped();
    assert Residue(name) == "" && "" + "" == "" && "a" + "" == "a";
    DropNothing("a");
    ExpandName("a");
  }

  /** The name `_` is a word, and so is a name with an underscore and digits. */
  lemma UnderscoreAliasGoes()
    ensures ExpandUseTree("a as _") == ["a"] && ExpandUseTree("a as b_1") == ["a"]
  {
    hide ExpandUseTree;
    WordAliasGoes("_");
    WordAliasGoes("b_1");
    assert "a as " + "_" == "a as _" && "a as " + "b_1" == "a as b_1";
  }

  lemma NothingStripped()
    ensures StripSpaces(StripAliases("")) == ""
  {
  }

  /** Text without white space is expanded as it is. */
  lemma ExpandPlain(s: string)
    requires NoSpaceIn(s) && s != "" && s[0] != ':'
    ensures ExpandUseTree(s) == Joined(Expand(s, []))
  {
    hide StripAliases, StripSpaces, Expand;
    assert s + "" == s;
    TextStays(s, "");
    NothingStripped();
    DropNothing(s);
  }

  lemma JoinedOne(path: seq<string>)
    ensures Joined([path]) == [Join(path)]
  {
  }

  /** `use self::*` is expanded to the empty path; the tree names the path `self`. */
  lemma SelfGlobIsLost()
    ensures ExpandUseTree("self::*") == [""] && Joined(Flatten(Glob(["self"]), [])) == ["self"]
  {
    hide SpaceChar, WordChar, NameChar, Residue, Expand, ExpandUseTree;
    ExpandPlain("self::*");
    assert Head(["self"]) + "*" == "self::*";
    PlainTextIsName("self");
    ExpandGlob(["self"], []);
    JoinedOne([]);
    assert [] + Unrooted(["self"]) == ["self"];
    JoinedOne(["self"]);
  }

  /** Of the raw name in `use a as r#b` the end stays. */
  lemma RawAliasStays()
    ensures ExpandUseTree("a as r#b") == ["a#b"] && Joined(Flatten(Leaf(["a"], As("r#b")), [])) == ["a"]
  {
    hide SpaceChar, WordChar, NameChar, Residue, Expand, StripAliases, StripSpaces;
    assert "a as r#b" == "a" + (" " + ("as" + " " + "r#b") + "");
    TextStays("a", " " + ("as" + " " + "r#b") + "");
    assert WordRun("r#b") == 1 && "r#b"[1..] == "#b";
    ResidueIs("r#b");
    PlainTextIsName("r#b");
    PlainTextIsName("a#b");
    OneSpace();
    AliasGoes(" ", " ", "r#b", "");
    TextStays("#b", "");
    NothingStripped();
    assert "a" + ("#b" + "") == "a#b";
    DropNothing("a#b");
    ExpandName("a#b");
    assert [] + Unrooted(["a"]) == ["a"];
    JoinedOne(["a"]);
  }

  lemma ExpandName(name: string)
    requires IsName(name) && name != "self"
    ensures Expand(name, []) == [[name]] && Joined(Expand(name, [])) == [name]
  {
    hide Expand;
    assert Join([name]) == name;
    ExpandLeaf([name], []);
    assert [] + [name] == [name];
    JoinedOne([name]);
  }

  /** Of a name that begins beyond ASCII even `as` stays. */
  lemma OtherAliasStays()
    ensures ExpandUseTree("a as \U{E9}") == ["aas\U{E9}"] && Joined(Flatten(Leaf(["a"], As("\U{E9}")), [])) == ["a"]
  {
    hide SpaceChar, WordChar, NameChar, Residue, Expand, StripAliases, StripSpaces;
    assert "a as \U{E9}" == "a" + (" " + ("as" + " " + "\U{E9}") + "");
    TextStays("a", " " + ("as" + " " + "\U{E9}") + "");
    PlainTextIsName("\U{E9}");
    PlainTextIsName("aas\U{E9}");
    OneSpace();
    AliasStays(" ", " ", "\U{E9}", "");
    NothingStripped();
    assert "a" + ("as" + "\U{E9}" + "") == "aas\U{E9}";
    DropNothing("aas\U{E9}");
    ExpandName("aas\U{E9}");
    assert [] + Unrooted(["a"]) == ["a"];
    JoinedOne(["a"]);
  }

  const NEXT_LINE := "a\U{85}"

  /** White space that only Rust knows stays: behind the `a` of `a::b` it becomes part of the name. */
  lemma OtherSpaceStays()
    ensures '\U{85}' in RUST_SPACES && ExpandUseTree(NEXT_LINE + "::b") == [NEXT_LINE + "::b"]
    ensures Joined(Flatten(Leaf(["a", "b"], NoAlias), [])) == ["a::b"]
  {
    hide SpaceChar, NameChar, Expand, ExpandUseTree;
    var path, text := [NEXT_LINE, "b"], NEXT_LINE + "::b";
    assert '\U{85}' == RUST_SPACES[6];
    assert path[1..] == ["b"] && Join(path) == text;
    assert ["a", "b"][1..] == ["b"] && "a" + "::" + "b" == "a::b";
    ExpandPlain(text);
    PlainTextIsName(NEXT_LINE);
    PlainTextIsName("b");
    ExpandLeaf(path, []);
    assert [] + path == path && [] + Unrooted(["a", "b"]) == ["a", "b"];
    JoinedOne(path);
    JoinedOne(["a", "b"]);
  }

  const ROOTED := Leaf(["", "std"], NoAlias)

  const ROOTED_MEMBER := Group([], [ROOTED], false)

  lemma RootedPath()
    ensures Join(["", "std"]) == "::std" && Join(["std"]) == "std" && Unrooted(["", "std"]) == ["std"]
    ensures Glued(["", "std"], "") == ["", "std"]
  {
    RootedJoin(["", "std"]);
    assert ["", "std"][1..] == ["std"] && "std" + "" == "std";
  }

  lemma RootedText()
    ensures Text(ROOTED) == "::std" && Expandable(ROOTED)
    ensures Reading(ROOTED, []) == [["", "std"]] && Flatten(ROOTED, []) == [["std"]]
  {
    hide SpaceChar, NameChar;
    RootedPath();
    assert forall c | c in "std" :: c == 's' || c == 't' || c == 'd';
    PlainTextIsName("std");
    PlainTextIsName("");
    hide Join, Unrooted, Glued;
    var none: seq<string> := [];
    assert "::std" + "" == "::std";
    assert none + ["", "std"] == ["", "std"] && none + Unrooted(["", "std"]) == ["std"];
    assert |["", "std"]| != |["self"]|;
  }

  lemma OneMember(tree: Tree)
    ensures Reading(Group([], [tree], false), []) == Reading(tree, [])
    ensures Flatten(Group([], [tree], false), []) == Flatten(tree, [])
    ensures Text(Group([], [tree], false)) == "{" + Text(tree) + "}"
    ensures Expandable(tree) ==> Expandable(Group([], [tree], false))
  {
    var none: seq<string> := [];
    assert none + Unrooted([]) == none && none + [] == none;
    assert [tree][1..] == [];
    assert ReadingAll([tree], none) == Reading(tree, none) + ReadingAll([], none);
    assert FlattenAll([tree], none) == Flatten(tree, none) + FlattenAll([], none);
    assert Text(tree) + "" == Text(tree) && "" + "{" == "{";
  }

  /** A member that begins with `::` keeps it. */
  lemma RootedMemberStays()
    ensures ExpandUseTree("{::std}") == ["::std"] && Joined(Flatten(ROOTED_MEMBER, [])) == ["std"]
  {
    hide Expand, ExpandUseTree, Text, Reading, Flatten, Expandable;
    RootedPath();
    RootedText();
    OneMember(ROOTED);
    ExpandPlain("{::std}");
    assert "{" + "::std" + "}" == "{::std}";
    ExpandReadsText(ROOTED_MEMBER, []);
    JoinedOne(["", "std"]);
    JoinedOne(["std"]);
  }
}
