/** Expanding the text of a use tree gives the paths that the tree names. */
module UseTreeExpansion {
  import opened Alphabets
  import opened Strings
  import opened UseTrees

  // --- Paths ----------------------------------------------------------------------------------------

  predicate PathChar(c: char) {
    NameChar(c) || c == ':'
  }

  predicate IsSegment(p: string) {
    forall c | c in p :: NameChar(c)
  }

  /** Segments hold no colons and nothing that a name may not hold; they may be empty. */
  predicate AreSegments(path: seq<string>) {
    forall k | 0 <= k < |path| :: IsSegment(path[k])
  }

  lemma PathIsSegments(path: seq<string>, start: bool)
    requires IsPath(path, start)
    ensures AreSegments(path)
  {
    forall k | 0 <= k < |path| ensures IsSegment(path[k]) {
      if IsRooted(path) {
        assert k > 0 ==> path[k] == Unrooted(path)[k - 1] && Unrooted(path)[k - 1] in Unrooted(path);
      } else {
        assert path[k] in path;
      }
    }
  }

  lemma {:induction false} JoinIsPathText(path: seq<string>)
    requires AreSegments(path)
    ensures forall c | c in Join(path) :: PathChar(c)
    decreases |path|
  {
    if path != [] {
      assert IsSegment(path[0]);
      if |path| > 1 {
        JoinIsPathText(path[1..]);
      }
    }
  }

  lemma {:induction false} JoinGlued(path: seq<string>, left: string)
    requires path != []
    ensures Join(Glued(path, left)) == Join(path) + left
    decreases |path|
  {
    if |path| > 1 {
      JoinGlued(path[1..], left);
      assert Glued(path, left)[1..] == Glued(path[1..], left);
    }
  }

  lemma {:induction false} BehindWordIsWithin(name: string)
    ensures forall c | c in BehindWord(name) :: c in name
    decreases |name|
  {
    hide WordChar;
    if name != "" {
      BehindWordIsWithin(name[1..]);
    }
  }

  lemma ResidueIsName(name: string)
    requires IsName(name)
    ensures IsSegment(Residue(name))
  {
    hide WordChar, SpaceChar;
    BehindWordIsWithin(name);
    SpaceIs('a');
    SpaceIs('s');
    assert forall c | c in "as" :: c == 'a' || c == 's';
  }

  /** A tree of segments: all that the expansion needs to know. */
  predicate Expandable(tree: Tree) {
    match tree
    case Leaf(path, alias) => path != [] && path != [""] && AreSegments(path) && AreSegments(Glued(path, Left(alias)))
    case Glob(path) => AreSegments(path)
    case Group(path, items, _) => AreSegments(path) && forall t | t in items :: Expandable(t)
  }

  lemma GluedIsSegments(path: seq<string>, left: string)
    requires path != [] && AreSegments(path) && IsSegment(left)
    ensures AreSegments(Glued(path, left))
  {
    assert IsSegment(path[|path| - 1]);
  }

  lemma {:induction false} WellFormedIsExpandable(tree: Tree, start: bool)
    requires WellFormed(tree, start)
    ensures Expandable(tree)
    decreases tree
  {
    PathIsSegments(tree.path, start);
    match tree
    case Leaf(path, alias) =>
      if alias.As? {
        ResidueIsName(alias.name);
      }
      GluedIsSegments(path, Left(alias));
    case Glob(_) =>
    case Group(path, items, _) =>
      forall t | t in items ensures Expandable(t) {
        WellFormedIsExpandable(t, start && path == []);
      }
  }

  lemma {:induction false} SplitOneName(name: string)
    requires ':' !in name
    ensures SplitColons(name) == [name]
    decreases |name|
  {
    if |name| >= 2 {
      assert name[0] in name;
      SplitOneName(name[1..]);
      assert [name[0]] + name[1..] == name;
    }
  }

  lemma {:induction false} SplitFirstName(name: string, rest: string)
    requires ':' !in name
    ensures SplitColons(name + "::" + rest) == [name] + SplitColons(rest)
    decreases |name|
  {
    var s := name + "::" + rest;
    if name == "" {
      assert s[2..] == rest;
    } else {
      assert name[0] in name;
      SplitFirstName(name[1..], rest);
      assert s[1..] == name[1..] + "::" + rest;
      assert [name[0]] + name[1..] == name;
    }
  }

  lemma {:induction false} SplitUndoesJoin(path: seq<string>)
    requires path != [] && AreSegments(path)
    ensures SplitColons(Join(path)) == path
    decreases |path|
  {
    assert IsSegment(path[0]);
    if |path| == 1 {
      SplitOneName(path[0]);
    } else {
      SplitUndoesJoin(path[1..]);
      SplitFirstName(path[0], Join(path[1..]));
      assert path == [path[0]] + path[1..];
    }
  }

  // --- What the code makes of a tree --------------------------------------------------------------------

  /** What the code reads: as `Flatten`, but a glob of `self` names the path in front of it, as a member `self`
      does; the rest of an alias is glued to its name; and a path that begins with `::` keeps its empty segment. */
  function Reading(tree: Tree, prefix: seq<string>): seq<seq<string>>
    decreases tree, 0
  {
    match tree
    case Leaf(path, alias) =>
      if path == [] then [prefix]
      else [if Glued(path, Left(alias)) == ["self"] then prefix else prefix + Glued(path, Left(alias))]
    case Glob(path) => [if path == ["self"] then prefix else prefix + path]
    case Group(path, items, _) => ReadingAll(items, if path == [""] then prefix else prefix + path)
  }

  function ReadingAll(items: seq<Tree>, prefix: seq<string>): seq<seq<string>>
    decreases items, 1
  {
    if items == [] then [] else Reading(items[0], prefix) + ReadingAll(items[1..], prefix)
  }

  lemma {:induction false} NoBrace(s: string)
    requires '{' !in s
    ensures IndexOfChar(s, '{') == |s|
    decreases |s|
  {
    if s != "" {
      assert s[0] in s;
      NoBrace(s[1..]);
    }
  }

  lemma {:induction false} FirstBrace(head: string, rest: string)
    requires '{' !in head
    ensures IndexOfChar(head + "{" + rest, '{') == |head|
    decreases |head|
  {
    var s := head + "{" + rest;
    if head != "" {
      assert head[0] in head;
      FirstBrace(head[1..], rest);
      assert s[1..] == head[1..] + "{" + rest;
    }
  }

  /** A path of several names, or of one that is not `self` or `*`, is not read as one of those. */
  lemma PathIsNotSelf(path: seq<string>)
    requires path != [] && AreSegments(path)
    ensures Join(path) == "self" <==> path == ["self"]
    ensures Join(path) != "*"
  {
    JoinIsPathText(path);
    assert !PathChar('*') && (Join(path) == "*" ==> '*' in Join(path));
    if |path| > 1 {
      assert Join(path)[|path[0]|] == ':';
      assert ':' in Join(path) && ':' !in "self";
    }
  }

  lemma ExpandLeaf(path: seq<string>, prefix: seq<string>)
    requires path != [] && AreSegments(path)
    ensures Expand(Join(path), prefix) == [if path == ["self"] then prefix else prefix + path]
  {
    var item := Join(path);
    JoinIsPathText(path);
    assert '{' !in item;
    NoBrace(item);
    assert forall i | 0 <= i < |item| :: item[i] in item;
    assert 3 <= |item| ==> item[|item| - 3..][2] == item[|item| - 1];
    PathIsNotSelf(path);
    SplitUndoesJoin(path);
  }

  lemma ExpandGlob(path: seq<string>, prefix: seq<string>)
    requires AreSegments(path)
    ensures Expand(Head(path) + "*", prefix) == [if path == ["self"] then prefix else prefix + path]
  {
    var item := Head(path) + "*";
    if path != [] {
      JoinIsPathText(path);
      assert item == Join(path) + "::*";
      assert '{' !in item;
      NoBrace(item);
      assert item[|item| - 3..] == "::*" && item[..|item| - 3] == Join(path);
      PathIsNotSelf(path);
      SplitUndoesJoin(path);
    } else {
      NoBrace(item);
      assert prefix + path == prefix;
    }
  }

  // --- Splitting the members of a group ---------------------------------------------------------------

  lemma {:induction false} SkipPlain(list: string, start: nat, i: nat, j: nat, depth: int)
    requires start <= i <= j <= |list| && forall k | i <= k < j :: list[k] !in "{},"
    ensures PartsFrom(list, start, i, depth) == PartsFrom(list, start, j, depth)
    decreases j - i
  {
    if i < j {
      SkipPlain(list, start, i + 1, j, depth);
    }
  }

  lemma SkipPath(list: string, start: nat, i: nat, t: string, depth: int)
    requires start <= i && Stands(list, i, t) && forall c | c in t :: PathChar(c)
    ensures PartsFrom(list, start, i, depth) == PartsFrom(list, start, i + |t|, depth)
  {
    forall k | i <= k < i + |t| ensures list[k] !in "{}," {
      assert list[i..i + |t|][k - i] == t[k - i];
      assert t[k - i] in t;
    }
    SkipPlain(list, start, i, i + |t|, depth);
  }

  /** One character: a brace changes the depth, any other inside braces is passed over. */
  lemma SkipChar(list: string, start: nat, i: nat, c: char, depth: int)
    requires start <= i && Stands(list, i, [c]) && (c == ',' ==> depth != 0)
    ensures PartsFrom(list, start, i, depth) ==
      PartsFrom(list, start, i + 1, if c == '{' then depth + 1 else if c == '}' then depth - 1 else depth)
  {
    assert list[i..i + 1][0] == list[i];
  }

  lemma SkipHead(list: string, start: nat, i: nat, path: seq<string>, depth: int)
    requires AreSegments(path) && start <= i && Stands(list, i, Head(path))
    ensures PartsFrom(list, start, i, depth) == PartsFrom(list, start, i + |Head(path)|, depth)
  {
    JoinIsPathText(path);
    SkipPath(list, start, i, Head(path), depth);
  }

  /** Reading over a tree leaves the brace depth where it was and finds no comma outside braces. */
  lemma {:induction false} SkipTree(list: string, start: nat, i: nat, tree: Tree, depth: nat)
    requires Expandable(tree) && start <= i && Stands(list, i, Text(tree))
    ensures PartsFrom(list, start, i, depth) == PartsFrom(list, start, i + |Text(tree)|, depth)
    decreases tree, 0
  {
    match tree
    case Leaf(path, alias) =>
      var glued := Glued(path, Left(alias));
      JoinGlued(path, Left(alias));
      JoinIsPathText(glued);
      SkipPath(list, start, i, Join(glued), depth);
    case Glob(path) =>
      SkipGlob(list, start, i, path, depth);
    case Group(path, items, comma) =>
      SkipGroup(list, start, i, path, items, comma, depth);
  }

  lemma SkipGlob(list: string, start: nat, i: nat, path: seq<string>, depth: nat)
    requires AreSegments(path) && start <= i && Stands(list, i, Head(path) + "*")
    ensures PartsFrom(list, start, i, depth) == PartsFrom(list, start, i + |Head(path)| + 1, depth)
  {
    StandsSplit(list, i, Head(path), "*");
    SkipHead(list, start, i, path, depth);
    SkipChar(list, start, i + |Head(path)|, '*', depth);
  }

  lemma GroupStands(list: string, i: nat, path: seq<string>, items: seq<Tree>, comma: bool)
    requires Stands(list, i, Text(Group(path, items, comma)))
    ensures var open := i + |Head(path)|;
      var close := open + 1 + |ItemsText(items, comma)|;
      && Stands(list, i, Head(path)) && Stands(list, open, "{")
      && Stands(list, open + 1, ItemsText(items, comma)) && Stands(list, close, "}")
      && close + 1 == i + |Text(Group(path, items, comma))|
  {
    hide Stands, Head, ItemsText;
    BracedStands(list, i, Head(path), ItemsText(items, comma));
  }

  lemma BracedStands(list: string, i: nat, head: string, members: string)
    requires Stands(list, i, head + "{" + members + "}")
    ensures Stands(list, i, head) && Stands(list, i + |head|, "{")
    ensures Stands(list, i + |head| + 1, members) && Stands(list, i + |head| + 1 + |members|, "}")
  {
    StandsSplit(list, i, head + "{" + members, "}");
    StandsSplit(list, i, head + "{", members);
    StandsSplit(list, i, head, "{");
  }

  lemma {:induction false} SkipGroup(list: string, start: nat, i: nat, path: seq<string>, items: seq<Tree>,
      comma: bool, depth: nat)
    requires AreSegments(path) && (forall t | t in items :: Expandable(t)) && start <= i
    requires Stands(list, i, Text(Group(path, items, comma)))
    ensures PartsFrom(list, start, i, depth) == PartsFrom(list, start, i + |Text(Group(path, items, comma))|, depth)
    decreases items, 2
  {
    hide PartsFrom, Stands, ItemsText, Expandable, AreSegments, Head;
    GroupStands(list, i, path, items, comma);
    var open := i + |Head(path)|;
    var close := open + 1 + |ItemsText(items, comma)|;
    SkipHead(list, start, i, path, depth);
    SkipChar(list, start, open, '{', depth);
    SkipItems(list, start, open + 1, items, comma, depth + 1);
    SkipChar(list, start, close, '}', depth + 1);
  }

  /** What follows the first member: nothing, or a comma and the other members. */
  function RestText(items: seq<Tree>, comma: bool): string
    requires items != []
  {
    if |items| == 1 && !comma then "" else "," + ItemsText(items[1..], comma && |items| > 1)
  }

  lemma OneItemText(item: Tree, comma: bool)
    ensures ItemsText([item], comma) == Text(item) + if comma then "," else ""
    ensures RestText([item], comma) == if comma then "," else ""
  {
    hide Text;
    assert [item][1..] == [] && "," + ItemsText([], false) == ",";
  }

  lemma ThreePieces(a: string, b: string, c: string)
    ensures a + b + c == a + (b + c)
  {
  }

  lemma ItemsTextIs(items: seq<Tree>, comma: bool)
    requires items != []
    ensures ItemsText(items, comma) == Text(items[0]) + RestText(items, comma)
  {
    hide Text;
    if |items| == 1 {
      assert items == [items[0]];
      OneItemText(items[0], comma);
    } else {
      ThreePieces(Text(items[0]), ",", ItemsText(items[1..], comma));
    }
  }

  lemma ItemsStand(list: string, i: nat, items: seq<Tree>, comma: bool)
    requires items != [] && Stands(list, i, ItemsText(items, comma))
    ensures items[0] in items && Stands(list, i, Text(items[0]))
    ensures Stands(list, i + |Text(items[0])|, RestText(items, comma))
    ensures |ItemsText(items, comma)| == |Text(items[0])| + |RestText(items, comma)|
  {
    hide Stands, Text, ItemsText, RestText;
    ItemsTextIs(items, comma);
    StandsSplit(list, i, Text(items[0]), RestText(items, comma));
  }

  /** Inside braces the commas between the members are passed over as well. */
  lemma {:induction false} SkipItems(list: string, start: nat, i: nat, items: seq<Tree>, comma: bool, depth: nat)
    requires (forall t | t in items :: Expandable(t)) && depth > 0 && start <= i
    requires Stands(list, i, ItemsText(items, comma))
    ensures PartsFrom(list, start, i, depth) == PartsFrom(list, start, i + |ItemsText(items, comma)|, depth)
    decreases items, 1
  {
    hide PartsFrom, Text, Stands, Expandable, RestText;
    if items != [] {
      ItemsStand(list, i, items, comma);
      SkipTree(list, start, i, items[0], depth);
      SkipRest(list, start, i + |Text(items[0])|, items, comma, depth);
    }
  }

  lemma {:induction false} SkipRest(list: string, start: nat, i: nat, items: seq<Tree>, comma: bool, depth: nat)
    requires items != [] && forall t | t in items :: Expandable(t)
    requires depth > 0 && start <= i && Stands(list, i, RestText(items, comma))
    ensures PartsFrom(list, start, i, depth) == PartsFrom(list, start, i + |RestText(items, comma)|, depth)
    decreases items, 0
  {
    if RestText(items, comma) != "" {
      var others := ItemsText(items[1..], comma && |items| > 1);
      StandsSplit(list, i, ",", others);
      SkipChar(list, start, i, ',', depth);
      SkipItems(list, start, i + 1, items[1..], comma && |items| > 1, depth);
    }
  }

  function Texts(items: seq<Tree>): seq<string> {
    if items == [] then [] else [Text(items[0])] + Texts(items[1..])
  }

  lemma TextIsNotEmpty(tree: Tree)
    requires Expandable(tree)
    ensures Text(tree) != ""
  {
    if tree.Leaf? {
      JoinIsEmpty(tree.path);
    }
  }

  /** At depth 0 the first member is the first part. */
  lemma FirstPart(list: string, i: nat, item: Tree, rest: string)
    requires Expandable(item) && Stands(list, i, Text(item))
    requires Stands(list, i + |Text(item)|, rest) && i + |Text(item)| + |rest| == |list|
    requires rest == "" || rest[0] == ','
    ensures var next := i + |Text(item)|;
      NonEmpty(PartsFrom(list, i, i, 0)) ==
        [Text(item)] + if rest == "" then [] else NonEmpty(PartsFrom(list, next + 1, next + 1, 0))
  {
    hide Text, Expandable;
    SkipTree(list, i, i, item, 0);
    TextIsNotEmpty(item);
    var next := i + |Text(item)|;
    if rest == "" {
      assert list[i..] == list[i..next];
    } else {
      assert list[next..][0] == list[next];
      assert PartsFrom(list, i, next, 0) == [Text(item)] + PartsFrom(list, next + 1, next + 1, 0);
    }
  }

  lemma NoParts(list: string)
    ensures NonEmpty(PartsFrom(list, |list|, |list|, 0)) == []
  {
    assert list[|list|..] == "";
    assert PartsFrom(list, |list|, |list|, 0) == [""];
  }

  /** Splitting the text of a group's members gives the texts of the members, one by one. */
  lemma {:induction false} PartsAreItems(list: string, i: nat, items: seq<Tree>, comma: bool)
    requires forall t | t in items :: Expandable(t)
    requires Stands(list, i, ItemsText(items, comma)) && i + |ItemsText(items, comma)| == |list|
    ensures Texts(items) == NonEmpty(PartsFrom(list, i, i, 0))
    decreases |items|, 1
  {
    hide PartsFrom, Text, Stands, Expandable, NonEmpty;
    if items == [] {
      NoParts(list);
    } else {
      ItemsStand(list, i, items, comma);
      var next, rest := i + |Text(items[0])|, RestText(items, comma);
      OtherParts(list, next, items, comma, rest);
      FirstPart(list, i, items[0], rest);
    }
  }

  lemma {:induction false} OtherParts(list: string, next: nat, items: seq<Tree>, comma: bool, rest: string)
    requires items != [] && (forall t | t in items :: Expandable(t)) && rest == RestText(items, comma)
    requires Stands(list, next, rest) && next + |rest| == |list|
    ensures Texts(items) ==
      [Text(items[0])] + if rest == "" then [] else NonEmpty(PartsFrom(list, next + 1, next + 1, 0))
    decreases |items|, 0
  {
    if rest != "" {
      StandsSplit(list, next, ",", ItemsText(items[1..], comma && |items| > 1));
      PartsAreItems(list, next + 1, items[1..], comma && |items| > 1);
    }
  }

  // --- Expanding ----------------------------------------------------------------------------------------

  lemma GroupParts(path: seq<string>, items: seq<Tree>, comma: bool)
    requires Expandable(Group(path, items, comma))
    ensures var item := Text(Group(path, items, comma));
      && IndexOfChar(item, '{') == |Head(path)| < |item|
      && Slice(item, |Head(path)| + 1, LastIndexOf(item, '}')) == ItemsText(items, comma)
      && item[..|Head(path)|] == Head(path)
  {
    var head, members := Head(path), ItemsText(items, comma);
    var item := head + "{" + members + "}";
    JoinIsPathText(path);
    assert '{' !in head;
    assert item == head + "{" + (members + "}");
    FirstBrace(head, members + "}");
    assert item[|head| + 1..|item| - 1] == members;
  }

  lemma JoinIsEmpty(path: seq<string>)
    requires path != []
    ensures Join(path) == "" <==> path == [""]
  {
  }

  lemma GroupHead(path: seq<string>, prefix: seq<string>)
    requires AreSegments(path)
    ensures var head := DropSuffix(Head(path), "::");
      (if path == [""] then prefix else prefix + path) == if head == "" then prefix else prefix + SplitColons(head)
  {
    if path != [] {
      JoinIsEmpty(path);
      assert Head(path)[|Head(path)| - 2..] == "::" && Head(path)[..|Head(path)| - 2] == Join(path);
      SplitUndoesJoin(path);
    }
  }

  lemma GroupIsItems(path: seq<string>, items: seq<Tree>, comma: bool)
    requires forall t | t in items :: Expandable(t)
    ensures NonEmpty(PartsFrom(ItemsText(items, comma), 0, 0, 0)) == Texts(items)
    ensures forall p | p in Texts(items) :: |p| < |Text(Group(path, items, comma))|
  {
    var list := ItemsText(items, comma);
    PartsAreItems(list, 0, items, comma);
    PartsFit(list);
  }

  /** Expanding a group expands its members, one by one. */
  lemma ExpandGroup(path: seq<string>, items: seq<Tree>, comma: bool, prefix: seq<string>)
    requires Expandable(Group(path, items, comma))
    ensures var item := Text(Group(path, items, comma));
      && (forall p | p in Texts(items) :: |p| < |item|)
      && Expand(item, prefix) == ExpandAll(Texts(items), if path == [""] then prefix else prefix + path, |item|)
  {
    hide ExpandAll, PartsFrom, Texts, Text, SplitColons, DropSuffix, NonEmpty, Head, ItemsText, LastIndexOf, Slice;
    GroupParts(path, items, comma);
    GroupHead(path, prefix);
    GroupIsItems(path, items, comma);
  }

  lemma {:induction false} ExpandReadsText(tree: Tree, prefix: seq<string>)
    requires Expandable(tree)
    ensures Expand(Text(tree), prefix) == Reading(tree, prefix)
    decreases tree, 0
  {
    hide Expand, AreSegments, Glued;
    match tree
    case Leaf(path, alias) =>
      JoinGlued(path, Left(alias));
      ExpandLeaf(Glued(path, Left(alias)), prefix);
    case Glob(path) =>
      ExpandGlob(path, prefix);
    case Group(path, items, comma) =>
      ExpandGroup(path, items, comma, prefix);
      ExpandReadsItems(items, if path == [""] then prefix else prefix + path, |Text(tree)|);
  }

  lemma {:induction false} ExpandReadsItems(items: seq<Tree>, base: seq<string>, bound: nat)
    requires (forall t | t in items :: Expandable(t)) && forall p | p in Texts(items) :: |p| < bound
    ensures ExpandAll(Texts(items), base, bound) == ReadingAll(items, base)
    decreases items, 1
  {
    if items != [] {
      assert items[0] in items && Texts(items)[0] in Texts(items);
      ExpandReadsText(items[0], base);
      assert Texts(items)[1..] == Texts(items[1..]);
      ExpandReadsItems(items[1..], base, bound);
    }
  }
}
