/** `expandUseTree` of `scripts/checks/check-rust-boundaries.ts`: a use declaration spelled out as paths. */
module UseTrees {
  import opened Alphabets
  import opened Strings

  // --- The string calls it makes ------------------------------------------------------------------------

  function IndexOfChar(s: string, c: char): (r: nat)
    ensures r <= |s|
    ensures r < |s| ==> s[r] == c
  {
    if s == "" || s[0] == c then 0 else 1 + IndexOfChar(s[1..], c)
  }

  /** `lastIndexOf`: -1 when there is none. */
  function LastIndexOf(s: string, c: char): (r: int)
    ensures -1 <= r < |s|
    ensures r >= 0 ==> s[r] == c
  {
    if s == "" then -1 else if s[|s| - 1] == c then |s| - 1 else LastIndexOf(s[..|s| - 1], c)
  }

  /** `slice(from, to)`: a negative `to` counts from the end. */
  function Slice(s: string, from: nat, to: int): (r: string)
    requires from <= |s|
    ensures |r| <= |s| - from
  {
    var end := if to < 0 then |s| + to else if to > |s| then |s| else to;
    if end <= from then "" else s[from..end]
  }

  function DropSuffix(s: string, suffix: string): string {
    if |suffix| <= |s| && s[|s| - |suffix|..] == suffix then s[..|s| - |suffix|] else s
  }

  function DropPrefix(s: string, prefix: string): string {
    if prefix <= s then s[|prefix|..] else s
  }

  /** `split('::')`. */
  function SplitColons(s: string): (r: seq<string>)
    ensures |r| > 0
  {
    if |s| < 2 then [s]
    else if s[0] == ':' && s[1] == ':' then [""] + SplitColons(s[2..])
    else
      var rest := SplitColons(s[1..]);
      [[s[0]] + rest[0]] + rest[1..]
  }

  function Join(parts: seq<string>): string {
    if parts == [] then "" else if |parts| == 1 then parts[0] else parts[0] + "::" + Join(parts[1..])
  }

  function SpaceRun(s: string): (n: nat)
    ensures n <= |s|
  {
    if s == "" || !IsSpace(s[0]) then 0 else 1 + SpaceRun(s[1..])
  }

  function WordRun(s: string): (n: nat)
    ensures n <= |s|
  {
    if s == "" || !IsWord(s[0]) then 0 else 1 + WordRun(s[1..])
  }

  /** The length of `\s+as\s+\w+` at the start of `s`, or 0. */
  function AliasLen(s: string): (n: nat)
    ensures n <= |s|
  {
    var a := SpaceRun(s);
    if a > 0 && a + 2 <= |s| && s[a] == 'a' && s[a + 1] == 's' then
      var b := SpaceRun(s[a + 2..]);
      var w := WordRun(s[a + 2 + b..]);
      if b > 0 && w > 0 then a + 2 + b + w else 0
    else 0
  }

  /** `replace(/\s+as\s+\w+/g, '')`. */
  function StripAliases(s: string): string
    decreases |s|
  {
    if s == "" then ""
    else if AliasLen(s) > 0 then StripAliases(s[AliasLen(s)..])
    else [s[0]] + StripAliases(s[1..])
  }

  /** `replace(/\s+/g, '')`. */
  function StripSpaces(s: string): string {
    if s == "" then "" else (if IsSpace(s[0]) then "" else [s[0]]) + StripSpaces(s[1..])
  }

  // --- Splitting a group and expanding it ---------------------------------------------------------------

  /** The parts of `list` from `start` on, read from `index` with `depth` braces open. */
  function PartsFrom(list: string, start: nat, index: nat, depth: int): (r: seq<string>)
    requires start <= index <= |list|
    decreases |list| - index
  {
    if index == |list| then [list[start..]]
    else if list[index] == '{' then PartsFrom(list, start, index + 1, depth + 1)
    else if list[index] == '}' then PartsFrom(list, start, index + 1, depth - 1)
    else if list[index] == ',' && depth == 0 then [list[start..index]] + PartsFrom(list, index + 1, index + 1, depth)
    else PartsFrom(list, start, index + 1, depth)
  }

  /** `filter(Boolean)`. */
  function NonEmpty(parts: seq<string>): seq<string> {
    if parts == [] then []
    else (if parts[0] == "" then [] else [parts[0]]) + NonEmpty(parts[1..])
  }

  lemma {:induction false} PartsAreShort(list: string, start: nat, index: nat, depth: int)
    requires start <= index <= |list|
    ensures forall p | p in PartsFrom(list, start, index, depth) :: |p| <= |list|
    decreases |list| - index
  {
    if index < |list| {
      if list[index] == '{' {
        PartsAreShort(list, start, index + 1, depth + 1);
      } else if list[index] == '}' {
        PartsAreShort(list, start, index + 1, depth - 1);
      } else if list[index] == ',' && depth == 0 {
        PartsAreShort(list, index + 1, index + 1, depth);
      } else {
        PartsAreShort(list, start, index + 1, depth);
      }
    }
  }

  lemma {:induction false} NonEmptyKeepsParts(parts: seq<string>)
    ensures forall p | p in NonEmpty(parts) :: p in parts
    decreases |parts|
  {
    if parts != [] {
      NonEmptyKeepsParts(parts[1..]);
    }
  }

  /** The parts of a group are no longer than what stands between its braces. */
  lemma PartsFit(inner: string)
    ensures forall p | p in NonEmpty(PartsFrom(inner, 0, 0, 0)) :: |p| <= |inner|
  {
    PartsAreShort(inner, 0, 0, 0);
    NonEmptyKeepsParts(PartsFrom(inner, 0, 0, 0));
  }

  method Split(list: string) returns (parts: seq<string>)
    ensures parts == NonEmpty(PartsFrom(list, 0, 0, 0))
  {
    var all: seq<string> := [];
    var depth, start, index := 0, 0, 0;
    while index < |list|
      invariant 0 <= start <= index <= |list|
      invariant all + PartsFrom(list, start, index, depth) == PartsFrom(list, 0, 0, 0)
    {
      if list[index] == '{' {
        depth := depth + 1;
      } else if list[index] == '}' {
        depth := depth - 1;
      } else if list[index] == ',' && depth == 0 {
        assert all + ([list[start..index]] + PartsFrom(list, index + 1, index + 1, depth))
            == all + [list[start..index]] + PartsFrom(list, index + 1, index + 1, depth);
        all := all + [list[start..index]];
        start := index + 1;
      }
      index := index + 1;
    }
    all := all + [list[start..]];
    parts := NonEmpty(all);
  }

  /** The inner `expand`: every path of `item`, behind `prefix`. The parts of a group are shorter than it. */
  function Expand(item: string, prefix: seq<string>): seq<seq<string>>
    decreases |item| + 1, 0
  {
    var brace := IndexOfChar(item, '{');
    if brace < |item| then
      var head := DropSuffix(item[..brace], "::");
      var base := if head == "" then prefix else prefix + SplitColons(head);
      var inner := Slice(item, brace + 1, LastIndexOf(item, '}'));
      PartsFit(inner);
      ExpandAll(NonEmpty(PartsFrom(inner, 0, 0, 0)), base, |item|)
    else
      var name := DropSuffix(item, "::*");
      if name == "self" || name == "*" then [prefix] else [prefix + SplitColons(name)]
  }

  function ExpandAll(parts: seq<string>, base: seq<string>, bound: nat): seq<seq<string>>
    requires forall p | p in parts :: |p| < bound
    decreases bound, |parts|
  {
    if parts == [] then [] else Expand(parts[0], base) + ExpandAll(parts[1..], base, bound)
  }

  function Joined(paths: seq<seq<string>>): (r: seq<string>)
    ensures |r| == |paths| && forall i | 0 <= i < |r| :: r[i] == Join(paths[i])
  {
    seq(|paths|, i requires 0 <= i < |paths| => Join(paths[i]))
  }

  function ExpandUseTree(tree: string): seq<string> {
    Joined(Expand(DropPrefix(StripSpaces(StripAliases(tree)), "::"), []))
  }

  // --- Use trees (The Rust Reference, chapter "Use declarations") ---------------------------------------

  datatype Alias = NoAlias | As(name: string)

  /** A path that begins with `::` has an empty first segment. */
  datatype Tree =
    | Leaf(path: seq<string>, alias: Alias)
    | Glob(path: seq<string>)
    | Group(path: seq<string>, items: seq<Tree>, comma: bool)

  /** The characters of names, raw names and `$crate` among them: no white space and no mark of a use tree. */
  predicate NameChar(c: char) {
    !SpaceChar(c) && c != ':' && c != ',' && c != '{' && c != '}' && c != '*'
  }

  predicate IsName(s: string) {
    s != "" && forall c | c in s :: NameChar(c)
  }

  /** The path begins with `::`. */
  predicate IsRooted(path: seq<string>) {
    path != [] && path[0] == ""
  }

  function Unrooted(path: seq<string>): seq<string> {
    if IsRooted(path) then path[1..] else path
  }

  predicate AreNames(path: seq<string>) {
    forall p | p in path :: IsName(p)
  }

  /** `as` is a keyword: no path segment. Only where a path may start with `::` does it, and then with a name. */
  predicate IsPath(path: seq<string>, start: bool) {
    && AreNames(Unrooted(path)) && "as" !in path && (IsRooted(path) ==> start)
    && (IsRooted(path) && |path| > 1 ==> path[1] != "self")
  }

  /** `start`: no path stands in front of the tree. */
  predicate WellFormed(tree: Tree, start: bool) {
    match tree
    case Leaf(path, alias) => Unrooted(path) != [] && IsPath(path, start) && (alias.As? ==> IsName(alias.name))
    case Glob(path) => IsPath(path, start)
    case Group(path, items, comma) =>
      && IsPath(path, start) && (comma ==> items != [])
      && forall t | t in items :: WellFormed(t, start && path == [])
  }

  /** The paths a tree names. `self` as a member names the path in front of it; a glob names its module. */
  function Flatten(tree: Tree, prefix: seq<string>): seq<seq<string>>
    decreases tree, 0
  {
    match tree
    case Leaf(path, _) => [if path == ["self"] then prefix else prefix + Unrooted(path)]
    case Glob(path) => [prefix + Unrooted(path)]
    case Group(path, items, _) => FlattenAll(items, prefix + Unrooted(path))
  }

  function FlattenAll(items: seq<Tree>, prefix: seq<string>): seq<seq<string>>
    decreases items, 1
  {
    if items == [] then [] else Flatten(items[0], prefix) + FlattenAll(items[1..], prefix)
  }

  /** What the alias pattern leaves of `as` and the name: it takes only the word characters that come first. */
  function Residue(name: string): string {
    if name == "" || !WordChar(name[0]) then "as" + name else BehindWord(name)
  }

  function BehindWord(name: string): (rest: string)
    ensures |rest| <= |name|
  {
    if name != "" && WordChar(name[0]) then BehindWord(name[1..]) else name
  }

  function Left(alias: Alias): string {
    if alias.As? then Residue(alias.name) else ""
  }

  /** The path with what is left of its alias. */
  function Glued(path: seq<string>, left: string): seq<string>
    requires path != []
  {
    path[..|path| - 1] + [path[|path| - 1] + left]
  }

  /** The tree when white space and aliases are stripped. */
  function Text(tree: Tree): string
    decreases tree, 0
  {
    match tree
    case Leaf(path, alias) => Join(path) + Left(alias)
    case Glob(path) => Head(path) + "*"
    case Group(path, items, comma) => Head(path) + "{" + ItemsText(items, comma) + "}"
  }

  function Head(path: seq<string>): string {
    if path == [] then "" else Join(path) + "::"
  }

  function ItemsText(items: seq<Tree>, comma: bool): string
    decreases items, 1
  {
    if items == [] then ""
    else if |items| == 1 then Text(items[0]) + if comma then "," else ""
    else Text(items[0]) + "," + ItemsText(items[1..], comma)
  }
}
