/** Crate paths in `scripts/checks/check-rust-boundaries.ts`: what a written path means, the file it refers to,
    and the prefix test that says whether a zone may name it. */
module CratePaths {
  import opened Options
  import opened UseTrees

  // --- The prefix test ------------------------------------------------------------------------------------

  /** A segment of a path: not empty and without colons. */
  predicate IsModuleName(s: string) {
    s != "" && ':' !in s
  }

  predicate AreModuleNames(path: seq<string>) {
    forall k | 0 <= k < |path| :: IsModuleName(path[k])
  }

  const COLONS := "::"

  function Closed(path: seq<string>): string {
    Join(path) + COLONS
  }

  /** The text `${target}::` starts with `${prefix}::`. */
  predicate Permitted(target: seq<string>, prefix: seq<string>) {
    Closed(prefix) <= Closed(target)
  }

  lemma ClosedCons(first: string, rest: seq<string>)
    requires rest != []
    ensures Closed([first] + rest) == first + (COLONS + Closed(rest))
  {
    assert ([first] + rest)[1..] == rest;
    assert first + COLONS + Join(rest) + COLONS == first + (COLONS + (Join(rest) + COLONS));
  }

  lemma ClosedOne(first: string)
    ensures Closed([first]) == first + COLONS
  {
  }

  /** Where colons follow both, the first segments are read off the text. */
  lemma FirstSegments(a: string, restA: string, b: string, restB: string)
    requires IsModuleName(a) && IsModuleName(b) && a + (COLONS + restA) <= b + (COLONS + restB)
    ensures a == b && restA <= restB
  {
    var s, t := a + (COLONS + restA), b + (COLONS + restB);
    assert s[|a|] == ':' && t[|b|] == ':';
    assert forall k | 0 <= k < |a| :: s[k] == a[k];
    assert forall k | 0 <= k < |b| :: t[k] == b[k];
    assert forall k | 0 <= k < |s| :: s[k] == t[k];
    assert |a| == |b|;
    assert s[|a| + 2..] == restA && t[|a| + 2..] == restB;
  }

  /** The test on the text is the test on the segments: `zone` permits `zone::a` but not `zone_b`. */
  lemma {:induction false} PermittedIsPrefix(target: seq<string>, prefix: seq<string>)
    requires AreModuleNames(target) && AreModuleNames(prefix) && target != [] && prefix != []
    ensures Permitted(target, prefix) <==> prefix <= target
    decreases |prefix|
  {
    var a, restA := prefix[0], prefix[1..];
    var b, restB := target[0], target[1..];
    assert prefix == [a] + restA && target == [b] + restB;
    var textA, textB := (if restA == [] then "" else Closed(restA)), (if restB == [] then "" else Closed(restB));
    if restA == [] { ClosedOne(a); } else { ClosedCons(a, restA); }
    if restB == [] { ClosedOne(b); } else { ClosedCons(b, restB); }
    assert Closed(prefix) == a + (COLONS + textA) && Closed(target) == b + (COLONS + textB);
    if restA != [] && restB != [] {
      PermittedIsPrefix(restB, restA);
    }
    if Permitted(target, prefix) {
      FirstSegments(a, textA, b, textB);
    }
    if prefix <= target {
      assert restA <= restB;
      assert textA <= textB;
      assert a + (COLONS + textA) <= b + (COLONS + textB);
    }
  }

  // --- Resolving ------------------------------------------------------------------------------------------

  /** The file of the longest prefix that is a module. */
  method Resolve<F>(segments: seq<string>, modules: map<string, F>) returns (length: nat, file: Option<F>)
    ensures length <= |segments| && (file == None <==> length == 0)
    ensures file.Some? ==> Join(segments[..length]) in modules && modules[Join(segments[..length])] == file.value
    ensures forall n | length < n <= |segments| :: Join(segments[..n]) !in modules
  {
    length, file := |segments|, None;
    while length > 0 && file == None
      invariant length <= |segments|
      invariant file.Some? ==>
        length > 0 && Join(segments[..length]) in modules && modules[Join(segments[..length])] == file.value
      invariant forall n | length < n <= |segments| :: Join(segments[..n]) !in modules
      decreases length, file == None
    {
      var name := Join(segments[..length]);
      if name in modules {
        file := Some(modules[name]);
      } else {
        length := length - 1;
      }
    }
  }

  // --- Written paths --------------------------------------------------------------------------------------

  /** What leading `self` and `super` make of the module they stand in. */
  function Climb(from: seq<string>, segments: seq<string>): seq<string> {
    if segments != [] && segments[0] == "self" then Climb(from, segments[1..])
    else if segments != [] && segments[0] == "super"
      then Climb(if from == [] then [] else from[..|from| - 1], segments[1..])
    else from + segments
  }

  /** `lead` holds nothing but `self` and `super`. */
  predicate IsLead(lead: seq<string>) {
    forall k | 0 <= k < |lead| :: lead[k] == "self" || lead[k] == "super"
  }

  /** How many modules `lead` leaves. */
  function Supers(lead: seq<string>): nat {
    if lead == [] then 0 else (if lead[0] == "super" then 1 else 0) + Supers(lead[1..])
  }

  /** What one leading word makes of the module. */
  function Around(from: seq<string>, word: string): seq<string> {
    if word == "self" || from == [] then from else from[..|from| - 1]
  }

  lemma ClimbStep(from: seq<string>, word: string, rest: seq<string>)
    requires word == "self" || word == "super"
    ensures Climb(from, [word] + rest) == Climb(Around(from, word), rest)
  {
    assert ([word] + rest)[1..] == rest;
  }

  lemma ClimbNothing(from: seq<string>, path: seq<string>)
    requires path != [] ==> path[0] != "self" && path[0] != "super"
    ensures Climb(from, path) == from + path
  {
  }

  /** The module that `n` times leaving leads to. */
  function Left(from: seq<string>, n: nat): seq<string> {
    from[..if n <= |from| then |from| - n else 0]
  }

  lemma LeftStep(from: seq<string>, word: string, n: nat)
    requires word == "self" || word == "super"
    ensures Left(Around(from, word), n) == Left(from, n + if word == "super" then 1 else 0)
  {
  }

  /** Each leading `super` leaves the innermost module, down to the root, and `self` leaves none. */
  lemma {:induction false} ClimbLeaves(from: seq<string>, lead: seq<string>, path: seq<string>)
    requires IsLead(lead) && (path != [] ==> path[0] != "self" && path[0] != "super")
    ensures Climb(from, lead + path) == Left(from, Supers(lead)) + path
    decreases |lead|
  {
    hide Climb, Left, Around;
    if lead == [] {
      assert lead + path == path;
      ClimbNothing(from, path);
      LeftNothing(from);
    } else {
      var word := lead[0];
      assert lead + path == [word] + (lead[1..] + path);
      ClimbStep(from, word, lead[1..] + path);
      ClimbLeaves(Around(from, word), lead[1..], path);
      LeftStep(from, word, Supers(lead[1..]));
    }
  }

  lemma LeftNothing(from: seq<string>)
    ensures Left(from, 0) == from
  {
  }

  /** `self::a` is `a` in the module itself, and `super::a` is `a` in the one around it. */
  lemma SelfIsHere(from: seq<string>, name: string)
    requires name != "self" && name != "super"
    ensures Climb(from, ["self", name]) == from + [name]
    ensures from != [] ==> Climb(from, ["super", name]) == from[..|from| - 1] + [name]
  {
    assert ["self", name] == ["self"] + [name] && ["super", name] == ["super"] + [name];
    assert ["self"][1..] == [] && ["super"][1..] == [];
    ClimbLeaves(from, ["self"], [name]);
    ClimbLeaves(from, ["super"], [name]);
  }

  /** From the crate root; `None` for a path that leaves the crate. */
  method Absolute<F>(segments: seq<string>, from: seq<string>, modules: map<string, F>)
    returns (path: Option<seq<string>>)
    requires segments != []
    ensures segments[0] == "crate" ==> path == Some(segments[1..])
    ensures segments[0] in {"self", "super"} ==> path == Some(Climb(from, segments))
    ensures segments[0] !in {"crate", "self", "super"} ==>
      path == if Join(from + [segments[0]]) in modules then Some(from + segments) else None
  {
    if segments[0] == "crate" {
      path := Some(segments[1..]);
    } else if segments[0] == "self" || segments[0] == "super" {
      var base, rest := from, segments;
      while rest != [] && (rest[0] == "self" || rest[0] == "super")
        invariant Climb(base, rest) == Climb(from, segments)
        decreases |rest|
      {
        if rest[0] == "super" {
          base := if base == [] then [] else base[..|base| - 1];
        }
        rest := rest[1..];
      }
      path := Some(base + rest);
    } else {
      path := if Join(from + [segments[0]]) in modules then Some(from + segments) else None;
    }
  }
}
