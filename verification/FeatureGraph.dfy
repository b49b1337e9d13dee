/** `contractToFeatures` of `scripts/checks/check-feature-boundaries.ts`: the import graph of files
    contracted to the features that own them. Which feature owns a file is a parameter. */
module FeatureGraph {
  import opened Options
  import opened Graphs

  /** A walk of at least one import from `file` to `x` whose files in between belong to no feature. */
  ghost predicate HiddenWalk<V, F>(g: Graph<V>, owner: V -> Option<F>, p: seq<V>, file: V, x: V) {
    WalkFromTo(g, p, file, x) && |p| >= 2 && forall i | 0 < i < |p| - 1 :: owner(p[i]) == None
  }

  ghost predicate ReachesHidden<V(!new), F>(g: Graph<V>, owner: V -> Option<F>, file: V, x: V) {
    exists p :: HiddenWalk(g, owner, p, file, x)
  }

  /** Some file of `a` reaches some file of `b` through files that belong to no feature. */
  ghost predicate DependsOn<V(!new), F>(g: Graph<V>, owner: V -> Option<F>, a: F, b: F) {
    && a != b
    && exists file, x ::
      file in g && owner(file) == Some(a) && owner(x) == Some(b) && ReachesHidden(g, owner, file, x)
  }

  lemma HiddenStep<V(!new), F>(g: Graph<V>, owner: V -> Option<F>, file: V, x: V)
    requires x in Succ(g, file)
    ensures ReachesHidden(g, owner, file, x)
  {
    assert HiddenWalk(g, owner, [file, x], file, x);
  }

  lemma HiddenNext<V(!new), F>(g: Graph<V>, owner: V -> Option<F>, file: V, x: V, y: V)
    requires ReachesHidden(g, owner, file, x) && owner(x) == None && y in Succ(g, x)
    ensures ReachesHidden(g, owner, file, y)
  {
    var p :| HiddenWalk(g, owner, p, file, x);
    WalkExtend(g, p, y);
    assert HiddenWalk(g, owner, p + [y], file, y);
  }

  // --- The walk from one file -------------------------------------------------------------------------

  /** `x` belongs to `b`, which does not own `file`. */
  predicate Crosses<V, F(==)>(owner: V -> Option<F>, file: V, x: V, b: F) {
    owner(x) == Some(b) && owner(file) != Some(b)
  }

  /** The walk goes on to the imports of its start and of unowned files. */
  predicate Expanded<V(==), F>(owner: V -> Option<F>, file: V, v: V) {
    v == file || owner(v) == None
  }

  /** Everything seen or pending is reached, and the imports of all that was expanded are seen or pending. */
  ghost predicate Walking<V(!new), F>(g: Graph<V>, owner: V -> Option<F>, file: V, seen: set<V>, pending: seq<V>) {
    && file in seen
    && (forall x | x in seen && x != file :: ReachesHidden(g, owner, file, x))
    && (forall x | x in pending :: ReachesHidden(g, owner, file, x))
    && (forall x, y | x in seen && Expanded(owner, file, x) && y in Succ(g, x) :: y in seen || y in pending)
  }

  /** `deps` is `before` and the other features whose files were seen. */
  ghost predicate Collected<V, F(!new)>(owner: V -> Option<F>, file: V, seen: set<V>, before: seq<F>, deps: seq<F>) {
    forall b :: b in deps <==> b in before || exists x :: x in seen && Crosses(owner, file, x, b)
  }

  lemma WalkingStart<V(!new), F>(g: Graph<V>, owner: V -> Option<F>, file: V)
    ensures Walking(g, owner, file, {file}, Succ(g, file))
  {
    forall x | x in Succ(g, file) ensures ReachesHidden(g, owner, file, x) {
      HiddenStep(g, owner, file, x);
    }
  }

  /** A seen file is dropped from the list. */
  lemma WalkingDrop<V(!new), F>(g: Graph<V>, owner: V -> Option<F>, file: V, seen: set<V>, pending: seq<V>, next: V)
    requires Walking(g, owner, file, seen, pending + [next]) && next in seen
    ensures Walking(g, owner, file, seen, pending)
  {
  }

  /** An owned file is seen and not walked through. */
  lemma WalkingStop<V(!new), F>(g: Graph<V>, owner: V -> Option<F>, file: V, seen: set<V>, pending: seq<V>, next: V)
    requires Walking(g, owner, file, seen, pending + [next]) && next !in seen && owner(next) != None
    ensures Walking(g, owner, file, seen + {next}, pending)
  {
    assert next in pending + [next];
  }

  /** An unowned file is seen and its imports are put on the list. */
  lemma WalkingGo<V(!new), F>(g: Graph<V>, owner: V -> Option<F>, file: V, seen: set<V>, pending: seq<V>, next: V)
    requires Walking(g, owner, file, seen, pending + [next]) && next !in seen && owner(next) == None
    ensures Walking(g, owner, file, seen + {next}, pending + Succ(g, next))
  {
    assert next in pending + [next];
    forall y | y in Succ(g, next) ensures ReachesHidden(g, owner, file, y) {
      HiddenNext(g, owner, file, next, y);
    }
  }

  /** With nothing pending, every file on a hidden walk has been seen. */
  lemma {:induction false} WalkedAll<V(!new), F>(g: Graph<V>, owner: V -> Option<F>, file: V, seen: set<V>,
      p: seq<V>, x: V, i: nat)
    requires Walking(g, owner, file, seen, []) && HiddenWalk(g, owner, p, file, x) && i < |p|
    ensures p[i] in seen
    decreases i
  {
    if i > 0 {
      WalkedAll(g, owner, file, seen, p, x, i - 1);
      assert p[i - 1 + 1] in Succ(g, p[i - 1]);
    }
  }

  lemma SeenAreReached<V(!new), F>(g: Graph<V>, owner: V -> Option<F>, file: V, seen: set<V>, x: V)
    requires Walking(g, owner, file, seen, []) && x != file
    ensures x in seen <==> ReachesHidden(g, owner, file, x)
  {
    if ReachesHidden(g, owner, file, x) {
      var p :| HiddenWalk(g, owner, p, file, x);
      WalkedAll(g, owner, file, seen, p, x, |p| - 1);
    }
  }

  lemma CollectedAll<V(!new), F(!new)>(g: Graph<V>, owner: V -> Option<F>, file: V, seen: set<V>, before: seq<F>,
      deps: seq<F>, b: F)
    requires Walking(g, owner, file, seen, []) && Collected(owner, file, seen, before, deps)
    ensures b in deps <==> b in before || exists x :: ReachesHidden(g, owner, file, x) && Crosses(owner, file, x, b)
  {
    if x :| x in seen && Crosses(owner, file, x, b) {
      SeenAreReached(g, owner, file, seen, x);
    }
    if x :| ReachesHidden(g, owner, file, x) && Crosses(owner, file, x, b) {
      SeenAreReached(g, owner, file, seen, x);
    }
  }

  /** The `while` loop: walks from `file` and adds the features it meets to `before`. */
  method WalkFile<V(==, !new), F(==, !new)>(g: Graph<V>, owner: V -> Option<F>, file: V, before: seq<F>)
    returns (deps: seq<F>)
    requires file in g && owner(file).Some?
    ensures forall b :: b in deps <==>
      b in before || exists x :: ReachesHidden(g, owner, file, x) && Crosses(owner, file, x, b)
  {
    hide Walking, ReachesHidden;
    deps := before;
    var seen := {file};
    var pending := Succ(g, file);
    WalkingStart(g, owner, file);
    while pending != []
      invariant Walking(g, owner, file, seen, pending) && Collected(owner, file, seen, before, deps)
      invariant seen <= Vertices(g) && forall x | x in pending :: x in Vertices(g)
      decreases |Vertices(g) - seen|, |pending|
    {
      var next := pending[|pending| - 1];
      ghost var was := pending;
      pending := pending[..|pending| - 1];
      assert was == pending + [next];
      if next in seen {
        WalkingDrop(g, owner, file, seen, pending, next);
        continue;
      }
      Shrinks(Vertices(g), seen, seen + {next}, next);
      var reached := owner(next);
      if reached == None {
        WalkingGo(g, owner, file, seen, pending, next);
        pending := pending + Succ(g, next);
      } else {
        WalkingStop(g, owner, file, seen, pending, next);
        if reached != owner(file) && reached.value !in deps {
          deps := deps + [reached.value];
        }
      }
      seen := seen + {next};
    }
    forall b {
      CollectedAll(g, owner, file, seen, before, deps, b);
    }
  }

  // --- The contraction --------------------------------------------------------------------------------

  /** Some file of the graph belongs to `a`. */
  ghost predicate Owns<V(!new), F>(g: Graph<V>, owner: V -> Option<F>, a: F) {
    exists file :: file in g && owner(file) == Some(a)
  }

  /** The exact meaning of the contracted graph. */
  ghost predicate IsContraction<V(!new), F(!new)>(g: Graph<V>, owner: V -> Option<F>, c: Graph<F>) {
    && (forall a :: a in c <==> Owns(g, owner, a))
    && (forall a, b :: b in Succ(c, a) <==> DependsOn(g, owner, a, b))
  }

  /** The contraction of the files `done` only. */
  ghost predicate Contracted<V(!new), F(!new)>(g: Graph<V>, owner: V -> Option<F>, done: seq<V>, c: Graph<F>) {
    && (forall a :: a in c <==> exists file :: file in done && owner(file) == Some(a))
    && (forall a, b :: b in Succ(c, a) <==> Found(g, owner, done, a, b))
  }

  ghost predicate Found<V(!new), F>(g: Graph<V>, owner: V -> Option<F>, done: seq<V>, a: F, b: F) {
    exists file, x ::
      file in done && owner(file) == Some(a) && ReachesHidden(g, owner, file, x) && Crosses(owner, file, x, b)
  }

  lemma FoundNext<V(!new), F>(g: Graph<V>, owner: V -> Option<F>, done: seq<V>, file: V, a: F, b: F)
    ensures Found(g, owner, done + [file], a, b) <==>
      (Found(g, owner, done, a, b)
       || (owner(file) == Some(a) && exists x :: ReachesHidden(g, owner, file, x) && Crosses(owner, file, x, b)))
  {
    assert forall f :: f in done + [file] <==> f in done || f == file;
  }

  lemma ContractedNext<V(!new), F(!new)>(g: Graph<V>, owner: V -> Option<F>, done: seq<V>, file: V, c: Graph<F>,
      deps: seq<F>)
    requires Contracted(g, owner, done, c) && owner(file).Some?
    requires forall b :: b in deps <==>
      b in Succ(c, owner(file).value) || exists x :: ReachesHidden(g, owner, file, x) && Crosses(owner, file, x, b)
    ensures Contracted(g, owner, done + [file], c[owner(file).value := deps])
  {
    var c' := c[owner(file).value := deps];
    assert forall f :: f in done + [file] <==> f in done || f == file;
    forall a, b ensures b in Succ(c', a) <==> Found(g, owner, done + [file], a, b) {
      FoundNext(g, owner, done, file, a, b);
      if a != owner(file).value {
        assert Succ(c', a) == Succ(c, a);
      }
    }
    forall a ensures a in c' <==> exists f :: f in done + [file] && owner(f) == Some(a) {
      if a in c' && a != owner(file).value {
        var f :| f in done && owner(f) == Some(a);
        assert f in done + [file];
      }
    }
  }

  lemma ContractedSkip<V(!new), F(!new)>(g: Graph<V>, owner: V -> Option<F>, done: seq<V>, file: V, c: Graph<F>)
    requires Contracted(g, owner, done, c) && owner(file) == None
    ensures Contracted(g, owner, done + [file], c)
  {
    assert forall f :: f in done + [file] <==> f in done || f == file;
    forall a, b ensures b in Succ(c, a) <==> Found(g, owner, done + [file], a, b) {
      FoundNext(g, owner, done, file, a, b);
    }
    forall a ensures a in c <==> exists f :: f in done + [file] && owner(f) == Some(a) {
      if a in c {
        var f :| f in done && owner(f) == Some(a);
        assert f in done + [file];
      }
    }
  }

  lemma ContractedAll<V(!new), F(!new)>(g: Graph<V>, owner: V -> Option<F>, keys: seq<V>, c: Graph<F>)
    requires Contracted(g, owner, keys, c) && forall v :: v in keys <==> v in g
    ensures IsContraction(g, owner, c)
  {
    forall a, b ensures Found(g, owner, keys, a, b) <==> DependsOn(g, owner, a, b) {
      if Found(g, owner, keys, a, b) {
        var file, x :| file in keys && owner(file) == Some(a) && ReachesHidden(g, owner, file, x)
          && Crosses(owner, file, x, b);
        assert owner(x) == Some(b);
      }
      if DependsOn(g, owner, a, b) {
        var file, x :| file in g && owner(file) == Some(a) && owner(x) == Some(b) && ReachesHidden(g, owner, file, x);
        assert Crosses(owner, file, x, b);
      }
    }
  }

  /** `keys` lists the files of the graph in order; `features` lists the features in the order in which
      they enter the contracted graph. */
  method ContractToFeatures<V(==, !new), F(==, !new)>(g: Graph<V>, keys: seq<V>, owner: V -> Option<F>)
    returns (c: Graph<F>, features: seq<F>)
    requires forall v :: v in keys <==> v in g
    ensures IsContraction(g, owner, c)
    ensures forall a :: a in features <==> a in c
  {
    c, features := map[], [];
    var n := 0;
    while n < |keys|
      invariant 0 <= n <= |keys|
      invariant Contracted(g, owner, keys[..n], c)
      invariant forall a :: a in features <==> a in c
    {
      var file := keys[n];
      assert keys[..n + 1] == keys[..n] + [file];
      assert file in keys;
      var owned := owner(file);
      if owned == None {
        ContractedSkip(g, owner, keys[..n], file, c);
      } else {
        if owned.value !in c {
          features := features + [owned.value];
        }
        var deps := WalkFile(g, owner, file, Succ(c, owned.value));
        ContractedNext(g, owner, keys[..n], file, c, deps);
        c := c[owned.value := deps];
      }
      n := n + 1;
    }
    assert keys[..n] == keys;
    ContractedAll(g, owner, keys, c);
  }

  // --- Nothing is hidden ------------------------------------------------------------------------------

  /** Every walk between files of two features gives a walk between the features. */
  lemma {:induction false} WalkContracts<V(!new), F(!new)>(g: Graph<V>, owner: V -> Option<F>, c: Graph<F>,
      p: seq<V>, a: F, b: F)
    returns (q: seq<F>)
    requires IsContraction(g, owner, c) && IsWalk(g, p) && p[0] in g
    requires owner(p[0]) == Some(a) && owner(p[|p| - 1]) == Some(b)
    ensures WalkFromTo(c, q, a, b)
    decreases |p|
  {
    if |p| == 1 {
      return [a];
    }
    var j := 1;
    while owner(p[j]) == None
      invariant 1 <= j < |p| && forall i | 0 < i < j :: owner(p[i]) == None
      decreases |p| - j
    {
      j := j + 1;
    }
    WalkSuffix(g, p, j);
    assert j < |p| - 1 ==> p[j + 1] in Succ(g, p[j]);
    if j == |p| - 1 {
      q := [b];
    } else {
      q := WalkContracts(g, owner, c, p[j..], owner(p[j]).value, b);
    }
    if owner(p[j]) != Some(a) {
      PrefixIsHidden(g, owner, p, j);
      assert DependsOn(g, owner, a, q[0]);
      PrependEdge(c, a, q);
      q := [a] + q;
    }
  }

  lemma PrefixIsHidden<V(!new), F>(g: Graph<V>, owner: V -> Option<F>, p: seq<V>, j: nat)
    requires IsWalk(g, p) && 1 <= j < |p| && forall i | 0 < i < j :: owner(p[i]) == None
    ensures ReachesHidden(g, owner, p[0], p[j])
  {
    var q := p[..j + 1];
    forall i | 0 <= i < |q| - 1 ensures q[i + 1] in Succ(g, q[i]) {
      assert p[i + 1] in Succ(g, p[i]);
    }
    assert HiddenWalk(g, owner, q, p[0], p[j]);
  }

  lemma PrependEdge<F>(c: Graph<F>, a: F, q: seq<F>)
    requires IsWalk(c, q) && q[0] in Succ(c, a)
    ensures IsWalk(c, [a] + q)
  {
    var r := [a] + q;
    forall i | 0 <= i < |r| - 1 ensures r[i + 1] in Succ(c, r[i]) {
      if i > 0 {
        assert q[i - 1 + 1] in Succ(c, q[i - 1]);
      }
    }
  }

  /** Features that import each other, by whatever way, lie on a cycle of the contracted graph. */
  lemma MutualImportsAreACycle<V(!new), F(!new)>(g: Graph<V>, owner: V -> Option<F>, c: Graph<F>, a: F, b: F, v: V,
      w: V, w': V, v': V)
    requires IsContraction(g, owner, c) && a != b && v in g && w' in g
    requires owner(v) == owner(v') == Some(a) && owner(w) == owner(w') == Some(b)
    requires Reaches(g, v, w) && Reaches(g, w', v')
    ensures exists p :: IsCycle(c, p) && a in p && b in p
  {
    var p :| WalkFromTo(g, p, v, w);
    var r :| WalkFromTo(g, r, w', v');
    var there := WalkContracts(g, owner, c, p, a, b);
    var back := WalkContracts(g, owner, c, r, b, a);
    WalkJoin(c, there, back);
    var cycle := there + back[1..];
    assert cycle[|there| - 1] == b;
    assert IsCycle(c, cycle) && a in cycle && b in cycle;
  }
}
