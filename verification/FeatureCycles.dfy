/** The cycle walk of `runBoundaryCheck`: it reports every feature met again on the way down. */
module FeatureCycles {
  import opened Options
  import opened Lists
  import opened Graphs
  import opened FeatureGraph

  ghost predicate OnCycle<F(!new)>(g: Graph<F>, f: F) {
    exists p :: IsCycle(g, p) && p[0] == f
  }

  /** Every ranked feature has only ranked successors of smaller rank, but for those that are reported. */
  ghost predicate RankedOrReported<F>(g: Graph<F>, rank: map<F, nat>, errors: seq<F>) {
    forall v, t | v in rank && t in Succ(g, v) :: (t in rank && rank[t] < rank[v]) || t in errors
  }

  /** Every feature of `s` was left for good or is reported. */
  ghost predicate Handled<F>(s: seq<F>, visited: set<F>, errors: seq<F>) {
    forall f | f in s :: f in visited || f in errors
  }

  lemma HandledNext<F>(s: seq<F>, n: nat, visited: set<F>, errors: seq<F>, visited': set<F>, errors': seq<F>)
    requires n < |s| && Handled(s[..n], visited, errors) && visited <= visited' && errors <= errors'
    requires s[n] in visited' || s[n] in errors'
    ensures Handled(s[..n + 1], visited', errors')
  {
    assert s[..n + 1] == s[..n] + [s[n]];
  }

  /** Along a walk without reported features the rank goes down. */
  lemma {:induction false} UnreportedDescends<F>(g: Graph<F>, rank: map<F, nat>, errors: seq<F>, p: seq<F>)
    requires RankedOrReported(g, rank, errors) && IsWalk(g, p) && p[0] in rank && forall f | f in p :: f !in errors
    ensures p[|p| - 1] in rank && rank[p[|p| - 1]] + |p| - 1 <= rank[p[0]]
    decreases |p|
  {
    if |p| > 1 {
      assert p[1] in Succ(g, p[0]);
      WalkSuffix(g, p, 1);
      UnreportedDescends(g, rank, errors, p[1..]);
    }
  }

  /** Every cycle goes through a reported feature. */
  ghost predicate CyclesAreReported<F(!new)>(g: Graph<F>, errors: seq<F>) {
    forall p | IsCycle(g, p) :: exists e :: e in errors && e in p
  }

  lemma RankedReports<F(!new)>(g: Graph<F>, rank: map<F, nat>, errors: seq<F>)
    requires RankedOrReported(g, rank, errors) && g.Keys <= rank.Keys
    ensures CyclesAreReported(g, errors)
  {
    forall p | IsCycle(g, p) ensures exists e :: e in errors && e in p {
      if forall f | f in p :: f !in errors {
        assert p[1] in Succ(g, p[0]);
        UnreportedDescends(g, rank, errors, p);
      }
    }
  }

  lemma NoneReported<F(!new)>(g: Graph<F>, errors: seq<F>)
    requires CyclesAreReported(g, errors) && forall e | e in errors :: OnCycle(g, e)
    ensures errors == [] <==> Acyclic(g)
  {
    if errors != [] {
      assert errors[0] in errors && OnCycle(g, errors[0]);
    }
  }

  class CycleWalk<F(==, !new)> {
    const graph: Graph<F>
    ghost const vertices: set<F>
    var visiting: set<F>
    var visited: set<F>
    var errors: seq<F>
    /** The features being visited, outermost first, and a rank for each feature left for good. */
    ghost var path: seq<F>
    ghost var rank: map<F, nat>
    /** The features that were entered. */
    ghost var entered: set<F>

    ghost predicate Valid()
      reads this
    {
      && vertices == Vertices(graph)
      && Distinct(path)
      && (path != [] ==> IsWalk(graph, path))
      && (forall e | e in errors :: OnCycle(graph, e))
      && RankedOrReported(graph, rank, errors) && rank.Keys == visited
      && entered <= vertices
      && forall v ::
        && (v in visiting <==> v in path)
        && (v in entered <==> v in visiting || v in visited)
        && !(v in visiting && v in visited)
    }

    constructor (graph: Graph<F>)
      ensures Valid() && this.graph == graph && path == [] && errors == []
    {
      this.graph := graph;
      vertices := Vertices(graph);
      visiting, visited, errors, path, rank, entered := {}, {}, [], [], map[], {};
    }

    method Visit(feature: F)
      requires Valid() && feature in vertices
      requires path != [] ==> feature in Succ(graph, path[|path| - 1])
      modifies this
      ensures Valid() && path == old(path) && old(errors) <= errors
      ensures feature in visited || feature in errors
      ensures old(path) == [] ==> feature in visited
      ensures old(visited) <= visited && old(entered) <= entered
      decreases |vertices - entered|, 1
    {
      hide Distinct, IsWalk, RankedOrReported, OnCycle, Vertices, Handled, Succ;
      if feature in visiting {
        Report(feature);
      } else if feature !in visited {
        Explore(feature);
      }
    }

    lemma NotEntered(feature: F)
      requires Valid() && feature !in visiting && feature !in visited
      ensures feature !in entered
    {
    }

    method Explore(feature: F)
      requires Valid() && feature in vertices && feature !in visiting && feature !in visited
      requires path != [] ==> feature in Succ(graph, path[|path| - 1])
      modifies this
      ensures Valid() && path == old(path) && old(errors) <= errors && feature in visited
      ensures old(visited) <= visited && old(entered) <= entered
      decreases |vertices - entered|, 0
    {
      hide Valid, Vertices, Handled, Succ;
      NotEntered(feature);
      Enter(feature);
      Shrinks(vertices, old(entered), entered, feature);
      VisitDependencies(feature);
      Leave(feature);
    }

    method VisitDependencies(feature: F)
      requires Valid() && path != [] && path[|path| - 1] == feature
      modifies this
      ensures Valid() && path == old(path) && old(errors) <= errors
      ensures Handled(Succ(graph, feature), visited, errors)
      ensures old(visited) <= visited && old(entered) <= entered
      decreases |vertices - entered|, 2
    {
      hide Distinct, IsWalk, RankedOrReported, OnCycle, Vertices;
      var targets := Succ(graph, feature);
      var n := 0;
      while n < |targets|
        invariant 0 <= n <= |targets|
        invariant Valid() && path == old(path) && old(errors) <= errors
        invariant old(visited) <= visited && old(entered) <= entered
        invariant Handled(targets[..n], visited, errors)
      {
        ghost var before, reported := visited, errors;
        NotMore(vertices, old(entered), entered);
        SuccIsVertex(graph, feature, targets[n]);
        Visit(targets[n]);
        HandledNext(targets, n, before, reported, visited, errors);
        n := n + 1;
      }
      assert targets[..n] == targets;
    }

    method Report(feature: F)
      requires Valid() && feature in visiting && path != [] && feature in Succ(graph, path[|path| - 1])
      modifies this`errors
      ensures Valid() && errors == old(errors) + [feature]
    {
      ghost var at := IndexOf(path, feature);
      StackClosesCycle(graph, path, at, feature);
      assert OnCycle(graph, feature);
      errors := errors + [feature];
    }

    method Enter(feature: F)
      requires Valid() && feature in vertices && feature !in visiting && feature !in visited
      requires path != [] ==> feature in Succ(graph, path[|path| - 1])
      modifies this`visiting, this`path, this`entered
      ensures Valid() && path == old(path) + [feature] && entered == old(entered) + {feature}
    {
      if path != [] {
        WalkExtend(graph, path, feature);
      }
      visiting := visiting + {feature};
      entered := entered + {feature};
      path := path + [feature];
    }

    method Leave(feature: F)
      requires Valid() && path != [] && path[|path| - 1] == feature
      requires Handled(Succ(graph, feature), visited, errors)
      modifies this`visiting, this`visited, this`path, this`rank
      ensures Valid() && path == old(path)[..|old(path)| - 1]
      ensures visited == old(visited) + {feature}
    {
      ghost var height := RankAbove(rank);
      visiting := visiting - {feature};
      visited := visited + {feature};
      path := path[..|path| - 1];
      rank := rank[feature := height];
    }
  }

  /** Each report names a feature on a cycle, and every cycle goes through a reported feature; so nothing is reported
      exactly when the graph has no cycle. */
  method ReportCycles<F(==, !new)>(graph: Graph<F>, keys: seq<F>) returns (errors: seq<F>)
    requires forall f :: f in keys <==> f in graph
    ensures forall e | e in errors :: OnCycle(graph, e)
    ensures CyclesAreReported(graph, errors)
    ensures errors == [] <==> Acyclic(graph)
  {
    hide Acyclic, CyclesAreReported, OnCycle, RankedOrReported, IsWalk, Distinct;
    var walk := new CycleWalk(graph);
    var n := 0;
    while n < |keys|
      invariant 0 <= n <= |keys|
      invariant walk.Valid() && walk.graph == graph && walk.path == []
      invariant AllIn(keys[..n], walk.visited)
    {
      assert keys[n] in keys;
      ghost var before := walk.visited;
      walk.Visit(keys[n]);
      AllInNext(keys, n, before, walk.visited);
      n := n + 1;
    }
    assert keys[..n] == keys;
    errors := walk.errors;
    RankedReports(graph, walk.rank, errors);
    NoneReported(graph, errors);
  }

  /** Features that depend on each other in turn, the last on the first. */
  ghost predicate DependencyCycle<V(!new), F>(files: Graph<V>, owner: V -> Option<F>, p: seq<F>) {
    |p| >= 2 && p[0] == p[|p| - 1] && forall i | 0 <= i < |p| - 1 :: DependsOn(files, owner, p[i], p[i + 1])
  }

  ghost predicate OnDependencyCycle<V(!new), F(!new)>(files: Graph<V>, owner: V -> Option<F>, f: F) {
    exists p :: DependencyCycle(files, owner, p) && p[0] == f
  }

  /** Every dependency cycle goes through a reported feature. */
  ghost predicate DependencyCyclesAreReported<V(!new), F(!new)>(files: Graph<V>, owner: V -> Option<F>,
      errors: seq<F>) {
    forall p | DependencyCycle(files, owner, p) :: exists e :: e in errors && e in p
  }

  lemma CyclesAreDependencyCycles<V(!new), F(!new)>(files: Graph<V>, owner: V -> Option<F>, c: Graph<F>, p: seq<F>)
    requires IsContraction(files, owner, c)
    ensures IsCycle(c, p) <==> DependencyCycle(files, owner, p)
  {
    if |p| >= 2 {
      forall i | 0 <= i < |p| - 1 ensures p[i + 1] in Succ(c, p[i]) <==> DependsOn(files, owner, p[i], p[i + 1]) {
      }
    }
  }

  lemma ReportsTell<V(!new), F(!new)>(files: Graph<V>, owner: V -> Option<F>, c: Graph<F>, errors: seq<F>)
    requires IsContraction(files, owner, c) && CyclesAreReported(c, errors) && forall e | e in errors :: OnCycle(c, e)
    ensures forall e | e in errors :: OnDependencyCycle(files, owner, e)
    ensures DependencyCyclesAreReported(files, owner, errors)
  {
    hide OnCycle, OnDependencyCycle, IsContraction, IsCycle, DependencyCycle;
    forall e | e in errors ensures OnDependencyCycle(files, owner, e) {
      OnCycleTells(files, owner, c, e);
    }
    forall p | DependencyCycle(files, owner, p) ensures exists e :: e in errors && e in p {
      CyclesAreDependencyCycles(files, owner, c, p);
    }
  }

  lemma OnCycleTells<V(!new), F(!new)>(files: Graph<V>, owner: V -> Option<F>, c: Graph<F>, e: F)
    requires IsContraction(files, owner, c) && OnCycle(c, e)
    ensures OnDependencyCycle(files, owner, e)
  {
    hide IsContraction, IsWalk, DependencyCycle;
    var p :| IsCycle(c, p) && p[0] == e;
    CyclesAreDependencyCycles(files, owner, c, p);
  }

  lemma NoDependencyCycleReported<V(!new), F(!new)>(files: Graph<V>, owner: V -> Option<F>, errors: seq<F>)
    requires DependencyCyclesAreReported(files, owner, errors)
    requires forall e | e in errors :: OnDependencyCycle(files, owner, e)
    ensures errors == [] <==> forall p :: !DependencyCycle(files, owner, p)
  {
    hide DependencyCycle;
    if errors != [] {
      assert errors[0] in errors;
      var p :| DependencyCycle(files, owner, p) && p[0] == errors[0];
    }
  }

  /** The feature part of `runBoundaryCheck`: each report names a feature on a dependency cycle, and
      every dependency cycle goes through a reported feature. */
  method CheckFeatures<V(==, !new), F(==, !new)>(files: Graph<V>, keys: seq<V>, owner: V -> Option<F>)
    returns (errors: seq<F>)
    requires forall v :: v in keys <==> v in files
    ensures forall e | e in errors :: OnDependencyCycle(files, owner, e)
    ensures DependencyCyclesAreReported(files, owner, errors)
    ensures errors == [] <==> forall p :: !DependencyCycle(files, owner, p)
  {
    hide IsContraction, CyclesAreReported, DependencyCyclesAreReported, OnCycle, OnDependencyCycle, Acyclic,
      DependencyCycle;
    var c, features := ContractToFeatures(files, keys, owner);
    errors := ReportCycles(c, features);
    ReportsTell(files, owner, c, errors);
    NoDependencyCycleReported(files, owner, errors);
  }

  /** Without a dependency cycle, no two features import each other, be it through other features and
      through files that belong to none. */
  lemma NothingIsHidden<V(!new), F(!new)>(files: Graph<V>, owner: V -> Option<F>, c: Graph<F>, v: V, w: V, w': V, v': V)
    requires IsContraction(files, owner, c) && forall p :: !DependencyCycle(files, owner, p)
    requires v in files && w' in files && owner(v).Some? && owner(w).Some? && owner(v) != owner(w)
    requires owner(v') == owner(v) && owner(w') == owner(w) && Reaches(files, v, w)
    ensures !Reaches(files, w', v')
  {
    if Reaches(files, w', v') {
      MutualImportsAreACycle(files, owner, c, owner(v).value, owner(w).value, v, w, w', v');
      var p :| IsCycle(c, p);
      CyclesAreDependencyCycles(files, owner, c, p);
    }
  }
}
