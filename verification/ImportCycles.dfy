/** `findCycle` of `scripts/checks/check-rust-boundaries.ts`: a depth-first search for an import cycle. */
module ImportCycles {
  import opened Lists
  import opened Graphs

  class CycleFinder<V(==, !new)> {
    const graph: Graph<V>
    ghost const vertices: set<V>
    var visited: set<V>
    var stack: seq<V>
    var onStack: set<V>
    /** The vertices the search has left for good, ranked in the order in which it left them. */
    ghost var rank: map<V, nat>

    ghost predicate Valid()
      reads this
    {
      && vertices == Vertices(graph)
      && Distinct(stack)
      && (stack != [] ==> IsWalk(graph, stack))
      && Ranked(graph, rank)
      // A vertex was visited exactly when it is on the stack or has been left.
      && visited <= vertices
      && forall v ::
        && (v in onStack <==> v in stack)
        && (v in visited <==> v in onStack || v in rank)
        && !(v in onStack && v in rank)
    }

    constructor (graph: Graph<V>)
      ensures Valid() && this.graph == graph && stack == [] && rank == map[]
    {
      this.graph := graph;
      vertices := Vertices(graph);
      visited, stack, onStack, rank := {}, [], {}, map[];
    }

    /** Visits `file`; an empty result is the source's `null`. */
    method Visit(file: V) returns (cycle: seq<V>)
      requires Valid() && file in vertices
      requires stack != [] ==> file in Succ(graph, stack[|stack| - 1])
      modifies this
      ensures cycle != [] ==> IsCycle(graph, cycle)
      ensures cycle == [] ==> Valid() && stack == old(stack) && file in rank.Keys
      ensures cycle == [] ==> old(rank.Keys) <= rank.Keys && old(visited) <= visited
      decreases |vertices - visited|, 0
    {
      hide Distinct, IsWalk, Ranked, IsCycle, Vertices;
      if file in onStack {
        cycle := Closing(file);
      } else if file in visited {
        cycle := [];
      } else {
        Enter(file);
        Shrinks(vertices, old(visited), visited, file);
        cycle := VisitTargets(file);
        if cycle == [] {
          Leave(file);
        }
      }
    }

    /** The loop over the imports of `file`, which is on top of the stack. */
    method VisitTargets(file: V) returns (cycle: seq<V>)
      requires Valid() && stack != [] && stack[|stack| - 1] == file
      modifies this
      ensures cycle != [] ==> IsCycle(graph, cycle)
      ensures cycle == [] ==> Valid() && stack == old(stack) && AllIn(Succ(graph, file), rank.Keys)
      ensures cycle == [] ==> old(rank.Keys) <= rank.Keys && old(visited) <= visited
      decreases |vertices - visited|, 1
    {
      hide Distinct, IsWalk, Ranked, IsCycle, Vertices;
      var targets := Succ(graph, file);
      var n := 0;
      cycle := [];
      while n < |targets| && cycle == []
        invariant 0 <= n <= |targets|
        invariant cycle != [] ==> IsCycle(graph, cycle)
        invariant cycle == [] ==> Valid() && stack == old(stack) && AllIn(targets[..n], rank.Keys)
        invariant cycle == [] ==> old(rank.Keys) <= rank.Keys && old(visited) <= visited
        decreases |targets| - n
      {
        ghost var ranked := rank.Keys;
        NotMore(vertices, old(visited), visited);
        SuccIsVertex(graph, file, targets[n]);
        cycle := Visit(targets[n]);
        if cycle == [] {
          AllInNext(targets, n, ranked, rank.Keys);
        }
        n := n + 1;
      }
      assert n == |targets| ==> targets[..n] == targets;
    }

    /** The stack from `file` on, and `file` again. */
    method Closing(file: V) returns (cycle: seq<V>)
      requires Valid() && file in onStack && stack != [] && file in Succ(graph, stack[|stack| - 1])
      ensures IsCycle(graph, cycle)
    {
      var at := IndexOf(stack, file);
      StackClosesCycle(graph, stack, at, file);
      cycle := stack[at..] + [file];
    }

    method Enter(file: V)
      requires Valid() && file in vertices && file !in visited
      requires stack != [] ==> file in Succ(graph, stack[|stack| - 1])
      modifies this
      ensures Valid() && stack == old(stack) + [file] && visited == old(visited) + {file} && rank == old(rank)
    {
      if stack != [] {
        WalkExtend(graph, stack, file);
      }
      visited := visited + {file};
      onStack := onStack + {file};
      stack := stack + [file];
    }

    method Leave(file: V)
      requires Valid() && stack != [] && stack[|stack| - 1] == file
      requires AllIn(Succ(graph, file), rank.Keys)
      modifies this
      ensures Valid() && stack == old(stack)[..|old(stack)| - 1] && visited == old(visited)
      ensures rank.Keys == old(rank.Keys) + {file}
    {
      ghost var height := RankAbove(rank);
      stack := stack[..|stack| - 1];
      onStack := onStack - {file};
      rank := rank[file := height];
    }
  }

  /** `keys` lists the files of the graph in the order in which they were put there. The result is a
      closed walk along imports, or empty, and then no such walk exists. */
  method FindCycle<V(==, !new)>(graph: Graph<V>, keys: seq<V>) returns (cycle: seq<V>)
    requires forall v :: v in keys <==> v in graph
    ensures cycle != [] ==> IsCycle(graph, cycle)
    ensures cycle == [] <==> Acyclic(graph)
  {
    var finder := new CycleFinder(graph);
    var n := 0;
    while n < |keys|
      invariant 0 <= n <= |keys|
      invariant finder.Valid() && finder.graph == graph && finder.stack == []
      invariant forall i | 0 <= i < n :: keys[i] in finder.rank
    {
      assert keys[n] in keys;
      cycle := finder.Visit(keys[n]);
      if cycle != [] {
        return;
      }
      n := n + 1;
    }
    RankedIsAcyclic(graph, finder.rank);
    cycle := [];
  }
}
