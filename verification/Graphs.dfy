/** Walks and reachability in a finite directed graph given by its lists of successors. */
module Graphs {

  type Graph<V> = map<V, seq<V>>

  /** A vertex the map does not know has no successors. */
  function Succ<V>(g: Graph<V>, v: V): seq<V> {
    if v in g then g[v] else []
  }

  /** The edges are those the map lists. */
  lemma EdgesAre<V>(g: Graph<V>, v: V, t: V)
    ensures t in Succ(g, v) <==> v in g && t in g[v]
  {
  }

  ghost predicate IsWalk<V>(g: Graph<V>, p: seq<V>) {
    |p| > 0 && forall i | 0 <= i < |p| - 1 :: p[i + 1] in Succ(g, p[i])
  }

  ghost predicate WalkFromTo<V>(g: Graph<V>, p: seq<V>, a: V, b: V) {
    IsWalk(g, p) && p[0] == a && p[|p| - 1] == b
  }

  ghost predicate Reaches<V(!new)>(g: Graph<V>, a: V, b: V) {
    exists p :: WalkFromTo(g, p, a, b)
  }

  /** A walk of at least one edge that ends where it begins. */
  ghost predicate IsCycle<V>(g: Graph<V>, p: seq<V>) {
    IsWalk(g, p) && |p| >= 2 && p[0] == p[|p| - 1]
  }

  ghost predicate Acyclic<V(!new)>(g: Graph<V>) {
    forall p :: !IsCycle(g, p)
  }

  /** Every vertex the graph mentions. */
  function Vertices<V>(g: Graph<V>): set<V> {
    g.Keys + set v, t | v in g && t in g[v] :: t
  }

  lemma SuccIsVertex<V>(g: Graph<V>, v: V, t: V)
    requires t in Succ(g, v)
    ensures t in Vertices(g)
  {
  }

  ghost predicate Closed<V>(g: Graph<V>, s: set<V>) {
    forall v, t | v in s && t in Succ(g, v) :: t in s
  }

  lemma WalkSuffix<V>(g: Graph<V>, p: seq<V>, i: nat)
    requires IsWalk(g, p) && i < |p|
    ensures IsWalk(g, p[i..])
  {
    var q := p[i..];
    forall j | 0 <= j < |q| - 1 ensures q[j + 1] in Succ(g, q[j]) {
      assert p[i + j + 1] in Succ(g, p[i + j]);
    }
  }

  lemma WalkExtend<V>(g: Graph<V>, p: seq<V>, t: V)
    requires IsWalk(g, p) && t in Succ(g, p[|p| - 1])
    ensures IsWalk(g, p + [t])
  {
    var q := p + [t];
    forall j | 0 <= j < |q| - 1 ensures q[j + 1] in Succ(g, q[j]) {
      if j < |p| - 1 {
        assert p[j + 1] in Succ(g, p[j]);
      }
    }
  }

  lemma WalkJoin<V>(g: Graph<V>, p: seq<V>, q: seq<V>)
    requires IsWalk(g, p) && IsWalk(g, q) && p[|p| - 1] == q[0]
    ensures WalkFromTo(g, p + q[1..], p[0], q[|q| - 1])
  {
    var r := p + q[1..];
    forall j | 0 <= j < |r| - 1 ensures r[j + 1] in Succ(g, r[j]) {
      if j < |p| - 1 {
        assert p[j + 1] in Succ(g, p[j]);
      } else {
        assert q[j - |p| + 2] in Succ(g, q[j - |p| + 1]);
      }
    }
  }

  /** Reachability is a matter of the edges, not of the order in which they are listed. */
  lemma ReachesAlike<V(!new)>(g: Graph<V>, h: Graph<V>, a: V, b: V)
    requires forall v, t :: t in Succ(g, v) <==> t in Succ(h, v)
    ensures Reaches(g, a, b) <==> Reaches(h, a, b)
  {
    if p :| WalkFromTo(g, p, a, b) {
      assert WalkFromTo(h, p, a, b);
    }
    if p :| WalkFromTo(h, p, a, b) {
      assert WalkFromTo(g, p, a, b);
    }
  }

  lemma ReachesSelf<V(!new)>(g: Graph<V>, a: V)
    ensures Reaches(g, a, a)
  {
    assert WalkFromTo(g, [a], a, a);
  }

  lemma ReachesNext<V(!new)>(g: Graph<V>, a: V, b: V, c: V)
    requires Reaches(g, a, b) && c in Succ(g, b)
    ensures Reaches(g, a, c)
  {
    var p :| WalkFromTo(g, p, a, b);
    WalkExtend(g, p, c);
    assert WalkFromTo(g, p + [c], a, c);
  }

  /** A closed set holds everything that its members reach. */
  lemma {:induction false} ClosedHoldsWalks<V>(g: Graph<V>, s: set<V>, p: seq<V>)
    requires Closed(g, s) && IsWalk(g, p) && p[0] in s
    ensures p[|p| - 1] in s
    decreases |p|
  {
    if |p| > 1 {
      assert p[1] in Succ(g, p[0]);
      WalkSuffix(g, p, 1);
      ClosedHoldsWalks(g, s, p[1..]);
    }
  }

  lemma ClosedHoldsReached<V(!new)>(g: Graph<V>, s: set<V>, a: V, b: V)
    requires Closed(g, s) && a in s && Reaches(g, a, b)
    ensures b in s
  {
    var p :| WalkFromTo(g, p, a, b);
    ClosedHoldsWalks(g, s, p);
  }

  // --- Acyclicity by ranks --------------------------------------------------------------------------

  /** Every ranked vertex has only ranked successors, all of smaller rank. */
  ghost predicate Ranked<V>(g: Graph<V>, rank: map<V, nat>) {
    forall v, t | v in rank && t in Succ(g, v) :: t in rank && rank[t] < rank[v]
  }

  lemma {:induction false} WalkDescends<V>(g: Graph<V>, rank: map<V, nat>, p: seq<V>)
    requires Ranked(g, rank) && IsWalk(g, p) && p[0] in rank
    ensures p[|p| - 1] in rank && rank[p[|p| - 1]] + |p| - 1 <= rank[p[0]]
    decreases |p|
  {
    if |p| > 1 {
      assert p[1] in Succ(g, p[0]);
      WalkSuffix(g, p, 1);
      WalkDescends(g, rank, p[1..]);
    }
  }

  lemma RankedIsAcyclic<V(!new)>(g: Graph<V>, rank: map<V, nat>)
    requires Ranked(g, rank) && g.Keys <= rank.Keys
    ensures Acyclic(g)
  {
    forall p ensures !IsCycle(g, p) {
      if IsCycle(g, p) {
        assert p[1] in Succ(g, p[0]);
        WalkDescends(g, rank, p);
      }
    }
  }

  // --- Searches terminate ---------------------------------------------------------------------------

  lemma Shrinks<V>(all: set<V>, before: set<V>, now: set<V>, v: V)
    requires before <= now && v in now && v !in before && v in all
    ensures |all - now| < |all - before|
  {
    assert all - now < all - before;
    SubsetIsSmaller(all - now, all - before);
  }

  lemma NotMore<V>(all: set<V>, before: set<V>, now: set<V>)
    requires before <= now
    ensures |all - now| <= |all - before|
  {
    if all - now != all - before {
      SubsetIsSmaller(all - now, all - before);
    }
  }

  lemma SubsetIsSmaller<V>(a: set<V>, b: set<V>)
    requires a < b
    ensures |a| < |b|
  {
    assert |b| == |a| + |b - a| by {
      assert b == a + (b - a);
    }
  }

  // --- Depth-first search -----------------------------------------------------------------------------

  function IndexOf<V(==)>(s: seq<V>, v: V): (i: nat)
    requires v in s
    ensures i < |s| && s[i] == v
  {
    if s[0] == v then 0 else 1 + IndexOf(s[1..], v)
  }

  ghost predicate AllIn<V>(s: seq<V>, all: set<V>) {
    forall v | v in s :: v in all
  }

  lemma AllInNext<V>(s: seq<V>, n: nat, before: set<V>, now: set<V>)
    requires n < |s| && AllIn(s[..n], before) && before <= now && s[n] in now
    ensures AllIn(s[..n + 1], now)
  {
    assert s[..n + 1] == s[..n] + [s[n]];
  }

  lemma StackClosesCycle<V>(g: Graph<V>, stack: seq<V>, at: nat, file: V)
    requires IsWalk(g, stack) && file in Succ(g, stack[|stack| - 1])
    requires at < |stack| && stack[at] == file
    ensures IsCycle(g, stack[at..] + [file])
  {
    WalkSuffix(g, stack, at);
    WalkExtend(g, stack[at..], file);
  }

  ghost function RankAbove<V>(rank: map<V, nat>): (n: nat)
    ensures forall v | v in rank :: rank[v] < n
  {
    if rank == map[] then 0
    else
      var v :| v in rank;
      var rest := rank - {v};
      var n := RankAbove(rest);
      assert forall w | w in rank :: w == v || w in rest;
      if rank[v] < n then n else rank[v] + 1
  }
}
