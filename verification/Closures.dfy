/** Two worklists that follow edges to the end: `staticClosure` of `scripts/checks/check-bundle-budget.ts`
    and the set of affected scripts in `scripts/checks/classify-changes.ts`. */
module Closures {
  import opened Lists
  import opened Graphs

  /** What a list of starting points reaches. */
  ghost predicate Reached<V(!new)>(g: Graph<V>, starts: seq<V>, x: V) {
    exists a :: a in starts && Reaches(g, a, x)
  }

  lemma StartIsReached<V(!new)>(g: Graph<V>, starts: seq<V>, a: V)
    requires a in starts
    ensures Reached(g, starts, a)
  {
    ReachesSelf(g, a);
  }

  lemma NextIsReached<V(!new)>(g: Graph<V>, starts: seq<V>, x: V, y: V)
    requires Reached(g, starts, x) && y in Succ(g, x)
    ensures Reached(g, starts, y)
  {
    var a :| a in starts && Reaches(g, a, x);
    ReachesNext(g, a, x, y);
  }

  /** A closed set that holds the starting points and only what they reach is what they reach. */
  lemma ClosedIsReached<V(!new)>(g: Graph<V>, starts: seq<V>, s: set<V>, x: V)
    requires Closed(g, s) && (forall a | a in starts :: a in s) && (forall v | v in s :: Reached(g, starts, v))
    ensures x in s <==> Reached(g, starts, x)
  {
    if Reached(g, starts, x) {
      var a :| a in starts && Reaches(g, a, x);
      ClosedHoldsReached(g, s, a, x);
    }
  }

  // --- staticClosure ----------------------------------------------------------------------------------

  datatype Entry = Entry(file: string, css: seq<string>, imports: seq<string>)
  datatype Closure = Files(files: set<string>) | Missing(key: string)

  type Manifest = map<string, Entry>

  function Imports(manifest: Manifest): Graph<string> {
    map key | key in manifest :: manifest[key].imports
  }

  function FilesOf(entry: Entry): set<string> {
    {entry.file} + set css | css in entry.css
  }

  /** What the closure holds of an entry, and what it follows. */
  lemma EntriesAre(manifest: Manifest, key: string, f: string)
    ensures f in Succ(Imports(manifest), key) <==> key in manifest && f in manifest[key].imports
    ensures key in manifest ==> (f in FilesOf(manifest[key]) <==> f == manifest[key].file || f in manifest[key].css)
  {
  }

  /** Where the loop stands: `seen` is reached, known and its imports are seen or queued. */
  ghost predicate Queueing(manifest: Manifest, keys: seq<string>, seen: set<string>, queue: seq<string>) {
    && seen <= manifest.Keys
    && (forall x | x in seen || x in queue :: Reached(Imports(manifest), keys, x))
    && (forall a | a in keys :: a in seen || a in queue)
    && (forall x, y | x in seen && y in Succ(Imports(manifest), x) :: y in seen || y in queue)
  }

  lemma QueueingStart(manifest: Manifest, keys: seq<string>)
    ensures Queueing(manifest, keys, {}, keys)
  {
    forall x | x in keys ensures Reached(Imports(manifest), keys, x) {
      StartIsReached(Imports(manifest), keys, x);
    }
  }

  lemma QueueingDrop(manifest: Manifest, keys: seq<string>, seen: set<string>, key: string, queue: seq<string>)
    requires Queueing(manifest, keys, seen, [key] + queue) && key in seen
    ensures Queueing(manifest, keys, seen, queue)
  {
    assert forall x :: x in [key] + queue <==> x == key || x in queue;
  }

  lemma QueueingNext(manifest: Manifest, keys: seq<string>, seen: set<string>, key: string, queue: seq<string>)
    requires Queueing(manifest, keys, seen, [key] + queue) && key in manifest
    ensures Queueing(manifest, keys, seen + {key}, queue + manifest[key].imports)
  {
    var g := Imports(manifest);
    assert forall x :: x in [key] + queue <==> x == key || x in queue;
    assert Succ(g, key) == manifest[key].imports;
    forall y | y in Succ(g, key) ensures Reached(g, keys, y) {
      NextIsReached(g, keys, key, y);
    }
  }

  lemma QueueingDone(manifest: Manifest, keys: seq<string>, seen: set<string>)
    requires Queueing(manifest, keys, seen, [])
    ensures forall x :: x in seen <==> Reached(Imports(manifest), keys, x)
  {
    forall x ensures x in seen <==> Reached(Imports(manifest), keys, x) {
      ClosedIsReached(Imports(manifest), keys, seen, x);
    }
  }

  /** `files` are the files of the keys in `seen`. */
  ghost predicate Gathered(manifest: Manifest, seen: set<string>, files: set<string>) {
    forall f :: f in files <==> exists key :: key in manifest && key in seen && f in FilesOf(manifest[key])
  }

  lemma GatheredStart(manifest: Manifest)
    ensures Gathered(manifest, {}, {})
  {
  }

  lemma GatheredNext(manifest: Manifest, seen: set<string>, files: set<string>, key: string)
    requires Gathered(manifest, seen, files) && key in manifest
    ensures Gathered(manifest, seen + {key}, files + FilesOf(manifest[key]))
  {
  }

  lemma QueuedIsReached(manifest: Manifest, keys: seq<string>, seen: set<string>, key: string, queue: seq<string>)
    requires Queueing(manifest, keys, seen, [key] + queue)
    ensures Reached(Imports(manifest), keys, key)
  {
    assert key in [key] + queue;
  }

  /** What the loop has gathered when nothing is queued any more. */
  lemma ClosureDone(manifest: Manifest, keys: seq<string>, seen: set<string>, files: set<string>)
    requires Queueing(manifest, keys, seen, []) && Gathered(manifest, seen, files)
    ensures forall key | Reached(Imports(manifest), keys, key) :: key in manifest
    ensures forall f :: f in files <==>
      exists key :: key in manifest && Reached(Imports(manifest), keys, key) && f in FilesOf(manifest[key])
  {
    hide Reached, Imports, FilesOf;
    QueueingDone(manifest, keys, seen);
  }

  lemma QueueingBounds(manifest: Manifest, keys: seq<string>, seen: set<string>, queue: seq<string>)
    requires Queueing(manifest, keys, seen, queue)
    ensures seen <= manifest.Keys
  {
  }

  /** The files of exactly the keys that are reached, or an error exactly when one of them is unknown. */
  method StaticClosure(manifest: Manifest, keys: seq<string>) returns (closure: Closure)
    ensures closure.Files? <==> forall key | Reached(Imports(manifest), keys, key) :: key in manifest
    ensures closure.Files? ==> forall f :: f in closure.files <==>
      exists key :: key in manifest && Reached(Imports(manifest), keys, key) && f in FilesOf(manifest[key])
    ensures closure.Missing? ==> Reached(Imports(manifest), keys, closure.key) && closure.key !in manifest
  {
    var files: set<string>, seen: set<string>, queue := {}, {}, keys;
    GatheredStart(manifest);
    hide Queueing, Gathered, Reached, Imports, FilesOf;
    QueueingStart(manifest, keys);
    while queue != []
      invariant Queueing(manifest, keys, seen, queue) && Gathered(manifest, seen, files)
      decreases |manifest.Keys - seen|, |queue|
    {
      var key := queue[0];
      assert queue == [key] + queue[1..];
      queue := queue[1..];
      if key in seen {
        QueueingDrop(manifest, keys, seen, key, queue);
      } else if key !in manifest {
        QueuedIsReached(manifest, keys, seen, key, queue);
        return Missing(key);
      } else {
        QueueingBounds(manifest, keys, seen, [key] + queue);
        Shrinks(manifest.Keys, seen, seen + {key}, key);
        QueueingNext(manifest, keys, seen, key, queue);
        GatheredNext(manifest, seen, files, key);
        seen := seen + {key};
        files := files + FilesOf(manifest[key]);
        queue := queue + manifest[key].imports;
      }
    }
    ClosureDone(manifest, keys, seen, files);
    closure := Files(files);
  }

  // --- The scripts a change affects -------------------------------------------------------------------

  /** A script of `package.json` before or after the change, with the scripts its command runs. */
  datatype Script = Script(caller: string, runs: set<string>)

  /** The callers of `name`, in the order of the list. */
  function Callers(scripts: seq<Script>, name: string): (r: seq<string>)
    ensures forall c :: c in r <==> exists s :: s in scripts && s.caller == c && name in s.runs
  {
    if scripts == [] then []
    else
      var rest := Callers(scripts[1..], name);
      assert forall s :: s in scripts <==> s == scripts[0] || s in scripts[1..];
      if name in scripts[0].runs then [scripts[0].caller] + rest else rest
  }

  function Names(scripts: seq<Script>): (r: set<string>)
    ensures forall s | s in scripts :: s.caller in r && s.runs <= r
  {
    if scripts == [] then {}
    else
      assert forall s :: s in scripts <==> s == scripts[0] || s in scripts[1..];
      {scripts[0].caller} + scripts[0].runs + Names(scripts[1..])
  }

  /** From every script to the scripts that run it. */
  function CallGraph(scripts: seq<Script>): Graph<string> {
    map name | name in Names(scripts) :: Callers(scripts, name)
  }

  lemma CallGraphIsCallers(scripts: seq<Script>, name: string, c: string)
    ensures c in Succ(CallGraph(scripts), name) <==> exists s :: s in scripts && s.caller == c && name in s.runs
  {
  }

  /** The inner loop: adds to the set every script that runs `name`. A set keeps its first occurrence. */
  method AddCallers(scripts: seq<Script>, name: string, before: seq<string>) returns (changed: seq<string>)
    ensures before <= changed
    ensures forall x :: x in changed <==> x in before || x in Callers(scripts, name)
    ensures Distinct(before) ==> Distinct(changed)
  {
    changed := before;
    var n := 0;
    while n < |scripts|
      invariant 0 <= n <= |scripts|
      invariant before <= changed && (Distinct(before) ==> Distinct(changed))
      invariant forall x :: x in changed <==>
        x in before || exists i :: 0 <= i < n && scripts[i].caller == x && name in scripts[i].runs
    {
      if name in scripts[n].runs && scripts[n].caller !in changed {
        changed := changed + [scripts[n].caller];
      }
      n := n + 1;
    }
  }

  /** `changed` grows while it is walked over: what is before `n` has been walked over. */
  ghost predicate Growing(scripts: seq<Script>, starts: seq<string>, changed: seq<string>, n: nat) {
    && n <= |changed|
    && Distinct(changed)
    && (forall a | a in starts :: a in changed)
    && (forall x | x in changed :: x in starts || x in Names(scripts))
    && (forall x | x in changed :: Reached(CallGraph(scripts), starts, x))
    && (forall i, y | 0 <= i < n && y in Succ(CallGraph(scripts), changed[i]) :: y in changed)
  }

  lemma GrowingNext(scripts: seq<Script>, starts: seq<string>, changed: seq<string>, n: nat, more: seq<string>)
    requires Growing(scripts, starts, changed, n) && n < |changed| && changed <= more && Distinct(more)
    requires forall x :: x in more <==> x in changed || x in Callers(scripts, changed[n])
    ensures Growing(scripts, starts, more, n + 1)
  {
    hide Callers, Names, CallGraph, Succ, Reached;
    var g := CallGraph(scripts);
    forall x ensures x in Callers(scripts, changed[n]) <==> x in Succ(g, changed[n]) {
      CallersAreNext(scripts, changed[n], x);
    }
    forall x | x in more ensures Reached(g, starts, x) && (x in starts || x in Names(scripts)) {
      if x !in changed {
        NextIsReached(g, starts, changed[n], x);
        CallersAreNames(scripts, changed[n], x);
      }
    }
    forall i, y | 0 <= i < n + 1 && y in Succ(g, more[i]) ensures y in more {
      assert more[i] == changed[i];
    }
  }

  lemma CallersAreNext(scripts: seq<Script>, name: string, x: string)
    ensures x in Callers(scripts, name) <==> x in Succ(CallGraph(scripts), name)
  {
    CallGraphIsCallers(scripts, name, x);
  }

  lemma CallersAreNames(scripts: seq<Script>, name: string, x: string)
    requires x in Callers(scripts, name)
    ensures x in Names(scripts)
  {
  }

  lemma GrowingStart(scripts: seq<Script>, starts: seq<string>)
    requires Distinct(starts)
    ensures Growing(scripts, starts, starts, 0)
  {
    forall x | x in starts ensures Reached(CallGraph(scripts), starts, x) {
      StartIsReached(CallGraph(scripts), starts, x);
    }
  }

  lemma GrowingDone(scripts: seq<Script>, starts: seq<string>, changed: seq<string>)
    requires Growing(scripts, starts, changed, |changed|)
    ensures forall x :: x in changed <==> Reached(CallGraph(scripts), starts, x)
  {
    var s := set x | x in changed;
    forall x ensures x in changed <==> Reached(CallGraph(scripts), starts, x) {
      ClosedIsReached(CallGraph(scripts), starts, s, x);
    }
  }

  lemma {:induction false} DistinctIsBounded<V>(s: seq<V>, all: set<V>)
    requires Distinct(s) && forall x | x in s :: x in all
    ensures |s| <= |all|
    decreases |s|
  {
    if s != [] {
      var rest := s[..|s| - 1];
      assert s[|s| - 1] !in rest;
      DistinctIsBounded(rest, all - {s[|s| - 1]});
    }
  }

  /** Exactly the scripts that run a changed script, directly or through others, and the changed ones. */
  method AffectedScripts(scripts: seq<Script>, starts: seq<string>) returns (changed: seq<string>)
    requires Distinct(starts)
    ensures Distinct(changed) && starts <= changed
    ensures forall x :: x in changed <==> Reached(CallGraph(scripts), starts, x)
  {
    changed := starts;
    GrowingStart(scripts, starts);
    ghost var all := Names(scripts) + set x | x in starts;
    var n := 0;
    DistinctIsBounded(changed, all);
    while n < |changed|
      invariant Growing(scripts, starts, changed, n) && starts <= changed && |changed| <= |all|
      decreases |all| - n
    {
      var more := AddCallers(scripts, changed[n], changed);
      GrowingNext(scripts, starts, changed, n, more);
      changed := more;
      DistinctIsBounded(changed, all);
      n := n + 1;
    }
    GrowingDone(scripts, starts, changed);
  }
}
