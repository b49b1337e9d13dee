/** What every run of the settings persister keeps. */
module PersisterSafety {
  import opened Options
  import opened PersisterModel

  // --- Merging patches ----------------------------------------------------------------------------------

  /** All patches merged in order, later values winning. */
  function Merge(h: seq<Patch>): Patch {
    if h == [] then map[] else Merge(h[..|h| - 1]) + h[|h| - 1]
  }

  lemma PlusAssociates(a: Patch, b: Patch, c: Patch)
    ensures a + b + c == a + (b + c)
  {
  }

  lemma PlusAgain(a: Patch, b: Patch, c: Patch)
    ensures a + b + (b + c) == a + b + c
  {
  }

  lemma {:induction false} MergeConcat(a: seq<Patch>, b: seq<Patch>)
    ensures Merge(a + b) == Merge(a) + Merge(b)
    decreases |b|
  {
    if b == [] {
      assert a + b == a;
    } else {
      MergeConcat(a, b[..|b| - 1]);
      assert (a + b)[..|a + b| - 1] == a + b[..|b| - 1];
      PlusAssociates(Merge(a), Merge(b[..|b| - 1]), b[|b| - 1]);
    }
  }

  lemma MergeSplit(h: seq<Patch>, i: nat, j: nat, k: nat)
    requires i <= j <= k <= |h|
    ensures Merge(h[i..k]) == Merge(h[i..j]) + Merge(h[j..k])
  {
    MergeConcat(h[i..j], h[j..k]);
    assert h[i..j] + h[j..k] == h[i..k];
  }

  /** Merging in patches that were merged in before, together with those that follow them. */
  lemma MergeOverlap(h: seq<Patch>, from: nat, kept: nat, to: nat)
    requires from <= kept <= to <= |h|
    ensures Merge(h[..to]) == Merge(h[..kept]) + Merge(h[from..to])
  {
    MergeSplit(h, 0, from, kept);
    MergeSplit(h, from, kept, to);
    MergeSplit(h, 0, kept, to);
    assert h[0..from] == h[..from] && h[0..kept] == h[..kept] && h[0..to] == h[..to];
    PlusAgain(Merge(h[..from]), Merge(h[from..kept]), Merge(h[kept..to]));
  }

  lemma {:induction false} MergeOfSomething(h: seq<Patch>)
    requires forall p | p in h :: p != map[]
    ensures Merge(h) == map[] <==> h == []
  {
    if h != [] {
      var last := h[|h| - 1];
      assert last in h && last != map[];
      var k :| k in last;
      assert k in Merge(h);
    }
  }

  lemma TailMerge(h: seq<Patch>, k: nat)
    requires k <= |h| && forall p | p in h :: p != map[]
    ensures Merge(h[k..]) == map[] <==> k == |h|
  {
    forall p | p in h[k..] ensures p != map[] {
      assert p in h;
    }
    MergeOfSomething(h[k..]);
  }

  lemma MergeNext(h: seq<Patch>, from: nat, p: Patch)
    requires from <= |h|
    ensures Merge((h + [p])[from..]) == Merge(h[from..]) + p
  {
    assert (h + [p])[from..] == h[from..] + [p];
    assert (h[from..] + [p])[..|h| - from] == h[from..];
  }

  // --- The invariant --------------------------------------------------------------------------------------

  /** How far the history has come: the first `kept` patches are stored; `pending` holds those from `to` on;
      a write in flight carries those from `from` to `to`. Of the drain that runs, `first` is the revision
      at its start and `writes` the number of its writes. `swallowed`: the last flush was late. No step
      depends on any of these. */
  datatype Cut = Cut(from: nat, to: nat, kept: nat, first: nat, writes: nat, swallowed: bool)

  ghost predicate Flying(s: State) {
    s.writing.Some? && s.writing.value in s.drains && s.drains[s.writing.value].Waiting?
  }

  function InFlight(s: State): Patch {
    if s.writing.Some? && s.writing.value in s.drains && s.drains[s.writing.value].Waiting?
    then s.drains[s.writing.value].patch else map[]
  }

  /** At most one drain is there, and `writing` is its promise. */
  ghost predicate OneDrain(s: State) {
    match s.writing
    case None => s.drains == map[]
    case Some(d) => s.drains.Keys == {d} && d + 1 == s.started
  }

  ghost predicate Cuts(s: State, c: Cut) {
    && c.from <= c.kept <= |s.history| && c.from <= c.to <= |s.history|
    && (forall p | p in s.history :: p != map[])
    && s.stored == Merge(s.history[..c.kept])
    && s.pending == Merge(s.history[c.to..])
    && if Flying(s) then
         var w := s.drains[s.writing.value];
         w.patch == Merge(s.history[c.from..c.to]) && c.from < c.to && c.kept <= c.to && (w.applied ==> c.kept == c.to)
       else c.from == c.to
  }

  ghost predicate Revisions(s: State, c: Cut) {
    && c.first <= s.revision && c.writes <= 1 + s.revision - c.first
    && (Flying(s) ==>
         var sent := s.drains[s.writing.value].sentRevision;
         c.first <= sent <= s.revision && c.writes <= 1 + sent - c.first && (s.pending != map[] ==> sent < s.revision))
  }

  /** The drain whose promise a flush returned tells what became of the flush. */
  ghost predicate FlushOk(s: State, c: Cut, f: Flush) {
    && f.drain < s.started && f.mark <= |s.history|
    && (f.drain in s.settled <==> s.writing != Some(f.drain))
    && (f.late && Flying(s) ==> s.writing != Some(f.drain))
    && (f.drain in s.settled && s.settled[f.drain] == Fulfilled && !f.late ==> f.mark <= c.kept)
    && (s.writing == Some(f.drain) && f.drain in s.drains && s.drains[f.drain] == Ended(Fulfilled)
        ==> (f.mark <= c.kept <==> !f.late))
  }

  ghost predicate Flushes(s: State, c: Cut)
    requires OneDrain(s)
  {
    && (forall d: nat :: d in s.settled <==> d < s.started && s.writing != Some(d))
    && (forall f | f in s.flushes :: FlushOk(s, c, f))
  }

  /** When patches wait and nothing will send them. */
  ghost predicate Stranded(s: State) {
    s.pending != map[] && !s.timer && !Flying(s) && !s.reported
  }

  predicate EndedWell(s: State) {
    s.writing.Some? && s.writing.value in s.drains && s.drains[s.writing.value] == Ended(Fulfilled)
  }

  ghost predicate Wakeups(s: State, c: Cut) {
    && (Stranded(s) <==> c.swallowed)
    && (EndedWell(s) ==> !s.reported && c.kept == c.to)
    && (s.writing.Some? && !Flying(s) && !EndedWell(s) ==> s.reported)
    && (s.reported && !Flying(s) ==> s.pending != map[])
  }

  ghost predicate Inv(s: State, c: Cut) {
    OneDrain(s) && Cuts(s, c) && Revisions(s, c) && Flushes(s, c) && Wakeups(s, c)
  }

  const START := Cut(0, 0, 0, 0, 0, false)

  /** The cut after the drain loop of `s`, which sends everything pending. */
  function LoopCut(s: State, c: Cut): Cut {
    if s.pending != map[] then c.(from := c.to, to := |s.history|, writes := c.writes + 1) else c.(from := c.to)
  }

  function NextCut(s: State, c: Cut, e: Event): Cut
    requires Enabled(s, e)
  {
    match e
    case Persist(_) => c.(swallowed := false)
    case CallFlush => FlushCut(s, c)
    case TimerFires => FlushCut(s, c)
    case Applies(_) => c.(kept := c.to)
    case Answers(d, ok) =>
      if ok then LoopCut(s, c)
      else if s.revision == s.drains[d].sentRevision then c.(to := c.from)
      else c.(to := |s.history|, writes := c.writes + 1)
    case Finally(_) => c
  }

  function FlushCut(s: State, c: Cut): Cut {
    if s.writing == None then LoopCut(s, c.(first := s.revision, writes := 0, swallowed := false))
    else c.(swallowed := EndedWell(s) && s.pending != map[])
  }

  // --- Every step keeps it --------------------------------------------------------------------------------

  /** Patches are pending exactly when some come after `to`. */
  lemma PendingMeans(s: State, c: Cut)
    requires Cuts(s, c)
    ensures s.pending == map[] <==> c.to == |s.history|
  {
    TailMerge(s.history, c.to);
  }

  lemma PersistKeepsCuts(s: State, c: Cut, patch: Patch)
    requires Inv(s, c)
    ensures Cuts(DoPersist(s, patch), c)
  {
    hide Merge, Revisions, Flushes, Wakeups;
    var t := DoPersist(s, patch);
    assert Flying(t) == Flying(s);
    if patch != map[] {
      MergeNext(s.history, c.to, patch);
      assert t.history[..c.kept] == s.history[..c.kept] && t.history[c.from..c.to] == s.history[c.from..c.to];
    } else {
      assert s.pending + patch == s.pending;
    }
  }

  lemma PersistKeeps(s: State, c: Cut, patch: Patch)
    requires Inv(s, c)
    ensures Inv(DoPersist(s, patch), c.(swallowed := false))
  {
    var t := DoPersist(s, patch);
    PersistKeepsCuts(s, c, patch);
    assert Flying(t) == Flying(s) && EndedWell(t) == EndedWell(s);
    assert s.pending != map[] ==> t.pending != map[] by {
      if s.pending != map[] {
        var k :| k in s.pending;
        assert k in t.pending;
      }
    }
    forall f | f in t.flushes ensures FlushOk(t, c.(swallowed := false), f) {
      assert FlushOk(s, c, f);
    }
  }

  lemma AppliesKeeps(s: State, c: Cut, d: nat)
    requires Inv(s, c) && Enabled(s, Applies(d))
    ensures Inv(Step(s, Applies(d)), NextCut(s, c, Applies(d)))
  {
    var t, c' := Step(s, Applies(d)), NextCut(s, c, Applies(d));
    MergeOverlap(s.history, c.from, c.kept, c.to);
    assert s.writing == Some(d) && Flying(s) && Flying(t);
    forall f | f in t.flushes ensures FlushOk(t, c', f) {
      assert FlushOk(s, c, f);
    }
  }

  lemma FinallyKeeps(s: State, c: Cut, d: nat)
    requires Inv(s, c) && Enabled(s, Finally(d))
    ensures Inv(Step(s, Finally(d)), c)
  {
    var t := Step(s, Finally(d));
    assert s.writing == Some(d) && !Flying(s) && !Flying(t);
    forall f | f in t.flushes ensures FlushOk(t, c, f) {
      assert FlushOk(s, c, f);
    }
  }

  // --- The drain loop -------------------------------------------------------------------------------------

  /** A state in which drain `d` is at the head of its loop: nothing is in flight, `c.to` is where the
      pending patches begin, and of the flushes only those of earlier drains are decided. */
  ghost predicate AtLoop(s: State, c: Cut, d: nat) {
    && s.writing == Some(d) && s.drains.Keys <= {d} && d + 1 == s.started
    && c.to <= c.kept <= |s.history|
    && (forall p | p in s.history :: p != map[])
    && s.stored == Merge(s.history[..c.kept])
    && s.pending == Merge(s.history[c.to..])
    && c.first <= s.revision && c.writes <= s.revision - c.first + (if s.pending != map[] then 0 else 1)
    && (forall x: nat :: x in s.settled <==> x < s.started && x != d)
    && (forall f | f in s.flushes :: LoopFlushOk(s, c, d, f))
  }

  ghost predicate LoopFlushOk(s: State, c: Cut, d: nat, f: Flush) {
    && f.drain < s.started && f.mark <= |s.history|
    && (f.drain in s.settled <==> f.drain != d)
    && (f.drain == d ==> !f.late)
    && (f.drain in s.settled && s.settled[f.drain] == Fulfilled && !f.late ==> f.mark <= c.kept)
  }

  lemma LoopKeeps(s: State, c: Cut, d: nat)
    requires AtLoop(s, c, d) && !c.swallowed && (s.reported ==> s.pending != map[])
    ensures Inv(DrainLoop(s, d), LoopCut(s, c))
  {
    var t, c' := DrainLoop(s, d), LoopCut(s, c);
    TailMerge(s.history, c.to);
    assert s.pending != map[] ==>
      s.history[c.to..|s.history|] == s.history[c.to..] && Merge(t.history[c'.to..]) == map[];
    forall f | f in t.flushes ensures FlushOk(t, c', f) {
      assert LoopFlushOk(s, c, d, f);
    }
  }

  lemma AnswerAtLoop(s: State, c: Cut, d: nat)
    requires Inv(s, c) && Enabled(s, Answers(d, true))
    ensures AtLoop(s.(reported := false), c, d) && !c.swallowed
  {
    assert s.writing == Some(d) && Flying(s);
    forall f | f in s.flushes ensures LoopFlushOk(s.(reported := false), c, d, f) {
      assert FlushOk(s, c, f);
    }
  }

  /** A failed write's patch goes back in front of what was passed meanwhile. */
  lemma FailureRestores(s: State, c: Cut, d: nat)
    requires Inv(s, c) && Enabled(s, Answers(d, false))
    ensures s.drains[d].patch + s.pending == Merge(s.history[c.from..]) != map[]
  {
    assert s.writing == Some(d) && Flying(s);
    MergeSplit(s.history, c.from, c.to, |s.history|);
    assert s.history[c.from..|s.history|] == s.history[c.from..] && s.history[c.to..|s.history|] == s.history[c.to..];
    TailMerge(s.history, c.from);
  }

  lemma FailureAtLoop(s: State, c: Cut, d: nat)
    requires Inv(s, c) && Enabled(s, Answers(d, false)) && s.revision != s.drains[d].sentRevision
    ensures AtLoop(s.(pending := s.drains[d].patch + s.pending, reported := true), c.(to := c.from), d) && !c.swallowed
  {
    var t, c' := s.(pending := s.drains[d].patch + s.pending, reported := true), c.(to := c.from);
    FailureRestores(s, c, d);
    forall f | f in s.flushes ensures LoopFlushOk(t, c', d, f) {
      assert FlushOk(s, c, f);
    }
  }

  lemma FailureEnds(s: State, c: Cut, d: nat)
    requires Inv(s, c) && Enabled(s, Answers(d, false)) && s.revision == s.drains[d].sentRevision
    ensures Inv(DoAnswer(s, d, false), NextCut(s, c, Answers(d, false)))
  {
    hide FlushOk, Merge;
    var t, c' := DoAnswer(s, d, false), c.(to := c.from);
    FailureRestores(s, c, d);
    assert Flying(s) && !Flying(t) && !EndedWell(t);
    forall f | f in s.flushes ensures FlushOk(t, c', f) {
      FailureKeepsFlush(s, c, d, f);
    }
  }

  lemma FailureKeepsFlush(s: State, c: Cut, d: nat, f: Flush)
    requires s.writing == Some(d) && d in s.drains && s.drains[d].Waiting? && d !in s.settled && FlushOk(s, c, f)
    requires s.revision == s.drains[d].sentRevision
    ensures FlushOk(DoAnswer(s, d, false), c.(to := c.from), f)
  {
  }

  lemma SuccessKeeps(s: State, c: Cut, d: nat)
    requires Inv(s, c) && Enabled(s, Answers(d, true))
    ensures Inv(DoAnswer(s, d, true), NextCut(s, c, Answers(d, true)))
  {
    AnswerAtLoop(s, c, d);
    LoopKeeps(s.(reported := false), c, d);
  }

  lemma RetryKeeps(s: State, c: Cut, d: nat)
    requires Inv(s, c) && Enabled(s, Answers(d, false)) && s.revision != s.drains[d].sentRevision
    ensures Inv(DoAnswer(s, d, false), NextCut(s, c, Answers(d, false)))
  {
    hide Inv, Cuts, AtLoop, LoopFlushOk;
    FailureAtLoop(s, c, d);
    FailureRestores(s, c, d);
    LoopKeeps(s.(pending := s.drains[d].patch + s.pending, reported := true), c.(to := c.from), d);
  }

  lemma AnswersKeeps(s: State, c: Cut, d: nat, ok: bool)
    requires Inv(s, c) && Enabled(s, Answers(d, ok))
    ensures Inv(DoAnswer(s, d, ok), NextCut(s, c, Answers(d, ok)))
  {
    if ok {
      SuccessKeeps(s, c, d);
    } else if s.revision == s.drains[d].sentRevision {
      FailureEnds(s, c, d);
    } else {
      RetryKeeps(s, c, d);
    }
  }

  // --- Flushing -------------------------------------------------------------------------------------------

  /** A flush while no drain is there starts one. */
  lemma NewDrainKeeps(s: State, c: Cut)
    requires Inv(s, c) && s.writing == None
    ensures Inv(Flushed(s), FlushCut(s, c))
  {
    hide Inv, DrainLoop, AtLoop;
    NewDrainAtLoop(s, c);
    LoopKeeps(s.(timer := false, writing := Some(s.started), started := s.started + 1),
      c.(first := s.revision, writes := 0, swallowed := false), s.started);
  }

  lemma NewDrainAtLoop(s: State, c: Cut)
    requires Inv(s, c) && s.writing == None
    ensures AtLoop(s.(timer := false, writing := Some(s.started), started := s.started + 1),
              c.(first := s.revision, writes := 0, swallowed := false), s.started)
    ensures s.reported ==> s.pending != map[]
  {
    var d := s.started;
    var t := s.(timer := false, writing := Some(d), started := d + 1);
    var c' := c.(first := s.revision, writes := 0, swallowed := false);
    PendingMeans(s, c);
    forall f | f in t.flushes ensures LoopFlushOk(t, c', d, f) {
      assert FlushOk(s, c, f);
    }
  }

  /** A flush while a drain is there only cancels the timer. */
  lemma OldDrainKeeps(s: State, c: Cut)
    requires Inv(s, c) && s.writing.Some?
    ensures Inv(Flushed(s), FlushCut(s, c))
  {
    var t, c' := Flushed(s), FlushCut(s, c);
    assert Flying(t) == Flying(s) && EndedWell(t) == EndedWell(s);
    forall f | f in t.flushes ensures FlushOk(t, c', f) {
      assert FlushOk(s, c, f);
    }
  }

  lemma FlushCallIsOk(s: State, c: Cut)
    requires Inv(s, c) && Inv(Flushed(s), FlushCut(s, c))
    ensures FlushOk(Flushed(s), FlushCut(s, c), FlushCall(s))
  {
    PendingMeans(s, c);
  }

  lemma RecordKeeps(s: State, c: Cut, f: Flush)
    requires Inv(s, c) && FlushOk(s, c, f)
    ensures Inv(s.(flushes := s.flushes + [f]), c)
  {
    var t := s.(flushes := s.flushes + [f]);
    assert Flying(t) == Flying(s);
    forall g | g in t.flushes ensures FlushOk(t, c, g) {
      assert FlushOk(s, c, g);
    }
  }

  lemma FlushKeeps(s: State, c: Cut)
    requires Inv(s, c)
    ensures Inv(DoFlush(s), FlushCut(s, c))
  {
    if s.writing == None {
      NewDrainKeeps(s, c);
    } else {
      OldDrainKeeps(s, c);
    }
    FlushCallIsOk(s, c);
    assert Flushed(s).flushes == s.flushes;
    RecordKeeps(Flushed(s), FlushCut(s, c), FlushCall(s));
  }

  // --- Runs -----------------------------------------------------------------------------------------------

  lemma StepKeeps(s: State, c: Cut, e: Event)
    requires Inv(s, c) && Enabled(s, e)
    ensures Inv(Step(s, e), NextCut(s, c, e)) && c.kept <= NextCut(s, c, e).kept
  {
    match e
    case Persist(patch) => PersistKeeps(s, c, patch);
    case CallFlush => FlushKeeps(s, c);
    case TimerFires => FlushKeeps(s, c);
    case Applies(d) => AppliesKeeps(s, c, d);
    case Answers(d, ok) => AnswersKeeps(s, c, d, ok);
    case Finally(d) => FinallyKeeps(s, c, d);
  }
}
