/** The promises of the settings persister, over every interleaving of changes, timer firings, flushes,
    writes that succeed and writes that fail. */
module PersisterRuns {
  import opened Options
  import opened PersisterModel
  import opened PersisterSafety

  /** `cuts[i]` is a cut of state `i`. */
  ghost predicate CutAt(states: seq<State>, cuts: seq<Cut>, i: nat)
    requires i < |cuts| <= |states|
  {
    Inv(states[i], cuts[i])
  }

  /** `cuts[i]` follows from the cut before. */
  ghost predicate Follows(states: seq<State>, events: seq<Event>, cuts: seq<Cut>, i: nat)
    requires |states| == |events| + 1 && 0 < i < |cuts| <= |states|
  {
    && Takes(states, events, i - 1) && cuts[i] == NextCut(states[i - 1], cuts[i - 1], events[i - 1])
    && cuts[i - 1].kept <= cuts[i].kept
  }

  ghost predicate AreCuts(states: seq<State>, events: seq<Event>, cuts: seq<Cut>) {
    && |states| == |events| + 1 && 0 < |cuts| <= |states| && cuts[0] == START
    && (forall i | 0 <= i < |cuts| :: CutAt(states, cuts, i))
    && (forall i | 0 < i < |cuts| :: Follows(states, events, cuts, i))
  }

  lemma StartIsCut()
    ensures Inv(INITIAL, START)
  {
    assert INITIAL.history[..0] == [] && INITIAL.history[0..] == [];
  }

  lemma MoreCuts(states: seq<State>, events: seq<Event>, cuts: seq<Cut>) returns (more: seq<Cut>)
    requires IsRun(states, events) && AreCuts(states, events, cuts) && |cuts| < |states|
    ensures AreCuts(states, events, more) && |more| == |cuts| + 1
  {
    var i := |cuts| - 1;
    assert CutAt(states, cuts, i) && Takes(states, events, i);
    StepKeeps(states[i], cuts[i], events[i]);
    more := cuts + [NextCut(states[i], cuts[i], events[i])];
    forall j | 0 <= j < |more| ensures CutAt(states, more, j) {
      if j <= i {
        assert CutAt(states, cuts, j);
      }
    }
    forall j | 0 < j < |more| ensures Follows(states, events, more, j) {
      if j <= i {
        assert Follows(states, events, cuts, j);
      }
    }
  }

  lemma CutsOfRun(states: seq<State>, events: seq<Event>) returns (cuts: seq<Cut>)
    requires IsRun(states, events)
    ensures AreCuts(states, events, cuts) && |cuts| == |states|
  {
    StartIsCut();
    cuts := [START];
    assert CutAt(states, cuts, 0);
    while |cuts| < |states|
      invariant AreCuts(states, events, cuts)
    {
      cuts := MoreCuts(states, events, cuts);
    }
  }

  lemma {:induction false} KeptGrows(states: seq<State>, events: seq<Event>, cuts: seq<Cut>, i: nat, j: nat)
    requires AreCuts(states, events, cuts) && i <= j < |cuts|
    ensures cuts[i].kept <= cuts[j].kept
    decreases j
  {
    if i < j {
      KeptGrows(states, events, cuts, i, j - 1);
      assert Follows(states, events, cuts, j);
    }
  }

  /** How much of the history is stored in each state. */
  function Kept(cuts: seq<Cut>): (kept: seq<nat>)
    ensures |kept| == |cuts| && forall i | 0 <= i < |kept| :: kept[i] == cuts[i].kept
  {
    seq(|cuts|, i requires 0 <= i < |cuts| => cuts[i].kept)
  }

  /** The first `n` patches are what is stored. */
  ghost predicate StoresPrefix(s: State, n: nat) {
    n <= |s.history| && s.stored == Merge(s.history[..n])
  }

  // --- Nothing is lost and nothing is reordered -----------------------------------------------------------

  lemma EverythingIsThere(s: State, c: Cut)
    requires Inv(s, c)
    ensures s.stored + InFlight(s) + s.pending == Merge(s.history)
  {
    var h := s.history;
    assert h[..|h|] == h && h[c.to..|h|] == h[c.to..];
    if Flying(s) {
      MergeOverlap(h, c.from, c.kept, c.to);
      MergeOverlap(h, c.to, c.to, |h|);
    } else {
      StoredAndPending(s, c.to, c.kept);
    }
  }

  lemma StoredAndPending(s: State, to: nat, kept: nat)
    requires to <= kept <= |s.history| && s.stored == Merge(s.history[..kept]) && s.pending == Merge(s.history[to..])
    ensures s.stored + map[] + s.pending == Merge(s.history)
  {
    hide Merge;
    var h := s.history;
    assert h[..|h|] == h && h[to..|h|] == h[to..];
    MergeOverlap(h, to, kept, |h|);
    assert s.stored + map[] == s.stored;
  }

  /** In every state the stored settings are the merge of a prefix of the patches passed so far, the prefix
      never shrinks, and what is stored, in flight and pending together is the merge of all patches. */
  lemma PrefixConsistency(states: seq<State>, events: seq<Event>) returns (kept: seq<nat>)
    requires IsRun(states, events)
    ensures |kept| == |states|
    ensures forall i | 0 <= i < |states| :: StoresPrefix(states[i], kept[i])
    ensures forall i, j | 0 <= i <= j < |states| :: kept[i] <= kept[j]
    ensures forall i | 0 <= i < |states| ::
      states[i].stored + InFlight(states[i]) + states[i].pending == Merge(states[i].history)
  {
    var cuts := CutsOfRun(states, events);
    kept := Kept(cuts);
    forall i | 0 <= i < |states|
      ensures StoresPrefix(states[i], kept[i])
      ensures states[i].stored + InFlight(states[i]) + states[i].pending == Merge(states[i].history)
    {
      assert CutAt(states, cuts, i);
      EverythingIsThere(states[i], cuts[i]);
    }
    forall i, j | 0 <= i <= j < |states| ensures kept[i] <= kept[j] {
      KeptGrows(states, events, cuts, i, j);
    }
  }

  /** At most one drain is there, so at most one write is in flight. */
  lemma OneWriteAtATime(states: seq<State>, events: seq<Event>, i: nat, d: nat, d': nat)
    requires IsRun(states, events) && i < |states|
    requires d in states[i].drains && d' in states[i].drains
    ensures d == d' && states[i].writing == Some(d)
  {
    var cuts := CutsOfRun(states, events);
    assert CutAt(states, cuts, i);
  }

  // --- Flushes --------------------------------------------------------------------------------------------

  ghost predicate IsFulfilled(s: State, f: Flush) {
    f.drain in s.settled && s.settled[f.drain] == Fulfilled
  }

  /** The step settles the promise of `f` well. */
  ghost predicate Fulfils(s: State, e: Event, f: Flush) {
    e == Finally(f.drain) && f.drain in s.drains && s.drains[f.drain] == Ended(Fulfilled)
  }

  lemma SettlingTells(s: State, c: Cut, e: Event, f: Flush)
    requires Inv(s, c) && Enabled(s, e) && f in s.flushes && Fulfils(s, e, f)
    ensures f.mark <= NextCut(s, c, e).kept <==> !f.late
    ensures c.kept <= |s.history| && s.pending == Merge(s.history[c.kept..])
  {
    assert FlushOk(s, c, f);
    assert s.writing == Some(f.drain) && EndedWell(s) && c.kept == c.to;
  }

  /** What waits to be sent is exactly what was passed after the first `n` patches, which are stored. */
  ghost predicate PendingFrom(s: State, n: nat) {
    StoresPrefix(s, n) && s.pending == Merge(s.history[n..])
  }

  /** If the step fulfils the promise of `f`, `f` was late exactly if some of its patches still wait. */
  ghost predicate TellsLate(s: State, e: Event, f: Flush, kept: nat) {
    f in s.flushes && Fulfils(s, e, f) ==> PendingFrom(s, kept) && (f.mark <= kept <==> !f.late)
  }

  /** A flush whose promise is fulfilled has stored every patch passed before it was called, if it was not late.
      When the promise of a flush is fulfilled, a late one leaves some of those patches: they are still merged
      into what waits to be sent. */
  lemma FlushGuarantee(states: seq<State>, events: seq<Event>) returns (kept: seq<nat>)
    requires IsRun(states, events)
    ensures |kept| == |states|
    ensures forall i | 0 <= i < |states| :: StoresPrefix(states[i], kept[i])
    ensures forall i: int, f: Flush | 0 <= i < |states| &&
        f in states[i].flushes && !f.late && IsFulfilled(states[i], f) ::
      f.mark <= kept[i]
    ensures forall i: int, f: Flush | 0 <= i < |events| :: TellsLate(states[i], events[i], f, kept[i])
  {
    var cuts := CutsOfRun(states, events);
    kept := Kept(cuts);
    forall i | 0 <= i < |states| ensures StoresPrefix(states[i], kept[i]) {
      assert CutAt(states, cuts, i);
    }
    forall i: int, f: Flush | 0 <= i < |states| && f in states[i].flushes && !f.late && IsFulfilled(states[i], f)
      ensures f.mark <= kept[i]
    {
      assert CutAt(states, cuts, i) && FlushOk(states[i], cuts[i], f);
    }
    forall i: int, f: Flush | 0 <= i < |events| ensures TellsLate(states[i], events[i], f, kept[i]) {
      assert CutAt(states, cuts, i) && Follows(states, events, cuts, i + 1);
      if f in states[i].flushes && Fulfils(states[i], events[i], f) {
        SettlingTells(states[i], cuts[i], events[i], f);
      }
    }
  }

  /** When `writing` is cleared right after a drain ends, before anything else happens, no flush is late. */
  lemma {:induction false} PromptClearingMeansNoLateFlush(states: seq<State>, events: seq<Event>, i: nat)
    requires IsRun(states, events) && i < |states|
    requires forall j, d | 0 <= j < |events| && EndedDrain(states[j], d) :: events[j].Finally?
    ensures forall f | f in states[i].flushes :: !f.late
    decreases i
  {
    if i > 0 {
      PromptClearingMeansNoLateFlush(states, events, i - 1);
      var s, e := states[i - 1], events[i - 1];
      assert Takes(states, events, i - 1);
      if IsFlush(e) {
        assert !EndedDrain(s, Flushed(s).writing.value);
        assert !FlushCall(s).late;
      }
    }
  }

  // --- Wakeups --------------------------------------------------------------------------------------------

  predicate IsFlush(e: Event) {
    e.CallFlush? || e.TimerFires?
  }

  /** The last flush before state `i` came when a drain had just ended well with patches pending, and
      nothing was passed since. */
  ghost predicate LastFlushWasLate(states: seq<State>, events: seq<Event>, i: nat)
    requires IsRun(states, events) && i < |states|
  {
    exists j :: 0 <= j < i && IsFlush(events[j]) && EndedWell(states[j]) && states[j].pending != map[]
      && forall k | j < k < i :: !events[k].Persist? && !IsFlush(events[k])
  }

  lemma LateStep(states: seq<State>, events: seq<Event>, i: nat)
    requires IsRun(states, events) && i < |events|
    ensures LastFlushWasLate(states, events, i + 1) <==>
      if IsFlush(events[i]) then EndedWell(states[i]) && states[i].pending != map[]
      else !events[i].Persist? && LastFlushWasLate(states, events, i)
  {
    if IsFlush(events[i]) && EndedWell(states[i]) && states[i].pending != map[] {
      assert LastFlushWasLate(states, events, i + 1);
    }
    if !IsFlush(events[i]) && !events[i].Persist? && LastFlushWasLate(states, events, i) {
      var j :| 0 <= j < i && IsFlush(events[j]) && EndedWell(states[j]) && states[j].pending != map[]
        && forall k | j < k < i :: !events[k].Persist? && !IsFlush(events[k]);
      assert forall k | j < k < i + 1 :: !events[k].Persist? && !IsFlush(events[k]);
    }
  }

  lemma SwallowedStep(s: State, c: Cut, e: Event)
    requires Enabled(s, e)
    ensures NextCut(s, c, e).swallowed <==>
      if IsFlush(e) then EndedWell(s) && s.pending != map[] else !e.Persist? && c.swallowed
  {
  }

  lemma {:induction false} SwallowedMeansLate(states: seq<State>, events: seq<Event>, cuts: seq<Cut>, i: nat)
    requires IsRun(states, events) && AreCuts(states, events, cuts) && i < |cuts|
    ensures cuts[i].swallowed <==> LastFlushWasLate(states, events, i)
    decreases i
  {
    if i > 0 {
      var j := i - 1;
      SwallowedMeansLate(states, events, cuts, j);
      assert Follows(states, events, cuts, i);
      SwallowedStep(states[j], cuts[j], events[j]);
      LateStep(states, events, j);
    }
  }

  /** Pending patches always have a timer, a write in flight or a reported failure behind them, except
      exactly after a late flush. */
  lemma NoLostWakeup(states: seq<State>, events: seq<Event>, i: nat)
    requires IsRun(states, events) && i < |states|
    ensures Stranded(states[i]) <==> LastFlushWasLate(states, events, i)
  {
    var cuts := CutsOfRun(states, events);
    SwallowedMeansLate(states, events, cuts, i);
    assert CutAt(states, cuts, i);
  }

  // --- No endless retry -----------------------------------------------------------------------------------

  /** Whether step `i` sends a write in drain `d`: at the start of the drain or after an answer. */
  ghost predicate Sends(states: seq<State>, events: seq<Event>, d: nat, i: nat)
    requires IsRun(states, events) && i < |events|
  {
    && d in states[i + 1].drains && states[i + 1].drains[d].Waiting?
    && (d in states[i].drains ==> events[i].Answers?)
  }

  ghost function SendCount(states: seq<State>, events: seq<Event>, d: nat, i: nat): nat
    requires IsRun(states, events) && i <= |events|
  {
    if i == 0 then 0
    else SendCount(states, events, d, i - 1) + if Sends(states, events, d, i - 1) then 1 else 0
  }

  /** The number of patches passed in the steps from `a` up to `i`. */
  function PersistCount(events: seq<Event>, a: nat, i: nat): nat
    requires a <= i <= |events|
  {
    if i == a then 0 else PersistCount(events, a, i - 1) + if events[i - 1].Persist? then 1 else 0
  }

  /** Step `a` starts drain `d`. */
  ghost predicate StartsDrain(states: seq<State>, events: seq<Event>, d: nat, a: nat)
    requires IsRun(states, events)
  {
    a < |events| && states[a].started == d && states[a + 1].started == d + 1
  }

  /** How the number of drains and the revision move. */
  lemma StepCounts(s: State, e: Event)
    requires Enabled(s, e)
    ensures Step(s, e).revision == s.revision + if e.Persist? then 1 else 0
    ensures Step(s, e).started == s.started + if IsFlush(e) && s.writing == None then 1 else 0
  {
  }

  /** How the number of writes of drain `d` moves. */
  lemma SuccessWrites(s: State, c: Cut, d: nat)
    requires Inv(s, c) && Enabled(s, Answers(d, true))
    ensures var t, c' := Step(s, Answers(d, true)), NextCut(s, c, Answers(d, true));
      && t.started == s.started == d + 1 && c'.first == c.first && d in t.drains
      && c'.writes == c.writes + (if t.drains[d].Waiting? then 1 else 0)
  {
    hide Revisions, Flushes, Wakeups;
    PendingMeans(s, c);
    assert s.writing == Some(d);
  }

  lemma FailureWrites(s: State, c: Cut, d: nat)
    requires Inv(s, c) && Enabled(s, Answers(d, false))
    ensures var t, c' := Step(s, Answers(d, false)), NextCut(s, c, Answers(d, false));
      && t.started == s.started == d + 1 && c'.first == c.first && d in t.drains
      && c'.writes == c.writes + (if t.drains[d].Waiting? then 1 else 0)
  {
    hide Revisions, Flushes, Wakeups;
    assert s.writing == Some(d);
    FailureRestores(s, c, d);
  }

  lemma OtherWrites(s: State, c: Cut, e: Event, d: nat)
    requires Inv(s, c) && Enabled(s, e) && d + 1 == Step(s, e).started && !e.Answers?
    ensures var t, c' := Step(s, e), NextCut(s, c, e);
      var sends := d in t.drains && t.drains[d].Waiting? && d !in s.drains;
      if s.started == d then c'.first == s.revision && c'.writes == (if sends then 1 else 0)
      else c'.first == c.first && c'.writes == c.writes + (if sends then 1 else 0)
  {
    hide Revisions, Flushes, Wakeups, DoAnswer, Merge;
    PendingMeans(s, c);
  }

  lemma StepWrites(s: State, c: Cut, e: Event, d: nat)
    requires Inv(s, c) && Enabled(s, e) && d + 1 == Step(s, e).started
    ensures var t, c' := Step(s, e), NextCut(s, c, e);
      var sends := d in t.drains && t.drains[d].Waiting? && (d in s.drains ==> e.Answers?);
      if s.started == d then c'.first == s.revision && c'.writes == (if sends then 1 else 0)
      else c'.first == c.first && c'.writes == c.writes + (if sends then 1 else 0)
  {
    hide Inv, Step, NextCut;
    match e
    case Answers(drain, ok) =>
      if ok {
        SuccessWrites(s, c, drain);
      } else {
        FailureWrites(s, c, drain);
      }
    case _ =>
      OtherWrites(s, c, e, d);
  }

  lemma NewestDrain(s: State, c: Cut, d: nat)
    requires Inv(s, c) && d in s.drains
    ensures d + 1 == s.started
  {
  }

  lemma RunCounts(states: seq<State>, events: seq<Event>, cuts: seq<Cut>, i: nat, d: nat)
    requires IsRun(states, events) && AreCuts(states, events, cuts) && i + 1 < |cuts|
    ensures states[i + 1].revision == states[i].revision + if events[i].Persist? then 1 else 0
    ensures states[i].started <= states[i + 1].started <= states[i].started + 1
    ensures Sends(states, events, d, i) ==> d + 1 == states[i + 1].started
    ensures d + 1 == states[i + 1].started ==>
      (cuts[i + 1].first, cuts[i + 1].writes) ==
        if states[i].started == d then (states[i].revision, if Sends(states, events, d, i) then 1 else 0)
        else (cuts[i].first, cuts[i].writes + if Sends(states, events, d, i) then 1 else 0)
  {
    hide Inv, Step, NextCut, Enabled;
    assert CutAt(states, cuts, i) && CutAt(states, cuts, i + 1) && Follows(states, events, cuts, i + 1);
    StepCounts(states[i], events[i]);
    if d in states[i + 1].drains {
      NewestDrain(states[i + 1], cuts[i + 1], d);
    }
    if d + 1 == states[i + 1].started {
      StepWrites(states[i], cuts[i], events[i], d);
    }
  }

  lemma {:induction false} NoWriteBeforeStart(states: seq<State>, events: seq<Event>, cuts: seq<Cut>, d: nat, i: nat)
    requires IsRun(states, events) && AreCuts(states, events, cuts) && i < |cuts| && states[i].started <= d
    ensures SendCount(states, events, d, i) == 0
    decreases i
  {
    if i > 0 {
      RunCounts(states, events, cuts, i - 1, d);
      NoWriteBeforeStart(states, events, cuts, d, i - 1);
    }
  }

  /** While no later drain has started, the cut counts the writes of drain `d`. */
  lemma {:induction false} CutCountsWrites(states: seq<State>, events: seq<Event>, cuts: seq<Cut>, d: nat, a: nat,
      i: nat)
    requires IsRun(states, events) && AreCuts(states, events, cuts) && StartsDrain(states, events, d, a)
    requires a < i < |cuts| && states[i].started <= d + 1
    ensures states[i].started == d + 1
    ensures cuts[i].first == states[a].revision && SendCount(states, events, d, i) == cuts[i].writes
    decreases i
  {
    RunCounts(states, events, cuts, i - 1, d);
    if i == a + 1 {
      NoWriteBeforeStart(states, events, cuts, d, a);
    } else {
      CutCountsWrites(states, events, cuts, d, a, i - 1);
    }
  }

  lemma {:induction false} RevisionsCountPatches(states: seq<State>, events: seq<Event>, cuts: seq<Cut>, a: nat, i: nat)
    requires IsRun(states, events) && AreCuts(states, events, cuts) && a <= i < |cuts|
    ensures states[i].revision == states[a].revision + PersistCount(events, a, i)
    decreases i
  {
    if a < i {
      RevisionsCountPatches(states, events, cuts, a, i - 1);
      RunCounts(states, events, cuts, i - 1, 0);
    }
  }

  lemma WritesAreBounded(states: seq<State>, events: seq<Event>, cuts: seq<Cut>, i: nat)
    requires AreCuts(states, events, cuts) && i < |cuts|
    ensures cuts[i].writes <= 1 + states[i].revision - cuts[i].first
  {
    assert CutAt(states, cuts, i);
  }

  /** However the backend answers, a drain makes at most one write more than patches were passed since it
      started. */
  lemma {:induction false} NoEndlessRetry(states: seq<State>, events: seq<Event>, d: nat, a: nat, i: nat)
    requires IsRun(states, events) && StartsDrain(states, events, d, a) && a < i <= |events|
    ensures SendCount(states, events, d, i) <= 1 + PersistCount(events, a, i)
    decreases i
  {
    var cuts := CutsOfRun(states, events);
    if states[i].started <= d + 1 {
      CutCountsWrites(states, events, cuts, d, a, i);
      RevisionsCountPatches(states, events, cuts, a, i);
      WritesAreBounded(states, events, cuts, i);
    } else {
      RunCounts(states, events, cuts, i - 1, d);
      NoEndlessRetry(states, events, d, a, i - 1);
    }
  }
}
