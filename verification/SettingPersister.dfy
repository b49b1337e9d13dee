/** The closure state of `createSettingPersister` as an object, whose methods take the steps of the model. */
module SettingPersister {
  import opened Options
  import opened PersisterModel
  import opened PersisterSafety
  import opened PersisterRuns

  lemma FlushStep(s: State)
    ensures Step(s, CallFlush) == DoFlush(s) && (s.timer ==> Step(s, TimerFires) == DoFlush(s))
  {
    hide DoFlush, DoPersist, DoAnswer;
  }

  lemma FlushedKeepsCalls(s: State)
    ensures Flushed(s).flushes == s.flushes
  {
  }

  class Persister {
    var pending: Patch
    var timer: bool
    var writing: Option<nat>
    var revision: nat
    var reported: bool
    /** The activations of `drain` that have not been cleared away, by their number. */
    var drains: map<nat, Drain>
    var started: nat
    /** What the surroundings see: settled promises, stored settings, and the calls so far. */
    ghost var settled: map<nat, Outcome>
    ghost var stored: Patch
    ghost var history: seq<Patch>
    ghost var flushes: seq<Flush>

    ghost function View(): State
      reads this
    {
      State(pending, timer, writing, revision, reported, drains, started, settled, stored, history, flushes)
    }

    constructor ()
      ensures View() == INITIAL
    {
      pending, timer, writing, revision, reported, drains, started := map[], false, None, 0, false, map[], 0;
      settled, stored, history, flushes := map[], map[], [], [];
    }

    method PersistSetting(patch: Patch)
      modifies this
      ensures View() == Step(old(View()), Persist(patch))
    {
      hide DoFlush, DoAnswer;
      pending := pending + patch;
      revision := revision + 1;
      timer := true;
      if patch != map[] {
        history := history + [patch];
      }
    }

    /** The loop of `drain` up to the next `await`, or to its end. */
    method Drain(d: nat)
      modifies this
      ensures View() == DrainLoop(old(View()), d)
    {
      if pending != map[] {
        var patch, sentRevision := pending, revision;
        pending := map[];
        drains := drains[d := Waiting(patch, sentRevision, false)];
      } else {
        drains := drains[d := Ended(Fulfilled)];
      }
    }

    /** The result is the number of the drain whose promise is returned. */
    method Flush() returns (promise: nat)
      modifies this
      ensures View() == Step(old(View()), CallFlush) && promise == FlushCall(old(View())).drain
    {
      hide Step, DrainLoop, EndedDrain;
      FlushStep(View());
      FlushedKeepsCalls(View());
      ghost var call := FlushCall(View());
      timer := false;
      if writing == None {
        var d := started;
        writing, started := Some(d), started + 1;
        Drain(d);
      }
      promise := writing.value;
      flushes := flushes + [call];
    }

    method TimerFired()
      requires timer
      modifies this
      ensures View() == Step(old(View()), TimerFires)
    {
      var promise := Flush();
    }

    /** The backend answers the write of drain `d`, and the drain goes on. */
    method WriteAnswered(d: nat, ok: bool)
      requires Enabled(View(), Answers(d, ok))
      modifies this
      ensures View() == Step(old(View()), Answers(d, ok))
    {
      var write := drains[d];
      if ok {
        reported := false;
        Drain(d);
      } else {
        pending := write.patch + pending;
        reported := true;
        if revision == write.sentRevision {
          drains := drains[d := Ended(Rejected)];
        } else {
          Drain(d);
        }
      }
    }

    /** The `finally` of the promise that `flush` keeps. */
    method DrainSettled(d: nat)
      requires Enabled(View(), Finally(d))
      modifies this
      ensures View() == Step(old(View()), Finally(d))
    {
      settled := settled[d := drains[d].outcome];
      drains := drains - {d};
      writing := None;
    }
  }

  // --- A late flush ---------------------------------------------------------------------------------------

  const DARK: Patch := map["theme" := "dark"]
  const WIDE: Patch := map["width" := "140"]

  /** A setting changed between the end of a drain and its `finally`, and flushed there. */
  function LateEvents(): seq<Event> {
    [Persist(DARK), CallFlush, Applies(0), Answers(0, true), Persist(WIDE), CallFlush, Finally(0)]
  }

  function LateStates(): seq<State> {
    var none: Patch := map[];
    [ INITIAL,
      State(DARK, true, None, 1, false, map[], 0, map[], none, [DARK], []),
      State(none, false, Some(0), 1, false, map[0 := Waiting(DARK, 1, false)], 1,
            map[], none, [DARK], [Flush(0, 1, false)]),
      State(none, false, Some(0), 1, false, map[0 := Waiting(DARK, 1, true)], 1,
            map[], DARK, [DARK], [Flush(0, 1, false)]),
      State(none, false, Some(0), 1, false, map[0 := Ended(Fulfilled)], 1, map[], DARK, [DARK], [Flush(0, 1, false)]),
      State(WIDE, true, Some(0), 2, false, map[0 := Ended(Fulfilled)], 1,
            map[], DARK, [DARK, WIDE], [Flush(0, 1, false)]),
      State(WIDE, false, Some(0), 2, false, map[0 := Ended(Fulfilled)], 1,
            map[], DARK, [DARK, WIDE], [Flush(0, 1, false), Flush(0, 2, true)]),
      State(WIDE, false, None, 2, false, map[], 1, map[0 := Fulfilled],
            DARK, [DARK, WIDE], [Flush(0, 1, false), Flush(0, 2, true)]) ]
  }

  /** The first setting is sent and stored. */
  lemma LateRunStores(i: nat)
    requires i < 3
    ensures Takes(LateStates(), LateEvents(), i)
  {
    var s, t, e := LateStates()[i], LateStates()[i + 1], LateEvents()[i];
    assert "theme" in DARK;
    assert Step(s, e).pending == t.pending && Step(s, e).stored == t.stored && Step(s, e).drains == t.drains;
    assert Step(s, e).history == t.history && Step(s, e).flushes == t.flushes;
  }

  /** The drain ends, and the second setting comes. */
  lemma LateRunChanges(i: nat)
    requires 3 <= i < 5
    ensures Takes(LateStates(), LateEvents(), i)
  {
    var s, t, e := LateStates()[i], LateStates()[i + 1], LateEvents()[i];
    assert "width" in WIDE;
    assert Step(s, e).pending == t.pending && Step(s, e).drains == t.drains && Step(s, e).history == t.history;
  }

  /** The late flush, and the end of its promise. */
  lemma LateRunSettles(i: nat)
    requires 5 <= i < 7
    ensures Takes(LateStates(), LateEvents(), i)
  {
    var s, t, e := LateStates()[i], LateStates()[i + 1], LateEvents()[i];
    assert "width" in WIDE;
    assert Step(s, e).drains == t.drains && Step(s, e).settled == t.settled && Step(s, e).flushes == t.flushes;
  }

  lemma LateRunTakes(i: nat)
    requires i < 7
    ensures Takes(LateStates(), LateEvents(), i)
  {
    hide Takes;
    if i < 3 {
      LateRunStores(i);
    } else if i < 5 {
      LateRunChanges(i);
    } else {
      LateRunSettles(i);
    }
  }

  /** The promise is fulfilled, the setting is not stored, and no timer is left to store it. */
  lemma LateFlushStoresNothing()
    ensures IsRun(LateStates(), LateEvents())
    ensures var s := LateStates()[7];
      && IsFulfilled(s, s.flushes[1]) && s.flushes[1].mark == |s.history| == 2
      && s.stored == DARK && s.pending == WIDE && Stranded(s) && s.writing == None
  {
    forall i | 0 <= i < |LateEvents()| ensures Takes(LateStates(), LateEvents(), i) {
      LateRunTakes(i);
    }
    assert "width" in WIDE;
  }
}
