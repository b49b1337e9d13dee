/** What the settings persister does, told by the events alone: when its timer is armed, when a failure is reported,
    what follows an answer, and how the promise of a drain settles. */
module PersisterEvents {
  import opened Options
  import opened PersisterModel
  import opened PersisterSafety
  import opened PersisterRuns

  // --- The timer and the report ---------------------------------------------------------------------------

  /** Of the changes, flushes and timer firings before `i` the last is a change. */
  ghost predicate ChangeIsLast(events: seq<Event>, i: nat)
    requires i <= |events|
  {
    exists k | 0 <= k < i :: LastChange(events, k, i)
  }

  ghost predicate LastChange(events: seq<Event>, k: nat, i: nat)
    requires k < i <= |events|
  {
    events[k].Persist? && forall j | k < j < i :: !IsFlush(events[j])
  }

  lemma ChangeStep(events: seq<Event>, i: nat)
    requires i < |events|
    ensures ChangeIsLast(events, i + 1) <==> events[i].Persist? || (!IsFlush(events[i]) && ChangeIsLast(events, i))
  {
    if events[i].Persist? {
      assert LastChange(events, i, i + 1);
    } else if !IsFlush(events[i]) && ChangeIsLast(events, i) {
      var k :| 0 <= k < i && LastChange(events, k, i);
      assert LastChange(events, k, i + 1);
    }
    if ChangeIsLast(events, i + 1) && !events[i].Persist? {
      var k :| 0 <= k < i + 1 && LastChange(events, k, i + 1);
      assert LastChange(events, k, i);
    }
  }

  /** The timer is armed exactly from a change on to the next flush or firing. */
  lemma {:induction false} TimerIsArmed(states: seq<State>, events: seq<Event>, i: nat)
    requires IsRun(states, events) && i < |states|
    ensures states[i].timer <==> ChangeIsLast(events, i)
    decreases i
  {
    if i > 0 {
      TimerIsArmed(states, events, i - 1);
      assert Takes(states, events, i - 1);
      TimerStep(states[i - 1], events[i - 1]);
      ChangeStep(events, i - 1);
    }
  }

  lemma LoopKeepsTimer(s: State, d: nat)
    ensures DrainLoop(s, d).timer == s.timer && DrainLoop(s, d).reported == s.reported
  {
  }

  lemma TimerStep(s: State, e: Event)
    requires Enabled(s, e)
    ensures Step(s, e).timer <==> e.Persist? || (!IsFlush(e) && s.timer)
  {
    hide DrainLoop;
    forall t: State, d { LoopKeepsTimer(t, d); }
  }

  /** Of the answers before `i` the last is a failure. */
  ghost predicate FailureIsLast(events: seq<Event>, i: nat)
    requires i <= |events|
  {
    exists k | 0 <= k < i :: LastFailure(events, k, i)
  }

  ghost predicate LastFailure(events: seq<Event>, k: nat, i: nat)
    requires k < i <= |events|
  {
    events[k].Answers? && !events[k].ok && forall j | k < j < i :: !events[j].Answers?
  }

  lemma FailureStep(events: seq<Event>, i: nat)
    requires i < |events|
    ensures FailureIsLast(events, i + 1) <==>
      if events[i].Answers? then !events[i].ok else FailureIsLast(events, i)
  {
    if events[i].Answers? {
      assert !events[i].ok ==> LastFailure(events, i, i + 1);
    } else if FailureIsLast(events, i) {
      var k :| 0 <= k < i && LastFailure(events, k, i);
      assert LastFailure(events, k, i + 1);
    }
    if FailureIsLast(events, i + 1) && !events[i].Answers? {
      var k :| 0 <= k < i + 1 && LastFailure(events, k, i + 1);
      assert LastFailure(events, k, i);
    }
  }

  /** A failure is reported exactly from the answer on up to the next answer that is none. */
  lemma {:induction false} FailureIsReported(states: seq<State>, events: seq<Event>, i: nat)
    requires IsRun(states, events) && i < |states|
    ensures states[i].reported <==> FailureIsLast(events, i)
    decreases i
  {
    if i > 0 {
      FailureIsReported(states, events, i - 1);
      assert Takes(states, events, i - 1);
      ReportStep(states[i - 1], events[i - 1]);
      FailureStep(events, i - 1);
    }
  }

  lemma ReportStep(s: State, e: Event)
    requires Enabled(s, e)
    ensures Step(s, e).reported <==> if e.Answers? then !e.ok else s.reported
  {
    hide DrainLoop;
    forall t: State, d { LoopKeepsTimer(t, d); }
  }

  // --- What follows an answer -------------------------------------------------------------------------------

  /** Step `j` sends the write of drain `d` that is in flight in state `i`. */
  ghost predicate SentAt(states: seq<State>, events: seq<Event>, d: nat, j: nat, i: nat)
    requires IsRun(states, events) && i < |states|
  {
    j < i && Sends(states, events, d, j) && forall k | j < k < i :: !Sends(states, events, d, k)
  }

  /** Something is passed in the steps from `a` up to `i`. */
  ghost predicate ChangesBetween(events: seq<Event>, a: nat, i: nat)
    requires a <= i <= |events|
  {
    exists k | a <= k < i :: events[k].Persist?
  }

  lemma {:induction false} ChangesCount(events: seq<Event>, a: nat, i: nat)
    requires a <= i <= |events|
    ensures PersistCount(events, a, i) > 0 <==> ChangesBetween(events, a, i)
    decreases i
  {
    if a < i {
      ChangesCount(events, a, i - 1);
      assert ChangesBetween(events, a, i) <==> ChangesBetween(events, a, i - 1) || events[i - 1].Persist?;
    }
  }

  lemma LoopNotes(s: State, d: nat, d': nat)
    ensures var t := DrainLoop(s, d);
      && d in t.drains
      && (d' != d ==> (d' in t.drains <==> d' in s.drains) && (d' in t.drains ==> t.drains[d'] == s.drains[d']))
      && (t.drains[d].Waiting? ==> t.drains[d].sentRevision == s.revision)
  {
  }

  /** A write that is sent carries the revision of that moment. */
  lemma FlushNotes(s: State, c: Cut, d: nat)
    requires Inv(s, c) && d in Flushed(s).drains && Flushed(s).drains[d].Waiting?
    ensures if d in s.drains then Flushed(s).drains[d] == s.drains[d]
            else Flushed(s).drains[d].sentRevision == s.revision
  {
    hide Cuts, Revisions, Flushes, Wakeups, DrainLoop;
    if s.writing == None {
      LoopNotes(s.(timer := false, writing := Some(s.started), started := s.started + 1), s.started, d);
    }
  }

  lemma AnswerNotes(s: State, c: Cut, d: nat, ok: bool, d': nat)
    requires Inv(s, c) && Enabled(s, Answers(d, ok)) && d' in DoAnswer(s, d, ok).drains
    requires DoAnswer(s, d, ok).drains[d'].Waiting?
    ensures DoAnswer(s, d, ok).drains[d'].sentRevision == s.revision
  {
    hide Cuts, Revisions, Flushes, Wakeups, DrainLoop;
    LoopNotes(s.(reported := false), d, d');
    LoopNotes(s.(pending := s.drains[d].patch + s.pending, reported := true), d, d');
  }

  lemma SendingNotes(s: State, c: Cut, e: Event, d: nat)
    requires Inv(s, c) && Enabled(s, e) && d in Step(s, e).drains && Step(s, e).drains[d].Waiting?
    ensures (d in s.drains ==> e.Answers?) ==> Step(s, e).drains[d].sentRevision == Step(s, e).revision
    ensures d in s.drains && !e.Answers? ==>
      s.drains[d].Waiting? && Step(s, e).drains[d].sentRevision == s.drains[d].sentRevision
  {
    hide Inv, Flushed, DoAnswer;
    if IsFlush(e) {
      FlushNotes(s, c, d);
    } else if e.Answers? {
      AnswerNotes(s, c, e.drain, e.ok, d);
    }
  }

  /** Since a write was sent the revision has grown by the number of changes. */
  lemma {:induction false} RevisionSinceSent(states: seq<State>, events: seq<Event>, cuts: seq<Cut>, d: nat,
      j: nat, i: nat)
    requires IsRun(states, events) && AreCuts(states, events, cuts) && i < |cuts| && SentAt(states, events, d, j, i)
    requires d in states[i].drains && states[i].drains[d].Waiting?
    ensures states[i].drains[d].sentRevision + PersistCount(events, j + 1, i) == states[i].revision
    decreases i
  {
    hide Inv, Step, Enabled, NextCut;
    var s, e := states[i - 1], events[i - 1];
    assert CutAt(states, cuts, i - 1) && Follows(states, events, cuts, i);
    SendingNotes(s, cuts[i - 1], e, d);
    StepCounts(s, e);
    if j + 1 < i {
      assert !Sends(states, events, d, i - 1);
      RevisionSinceSent(states, events, cuts, d, j, i - 1);
    }
  }

  /** After a failure the drain goes on with everything that is not stored if the revision has moved. */
  lemma FailureAnswered(s: State, d: nat)
    requires Enabled(s, Answers(d, false))
    ensures var t, patch := Step(s, Answers(d, false)), s.drains[d].patch + s.pending;
      d in t.drains &&
      if s.revision == s.drains[d].sentRevision then t.drains[d] == Ended(Rejected) && t.pending == patch
      else if patch == map[] then t.drains[d] == Ended(Fulfilled) && t.pending == map[]
      else t.drains[d] == Waiting(patch, s.revision, false) && t.pending == map[]
  {
  }

  lemma WritesSomething(s: State, c: Cut, d: nat)
    requires Inv(s, c) && Enabled(s, Answers(d, false))
    ensures s.drains[d].patch + s.pending != map[]
  {
    FailureRestores(s, c, d);
  }

  /** What a failed write leaves waiting is sent again at once, in the same drain and together with what was passed
      meanwhile, exactly if something was passed since the write was sent; if not, the drain ends rejected. */
  lemma FailureIsRetried(states: seq<State>, events: seq<Event>, d: nat, j: nat, i: nat)
    requires IsRun(states, events) && i < |events| && events[i] == Answers(d, false) && SentAt(states, events, d, j, i)
    ensures d in states[i].drains && states[i].drains[d].Waiting? && d in states[i + 1].drains
    ensures var patch, t := states[i].drains[d].patch + states[i].pending, states[i + 1];
      if ChangesBetween(events, j + 1, i)
      then t.drains[d] == Waiting(patch, states[i].revision, false) && t.pending == map[]
      else t.drains[d] == Ended(Rejected) && t.pending == patch
  {
    hide Inv, Step, NextCut;
    var cuts := CutsOfRun(states, events);
    assert Takes(states, events, i) && CutAt(states, cuts, i);
    RevisionSinceSent(states, events, cuts, d, j, i);
    ChangesCount(events, j + 1, i);
    FailureAnswered(states[i], d);
    WritesSomething(states[i], cuts[i], d);
  }

  /** After a success the drain sends what was passed meanwhile, or ends fulfilled. */
  lemma SuccessGoesOn(states: seq<State>, events: seq<Event>, d: nat, i: nat)
    requires IsRun(states, events) && i < |events| && events[i] == Answers(d, true)
    ensures d in states[i + 1].drains && states[i + 1].pending == map[]
    ensures states[i + 1].drains[d] ==
      if states[i].pending == map[] then Ended(Fulfilled) else Waiting(states[i].pending, states[i].revision, false)
  {
    assert Takes(states, events, i);
  }

  /** Every write in flight was sent at some step, the last that sent one in its drain. */
  lemma WriteWasSent(states: seq<State>, events: seq<Event>, d: nat, i: nat) returns (j: nat)
    requires IsRun(states, events) && i < |states| && d in states[i].drains && states[i].drains[d].Waiting?
    ensures SentAt(states, events, d, j, i)
  {
    var cuts := CutsOfRun(states, events);
    j := LastSending(states, events, cuts, d, i);
  }

  lemma {:induction false} LastSending(states: seq<State>, events: seq<Event>, cuts: seq<Cut>, d: nat, i: nat)
    returns (j: nat)
    requires IsRun(states, events) && AreCuts(states, events, cuts) && i < |cuts|
    requires d in states[i].drains && states[i].drains[d].Waiting?
    ensures SentAt(states, events, d, j, i)
    decreases i
  {
    hide Inv, Step, Enabled, NextCut;
    assert states[0] == INITIAL;
    assert CutAt(states, cuts, i - 1) && Takes(states, events, i - 1);
    if Sends(states, events, d, i - 1) {
      j := i - 1;
    } else {
      SendingNotes(states[i - 1], cuts[i - 1], events[i - 1], d);
      j := LastSending(states, events, cuts, d, i - 1);
    }
  }

  // --- How promises settle ----------------------------------------------------------------------------------

  /** The last answer to drain `d` before `i` is a failure. */
  ghost predicate EndsInFailure(events: seq<Event>, d: nat, i: nat)
    requires i <= |events|
  {
    exists k | 0 <= k < i :: LastAnswerFails(events, d, k, i)
  }

  ghost predicate LastAnswerFails(events: seq<Event>, d: nat, k: nat, i: nat)
    requires k < i <= |events|
  {
    events[k] == Answers(d, false) && forall j | k < j < i :: !IsAnswer(events[j], d)
  }

  predicate IsAnswer(e: Event, d: nat) {
    e.Answers? && e.drain == d
  }

  lemma EndsStep(events: seq<Event>, d: nat, i: nat)
    requires i < |events|
    ensures EndsInFailure(events, d, i + 1) <==>
      if IsAnswer(events[i], d) then !events[i].ok else EndsInFailure(events, d, i)
  {
    if IsAnswer(events[i], d) {
      assert events[i] == Answers(d, events[i].ok);
      assert !events[i].ok ==> LastAnswerFails(events, d, i, i + 1);
    } else if EndsInFailure(events, d, i) {
      var k :| 0 <= k < i && LastAnswerFails(events, d, k, i);
      assert LastAnswerFails(events, d, k, i + 1);
    }
    if EndsInFailure(events, d, i + 1) && !IsAnswer(events[i], d) {
      var k :| 0 <= k < i + 1 && LastAnswerFails(events, d, k, i + 1);
      assert LastAnswerFails(events, d, k, i);
    }
  }

  /** What drain `d` tells about the answers to it, if `fails` is whether the last was a failure. */
  ghost predicate Tells(s: State, d: nat, fails: bool) {
    && (d in s.drains && s.drains[d].Ended? ==> (s.drains[d].outcome == Rejected <==> fails))
    && (d >= s.started ==> d !in s.drains && d !in s.settled && !fails)
    && (d in s.settled ==> d !in s.drains && (s.settled[d] == Rejected <==> fails))
  }

  lemma LoopEnds(s: State, d: nat)
    ensures var t := DrainLoop(s, d);
      && t.settled == s.settled && t.drains.Keys == s.drains.Keys + {d}
      && (t.drains[d].Ended? ==> t.drains[d].outcome == Fulfilled)
      && forall d' | d' in s.drains && d' != d :: t.drains[d'] == s.drains[d']
  {
  }

  lemma FlushTells(s: State, c: Cut, d: nat, fails: bool)
    requires Inv(s, c) && Tells(s, d, fails)
    ensures Tells(Flushed(s), d, fails)
  {
    hide Cuts, Revisions, Flushes, Wakeups, DrainLoop;
    if s.writing == None {
      LoopEnds(s.(timer := false, writing := Some(s.started), started := s.started + 1), s.started);
    }
  }

  lemma AnswerTells(s: State, c: Cut, d: nat, ok: bool, d': nat, fails: bool)
    requires Inv(s, c) && Enabled(s, Answers(d, ok)) && Tells(s, d', fails)
    ensures Tells(Step(s, Answers(d, ok)), d', if d' == d then !ok else fails)
  {
    hide Cuts, Revisions, Flushes, Wakeups, DrainLoop, Flushed;
    if ok {
      LoopEnds(s.(reported := false), d);
    } else {
      LoopEnds(s.(pending := s.drains[d].patch + s.pending, reported := true), d);
      WritesSomething(s, c, d);
      FailureAnswered(s, d);
    }
  }

  lemma OthersTell(s: State, c: Cut, e: Event, d: nat, fails: bool)
    requires Inv(s, c) && Enabled(s, e) && !IsFlush(e) && !e.Answers? && Tells(s, d, fails)
    ensures Tells(Step(s, e), d, fails)
  {
    hide Cuts, Revisions, Flushes, Wakeups, DoFlush, DoAnswer;
  }

  lemma StepTells(s: State, c: Cut, e: Event, d: nat, fails: bool)
    requires Inv(s, c) && Enabled(s, e) && Tells(s, d, fails)
    ensures Tells(Step(s, e), d, if IsAnswer(e, d) then !e.ok else fails)
  {
    hide Inv, Flushed, DoAnswer;
    if IsFlush(e) {
      FlushTells(s, c, d, fails);
    } else if e.Answers? {
      AnswerTells(s, c, e.drain, e.ok, d, fails);
    } else {
      OthersTell(s, c, e, d, fails);
    }
  }

  lemma {:induction false} RunTells(states: seq<State>, events: seq<Event>, cuts: seq<Cut>, i: nat, d: nat)
    requires IsRun(states, events) && AreCuts(states, events, cuts) && i < |cuts|
    ensures Tells(states[i], d, EndsInFailure(events, d, i))
    decreases i
  {
    if i > 0 {
      hide Tells, Inv, Step, NextCut;
      RunTells(states, events, cuts, i - 1, d);
      assert CutAt(states, cuts, i - 1) && Takes(states, events, i - 1);
      StepTells(states[i - 1], cuts[i - 1], events[i - 1], d, EndsInFailure(events, d, i - 1));
      EndsStep(events, d, i - 1);
    }
  }

  /** The promise of a drain is rejected exactly if the last answer to it was a failure. */
  lemma PromiseTells(states: seq<State>, events: seq<Event>, i: nat, d: nat)
    requires IsRun(states, events) && i < |states| && d in states[i].settled
    ensures states[i].settled[d] == Rejected <==> EndsInFailure(events, d, i)
  {
    var cuts := CutsOfRun(states, events);
    RunTells(states, events, cuts, i, d);
  }
}
