/** The settings persister of `src/platform/persistSetting.ts` as a system of steps.

    JavaScript runs without interruption from one `await` to the next, so each such stretch is one step.
    A drain is an activation of the asynchronous function `drain`: it waits for the answer to a write, or
    it has ended and waits for the `finally` that clears `writing`. */
module PersisterModel {
  import opened Options

  /** A value is the JSON text of a setting. `{...a, ...b}` is `a + b`. */
  type Patch = map<string, string>

  datatype Outcome = Fulfilled | Rejected

  /** `applied`: the backend has carried the write out, whether or not it will say so. */
  datatype Drain = Waiting(patch: Patch, sentRevision: nat, applied: bool) | Ended(outcome: Outcome)

  /** A call of `flush`: the drain whose promise it returned and how many patches had been passed by then.
      `late`: that drain had already ended while patches were pending. */
  datatype Flush = Flush(drain: nat, mark: nat, late: bool)

  datatype State = State(
    pending: Patch,
    timer: bool,
    writing: Option<nat>,
    revision: nat,
    reported: bool,
    drains: map<nat, Drain>,
    started: nat,
    settled: map<nat, Outcome>,
    stored: Patch,
    history: seq<Patch>,
    flushes: seq<Flush>)

  const INITIAL := State(map[], false, None, 0, false, map[], 0, map[], map[], [], [])

  datatype Event =
    | Persist(patch: Patch)
    | CallFlush
    | TimerFires
    | Applies(drain: nat)
    | Answers(drain: nat, ok: bool)
    | Finally(drain: nat)

  /** A write that failed may have been applied or not; one that succeeded was applied. */
  predicate Enabled(s: State, e: Event) {
    match e
    case Persist(_) => true
    case CallFlush => true
    case TimerFires => s.timer
    case Applies(d) => d in s.drains && s.drains[d].Waiting? && !s.drains[d].applied
    case Answers(d, ok) => d in s.drains && s.drains[d].Waiting? && (ok ==> s.drains[d].applied)
    case Finally(d) => d in s.drains && s.drains[d].Ended?
  }

  /** The head of the loop in drain `d`: send what is pending, or end. */
  function DrainLoop(s: State, d: nat): (t: State)
    ensures t.revision == s.revision && t.started == s.started
  {
    if s.pending != map[]
    then s.(drains := s.drains[d := Waiting(s.pending, s.revision, false)], pending := map[])
    else s.(drains := s.drains[d := Ended(Fulfilled)])
  }

  predicate EndedDrain(s: State, d: nat) {
    d in s.drains && s.drains[d].Ended?
  }

  /** What `flush` does before it returns: it starts a drain unless there is one. */
  function Flushed(s: State): (t: State)
    ensures t.writing.Some? && t.revision == s.revision
    ensures t.started == s.started + if s.writing == None then 1 else 0
  {
    if s.writing == None
    then DrainLoop(s.(timer := false, writing := Some(s.started), started := s.started + 1), s.started)
    else s.(timer := false)
  }

  /** The call of `flush` in `s`: the promise it returns is that of the drain there is afterwards. */
  function FlushCall(s: State): Flush {
    var d := Flushed(s).writing.value;
    Flush(d, |s.history|, s.writing.Some? && EndedDrain(s, d) && s.pending != map[])
  }

  function DoFlush(s: State): State {
    Flushed(s).(flushes := s.flushes + [FlushCall(s)])
  }

  /** The patches that hold something are the history of what has to be stored. */
  function DoPersist(s: State, patch: Patch): State {
    s.(pending := s.pending + patch, revision := s.revision + 1, timer := true,
       history := if patch == map[] then s.history else s.history + [patch])
  }

  function DoAnswer(s: State, d: nat, ok: bool): (t: State)
    requires d in s.drains && s.drains[d].Waiting?
    ensures t.revision == s.revision && t.started == s.started
  {
    var w := s.drains[d];
    if ok then DrainLoop(s.(reported := false), d)
    else
      var t := s.(pending := w.patch + s.pending, reported := true);
      if t.revision == w.sentRevision then t.(drains := t.drains[d := Ended(Rejected)]) else DrainLoop(t, d)
  }

  function Step(s: State, e: Event): State
    requires Enabled(s, e)
  {
    match e
    case Persist(patch) => DoPersist(s, patch)
    case CallFlush => DoFlush(s)
    case TimerFires => DoFlush(s)
    case Applies(d) => s.(drains := s.drains[d := s.drains[d].(applied := true)],
                         stored := s.stored + s.drains[d].patch)
    case Answers(d, ok) => DoAnswer(s, d, ok)
    case Finally(d) => s.(drains := s.drains - {d}, writing := None, settled := s.settled[d := s.drains[d].outcome])
  }

  /** Step `i` of a run. */
  ghost predicate Takes(states: seq<State>, events: seq<Event>, i: nat)
    requires i < |events| && |states| == |events| + 1
  {
    Enabled(states[i], events[i]) && states[i + 1] == Step(states[i], events[i])
  }

  /** `states` are the states of the run that takes the steps `events`. */
  ghost predicate IsRun(states: seq<State>, events: seq<Event>) {
    |states| == |events| + 1 && states[0] == INITIAL && forall i | 0 <= i < |events| :: Takes(states, events, i)
  }
}
