/** `src/platform/shutdownPersistence.ts`: the owners of state that is saved before the application ends. */
module ShutdownWriters {
  import opened PersisterModel
  import opened PersisterRuns

  /** Registration number `id` put a writer under a name; its disposer may be called later. */
  datatype Call = Register(name: string) | Dispose(id: nat)

  /** What was registered, in order, and which registration each name has now. Each registration passes a
      function of its own, so its number stands for the function. */
  datatype Registry = Registry(names: seq<string>, writers: map<string, nat>)

  predicate Legal(r: Registry, c: Call) {
    c.Dispose? ==> c.id < |r.names|
  }

  function After(r: Registry, c: Call): Registry
    requires Legal(r, c)
  {
    match c
    case Register(name) => Registry(r.names + [name], r.writers[name := |r.names|])
    case Dispose(id) =>
      var name := r.names[id];
      if name in r.writers && r.writers[name] == id then r.(writers := r.writers - {name}) else r
  }

  ghost predicate IsHistory(rs: seq<Registry>, calls: seq<Call>) {
    && |rs| == |calls| + 1 && rs[0] == Registry([], map[])
    && forall i | 0 <= i < |calls| :: Legal(rs[i], calls[i]) && rs[i + 1] == After(rs[i], calls[i])
  }

  /** Registration `id` is the last one under its name. */
  ghost predicate IsLast(r: Registry, id: nat) {
    id < |r.names| && forall j | id < j < |r.names| :: r.names[j] != r.names[id]
  }

  ghost predicate Disposed(calls: seq<Call>, i: nat, id: nat)
    requires i <= |calls|
  {
    exists j :: 0 <= j < i && calls[j] == Dispose(id)
  }

  lemma {:induction false} WriterIsRegistered(rs: seq<Registry>, calls: seq<Call>, i: nat, name: string)
    requires IsHistory(rs, calls) && i < |rs| && name in rs[i].writers
    ensures rs[i].writers[name] < |rs[i].names| && rs[i].names[rs[i].writers[name]] == name
    decreases i
  {
    if i > 0 {
      assert rs[i - 1 + 1] == After(rs[i - 1], calls[i - 1]);
      if name in rs[i - 1].writers {
        WriterIsRegistered(rs, calls, i - 1, name);
      }
    }
  }

  /** A name has exactly its last registration, until that one is disposed: disposing an earlier owner
      never takes its successor away. */
  lemma {:induction false} LastOwnerStays(rs: seq<Registry>, calls: seq<Call>, i: nat, id: nat)
    requires IsHistory(rs, calls) && i < |rs| && id < |rs[i].names|
    ensures var name := rs[i].names[id];
      (name in rs[i].writers && rs[i].writers[name] == id) <==> (IsLast(rs[i], id) && !Disposed(calls, i, id))
    decreases i
  {
    if i == 0 {
      return;
    }
    var r, c := rs[i - 1], calls[i - 1];
    assert rs[i - 1 + 1] == After(rs[i - 1], calls[i - 1]);
    if id < |r.names| {
      LastOwnerStays(rs, calls, i - 1, id);
      if c.Register? {
        LastAfterRegister(r, c.name, id);
      } else {
        assert IsLast(rs[i], id) <==> IsLast(r, id);
      }
      assert Disposed(calls, i, id) <==> Disposed(calls, i - 1, id) || c == Dispose(id);
    } else {
      NotYetDisposed(rs, calls, i, id);
    }
  }

  lemma LastAfterRegister(r: Registry, name: string, id: nat)
    requires id < |r.names|
    ensures IsLast(After(r, Register(name)), id) <==> IsLast(r, id) && name != r.names[id]
  {
    var t := After(r, Register(name));
    assert t.names[|r.names|] == name;
    assert forall j | 0 <= j < |r.names| :: t.names[j] == r.names[j];
    if IsLast(t, id) {
      forall j | id < j < |r.names| ensures r.names[j] != r.names[id] {
        assert t.names[j] != t.names[id];
      }
    }
  }

  lemma {:induction false} NotYetDisposed(rs: seq<Registry>, calls: seq<Call>, i: nat, id: nat)
    requires IsHistory(rs, calls) && 0 < i < |rs| && id >= |rs[i - 1].names|
    ensures !Disposed(calls, i, id)
    decreases i
  {
    assert Legal(rs[i - 1], calls[i - 1]);
    if i > 1 {
      assert rs[i - 2 + 1] == After(rs[i - 2], calls[i - 2]);
      NotYetDisposed(rs, calls, i - 1, id);
    }
  }

  // --- Flushing all owners --------------------------------------------------------------------------------

  /** One owner during a shutdown. Of a settings persister its run: the shutdown is called in state `called`, the
      step `flushed` calls the flush, and the step `settled` settles the promise that the flush returned. Of any
      other owner only the outcome is known. */
  datatype Owner =
    | Persister(states: seq<State>, events: seq<Event>, called: nat, flushed: nat, settled: nat)
    | Other(result: Outcome)

  function FlushOf(o: Owner): Flush
    requires o.Persister? && o.flushed < |o.states|
  {
    FlushCall(o.states[o.flushed])
  }

  /** `allSettled` has waited for the owner: its flush was called at or after the shutdown, and has settled. */
  ghost predicate Attempted(o: Owner) {
    o.Persister? ==>
      && IsRun(o.states, o.events) && o.called <= o.flushed < o.settled < |o.events|
      && o.events[o.flushed] == CallFlush && o.events[o.settled] == Finally(FlushOf(o).drain)
  }

  lemma SettlingIsEnabled(o: Owner)
    requires Attempted(o) && o.Persister?
    ensures Takes(o.states, o.events, o.settled) && EndedDrain(o.states[o.settled], FlushOf(o).drain)
  {
    assert Takes(o.states, o.events, o.settled);
  }

  /** How the flush of the owner came out. */
  function OutcomeOf(o: Owner): Outcome
    requires Attempted(o)
  {
    match o
    case Persister(states, _, _, _, settled) =>
      SettlingIsEnabled(o);
      states[settled].drains[FlushOf(o).drain].outcome
    case Other(result) => result
  }

  /** When the flush settled, all patches passed before the shutdown was called were stored. */
  ghost predicate Saved(o: Owner) {
    o.Persister? ==>
      && o.called < |o.states| && o.settled < |o.states|
      && exists n: nat :: |o.states[o.called].history| <= n && StoresPrefix(o.states[o.settled], n)
  }

  /** The flush was late, and when it settled some of the patches passed before it were still waiting. */
  ghost predicate LeftBehind(o: Owner) {
    && o.Persister? && o.flushed < |o.states| && o.settled < |o.states| && FlushOf(o).late
    && exists n: nat :: n < FlushOf(o).mark && PendingFrom(o.states[o.settled], n)
  }

  lemma {:induction false} FlushStays(states: seq<State>, events: seq<Event>, i: nat, j: nat, f: Flush)
    requires IsRun(states, events) && i <= j < |states| && f in states[i].flushes
    ensures f in states[j].flushes
    decreases j - i
  {
    if i < j {
      assert Takes(states, events, i);
      FlushStays(states, events, i + 1, j, f);
    }
  }

  lemma {:induction false} HistoryGrows(states: seq<State>, events: seq<Event>, i: nat, j: nat)
    requires IsRun(states, events) && i <= j < |states|
    ensures |states[i].history| <= |states[j].history|
    decreases j - i
  {
    if i < j {
      assert Takes(states, events, i);
      HistoryGrows(states, events, i + 1, j);
    }
  }

  /** An owner whose flush is fulfilled has stored what was passed before the shutdown, or its flush was late and
      left something behind; a flush that was not late leaves nothing behind. */
  lemma FulfilledIsSaved(o: Owner)
    requires Attempted(o) && OutcomeOf(o) == Fulfilled
    ensures Saved(o) || LeftBehind(o)
    ensures o.Persister? ==> (LeftBehind(o) <==> FlushOf(o).late)
    ensures o.Persister? && !FlushOf(o).late ==> Saved(o)
  {
    if o.Persister? {
      var f := FlushOf(o);
      SettlingIsEnabled(o);
      assert Takes(o.states, o.events, o.flushed);
      assert o.states[o.flushed + 1].flushes[|o.states[o.flushed].flushes|] == f;
      FlushStays(o.states, o.events, o.flushed + 1, o.settled, f);
      HistoryGrows(o.states, o.events, o.called, o.flushed);
      var kept := FlushGuarantee(o.states, o.events);
      assert Fulfils(o.states[o.settled], o.events[o.settled], f);
      assert TellsLate(o.states[o.settled], o.events[o.settled], f, kept[o.settled]);
    }
  }

  /** The module's map of writers. */
  class Writers {
    var names: seq<string>
    var writers: map<string, nat>

    function State(): Registry
      reads this
    {
      Registry(names, writers)
    }

    constructor ()
      ensures State() == Registry([], map[])
    {
      names, writers := [], map[];
    }

    /** Returns what the disposer needs to know. */
    method RegisterShutdownWriter(name: string) returns (id: nat)
      modifies this
      ensures State() == After(old(State()), Register(name))
      ensures id == |old(names)|
    {
      id := |names|;
      writers := writers[name := id];
      names := names + [name];
    }

    method Dispose(id: nat)
      requires Legal(State(), Call.Dispose(id))
      modifies this
      ensures State() == After(old(State()), Call.Dispose(id))
    {
      var name := names[id];
      if name in writers && writers[name] == id {
        writers := writers - {name};
      }
    }

    /** Attempts every owner even when one fails. `owners` tells how the flush of each registration runs. The
        answer is yes exactly if all flushes are fulfilled, and then every registered owner has stored all that
        was passed before the shutdown was called, but for those whose flush was late. */
    method FlushShutdownState(owners: map<nat, Owner>) returns (saved: bool)
      requires forall name | name in writers :: writers[name] in owners && Attempted(owners[writers[name]])
      ensures saved <==> forall name | name in writers :: OutcomeOf(owners[writers[name]]) == Fulfilled
      ensures saved ==> forall name | name in writers ::
        Saved(owners[writers[name]]) || LeftBehind(owners[writers[name]])
    {
      hide Attempted, Saved, LeftBehind, OutcomeOf;
      saved := true;
      var rest := writers.Keys;
      while rest != {}
        invariant rest <= writers.Keys
        invariant saved <==> forall name | name in writers && name !in rest ::
          OutcomeOf(owners[writers[name]]) == Fulfilled
        invariant saved ==> forall name | name in writers && name !in rest ::
          Saved(owners[writers[name]]) || LeftBehind(owners[writers[name]])
        decreases |rest|
      {
        var name :| name in rest;
        var outcome := OutcomeOf(owners[writers[name]]);
        if outcome == Fulfilled {
          FulfilledIsSaved(owners[writers[name]]);
        }
        saved := saved && outcome == Fulfilled;
        rest := rest - {name};
      }
    }
  }
}
