/** `mapSettled` and `mapWithConcurrency` of `src/shared/lang.ts`: a pool of workers over one shared
    iterator. A worker runs without interruption until it awaits a task; which of the awaited tasks
    finishes next is up to the schedule. */
module MapSettled {
  import opened Options

  /** What `fn` does when it is called for an item: throw at once, or return a promise that settles later. */
  datatype Attempt<R> = Throws(reason: string) | Rejects(reason: string) | Resolves(value: R)

  datatype Settled<R> = Fulfilled(value: R) | Rejected(reason: string) | Skipped

  datatype Worker = Awaiting(index: nat) | Done

  /** `calls` lists the indexes for which `fn` was called. */
  datatype Pool<R> = Pool(next: nat, stopped: bool, results: seq<Option<Settled<R>>>,
    workers: seq<Worker>, calls: seq<nat>)

  function OutcomeOf<R>(a: Attempt<R>): Settled<R> {
    match a
    case Throws(reason) => Rejected(reason)
    case Rejects(reason) => Rejected(reason)
    case Resolves(value) => Fulfilled(value)
  }

  /** Stores the outcome of item `i`. */
  function Record<R>(p: Pool<R>, i: nat, outcome: Settled<R>, stopOnError: bool): Pool<R>
    requires i < |p.results|
  {
    p.(results := p.results[i := Some(outcome)], stopped := p.stopped || (outcome.Rejected? && stopOnError))
  }

  /** Worker `w` takes items from the iterator until it awaits one or none are left. */
  function Advance<R>(task: nat -> Attempt<R>, stopOnError: bool, p: Pool<R>, w: nat): Pool<R>
    requires w < |p.workers|
    decreases |p.results| - p.next
  {
    if p.next >= |p.results| then p.(workers := p.workers[w := Done])
    else
      var i, q := p.next, p.(next := p.next + 1);
      if p.stopped then Advance(task, stopOnError, q.(results := q.results[i := Some(Skipped)]), w)
      else
        var called := q.(calls := q.calls + [i]);
        if task(i).Throws? then Advance(task, stopOnError, Record(called, i, OutcomeOf(task(i)), stopOnError), w)
        else called.(workers := called.workers[w := Awaiting(i)])
  }

  /** The call that worker `w` awaits has settled. */
  function Resume<R>(task: nat -> Attempt<R>, stopOnError: bool, p: Pool<R>, w: nat): Pool<R>
    requires w < |p.workers| && p.workers[w].Awaiting? && p.workers[w].index < |p.results|
  {
    var i := p.workers[w].index;
    Advance(task, stopOnError, Record(p, i, OutcomeOf(task(i)), stopOnError), w)
  }

  function WorkerCount(limit: int, items: nat): (m: nat)
    ensures m <= items
  {
    var least := if limit < items then limit else items;
    if least < 0 then 0 else least
  }

  /** The workers from `w` on are started, one after the other. */
  function StartFrom<R>(task: nat -> Attempt<R>, stopOnError: bool, p: Pool<R>, w: nat): Pool<R>
    requires w <= |p.workers|
    decreases |p.workers| - w
  {
    if w == |p.workers| then p
    else
      AdvanceKeepsSizes(task, stopOnError, p, w);
      StartFrom(task, stopOnError, Advance(task, stopOnError, p, w), w + 1)
  }

  lemma {:induction false} AdvanceKeepsSizes<R>(task: nat -> Attempt<R>, stopOnError: bool, p: Pool<R>, w: nat)
    requires w < |p.workers|
    ensures |Advance(task, stopOnError, p, w).workers| == |p.workers|
    ensures |Advance(task, stopOnError, p, w).results| == |p.results|
    decreases |p.results| - p.next
  {
    if p.next < |p.results| {
      var q := p.(next := p.next + 1);
      if p.stopped {
        AdvanceKeepsSizes(task, stopOnError, q.(results := q.results[p.next := Some(Skipped)]), w);
      } else if task(p.next).Throws? {
        AdvanceKeepsSizes(task, stopOnError,
          Record(q.(calls := q.calls + [p.next]), p.next, OutcomeOf(task(p.next)), stopOnError), w);
      }
    }
  }

  // --- The batch as an object -----------------------------------------------------------------------------

  class Batch<R> {
    const task: nat -> Attempt<R>
    const stopOnError: bool
    var results: array<Option<Settled<R>>>
    var next: nat
    var stopped: bool
    var workers: seq<Worker>
    ghost var calls: seq<nat>

    ghost function View(): Pool<R>
      reads this, results
    {
      Pool(next, stopped, results[..], workers, calls)
    }

    constructor (task: nat -> Attempt<R>, items: nat, limit: int, stopOnError: bool)
      ensures this.task == task && this.stopOnError == stopOnError && fresh(results)
      ensures View() == Pool(0, false, seq(items, _ => None), seq(WorkerCount(limit, items), _ => Done), [])
    {
      this.task, this.stopOnError := task, stopOnError;
      results := new Option<Settled<R>>[items](_ => None);
      next, stopped, calls := 0, false, [];
      workers := seq(WorkerCount(limit, items), _ => Done);
      new;
      assert results[..] == seq(items, _ => None);
    }

    /** The loop of a worker, from where it has control to its next `await` or its end. */
    method Loop(w: nat)
      requires w < |workers|
      modifies this, results
      ensures results == old(results)
      ensures View() == Advance(task, stopOnError, old(View()), w)
    {
      ghost var start := View();
      while next < results.Length
        invariant results == old(results) && |workers| == |start.workers|
        invariant Advance(task, stopOnError, View(), w) == Advance(task, stopOnError, start, w)
        decreases results.Length - next
      {
        ghost var before := View();
        var index := next;
        next := next + 1;
        if stopped {
          results[index] := Some(Skipped);
          assert View() == before.(next := index + 1, results := before.results[index := Some(Skipped)]);
          continue;
        }
        calls := calls + [index];
        var attempt := task(index);
        if !attempt.Throws? {
          workers := workers[w := Awaiting(index)];
          assert View() == before.(next := index + 1, calls := before.calls + [index],
              workers := before.workers[w := Awaiting(index)]);
          return;
        }
        results[index] := Some(OutcomeOf(attempt));
        if stopOnError {
          stopped := true;
        }
        assert View() == Record(before.(next := index + 1, calls := before.calls + [index]),
          index, OutcomeOf(attempt), stopOnError);
      }
      workers := workers[w := Done];
    }

    /** Starts the workers one after the other. */
    method Start()
      modifies this, results
      ensures results == old(results)
      ensures View() == StartFrom(task, stopOnError, old(View()), 0)
    {
      ghost var start := View();
      var w := 0;
      while w < |workers|
        invariant results == old(results) && 0 <= w <= |workers|
        invariant StartFrom(task, stopOnError, View(), w) == StartFrom(task, stopOnError, start, 0)
        decreases |workers| - w
      {
        AdvanceKeepsSizes(task, stopOnError, View(), w);
        Loop(w);
        w := w + 1;
      }
    }

    /** Worker `w` goes on after its `await`. */
    method Settle(w: nat)
      requires w < |workers| && workers[w].Awaiting? && workers[w].index < results.Length
      modifies this, results
      ensures results == old(results)
      ensures View() == Resume(task, stopOnError, old(View()), w)
    {
      var index := workers[w].index;
      var outcome := OutcomeOf(task(index));
      results[index] := Some(outcome);
      if outcome.Rejected? && stopOnError {
        stopped := true;
      }
      assert View() == Record(old(View()), index, outcome, stopOnError);
      Loop(w);
    }
  }
}
