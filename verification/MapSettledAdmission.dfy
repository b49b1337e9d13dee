/** Which items `mapSettled` admits, and when: as many at a time as the limit allows while nothing stops the batch, and
    none any more once a failure has. */
module MapSettledAdmission {
  import opened Options
  import opened MapSettled
  import opened MapSettledRuns

  /** Some outcome is a failure, and failures stop the batch. */
  ghost predicate Halted<R>(stopOnError: bool, p: Pool<R>) {
    stopOnError && exists k :: 0 <= k < |p.results| && p.results[k].Some? && p.results[k].value.Rejected?
  }

  lemma HaltedIsStopped<R>(task: nat -> Attempt<R>, stopOnError: bool, p: Pool<R>, busy: int, started: nat)
    requires Inv(task, stopOnError, p, busy, started)
    ensures p.stopped <==> Halted(stopOnError, p)
  {
    if p.stopped {
      var k :| Failed(p, k);
    }
    if Halted(stopOnError, p) {
      var k :| 0 <= k < |p.results| && p.results[k].Some? && p.results[k].value.Rejected?;
      assert Failed(p, k);
    }
  }

  // --- A full house -----------------------------------------------------------------------------------------

  /** How many tasks may run at a time. */
  function Places(limit: int, items: nat): nat {
    if limit < 0 then 0 else if limit < items then limit else items
  }

  lemma {:induction false} AllAwait(workers: seq<Worker>)
    requires forall v | 0 <= v < |workers| :: workers[v].Awaiting?
    ensures AwaitingCount(workers) == |workers|
    decreases |workers|
  {
    if workers != [] {
      AllAwait(workers[..|workers| - 1]);
    }
  }

  /** While the batch is not stopped and items are left, every place is taken. */
  lemma PlacesAreTaken<R>(task: nat -> Attempt<R>, stopOnError: bool, items: nat, limit: int, pools: seq<Pool<R>>,
      schedule: seq<nat>, i: nat)
    requires IsRun(task, stopOnError, items, limit, pools, schedule) && i < |pools|
    ensures |pools[i].workers| == Places(limit, items)
    ensures !Halted(stopOnError, pools[i]) && |pools[i].calls| < items ==>
      AwaitingCount(pools[i].workers) == Places(limit, items)
  {
    var p := pools[i];
    RunKeeps(task, stopOnError, items, limit, pools, schedule, i);
    HaltedIsStopped(task, stopOnError, p, -1, |p.workers|);
    if !p.stopped && |p.calls| < items {
      forall v | 0 <= v < |p.workers| ensures p.workers[v].Awaiting? {
        assert p.workers[v].Done? ==> p.next >= |p.results|;
      }
      AllAwait(p.workers);
    }
  }

  // --- Nothing more after a failure -------------------------------------------------------------------------

  /** In a stopped batch a worker calls nothing. */
  lemma {:induction false} StoppedCallsNothing<R>(task: nat -> Attempt<R>, stopOnError: bool, p: Pool<R>, w: nat)
    requires w < |p.workers| && p.stopped
    ensures Advance(task, stopOnError, p, w).calls == p.calls
    decreases |p.results| - p.next
  {
    if p.next < |p.results| {
      StoppedCallsNothing(task, stopOnError, p.(next := p.next + 1, results := p.results[p.next := Some(Skipped)]), w);
    }
  }

  /** The step that settles a failing task admits nothing, nor does any step after it. */
  lemma StepAdmitsNothing<R>(task: nat -> Attempt<R>, stopOnError: bool, items: nat, limit: int, pools: seq<Pool<R>>,
      schedule: seq<nat>, i: nat)
    requires IsRun(task, stopOnError, items, limit, pools, schedule) && i < |schedule|
    ensures schedule[i] < |pools[i].workers| && pools[i].workers[schedule[i]].Awaiting?
    ensures Halted(stopOnError, pools[i]) || (stopOnError && !task(pools[i].workers[schedule[i]].index).Resolves?) ==>
      pools[i + 1].calls == pools[i].calls && Halted(stopOnError, pools[i + 1])
  {
    var p, w := pools[i], schedule[i];
    assert Takes(task, stopOnError, pools, schedule, i);
    RunKeeps(task, stopOnError, items, limit, pools, schedule, i);
    RunKeeps(task, stopOnError, items, limit, pools, schedule, i + 1);
    HaltedIsStopped(task, stopOnError, p, -1, |p.workers|);
    HaltedIsStopped(task, stopOnError, pools[i + 1], -1, |p.workers|);
    var q := Record(p, p.workers[w].index, OutcomeOf(task(p.workers[w].index)), stopOnError);
    if q.stopped {
      StoppedCallsNothing(task, stopOnError, q, w);
      StaysStopped(task, stopOnError, q, w);
    }
  }

  lemma {:induction false} StaysStopped<R>(task: nat -> Attempt<R>, stopOnError: bool, p: Pool<R>, w: nat)
    requires w < |p.workers| && p.stopped
    ensures Advance(task, stopOnError, p, w).stopped
    decreases |p.results| - p.next
  {
    if p.next < |p.results| {
      StaysStopped(task, stopOnError, p.(next := p.next + 1, results := p.results[p.next := Some(Skipped)]), w);
    }
  }

  /** Once a failure has stopped the batch, no further item is admitted, whatever the schedule. */
  lemma {:induction false} NothingIsAdmittedAfterFailure<R>(task: nat -> Attempt<R>, stopOnError: bool, items: nat,
      limit: int, pools: seq<Pool<R>>, schedule: seq<nat>, i: nat, j: nat)
    requires IsRun(task, stopOnError, items, limit, pools, schedule) && i <= j < |pools|
    requires Halted(stopOnError, pools[i])
    ensures pools[j].calls == pools[i].calls && Halted(stopOnError, pools[j])
    decreases j
  {
    if i < j {
      NothingIsAdmittedAfterFailure(task, stopOnError, items, limit, pools, schedule, i, j - 1);
      StepAdmitsNothing(task, stopOnError, items, limit, pools, schedule, j - 1);
    }
  }

  // --- A task that throws at once -----------------------------------------------------------------------------

  /** If failures stop the batch, a call that throws at once is the last one. */
  ghost predicate ThrowIsLast<R>(task: nat -> Attempt<R>, p: Pool<R>) {
    forall k | 0 <= k < |p.calls| && task(p.calls[k]).Throws? :: k == |p.calls| - 1 && p.stopped
  }

  lemma {:induction false} AdvanceThrowsOnce<R>(task: nat -> Attempt<R>, p: Pool<R>, w: nat)
    requires w < |p.workers| && ThrowIsLast(task, p)
    ensures ThrowIsLast(task, Advance(task, true, p, w))
    decreases |p.results| - p.next
  {
    if p.next < |p.results| {
      var q := p.(next := p.next + 1);
      if p.stopped {
        AdvanceThrowsOnce(task, q.(results := q.results[p.next := Some(Skipped)]), w);
      } else if task(p.next).Throws? {
        AdvanceThrowsOnce(task, Record(q.(calls := q.calls + [p.next]), p.next, OutcomeOf(task(p.next)), true), w);
      }
    }
  }

  lemma {:induction false} StartThrowsOnce<R>(task: nat -> Attempt<R>, p: Pool<R>, w: nat)
    requires w <= |p.workers| && ThrowIsLast(task, p)
    ensures ThrowIsLast(task, StartFrom(task, true, p, w))
    decreases |p.workers| - w
  {
    if w < |p.workers| {
      AdvanceKeepsSizes(task, true, p, w);
      AdvanceThrowsOnce(task, p, w);
      StartThrowsOnce(task, Advance(task, true, p, w), w + 1);
    }
  }

  lemma {:induction false} RunThrowsOnce<R>(task: nat -> Attempt<R>, items: nat, limit: int, pools: seq<Pool<R>>,
      schedule: seq<nat>, i: nat)
    requires IsRun(task, true, items, limit, pools, schedule) && i < |pools|
    ensures ThrowIsLast(task, pools[i])
    decreases i
  {
    if i == 0 {
      StartThrowsOnce(task, Fresh(items, limit), 0);
    } else {
      RunThrowsOnce(task, items, limit, pools, schedule, i - 1);
      assert Takes(task, true, pools, schedule, i - 1);
      var p, w := pools[i - 1], schedule[i - 1];
      var k := p.workers[w].index;
      AdvanceThrowsOnce(task, Record(p, k, OutcomeOf(task(k)), true), w);
    }
  }

  /** If failures stop the batch, nothing is called after a task that throws at once. */
  lemma NothingIsCalledAfterThrow<R>(task: nat -> Attempt<R>, items: nat, limit: int, pools: seq<Pool<R>>,
      schedule: seq<nat>, i: nat, k: nat)
    requires IsRun(task, true, items, limit, pools, schedule) && i < |pools|
    requires k < |pools[i].calls| && task(k).Throws?
    ensures k == |pools[i].calls| - 1
  {
    RunThrowsOnce(task, items, limit, pools, schedule, i);
    EachItemOnce(task, true, items, limit, pools, schedule, i);
    assert pools[i].calls[k] == k;
  }

  /** Without `stopOnError` every item is called in the end. */
  lemma EveryItemIsCalled<R>(task: nat -> Attempt<R>, items: nat, limit: int, pools: seq<Pool<R>>, schedule: seq<nat>)
    requires IsRun(task, false, items, limit, pools, schedule) && AllDone(pools[|schedule|]) && limit >= 1
    ensures |pools[|schedule|].calls| == items
  {
    SettledBatch(task, false, items, limit, pools, schedule);
  }
}
