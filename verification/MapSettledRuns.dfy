/** What `mapSettled` does under every schedule. */
module MapSettledRuns {
  import opened Options
  import opened MapSettled

  // --- The invariant --------------------------------------------------------------------------------------

  /** A worker other than the one in control (`busy`) awaits item `i`. */
  ghost predicate Awaited<R>(p: Pool<R>, busy: int, i: nat) {
    exists v :: 0 <= v < |p.workers| && v != busy && p.workers[v] == Awaiting(i)
  }

  /** Items are handed out in order: `fn` was called for the first ones, the rest of those handed out were
      skipped. A called item has its own outcome or is awaited. */
  ghost predicate Items<R>(task: nat -> Attempt<R>, p: Pool<R>, busy: int) {
    && |p.calls| <= p.next <= |p.results|
    && (forall i | 0 <= i < |p.calls| :: p.calls[i] == i)
    && (forall i | 0 <= i < |p.calls| ::
          p.results[i] == Some(OutcomeOf(task(i))) || (p.results[i] == None && Awaited(p, busy, i)))
    && (forall i | |p.calls| <= i < p.next :: p.results[i] == Some(Skipped))
    && (forall i | p.next <= i < |p.results| :: p.results[i] == None)
  }

  /** No two workers await the same item, and an awaited item has no outcome yet. Workers are started in
      order; one that is done left no item behind. */
  ghost predicate Workers<R>(p: Pool<R>, busy: int, started: nat) {
    && started <= |p.workers|
    && (forall v | 0 <= v < |p.workers| && v != busy && p.workers[v].Awaiting? ::
          v < started && p.workers[v].index < |p.calls| <= |p.results| && p.results[p.workers[v].index] == None)
    && (forall u, v | 0 <= u < v < |p.workers| && u != busy && v != busy && p.workers[u].Awaiting? ::
        p.workers[u] != p.workers[v])
    && (forall v | 0 <= v < started && v != busy && p.workers[v].Done? :: p.next >= |p.results|)
  }

  ghost predicate Failed<R>(p: Pool<R>, i: nat) {
    i < |p.calls| <= |p.results| && p.results[i].Some? && p.results[i].value.Rejected?
  }

  /** The batch has stopped exactly when some item failed and failures stop it; before, nothing is skipped. */
  ghost predicate Stopping<R>(stopOnError: bool, p: Pool<R>) {
    && (p.stopped <==> stopOnError && exists i :: Failed(p, i))
    && (!p.stopped ==> |p.calls| == p.next)
  }

  ghost predicate Inv<R>(task: nat -> Attempt<R>, stopOnError: bool, p: Pool<R>, busy: int, started: nat) {
    Items(task, p, busy) && Workers(p, busy, started) && Stopping(stopOnError, p)
  }

  // --- One worker ---------------------------------------------------------------------------------------

  lemma SkipKeeps<R>(task: nat -> Attempt<R>, stopOnError: bool, p: Pool<R>, w: nat, started: nat)
    requires Inv(task, stopOnError, p, w, started) && p.next < |p.results| && p.stopped
    ensures Inv(task, stopOnError, p.(next := p.next + 1, results := p.results[p.next := Some(Skipped)]), w, started)
  {
    var q := p.(next := p.next + 1, results := p.results[p.next := Some(Skipped)]);
    forall i | 0 <= i < |q.calls| ensures q.results[i] == Some(OutcomeOf(task(i)))
      || (q.results[i] == None && Awaited(q, w, i)) {
      if Awaited(p, w, i) {
        assert Awaited(q, w, i);
      }
    }
    var j :| Failed(p, j);
    assert Failed(q, j);
  }

  lemma FailKeeps<R>(task: nat -> Attempt<R>, stopOnError: bool, p: Pool<R>, w: nat, started: nat)
    requires Inv(task, stopOnError, p, w, started) && p.next < |p.results| && !p.stopped && task(p.next).Throws?
    ensures Inv(task, stopOnError,
                Record(p.(next := p.next + 1, calls := p.calls + [p.next]),
                  p.next, OutcomeOf(task(p.next)), stopOnError), w, started)
  {
    var i := p.next;
    var q := Record(p.(next := i + 1, calls := p.calls + [i]), i, OutcomeOf(task(i)), stopOnError);
    forall j | 0 <= j < |q.calls| ensures q.results[j] == Some(OutcomeOf(task(j)))
      || (q.results[j] == None && Awaited(q, w, j)) {
      if j < i && Awaited(p, w, j) {
        assert Awaited(q, w, j);
      }
    }
    assert Failed(q, i);
  }

  lemma CallKeeps<R>(task: nat -> Attempt<R>, stopOnError: bool, p: Pool<R>, w: nat, started: nat)
    requires Inv(task, stopOnError, p, w, started) && p.next < |p.results| && !p.stopped && w < |p.workers|
    requires w < started
    ensures Inv(task, stopOnError,
                p.(next := p.next + 1, calls := p.calls + [p.next],
                  workers := p.workers[w := Awaiting(p.next)]), -1, started)
  {
    var i := p.next;
    var q := p.(next := i + 1, calls := p.calls + [i], workers := p.workers[w := Awaiting(i)]);
    assert q.workers[w] == Awaiting(i);
    forall j | 0 <= j < |q.calls| ensures q.results[j] == Some(OutcomeOf(task(j)))
      || (q.results[j] == None && Awaited(q, -1, j)) {
      if j < i {
        if Awaited(p, w, j) {
          var v :| 0 <= v < |p.workers| && v != w && p.workers[v] == Awaiting(j);
          assert q.workers[v] == Awaiting(j);
        }
      }
    }
    forall j ensures Failed(q, j) <==> Failed(p, j) {
    }
  }

  lemma DoneKeeps<R>(task: nat -> Attempt<R>, stopOnError: bool, p: Pool<R>, w: nat, started: nat)
    requires Inv(task, stopOnError, p, w, started) && p.next >= |p.results| && w < |p.workers|
    ensures Inv(task, stopOnError, p.(workers := p.workers[w := Done]), -1, started)
  {
    var q := p.(workers := p.workers[w := Done]);
    forall j | 0 <= j < |q.calls| ensures q.results[j] == Some(OutcomeOf(task(j)))
      || (q.results[j] == None && Awaited(q, -1, j)) {
      if Awaited(p, w, j) {
        var v :| 0 <= v < |p.workers| && v != w && p.workers[v] == Awaiting(j);
        assert q.workers[v] == Awaiting(j);
      }
    }
    forall j ensures Failed(q, j) <==> Failed(p, j) {
    }
  }

  lemma {:induction false} AdvanceKeeps<R>(task: nat -> Attempt<R>, stopOnError: bool, p: Pool<R>, w: nat, started: nat)
    requires Inv(task, stopOnError, p, w, started) && w < started
    ensures var q := Advance(task, stopOnError, p, w);
      Inv(task, stopOnError, q, -1, started) && |q.workers| == |p.workers| && |q.results| == |p.results|
    decreases |p.results| - p.next
  {
    hide Items, Stopping, Failed;
    if p.next >= |p.results| {
      DoneKeeps(task, stopOnError, p, w, started);
    } else if p.stopped {
      SkipKeeps(task, stopOnError, p, w, started);
      AdvanceKeeps(task, stopOnError,
        p.(next := p.next + 1, results := p.results[p.next := Some(Skipped)]), w, started);
    } else if task(p.next).Throws? {
      FailKeeps(task, stopOnError, p, w, started);
      AdvanceKeeps(task, stopOnError,
        Record(p.(next := p.next + 1, calls := p.calls + [p.next]), p.next, OutcomeOf(task(p.next)), stopOnError),
        w, started);
    } else {
      CallKeeps(task, stopOnError, p, w, started);
    }
  }

  /** A settled task's outcome is recorded; its worker is in control again. */
  lemma RecordKeeps<R>(task: nat -> Attempt<R>, stopOnError: bool, p: Pool<R>, w: nat)
    requires Inv(task, stopOnError, p, -1, |p.workers|) && w < |p.workers| && p.workers[w].Awaiting?
    ensures p.workers[w].index < |p.results|
    ensures var i := p.workers[w].index;
      Inv(task, stopOnError, Record(p, i, OutcomeOf(task(i)), stopOnError), w, |p.workers|)
  {
    var i := p.workers[w].index;
    var q := Record(p, i, OutcomeOf(task(i)), stopOnError);
    forall j | 0 <= j < |q.calls| ensures q.results[j] == Some(OutcomeOf(task(j)))
      || (q.results[j] == None && Awaited(q, w, j)) {
      if j != i && Awaited(p, -1, j) {
        var v :| 0 <= v < |p.workers| && v != -1 && p.workers[v] == Awaiting(j);
        assert q.workers[v] == Awaiting(j) && v != w;
      }
    }
    forall j ensures Failed(q, j) <==> Failed(p, j) || (j == i && OutcomeOf(task(i)).Rejected?) {
    }
    if OutcomeOf(task(i)).Rejected? {
      assert Failed(q, i);
    }
    if p.stopped {
      var j :| Failed(p, j);
      assert Failed(q, j);
    }
  }

  lemma ResumeKeeps<R>(task: nat -> Attempt<R>, stopOnError: bool, p: Pool<R>, w: nat)
    requires Inv(task, stopOnError, p, -1, |p.workers|) && w < |p.workers| && p.workers[w].Awaiting?
    ensures p.workers[w].index < |p.results|
    ensures var q := Resume(task, stopOnError, p, w);
      Inv(task, stopOnError, q, -1, |q.workers|) && |q.workers| == |p.workers| && |q.results| == |p.results|
  {
    RecordKeeps(task, stopOnError, p, w);
    var i := p.workers[w].index;
    AdvanceKeeps(task, stopOnError, Record(p, i, OutcomeOf(task(i)), stopOnError), w, |p.workers|);
  }

  // --- Runs -----------------------------------------------------------------------------------------------

  function Fresh<R>(items: nat, limit: int): Pool<R> {
    Pool(0, false, seq(items, _ => None), seq(WorkerCount(limit, items), _ => Done), [])
  }

  lemma {:induction false} StartKeeps<R>(task: nat -> Attempt<R>, stopOnError: bool, p: Pool<R>, w: nat)
    requires Inv(task, stopOnError, p, -1, w) && forall v | w <= v < |p.workers| :: p.workers[v] == Done
    ensures var q := StartFrom(task, stopOnError, p, w);
      Inv(task, stopOnError, q, -1, |q.workers|) && |q.workers| == |p.workers| && |q.results| == |p.results|
    decreases |p.workers| - w
  {
    if w < |p.workers| {
      BusyFromIdle(task, stopOnError, p, w);
      AdvanceKeeps(task, stopOnError, p, w, w + 1);
      AdvanceKeepsSizes(task, stopOnError, p, w);
      OthersUntouched(task, stopOnError, p, w);
      StartKeeps(task, stopOnError, Advance(task, stopOnError, p, w), w + 1);
    }
  }

  /** A worker that awaits nothing may take control. */
  lemma BusyFromIdle<R>(task: nat -> Attempt<R>, stopOnError: bool, p: Pool<R>, w: nat)
    requires Inv(task, stopOnError, p, -1, w) && w < |p.workers| && p.workers[w] == Done
    ensures Inv(task, stopOnError, p, w, w + 1)
  {
    forall i | 0 <= i < |p.calls| ensures Awaited(p, -1, i) ==> Awaited(p, w, i) {
      if Awaited(p, -1, i) {
        var v :| 0 <= v < |p.workers| && v != -1 && p.workers[v] == Awaiting(i);
        assert v != w;
      }
    }
  }

  lemma {:induction false} OthersUntouched<R>(task: nat -> Attempt<R>, stopOnError: bool, p: Pool<R>, w: nat)
    requires w < |p.workers|
    ensures |Advance(task, stopOnError, p, w).workers| == |p.workers|
    ensures forall v | 0 <= v < |p.workers| && v != w :: Advance(task, stopOnError, p, w).workers[v] == p.workers[v]
    decreases |p.results| - p.next
  {
    if p.next < |p.results| {
      var q := p.(next := p.next + 1);
      if p.stopped {
        OthersUntouched(task, stopOnError, q.(results := q.results[p.next := Some(Skipped)]), w);
      } else if task(p.next).Throws? {
        OthersUntouched(task, stopOnError,
          Record(q.(calls := q.calls + [p.next]), p.next, OutcomeOf(task(p.next)), stopOnError), w);
      }
    }
  }

  /** Step `i` of a run: the call of worker `schedule[i]` settles. */
  ghost predicate Takes<R>(task: nat -> Attempt<R>, stopOnError: bool, pools: seq<Pool<R>>, schedule: seq<nat>, i: nat)
    requires i < |schedule| && |pools| == |schedule| + 1
  {
    var w := schedule[i];
    && w < |pools[i].workers| && pools[i].workers[w].Awaiting? && pools[i].workers[w].index < |pools[i].results|
    && pools[i + 1] == Resume(task, stopOnError, pools[i], w)
  }

  ghost predicate IsRun<R>(task: nat -> Attempt<R>, stopOnError: bool, items: nat, limit: int, pools: seq<Pool<R>>,
      schedule: seq<nat>) {
    && |pools| == |schedule| + 1
    && pools[0] == StartFrom(task, stopOnError, Fresh(items, limit), 0)
    && forall i | 0 <= i < |schedule| :: Takes(task, stopOnError, pools, schedule, i)
  }

  lemma {:induction false} RunKeeps<R>(task: nat -> Attempt<R>, stopOnError: bool, items: nat, limit: int,
      pools: seq<Pool<R>>, schedule: seq<nat>, i: nat)
    requires IsRun(task, stopOnError, items, limit, pools, schedule) && i < |pools|
    ensures Inv(task, stopOnError, pools[i], -1, |pools[i].workers|)
    ensures |pools[i].workers| == WorkerCount(limit, items) && |pools[i].results| == items
    decreases i
  {
    if i == 0 {
      StartKeeps(task, stopOnError, Fresh(items, limit), 0);
    } else {
      RunKeeps(task, stopOnError, items, limit, pools, schedule, i - 1);
      assert Takes(task, stopOnError, pools, schedule, i - 1);
      ResumeKeeps(task, stopOnError, pools[i - 1], schedule[i - 1]);
    }
  }

  // --- What is promised about every state ---------------------------------------------------------------

  /** Every item is handed out at most once and in order, no two workers run the same item, at most `limit`
      items run, and an item that has an outcome has its own, or was skipped. */
  lemma EachItemOnce<R>(task: nat -> Attempt<R>, stopOnError: bool, items: nat, limit: int, pools: seq<Pool<R>>,
      schedule: seq<nat>, i: nat)
    requires IsRun(task, stopOnError, items, limit, pools, schedule) && i < |pools|
    ensures var p := pools[i];
      && |p.results| == items && |p.workers| <= (if limit < 0 then 0 else limit)
      && (forall k | 0 <= k < |p.calls| :: p.calls[k] == k)
      && (forall u, v | 0 <= u < v < |p.workers| && p.workers[u].Awaiting? :: p.workers[u] != p.workers[v])
      && (forall k | 0 <= k < items && p.results[k].Some? ::
            p.results[k].value == (if k < |p.calls| then OutcomeOf(task(k)) else Skipped))
  {
    RunKeeps(task, stopOnError, items, limit, pools, schedule, i);
  }

  /** The promise of the batch is settled: all workers have returned. */
  ghost predicate AllDone<R>(p: Pool<R>) {
    forall v | 0 <= v < |p.workers| :: p.workers[v] == Done
  }

  /** When the batch settles nothing runs; every item has its outcome, the first ones that of their own call
      and the others `Skipped`; and items are skipped only after a failure that was to stop the batch. It
      needs one worker at least, unless there is nothing to do. */
  lemma SettledBatch<R>(task: nat -> Attempt<R>, stopOnError: bool, items: nat, limit: int, pools: seq<Pool<R>>,
      schedule: seq<nat>)
    requires IsRun(task, stopOnError, items, limit, pools, schedule) && AllDone(pools[|schedule|])
    ensures var p := pools[|schedule|]; |p.results| == items && |p.calls| <= items
    ensures var p := pools[|schedule|];
      (forall k | 0 <= k < items :: p.results[k].Some?) <==> items == 0 || limit >= 1
    ensures var p := pools[|schedule|]; limit >= 1 ==>
      && (forall k | 0 <= k < items :: p.results[k] == Some(if k < |p.calls| then OutcomeOf(task(k)) else Skipped))
      && (|p.calls| < items ==> stopOnError && exists k :: 0 <= k < |p.calls| && OutcomeOf(task(k)).Rejected?)
  {
    var p := pools[|schedule|];
    RunKeeps(task, stopOnError, items, limit, pools, schedule, |schedule|);
    forall k | 0 <= k < |p.calls| ensures p.results[k] == Some(OutcomeOf(task(k))) {
      assert !Awaited(p, -1, k);
    }
    if items > 0 && limit >= 1 {
      assert p.workers[0] == Done;
    }
    if items > 0 && limit < 1 {
      NothingStarts(task, stopOnError, items, limit, pools, schedule, |schedule|);
      assert p.results[0] == None;
    }
    if p.stopped {
      var k :| Failed(p, k);
      assert OutcomeOf(task(k)).Rejected?;
    }
  }

  /** Without workers nothing ever happens. */
  lemma {:induction false} NothingStarts<R>(task: nat -> Attempt<R>, stopOnError: bool, items: nat, limit: int,
      pools: seq<Pool<R>>, schedule: seq<nat>, i: nat)
    requires IsRun(task, stopOnError, items, limit, pools, schedule) && i < |pools| && limit < 1
    ensures pools[i] == Fresh(items, limit)
    decreases i
  {
    if i > 0 {
      assert Takes(task, stopOnError, pools, schedule, i - 1);
      NothingStarts(task, stopOnError, items, limit, pools, schedule, i - 1);
    }
  }

  // --- Every batch settles --------------------------------------------------------------------------------

  function AwaitingCount(workers: seq<Worker>): nat {
    if workers == [] then 0
    else AwaitingCount(workers[..|workers| - 1]) + if workers[|workers| - 1].Awaiting? then 1 else 0
  }

  lemma {:induction false} CountUpdate(workers: seq<Worker>, w: nat, x: Worker)
    requires w < |workers|
    ensures AwaitingCount(workers[w := x]) + (if workers[w].Awaiting? then 1 else 0)
         == AwaitingCount(workers) + (if x.Awaiting? then 1 else 0)
    decreases |workers|
  {
    var last := |workers| - 1;
    var updated := workers[w := x];
    if w < last {
      CountUpdate(workers[..last], w, x);
      assert updated[..last] == workers[..last][w := x];
    } else {
      assert updated[..last] == workers[..last];
    }
  }

  /** The calls still possible and the tasks still awaited. */
  function Left<R>(p: Pool<R>): int {
    |p.results| - |p.calls| + AwaitingCount(p.workers)
  }

  lemma {:induction false} AdvanceUsesUp<R>(task: nat -> Attempt<R>, stopOnError: bool, p: Pool<R>, w: nat)
    requires w < |p.workers|
    ensures Left(Advance(task, stopOnError, p, w)) + (if p.workers[w].Awaiting? then 1 else 0) <= Left(p)
    decreases |p.results| - p.next
  {
    if p.next >= |p.results| {
      CountUpdate(p.workers, w, Done);
    } else {
      var q := p.(next := p.next + 1);
      if p.stopped {
        AdvanceUsesUp(task, stopOnError, q.(results := q.results[p.next := Some(Skipped)]), w);
      } else if task(p.next).Throws? {
        AdvanceUsesUp(task, stopOnError,
          Record(q.(calls := q.calls + [p.next]), p.next, OutcomeOf(task(p.next)), stopOnError), w);
      } else {
        CountUpdate(p.workers, w, Awaiting(p.next));
      }
    }
  }

  lemma {:induction false} StartUsesUp<R>(task: nat -> Attempt<R>, stopOnError: bool, p: Pool<R>, w: nat)
    requires w <= |p.workers|
    ensures Left(StartFrom(task, stopOnError, p, w)) <= Left(p)
    decreases |p.workers| - w
  {
    if w < |p.workers| {
      AdvanceKeepsSizes(task, stopOnError, p, w);
      AdvanceUsesUp(task, stopOnError, p, w);
      StartUsesUp(task, stopOnError, Advance(task, stopOnError, p, w), w + 1);
    }
  }

  lemma {:induction false} NobodyAwaits(workers: seq<Worker>)
    requires forall v | 0 <= v < |workers| :: workers[v] == Done
    ensures AwaitingCount(workers) == 0
    decreases |workers|
  {
    if workers != [] {
      NobodyAwaits(workers[..|workers| - 1]);
    }
  }

  lemma {:induction false} RunUsesUp<R>(task: nat -> Attempt<R>, stopOnError: bool, items: nat, limit: int,
      pools: seq<Pool<R>>, schedule: seq<nat>, i: nat)
    requires IsRun(task, stopOnError, items, limit, pools, schedule) && i < |pools|
    ensures Left(pools[i]) + i <= items
    decreases i
  {
    if i == 0 {
      StartUsesUp(task, stopOnError, Fresh(items, limit), 0);
      NobodyAwaits(Fresh<R>(items, limit).workers);
    } else {
      RunUsesUp(task, stopOnError, items, limit, pools, schedule, i - 1);
      assert Takes(task, stopOnError, pools, schedule, i - 1);
      var p, w := pools[i - 1], schedule[i - 1];
      var k := p.workers[w].index;
      AdvanceUsesUp(task, stopOnError, Record(p, k, OutcomeOf(task(k)), stopOnError), w);
    }
  }

  /** No schedule settles more tasks than there are items, and a batch in which no task is awaited has
      settled: every batch comes to its end. */
  lemma EveryBatchSettles<R>(task: nat -> Attempt<R>, stopOnError: bool, items: nat, limit: int, pools: seq<Pool<R>>,
      schedule: seq<nat>)
    requires IsRun(task, stopOnError, items, limit, pools, schedule)
    ensures |schedule| <= items
    ensures !AllDone(pools[|schedule|]) ==>
      exists w :: 0 <= w < |pools[|schedule|].workers| && pools[|schedule|].workers[w].Awaiting?
  {
    RunUsesUp(task, stopOnError, items, limit, pools, schedule, |schedule|);
    RunKeeps(task, stopOnError, items, limit, pools, schedule, |schedule|);
  }

  // --- mapWithConcurrency ---------------------------------------------------------------------------------

  /** What the caller gets: the first failure, or the values; `None` stands for `undefined`. */
  datatype Answer<R> = Throw(reason: string) | Values(values: seq<Option<R>>)

  ghost predicate FirstRejection<R>(settled: seq<Settled<R>>, i: nat, reason: string) {
    i < |settled| && settled[i] == Rejected(reason) && forall j | 0 <= j < i :: !settled[j].Rejected?
  }

  /** The failure of the first rejected outcome, or what was fulfilled, in order. */
  ghost predicate IsAnswer<R>(settled: seq<Settled<R>>, answer: Answer<R>) {
    match answer
    case Throw(reason) => exists i :: 0 <= i < |settled| && FirstRejection(settled, i, reason)
    case Values(values) =>
      && |values| == |settled|
      && forall i | 0 <= i < |settled| ::
        && !settled[i].Rejected?
        && values[i] == if settled[i].Fulfilled? then Some(settled[i].value) else None
  }

  method MapWithConcurrency<R>(settled: seq<Settled<R>>) returns (answer: Answer<R>)
    ensures IsAnswer(settled, answer)
  {
    var values: seq<Option<R>> := [];
    var n := 0;
    while n < |settled|
      invariant 0 <= n <= |settled| && |values| == n
      invariant forall i | 0 <= i < n ::
        && !settled[i].Rejected?
        && values[i] == if settled[i].Fulfilled? then Some(settled[i].value) else None
    {
      if settled[n].Rejected? {
        assert FirstRejection(settled, n, settled[n].reason);
        return Throw(settled[n].reason);
      }
      values := values + [if settled[n].Fulfilled? then Some(settled[n].value) else None];
      n := n + 1;
    }
    answer := Values(values);
  }

  predicate AllSettled<R>(p: Pool<R>) {
    forall i | 0 <= i < |p.results| :: p.results[i].Some?
  }

  function OutcomesOf<R>(p: Pool<R>): seq<Settled<R>>
    requires AllSettled(p)
  {
    seq(|p.results|, i requires 0 <= i < |p.results| => p.results[i].value)
  }

  /** The first failing item, whether or not its task is called, or `items` when none fails. */
  function FirstFailure<R>(task: nat -> Attempt<R>, items: nat, from: nat): (i: nat)
    requires from <= items
    ensures from <= i <= items
    ensures i < items ==> !task(i).Resolves?
    decreases items - from
  {
    if from == items || !task(from).Resolves? then from else FirstFailure(task, items, from + 1)
  }

  lemma {:induction false} NoFailureBefore<R>(task: nat -> Attempt<R>, items: nat, from: nat)
    requires from <= items
    ensures forall j | from <= j < FirstFailure(task, items, from) :: task(j).Resolves?
    decreases items - from
  {
    if from < items && task(from).Resolves? {
      NoFailureBefore(task, items, from + 1);
    }
  }

  /** What the tasks by themselves say: the failure of the lowest failing item, or the values of all items. */
  ghost predicate Answers<R>(task: nat -> Attempt<R>, items: nat, answer: Answer<R>) {
    var first := FirstFailure(task, items, 0);
    match answer
    case Throw(reason) => first < items && (task(first) == Throws(reason) || task(first) == Rejects(reason))
    case Values(values) => first == items && |values| == items && HoldsAll(task, values)
  }

  ghost predicate HoldsAll<R>(task: nat -> Attempt<R>, values: seq<Option<R>>) {
    forall i | 0 <= i < |values| :: values[i].Some? && task(i) == Resolves(values[i].value)
  }

  /** The answer does not depend on the schedule or on the limit: whatever answer fits the outcomes of a finished
      batch, it is the failure of the lowest failing item, or the values of all items in order, and this answer
      does fit. */
  lemma AnswerIsDetermined<R>(task: nat -> Attempt<R>, items: nat, limit: int, pools: seq<Pool<R>>, schedule: seq<nat>,
      last: Pool<R>, answer: Answer<R>)
    requires IsRun(task, true, items, limit, pools, schedule) && last == pools[|schedule|] && AllDone(last)
    requires items == 0 || limit >= 1
    ensures AllSettled(last)
    ensures IsAnswer(OutcomesOf(last), answer) <==> Answers(task, items, answer)
  {
    hide IsRun, AllDone, FirstFailure;
    SettledBatch(task, true, items, limit, pools, schedule);
    NoFailureBefore(task, items, 0);
    var settled := OutcomesOf(last);
    assert forall i | 0 <= i < items :: settled[i] == if i < |last.calls| then OutcomeOf(task(i)) else Skipped;
    if IsAnswer(settled, answer) && answer.Throw? {
      var i :| 0 <= i < |settled| && FirstRejection(settled, i, answer.reason);
      assert settled[i] == OutcomeOf(task(i));
    }
    if Answers(task, items, answer) && answer.Throw? {
      assert FirstRejection(settled, FirstFailure(task, items, 0), answer.reason);
    }
  }

  /** Two batches over the same items end in the same answer, whatever their limits and schedules. */
  lemma SameAnswer<R>(task: nat -> Attempt<R>, items: nat, limit: int, pools: seq<Pool<R>>, schedule: seq<nat>,
      answer: Answer<R>, limit': int, pools': seq<Pool<R>>, schedule': seq<nat>, answer': Answer<R>)
    requires items == 0 || (limit >= 1 && limit' >= 1)
    requires IsRun(task, true, items, limit, pools, schedule) && AllDone(pools[|schedule|])
    requires IsRun(task, true, items, limit', pools', schedule') && AllDone(pools'[|schedule'|])
    requires AllSettled(pools[|schedule|]) && IsAnswer(OutcomesOf(pools[|schedule|]), answer)
    requires AllSettled(pools'[|schedule'|]) && IsAnswer(OutcomesOf(pools'[|schedule'|]), answer')
    ensures answer == answer'
  {
    AnswerIsDetermined(task, items, limit, pools, schedule, pools[|schedule|], answer);
    AnswerIsDetermined(task, items, limit', pools', schedule', pools'[|schedule'|], answer');
    if answer.Values? {
      assert answer.values == answer'.values;
    }
  }
}
