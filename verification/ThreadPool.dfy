/** ThreadPool of ecclesia/lib/thread/thread_pool.h as a transition system: each step is one critical
    section of mu_, or the end of a task. */
module ThreadPool {
  import opened Wrappers

  /** A queue entry: a task, named by its position in the push history, or the shutdown signal. */
  datatype Entry = Task(id: nat) | Stop

  datatype Worker = Waiting | Running(id: nat) | Exited

  /** pushed, popped, finished and stopAt (where the destructor's signals went) are history. */
  datatype Pool = Pool(
    queue: seq<Entry>, workers: seq<Worker>,
    pushed: seq<Entry>, popped: seq<Entry>, finished: seq<nat>, stopAt: Option<nat>)

  function Start(numThreads: nat): Pool {
    Pool([], seq(numThreads, _ => Waiting), [], [], [], None)
  }

  datatype Action =
    | Schedule           // ScheduleWork, by anyone at any time
    | Shutdown           // the destructor's critical section
    | Take(w: nat)       // a worker's critical section in WorkLoop
    | Finish(w: nat)     // func() returns

  predicate Enabled(p: Pool, action: Action) {
    match action
    case Schedule => true
    case Shutdown => p.stopAt.None?
    case Take(w) => w < |p.workers| && p.workers[w].Waiting? && p.queue != []
    case Finish(w) => w < |p.workers| && p.workers[w].Running?
  }

  function Next(p: Pool, action: Action): Pool
    requires Enabled(p, action)
  {
    match action
    case Schedule =>
      p.(queue := p.queue + [Task(|p.pushed|)], pushed := p.pushed + [Task(|p.pushed|)])
    case Shutdown =>
      var stops := seq(|p.workers|, _ => Stop);
      p.(queue := p.queue + stops, pushed := p.pushed + stops, stopAt := Some(|p.pushed|))
    case Take(w) =>
      var func := p.queue[0];
      p.(queue := p.queue[1..], popped := p.popped + [func],
         workers := p.workers[w := if func.Stop? then Exited else Running(func.id)])
    case Finish(w) =>
      p.(workers := p.workers[w := Waiting], finished := p.finished + [p.workers[w].id])
  }

  // ---- Counting -----------------------------------------------------------------------------------

  function Stops(entries: seq<Entry>): nat { Count(entries, Stop) }

  function AllStopped(workers: seq<Worker>): bool { Count(workers, Exited) == |workers| }

  function Busy(workers: seq<Worker>): nat {
    if workers == [] then 0 else Busy(workers[..|workers| - 1]) + One(workers[|workers| - 1].Running?)
  }

  lemma {:induction false} BusyUpdate(workers: seq<Worker>, w: nat, next: Worker)
    requires w < |workers|
    ensures Busy(workers[w := next]) == Busy(workers) - One(workers[w].Running?) + One(next.Running?)
  {
    var last := |workers| - 1;
    if w < last {
      BusyUpdate(workers[..last], w, next);
      assert workers[w := next][..last] == workers[..last][w := next];
    } else {
      assert workers[w := next][..last] == workers[..last];
    }
  }

  lemma {:induction false} CountUpdate<T>(s: seq<T>, i: nat, next: T, x: T)
    requires i < |s|
    ensures Count(s[i := next], x) == Count(s, x) - One(s[i] == x) + One(next == x)
  {
    var last := |s| - 1;
    if i < last {
      CountUpdate(s[..last], i, next, x);
      assert s[i := next][..last] == s[..last][i := next];
    } else {
      assert s[i := next][..last] == s[..last];
    }
  }

  // ---- The invariant --------------------------------------------------------------------------------

  /** First in, first out: what was popped, then what is queued, is what was pushed. */
  ghost predicate Fifo(p: Pool) { p.popped + p.queue == p.pushed }

  /** Tasks are named by position; the signals, one per worker, stand together at stopAt. */
  ghost predicate History(p: Pool) {
    && (p.stopAt.Some? ==> p.stopAt.value + |p.workers| <= |p.pushed|)
    && forall k :: 0 <= k < |p.pushed| ==> p.pushed[k] == if InSignals(p, k) then Stop else Task(k)
  }

  predicate InSignals(p: Pool, k: nat) {
    p.stopAt.Some? && p.stopAt.value <= k < p.stopAt.value + |p.workers|
  }

  /** A worker has exited for each signal popped. */
  ghost predicate ExitsMatch(p: Pool) { Count(p.workers, Exited) == Stops(p.popped) }

  /** A task popped has finished once or is running on one worker; no other has started. */
  ghost predicate RunOnce(p: Pool) {
    forall id: nat :: Runs(p, id) == One(id < |p.popped| && p.popped[id].Task?)
  }

  function Runs(p: Pool, id: nat): nat { Count(p.finished, id) + Count(p.workers, Running(id)) }

  ghost predicate Invariant(p: Pool) { Fifo(p) && History(p) && ExitsMatch(p) && RunOnce(p) }

  lemma {:induction false} NoneAtStart(n: nat, x: Worker)
    requires x != Waiting
    ensures Count(seq(n, _ => Waiting), x) == 0
  {
    if n > 0 {
      assert seq(n, _ => Waiting)[..n - 1] == seq(n - 1, _ => Waiting);
      NoneAtStart(n - 1, x);
    }
  }

  lemma StartInvariant(numThreads: nat)
    ensures Invariant(Start(numThreads))
  {
    NoneAtStart(numThreads, Exited);
    forall id: nat ensures Runs(Start(numThreads), id) == 0 { NoneAtStart(numThreads, Running(id)); }
  }

  lemma TakeKeepsInvariant(p: Pool, w: nat)
    requires Enabled(p, Take(w)) && Invariant(p)
    ensures Invariant(Next(p, Take(w)))
  {
    var p', func := Next(p, Take(w)), p.queue[0];
    assert p.pushed[|p.popped|] == func;
    assert p'.popped + p'.queue == p.popped + p.queue;
    CountAppend(p.popped, func, Stop);
    CountUpdate(p.workers, w, p'.workers[w], Exited);
    forall id: nat ensures Runs(p', id) == One(id < |p'.popped| && p'.popped[id].Task?) {
      CountUpdate(p.workers, w, p'.workers[w], Running(id));
      assert Runs(p, id) == One(id < |p.popped| && p.popped[id].Task?);
    }
  }

  lemma FinishKeepsInvariant(p: Pool, w: nat)
    requires Enabled(p, Finish(w)) && Invariant(p)
    ensures Invariant(Next(p, Finish(w)))
  {
    var p' := Next(p, Finish(w));
    CountUpdate(p.workers, w, Waiting, Exited);
    forall id: nat ensures Runs(p', id) == One(id < |p'.popped| && p'.popped[id].Task?) {
      CountUpdate(p.workers, w, Waiting, Running(id));
      CountAppend(p.finished, p.workers[w].id, id);
      assert Runs(p, id) == One(id < |p.popped| && p.popped[id].Task?);
    }
  }

  lemma NextKeepsInvariant(p: Pool, action: Action)
    requires Enabled(p, action) && Invariant(p)
    ensures Invariant(Next(p, action))
  {
    match action
    case Take(w) => TakeKeepsInvariant(p, w);
    case Finish(w) => FinishKeepsInvariant(p, w);
    case _ =>
      var p' := Next(p, action);
      assert p'.popped + p'.queue == p'.pushed;
      forall id: nat ensures Runs(p', id) == One(id < |p'.popped| && p'.popped[id].Task?) {
        assert Runs(p, id) == One(id < |p.popped| && p.popped[id].Task?);
      }
  }

  // ---- Shutdown -----------------------------------------------------------------------------------------

  /** Signals among the first k pushed entries. */
  lemma {:induction false} StopsInPrefix(p: Pool, k: nat)
    requires History(p) && k <= |p.pushed|
    ensures Stops(p.pushed[..k]) ==
      if p.stopAt.None? || k <= p.stopAt.value then 0
      else if k <= p.stopAt.value + |p.workers| then k - p.stopAt.value else |p.workers|
  {
    if k > 0 {
      StopsInPrefix(p, k - 1);
      assert p.pushed[..k] == p.pushed[..k - 1] + [p.pushed[k - 1]];
      CountAppend(p.pushed[..k - 1], p.pushed[k - 1], Stop);
    }
  }

  /** After shutdown the queued signals and the exited workers together are one per worker. */
  lemma SignalsConserved(p: Pool)
    requires Invariant(p) && p.stopAt.Some?
    ensures Stops(p.queue) + Count(p.workers, Exited) == |p.workers|
  {
    StopsInPrefix(p, |p.pushed|);
    assert p.pushed[..|p.pushed|] == p.pushed;
    CountConcat(p.popped, p.queue, Stop);
  }

  /** Once all workers have exited (the destructor's joins return), every task enqueued before the
      destructor's critical section has run exactly once. */
  lemma AllTasksRanOnce(p: Pool, id: nat)
    requires Invariant(p) && |p.workers| >= 1 && AllStopped(p.workers)
    requires p.stopAt.Some? && id < p.stopAt.value
    ensures p.pushed[id] == Task(id) && Count(p.finished, id) == 1
  {
    assert p.popped == p.pushed[..|p.popped|];
    StopsInPrefix(p, |p.popped|);
    AllCounted(p.workers, Exited, Running(id));
    assert Runs(p, id) == One(id < |p.popped| && p.popped[id].Task?);
  }

  lemma {:induction false} CountBound<T>(s: seq<T>, x: T, y: T)
    requires x != y
    ensures Count(s, x) + Count(s, y) <= |s|
  {
    if s != [] { CountBound(s[..|s| - 1], x, y); }
  }

  lemma AllCounted<T>(s: seq<T>, x: T, y: T)
    requires Count(s, x) == |s| && x != y
    ensures Count(s, y) == 0
  {
    CountBound(s, x, y);
  }

  // ---- Runs ---------------------------------------------------------------------------------------------

  ghost predicate CanRun(p: Pool, actions: seq<Action>)
    decreases |actions|
  {
    actions == [] || (Enabled(p, actions[0]) && CanRun(Next(p, actions[0]), actions[1..]))
  }

  ghost function RunAll(p: Pool, actions: seq<Action>): Pool
    requires CanRun(p, actions)
    decreases |actions|
  {
    if actions == [] then p else RunAll(Next(p, actions[0]), actions[1..])
  }

  lemma {:induction false} RunKeepsInvariant(p: Pool, actions: seq<Action>)
    requires CanRun(p, actions) && Invariant(p)
    ensures Invariant(RunAll(p, actions)) && |RunAll(p, actions).workers| == |p.workers|
    ensures p.stopAt.Some? ==> RunAll(p, actions).stopAt == p.stopAt
    decreases |actions|
  {
    if actions != [] {
      NextKeepsInvariant(p, actions[0]);
      RunKeepsInvariant(Next(p, actions[0]), actions[1..]);
    }
  }

  /** In every run of a pool, whatever is scheduled and whenever it is shut down: the queue is first
      in, first out; each task taken has run or is running exactly once; and when every worker of a
      non-empty pool has exited, every task pushed before the shutdown has run exactly once. */
  lemma EveryRun(numThreads: nat, actions: seq<Action>)
    requires CanRun(Start(numThreads), actions)
    ensures var p := RunAll(Start(numThreads), actions);
      && p.popped + p.queue == p.pushed
      && RunOnce(p)
      && (p.stopAt.Some? ==> Stops(p.queue) + Count(p.workers, Exited) == numThreads)
      && (p.stopAt.Some? && numThreads >= 1 && AllStopped(p.workers) ==>
            forall id: nat :: id < p.stopAt.value ==> Count(p.finished, id) == 1)
  {
    StartInvariant(numThreads);
    RunKeepsInvariant(Start(numThreads), actions);
    var p := RunAll(Start(numThreads), actions);
    if p.stopAt.Some? {
      SignalsConserved(p);
      if numThreads >= 1 && AllStopped(p.workers) {
        forall id: nat | id < p.stopAt.value ensures Count(p.finished, id) == 1 { AllTasksRanOnce(p, id); }
      }
    }
  }

  /** Worker steps still to come after shutdown: two for each entry up to the last signal, one for
      each task in progress. A signal takes only one, so this bounds them from above. */
  function WorkLeft(p: Pool): int
    requires p.stopAt.Some?
  {
    2 * (p.stopAt.value + |p.workers| - |p.popped|) + Busy(p.workers)
  }

  predicate IsWorkerStep(action: Action) { action.Take? || action.Finish? }

  lemma {:induction false} SomeNotExited(workers: seq<Worker>, w: nat)
    requires w < |workers| && !workers[w].Exited?
    ensures Count(workers, Exited) < |workers|
  {
    var last := |workers| - 1;
    if w < last { SomeNotExited(workers[..last], w); }
    CountBound(workers[..last], Exited, Waiting);
  }

  /** Every worker step uses the bound up, and nothing enqueued behind the signals adds to it. */
  lemma StepUsesWork(p: Pool, action: Action)
    requires Invariant(p) && p.stopAt.Some? && Enabled(p, action)
    ensures IsWorkerStep(action) ==> 0 <= WorkLeft(Next(p, action)) < WorkLeft(p)
    ensures !IsWorkerStep(action) ==> WorkLeft(Next(p, action)) == WorkLeft(p)
  {
    assert p.popped == p.pushed[..|p.popped|];
    StopsInPrefix(p, |p.popped|);
    if IsWorkerStep(action) {
      SomeNotExited(p.workers, action.w);
      BusyUpdate(p.workers, action.w, Next(p, action).workers[action.w]);
    }
  }

  /** Until all workers have exited, one of them can take a step. */
  lemma NeverStuck(p: Pool)
    requires Invariant(p) && p.stopAt.Some? && !AllStopped(p.workers)
    ensures exists w :: Enabled(p, Take(w)) || Enabled(p, Finish(w))
  {
    var w := FindActive(p.workers);
    SignalsConserved(p);
    if p.workers[w].Running? {
      assert Enabled(p, Finish(w));
    } else {
      assert Enabled(p, Take(w));
    }
  }

  lemma {:induction false} FindActive(workers: seq<Worker>) returns (w: nat)
    requires !AllStopped(workers)
    ensures w < |workers| && !workers[w].Exited?
  {
    var last := |workers| - 1;
    if workers[last].Exited? { w := FindActive(workers[..last]); } else { w := last; }
  }

  function WorkerSteps(actions: seq<Action>): nat {
    if actions == [] then 0 else One(IsWorkerStep(actions[0])) + WorkerSteps(actions[1..])
  }

  /** So after shutdown the workers take a bounded number of steps, in every run. */
  lemma {:induction false} ShutdownIsBounded(p: Pool, actions: seq<Action>)
    requires Invariant(p) && p.stopAt.Some? && CanRun(p, actions)
    ensures WorkerSteps(actions) > 0 ==> WorkerSteps(actions) <= WorkLeft(p)
    decreases |actions|
  {
    if actions != [] {
      StepUsesWork(p, actions[0]);
      NextKeepsInvariant(p, actions[0]);
      ShutdownIsBounded(Next(p, actions[0]), actions[1..]);
    }
  }
}
