/** One loop iteration of src/threads/thread_pool.c, as an operation on objects and as steps of the
    transition system, is the same. */
module PoolIterations {
  import opened Options
  import opened TaskPool
  import opened PoolObjects

  /** The state after a worker that has just taken the mutex has run through its critical section. */
  ghost function Iterated(s: State, i: nat): State
    requires i < |s.workers|
    requires s.count > 0 ==> s.head < |s.queue| && s.queue[s.head] < |s.tasks|
  {
    if s.count == 0 then AtW(s, i, CountUp)
    else
      var t := s.queue[s.head];
      var task := s.tasks[t];
      AtW(s, i, CountUp).(
        head := s.head + 1, count := s.count - 1,
        tasks := s.tasks[t := task.(ret := Some(task.run(task.arg)), isFinished := true, isRunning := false)],
        ran := s.ran + [t], completed := s.completed + [t])
  }

  ghost predicate IsTurn(run: seq<State>, i: nat, budget: nat) {
    run != [] && forall k | 0 <= k < |run| - 1 :: Enabled(run[k], W(i)) && run[k + 1] == WorkerStep(run[k], i, budget)
  }

  /** The steps of one worker from the lock to the unlock, with no other thread in between, as none can
      be while it holds the mutex, amount to that: eleven with a task, three without. */
  lemma {:induction false} TurnOfWorker(s: State, i: nat, budget: nat) returns (run: seq<State>)
    requires s.mutex.Free? && i < |s.workers| && s.workers[i].pc.Lock?
    requires s.count > 0 ==> s.head < |s.queue| && s.queue[s.head] < |s.tasks|
    ensures IsTurn(run, i, budget) && run[0] == s && |run| == (if s.count > 0 then 12 else 4)
    ensures run[|run| - 1] == Iterated(s, i)
  {
    run := [s];
    while !run[|run| - 1].workers[i].pc.CountUp?
      invariant TurnSoFar(run, s, i, budget)
      decreases 12 - |run|
    {
      run := Longer(run, s, i, budget);
    }
    TurnEnds(s, i, run[|run| - 1], |run| - 1);
  }

  ghost predicate TurnSoFar(run: seq<State>, s: State, i: nat, budget: nat)
    requires i < |s.workers|
    requires s.count > 0 ==> s.head < |s.queue| && s.queue[s.head] < |s.tasks|
  {
    && IsTurn(run, i, budget) && run[0] == s && |run| <= (if s.count > 0 then 12 else 4)
    && TurnState(s, i, run[|run| - 1], |run| - 1) && i < |run[|run| - 1].workers|
  }

  lemma {:induction false} Longer(run: seq<State>, s: State, i: nat, budget: nat) returns (run': seq<State>)
    requires s.mutex.Free? && i < |s.workers| && s.workers[i].pc.Lock?
    requires s.count > 0 ==> s.head < |s.queue| && s.queue[s.head] < |s.tasks|
    requires TurnSoFar(run, s, i, budget) && !run[|run| - 1].workers[i].pc.CountUp?
    ensures TurnSoFar(run', s, i, budget) && |run'| == |run| + 1
  {
    var last := run[|run| - 1];
    TurnStep(s, i, last, |run| - 1, budget);
    var next := WorkerStep(last, i, budget);
    run' := run + [next];
    assert run'[|run'| - 1] == next && run'[0] == s;
  }

  lemma {:induction false} TurnEnds(s: State, i: nat, now: State, n: int)
    requires i < |s.workers| && s.workers[i].pc.Lock?
    requires s.count > 0 ==> s.head < |s.queue| && s.queue[s.head] < |s.tasks|
    requires 0 <= n && TurnState(s, i, now, n) && i < |now.workers| && now.workers[i].pc.CountUp?
    ensures n >= (if s.count > 0 then 11 else 3) && now == Iterated(s, i)
  {
  }

  /** Where the worker stands after n steps, with what it has done by then. */
  ghost predicate TurnState(s: State, i: nat, now: State, n: int)
    requires i < |s.workers|
    requires s.count > 0 ==> s.head < |s.queue| && s.queue[s.head] < |s.tasks|
  {
    if n <= 1 then now == if n == 0 then s else AtW(s, i, Check).(mutex := Held(W(i)))
    else if s.count == 0 then
      now == if n == 2 then AtW(s, i, Unlock).(mutex := Held(W(i))) else Iterated(s, i)
    else TurnWithTask(s, i, now, n)
  }

  ghost predicate TurnWithTask(s: State, i: nat, now: State, n: int)
    requires i < |s.workers| && s.count > 0 && s.head < |s.queue| && s.queue[s.head] < |s.tasks|
  {
    var t := s.queue[s.head];
    var task := s.tasks[t];
    var res := task.run(task.arg);
    var held := s.(mutex := Held(W(i)));
    var taken := held.(head := s.head + 1, count := s.count - 1);
    var running := task.(isRunning := true);
    var called := taken.(ran := s.ran + [t], tasks := s.tasks[t := running]);
    var stored := called.(tasks := s.tasks[t := running.(ret := Some(res))]);
    var finished := called.(tasks := s.tasks[t := running.(ret := Some(res), isFinished := true)],
                            completed := s.completed + [t]);
    var cleared := finished.(tasks := s.tasks[t := task.(ret := Some(res), isFinished := true, isRunning := false)]);
    now ==
      if n == 2 then AtW(held, i, Fetch)
      else if n == 3 then AtW(held, i, AdvanceHead(t))
      else if n == 4 then AtW(held.(head := s.head + 1), i, DecreaseCount(t))
      else if n == 5 then AtW(taken, i, SetRunning(t))
      else if n == 6 then AtW(taken.(tasks := s.tasks[t := running]), i, Call(t))
      else if n == 7 then AtW(called, i, StoreRet(t, res))
      else if n == 8 then AtW(stored, i, SetFinished(t))
      else if n == 9 then AtW(finished, i, ClearRunning(t))
      else if n == 10 then AtW(cleared, i, Unlock)
      else Iterated(s, i)
  }

  lemma {:induction false} TurnStep(s: State, i: nat, now: State, n: int, budget: nat)
    requires s.mutex.Free? && i < |s.workers| && s.workers[i].pc.Lock?
    requires s.count > 0 ==> s.head < |s.queue| && s.queue[s.head] < |s.tasks|
    requires 0 <= n && TurnState(s, i, now, n) && !(i < |now.workers| && now.workers[i].pc.CountUp?)
    ensures Enabled(now, W(i)) && TurnState(s, i, WorkerStep(now, i, budget), n + 1)
    ensures |WorkerStep(now, i, budget).workers| == |s.workers|
    ensures n < (if s.count > 0 then 11 else 3)
  {
  }

  /** The objects of a pool hold what a state says: task number k is the object heap[k]. */
  ghost predicate Matches(s: State, pool: ThreadPool, heap: seq<ThreadTask>)
    reads pool, pool.queue, heap
  {
    && (forall j, k | 0 <= j < k < |heap| :: heap[j] != heap[k])
    && |s.tasks| == |heap|
    && (forall k | 0 <= k < |heap| ::
          s.tasks[k] == Task(heap[k].run, heap[k].arg, heap[k].ret, heap[k].isFinished, heap[k].isRunning))
    && s.head == pool.queueHead && s.tail == pool.queueTail && s.count == pool.queueCount
    && s.tail <= |s.queue| && s.tail <= pool.queue.Length
    && (forall k | s.head <= k < s.tail :: s.queue[k] < |heap| && pool.queue[k] == heap[s.queue[k]])
  }

  /** The operation on the objects does what the steps do. */
  method IterationMatches(pool: ThreadPool, ghost heap: seq<ThreadTask>, ghost s: State, ghost i: nat)
    requires pool.Valid() && Matches(s, pool, heap) && i < |s.workers|
    modifies pool, heap
    ensures pool.Valid() && Matches(Iterated(s, i), pool, heap)
  {
    pool.Iteration();
  }
}
