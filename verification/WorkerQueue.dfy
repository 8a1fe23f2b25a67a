/** Submitters and workers around a task queue, with a mutex and a condition variable
    (src/thread_yt/thread_pool.c), for any number of threads and tasks, any schedule, and with wakeups
    that nobody sent. Each statement of the source is one step, each turn of the shifting loop too. */
module WorkerQueue {
  import opened Lists
  import opened Sums

  datatype Task = Task(a: int, b: int)

  const NO_TASK: Task := Task(0, 0)

  /** A submitter, with the tasks that it has still to submit. */
  datatype Submitter =
    | Lock(todo: seq<Task>) | Store(todo: seq<Task>) | Increment(todo: seq<Task>)
    | Unlock(todo: seq<Task>) | Signal(todo: seq<Task>) | Done

  datatype Worker =
    | LockQueue | Test | Asleep | Relock | Shift(task: Task, i: nat) | Decrement(task: Task)
    | UnlockQueue(task: Task) | Execute(task: Task)

  datatype Thread = S(i: nat) | W(i: nat)

  datatype Mutex = Free | Held(owner: Thread)

  datatype State = State(
    queue: seq<Task>, count: nat, mutex: Mutex, submitters: seq<Submitter>, workers: seq<Worker>,
    submitted: seq<Task>, taken: seq<Task>, executed: seq<Task>)

  function LoopHead(todo: seq<Task>): Submitter { if todo == [] then Done else Lock(todo) }

  ghost predicate IsThread(s: State, t: Thread) {
    match t
    case S(i) => i < |s.submitters|
    case W(i) => i < |s.workers|
  }

  ghost predicate Enabled(s: State, t: Thread) {
    && IsThread(s, t)
    && match t
       case S(i) => !s.submitters[i].Done? && (s.submitters[i].Lock? ==> s.mutex.Free?)
       case W(i) => !s.workers[i].Asleep? && (s.workers[i].LockQueue? || s.workers[i].Relock? ==> s.mutex.Free?)
  }

  ghost predicate AsleepAt(workers: seq<Worker>, i: int) { 0 <= i < |workers| && workers[i].Asleep? }

  ghost predicate SomeAsleep(s: State) { exists i :: AsleepAt(s.workers, i) }

  /** pthread_cond_signal wakes at least one sleeper if there is one. */
  ghost predicate MayWake(s: State, woken: set<int>) {
    (forall i | i in woken :: AsleepAt(s.workers, i)) && (SomeAsleep(s) ==> exists i :: i in woken)
  }

  ghost function Wake(workers: seq<Worker>, woken: set<int>): (ws: seq<Worker>)
    ensures |ws| == |workers|
    ensures forall i | 0 <= i < |workers| :: ws[i] == if i in woken then Relock else workers[i]
  {
    seq(|workers|, i requires 0 <= i < |workers| => if i in woken then Relock else workers[i])
  }

  ghost function AtS(s: State, i: nat, pc: Submitter): State
    requires i < |s.submitters|
  {
    s.(submitters := s.submitters[i := pc])
  }

  ghost function AtW(s: State, i: nat, pc: Worker): State
    requires i < |s.workers|
  {
    s.(workers := s.workers[i := pc])
  }

  ghost function SubmitterStep(s: State, i: nat, woken: set<int>): State
    requires Enabled(s, S(i))
  {
    match s.submitters[i]
    case Lock(todo) => AtS(s, i, Store(todo)).(mutex := Held(S(i)))
    case Store(todo) => AtS(s, i, Increment(todo)).(queue := Put(s.queue, s.count, First(todo, NO_TASK)))
    case Increment(todo) => AtS(s, i, Unlock(todo)).(count := s.count + 1, submitted := s.submitted + [First(todo, NO_TASK)])
    case Unlock(todo) => AtS(s, i, Signal(todo)).(mutex := Free)
    case Signal(todo) => AtS(s, i, LoopHead(Rest(todo))).(workers := Wake(s.workers, woken))
    case Done => s
  }

  /** Testing and falling asleep is one step, since pthread_cond_wait releases the mutex and
      starts to wait atomically. */
  ghost function WorkerStep(s: State, i: nat): State
    requires Enabled(s, W(i))
  {
    match s.workers[i]
    case LockQueue => AtW(s, i, Test).(mutex := Held(W(i)))
    case Relock => AtW(s, i, Test).(mutex := Held(W(i)))
    case Test => if s.count == 0 then AtW(s, i, Asleep).(mutex := Free) else AtW(s, i, Shift(Get(s.queue, 0, NO_TASK), 0))
    case Asleep => s
    case Shift(task, k) =>
      if k + 1 < s.count then AtW(s, i, Shift(task, k + 1)).(queue := Put(s.queue, k, Get(s.queue, k + 1, NO_TASK)))
      else AtW(s, i, Decrement(task))
    case Decrement(task) =>
      AtW(s, i, UnlockQueue(task)).(count := if s.count > 0 then s.count - 1 else 0, taken := s.taken + [task])
    case UnlockQueue(task) => AtW(s, i, Execute(task)).(mutex := Free)
    case Execute(task) => AtW(s, i, LockQueue).(executed := s.executed + [task])
  }

  ghost function Step(s: State, t: Thread, woken: set<int>): State
    requires Enabled(s, t)
  {
    match t
    case S(i) => SubmitterStep(s, i, woken)
    case W(i) => WorkerStep(s, i)
  }

  ghost predicate ThreadStep(s: State, s': State) {
    exists t, woken :: Enabled(s, t) && MayWake(s, woken) && s' == Step(s, t, woken)
  }

  /** A wakeup that nobody sent. */
  ghost predicate SpuriousWakeup(s: State, s': State) {
    exists i: nat :: AsleepAt(s.workers, i) && s' == AtW(s, i, Relock)
  }

  ghost predicate StepsTo(s: State, s': State) { ThreadStep(s, s') || SpuriousWakeup(s, s') }

  ghost predicate Init(s: State) {
    && s.count == 0 && s.mutex.Free? && s.submitted == [] && s.taken == [] && s.executed == []
    && (forall i | 0 <= i < |s.submitters| :: s.submitters[i].Done? || (s.submitters[i].Lock? && s.submitters[i].todo != []))
    && (forall i | 0 <= i < |s.workers| :: s.workers[i] == LockQueue)
  }

  // ---- The invariant --------------------------------------------------------------------------

  predicate SubmitterLocked(u: Submitter) { u.Store? || u.Increment? || u.Unlock? }
  predicate WorkerLocked(w: Worker) { w.Test? || w.Shift? || w.Decrement? || w.UnlockQueue? }

  ghost predicate MutexInv(s: State) {
    && (s.mutex.Held? ==> IsThread(s, s.mutex.owner))
    && (forall i | 0 <= i < |s.submitters| :: SubmitterLocked(s.submitters[i]) <==> s.mutex == Held(S(i)))
    && (forall i | 0 <= i < |s.workers| :: WorkerLocked(s.workers[i]) <==> s.mutex == Held(W(i)))
    && (forall i | 0 <= i < |s.submitters| :: !s.submitters[i].Done? ==> s.submitters[i].todo != [])
  }

  /** Tasks that a submitter has still to add to the queue. */
  function Remaining(u: Submitter): int {
    match u
    case Done => 0
    case Unlock(todo) => |todo| - 1
    case Signal(todo) => |todo| - 1
    case _ => |u.todo|
  }

  /** A run with room for all its tasks. */
  ghost predicate RoomInv(s: State) {
    && |s.submitted| + Sum(s.submitters, Remaining) <= |s.queue|
    && |s.submitted| == |s.taken| + s.count
  }

  /** What the queue holds, as seen by the thread that has the mutex: a worker that is shifting has the
      first task in hand and a gap at position i. */
  ghost function Pending(s: State): seq<Task>
    requires s.count <= |s.queue|
  {
    if s.mutex.Held? && s.mutex.owner.W? && s.mutex.owner.i < |s.workers| then
      var w := s.workers[s.mutex.owner.i];
      if w.Shift? && w.i < s.count then [w.task] + s.queue[..w.i] + s.queue[w.i + 1..s.count]
      else if w.Decrement? && s.count > 0 then [w.task] + s.queue[..s.count - 1]
      else s.queue[..s.count]
    else s.queue[..s.count]
  }

  ghost predicate QueueInv(s: State) {
    && s.count <= |s.queue|
    && (forall i | 0 <= i < |s.workers| && s.workers[i].Shift? :: s.workers[i].i < s.count)
    && (forall i | 0 <= i < |s.workers| && s.workers[i].Decrement? :: s.count > 0)
    && (forall i | 0 <= i < |s.submitters| && s.submitters[i].Increment? ::
          s.count < |s.queue| && s.queue[s.count] == First(s.submitters[i].todo, NO_TASK))
    && s.submitted == s.taken + Pending(s)
  }

  /** A signal is still to come, or a worker is awake. */
  ghost predicate WakeupPending(s: State) {
    exists i :: 0 <= i < |s.submitters| && (s.submitters[i].Unlock? || s.submitters[i].Signal?)
  }

  ghost predicate SomeAwake(s: State) { exists i :: 0 <= i < |s.workers| && !s.workers[i].Asleep? }

  ghost predicate WakeInv(s: State) { |s.workers| > 0 && s.count > 0 ==> SomeAwake(s) || WakeupPending(s) }

  predicate Carries(w: Worker, task: Task) { (w.UnlockQueue? || w.Execute?) && w.task == task }

  /** How often a task occurs in a history. */
  ghost function Count(history: seq<Task>, task: Task): int {
    if history == [] then 0
    else Count(history[..|history| - 1], task) + if history[|history| - 1] == task then 1 else 0
  }

  lemma {:induction false} CountIsMultiplicity(history: seq<Task>, task: Task)
    ensures Count(history, task) == multiset(history)[task]
  {
    if history != [] {
      CountIsMultiplicity(history[..|history| - 1], task);
      assert history == history[..|history| - 1] + [history[|history| - 1]];
    }
  }

  /** How many workers have this task in hand, taken and not yet executed. */
  ghost function InHand(workers: seq<Worker>, task: Task): int {
    Sum(workers, (w: Worker) => if Carries(w, task) then 1 else 0)
  }

  ghost predicate ExecInv(s: State) {
    forall task: Task :: Count(s.taken, task) == Count(s.executed, task) + InHand(s.workers, task)
  }

  ghost predicate Inv(s: State) { MutexInv(s) && RoomInv(s) && QueueInv(s) && WakeInv(s) && ExecInv(s) }

  // ---- Preservation ---------------------------------------------------------------------------

  lemma {:induction false} InHandUpdate(workers: seq<Worker>, i: nat, w: Worker, task: Task)
    requires i < |workers|
    ensures InHand(workers[i := w], task) ==
      InHand(workers, task) - (if Carries(workers[i], task) then 1 else 0) + (if Carries(w, task) then 1 else 0)
  {
    SumUpdate(workers, i, w, (w: Worker) => if Carries(w, task) then 1 else 0);
  }

  lemma {:induction false} SumSame(workers: seq<Worker>, workers': seq<Worker>, f: Worker -> int)
    requires |workers'| == |workers| && forall i | 0 <= i < |workers| :: f(workers'[i]) == f(workers[i])
    ensures Sum(workers', f) == Sum(workers, f)
  {
    if workers != [] {
      SumSame(workers[1..], workers'[1..], f);
    }
  }

  lemma {:induction false} SubmitterMutex(s: State, i: nat, woken: set<int>)
    requires MutexInv(s) && Enabled(s, S(i)) && MayWake(s, woken)
    ensures MutexInv(SubmitterStep(s, i, woken))
  {
  }

  lemma {:induction false} WorkerMutex(s: State, i: nat)
    requires MutexInv(s) && Enabled(s, W(i))
    ensures MutexInv(WorkerStep(s, i))
  {
  }

  lemma {:induction false} SubmitterRoom(s: State, i: nat, woken: set<int>)
    requires MutexInv(s) && RoomInv(s) && Enabled(s, S(i))
    ensures RoomInv(SubmitterStep(s, i, woken))
  {
    SumUpdate(s.submitters, i, SubmitterStep(s, i, woken).submitters[i], Remaining);
  }

  /** There is room for the task that a submitter is about to store. */
  lemma {:induction false} StoreInBounds(s: State, i: nat)
    requires MutexInv(s) && RoomInv(s) && i < |s.submitters| && Remaining(s.submitters[i]) > 0
    ensures s.count < |s.queue|
  {
    forall k | 0 <= k < |s.submitters| ensures Remaining(s.submitters[k]) >= 0 {}
    SumAtLeast(s.submitters, i, Remaining);
  }

  lemma {:induction false} StoreQueue(s: State, i: nat, woken: set<int>)
    requires Inv(s) && Enabled(s, S(i)) && s.submitters[i].Store?
    ensures QueueInv(SubmitterStep(s, i, woken))
  {
    var s' := SubmitterStep(s, i, woken);
    StoreInBounds(s, i);
    assert s'.queue[..s.count] == s.queue[..s.count];
  }

  lemma {:induction false} IncrementQueue(s: State, i: nat, woken: set<int>)
    requires Inv(s) && Enabled(s, S(i)) && s.submitters[i].Increment?
    ensures QueueInv(SubmitterStep(s, i, woken))
  {
    var task := First(s.submitters[i].todo, NO_TASK);
    assert s.queue[..s.count + 1] == s.queue[..s.count] + [task];
    assert s.taken + s.queue[..s.count] + [task] == s.taken + (s.queue[..s.count] + [task]);
  }

  lemma {:induction false} SubmitterQueue(s: State, i: nat, woken: set<int>)
    requires Inv(s) && Enabled(s, S(i)) && MayWake(s, woken)
    ensures QueueInv(SubmitterStep(s, i, woken))
  {
    if s.submitters[i].Store? {
      StoreQueue(s, i, woken);
    } else if s.submitters[i].Increment? {
      IncrementQueue(s, i, woken);
    } else {
      assert Pending(SubmitterStep(s, i, woken)) == Pending(s);
    }
  }

  lemma {:induction false} ShiftOne(queue: seq<Task>, task: Task, k: nat, count: nat)
    requires k + 1 < count <= |queue|
    ensures var queue' := queue[k := queue[k + 1]];
      [task] + queue'[..k + 1] + queue'[k + 2..count] == [task] + queue[..k] + queue[k + 1..count]
  {
    var queue' := queue[k := queue[k + 1]];
    assert queue'[..k + 1] == queue[..k] + [queue[k + 1]];
    assert queue'[k + 2..count] == queue[k + 2..count];
    assert queue[k + 1..count] == [queue[k + 1]] + queue[k + 2..count];
  }

  lemma {:induction false} ShiftQueue(s: State, i: nat)
    requires Inv(s) && Enabled(s, W(i)) && s.workers[i].Shift?
    ensures Pending(WorkerStep(s, i)) == Pending(s)
  {
    var k := s.workers[i].i;
    assert s.mutex == Held(W(i));
    if k + 1 < s.count {
      ShiftOne(s.queue, s.workers[i].task, k, s.count);
    } else {
      assert s.queue[k + 1..s.count] == [];
    }
  }

  lemma {:induction false} TestQueue(s: State, i: nat)
    requires Inv(s) && Enabled(s, W(i)) && s.workers[i].Test?
    ensures Pending(WorkerStep(s, i)) == Pending(s)
  {
    assert s.mutex == Held(W(i));
    if s.count > 0 {
      assert s.queue[..s.count] == [s.queue[0]] + s.queue[..0] + s.queue[1..s.count];
    }
  }

  lemma {:induction false} DecrementQueue(s: State, i: nat)
    requires Inv(s) && Enabled(s, W(i)) && s.workers[i].Decrement?
    ensures QueueInv(WorkerStep(s, i))
  {
    assert s.mutex == Held(W(i));
    var task := s.workers[i].task;
    assert s.taken + ([task] + s.queue[..s.count - 1]) == s.taken + [task] + s.queue[..s.count - 1];
  }

  lemma {:induction false} WorkerQueueInv(s: State, i: nat)
    requires Inv(s) && Enabled(s, W(i))
    ensures QueueInv(WorkerStep(s, i))
  {
    if s.workers[i].Test? {
      TestQueue(s, i);
    } else if s.workers[i].Shift? {
      ShiftQueue(s, i);
    } else if s.workers[i].Decrement? {
      DecrementQueue(s, i);
    }
  }

  lemma {:induction false} WorkerRoom(s: State, i: nat)
    requires Inv(s) && Enabled(s, W(i))
    ensures RoomInv(WorkerStep(s, i))
  {
  }

  lemma {:induction false} SubmitterExec(s: State, i: nat, woken: set<int>)
    requires ExecInv(s) && Enabled(s, S(i)) && MayWake(s, woken)
    ensures ExecInv(SubmitterStep(s, i, woken))
  {
    var s' := SubmitterStep(s, i, woken);
    forall task: Task
      ensures Count(s'.taken, task) == Count(s'.executed, task) + InHand(s'.workers, task)
    {
      SumSame(s.workers, s'.workers, (w: Worker) => if Carries(w, task) then 1 else 0);
    }
  }

  lemma {:induction false} CountSnoc(history: seq<Task>, t: Task, task: Task)
    ensures Count(history + [t], task) == Count(history, task) + if t == task then 1 else 0
  {
    assert (history + [t])[..|history|] == history;
  }

  predicate Takes(w: Worker, task: Task) { w.Decrement? && w.task == task }
  predicate Executes(w: Worker, task: Task) { w.Execute? && w.task == task }

  lemma {:induction false} WorkerCounts(s: State, i: nat, task: Task)
    requires Enabled(s, W(i))
    ensures var w, s' := s.workers[i], WorkerStep(s, i);
      && Count(s'.taken, task) == Count(s.taken, task) + (if Takes(w, task) then 1 else 0)
      && Count(s'.executed, task) == Count(s.executed, task) + (if Executes(w, task) then 1 else 0)
  {
    var w := s.workers[i];
    if w.Decrement? {
      CountSnoc(s.taken, w.task, task);
    } else if w.Execute? {
      CountSnoc(s.executed, w.task, task);
    }
  }

  lemma {:induction false} WorkerHands(s: State, i: nat, task: Task)
    requires Enabled(s, W(i))
    ensures var w, s' := s.workers[i], WorkerStep(s, i);
      InHand(s'.workers, task) ==
        InHand(s.workers, task) + (if Takes(w, task) then 1 else 0) - (if Executes(w, task) then 1 else 0)
  {
    var w' := WorkerStep(s, i).workers[i];
    assert WorkerStep(s, i).workers == s.workers[i := w'];
    InHandUpdate(s.workers, i, w', task);
  }

  lemma {:induction false} WorkerExec(s: State, i: nat)
    requires ExecInv(s) && Enabled(s, W(i))
    ensures ExecInv(WorkerStep(s, i))
  {
    forall task: Task
      ensures var s' := WorkerStep(s, i);
        Count(s'.taken, task) == Count(s'.executed, task) + InHand(s'.workers, task)
    {
      WorkerCounts(s, i, task);
      WorkerHands(s, i, task);
    }
  }

  lemma {:induction false} SignalWakes(s: State, i: nat, woken: set<int>)
    requires Enabled(s, S(i)) && MayWake(s, woken) && s.submitters[i].Signal? && |s.workers| > 0
    ensures SomeAwake(SubmitterStep(s, i, woken))
  {
    var s' := SubmitterStep(s, i, woken);
    if SomeAsleep(s) {
      var k :| k in woken;
      assert AsleepAt(s.workers, k) && s'.workers[k] == Relock;
    } else {
      assert !AsleepAt(s.workers, 0);
      assert !s'.workers[0].Asleep?;
    }
  }

  lemma {:induction false} SubmitterWakes(s: State, i: nat, woken: set<int>)
    requires WakeInv(s) && Enabled(s, S(i)) && MayWake(s, woken)
    ensures WakeInv(SubmitterStep(s, i, woken))
  {
    var s' := SubmitterStep(s, i, woken);
    if s.submitters[i].Increment? {
      assert s'.submitters[i].Unlock?;
    } else if s.submitters[i].Unlock? {
      assert s'.submitters[i].Signal?;
    } else if s.submitters[i].Signal? {
      if |s.workers| > 0 { SignalWakes(s, i, woken); }
    } else {
      assert s'.workers == s.workers && s'.count == s.count;
      if WakeupPending(s) {
        var k :| 0 <= k < |s.submitters| && (s.submitters[k].Unlock? || s.submitters[k].Signal?);
        assert s'.submitters[k] == s.submitters[k];
      }
    }
  }

  lemma {:induction false} WorkerWakes(s: State, i: nat)
    requires WakeInv(s) && Enabled(s, W(i))
    ensures WakeInv(WorkerStep(s, i))
  {
    var s' := WorkerStep(s, i);
    if !s'.workers[i].Asleep? {
      assert SomeAwake(s');
    }
  }

  lemma {:induction false} SpuriousInv(s: State, i: nat)
    requires Inv(s) && AsleepAt(s.workers, i)
    ensures Inv(AtW(s, i, Relock))
  {
    var s' := AtW(s, i, Relock);
    assert s'.workers[i] == Relock && SomeAwake(s');
    assert Pending(s') == Pending(s);
    forall task: Task
      ensures Count(s'.taken, task) == Count(s'.executed, task) + InHand(s'.workers, task)
    {
      InHandUpdate(s.workers, i, Relock, task);
    }
  }

  // ---- Runs -----------------------------------------------------------------------------------

  ghost predicate SameSizes(s: State, s': State) {
    && |s'.workers| == |s.workers| && |s'.submitters| == |s.submitters| && |s'.queue| == |s.queue|
    && |s'.submitted| + Sum(s'.submitters, Remaining) == |s.submitted| + Sum(s.submitters, Remaining)
  }

  lemma {:induction false} SubmitterInv(s: State, i: nat, woken: set<int>)
    requires Inv(s) && Enabled(s, S(i)) && MayWake(s, woken)
    ensures Inv(SubmitterStep(s, i, woken)) && SameSizes(s, SubmitterStep(s, i, woken))
  {
    SubmitterMutex(s, i, woken);
    SubmitterRoom(s, i, woken);
    SubmitterQueue(s, i, woken);
    SubmitterWakes(s, i, woken);
    SubmitterExec(s, i, woken);
    SumUpdate(s.submitters, i, SubmitterStep(s, i, woken).submitters[i], Remaining);
  }

  lemma {:induction false} WorkerInv(s: State, i: nat)
    requires Inv(s) && Enabled(s, W(i))
    ensures Inv(WorkerStep(s, i)) && SameSizes(s, WorkerStep(s, i))
  {
    WorkerMutex(s, i);
    WorkerQueueInv(s, i);
    WorkerRoom(s, i);
    WorkerWakes(s, i);
    WorkerExec(s, i);
  }

  lemma {:induction false} StepInv(s: State, s': State)
    requires Inv(s) && StepsTo(s, s')
    ensures Inv(s') && SameSizes(s, s')
  {
    if ThreadStep(s, s') {
      var t, woken :| Enabled(s, t) && MayWake(s, woken) && s' == Step(s, t, woken);
      match t
      case S(i) => SubmitterInv(s, i, woken);
      case W(i) => WorkerInv(s, i);
    } else {
      var i: nat :| AsleepAt(s.workers, i) && s' == AtW(s, i, Relock);
      SpuriousInv(s, i);
    }
  }

  ghost predicate IsRun(run: seq<State>) {
    && run != [] && Init(run[0])
    && forall k | 0 <= k < |run| - 1 :: StepsTo(run[k], run[k + 1])
  }

  ghost function Last(run: seq<State>): State
    requires run != []
  {
    run[|run| - 1]
  }

  /** The number of tasks that are submitted in a run. */
  ghost function Tasks(s: State): int { Sum(s.submitters, Remaining) }

  lemma {:induction false} InitInv(s: State)
    requires Init(s) && Tasks(s) <= |s.queue|
    ensures Inv(s)
  {
    NothingInHand(s.workers);
    SumNonNegative(s.submitters, Remaining);
  }

  lemma {:induction false} NothingInHand(workers: seq<Worker>)
    requires forall i | 0 <= i < |workers| :: !workers[i].UnlockQueue? && !workers[i].Execute?
    ensures forall task: Task :: InHand(workers, task) == 0
  {
    forall task: Task ensures InHand(workers, task) == 0 {
      SumBounds(workers, (w: Worker) => if Carries(w, task) then 1 else 0, 0, 0);
    }
  }

  lemma {:induction false} RunInv(run: seq<State>)
    requires IsRun(run) && Tasks(run[0]) <= |run[0].queue|
    ensures Inv(Last(run)) && SameSizes(run[0], Last(run))
    decreases |run|
  {
    if |run| == 1 {
      InitInv(run[0]);
    } else {
      RunInv(run[..|run| - 1]);
      StepInv(run[|run| - 2], run[|run| - 1]);
    }
  }

  /** No lost wakeup: in every state of every run in which the queue is not empty, a worker is awake or
      a submitter has still to signal, although the signal is sent after the unlock. */
  lemma {:induction false} NoLostWakeup(run: seq<State>)
    requires IsRun(run) && Tasks(run[0]) <= |run[0].queue| && |run[0].workers| > 0
    ensures Last(run).count > 0 ==> SomeAwake(Last(run)) || WakeupPending(Last(run))
  {
    RunInv(run);
  }

  /** First in, first out: the tasks handed to workers are a prefix of the tasks submitted, in the
      same order, and while nobody has the mutex the queue holds exactly the others. */
  lemma {:induction false} HandedOutInOrder(run: seq<State>)
    requires IsRun(run) && Tasks(run[0]) <= |run[0].queue|
    ensures var s := Last(run);
      && s.taken <= s.submitted
      && s.count <= |s.queue|
      && (s.mutex.Free? ==> s.submitted == s.taken + s.queue[..s.count])
      && forall task: Task :: Count(s.taken, task) == Count(s.executed, task) + InHand(s.workers, task)
  {
    RunInv(run);
  }

  // ---- The tasks that were given --------------------------------------------------------------

  /** Tasks that a submitter has been given and not yet added to the queue. */
  function Todo(u: Submitter): seq<Task> {
    match u
    case Lock(todo) => todo
    case Store(todo) => todo
    case Increment(todo) => todo
    case Unlock(todo) => Rest(todo)
    case Signal(todo) => Rest(todo)
    case Done => []
  }

  /** How often a task has been submitted and is still to be submitted. */
  ghost function TimesGiven(s: State, task: Task): int {
    Count(s.submitted, task) + Sum(s.submitters, (u: Submitter) => Count(Todo(u), task))
  }

  lemma {:induction false} CountCons(t: Task, rest: seq<Task>, task: Task)
    ensures Count([t] + rest, task) == Count(rest, task) + if t == task then 1 else 0
  {
    if rest == [] {
      assert ([t] + rest)[..0] == [];
    } else {
      assert ([t] + rest)[..|rest|] == [t] + rest[..|rest| - 1];
      CountCons(t, rest[..|rest| - 1], task);
    }
  }

  /** A submitter adds the first of its tasks to the queue and keeps the others. */
  lemma {:induction false} SubmitterGives(s: State, i: nat, woken: set<int>)
    requires MutexInv(s) && Enabled(s, S(i))
    ensures var u, s' := s.submitters[i], SubmitterStep(s, i, woken);
      && |s'.submitters| == |s.submitters| && s'.submitters == s.submitters[i := s'.submitters[i]]
      && (if u.Increment? then exists t :: s'.submitted == s.submitted + [t] && Todo(u) == [t] + Todo(s'.submitters[i])
          else s'.submitted == s.submitted && Todo(s'.submitters[i]) == Todo(u))
  {
    var u, s' := s.submitters[i], SubmitterStep(s, i, woken);
    if u.Increment? {
      var t := First(u.todo, NO_TASK);
      assert s'.submitted == s.submitted + [t] && Todo(u) == [t] + Todo(s'.submitters[i]);
    }
  }

  lemma {:induction false} SubmitterKeepsGiven(s: State, i: nat, woken: set<int>, task: Task)
    requires MutexInv(s) && Enabled(s, S(i))
    ensures TimesGiven(SubmitterStep(s, i, woken), task) == TimesGiven(s, task)
  {
    SubmitterGives(s, i, woken);
    var u, s' := s.submitters[i], SubmitterStep(s, i, woken);
    SumUpdate(s.submitters, i, s'.submitters[i], (u: Submitter) => Count(Todo(u), task));
    if u.Increment? {
      var t :| s'.submitted == s.submitted + [t] && Todo(u) == [t] + Todo(s'.submitters[i]);
      CountSnoc(s.submitted, t, task);
      CountCons(t, Todo(s'.submitters[i]), task);
    }
  }

  lemma {:induction false} WorkerKeepsGiven(s: State, i: nat)
    requires Enabled(s, W(i))
    ensures WorkerStep(s, i).submitted == s.submitted && WorkerStep(s, i).submitters == s.submitters
  {
  }

  lemma {:induction false} OnlySubmitter(s: State, woken: set<int>)
    requires MutexInv(s) && |s.submitters| == 1 && Enabled(s, S(0))
    ensures var s' := SubmitterStep(s, 0, woken);
      |s'.submitters| == 1 && s'.submitted + Todo(s'.submitters[0]) == s.submitted + Todo(s.submitters[0])
  {
    SubmitterGives(s, 0, woken);
    var u, s' := s.submitters[0], SubmitterStep(s, 0, woken);
    if u.Increment? {
      var t :| s'.submitted == s.submitted + [t] && Todo(u) == [t] + Todo(s'.submitters[0]);
      assert s.submitted + ([t] + Todo(s'.submitters[0])) == s.submitted + [t] + Todo(s'.submitters[0]);
    }
  }

  ghost predicate SameGiven(s: State, s': State, task: Task) {
    && TimesGiven(s', task) == TimesGiven(s, task)
    && |s'.submitters| == |s.submitters|
    && (|s.submitters| == 1 ==> s'.submitted + Todo(s'.submitters[0]) == s.submitted + Todo(s.submitters[0]))
  }

  lemma {:induction false} SubmitterSameGiven(s: State, i: nat, woken: set<int>, task: Task)
    requires MutexInv(s) && Enabled(s, S(i))
    ensures SameGiven(s, SubmitterStep(s, i, woken), task)
  {
    SubmitterKeepsGiven(s, i, woken, task);
    SubmitterGives(s, i, woken);
    if |s.submitters| == 1 {
      OnlySubmitter(s, woken);
    }
  }

  lemma {:induction false} StepKeepsGiven(s: State, s': State, task: Task)
    requires MutexInv(s) && StepsTo(s, s')
    ensures SameGiven(s, s', task)
  {
    if ThreadStep(s, s') {
      var t, woken :| Enabled(s, t) && MayWake(s, woken) && s' == Step(s, t, woken);
      if t.W? {
        WorkerKeepsGiven(s, t.i);
      } else {
        SubmitterSameGiven(s, t.i, woken, task);
      }
    }
  }

  /** Nothing is lost or made up on the way into the queue: in every state of every run the tasks submitted and
      those still to be submitted are the tasks that the submitters were given. A single submitter
      submits its tasks in their order. */
  lemma {:induction false} SubmittedAsGiven(run: seq<State>, task: Task)
    requires IsRun(run) && Tasks(run[0]) <= |run[0].queue|
    ensures TimesGiven(Last(run), task) == TimesGiven(run[0], task)
    ensures |run[0].submitters| == |Last(run).submitters|
    ensures |run[0].submitters| == 1 ==> Last(run).submitted + Todo(Last(run).submitters[0]) == Todo(run[0].submitters[0])
    decreases |run|
  {
    if |run| == 1 {
      if |run[0].submitters| == 1 {
        assert [] + Todo(run[0].submitters[0]) == Todo(run[0].submitters[0]);
      }
    } else {
      var init, k := run[..|run| - 1], |run| - 2;
      SubmittedAsGiven(init, task);
      RunInv(init);
      assert StepsTo(run[k], run[k + 1]);
      StepKeepsGiven(run[k], run[k + 1], task);
    }
  }

  lemma {:induction false} NothingTodo(submitters: seq<Submitter>, task: Task)
    requires forall i | 0 <= i < |submitters| :: submitters[i].Done?
    ensures Sum(submitters, (u: Submitter) => Count(Todo(u), task)) == 0
  {
    SumBounds(submitters, (u: Submitter) => Count(Todo(u), task), 0, 0);
  }

  // ---- The end of a run -----------------------------------------------------------------------

  ghost predicate Ended(s: State) { forall t :: !Enabled(s, t) }

  /** A run that has ended has executed every task as often as the submitters were given it: no thread is
      left but sleeping workers, and the queue is empty. */
  lemma {:induction false} EndedRunsAreDrained(run: seq<State>)
    requires IsRun(run) && Tasks(run[0]) <= |run[0].queue| && |run[0].workers| > 0 && Ended(Last(run))
    ensures var s := Last(run);
      && s.count == 0 && |s.submitted| == Tasks(run[0])
      && s.taken == s.submitted && multiset(s.executed) == multiset(s.submitted)
      && (forall task: Task :: multiset(s.executed)[task] == Sum(run[0].submitters, (u: Submitter) => Count(Todo(u), task)))
      && (|run[0].submitters| == 1 ==> s.taken == Todo(run[0].submitters[0]))
  {
    RunInv(run);
    var s := Last(run);
    if s.mutex.Held? { assert Enabled(s, s.mutex.owner); }
    forall i | 0 <= i < |s.submitters| ensures s.submitters[i].Done? { assert !Enabled(s, S(i)); }
    forall i | 0 <= i < |s.workers| ensures s.workers[i].Asleep? { assert !Enabled(s, W(i)); }
    SumBounds(s.submitters, Remaining, 0, 0);
    assert !SomeAwake(s) && !WakeupPending(s);
    NothingInHand(s.workers);
    forall task: Task ensures multiset(s.taken)[task] == multiset(s.executed)[task] {
      CountIsMultiplicity(s.taken, task);
      CountIsMultiplicity(s.executed, task);
      assert InHand(s.workers, task) == 0;
    }
    forall task: Task
      ensures multiset(s.executed)[task] == Sum(run[0].submitters, (u: Submitter) => Count(Todo(u), task))
    {
      SubmittedAsGiven(run, task);
      NothingTodo(s.submitters, task);
      CountIsMultiplicity(s.submitted, task);
    }
    SubmittedAsGiven(run, NO_TASK);
  }

  // ---- Termination ----------------------------------------------------------------------------

  /** Steps of a worker before it sleeps; the steps with a task are paid for by the queue. */
  function WorkerRank(w: Worker, room: int): int {
    match w
    case UnlockQueue(_) => 4
    case Execute(_) => 3
    case LockQueue => 2
    case Relock => 2
    case Test => 1
    case Asleep => 0
    case Shift(_, i) => 0 - i
    case Decrement(_) => 0 - room
  }

  /** Each task pays `perTask` once it is in the queue, and `round` in all. */
  function SubmitterRank(u: Submitter, perTask: int, round: int): int {
    match u
    case Lock(todo) => |todo| * round
    case Store(todo) => |todo| * round - 1
    case Increment(todo) => |todo| * round - 2
    case Unlock(todo) => |todo| * round - 3 - perTask
    case Signal(todo) => |todo| * round - 4 - perTask
    case Done => 0
  }

  ghost function PerTask(s: State): int { |s.queue| + 5 }
  ghost function Round(s: State): int { PerTask(s) + 2 * |s.workers| + 5 }

  ghost function SubmittersWork(s: State): int {
    var perTask, round := PerTask(s), Round(s);
    Sum(s.submitters, (u: Submitter) => SubmitterRank(u, perTask, round))
  }

  ghost function WorkersWork(s: State): int {
    var room := |s.queue|;
    Sum(s.workers, (w: Worker) => WorkerRank(w, room))
  }

  ghost function Work(s: State): int {
    SubmittersWork(s) + s.count * PerTask(s) + WorkersWork(s)
  }

  lemma {:induction false} WakeSum(workers: seq<Worker>, workers': seq<Worker>, f: Worker -> int)
    requires |workers'| == |workers| && f(Relock) == f(Asleep) + 2
    requires forall i | 0 <= i < |workers| :: workers'[i] == workers[i] || (workers[i].Asleep? && workers'[i] == Relock)
    ensures Sum(workers', f) <= Sum(workers, f) + 2 * |workers|
  {
    if workers != [] {
      WakeSum(workers[1..], workers'[1..], f);
    }
  }

  lemma {:induction false} RoundOfSubmitter(todo: seq<Task>, perTask: int, round: int)
    requires todo != []
    ensures SubmitterRank(LoopHead(Rest(todo)), perTask, round) == |todo| * round - round
  {
    assert (|todo| - 1) * round == |todo| * round - round;
  }

  lemma {:induction false} SubmitterWorks(s: State, i: nat, woken: set<int>)
    requires MutexInv(s) && Enabled(s, S(i)) && MayWake(s, woken)
    ensures Work(SubmitterStep(s, i, woken)) < Work(s)
  {
    var s' := SubmitterStep(s, i, woken);
    var perTask, round, room := PerTask(s), Round(s), |s.queue|;
    assert |s'.queue| == room && |s'.workers| == |s.workers|;
    SumUpdate(s.submitters, i, s'.submitters[i], (u: Submitter) => SubmitterRank(u, perTask, round));
    if s.submitters[i].Signal? {
      RoundOfSubmitter(s.submitters[i].todo, perTask, round);
      WakeSum(s.workers, s'.workers, (w: Worker) => WorkerRank(w, room));
    } else if s.submitters[i].Increment? {
      assert (s.count + 1) * perTask == s.count * perTask + perTask;
    }
  }

  lemma {:induction false} WorkerRankFalls(s: State, i: nat)
    requires Inv(s) && Enabled(s, W(i))
    ensures var w', room := WorkerStep(s, i).workers[i], |s.queue|;
      if s.workers[i].Decrement? then WorkerRank(w', room) < WorkerRank(s.workers[i], room) + PerTask(s)
      else WorkerRank(w', room) < WorkerRank(s.workers[i], room)
  {
  }

  lemma {:induction false} WorkerWorks(s: State, i: nat)
    requires Inv(s) && Enabled(s, W(i))
    ensures Work(WorkerStep(s, i)) < Work(s)
  {
    var s' := WorkerStep(s, i);
    var room := |s.queue|;
    assert PerTask(s') == PerTask(s) && SubmittersWork(s') == SubmittersWork(s);
    assert s'.workers == s.workers[i := s'.workers[i]];
    SumUpdate(s.workers, i, s'.workers[i], (w: Worker) => WorkerRank(w, room));
    WorkerRankFalls(s, i);
    if s.workers[i].Decrement? {
      assert s'.count == s.count - 1;
      assert (s.count - 1) * PerTask(s) == s.count * PerTask(s) - PerTask(s);
    } else {
      assert s'.count == s.count;
    }
  }

  lemma {:induction false} SubmitterRankNotNegative(u: Submitter, perTask: int, round: int)
    requires perTask >= 0 && round >= perTask + 5 && (!u.Done? ==> u.todo != [])
    ensures SubmitterRank(u, perTask, round) >= 0
  {
    if !u.Done? {
      assert |u.todo| * round >= round;
    }
  }

  lemma {:induction false} SubmittersWorkNotNegative(s: State)
    requires MutexInv(s)
    ensures SubmittersWork(s) >= 0
  {
    var perTask, round := PerTask(s), Round(s);
    forall i | 0 <= i < |s.submitters| ensures SubmitterRank(s.submitters[i], perTask, round) >= 0 {
      SubmitterRankNotNegative(s.submitters[i], perTask, round);
    }
    SumNonNegative(s.submitters, (u: Submitter) => SubmitterRank(u, perTask, round));
  }

  /** At most one worker is shifting, and the task that it holds pays for it. */
  lemma {:induction false} WorkersWorkBound(s: State)
    requires MutexInv(s) && QueueInv(s)
    ensures WorkersWork(s) + s.count * PerTask(s) >= 0
  {
    var room := |s.queue|;
    var rank := (w: Worker) => WorkerRank(w, room);
    if h :| 0 <= h < |s.workers| && (s.workers[h].Shift? || s.workers[h].Decrement?) {
      assert s.mutex == Held(W(h)) && s.count > 0;
      SumAtLeast(s.workers, h, rank);
      AtLeastOne(s.count, PerTask(s));
    } else {
      SumNonNegative(s.workers, rank);
      AtLeastOne(s.count, PerTask(s));
    }
  }

  lemma AtLeastOne(k: nat, n: nat)
    ensures k * n >= 0 && (k > 0 ==> k * n >= n)
  {
  }

  lemma {:induction false} StepWorks(s: State, s': State)
    requires Inv(s) && StepsTo(s, s')
    ensures if ThreadStep(s, s') then Work(s') < Work(s) else Work(s') <= Work(s) + 2
  {
    if ThreadStep(s, s') {
      var t, woken :| Enabled(s, t) && MayWake(s, woken) && s' == Step(s, t, woken);
      match t
      case S(i) => SubmitterWorks(s, i, woken);
      case W(i) => WorkerWorks(s, i);
    } else {
      var i: nat :| AsleepAt(s.workers, i) && s' == AtW(s, i, Relock);
      var room := |s.queue|;
      SumUpdate(s.workers, i, Relock, (w: Worker) => WorkerRank(w, room));
    }
  }

  /** The steps of threads in a run, as against the wakeups that nobody sent. */
  ghost function ThreadSteps(run: seq<State>): nat {
    if |run| <= 1 then 0
    else ThreadSteps(run[..|run| - 1]) + if ThreadStep(run[|run| - 2], run[|run| - 1]) then 1 else 0
  }

  /** Every run is finite but for wakeups that nobody sent: with w of those, the threads take at
      most Work + 2 * w steps. */
  lemma {:induction false} RunsAreBounded(run: seq<State>)
    requires IsRun(run) && Tasks(run[0]) <= |run[0].queue|
    ensures ThreadSteps(run) + Work(Last(run)) <= Work(run[0]) + 2 * (|run| - 1 - ThreadSteps(run))
    ensures ThreadSteps(run) <= Work(run[0]) + 2 * (|run| - 1 - ThreadSteps(run))
    decreases |run|
  {
    RunInv(run);
    SubmittersWorkNotNegative(Last(run));
    WorkersWorkBound(Last(run));
    if |run| > 1 {
      RunInv(run[..|run| - 1]);
      RunsAreBounded(run[..|run| - 1]);
      StepWorks(run[|run| - 2], run[|run| - 1]);
    }
  }

  // ---- The size of the array ------------------------------------------------------------------

  /** Some submitter is about to store past the end of the array. */
  ghost predicate Overflows(s: State) {
    exists i :: 0 <= i < |s.submitters| && s.submitters[i].Store? && s.count >= |s.queue|
  }

  /** No worker has started, and no submitter is between two statements of a submission. */
  ghost predicate Idle(s: State) {
    && s.mutex.Free?
    && (forall i | 0 <= i < |s.submitters| :: s.submitters[i].Done? || (s.submitters[i].Lock? && s.submitters[i].todo != []))
    && (forall i | 0 <= i < |s.workers| :: s.workers[i] == LockQueue)
  }

  lemma {:induction false} Extend(run: seq<State>, i: nat) returns (run': seq<State>)
    requires IsRun(run) && Enabled(Last(run), S(i)) && !SomeAsleep(Last(run))
    ensures IsRun(run') && run'[0] == run[0] && Last(run') == SubmitterStep(Last(run), i, {})
  {
    var s' := Step(Last(run), S(i), {});
    assert MayWake(Last(run), {});
    assert ThreadStep(Last(run), s');
    run' := run + [s'];
  }

  /** One submitter performs a whole submission while the workers have not started. */
  lemma {:induction false} SubmitOne(run: seq<State>, i: nat) returns (run': seq<State>)
    requires IsRun(run) && Idle(Last(run)) && i < |Last(run).submitters| && Last(run).submitters[i].Lock?
    ensures IsRun(run') && run'[0] == run[0] && Idle(Last(run'))
    ensures Last(run').count == Last(run).count + 1 && |Last(run').queue| == |Last(run).queue|
    ensures Tasks(Last(run')) == Tasks(Last(run)) - 1
  {
    var s := Last(run);
    run' := Extend(run, i);
    run' := Extend(run', i);
    run' := Extend(run', i);
    run' := Extend(run', i);
    run' := Extend(run', i);
    var s' := Last(run');
    assert s'.workers == s.workers;
    assert s'.submitters == s.submitters[i := LoopHead(Rest(s.submitters[i].todo))];
    SumUpdate(s.submitters, i, s'.submitters[i], Remaining);
  }

  lemma {:induction false} FillUp(run: seq<State>) returns (run': seq<State>)
    requires IsRun(run) && Idle(Last(run)) && Last(run).count <= |Last(run).queue|
    requires Last(run).count + Tasks(Last(run)) > |Last(run).queue|
    ensures IsRun(run') && run'[0] == run[0] && Overflows(Last(run'))
    decreases |Last(run).queue| - Last(run).count
  {
    var s := Last(run);
    if forall i | 0 <= i < |s.submitters| :: s.submitters[i].Done? {
      SumBounds(s.submitters, Remaining, 0, 0);
      assert false;
    }
    var i :| 0 <= i < |s.submitters| && !s.submitters[i].Done?;
    if s.count == |s.queue| {
      run' := Extend(run, i);
      assert Last(run').submitters[i].Store?;
    } else {
      run' := SubmitOne(run, i);
      run' := FillUp(run');
    }
  }

  /** The array is large enough for every run exactly when it has room for all tasks of the program. */
  lemma {:induction false} ArrayIsLargeEnough(s: State)
    requires Init(s)
    ensures (forall run :: IsRun(run) && run[0] == s ==> !Overflows(Last(run))) <==> Tasks(s) <= |s.queue|
  {
    if Tasks(s) <= |s.queue| {
      forall run | IsRun(run) && run[0] == s ensures !Overflows(Last(run)) {
        RunInv(run);
        if Overflows(Last(run)) {
          var i :| 0 <= i < |Last(run).submitters| && Last(run).submitters[i].Store?;
          StoreInBounds(Last(run), i);
        }
      }
    } else {
      var run := FillUp([s]);
      assert Overflows(Last(run));
    }
  }

  // ---- The shifting loop on the array ---------------------------------------------------------

  /** Takes the first task and moves the others down by one. */
  method TakeFirst(taskQueue: array<Task>, taskCount: nat) returns (task: Task)
    requires 0 < taskCount <= taskQueue.Length
    modifies taskQueue
    ensures task == old(taskQueue[0])
    ensures taskQueue[..taskCount - 1] == old(taskQueue[1..taskCount])
    ensures taskQueue[taskCount - 1..] == old(taskQueue[taskCount - 1..])
  {
    task := taskQueue[0];
    var i := 0;
    while i < taskCount - 1
      invariant 0 <= i <= taskCount - 1
      invariant forall k | 0 <= k < i :: taskQueue[k] == old(taskQueue[k + 1])
      invariant forall k | i <= k < taskQueue.Length :: taskQueue[k] == old(taskQueue[k])
    {
      taskQueue[i] := taskQueue[i + 1];
      i := i + 1;
    }
  }
}
