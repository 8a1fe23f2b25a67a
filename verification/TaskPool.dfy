/** The mutex-guarded thread pool of src/threads/thread_pool.c as a transition system: any number of
    workers, each with a budget of loop iterations, and any number of pushing threads. Each
    statement of the source is one step; steps of different threads interleave freely. */
module TaskPool {
  import opened Lists
  import opened Sums
  import opened Options

  /** A task in memory. Pointers and results are numbers; the function is total. */
  datatype Task = Task(run: int -> int, arg: int, ret: Option<int>, isFinished: bool, isRunning: bool)

  /** The statement of process_task that a worker executes next; a task is given by its address. */
  datatype Pc =
    | Lock | Check | Fetch | AdvanceHead(task: nat) | DecreaseCount(task: nat) | SetRunning(task: nat)
    | Call(task: nat) | StoreRet(task: nat, res: int) | SetFinished(task: nat) | ClearRunning(task: nat)
    | Unlock | CountUp | Exited

  datatype Worker = Worker(pc: Pc, counter: nat)

  /** The statement of thread_pool_push_task that a pusher executes next, with its tasks to push. */
  datatype Pusher =
    | LockPool(todo: seq<nat>) | StoreTask(todo: seq<nat>) | AdvanceTail(todo: seq<nat>)
    | IncreaseCount(todo: seq<nat>) | UnlockPool(todo: seq<nat>) | Done

  datatype Thread = W(i: nat) | P(i: nat)

  datatype Mutex = Free | Held(owner: Thread)

  datatype State = State(
    queue: seq<nat>, head: nat, tail: nat, count: nat, mutex: Mutex, tasks: seq<Task>,
    workers: seq<Worker>, pushers: seq<Pusher>,
    pushed: seq<nat>, ran: seq<nat>, completed: seq<nat>)

  function LoopHead(todo: seq<nat>): Pusher { if todo == [] then Done else LockPool(todo) }

  ghost predicate IsThread(s: State, t: Thread) {
    match t
    case W(i) => i < |s.workers|
    case P(i) => i < |s.pushers|
  }

  ghost predicate Enabled(s: State, t: Thread) {
    && IsThread(s, t)
    && match t
       case W(i) => !s.workers[i].pc.Exited? && (s.workers[i].pc.Lock? ==> s.mutex.Free?)
       case P(i) => !s.pushers[i].Done? && (s.pushers[i].LockPool? ==> s.mutex.Free?)
  }

  function Apply(s: State, task: nat): int {
    if task < |s.tasks| then s.tasks[task].run(s.tasks[task].arg) else 0
  }

  ghost function AtW(s: State, i: nat, pc: Pc): State
    requires i < |s.workers|
  {
    s.(workers := s.workers[i := s.workers[i].(pc := pc)])
  }

  ghost function AtP(s: State, i: nat, pc: Pusher): State
    requires i < |s.pushers|
  {
    s.(pushers := s.pushers[i := pc])
  }

  ghost function WithTask(s: State, task: nat, f: Task -> Task): State {
    if task < |s.tasks| then s.(tasks := s.tasks[task := f(s.tasks[task])]) else s
  }

  ghost function WorkerStep(s: State, i: nat, budget: nat): State
    requires Enabled(s, W(i))
  {
    match s.workers[i].pc
    case Lock => AtW(s, i, Check).(mutex := Held(W(i)))
    case Check => if s.count > 0 then AtW(s, i, Fetch) else AtW(s, i, Unlock)
    case Fetch => AtW(s, i, AdvanceHead(Get(s.queue, s.head, 0)))
    case AdvanceHead(t) => AtW(s, i, DecreaseCount(t)).(head := s.head + 1)
    case DecreaseCount(t) => AtW(s, i, SetRunning(t)).(count := if s.count > 0 then s.count - 1 else 0)
    case SetRunning(t) => WithTask(AtW(s, i, Call(t)), t, (k: Task) => k.(isRunning := true))
    case Call(t) => AtW(s, i, StoreRet(t, Apply(s, t))).(ran := s.ran + [t])
    case StoreRet(t, res) => WithTask(AtW(s, i, SetFinished(t)), t, (k: Task) => k.(ret := Some(res)))
    case SetFinished(t) =>
      WithTask(AtW(s, i, ClearRunning(t)), t, (k: Task) => k.(isFinished := true)).(completed := s.completed + [t])
    case ClearRunning(t) => WithTask(AtW(s, i, Unlock), t, (k: Task) => k.(isRunning := false))
    case Unlock => AtW(s, i, CountUp).(mutex := Free)
    case CountUp =>
      var n := s.workers[i].counter + 1;
      s.(workers := s.workers[i := Worker(if n == budget then Exited else Lock, n)])
    case Exited => s
  }

  ghost function PusherStep(s: State, i: nat): State
    requires Enabled(s, P(i))
  {
    match s.pushers[i]
    case LockPool(todo) => AtP(s, i, StoreTask(todo)).(mutex := Held(P(i)))
    case StoreTask(todo) => AtP(s, i, AdvanceTail(todo)).(queue := Put(s.queue, s.tail, First(todo, 0)))
    case AdvanceTail(todo) => AtP(s, i, IncreaseCount(todo)).(tail := s.tail + 1, pushed := s.pushed + [First(todo, 0)])
    case IncreaseCount(todo) => AtP(s, i, UnlockPool(todo)).(count := s.count + 1)
    case UnlockPool(todo) => AtP(s, i, LoopHead(Rest(todo))).(mutex := Free)
    case Done => s
  }

  ghost function Step(s: State, t: Thread, budget: nat): State
    requires Enabled(s, t)
  {
    match t
    case W(i) => WorkerStep(s, i, budget)
    case P(i) => PusherStep(s, i)
  }

  /** The pool after some pushes, with its workers about to start. */
  ghost predicate Init(s: State) {
    && s.head == 0 && s.tail == s.count == |s.pushed| <= |s.queue| && s.queue[..s.tail] == s.pushed
    && s.mutex.Free? && s.ran == [] && s.completed == []
    && (forall i | 0 <= i < |s.workers| :: s.workers[i] == Worker(Lock, 0))
    && (forall i | 0 <= i < |s.pushers| :: s.pushers[i].Done? || (s.pushers[i].LockPool? && s.pushers[i].todo != []))
    && (forall t | 0 <= t < |s.tasks| :: !s.tasks[t].isFinished && !s.tasks[t].isRunning)
    && (forall k | k in s.pushed :: k < |s.tasks|)
    && (forall i, k | 0 <= i < |s.pushers| && !s.pushers[i].Done? && k in s.pushers[i].todo :: k < |s.tasks|)
  }

  // ---- The invariant --------------------------------------------------------------------------

  predicate Locked(pc: Pc) { !pc.Lock? && !pc.CountUp? && !pc.Exited? }
  predicate PusherLocked(p: Pusher) { !p.LockPool? && !p.Done? }

  /** The worker has a task in hand. */
  predicate HasTask(pc: Pc) {
    pc.AdvanceHead? || pc.DecreaseCount? || pc.SetRunning? || pc.Call? || pc.StoreRet? || pc.SetFinished? || pc.ClearRunning?
  }

  /** The task in hand has been marked as running. */
  predicate Marked(pc: Pc) { pc.Call? || pc.StoreRet? || pc.SetFinished? || pc.ClearRunning? }

  ghost predicate MutexInv(s: State) {
    && (s.mutex.Held? ==> IsThread(s, s.mutex.owner))
    && (forall i | 0 <= i < |s.workers| :: Locked(s.workers[i].pc) <==> s.mutex == Held(W(i)))
    && (forall i | 0 <= i < |s.pushers| :: PusherLocked(s.pushers[i]) <==> s.mutex == Held(P(i)))
    && (forall i | 0 <= i < |s.pushers| :: !s.pushers[i].Done? ==> s.pushers[i].todo != [])
  }

  /** Tasks that a pusher has still to put into the queue. */
  function Todo(p: Pusher): seq<nat> {
    match p
    case Done => []
    case IncreaseCount(todo) => Rest(todo)
    case UnlockPool(todo) => Rest(todo)
    case _ => p.todo
  }

  function Remaining(p: Pusher): int { |Todo(p)| }

  ghost predicate RoomInv(s: State) {
    && |s.pushed| + Sum(s.pushers, Remaining) <= |s.queue|
    && s.tail == |s.pushed|
    && (forall k | k in s.pushed :: k < |s.tasks|)
    && (forall i, k | 0 <= i < |s.pushers| && k in Todo(s.pushers[i]) :: k < |s.tasks|)
  }

  /** Where the worker with the mutex stands, or Lock if there is none. */
  ghost function Holder(s: State): Pc {
    if s.mutex.Held? && s.mutex.owner.W? && s.mutex.owner.i < |s.workers| then s.workers[s.mutex.owner.i].pc else Lock
  }

  ghost function PushingHolder(s: State): Pusher {
    if s.mutex.Held? && s.mutex.owner.P? && s.mutex.owner.i < |s.pushers| then s.pushers[s.mutex.owner.i] else Done
  }

  /** The queue is the history of pushes; head, ran and completed are positions in it. */
  ghost predicate HistoryInv(s: State) {
    var h, p := Holder(s), PushingHolder(s);
    && s.tail <= |s.queue| && s.queue[..s.tail] == s.pushed && s.tail == |s.pushed|
    && s.head <= s.tail
    && s.count + (if p.IncreaseCount? then 1 else 0) == s.tail - s.head + (if h.DecreaseCount? then 1 else 0)
    && (p.AdvanceTail? ==> s.tail < |s.queue| && s.queue[s.tail] == First(p.todo, 0))
    && (h.Fetch? || h.AdvanceHead? ==> s.head < s.tail)
    && (h.AdvanceHead? ==> s.pushed[s.head] == h.task)
    && (HasTask(h) && !h.AdvanceHead? ==> s.head > 0 && s.pushed[s.head - 1] == h.task)
    && |s.ran| == s.head - (if h.DecreaseCount? || h.SetRunning? || h.Call? then 1 else 0)
    && |s.completed| == |s.ran| - (if h.StoreRet? || h.SetFinished? then 1 else 0)
    && s.ran == s.pushed[..|s.ran|] && s.completed == s.pushed[..|s.completed|]
  }

  /** The flags and the result of every task. */
  ghost predicate TaskInv(s: State) {
    var h := Holder(s);
    && (HasTask(h) ==> h.task < |s.tasks|)
    && (forall t | 0 <= t < |s.tasks| :: s.tasks[t].isRunning <==> Marked(h) && h.task == t)
    && (forall t | 0 <= t < |s.tasks| :: s.tasks[t].isFinished <==> t in s.completed)
    && (forall t | 0 <= t < |s.tasks| && s.tasks[t].isFinished :: s.tasks[t].ret == Some(Apply(s, t)))
    && (h.StoreRet? ==> h.res == Apply(s, h.task))
    && (h.SetFinished? ==> s.tasks[h.task].ret == Some(Apply(s, h.task)))
  }

  ghost predicate Inv(s: State) { MutexInv(s) && RoomInv(s) && HistoryInv(s) && TaskInv(s) }

  // ---- Preservation ---------------------------------------------------------------------------

  lemma {:induction false} WorkerMutex(s: State, i: nat, budget: nat)
    requires MutexInv(s) && Enabled(s, W(i))
    ensures MutexInv(WorkerStep(s, i, budget))
  {
  }

  lemma {:induction false} PusherMutex(s: State, i: nat)
    requires MutexInv(s) && Enabled(s, P(i))
    ensures MutexInv(PusherStep(s, i))
  {
  }

  lemma {:induction false} WorkerRoom(s: State, i: nat, budget: nat)
    requires RoomInv(s) && Enabled(s, W(i))
    ensures RoomInv(WorkerStep(s, i, budget))
  {
  }

  lemma {:induction false} PusherRoom(s: State, i: nat)
    requires MutexInv(s) && RoomInv(s) && Enabled(s, P(i))
    ensures RoomInv(PusherStep(s, i))
  {
    var s' := PusherStep(s, i);
    SumUpdate(s.pushers, i, s'.pushers[i], Remaining);
    assert forall k | k in Todo(s'.pushers[i]) :: k in Todo(s.pushers[i]);
    if s.pushers[i].AdvanceTail? {
      assert First(s.pushers[i].todo, 0) in Todo(s.pushers[i]);
    }
  }

  /** There is room for the task that a pusher is about to store. */
  lemma {:induction false} StoreInBounds(s: State, i: nat)
    requires RoomInv(s) && i < |s.pushers| && Todo(s.pushers[i]) != []
    ensures s.tail < |s.queue|
  {
    SumAtLeast(s.pushers, i, Remaining);
  }

  /** The holder of the mutex is the worker that steps, unless it waits, counts or has ended. */
  lemma {:induction false} StepOfHolder(s: State, i: nat, budget: nat)
    requires MutexInv(s) && Enabled(s, W(i))
    ensures var s' := WorkerStep(s, i, budget);
      && MutexInv(s') && PushingHolder(s') == PushingHolder(s)
      && (Locked(s.workers[i].pc) ==> Holder(s) == s.workers[i].pc && PushingHolder(s) == Done)
      && (Locked(s'.workers[i].pc) ==> Holder(s') == s'.workers[i].pc)
      && (s.workers[i].pc.Lock? ==> Holder(s) == Lock && PushingHolder(s) == Done)
      && (s.workers[i].pc.Unlock? ==> Holder(s') == Lock)
      && (s.workers[i].pc.CountUp? ==> Holder(s') == Holder(s))
  {
    WorkerMutex(s, i, budget);
  }

  /** The statements before the call of the task function, and the others. */
  predicate BeforeCall(pc: Pc) {
    pc.Lock? || pc.Check? || pc.Fetch? || pc.AdvanceHead? || pc.DecreaseCount? || pc.SetRunning?
  }

  lemma {:induction false} HistoryBeforeCall(s: State, i: nat, budget: nat)
    requires Inv(s) && Enabled(s, W(i)) && BeforeCall(s.workers[i].pc)
    ensures HistoryInv(WorkerStep(s, i, budget))
  {
    StepOfHolder(s, i, budget);
    if s.workers[i].pc.Fetch? {
      assert s.queue[s.head] == s.pushed[s.head];
    }
  }

  lemma {:induction false} HistoryFromCall(s: State, i: nat, budget: nat)
    requires Inv(s) && Enabled(s, W(i)) && !BeforeCall(s.workers[i].pc)
    ensures HistoryInv(WorkerStep(s, i, budget))
  {
    StepOfHolder(s, i, budget);
    var pc := s.workers[i].pc;
    if pc.Call? || pc.SetFinished? {
      assert s.pushed[..s.head] == s.pushed[..s.head - 1] + [pc.task];
    }
  }

  lemma {:induction false} WorkerHistory(s: State, i: nat, budget: nat)
    requires Inv(s) && Enabled(s, W(i))
    ensures HistoryInv(WorkerStep(s, i, budget))
  {
    if BeforeCall(s.workers[i].pc) {
      HistoryBeforeCall(s, i, budget);
    } else {
      HistoryFromCall(s, i, budget);
    }
  }

  lemma {:induction false} StepOfPusher(s: State, i: nat)
    requires MutexInv(s) && Enabled(s, P(i))
    ensures var s' := PusherStep(s, i);
      && MutexInv(s') && Holder(s) == Holder(s') == Lock
      && (PusherLocked(s.pushers[i]) ==> PushingHolder(s) == s.pushers[i])
      && (PusherLocked(s'.pushers[i]) ==> PushingHolder(s') == s'.pushers[i])
      && (!PusherLocked(s'.pushers[i]) ==> PushingHolder(s') == Done)
      && (!PusherLocked(s.pushers[i]) ==> PushingHolder(s) == Done)
  {
    PusherMutex(s, i);
  }

  lemma {:induction false} PusherHistory(s: State, i: nat)
    requires Inv(s) && Enabled(s, P(i))
    ensures HistoryInv(PusherStep(s, i))
  {
    StepOfPusher(s, i);
    var p, s' := s.pushers[i], PusherStep(s, i);
    if p.StoreTask? {
      StoreInBounds(s, i);
      assert s'.queue[..s.tail] == s.queue[..s.tail];
    } else if p.AdvanceTail? {
      assert s.queue[..s.tail + 1] == s.queue[..s.tail] + [First(p.todo, 0)];
      assert s'.pushed[..|s.ran|] == s.pushed[..|s.ran|];
      assert s'.pushed[..|s.completed|] == s.pushed[..|s.completed|];
    }
  }

  /** Neither the function nor the argument of a task ever changes. */
  ghost predicate SameWork(s: State, s': State) {
    && |s'.tasks| == |s.tasks|
    && forall t | 0 <= t < |s.tasks| :: s'.tasks[t].run == s.tasks[t].run && s'.tasks[t].arg == s.tasks[t].arg
  }

  lemma {:induction false} WorkIsFixed(s: State, i: nat, budget: nat)
    requires Enabled(s, W(i))
    ensures SameWork(s, WorkerStep(s, i, budget))
  {
  }

  /** The statements that write to a task. */
  predicate Writes(pc: Pc) { pc.SetRunning? || pc.StoreRet? || pc.SetFinished? || pc.ClearRunning? }

  lemma {:induction false} MarksWritten(s: State, i: nat, budget: nat)
    requires Inv(s) && Enabled(s, W(i)) && (s.workers[i].pc.SetRunning? || s.workers[i].pc.ClearRunning?)
    ensures TaskInv(WorkerStep(s, i, budget))
  {
    StepOfHolder(s, i, budget);
    WorkIsFixed(s, i, budget);
  }

  lemma {:induction false} ResultsWritten(s: State, i: nat, budget: nat)
    requires Inv(s) && Enabled(s, W(i)) && (s.workers[i].pc.StoreRet? || s.workers[i].pc.SetFinished?)
    ensures TaskInv(WorkerStep(s, i, budget))
  {
    StepOfHolder(s, i, budget);
    WorkIsFixed(s, i, budget);
  }

  lemma {:induction false} TasksNotWritten(s: State, i: nat, budget: nat)
    requires Inv(s) && Enabled(s, W(i)) && !Writes(s.workers[i].pc)
    ensures TaskInv(WorkerStep(s, i, budget))
  {
    StepOfHolder(s, i, budget);
    var s' := WorkerStep(s, i, budget);
    assert s'.tasks == s.tasks && s'.completed == s.completed;
    if s.workers[i].pc.Fetch? {
      assert s.queue[s.head] == s.pushed[s.head];
      assert s.pushed[s.head] in s.pushed;
    }
  }

  lemma {:induction false} WorkerInv(s: State, i: nat, budget: nat)
    requires Inv(s) && Enabled(s, W(i))
    ensures Inv(WorkerStep(s, i, budget))
  {
    WorkerMutex(s, i, budget);
    WorkerRoom(s, i, budget);
    WorkerHistory(s, i, budget);
    var pc := s.workers[i].pc;
    if pc.SetRunning? || pc.ClearRunning? {
      MarksWritten(s, i, budget);
    } else if Writes(pc) {
      ResultsWritten(s, i, budget);
    } else {
      TasksNotWritten(s, i, budget);
    }
  }

  lemma {:induction false} PusherInv(s: State, i: nat)
    requires Inv(s) && Enabled(s, P(i))
    ensures Inv(PusherStep(s, i))
  {
    PusherMutex(s, i);
    PusherRoom(s, i);
    PusherHistory(s, i);
    StepOfPusher(s, i);
  }

  // ---- Runs -----------------------------------------------------------------------------------

  ghost predicate StepsTo(s: State, s': State, budget: nat) {
    exists t :: Enabled(s, t) && s' == Step(s, t, budget)
  }

  ghost predicate IsRun(run: seq<State>, budget: nat) {
    && run != [] && Init(run[0])
    && forall k | 0 <= k < |run| - 1 :: StepsTo(run[k], run[k + 1], budget)
  }

  ghost function Last(run: seq<State>): State
    requires run != []
  {
    run[|run| - 1]
  }

  /** The number of pushes of a program, those before the start included. */
  ghost function Pushes(s: State): int { |s.pushed| + Sum(s.pushers, Remaining) }

  ghost predicate SameSizes(s: State, s': State) {
    && |s'.workers| == |s.workers| && |s'.pushers| == |s.pushers| && |s'.queue| == |s.queue| && SameWork(s, s')
    && Pushes(s') == Pushes(s)
  }

  lemma {:induction false} InitInv(s: State)
    requires Init(s) && Pushes(s) <= |s.queue|
    ensures Inv(s)
  {
    SumNonNegative(s.pushers, Remaining);
  }

  lemma {:induction false} WorkerSizes(s: State, i: nat, budget: nat)
    requires Enabled(s, W(i))
    ensures SameSizes(s, WorkerStep(s, i, budget))
  {
    WorkIsFixed(s, i, budget);
  }

  lemma {:induction false} PusherSizes(s: State, i: nat)
    requires MutexInv(s) && Enabled(s, P(i))
    ensures SameSizes(s, PusherStep(s, i))
  {
    SumUpdate(s.pushers, i, PusherStep(s, i).pushers[i], Remaining);
  }

  lemma {:induction false} SizesCompose(s: State, s': State, s'': State)
    requires SameSizes(s, s') && SameSizes(s', s'')
    ensures SameSizes(s, s'')
  {
  }

  lemma {:induction false} StepInv(s: State, s': State, budget: nat)
    requires Inv(s) && StepsTo(s, s', budget)
    ensures Inv(s') && SameSizes(s, s')
  {
    var t :| Enabled(s, t) && s' == Step(s, t, budget);
    if t.W? {
      WorkerInv(s, t.i, budget);
      WorkerSizes(s, t.i, budget);
    } else {
      PusherInv(s, t.i);
      PusherSizes(s, t.i);
    }
  }

  lemma {:induction false} RunInv(run: seq<State>, budget: nat)
    requires IsRun(run, budget) && Pushes(run[0]) <= |run[0].queue|
    ensures Inv(Last(run)) && SameSizes(run[0], Last(run))
    decreases |run|
  {
    if |run| == 1 {
      InitInv(run[0]);
    } else {
      RunInv(run[..|run| - 1], budget);
      StepInv(run[|run| - 2], run[|run| - 1], budget);
      SizesCompose(run[0], run[|run| - 2], run[|run| - 1]);
    }
  }

  /** A run without its last step. */
  lemma {:induction false} Shorter(run: seq<State>, budget: nat) returns (init: seq<State>)
    requires IsRun(run, budget) && Pushes(run[0]) <= |run[0].queue| && |run| > 1
    ensures IsRun(init, budget) && init[0] == run[0] && |init| == |run| - 1 && init < run
    ensures Inv(Last(init)) && StepsTo(Last(init), Last(run), budget)
  {
    init := run[..|run| - 1];
    RunInv(init, budget);
    assert StepsTo(run[|run| - 2], run[|run| - 1], budget);
  }

  /** The queue as a history, in every state of every run: tail counts the pushes, head the tasks taken,
      and while no thread has the mutex tail - head is count; the tasks whose function has been called,
      and those completed, are prefixes of the pushes in order; at most one task is running. */
  lemma {:induction false} QueueHistory(run: seq<State>, budget: nat)
    requires IsRun(run, budget) && Pushes(run[0]) <= |run[0].queue|
    ensures var s := Last(run);
      && s.tail == |s.pushed| && s.head <= s.tail
      && (s.mutex.Free? ==> s.count == s.tail - s.head && |s.completed| == |s.ran| == s.head)
      && s.completed <= s.ran <= s.pushed && |s.ran| <= s.head <= |s.ran| + 1
      && (forall t, u | 0 <= t < |s.tasks| && 0 <= u < |s.tasks| :: s.tasks[t].isRunning && s.tasks[u].isRunning ==> t == u)
  {
    RunInv(run, budget);
  }

  // ---- Progress and termination ---------------------------------------------------------------

  /** While a thread has not ended, some thread can step. */
  lemma {:induction false} SomeThreadCanStep(run: seq<State>, budget: nat)
    requires IsRun(run, budget) && Pushes(run[0]) <= |run[0].queue|
    requires (exists i :: 0 <= i < |Last(run).workers| && !Last(run).workers[i].pc.Exited?)
          || (exists i :: 0 <= i < |Last(run).pushers| && !Last(run).pushers[i].Done?)
    ensures exists t :: Enabled(Last(run), t)
  {
    RunInv(run, budget);
    var s := Last(run);
    if s.mutex.Held? {
      assert Enabled(s, s.mutex.owner);
    } else if i :| 0 <= i < |s.workers| && !s.workers[i].pc.Exited? {
      assert Enabled(s, W(i));
    } else {
      var i :| 0 <= i < |s.pushers| && !s.pushers[i].Done?;
      assert Enabled(s, P(i));
    }
  }

  /** How far an iteration of the worker loop has come. */
  function Position(pc: Pc): int {
    match pc
    case Lock => 0
    case Check => 1
    case Fetch => 2
    case AdvanceHead(_) => 3
    case DecreaseCount(_) => 4
    case SetRunning(_) => 5
    case Call(_) => 6
    case StoreRet(_, _) => 7
    case SetFinished(_) => 8
    case ClearRunning(_) => 9
    case Unlock => 10
    case CountUp => 11
    case Exited => 0
  }

  function PusherPosition(p: Pusher): int {
    match p
    case LockPool(_) => 0
    case StoreTask(_) => 1
    case AdvanceTail(_) => 2
    case IncreaseCount(_) => 3
    case UnlockPool(_) => 4
    case Done => 0
  }

  /** Steps that a worker has at most still to take; a loop iteration has twelve. */
  function WorkerRank(w: Worker, budget: nat): int { (budget - w.counter) * 12 - Position(w.pc) }

  function PusherRank(p: Pusher): int { if p.Done? then 0 else 5 * |p.todo| - PusherPosition(p) }

  ghost predicate BudgetInv(s: State, budget: nat) {
    forall i | 0 <= i < |s.workers| ::
      s.workers[i].counter <= budget && (s.workers[i].pc.Exited? <==> s.workers[i].counter == budget)
  }

  ghost function Work(s: State, budget: nat): int {
    Sum(s.workers, (w: Worker) => WorkerRank(w, budget)) + Sum(s.pushers, PusherRank)
  }

  lemma {:induction false} WorkerRankFalls(s: State, i: nat, budget: nat)
    requires Enabled(s, W(i))
    ensures WorkerRank(WorkerStep(s, i, budget).workers[i], budget) < WorkerRank(s.workers[i], budget)
  {
    var w := s.workers[i];
    if w.pc.CountUp? {
      assert WorkerStep(s, i, budget).workers[i].counter == w.counter + 1;
    } else {
      PositionRises(s, i, budget);
    }
  }

  lemma {:induction false} PositionRises(s: State, i: nat, budget: nat)
    requires Enabled(s, W(i)) && !s.workers[i].pc.CountUp?
    ensures var w, w' := s.workers[i], WorkerStep(s, i, budget).workers[i];
      w'.counter == w.counter && Position(w'.pc) > Position(w.pc) && w'.pc != Exited
  {
  }

  lemma {:induction false} WorkerWorks(s: State, i: nat, budget: nat)
    requires BudgetInv(s, budget) && Enabled(s, W(i))
    ensures BudgetInv(WorkerStep(s, i, budget), budget) && Work(WorkerStep(s, i, budget), budget) < Work(s, budget)
  {
    var s' := WorkerStep(s, i, budget);
    assert s'.workers == s.workers[i := s'.workers[i]] && s'.pushers == s.pushers;
    WorkerRankFalls(s, i, budget);
    SumUpdate(s.workers, i, s'.workers[i], (w: Worker) => WorkerRank(w, budget));
  }

  lemma {:induction false} PusherWorks(s: State, i: nat, budget: nat)
    requires MutexInv(s) && BudgetInv(s, budget) && Enabled(s, P(i))
    ensures BudgetInv(PusherStep(s, i), budget) && Work(PusherStep(s, i), budget) < Work(s, budget)
  {
    var s' := PusherStep(s, i);
    assert s'.pushers == s.pushers[i := s'.pushers[i]] && s'.workers == s.workers;
    SumUpdate(s.pushers, i, s'.pushers[i], PusherRank);
  }

  lemma {:induction false} StepWorks(s: State, s': State, budget: nat)
    requires MutexInv(s) && BudgetInv(s, budget) && StepsTo(s, s', budget)
    ensures BudgetInv(s', budget) && Work(s', budget) < Work(s, budget)
  {
    var t :| Enabled(s, t) && s' == Step(s, t, budget);
    if t.W? {
      WorkerWorks(s, t.i, budget);
    } else {
      PusherWorks(s, t.i, budget);
    }
  }

  lemma {:induction false} WorkNotNegative(s: State, budget: nat)
    requires MutexInv(s) && BudgetInv(s, budget)
    ensures Work(s, budget) >= 0
  {
    SumNonNegative(s.workers, (w: Worker) => WorkerRank(w, budget));
    SumNonNegative(s.pushers, PusherRank);
  }

  lemma {:induction false} WorkAtStart(s: State, budget: nat)
    requires Init(s)
    ensures Work(s, budget) == 12 * budget * |s.workers| + 5 * Sum(s.pushers, Remaining)
  {
    SumBounds(s.workers, (w: Worker) => WorkerRank(w, budget), 12 * budget, 12 * budget);
    PusherWorkAtStart(s.pushers);
  }

  lemma {:induction false} PusherWorkAtStart(pushers: seq<Pusher>)
    requires forall i | 0 <= i < |pushers| :: pushers[i].Done? || pushers[i].LockPool?
    ensures Sum(pushers, PusherRank) == 5 * Sum(pushers, Remaining)
  {
    if pushers != [] {
      PusherWorkAtStart(pushers[1..]);
    }
  }

  /** Every run ends: with T workers of N iterations each and k tasks pushed meanwhile there are at
      most 12 * N * T + 5 * k steps. */
  lemma {:induction false} RunsEnd(run: seq<State>, budget: nat)
    requires IsRun(run, budget) && Pushes(run[0]) <= |run[0].queue| && budget > 0
    ensures BudgetInv(Last(run), budget)
    ensures |run| - 1 + Work(Last(run), budget) <= Work(run[0], budget)
    ensures |run| - 1 <= 12 * budget * |run[0].workers| + 5 * Sum(run[0].pushers, Remaining)
    decreases |run|
  {
    if |run| > 1 {
      RunInv(run[..|run| - 1], budget);
      RunsEnd(run[..|run| - 1], budget);
      StepWorks(run[|run| - 2], run[|run| - 1], budget);
    }
    RunInv(run, budget);
    WorkNotNegative(Last(run), budget);
    WorkAtStart(run[0], budget);
  }

  // ---- Draining -------------------------------------------------------------------------------

  /** Iterations that a worker has begun, counted from its test of the queue. */
  function Tests(w: Worker): int { w.counter + if w.pc.Lock? || w.pc.Check? || w.pc.Exited? then 0 else 1 }

  /** Tasks taken from the queue, or about to be. */
  ghost function Takes(s: State): int { s.head + if Holder(s).Fetch? || Holder(s).AdvanceHead? then 1 else 0 }

  /** Without further pushes, every iteration so far took a task unless the queue is exhausted. */
  ghost predicate DrainInv(s: State) {
    && (forall i | 0 <= i < |s.pushers| :: s.pushers[i].Done?)
    && Takes(s) == if Sum(s.workers, Tests) < |s.pushed| then Sum(s.workers, Tests) else |s.pushed|
  }

  lemma {:induction false} TestsStep(s: State, i: nat, budget: nat)
    requires Enabled(s, W(i))
    ensures var s' := WorkerStep(s, i, budget);
      Sum(s'.workers, Tests) == Sum(s.workers, Tests) + if s.workers[i].pc.Check? then 1 else 0
  {
    var s' := WorkerStep(s, i, budget);
    assert s'.workers == s.workers[i := s'.workers[i]];
    SumUpdate(s.workers, i, s'.workers[i], Tests);
  }

  lemma {:induction false} TakesStep(s: State, i: nat, budget: nat)
    requires MutexInv(s) && Enabled(s, W(i))
    ensures Takes(WorkerStep(s, i, budget)) == Takes(s) + if s.workers[i].pc.Check? && s.count > 0 then 1 else 0
  {
    StepOfHolder(s, i, budget);
  }

  lemma {:induction false} StepDrains(s: State, s': State, budget: nat)
    requires Inv(s) && DrainInv(s) && StepsTo(s, s', budget)
    ensures DrainInv(s') && s'.pushed == s.pushed
  {
    var t :| Enabled(s, t) && s' == Step(s, t, budget);
    assert t.W? && s'.pushers == s.pushers && s'.pushed == s.pushed;
    TestsStep(s, t.i, budget);
    TakesStep(s, t.i, budget);
    StepOfHolder(s, t.i, budget);
  }

  lemma {:induction false} RunDrains(run: seq<State>, budget: nat)
    requires IsRun(run, budget) && |run[0].pushed| <= |run[0].queue|
    requires forall i | 0 <= i < |run[0].pushers| :: run[0].pushers[i].Done?
    ensures Inv(Last(run)) && DrainInv(Last(run)) && Last(run).pushed == run[0].pushed
    decreases |run|
  {
    SumBounds(run[0].pushers, Remaining, 0, 0);
    RunInv(run, budget);
    if |run| == 1 {
      SumBounds(run[0].workers, Tests, 0, 0);
    } else {
      var init := Shorter(run, budget);
      RunDrains(init, budget);
      StepDrains(Last(init), Last(run), budget);
    }
  }

  /** Drain: if k tasks are pushed before T workers of N iterations each start, then when all
      workers have ended exactly min(k, T * N) tasks have run and completed, the first ones pushed in
      their order. Those are finished, with the result of their function, and no others are. */
  lemma {:induction false} Drain(run: seq<State>, budget: nat)
    requires IsRun(run, budget) && |run[0].pushed| <= |run[0].queue| && budget > 0
    requires forall i | 0 <= i < |run[0].pushers| :: run[0].pushers[i].Done?
    requires forall i | 0 <= i < |Last(run).workers| :: Last(run).workers[i].pc.Exited?
    ensures var s, k, iterations := Last(run), |run[0].pushed|, budget * |run[0].workers|;
      && s.ran == s.completed == run[0].pushed[..if k < iterations then k else iterations]
      && |s.tasks| == |run[0].tasks|
      && forall t | 0 <= t < |s.tasks| ::
           && (s.tasks[t].isFinished <==> t in s.ran)
           && (t in s.ran ==> s.tasks[t].ret == Some(run[0].tasks[t].run(run[0].tasks[t].arg)))
  {
    SumBounds(run[0].pushers, Remaining, 0, 0);
    RunDrains(run, budget);
    RunInv(run, budget);
    RunsEnd(run, budget);
    SumBounds(Last(run).workers, Tests, budget, budget);
  }

  // ---- The size of the queue ------------------------------------------------------------------

  /** Some pusher is about to store past the end of the queue. */
  ghost predicate Overflows(s: State) {
    exists i :: 0 <= i < |s.pushers| && s.pushers[i].StoreTask? && s.tail >= |s.queue|
  }

  /** No thread is in its critical section, and no pusher is between two statements of a push. */
  ghost predicate Idle(s: State) {
    s.mutex.Free? && forall i | 0 <= i < |s.pushers| :: s.pushers[i].Done? || (s.pushers[i].LockPool? && s.pushers[i].todo != [])
  }

  lemma {:induction false} Extend(run: seq<State>, budget: nat, i: nat) returns (run': seq<State>)
    requires IsRun(run, budget) && Enabled(Last(run), P(i))
    ensures IsRun(run', budget) && run'[0] == run[0] && Last(run') == PusherStep(Last(run), i)
  {
    var s' := Step(Last(run), P(i), budget);
    assert StepsTo(Last(run), s', budget);
    run' := run + [s'];
  }

  /** One pusher performs a whole push. */
  lemma {:induction false} PushOne(run: seq<State>, budget: nat, i: nat) returns (run': seq<State>)
    requires IsRun(run, budget) && Idle(Last(run)) && i < |Last(run).pushers| && Last(run).pushers[i].LockPool?
    ensures IsRun(run', budget) && run'[0] == run[0] && Idle(Last(run'))
    ensures Last(run').tail == Last(run).tail + 1 && |Last(run').queue| == |Last(run).queue|
    ensures Sum(Last(run').pushers, Remaining) == Sum(Last(run).pushers, Remaining) - 1
  {
    var s := Last(run);
    run' := Extend(run, budget, i);
    run' := Extend(run', budget, i);
    run' := Extend(run', budget, i);
    run' := Extend(run', budget, i);
    run' := Extend(run', budget, i);
    var s' := Last(run');
    assert s'.pushers == s.pushers[i := LoopHead(Rest(s.pushers[i].todo))];
    SumUpdate(s.pushers, i, s'.pushers[i], Remaining);
  }

  lemma {:induction false} FillUp(run: seq<State>, budget: nat) returns (run': seq<State>)
    requires IsRun(run, budget) && Idle(Last(run)) && Last(run).tail <= |Last(run).queue|
    requires Last(run).tail + Sum(Last(run).pushers, Remaining) > |Last(run).queue|
    ensures IsRun(run', budget) && run'[0] == run[0] && Overflows(Last(run'))
    decreases |Last(run).queue| - Last(run).tail
  {
    var s := Last(run);
    if forall i | 0 <= i < |s.pushers| :: s.pushers[i].Done? {
      SumBounds(s.pushers, Remaining, 0, 0);
      assert false;
    }
    var i :| 0 <= i < |s.pushers| && !s.pushers[i].Done?;
    if s.tail == |s.queue| {
      run' := Extend(run, budget, i);
      assert Last(run').pushers[i].StoreTask?;
    } else {
      run' := PushOne(run, budget, i);
      run' := FillUp(run', budget);
    }
  }

  /** The queue never wraps and its check compares the number of threads: it is large enough for every run
      exactly when it has room for all pushes of the program. */
  lemma {:induction false} QueueIsLargeEnough(s: State, budget: nat)
    requires Init(s)
    ensures (forall run :: IsRun(run, budget) && run[0] == s ==> !Overflows(Last(run))) <==> Pushes(s) <= |s.queue|
  {
    if Pushes(s) <= |s.queue| {
      forall run | IsRun(run, budget) && run[0] == s ensures !Overflows(Last(run)) {
        RunInv(run, budget);
        if Overflows(Last(run)) {
          var i :| 0 <= i < |Last(run).pushers| && Last(run).pushers[i].StoreTask?;
          StoreInBounds(Last(run), i);
        }
      }
    } else {
      var run := FillUp([s], budget);
      assert Overflows(Last(run));
    }
  }

  // ---- Joining --------------------------------------------------------------------------------

  function Count(history: seq<nat>, t: nat): nat {
    if history == [] then 0
    else Count(history[..|history| - 1], t) + if history[|history| - 1] == t then 1 else 0
  }

  lemma {:induction false} CountConcat(a: seq<nat>, b: seq<nat>, t: nat)
    ensures Count(a + b, t) == Count(a, t) + Count(b, t)
  {
    if b == [] {
      assert a + b == a;
    } else {
      assert (a + b)[..|a + b| - 1] == a + b[..|b| - 1];
      CountConcat(a, b[..|b| - 1], t);
    }
  }

  lemma {:induction false} CountPositive(history: seq<nat>, i: nat)
    requires i < |history|
    ensures Count(history, history[i]) > 0
  {
    if i < |history| - 1 {
      CountPositive(history[..|history| - 1], i);
    }
  }

  /** How often a task is pushed in a run: so far, and by what the pushers have still to do. */
  ghost function TimesPushed(s: State, t: nat): int {
    Count(s.pushed, t) + Sum(s.pushers, (p: Pusher) => Count(Todo(p), t))
  }

  lemma {:induction false} TodoStep(s: State, i: nat)
    requires MutexInv(s) && Enabled(s, P(i))
    ensures var p, p' := s.pushers[i], PusherStep(s, i).pushers[i];
      Todo(p) == if p.AdvanceTail? then [First(p.todo, 0)] + Todo(p') else Todo(p')
  {
  }

  lemma {:induction false} PusherPushes(s: State, i: nat, t: nat)
    requires MutexInv(s) && Enabled(s, P(i))
    ensures TimesPushed(PusherStep(s, i), t) == TimesPushed(s, t)
  {
    var p, s' := s.pushers[i], PusherStep(s, i);
    assert s'.pushers == s.pushers[i := s'.pushers[i]];
    SumUpdate(s.pushers, i, s'.pushers[i], (p: Pusher) => Count(Todo(p), t));
    TodoStep(s, i);
    if p.AdvanceTail? {
      CountConcat(s.pushed, [First(p.todo, 0)], t);
      CountConcat([First(p.todo, 0)], Todo(s'.pushers[i]), t);
    }
  }

  lemma {:induction false} StepPushes(s: State, s': State, budget: nat, t: nat)
    requires MutexInv(s) && StepsTo(s, s', budget)
    ensures TimesPushed(s', t) == TimesPushed(s, t)
  {
    var th :| Enabled(s, th) && s' == Step(s, th, budget);
    if th.P? {
      PusherPushes(s, th.i, t);
    } else {
      assert s'.pushed == s.pushed && s'.pushers == s.pushers;
    }
  }

  /** A worker is about to read or write the memory of task t. */
  ghost predicate Touches(s: State, t: nat) {
    exists i :: 0 <= i < |s.workers| &&
      (Marked(s.workers[i].pc) || s.workers[i].pc.SetRunning?) && s.workers[i].pc.task == t
  }

  /** What the spin loop of thread_task_join waits for, of a task that is pushed at most once. */
  ghost predicate Joined(s: State, t: nat) {
    t < |s.tasks| && TimesPushed(s, t) <= 1 && s.tasks[t].isFinished && !s.tasks[t].isRunning
  }

  /** The entry of a completed task that is pushed once is the only one in the queue. */
  lemma {:induction false} CompletedOnlyOnce(s: State, t: nat, k: nat)
    requires Inv(s) && t in s.completed && TimesPushed(s, t) <= 1
    requires |s.completed| <= k < |s.pushed|
    ensures s.pushed[k] != t
  {
    SumNonNegative(s.pushers, (p: Pusher) => Count(Todo(p), t));
    if s.pushed[k] == t {
      var j :| 0 <= j < |s.completed| && s.completed[j] == t;
      TwoEntries(s.pushed, j, |s.completed|, k, t);
    }
  }

  lemma {:induction false} TwoEntries(history: seq<nat>, j: nat, c: nat, k: nat, t: nat)
    requires j < c <= k < |history| && history[j] == history[k] == t
    ensures Count(history, t) >= 2
  {
    assert history == history[..c] + history[c..];
    CountConcat(history[..c], history[c..], t);
    CountPositive(history[..c], j);
    CountPositive(history[c..], k - c);
  }

  lemma {:induction false} JoinedIsQuiet(s: State, t: nat)
    requires Inv(s) && Joined(s, t)
    ensures !Touches(s, t) && s.tasks[t].ret == Some(Apply(s, t))
  {
    if Touches(s, t) {
      var i :| 0 <= i < |s.workers| && (Marked(s.workers[i].pc) || s.workers[i].pc.SetRunning?) && s.workers[i].pc.task == t;
      assert Holder(s) == s.workers[i].pc;
      CompletedOnlyOnce(s, t, s.head - 1);
    }
  }

  lemma {:induction false} OthersKeepTask(s: State, i: nat, budget: nat, t: nat)
    requires Enabled(s, W(i)) && t < |s.tasks| && (Writes(s.workers[i].pc) ==> s.workers[i].pc.task != t)
    ensures |WorkerStep(s, i, budget).tasks| == |s.tasks| && WorkerStep(s, i, budget).tasks[t] == s.tasks[t]
  {
  }

  lemma {:induction false} StepKeepsJoined(s: State, s': State, budget: nat, t: nat)
    requires Inv(s) && Joined(s, t) && StepsTo(s, s', budget)
    ensures Joined(s', t) && s'.tasks[t] == s.tasks[t]
  {
    JoinedIsQuiet(s, t);
    StepPushes(s, s', budget, t);
    var th :| Enabled(s, th) && s' == Step(s, th, budget);
    if th.W? {
      OthersKeepTask(s, th.i, budget, t);
    }
  }

  lemma {:induction false} RunKeepsJoined(run: seq<State>, budget: nat, i: nat, t: nat, s: State)
    requires IsRun(run, budget) && Pushes(run[0]) <= |run[0].queue|
    requires i < |run| && run[i] == s && Joined(s, t)
    ensures Joined(Last(run), t) && Last(run).tasks[t] == s.tasks[t]
    decreases |run|
  {
    if i < |run| - 1 {
      var init := Shorter(run, budget);
      RunKeepsJoined(init, budget, i, t, s);
      StepKeepsJoined(Last(init), Last(run), budget, t);
    }
  }

  lemma {:induction false} RunKeepsFinished(run: seq<State>, budget: nat, i: nat, t: nat, s: State)
    requires IsRun(run, budget) && Pushes(run[0]) <= |run[0].queue|
    requires i < |run| && run[i] == s && t < |s.tasks| && s.tasks[t].isFinished
    ensures t < |Last(run).tasks| && Last(run).tasks[t].isFinished
    decreases |run|
  {
    if i < |run| - 1 {
      var init := Shorter(run, budget);
      RunKeepsFinished(init, budget, i, t, s);
      StepKeepsFinished(Last(init), Last(run), budget, t);
    }
  }

  lemma {:induction false} StepKeepsFinished(s: State, s': State, budget: nat, t: nat)
    requires StepsTo(s, s', budget) && t < |s.tasks| && s.tasks[t].isFinished
    ensures t < |s'.tasks| && s'.tasks[t].isFinished
  {
    var th :| Enabled(s, th) && s' == Step(s, th, budget);
    if th.W? {
      WorkerKeepsFinished(s, th.i, budget, t);
    }
  }

  lemma {:induction false} WorkerKeepsFinished(s: State, i: nat, budget: nat, t: nat)
    requires Enabled(s, W(i)) && t < |s.tasks| && s.tasks[t].isFinished
    ensures t < |WorkerStep(s, i, budget).tasks| && WorkerStep(s, i, budget).tasks[t].isFinished
  {
  }

  lemma {:induction false} OnlyPusher(s: State, s': State, budget: nat)
    requires MutexInv(s) && |s.pushers| == 1 && StepsTo(s, s', budget)
    ensures |s'.pushers| == 1 && s'.pushed + Todo(s'.pushers[0]) == s.pushed + Todo(s.pushers[0])
  {
    var th :| Enabled(s, th) && s' == Step(s, th, budget);
    if th.W? {
      WorkerPushesNothing(s, th.i, budget);
    } else {
      TodoStep(s, 0);
      var p := s.pushers[0];
      if p.AdvanceTail? {
        assert s.pushed + ([First(p.todo, 0)] + Todo(s'.pushers[0])) == s.pushed + [First(p.todo, 0)] + Todo(s'.pushers[0]);
      }
    }
  }

  lemma {:induction false} WorkerPushesNothing(s: State, i: nat, budget: nat)
    requires Enabled(s, W(i))
    ensures WorkerStep(s, i, budget).pushed == s.pushed && WorkerStep(s, i, budget).pushers == s.pushers
  {
  }

  /** A single pusher pushes its tasks in their order. */
  lemma {:induction false} PushedInOrder(run: seq<State>, budget: nat)
    requires IsRun(run, budget) && Pushes(run[0]) <= |run[0].queue| && |run[0].pushers| == 1
    ensures |Last(run).pushers| == 1
    ensures Last(run).pushed + Todo(Last(run).pushers[0]) == run[0].pushed + Todo(run[0].pushers[0])
    decreases |run|
  {
    if |run| > 1 {
      var init := Shorter(run, budget);
      PushedInOrder(init, budget);
      OnlyPusher(Last(init), Last(run), budget);
    }
  }

  /** Every task is pushed as often as the pushers were given it, less what they have still to push. */
  lemma {:induction false} RunKeepsPushes(run: seq<State>, budget: nat, t: nat)
    requires IsRun(run, budget) && Pushes(run[0]) <= |run[0].queue|
    ensures TimesPushed(Last(run), t) == TimesPushed(run[0], t)
    decreases |run|
  {
    if |run| > 1 {
      var init := Shorter(run, budget);
      RunKeepsPushes(init, budget, t);
      StepPushes(Last(init), Last(run), budget, t);
    }
  }

  /** Join is sound for a task that is pushed at most once: if the spin loop sees is_finished set at
      one moment of a run and is_running clear at a later one, then from then on, in every later state,
      the stored result is that of the function, the task does not change, and no worker is about to
      touch its memory, so that reading the result and deleting the task are safe. */
  lemma {:induction false} JoinIsSound(run: seq<State>, budget: nat, i: nat, j: nat, t: nat)
    requires IsRun(run, budget) && Pushes(run[0]) <= |run[0].queue| && TimesPushed(run[0], t) <= 1
    requires i <= j < |run| && t < |run[i].tasks| && run[i].tasks[t].isFinished
    requires t < |run[j].tasks| && !run[j].tasks[t].isRunning
    ensures var s := Last(run);
      && t < |s.tasks| && s.tasks[t] == run[j].tasks[t] && !Touches(s, t)
      && t < |run[0].tasks| && s.tasks[t].ret == Some(run[0].tasks[t].run(run[0].tasks[t].arg))
  {
    var seen := run[..j + 1];
    RunKeepsFinished(seen, budget, i, t, run[i]);
    RunKeepsPushes(seen, budget, t);
    assert Joined(run[j], t);
    RunKeepsJoined(run, budget, j, t, run[j]);
    RunInv(run, budget);
    JoinedIsQuiet(Last(run), t);
  }
}
