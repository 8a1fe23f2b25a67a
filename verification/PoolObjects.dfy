/** The pool and its tasks as objects in memory (src/threads/thread_pool.c): what one push, one loop
    iteration and one whole worker do to the fields, when no other thread interferes. TaskPool says
    what happens when they do. */
module PoolObjects {
  import opened Options

  const TPOOL_MAX_THREADS: nat := 20
  const TPOOL_MAX_TASKS: nat := 100000

  datatype Code = Ok | InvalidArgument | TooManyTasks

  class ThreadTask {
    const run: int -> int
    const arg: int
    var ret: Option<int>
    var isFinished: bool
    var isRunning: bool

    constructor (run: int -> int, arg: int)
      ensures this.run == run && this.arg == arg && ret == None && !isFinished && !isRunning
    {
      this.run, this.arg, ret, isFinished, isRunning := run, arg, None, false, false;
    }

    /** The result of the function is stored and the flags say so. */
    ghost predicate Executed()
      reads this
    {
      isFinished && !isRunning && ret == Some(run(arg))
    }
  }

  /** thread_pool_new. */
  method NewPool(maxThreadCount: int) returns (code: Code, pool: ThreadPool?)
    ensures code == (if 1 <= maxThreadCount <= 20 then Ok else InvalidArgument)
    ensures code != Ok ==> pool == null
    ensures code == Ok ==> pool != null && fresh(pool) && pool.Valid() && pool.Waiting() == []
    ensures code == Ok ==> pool.queue.Length == 100000 && pool.maxThreads == maxThreadCount
  {
    if maxThreadCount > TPOOL_MAX_THREADS || maxThreadCount < 1 {
      return InvalidArgument, null;
    }
    pool := new ThreadPool(maxThreadCount);
    code := Ok;
  }

  class ThreadPool {
    const maxThreads: nat
    var threadCount: nat
    var queue: array<ThreadTask?>
    var queueHead: nat
    var queueTail: nat
    var queueCount: nat

    /** The tasks that wait, in order. */
    ghost function Waiting(): seq<ThreadTask?>
      requires queueHead <= queueTail <= queue.Length
      reads this, queue
    {
      queue[queueHead..queueTail]
    }

    ghost predicate Valid()
      reads this, queue
    {
      && threadCount <= maxThreads <= TPOOL_MAX_THREADS && queue.Length == TPOOL_MAX_TASKS
      && queueHead + queueCount == queueTail <= queue.Length
      && (forall k | queueHead <= k < queueTail :: queue[k] != null)
    }

    constructor (maxThreadCount: nat)
      requires 1 <= maxThreadCount <= TPOOL_MAX_THREADS
      ensures Valid() && Waiting() == [] && fresh(queue) && maxThreads == maxThreadCount
    {
      maxThreads, threadCount := maxThreadCount, 0;
      queue := new ThreadTask?[TPOOL_MAX_TASKS](_ => null);
      queueHead, queueTail, queueCount := 0, 0, 0;
    }

    /** thread_pool_push_task. Its check compares the number of threads, so it never refuses a task:
        that the tail stays inside the array is left to the caller. */
    method PushTask(task: ThreadTask) returns (code: Code)
      requires Valid() && queueTail < queue.Length
      modifies this, queue
      ensures Valid() && queue == old(queue) && code == Ok
      ensures Waiting() == old(Waiting()) + [task] && queue[..] == old(queue[..])[old(queueTail) := task]
      ensures queueHead == old(queueHead) && queueTail == old(queueTail) + 1 && threadCount == old(threadCount)
    {
      if threadCount + 1 == TPOOL_MAX_TASKS {
        return TooManyTasks;
      }
      queue[queueTail] := task;
      queueTail := queueTail + 1;
      queueCount := queueCount + 1;
      code := Ok;
    }

    /** The critical section of one loop iteration. */
    method Iteration()
      requires Valid()
      modifies this, if queueCount > 0 then {queue[queueHead]} else {}
      ensures Valid() && queue == old(queue) && threadCount == old(threadCount)
      ensures queue[..] == old(queue[..]) && queueTail == old(queueTail)
      ensures old(queueCount) == 0 ==> queueHead == old(queueHead)
      ensures old(queueCount) > 0 ==> queueHead == old(queueHead) + 1 && queue[old(queueHead)].Executed()
    {
      if queueCount > 0 {
        var task := queue[queueHead];
        queueHead := queueHead + 1;
        queueCount := queueCount - 1;
        task.isRunning := true;
        var res := task.run(task.arg);
        task.ret := Some(res);
        task.isFinished := true;
        task.isRunning := false;
      }
    }

    /** A worker with a budget of iterations executes exactly that many tasks from the front of the
        queue, or all of them if there are fewer, and touches no other. */
    method ProcessTask(budget: nat)
      requires Valid() && budget > 0
      modifies this, set k | queueHead <= k < queueTail && k < queueHead + budget :: queue[k]
      ensures Valid() && queue[..] == old(queue[..]) && queueTail == old(queueTail)
      ensures queueHead == old(queueHead) + (if old(queueCount) < budget then old(queueCount) else budget)
      ensures forall k | old(queueHead) <= k < queueHead :: queue[k].Executed()
    {
      var counter := 0;
      while true
        invariant Valid() && queue == old(queue) && queue[..] == old(queue[..]) && queueTail == old(queueTail)
        invariant counter < budget
        invariant queueHead == old(queueHead) + (if old(queueCount) < counter then old(queueCount) else counter)
        invariant forall k | old(queueHead) <= k < queueHead :: queue[k].Executed()
        decreases budget - counter
      {
        ghost var before := queueHead;
        assert queueCount > 0 ==> queue[queueHead] == old(queue[..])[before];
        Iteration();
        counter := counter + 1;
        if counter == budget {
          break;
        }
      }
    }
  }
}
