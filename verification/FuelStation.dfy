/** Fillers and cars around a fuel tank, with a mutex and a condition variable
    (src/thread_yt/thread_cv.c), for any number of fillers, fills and cars, any schedule, and with
    wakeups that nobody sent. Each statement of the source is one step. */
module FuelStation {
  import opened Sums

  const FILL: int := 60
  const NEED: int := 40

  /** A filler, with the fills that it has still to make. */
  datatype Filler = LockTank(left: nat) | Add(left: nat) | UnlockTank(left: nat) | Broadcast(left: nat) | Done

  datatype Car = Lock | Test | Asleep | Relock | Take | Unlock | Gone

  datatype Thread = F(i: nat) | C(i: nat)

  datatype Mutex = Free | Held(owner: Thread)

  datatype State = State(fuel: int, mutex: Mutex, fillers: seq<Filler>, cars: seq<Car>, fills: nat, served: nat)

  /** The loop head of a filler. */
  function LoopHead(left: nat): Filler { if left == 0 then Done else LockTank(left) }

  ghost predicate IsThread(s: State, t: Thread) {
    match t
    case F(i) => i < |s.fillers|
    case C(i) => i < |s.cars|
  }

  /** A thread can step by itself unless it has ended, sleeps, or waits for the mutex. */
  ghost predicate Enabled(s: State, t: Thread) {
    && IsThread(s, t)
    && match t
       case F(i) => !s.fillers[i].Done? && (s.fillers[i].LockTank? ==> s.mutex.Free?)
       case C(i) => !s.cars[i].Gone? && !s.cars[i].Asleep? && (s.cars[i].Lock? || s.cars[i].Relock? ==> s.mutex.Free?)
  }

  /** pthread_cond_broadcast: every sleeper goes on to take the mutex again. */
  ghost function WakeAll(cars: seq<Car>): (woken: seq<Car>)
    ensures |woken| == |cars|
    ensures forall i | 0 <= i < |cars| :: woken[i] == if cars[i].Asleep? then Relock else cars[i]
  {
    seq(|cars|, i requires 0 <= i < |cars| => if cars[i].Asleep? then Relock else cars[i])
  }

  ghost function AtF(s: State, i: nat, pc: Filler): State
    requires i < |s.fillers|
  {
    s.(fillers := s.fillers[i := pc])
  }

  ghost function AtC(s: State, i: nat, pc: Car): State
    requires i < |s.cars|
  {
    s.(cars := s.cars[i := pc])
  }

  ghost function FillerStep(s: State, i: nat): State
    requires Enabled(s, F(i))
  {
    match s.fillers[i]
    case LockTank(left) => AtF(s, i, Add(left)).(mutex := Held(F(i)))
    case Add(left) => AtF(s, i, UnlockTank(left)).(fuel := s.fuel + FILL, fills := s.fills + 1)
    case UnlockTank(left) => AtF(s, i, Broadcast(left)).(mutex := Free)
    case Broadcast(left) => AtF(s, i, LoopHead(if left > 0 then left - 1 else 0)).(cars := WakeAll(s.cars))
    case Done => s
  }

  /** Testing and falling asleep is one step, since pthread_cond_wait releases the mutex and
      starts to wait atomically. */
  ghost function CarStep(s: State, i: nat): State
    requires Enabled(s, C(i))
  {
    match s.cars[i]
    case Lock => AtC(s, i, Test).(mutex := Held(C(i)))
    case Test => if s.fuel < NEED then AtC(s, i, Asleep).(mutex := Free) else AtC(s, i, Take)
    case Relock => AtC(s, i, Test).(mutex := Held(C(i)))
    case Take => AtC(s, i, Unlock).(fuel := s.fuel - NEED, served := s.served + 1)
    case Unlock => AtC(s, i, Gone).(mutex := Free)
    case Asleep => s
    case Gone => s
  }

  ghost function Step(s: State, t: Thread): State
    requires Enabled(s, t)
  {
    match t
    case F(i) => FillerStep(s, i)
    case C(i) => CarStep(s, i)
  }

  /** A wakeup that nobody sent. */
  ghost predicate SpuriousWakeup(s: State, s': State) {
    exists i: nat :: i < |s.cars| && s.cars[i].Asleep? && s' == AtC(s, i, Relock)
  }

  ghost predicate ThreadStep(s: State, s': State) { exists t :: Enabled(s, t) && s' == Step(s, t) }

  ghost predicate Init(s: State) {
    && s.fuel == 0 && s.mutex.Free? && s.fills == 0 && s.served == 0
    && (forall i | 0 <= i < |s.fillers| :: s.fillers[i].Done? || (s.fillers[i].LockTank? && s.fillers[i].left > 0))
    && (forall i | 0 <= i < |s.cars| :: s.cars[i] == Lock)
  }

  // ---- The invariant --------------------------------------------------------------------------

  predicate FillerLocked(f: Filler) { f.Add? || f.UnlockTank? }
  predicate CarLocked(c: Car) { c.Test? || c.Take? || c.Unlock? }

  /** Fills that a filler has still to make. */
  function Remaining(f: Filler): int {
    match f
    case LockTank(left) => left
    case Add(left) => left
    case UnlockTank(left) => left - 1
    case Broadcast(left) => left - 1
    case Done => 0
  }

  /** A car that has not had its fuel yet. */
  function Unserved(c: Car): int { if c.Unlock? || c.Gone? then 0 else 1 }

  ghost predicate MutexInv(s: State) {
    && (s.mutex.Held? ==> IsThread(s, s.mutex.owner))
    && (forall i | 0 <= i < |s.fillers| :: FillerLocked(s.fillers[i]) <==> s.mutex == Held(F(i)))
    && (forall i | 0 <= i < |s.cars| :: CarLocked(s.cars[i]) <==> s.mutex == Held(C(i)))
    && (forall i | 0 <= i < |s.fillers| :: !s.fillers[i].Done? ==> s.fillers[i].left > 0)
  }

  /** A broadcast is still to come. */
  ghost predicate WakeupPending(s: State) {
    exists i :: 0 <= i < |s.fillers| && (s.fillers[i].UnlockTank? || s.fillers[i].Broadcast?)
  }

  ghost predicate SomeAsleep(s: State) { exists i :: 0 <= i < |s.cars| && s.cars[i].Asleep? }

  ghost predicate FuelInv(s: State) {
    && s.fuel == FILL * s.fills - NEED * s.served && s.fuel >= 0
    && (forall i | 0 <= i < |s.cars| && s.cars[i].Take? :: s.fuel >= NEED)
    && (SomeAsleep(s) && s.fuel >= NEED ==> WakeupPending(s))
  }

  ghost predicate Inv(s: State) { MutexInv(s) && FuelInv(s) }

  /** The fills and the cars of a run, which no step changes. */
  ghost function TotalFills(s: State): int { s.fills + Sum(s.fillers, Remaining) }
  ghost predicate CarsCounted(s: State) { s.served + Sum(s.cars, Unserved) == |s.cars| }

  lemma {:induction false} InitInv(s: State)
    requires Init(s)
    ensures Inv(s) && CarsCounted(s)
  {
    SumBounds(s.cars, Unserved, 1, 1);
  }

  lemma {:induction false} FillerInv(s: State, i: nat)
    requires Inv(s) && Enabled(s, F(i))
    ensures Inv(FillerStep(s, i))
  {
    var s' := FillerStep(s, i);
    if s.fillers[i].Add? || s.fillers[i].UnlockTank? {
      assert s'.fillers[i].UnlockTank? || s'.fillers[i].Broadcast?;
      assert WakeupPending(s');
    } else if s.fillers[i].LockTank? {
      if SomeAsleep(s') && s'.fuel >= NEED {
        assert SomeAsleep(s);
        var k :| 0 <= k < |s.fillers| && (s.fillers[k].UnlockTank? || s.fillers[k].Broadcast?);
        assert s'.fillers[k] == s.fillers[k];
      }
    } else {
      assert !SomeAsleep(s');
    }
  }

  lemma {:induction false} CarInv(s: State, i: nat)
    requires Inv(s) && Enabled(s, C(i))
    ensures Inv(CarStep(s, i))
  {
    var s' := CarStep(s, i);
    assert WakeupPending(s') <==> WakeupPending(s);
    if SomeAsleep(s') && s'.fuel >= NEED {
      var k :| 0 <= k < |s'.cars| && s'.cars[k].Asleep?;
      assert k != i && s.cars[k].Asleep?;
    }
  }

  lemma {:induction false} SpuriousInv(s: State, s': State)
    requires Inv(s) && SpuriousWakeup(s, s')
    ensures Inv(s')
  {
    assert WakeupPending(s') <==> WakeupPending(s);
    if SomeAsleep(s') {
      var k :| 0 <= k < |s'.cars| && s'.cars[k].Asleep?;
      assert s.cars[k].Asleep?;
    }
  }

  lemma {:induction false} WakeAllSum(cars: seq<Car>, f: Car -> int, change: nat)
    requires 0 <= f(Relock) - f(Asleep) <= change
    ensures Sum(cars, f) <= Sum(WakeAll(cars), f) <= Sum(cars, f) + change * |cars|
    ensures f(Relock) == f(Asleep) ==> Sum(WakeAll(cars), f) == Sum(cars, f)
  {
    if cars != [] {
      assert WakeAll(cars)[1..] == WakeAll(cars[1..]);
      WakeAllSum(cars[1..], f, change);
      assert change * |cars| == change + change * (|cars| - 1);
    }
  }

  lemma {:induction false} ThreadStepCounts(s: State, t: Thread)
    requires Inv(s) && Enabled(s, t)
    ensures TotalFills(Step(s, t)) == TotalFills(s)
    ensures CarsCounted(s) ==> CarsCounted(Step(s, t))
  {
    match t
    case F(i) =>
      SumUpdate(s.fillers, i, FillerStep(s, i).fillers[i], Remaining);
      WakeAllSum(s.cars, Unserved, 0);
    case C(i) =>
      SumUpdate(s.cars, i, CarStep(s, i).cars[i], Unserved);
  }

  // ---- Runs -----------------------------------------------------------------------------------

  ghost predicate StepsTo(s: State, s': State) { ThreadStep(s, s') || SpuriousWakeup(s, s') }

  ghost predicate IsRun(run: seq<State>) {
    && run != [] && Init(run[0])
    && forall k | 0 <= k < |run| - 1 :: StepsTo(run[k], run[k + 1])
  }

  ghost function Last(run: seq<State>): State
    requires run != []
  {
    run[|run| - 1]
  }

  ghost predicate Good(s: State, fills: int, cars: nat) {
    Inv(s) && CarsCounted(s) && TotalFills(s) == fills && |s.cars| == cars
  }

  lemma {:induction false} ThreadStepGood(s: State, t: Thread, fills: int, cars: nat)
    requires Good(s, fills, cars) && Enabled(s, t)
    ensures Good(Step(s, t), fills, cars)
  {
    ThreadStepCounts(s, t);
    match t
    case F(i) => FillerInv(s, i);
    case C(i) => CarInv(s, i);
  }

  lemma {:induction false} StepGood(s: State, s': State, fills: int, cars: nat)
    requires Good(s, fills, cars) && StepsTo(s, s')
    ensures Good(s', fills, cars)
  {
    if ThreadStep(s, s') {
      var t :| Enabled(s, t) && s' == Step(s, t);
      ThreadStepGood(s, t, fills, cars);
    } else {
      SpuriousInv(s, s');
      var i: nat :| i < |s.cars| && s.cars[i].Asleep? && s' == AtC(s, i, Relock);
      SumUpdate(s.cars, i, Relock, Unserved);
    }
  }

  lemma {:induction false} RunGood(run: seq<State>)
    requires IsRun(run)
    ensures Good(Last(run), TotalFills(run[0]), |run[0].cars|)
    decreases |run|
  {
    if |run| == 1 {
      InitInv(run[0]);
    } else {
      RunGood(run[..|run| - 1]);
      StepGood(run[|run| - 2], run[|run| - 1], TotalFills(run[0]), |run[0].cars|);
    }
  }

  /** In every state of every run: fuel is what was filled less what was taken, it is never
      negative, and a car that sleeps while there is enough for it has a broadcast to come. */
  lemma {:induction false} FuelIsAccounted(run: seq<State>)
    requires IsRun(run)
    ensures var s := Last(run);
      && s.fuel == 60 * s.fills - 40 * s.served >= 0
      && (SomeAsleep(s) && s.fuel >= 40 ==> WakeupPending(s))
  {
    RunGood(run);
  }

  /** No thread can step; at most a wakeup that nobody sends could still happen. */
  ghost predicate Ended(s: State) { forall t :: !Enabled(s, t) }

  lemma {:induction false} EndedThreads(s: State)
    requires MutexInv(s) && Ended(s)
    ensures forall i | 0 <= i < |s.fillers| :: s.fillers[i].Done?
    ensures forall i | 0 <= i < |s.cars| :: s.cars[i].Asleep? || s.cars[i].Gone?
  {
    if s.mutex.Held? {
      assert Enabled(s, s.mutex.owner);
    }
    forall i | 0 <= i < |s.fillers| ensures s.fillers[i].Done? { assert !Enabled(s, F(i)); }
    forall i | 0 <= i < |s.cars| ensures s.cars[i].Asleep? || s.cars[i].Gone? { assert !Enabled(s, C(i)); }
  }

  /** A run that has ended has served exactly as many cars as there is fuel for: all of them if
      40 * cars <= 60 * fills, and otherwise 60 * fills / 40, so that some car is left asleep exactly
      when the fuel does not suffice. */
  lemma {:induction false} EveryCarGetsFuel(run: seq<State>)
    requires IsRun(run) && Ended(Last(run))
    ensures var s, fills, cars := Last(run), TotalFills(run[0]), |run[0].cars|;
      && s.served == (if 40 * cars <= 60 * fills then cars else 60 * fills / 40)
      && (SomeAsleep(s) <==> 40 * cars > 60 * fills)
  {
    RunGood(run);
    var s := Last(run);
    EndedThreads(s);
    SumBounds(s.fillers, Remaining, 0, 0);
    assert s.fills == TotalFills(run[0]);
    if SomeAsleep(s) {
      assert !WakeupPending(s) && s.fuel < NEED;
      var k :| 0 <= k < |s.cars| && s.cars[k].Asleep?;
      SumAtLeast(s.cars, k, Unserved);
      assert s.served <= |s.cars| - 1;
    } else {
      forall i | 0 <= i < |s.cars| ensures Unserved(s.cars[i]) == 0 { assert s.cars[i].Gone?; }
      SumBounds(s.cars, Unserved, 0, 0);
      assert s.served == |s.cars|;
    }
  }

  // ---- Termination ----------------------------------------------------------------------------

  /** Steps that a car takes before it sleeps or leaves. */
  function CarRank(c: Car): int {
    match c
    case Lock => 4
    case Relock => 4
    case Test => 3
    case Take => 2
    case Unlock => 1
    case Asleep => 0
    case Gone => 0
  }

  /** Steps of a filler, where each broadcast pays for the steps of the cars that it wakes. */
  function FillerRank(f: Filler, round: int): int {
    match f
    case LockTank(left) => left * round
    case Add(left) => left * round - 1
    case UnlockTank(left) => left * round - 2
    case Broadcast(left) => left * round - 3
    case Done => 0
  }

  ghost function Work(s: State): int {
    Sum(s.fillers, (f: Filler) => FillerRank(f, 4 + 4 * |s.cars|)) + Sum(s.cars, CarRank)
  }

  lemma {:induction false} RoundOfFiller(left: nat, round: int)
    requires left > 0
    ensures FillerRank(LoopHead(left - 1), round) == left * round - round
  {
  }

  lemma {:induction false} ThreadStepWorks(s: State, t: Thread)
    requires MutexInv(s) && Enabled(s, t)
    ensures Work(Step(s, t)) < Work(s)
  {
    var round := 4 + 4 * |s.cars|;
    var rank := (f: Filler) => FillerRank(f, round);
    match t
    case F(i) =>
      var s' := FillerStep(s, i);
      SumUpdate(s.fillers, i, s'.fillers[i], rank);
      if s.fillers[i].Broadcast? {
        RoundOfFiller(s.fillers[i].left, round);
        WakeAllSum(s.cars, CarRank, 4);
      }
    case C(i) =>
      SumUpdate(s.cars, i, CarStep(s, i).cars[i], CarRank);
  }

  lemma {:induction false} RankNotNegative(f: Filler, round: int)
    requires round >= 4 && (!f.Done? ==> f.left > 0)
    ensures FillerRank(f, round) >= 0
  {
    if !f.Done? {
      assert f.left * round >= round;
    }
  }

  lemma {:induction false} WorkNotNegative(s: State)
    requires MutexInv(s)
    ensures Work(s) >= 0
  {
    var round := 4 + 4 * |s.cars|;
    forall i | 0 <= i < |s.fillers| ensures FillerRank(s.fillers[i], round) >= 0 {
      RankNotNegative(s.fillers[i], round);
    }
    SumNonNegative(s.fillers, (f: Filler) => FillerRank(f, round));
    SumNonNegative(s.cars, CarRank);
  }

  /** The steps of threads in a run, as against the wakeups that nobody sent. */
  ghost function ThreadSteps(run: seq<State>): nat {
    if |run| <= 1 then 0
    else ThreadSteps(run[..|run| - 1]) + if ThreadStep(run[|run| - 2], run[|run| - 1]) then 1 else 0
  }

  /** Every run is finite but for wakeups that nobody sent: with w of those, the threads take at
      most Work + 4 * w steps. */
  lemma {:induction false} RunsAreBounded(run: seq<State>)
    requires IsRun(run)
    ensures ThreadSteps(run) + Work(Last(run)) <= Work(run[0]) + 4 * (|run| - 1 - ThreadSteps(run))
    ensures ThreadSteps(run) <= Work(run[0]) + 4 * (|run| - 1 - ThreadSteps(run))
    decreases |run|
  {
    RunGood(run);
    WorkNotNegative(Last(run));
    if |run| > 1 {
      var init := run[..|run| - 1];
      RunGood(init);
      RunsAreBounded(init);
      StepWorks(run[|run| - 2], run[|run| - 1]);
    }
  }

  lemma {:induction false} StepWorks(s: State, s': State)
    requires MutexInv(s) && StepsTo(s, s')
    ensures if ThreadStep(s, s') then Work(s') < Work(s) else Work(s') <= Work(s) + 4
  {
    if t :| Enabled(s, t) && s' == Step(s, t) {
      ThreadStepWorks(s, t);
    } else {
      var i: nat :| i < |s.cars| && s.cars[i].Asleep? && s' == AtC(s, i, Relock);
      SumUpdate(s.cars, i, Relock, CarRank);
    }
  }
}
