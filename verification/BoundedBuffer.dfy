/** Producers and consumers around a bounded buffer, with two semaphores and a mutex
    (src/thread_yt/prod_cons.c), for any number of threads, any capacity and any schedule. Each
    statement of the source is one step. */
module BoundedBuffer {
  import opened Lists
  import opened Sums

  /** Where a producer stands: the statement that it executes next. */
  datatype Producer = Produce | WaitEmpty(x: int) | Lock(x: int) | Write(x: int) | Increment(x: int) | Unlock | PostFull

  datatype Consumer = WaitFull | LockBuffer | Read | Decrement(y: int) | UnlockBuffer(y: int) | PostEmpty(y: int) | Consume(y: int)

  datatype Thread = P(i: nat) | C(i: nat)

  datatype Mutex = Free | Held(owner: Thread)

  /** A change of the buffer, recorded when `count` changes. */
  datatype Op = Push(x: int) | Pop(y: int)

  datatype State = State(
    buffer: seq<int>, count: int, semEmpty: nat, semFull: nat, mutex: Mutex,
    producers: seq<Producer>, consumers: seq<Consumer>, log: seq<Op>)

  ghost predicate IsThread(s: State, t: Thread) {
    match t
    case P(i) => i < |s.producers|
    case C(i) => i < |s.consumers|
  }

  /** A thread can step unless it waits for a semaphore at 0 or for the mutex. */
  ghost predicate Enabled(s: State, t: Thread) {
    && IsThread(s, t)
    && match t
       case P(i) => (s.producers[i].WaitEmpty? ==> s.semEmpty > 0) && (s.producers[i].Lock? ==> s.mutex.Free?)
       case C(i) => (s.consumers[i].WaitFull? ==> s.semFull > 0) && (s.consumers[i].LockBuffer? ==> s.mutex.Free?)
  }

  ghost function AtP(s: State, i: nat, pc: Producer): State
    requires i < |s.producers|
  {
    s.(producers := s.producers[i := pc])
  }

  ghost function AtC(s: State, i: nat, pc: Consumer): State
    requires i < |s.consumers|
  {
    s.(consumers := s.consumers[i := pc])
  }

  /** One step of a producer; `random` is the value that it makes up. */
  ghost function ProducerStep(s: State, i: nat, random: int): State
    requires Enabled(s, P(i))
  {
    match s.producers[i]
    case Produce => AtP(s, i, WaitEmpty(random))
    case WaitEmpty(x) => AtP(s, i, Lock(x)).(semEmpty := if s.semEmpty > 0 then s.semEmpty - 1 else 0)
    case Lock(x) => AtP(s, i, Write(x)).(mutex := Held(P(i)))
    case Write(x) => AtP(s, i, Increment(x)).(buffer := Put(s.buffer, s.count, x))
    case Increment(x) => AtP(s, i, Unlock).(count := s.count + 1, log := s.log + [Push(x)])
    case Unlock => AtP(s, i, PostFull).(mutex := Free)
    case PostFull => AtP(s, i, Produce).(semFull := s.semFull + 1)
  }

  ghost function ConsumerStep(s: State, i: nat): State
    requires Enabled(s, C(i))
  {
    match s.consumers[i]
    case WaitFull => AtC(s, i, LockBuffer).(semFull := if s.semFull > 0 then s.semFull - 1 else 0)
    case LockBuffer => AtC(s, i, Read).(mutex := Held(C(i)))
    case Read => AtC(s, i, Decrement(Get(s.buffer, s.count - 1, 0)))
    case Decrement(y) => AtC(s, i, UnlockBuffer(y)).(count := s.count - 1, log := s.log + [Pop(y)])
    case UnlockBuffer(y) => AtC(s, i, PostEmpty(y)).(mutex := Free)
    case PostEmpty(y) => AtC(s, i, Consume(y)).(semEmpty := s.semEmpty + 1)
    case Consume(_) => AtC(s, i, WaitFull)
  }

  ghost function Step(s: State, t: Thread, random: int): State
    requires Enabled(s, t)
  {
    match t
    case P(i) => ProducerStep(s, i, random)
    case C(i) => ConsumerStep(s, i)
  }

  ghost predicate Init(s: State, capacity: nat) {
    && |s.buffer| == capacity && s.count == 0 && s.semEmpty == capacity && s.semFull == 0 && s.mutex.Free?
    && (forall i | 0 <= i < |s.producers| :: s.producers[i] == Produce)
    && (forall i | 0 <= i < |s.consumers| :: s.consumers[i] == WaitFull)
    && s.log == []
  }

  // ---- The invariant --------------------------------------------------------------------------

  predicate ProducerLocked(p: Producer) { p.Write? || p.Increment? || p.Unlock? }
  predicate ConsumerLocked(c: Consumer) { c.Read? || c.Decrement? || c.UnlockBuffer? }

  /** A producer that has taken an empty slot and not yet filled it; one that has filled it and
      not yet announced it; the same for consumers. */
  function TakesEmpty(p: Producer): int { if p.Lock? || p.Write? || p.Increment? then 1 else 0 }
  function OwesFull(p: Producer): int { if p.Unlock? || p.PostFull? then 1 else 0 }
  function TakesFull(c: Consumer): int { if c.LockBuffer? || c.Read? || c.Decrement? then 1 else 0 }
  function OwesEmpty(c: Consumer): int { if c.UnlockBuffer? || c.PostEmpty? then 1 else 0 }

  /** `log` is a history of a stack that ends with the contents `stack`. */
  ghost predicate Replays(log: seq<Op>, stack: seq<int>)
    decreases |log|
  {
    if log == [] then stack == []
    else match log[|log| - 1]
      case Push(x) => stack != [] && stack[|stack| - 1] == x && Replays(log[..|log| - 1], stack[..|stack| - 1])
      case Pop(y) => Replays(log[..|log| - 1], stack + [y])
  }

  ghost predicate MutexInv(s: State) {
    && (s.mutex.Held? ==> IsThread(s, s.mutex.owner))
    && (forall i | 0 <= i < |s.producers| :: ProducerLocked(s.producers[i]) <==> s.mutex == Held(P(i)))
    && (forall i | 0 <= i < |s.consumers| :: ConsumerLocked(s.consumers[i]) <==> s.mutex == Held(C(i)))
  }

  /** Full slots are counted by `count`, by the semaphore, by owed posts and by taken tickets. */
  ghost predicate TicketInv(s: State) {
    && s.count == s.semFull + Sum(s.producers, OwesFull) + Sum(s.consumers, TakesFull)
    && |s.buffer| - s.count == s.semEmpty + Sum(s.producers, TakesEmpty) + Sum(s.consumers, OwesEmpty)
  }

  ghost predicate DataInv(s: State) {
    && 0 <= s.count <= |s.buffer|
    && Replays(s.log, s.buffer[..s.count])
    && (forall i | 0 <= i < |s.producers| && s.producers[i].Increment? ::
          s.count < |s.buffer| && s.buffer[s.count] == s.producers[i].x)
    && (forall i | 0 <= i < |s.consumers| && s.consumers[i].Decrement? ::
          s.count > 0 && s.buffer[s.count - 1] == s.consumers[i].y)
  }

  ghost predicate Inv(s: State) { MutexInv(s) && TicketInv(s) && DataInv(s) }

  lemma {:induction false} InitInv(s: State, capacity: nat)
    requires Init(s, capacity)
    ensures Inv(s)
  {
    SumBounds(s.producers, OwesFull, 0, 0);
    SumBounds(s.producers, TakesEmpty, 0, 0);
    SumBounds(s.consumers, TakesFull, 0, 0);
    SumBounds(s.consumers, OwesEmpty, 0, 0);
  }

  lemma {:induction false} ProducerMutex(s: State, i: nat, random: int)
    requires MutexInv(s) && Enabled(s, P(i))
    ensures MutexInv(ProducerStep(s, i, random))
  {
  }

  lemma {:induction false} ConsumerMutex(s: State, i: nat)
    requires MutexInv(s) && Enabled(s, C(i))
    ensures MutexInv(ConsumerStep(s, i))
  {
  }

  lemma {:induction false} ProducerTickets(s: State, i: nat, random: int)
    requires TicketInv(s) && Enabled(s, P(i))
    ensures TicketInv(ProducerStep(s, i, random))
  {
    var pc := ProducerStep(s, i, random).producers[i];
    SumUpdate(s.producers, i, pc, OwesFull);
    SumUpdate(s.producers, i, pc, TakesEmpty);
  }

  lemma {:induction false} ConsumerTickets(s: State, i: nat)
    requires TicketInv(s) && Enabled(s, C(i))
    ensures TicketInv(ConsumerStep(s, i))
  {
    var pc := ConsumerStep(s, i).consumers[i];
    SumUpdate(s.consumers, i, pc, TakesFull);
    SumUpdate(s.consumers, i, pc, OwesEmpty);
  }

  /** Every index that is used lies within the buffer. */
  lemma {:induction false} IndexInBounds(s: State, t: Thread)
    requires MutexInv(s) && TicketInv(s) && IsThread(s, t)
    ensures t.P? && TakesEmpty(s.producers[t.i]) == 1 ==> s.count < |s.buffer|
    ensures t.C? && TakesFull(s.consumers[t.i]) == 1 ==> s.count > 0
    ensures 0 <= s.count <= |s.buffer|
  {
    SumBounds(s.producers, OwesFull, 0, 1);
    SumBounds(s.producers, TakesEmpty, 0, 1);
    SumBounds(s.consumers, TakesFull, 0, 1);
    SumBounds(s.consumers, OwesEmpty, 0, 1);
    match t
    case P(i) => SumAtLeast(s.producers, i, TakesEmpty);
    case C(i) => SumAtLeast(s.consumers, i, TakesFull);
  }

  lemma {:induction false} ProducerData(s: State, i: nat, random: int)
    requires Inv(s) && Enabled(s, P(i))
    ensures DataInv(ProducerStep(s, i, random))
  {
    var s' := ProducerStep(s, i, random);
    IndexInBounds(s, P(i));
    if s.producers[i].Increment? {
      assert s'.log[..|s'.log| - 1] == s.log;
      assert s'.buffer[..s'.count][..s.count] == s.buffer[..s.count];
    } else {
      assert s'.buffer[..s.count] == s.buffer[..s.count];
    }
  }

  lemma {:induction false} ConsumerData(s: State, i: nat)
    requires Inv(s) && Enabled(s, C(i))
    ensures DataInv(ConsumerStep(s, i))
  {
    var s' := ConsumerStep(s, i);
    IndexInBounds(s, C(i));
    if s.consumers[i].Decrement? {
      assert s'.log[..|s'.log| - 1] == s.log;
      assert s'.buffer[..s'.count] + [s.consumers[i].y] == s.buffer[..s.count];
    }
  }

  ghost predicate SameSizes(s: State, s': State) {
    |s'.buffer| == |s.buffer| && |s'.producers| == |s.producers| && |s'.consumers| == |s.consumers|
  }

  /** Every step of every thread keeps the invariant. */
  lemma {:induction false} StepInv(s: State, t: Thread, random: int)
    requires Inv(s) && Enabled(s, t)
    ensures Inv(Step(s, t, random)) && SameSizes(s, Step(s, t, random))
  {
    match t
    case P(i) =>
      ProducerMutex(s, i, random);
      ProducerTickets(s, i, random);
      ProducerData(s, i, random);
    case C(i) =>
      ConsumerMutex(s, i);
      ConsumerTickets(s, i);
      ConsumerData(s, i);
  }

  // ---- Runs -----------------------------------------------------------------------------------

  ghost predicate StepsTo(s: State, s': State) {
    exists t, random :: Enabled(s, t) && s' == Step(s, t, random)
  }

  ghost predicate IsRun(run: seq<State>, capacity: nat) {
    && run != [] && Init(run[0], capacity)
    && forall k | 0 <= k < |run| - 1 :: StepsTo(run[k], run[k + 1])
  }

  ghost function Last(run: seq<State>): State
    requires run != []
  {
    run[|run| - 1]
  }

  lemma {:induction false} StepsToInv(s: State, s': State)
    requires Inv(s) && StepsTo(s, s')
    ensures Inv(s') && SameSizes(s, s') && Clock(s') == Clock(s) + 1
  {
    var t, random :| Enabled(s, t) && s' == Step(s, t, random);
    StepInv(s, t, random);
    match t
    case P(i) => ProducerTicks(s, i, random);
    case C(i) => ConsumerTicks(s, i);
  }

  lemma {:induction false} RunInv(run: seq<State>, capacity: nat)
    requires IsRun(run, capacity)
    ensures Inv(Last(run)) && SameSizes(run[0], Last(run))
    ensures Clock(Last(run)) == Clock(run[0]) + |run| - 1
    decreases |run|
  {
    if |run| == 1 {
      InitInv(run[0], capacity);
    } else {
      var init, k := run[..|run| - 1], |run| - 2;
      RunInv(init, capacity);
      assert StepsTo(run[k], run[k + 1]);
      StepsToInv(run[k], run[k + 1]);
    }
  }

  /** Tickets are conserved: free slots, full slots and the tickets that threads hold make up the
      capacity, in every state of every run. */
  lemma {:induction false} TicketsConserved(run: seq<State>, capacity: nat)
    requires IsRun(run, capacity)
    ensures var s := Last(run);
      s.semEmpty + s.semFull + Sum(s.producers, TakesEmpty) + Sum(s.producers, OwesFull)
      + Sum(s.consumers, TakesFull) + Sum(s.consumers, OwesEmpty) == capacity
  {
    RunInv(run, capacity);
  }

  /** No write index reaches the capacity and no read index is negative, in every state of every run. */
  lemma {:induction false} AccessesInBounds(run: seq<State>, capacity: nat, t: Thread)
    requires IsRun(run, capacity) && IsThread(Last(run), t)
    ensures t.P? && Last(run).producers[t.i].Write? ==> 0 <= Last(run).count < capacity
    ensures t.C? && Last(run).consumers[t.i].Read? ==> 0 <= Last(run).count - 1 < capacity
  {
    RunInv(run, capacity);
    IndexInBounds(Last(run), t);
  }

  /** With a slot, a producer and a consumer, some thread can step in every state of every run. */
  lemma {:induction false} NeverDeadlocks(run: seq<State>, capacity: nat)
    requires IsRun(run, capacity) && capacity >= 1
    requires |run[0].producers| >= 1 && |run[0].consumers| >= 1
    ensures exists t :: Enabled(Last(run), t)
  {
    RunInv(run, capacity);
    var s := Last(run);
    if s.mutex.Held? {
      assert Enabled(s, s.mutex.owner);
    } else if i :| 0 <= i < |s.producers| && !s.producers[i].WaitEmpty? {
      assert Enabled(s, P(i));
    } else if i :| 0 <= i < |s.consumers| && !s.consumers[i].WaitFull? {
      assert Enabled(s, C(i));
    } else {
      SumBounds(s.producers, OwesFull, 0, 0);
      SumBounds(s.producers, TakesEmpty, 0, 0);
      SumBounds(s.consumers, TakesFull, 0, 0);
      SumBounds(s.consumers, OwesEmpty, 0, 0);
      assert s.semEmpty + s.semFull == capacity;
      assert Enabled(s, P(0)) || Enabled(s, C(0));
    }
  }

  // ---- What the consumers get -----------------------------------------------------------------

  function Pushed(log: seq<Op>): seq<int> {
    if log == [] then [] else Pushed(log[..|log| - 1]) + (if log[|log| - 1].Push? then [log[|log| - 1].x] else [])
  }

  function Popped(log: seq<Op>): seq<int> {
    if log == [] then [] else Popped(log[..|log| - 1]) + (if log[|log| - 1].Pop? then [log[|log| - 1].y] else [])
  }

  lemma {:induction false} ReplayConserves(log: seq<Op>, stack: seq<int>)
    requires Replays(log, stack)
    ensures multiset(Pushed(log)) == multiset(Popped(log)) + multiset(stack)
    decreases |log|
  {
    if log != [] {
      var init := log[..|log| - 1];
      match log[|log| - 1]
      case Push(x) =>
        assert stack == stack[..|stack| - 1] + [x];
        ReplayConserves(init, stack[..|stack| - 1]);
      case Pop(y) =>
        ReplayConserves(init, stack + [y]);
    }
  }

  /** The buffer behaves as one stack: in every state of every run the completed additions and removals
      are a stack history that ends with the current contents, so every removal takes the newest
      item that is still there, and the items added are the items removed plus the contents. */
  lemma {:induction false} BufferIsStack(run: seq<State>, capacity: nat)
    requires IsRun(run, capacity)
    ensures var s := Last(run);
      && 0 <= s.count <= |s.buffer| == capacity
      && Replays(s.log, s.buffer[..s.count])
      && multiset(Pushed(s.log)) == multiset(Popped(s.log)) + multiset(s.buffer[..s.count])
  {
    RunInv(run, capacity);
    ReplayConserves(Last(run).log, Last(run).buffer[..Last(run).count]);
  }

  // ---- From the producers to the consumers ----------------------------------------------------

  /** A producer makes the value x in this step. */
  ghost predicate Makes(s: State, s': State, x: int) {
    exists i :: 0 <= i < |s.producers| && i < |s'.producers| && s.producers[i].Produce? && s'.producers[i] == WaitEmpty(x)
  }

  /** A consumer prints the value x in this step. */
  ghost predicate Prints(s: State, s': State, x: int) {
    exists i :: 0 <= i < |s.consumers| && i < |s'.consumers| && s.consumers[i] == Consume(x) && !s'.consumers[i].Consume?
  }

  /** How often a value was made in a run, and how often it was printed. */
  ghost function Made(run: seq<State>, x: int): nat {
    if |run| <= 1 then 0 else Made(run[..|run| - 1], x) + if Makes(run[|run| - 2], run[|run| - 1], x) then 1 else 0
  }

  ghost function Printed(run: seq<State>, x: int): nat {
    if |run| <= 1 then 0 else Printed(run[..|run| - 1], x) + if Prints(run[|run| - 2], run[|run| - 1], x) then 1 else 0
  }

  /** A producer has made x and not yet added it; a consumer has removed x and not yet printed it. */
  predicate ToAdd(p: Producer, x: int) { (p.WaitEmpty? || p.Lock? || p.Write? || p.Increment?) && p.x == x }
  predicate ToPrint(c: Consumer, x: int) { (c.UnlockBuffer? || c.PostEmpty? || c.Consume?) && c.y == x }

  ghost function Adding(s: State, x: int): int { Sum(s.producers, (p: Producer) => if ToAdd(p, x) then 1 else 0) }
  ghost function Printing(s: State, x: int): int { Sum(s.consumers, (c: Consumer) => if ToPrint(c, x) then 1 else 0) }

  ghost function Pushes(s: State, x: int): int { multiset(Pushed(s.log))[x] }
  ghost function Pops(s: State, x: int): int { multiset(Popped(s.log))[x] }

  lemma {:induction false} LogSnoc(log: seq<Op>, op: Op, x: int)
    ensures multiset(Pushed(log + [op]))[x] == multiset(Pushed(log))[x] + if op == Push(x) then 1 else 0
    ensures multiset(Popped(log + [op]))[x] == multiset(Popped(log))[x] + if op == Pop(x) then 1 else 0
  {
    assert (log + [op])[..|log|] == log;
  }

  lemma {:induction false} MakesIff(s: State, s': State, i: nat, x: int)
    requires i < |s.producers| && |s'.producers| == |s.producers| && s'.producers == s.producers[i := s'.producers[i]]
    ensures Makes(s, s', x) <==> s.producers[i].Produce? && s'.producers[i] == WaitEmpty(x)
    ensures Adding(s', x) == Adding(s, x) - (if ToAdd(s.producers[i], x) then 1 else 0) + (if ToAdd(s'.producers[i], x) then 1 else 0)
  {
    SumUpdate(s.producers, i, s'.producers[i], (p: Producer) => if ToAdd(p, x) then 1 else 0);
  }

  lemma {:induction false} PrintsIff(s: State, s': State, i: nat, x: int)
    requires i < |s.consumers| && |s'.consumers| == |s.consumers| && s'.consumers == s.consumers[i := s'.consumers[i]]
    ensures Prints(s, s', x) <==> s.consumers[i] == Consume(x) && !s'.consumers[i].Consume?
    ensures Printing(s', x) ==
      Printing(s, x) - (if ToPrint(s.consumers[i], x) then 1 else 0) + (if ToPrint(s'.consumers[i], x) then 1 else 0)
  {
    SumUpdate(s.consumers, i, s'.consumers[i], (c: Consumer) => if ToPrint(c, x) then 1 else 0);
  }

  lemma {:induction false} ProducerLog(s: State, i: nat, random: int)
    requires Enabled(s, P(i))
    ensures var p, s' := s.producers[i], ProducerStep(s, i, random);
      s'.consumers == s.consumers && s'.log == if p.Increment? then s.log + [Push(p.x)] else s.log
  {
  }

  lemma {:induction false} ConsumerLog(s: State, i: nat)
    requires Enabled(s, C(i))
    ensures var c, s' := s.consumers[i], ConsumerStep(s, i);
      s'.producers == s.producers && s'.log == if c.Decrement? then s.log + [Pop(c.y)] else s.log
  {
  }

  /** A producer holds the value that it made until it adds it. */
  lemma {:induction false} ProducerHolds(s: State, i: nat, random: int, x: int)
    requires Enabled(s, P(i))
    ensures var p, p' := s.producers[i], ProducerStep(s, i, random).producers[i];
      (if ToAdd(p', x) then 1 else 0) + (if p == Increment(x) then 1 else 0)
        == (if ToAdd(p, x) then 1 else 0) + (if p.Produce? && p' == WaitEmpty(x) then 1 else 0)
  {
  }

  /** A consumer holds the value that it removed until it prints it. */
  lemma {:induction false} ConsumerHolds(s: State, i: nat, x: int)
    requires Enabled(s, C(i))
    ensures var c, c' := s.consumers[i], ConsumerStep(s, i).consumers[i];
      (if ToPrint(c', x) then 1 else 0) + (if c == Consume(x) && !c'.Consume? then 1 else 0)
        == (if ToPrint(c, x) then 1 else 0) + (if c == Decrement(x) then 1 else 0)
  {
  }

  lemma {:induction false} ProducerFlow(s: State, i: nat, random: int, x: int)
    requires Enabled(s, P(i))
    ensures var s' := ProducerStep(s, i, random);
      && Pushes(s', x) + Adding(s', x) == Pushes(s, x) + Adding(s, x) + (if Makes(s, s', x) then 1 else 0)
      && Pops(s', x) == Pops(s, x) && Printing(s', x) == Printing(s, x) && !Prints(s, s', x)
  {
    ProducerLog(s, i, random);
    if s.producers[i].Increment? {
      LogSnoc(s.log, Push(s.producers[i].x), x);
    }
    ProducerHolds(s, i, random, x);
    MakesIff(s, ProducerStep(s, i, random), i, x);
  }

  lemma {:induction false} ConsumerFlow(s: State, i: nat, x: int)
    requires Enabled(s, C(i))
    ensures var s' := ConsumerStep(s, i);
      && Pops(s', x) + Printing(s, x) == Pops(s, x) + Printing(s', x) + (if Prints(s, s', x) then 1 else 0)
      && Pushes(s', x) == Pushes(s, x) && Adding(s', x) == Adding(s, x) && !Makes(s, s', x)
  {
    ConsumerLog(s, i);
    if s.consumers[i].Decrement? {
      LogSnoc(s.log, Pop(s.consumers[i].y), x);
    }
    ConsumerHolds(s, i, x);
    PrintsIff(s, ConsumerStep(s, i), i, x);
  }

  lemma {:induction false} InitFlow(s: State, capacity: nat, x: int)
    requires Init(s, capacity)
    ensures Adding(s, x) == 0 && Printing(s, x) == 0 && Pushes(s, x) == 0 && Pops(s, x) == 0
  {
    SumBounds(s.producers, (p: Producer) => if ToAdd(p, x) then 1 else 0, 0, 0);
    SumBounds(s.consumers, (c: Consumer) => if ToPrint(c, x) then 1 else 0, 0, 0);
  }

  lemma {:induction false} RunFlow(run: seq<State>, capacity: nat, x: int)
    requires IsRun(run, capacity)
    ensures Made(run, x) == Pushes(Last(run), x) + Adding(Last(run), x)
    ensures Pops(Last(run), x) == Printing(Last(run), x) + Printed(run, x)
    decreases |run|
  {
    if |run| == 1 {
      InitFlow(run[0], capacity, x);
    } else {
      var init, k := run[..|run| - 1], |run| - 2;
      RunFlow(init, capacity, x);
      assert StepsTo(run[k], run[k + 1]);
      var t, random :| Enabled(run[k], t) && run[k + 1] == Step(run[k], t, random);
      if t.P? {
        ProducerFlow(run[k], t.i, random, x);
      } else {
        ConsumerFlow(run[k], t.i, x);
      }
    }
  }

  /** Every value that a producer makes arrives: in every state of every run it has been printed by a consumer,
      or is in one consumer's hands, in the buffer, or in the hands of the producer that made it, each
      as often as it was made. */
  lemma {:induction false} EveryItemArrives(run: seq<State>, capacity: nat, x: int)
    requires IsRun(run, capacity)
    ensures var s := Last(run);
      && 0 <= s.count <= |s.buffer|
      && Made(run, x) == Adding(s, x) + multiset(s.buffer[..s.count])[x] + Printing(s, x) + Printed(run, x)
  {
    BufferIsStack(run, capacity);
    RunFlow(run, capacity, x);
  }

  // ---- Progress -------------------------------------------------------------------------------

  /** How many statements a thread has executed since it last changed the buffer. */
  function ProducerRank(p: Producer): int {
    match p
    case Unlock => 0
    case PostFull => 1
    case Produce => 2
    case WaitEmpty(_) => 3
    case Lock(_) => 4
    case Write(_) => 5
    case Increment(_) => 6
  }

  function ConsumerRank(c: Consumer): int {
    match c
    case UnlockBuffer(_) => 0
    case PostEmpty(_) => 1
    case Consume(_) => 2
    case WaitFull => 3
    case LockBuffer => 4
    case Read => 5
    case Decrement(_) => 6
  }

  ghost function Clock(s: State): int {
    7 * |s.log| + Sum(s.producers, ProducerRank) + Sum(s.consumers, ConsumerRank)
  }

  lemma {:induction false} ProducerTicks(s: State, i: nat, random: int)
    requires Enabled(s, P(i))
    ensures Clock(ProducerStep(s, i, random)) == Clock(s) + 1
  {
    SumUpdate(s.producers, i, ProducerStep(s, i, random).producers[i], ProducerRank);
  }

  lemma {:induction false} ConsumerTicks(s: State, i: nat)
    requires Enabled(s, C(i))
    ensures Clock(ConsumerStep(s, i)) == Clock(s) + 1
  {
    SumUpdate(s.consumers, i, ConsumerStep(s, i).consumers[i], ConsumerRank);
  }

  lemma {:induction false} RankBounds(s: State)
    ensures 7 * |s.log| <= Clock(s) <= 7 * |s.log| + 6 * (|s.producers| + |s.consumers|)
  {
    SumBounds(s.producers, ProducerRank, 0, 6);
    SumBounds(s.consumers, ConsumerRank, 0, 6);
  }

  /** Every run moves items: n steps complete at least (n - 6 * threads) / 7 additions and removals. */
  lemma {:induction false} RunMovesItems(run: seq<State>, capacity: nat)
    requires IsRun(run, capacity)
    ensures 7 * |Last(run).log| >= |run| - 1 - 6 * (|run[0].producers| + |run[0].consumers|)
  {
    RunInv(run, capacity);
    RankBounds(run[0]);
    RankBounds(Last(run));
  }
}
