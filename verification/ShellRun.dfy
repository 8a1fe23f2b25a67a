/** run_cmd as a machine of processes. A process is a descriptor table and a stack of what it has
    still to do; fork copies both, so a child whose run_cmd returns falls through into the statements
    after the fork, and from there into the callers of the function. Any process may step next. */
module ShellRun {
  import opened Descriptors
  import opened ShellGrammar

  /** A process is named by the forks that led to it. */
  type Pid = seq<nat>

  datatype Description =
    | Inherited(origin: int)
    | ReadEnd(maker: Pid, pipe: nat)
    | WriteEnd(maker: Pid, pipe: nat)
    | File(file: string, input: bool)

  type Fds = Table<Description>

  /** The system around the shell: the descriptor limit, which programs execv can start, and which
      files open can open. */
  datatype Env = Env(limit: nat, execWorks: seq<string> -> bool, openWorks: (string, bool) -> bool)

  /** Points at which a process resumes run_cmd: at its start, after the fork of the left
      operand (line 91 of shell.c), after the fork of the right one (line 100). */
  datatype Frame = Start(cmd: Command) | AfterLeft(right: Command, rd: int, wr: int) | AfterRight(rd: int, wr: int)

  datatype Process = Process(pid: Pid, forks: nat, pipes: nat, fds: Fds, stack: seq<Frame>)

  /** An exec node reached, with the table that the program gets. */
  datatype Leaf = Leaf(argv: seq<string>, fds: Fds)

  /** execv of these words comes back; without words the process exits before. */
  predicate Fails(env: Env, argv: seq<string>) { argv != [] && !env.execWorks(argv) }

  // ---- The descriptor work of each branch -----------------------------------------------------

  datatype PipeCall = NoPipe | Made(rd: int, wr: int, fds: Fds)

  function MakePipe(t: Fds, pid: Pid, pipe: nat, limit: nat): PipeCall {
    var r := Install(t, ReadEnd(pid, pipe), limit);
    var w := Install(r.table, WriteEnd(pid, pipe), limit);
    if r.result < 0 || w.result < 0 then NoPipe else Made(r.result, w.result, w.table)
  }

  /** Moves `from` to `to` and closes it, unless it is there already. */
  function Move(t: Fds, from: int, to: int, limit: nat): Fds {
    if from != to then Close(Dup2(t, from, to, limit).table, from).table else t
  }

  function LeftFds(t: Fds, rd: int, wr: int, limit: nat): Fds { Close(Move(t, wr, 1, limit), rd).table }

  function RightFds(t: Fds, rd: int, wr: int, limit: nat): Fds { Close(Move(t, rd, 0, limit), wr).table }

  function ParentFds(t: Fds, rd: int, wr: int): Fds { Close(Close(t, rd).table, wr).table }

  function RedirectFds(env: Env, t: Fds, file: string, input: bool): Fds {
    var closed := Close(t, if input then 0 else 1).table;
    if env.openWorks(file, input) then Install(closed, File(file, input), env.limit).table else closed
  }

  // ---- One step -------------------------------------------------------------------------------

  datatype Effect = Effect(next: seq<Process>, reached: multiset<Leaf>)

  /** One step of one process: the processes that take its place, and the leaf that it reaches. */
  function Advance(env: Env, p: Process): Effect
    requires p.stack != []
  {
    var rest := p.stack[1..];
    match p.stack[0]
    case Start(Exec(argv)) =>
      Effect(if Fails(env, argv) then [p.(stack := rest)] else [], multiset{Leaf(argv, p.fds)})
    case Start(Redirect(cmd, file, input)) =>
      Effect([p.(fds := RedirectFds(env, p.fds, file, input), stack := [Start(cmd)] + rest)], multiset{})
    case Start(Pipe(left, right)) => (
      match MakePipe(p.fds, p.pid, p.pipes, env.limit)
      case NoPipe => Effect([], multiset{})
      case Made(rd, wr, fds) =>
        var after := [AfterLeft(right, rd, wr)] + rest;
        Effect([p.(fds := fds, forks := p.forks + 1, pipes := p.pipes + 1, stack := after),
                Process(p.pid + [p.forks], 0, 0, LeftFds(fds, rd, wr, env.limit), [Start(left)] + after)],
               multiset{})
      )
    case AfterLeft(right, rd, wr) =>
      var after := [AfterRight(rd, wr)] + rest;
      Effect([p.(forks := p.forks + 1, stack := after),
              Process(p.pid + [p.forks], 0, 0, RightFds(p.fds, rd, wr, env.limit), [Start(right)] + after)],
             multiset{})
    case AfterRight(rd, wr) =>
      Effect([p.(fds := ParentFds(p.fds, rd, wr), stack := rest)], multiset{})
  }

  /** A program is reached once at an exec node, and the process comes back from run_cmd exactly when there are
      words and execv of them fails. */
  lemma ExecComesBack(env: Env, p: Process, argv: seq<string>)
    requires p.stack != [] && p.stack[0] == Start(Exec(argv))
    ensures Advance(env, p).reached == multiset{Leaf(argv, p.fds)}
    ensures Advance(env, p).next == [] <==> argv == [] || env.execWorks(argv)
    ensures argv != [] && !env.execWorks(argv) ==> Advance(env, p).next == [p.(stack := p.stack[1..])]
  {
  }

  // ---- Termination ----------------------------------------------------------------------------

  /** A bound on the steps of a process and its children: `n` stands for the steps of one copy of
      what comes after the command. */
  function CommandSteps(c: Command, n: nat): (r: nat)
    ensures r >= 1
    decreases c, 0
  {
    match c
    case Exec(_) => 1 + n
    case Redirect(cmd, _, _) => 1 + CommandSteps(cmd, n)
    case Pipe(left, right) =>
      var second := RightSteps(right, n);
      1 + CommandSteps(left, second) + second
  }

  function RightSteps(right: Command, n: nat): nat
    decreases right, 1
  {
    1 + CommandSteps(right, 1 + n) + (1 + n)
  }

  function FrameSteps(f: Frame, n: nat): nat {
    match f
    case Start(cmd) => CommandSteps(cmd, n)
    case AfterLeft(right, _, _) => RightSteps(right, n)
    case AfterRight(_, _) => 1 + n
  }

  function StackSteps(stack: seq<Frame>): nat {
    if stack == [] then 0 else FrameSteps(stack[0], StackSteps(stack[1..]))
  }

  function TotalSteps(ps: seq<Process>): nat {
    if ps == [] then 0 else StackSteps(ps[0].stack) + TotalSteps(ps[1..])
  }

  lemma {:induction false} StackStepsCons(f: Frame, rest: seq<Frame>)
    ensures StackSteps([f] + rest) == FrameSteps(f, StackSteps(rest))
  {
    assert ([f] + rest)[1..] == rest;
  }

  lemma {:induction false} TotalOfFew(ps: seq<Process>)
    ensures |ps| == 1 ==> TotalSteps(ps) == StackSteps(ps[0].stack)
    ensures |ps| == 2 ==> TotalSteps(ps) == StackSteps(ps[0].stack) + StackSteps(ps[1].stack)
  {
    if |ps| == 1 {
      assert ps[1..] == [];
    } else if |ps| == 2 {
      assert ps[1..] == [ps[1]];
      TotalOfFew(ps[1..]);
    }
  }

  /** Every step uses up at least one of the steps in the bound. */
  lemma {:induction false} AdvanceDecreases(env: Env, p: Process)
    requires p.stack != []
    ensures TotalSteps(Advance(env, p).next) < StackSteps(p.stack)
  {
    var rest := p.stack[1..];
    var next := Advance(env, p).next;
    TotalOfFew(next);
    match p.stack[0]
    case Start(Exec(_)) =>
    case Start(Redirect(cmd, _, _)) =>
      StackStepsCons(Start(cmd), rest);
    case Start(Pipe(left, right)) =>
      if next != [] {
        var after := next[0].stack;
        StackStepsCons(after[0], rest);
        StackStepsCons(Start(left), after);
      }
    case AfterLeft(right, rd, wr) =>
      StackStepsCons(AfterRight(rd, wr), rest);
      StackStepsCons(Start(right), [AfterRight(rd, wr)] + rest);
    case AfterRight(_, _) =>
  }

  // ---- Runs -----------------------------------------------------------------------------------

  datatype World = World(procs: seq<Process>, reached: multiset<Leaf>)

  ghost predicate CanStep(w: World, i: int) { 0 <= i < |w.procs| && w.procs[i].stack != [] }

  ghost function WorldStep(env: Env, w: World, i: int): World
    requires CanStep(w, i)
  {
    var e := Advance(env, w.procs[i]);
    World(w.procs[..i] + e.next + w.procs[i + 1..], w.reached + e.reached)
  }

  /** Any process that can step may be the next to do so. */
  ghost predicate StepsTo(env: Env, w: World, w': World) {
    exists i :: CanStep(w, i) && w' == WorldStep(env, w, i)
  }

  ghost predicate IsRun(env: Env, ws: seq<World>) {
    forall k | 0 <= k < |ws| - 1 :: StepsTo(env, ws[k], ws[k + 1])
  }

  ghost predicate Finished(w: World) { forall i | 0 <= i < |w.procs| :: w.procs[i].stack == [] }

  /** The leaves that a process and its children will still reach. */
  ghost function Future(env: Env, p: Process): multiset<Leaf>
    decreases StackSteps(p.stack), 0
  {
    if p.stack == [] then multiset{}
    else
      AdvanceDecreases(env, p);
      Advance(env, p).reached + FutureOfAll(env, Advance(env, p).next)
  }

  ghost function FutureOfAll(env: Env, ps: seq<Process>): multiset<Leaf>
    decreases TotalSteps(ps), 1 + |ps|
  {
    if ps == [] then multiset{} else Future(env, ps[0]) + FutureOfAll(env, ps[1..])
  }

  lemma {:induction false} FutureOfOne(env: Env, ps: seq<Process>)
    requires |ps| == 1
    ensures FutureOfAll(env, ps) == Future(env, ps[0])
  {
    assert ps[1..] == [];
  }

  lemma {:induction false} FutureOfTwo(env: Env, ps: seq<Process>)
    requires |ps| == 2
    ensures FutureOfAll(env, ps) == Future(env, ps[0]) + Future(env, ps[1])
  {
    assert ps[1..] == [ps[1]];
    FutureOfOne(env, ps[1..]);
  }

  lemma {:induction false} SumsOfConcat(env: Env, a: seq<Process>, b: seq<Process>)
    ensures FutureOfAll(env, a + b) == FutureOfAll(env, a) + FutureOfAll(env, b)
    ensures TotalSteps(a + b) == TotalSteps(a) + TotalSteps(b)
  {
    if a == [] {
      assert a + b == b;
    } else {
      assert (a + b)[1..] == a[1..] + b;
      SumsOfConcat(env, a[1..], b);
    }
  }

  lemma {:induction false} SumsOfSplit(env: Env, a: seq<Process>, mid: seq<Process>, b: seq<Process>)
    ensures FutureOfAll(env, a + mid + b) == FutureOfAll(env, a) + FutureOfAll(env, mid) + FutureOfAll(env, b)
    ensures TotalSteps(a + mid + b) == TotalSteps(a) + TotalSteps(mid) + TotalSteps(b)
  {
    SumsOfConcat(env, a + mid, b);
    SumsOfConcat(env, a, mid);
  }

  /** The leaves reached and still to be reached are the same before and after any step. */
  lemma {:induction false} StepConserves(env: Env, w: World, i: int)
    requires CanStep(w, i)
    ensures var w' := WorldStep(env, w, i);
      && w'.reached + FutureOfAll(env, w'.procs) == w.reached + FutureOfAll(env, w.procs)
      && TotalSteps(w'.procs) < TotalSteps(w.procs)
  {
    var p := w.procs[i];
    var e := Advance(env, p);
    assert w.procs == w.procs[..i] + [p] + w.procs[i + 1..];
    SumsOfSplit(env, w.procs[..i], [p], w.procs[i + 1..]);
    SumsOfSplit(env, w.procs[..i], e.next, w.procs[i + 1..]);
    AdvanceDecreases(env, p);
    assert [p][1..] == [];
    assert FutureOfAll(env, [p]) == Future(env, p) && TotalSteps([p]) == StackSteps(p.stack);
  }

  /** Along every run the leaves are conserved, and the run is no longer than the bound. */
  lemma {:induction false} RunConserves(env: Env, ws: seq<World>)
    requires ws != [] && IsRun(env, ws)
    ensures var first, last := ws[0], ws[|ws| - 1];
      && last.reached + FutureOfAll(env, last.procs) == first.reached + FutureOfAll(env, first.procs)
      && |ws| - 1 + TotalSteps(last.procs) <= TotalSteps(first.procs)
    decreases |ws|
  {
    if |ws| > 1 {
      var init, k := ws[..|ws| - 1], |ws| - 2;
      RunConserves(env, init);
      assert StepsTo(env, ws[k], ws[k + 1]);
      var i :| CanStep(ws[k], i) && ws[k + 1] == WorldStep(env, ws[k], i);
      StepConserves(env, ws[k], i);
    }
  }

  lemma {:induction false} NothingLeft(env: Env, ps: seq<Process>)
    requires forall i | 0 <= i < |ps| :: ps[i].stack == []
    ensures FutureOfAll(env, ps) == multiset{}
  {
    if ps != [] {
      NothingLeft(env, ps[1..]);
    }
  }

  ghost function Initial(c: Command, t: Fds): Process { Process([], 0, 0, t, [Start(c)]) }

  /** The leaves that a finished run has reached do not depend on the interleaving. */
  lemma {:induction false} RunReaches(env: Env, c: Command, t: Fds, ws: seq<World>)
    requires ws != [] && IsRun(env, ws) && ws[0] == World([Initial(c, t)], multiset{})
    ensures Finished(ws[|ws| - 1]) ==> ws[|ws| - 1].reached == Future(env, Initial(c, t))
    ensures |ws| - 1 <= CommandSteps(c, 0)
  {
    RunConserves(env, ws);
    var p := Initial(c, t);
    assert [p][1..] == [];
    assert FutureOfAll(env, [p]) == Future(env, p) && TotalSteps([p]) == StackSteps(p.stack);
    assert p.stack[1..] == [];
    if Finished(ws[|ws| - 1]) {
      var last := ws[|ws| - 1];
      NothingLeft(env, last.procs);
      assert last.reached + multiset{} == last.reached;
    }
  }
}
