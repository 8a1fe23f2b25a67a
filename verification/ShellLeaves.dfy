/** How often the stages of a command are reached: once each, exactly when no left operand of a pipe
    ever returns from run_cmd. */
module ShellLeaves {
  import opened Descriptors
  import opened ShellGrammar
  import opened ShellRun

  // ---- Two free descriptors are enough --------------------------------------------------------

  /** pipe succeeds exactly when two numbers below the limit are free. */
  lemma {:induction false} PipeIsMadeIff(t: Fds, pid: Pid, pipe: nat, limit: nat)
    ensures MakePipe(t, pid, pipe, limit).Made? <==> exists a, b :: 0 <= a < b < limit && a !in t && b !in t
  {
    var c := MakePipe(t, pid, pipe, limit);
    var first := FirstFree(t, 0, limit);
    if c.Made? {
      assert first < limit && 0 <= first < c.wr < limit && first !in t && c.wr !in t;
    }
    if a, b :| 0 <= a < b < limit && a !in t && b !in t {
      FirstFreeBelow(t, limit, a);
      FirstFreeBelow(t[first := ReadEnd(pid, pipe)], limit, b);
    }
  }

  /** A set of numbers that leaves two below the limit free, and holds 0 and 1. */
  ghost predicate Roomy(held: set<int>, limit: nat) {
    && 0 in held && 1 in held
    && exists a, b :: 0 <= a < b < limit && a !in held && b !in held
  }

  /** The descriptors open at a resume point: those of `held`, and after the first fork of a
      pipe also its two ends. */
  ghost predicate Within(p: Process, held: set<int>) {
    if p.stack == [] then true
    else match p.stack[0]
      case Start(_) => p.fds.Keys <= held
      case AfterLeft(_, rd, wr) => p.fds.Keys <= held + {rd, wr}
      case AfterRight(rd, wr) => p.fds.Keys <= held + {rd, wr}
  }

  lemma {:induction false} FirstFreeBelow(t: Fds, limit: nat, a: int)
    requires 0 <= a < limit && a !in t
    ensures FirstFree(t, 0, limit) <= a
  {
  }

  lemma {:induction false} PipeIsMade(t: Fds, held: set<int>, pid: Pid, pipe: nat, limit: nat)
    requires Roomy(held, limit) && t.Keys <= held
    ensures var c := MakePipe(t, pid, pipe, limit);
      && c.Made? && c.rd != c.wr && c.rd !in t && c.wr !in t && c.rd >= 0 && c.wr >= 0
      && c.fds == t[c.rd := ReadEnd(pid, pipe)][c.wr := WriteEnd(pid, pipe)]
  {
    var a, b :| 0 <= a < b < limit && a !in held && b !in held;
    FirstFreeBelow(t, limit, a);
    var r := Install(t, ReadEnd(pid, pipe), limit);
    assert b !in r.table;
    FirstFreeBelow(r.table, limit, b);
  }

  lemma {:induction false} AdvanceWithin(env: Env, p: Process, held: set<int>)
    requires p.stack != [] && Roomy(held, env.limit) && Within(p, held)
    ensures forall q | q in Advance(env, p).next :: Within(q, held)
  {
    match p.stack[0]
    case Start(Pipe(left, right)) =>
      PipeIsMade(p.fds, held, p.pid, p.pipes, env.limit);
    case Start(Redirect(_, file, input)) =>
      var closed := Close(p.fds, if input then 0 else 1).table;
      FirstFreeBelow(closed, env.limit, if input then 0 else 1);
    case _ =>
  }

  // ---- Counting -------------------------------------------------------------------------------

  /** The leaves reached by a command when each copy of what comes after it reaches n. */
  function CommandLeaves(env: Env, c: Command, n: nat): nat
    decreases c, 0
  {
    match c
    case Exec(argv) => 1 + if Fails(env, argv) then n else 0
    case Redirect(cmd, _, _) => CommandLeaves(env, cmd, n)
    case Pipe(left, right) =>
      CommandLeaves(env, left, RightLeaves(env, right, n)) + RightLeaves(env, right, n)
  }

  function RightLeaves(env: Env, right: Command, n: nat): nat
    decreases right, 1
  {
    CommandLeaves(env, right, n) + n
  }

  function FrameLeaves(env: Env, f: Frame, n: nat): nat {
    match f
    case Start(cmd) => CommandLeaves(env, cmd, n)
    case AfterLeft(right, _, _) => RightLeaves(env, right, n)
    case AfterRight(_, _) => n
  }

  function StackLeaves(env: Env, stack: seq<Frame>): nat {
    if stack == [] then 0 else FrameLeaves(env, stack[0], StackLeaves(env, stack[1..]))
  }

  lemma {:induction false} StackLeavesCons(env: Env, f: Frame, rest: seq<Frame>)
    ensures StackLeaves(env, [f] + rest) == FrameLeaves(env, f, StackLeaves(env, rest))
  {
    assert ([f] + rest)[1..] == rest;
  }

  function TotalLeaves(env: Env, ps: seq<Process>): nat {
    if ps == [] then 0 else StackLeaves(env, ps[0].stack) + TotalLeaves(env, ps[1..])
  }

  lemma {:induction false} TotalLeavesOfFew(env: Env, ps: seq<Process>)
    ensures |ps| == 0 ==> TotalLeaves(env, ps) == 0
    ensures |ps| == 1 ==> TotalLeaves(env, ps) == StackLeaves(env, ps[0].stack)
    ensures |ps| == 2 ==> TotalLeaves(env, ps) == StackLeaves(env, ps[0].stack) + StackLeaves(env, ps[1].stack)
  {
    if |ps| == 1 {
      assert ps[1..] == [];
    } else if |ps| == 2 {
      assert ps[1..] == [ps[1]];
      TotalLeavesOfFew(env, ps[1..]);
    }
  }

  lemma {:induction false} AdvanceCounts(env: Env, p: Process, held: set<int>)
    requires p.stack != [] && Roomy(held, env.limit) && Within(p, held)
    ensures var e := Advance(env, p);
      StackLeaves(env, p.stack) == |e.reached| + TotalLeaves(env, e.next)
  {
    var rest := p.stack[1..];
    var next := Advance(env, p).next;
    TotalLeavesOfFew(env, next);
    match p.stack[0]
    case Start(Exec(argv)) =>
    case Start(Redirect(cmd, _, _)) =>
      StackLeavesCons(env, Start(cmd), rest);
    case Start(Pipe(left, right)) =>
      PipeIsMade(p.fds, held, p.pid, p.pipes, env.limit);
      var after := next[0].stack;
      StackLeavesCons(env, after[0], rest);
      StackLeavesCons(env, Start(left), after);
    case AfterLeft(right, rd, wr) =>
      StackLeavesCons(env, AfterRight(rd, wr), rest);
      StackLeavesCons(env, Start(right), [AfterRight(rd, wr)] + rest);
    case AfterRight(_, _) =>
  }

  lemma {:induction false} FutureCounts(env: Env, p: Process, held: set<int>)
    requires Roomy(held, env.limit) && Within(p, held)
    ensures |Future(env, p)| == StackLeaves(env, p.stack)
    decreases StackSteps(p.stack), 0
  {
    if p.stack != [] {
      AdvanceDecreases(env, p);
      AdvanceWithin(env, p, held);
      AdvanceCounts(env, p, held);
      FutureOfAllCounts(env, Advance(env, p).next, held);
    }
  }

  lemma {:induction false} FutureOfAllCounts(env: Env, ps: seq<Process>, held: set<int>)
    requires Roomy(held, env.limit) && forall p | p in ps :: Within(p, held)
    ensures |FutureOfAll(env, ps)| == TotalLeaves(env, ps)
    decreases TotalSteps(ps), 1 + |ps|
  {
    if ps != [] {
      FutureCounts(env, ps[0], held);
      FutureOfAllCounts(env, ps[1..], held);
    }
  }

  // ---- The closed form ------------------------------------------------------------------------

  /** How many processes come back from run_cmd. */
  function Returns(env: Env, c: Command): nat {
    match c
    case Exec(argv) => if Fails(env, argv) then 1 else 0
    case Redirect(cmd, _, _) => Returns(env, cmd)
    case Pipe(left, right) => (Returns(env, left) + 1) * (Returns(env, right) + 1)
  }

  /** How many exec nodes are reached, counted with repetition. */
  function Leaves(env: Env, c: Command): nat {
    match c
    case Exec(_) => 1
    case Redirect(cmd, _, _) => Leaves(env, cmd)
    case Pipe(left, right) => Leaves(env, left) + (Returns(env, left) + 1) * Leaves(env, right)
  }

  /** Every process that comes back runs what is left of its callers: the count is affine. */
  lemma {:induction false} LeavesAreAffine(env: Env, c: Command, n: nat)
    ensures CommandLeaves(env, c, n) == Leaves(env, c) + Returns(env, c) * n
  {
    match c
    case Exec(_) =>
    case Redirect(cmd, _, _) =>
      LeavesAreAffine(env, cmd, n);
    case Pipe(left, right) =>
      var m := RightLeaves(env, right, n);
      LeavesAreAffine(env, right, n);
      LeavesAreAffine(env, left, m);
      Compose(Leaves(env, left), Returns(env, left), Leaves(env, right), Returns(env, right), n, m);
  }

  lemma Compose(lc: int, lr: int, rc: int, rr: int, n: int, m: int)
    requires m == rc + rr * n + n
    ensures lc + lr * m + m == lc + (lr + 1) * rc + (lr + 1) * (rr + 1) * n
  {
    assert m == rc + (rr + 1) * n by { Distribute(n, rr, 1); }
    assert lr * m + m == (lr + 1) * m;
    Distribute(lr + 1, rc, (rr + 1) * n);
    Associate(lr + 1, rr + 1, n);
  }

  lemma Distribute(a: int, b: int, c: int)
    ensures a * (b + c) == a * b + a * c
  {
  }

  lemma Associate(a: int, b: int, c: int)
    ensures a * (b * c) == a * b * c
  {
  }

  function ExecNodes(c: Command): (n: nat)
    ensures n >= 1
  {
    match c
    case Exec(_) => 1
    case Redirect(cmd, _, _) => ExecNodes(cmd)
    case Pipe(left, right) => ExecNodes(left) + ExecNodes(right)
  }

  /** The command is a stage whose program starts, or that has no words. */
  predicate Stays(env: Env, c: Command) {
    match c
    case Exec(argv) => !Fails(env, argv)
    case Redirect(cmd, _, _) => Stays(env, cmd)
    case Pipe(_, _) => false
  }

  /** Every left operand of a pipe stays away. */
  predicate LeftOperandsStay(env: Env, c: Command) {
    match c
    case Exec(_) => true
    case Redirect(cmd, _, _) => LeftOperandsStay(env, cmd)
    case Pipe(left, right) => Stays(env, left) && LeftOperandsStay(env, left) && LeftOperandsStay(env, right)
  }

  lemma {:induction false} StaysIffNeverReturns(env: Env, c: Command)
    ensures Stays(env, c) <==> Returns(env, c) == 0
  {
    match c
    case Exec(_) =>
    case Redirect(cmd, _, _) => StaysIffNeverReturns(env, cmd);
    case Pipe(left, right) =>
      assert (Returns(env, left) + 1) * (Returns(env, right) + 1) >= 1;
  }

  lemma {:induction false} OnceEachIff(env: Env, c: Command)
    ensures Leaves(env, c) >= ExecNodes(c)
    ensures Leaves(env, c) == ExecNodes(c) <==> LeftOperandsStay(env, c)
  {
    match c
    case Exec(_) =>
    case Redirect(cmd, _, _) => OnceEachIff(env, cmd);
    case Pipe(left, right) =>
      OnceEachIff(env, left);
      OnceEachIff(env, right);
      StaysIffNeverReturns(env, left);
      Scale(Returns(env, left), Leaves(env, right));
  }

  lemma Scale(k: nat, n: nat)
    requires n >= 1
    ensures (k + 1) * n >= n && ((k + 1) * n == n <==> k == 0)
  {
    assert (k + 1) * n == k * n + n;
    assert k > 0 ==> k * n >= n;
  }

  /** Every finished run, in any interleaving, reaches as many leaves as the closed form says:
      one for each exec node exactly when every left operand of a pipe is a stage whose program
      starts, and more otherwise. */
  lemma {:induction false} LeafCount(env: Env, c: Command, t: Fds, ws: seq<World>)
    requires Roomy(t.Keys, env.limit)
    requires ws != [] && IsRun(env, ws) && ws[0] == World([Initial(c, t)], multiset{}) && Finished(ws[|ws| - 1])
    ensures |ws[|ws| - 1].reached| == Leaves(env, c)
    ensures |ws[|ws| - 1].reached| >= ExecNodes(c)
    ensures |ws[|ws| - 1].reached| == ExecNodes(c) <==> LeftOperandsStay(env, c)
  {
    RunReaches(env, c, t, ws);
    var p := Initial(c, t);
    FutureCounts(env, p, t.Keys);
    assert p.stack[1..] == [];
    LeavesAreAffine(env, c, 0);
    OnceEachIff(env, c);
  }

  /** In a tree that the parser yields, the left operands are stages: the count is right exactly
      when every stage but the last one has a program that starts, or no words. */
  predicate AllButLastStay(env: Env, c: Command) {
    c.Pipe? ==> Stays(env, c.left) && AllButLastStay(env, c.right)
  }

  /** A stage without words, under whatever redirections, never comes back. */
  lemma {:induction false} NoWordsStays(env: Env, rs: seq<Redirection>)
    ensures Stays(env, Wrap(Exec([]), rs))
  {
    if rs != [] {
      NoWordsStays(env, rs[..|rs| - 1]);
    }
  }

  lemma {:induction false} StagesHoldNoPipe(env: Env, c: Command)
    requires IsStage(c)
    ensures LeftOperandsStay(env, c)
  {
    if c.Redirect? {
      StagesHoldNoPipe(env, c.cmd);
    }
  }

  lemma {:induction false} ParsedTreesStay(env: Env, c: Command)
    requires WellFormed(c)
    ensures LeftOperandsStay(env, c) <==> AllButLastStay(env, c)
  {
    if c.Pipe? {
      StagesHoldNoPipe(env, c.left);
      ParsedTreesStay(env, c.right);
    } else {
      StagesHoldNoPipe(env, c);
    }
  }
}
