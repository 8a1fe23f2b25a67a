/** What run_cmd does to one process, by recursion over the tree and without the stack: the programs
    that are reached, and the copies of the process that come back. It covers programs that do not
    start, after which the children of a pipe run the rest of their parent's code. */
module ShellCopies {
  import opened Descriptors
  import opened ShellTokens
  import opened ShellGrammar
  import opened ShellRun
  import opened ShellLeaves
  import opened ShellWiring

  /** A process without what it has still to do. */
  datatype Copy = Copy(pid: Pid, forks: nat, pipes: nat, fds: Fds)

  datatype Trace = Trace(leaves: seq<Leaf>, back: seq<Copy>)

  function Both(a: Trace, b: Trace): Trace { Trace(a.leaves + b.leaves, a.back + b.back) }

  /** What run_cmd(c) leads to in the process p. */
  function Runs(env: Env, c: Command, p: Copy): Trace
    decreases c, 3
  {
    match c
    case Exec(argv) => Trace([Leaf(argv, p.fds)], if Fails(env, argv) then [p] else [])
    case Redirect(cmd, file, input) => Runs(env, cmd, p.(fds := RedirectFds(env, p.fds, file, input)))
    case Pipe(left, right) => RunsPipe(env, left, right, p)
  }

  function RunsPipe(env: Env, left: Command, right: Command, p: Copy): Trace
    decreases Pipe(left, right), 2
  {
    match MakePipe(p.fds, p.pid, p.pipes, env.limit)
    case NoPipe => Trace([], [])
    case Made(rd, wr, fds) => FirstHalf(env, left, right, rd, wr, PipeMaker(p, fds), LeftChild(env, p, rd, wr, fds))
  }

  function PipeMaker(p: Copy, fds: Fds): Copy { p.(fds := fds, forks := p.forks + 1, pipes := p.pipes + 1) }

  function LeftChild(env: Env, p: Copy, rd: int, wr: int, fds: Fds): Copy {
    Copy(p.pid + [p.forks], 0, 0, LeftFds(fds, rd, wr, env.limit))
  }

  /** The left child first, and then the second half in the parent and in whatever comes back. */
  function FirstHalf(env: Env, left: Command, right: Command, rd: int, wr: int, parent: Copy, child: Copy): Trace
    decreases Pipe(left, right), 1
  {
    var ran := Runs(env, left, child);
    var second := AllSecond(env, right, rd, wr, [parent] + ran.back);
    Trace(ran.leaves + second.leaves, second.back)
  }

  /** The second half of a pipe in every process that gets there. */
  function AllSecond(env: Env, right: Command, rd: int, wr: int, ps: seq<Copy>): Trace
    decreases right, 5, |ps|
  {
    if ps == [] then Trace([], [])
    else
      var first := SecondHalf(env, right, rd, wr, Forked(ps[0]), RightChild(env, ps[0], rd, wr));
      Both(first, AllSecond(env, right, rd, wr, ps[1..]))
  }

  function Forked(p: Copy): Copy { p.(forks := p.forks + 1) }

  function RightChild(env: Env, p: Copy, rd: int, wr: int): Copy {
    Copy(p.pid + [p.forks], 0, 0, RightFds(p.fds, rd, wr, env.limit))
  }

  /** The right child first, and then the closing in the parent and in whatever comes back. */
  function SecondHalf(env: Env, right: Command, rd: int, wr: int, parent: Copy, child: Copy): Trace
    decreases right, 4
  {
    var ran := Runs(env, right, child);
    Trace(ran.leaves, AllClosed([parent] + ran.back, rd, wr))
  }

  /** Closes both ends of the pipe in every process. */
  function AllClosed(ps: seq<Copy>, rd: int, wr: int): seq<Copy> {
    if ps == [] then [] else [ps[0].(fds := ParentFds(ps[0].fds, rd, wr))] + AllClosed(ps[1..], rd, wr)
  }

  // ---- The recursion is the machine -----------------------------------------------------------

  /** The process p with `stack` to do. */
  function With(p: Copy, stack: seq<Frame>): Process { Process(p.pid, p.forks, p.pipes, p.fds, stack) }

  /** The programs that the copies reach when each has `stack` to do. */
  ghost function Later(env: Env, ps: seq<Copy>, stack: seq<Frame>): multiset<Leaf> {
    if ps == [] then multiset{} else Future(env, With(ps[0], stack)) + Later(env, ps[1..], stack)
  }

  lemma {:induction false} LaterConcat(env: Env, a: seq<Copy>, b: seq<Copy>, stack: seq<Frame>)
    ensures Later(env, a + b, stack) == Later(env, a, stack) + Later(env, b, stack)
  {
    if a == [] {
      assert a + b == b;
    } else {
      assert (a + b)[1..] == a[1..] + b;
      LaterConcat(env, a[1..], b, stack);
    }
  }

  lemma {:induction false} LaterCons(env: Env, p: Copy, ps: seq<Copy>, stack: seq<Frame>)
    ensures Later(env, [p] + ps, stack) == Future(env, With(p, stack)) + Later(env, ps, stack)
  {
    assert ([p] + ps)[1..] == ps;
  }

  lemma Exchange(parent: multiset<Leaf>, child: multiset<Leaf>, leaves: seq<Leaf>, back: multiset<Leaf>,
                 more: seq<Leaf>, rest: multiset<Leaf>)
    requires child == multiset(leaves) + back && parent + back == multiset(more) + rest
    ensures parent + child == multiset(leaves + more) + rest
  {
    assert parent + (multiset(leaves) + back) == multiset(leaves) + (parent + back);
  }

  /** Closing the ends of the pipe is what AfterRight does. */
  lemma {:induction false} ClosedIsFuture(env: Env, ps: seq<Copy>, rd: int, wr: int, k: seq<Frame>)
    ensures Later(env, ps, [AfterRight(rd, wr)] + k) == Later(env, AllClosed(ps, rd, wr), k)
  {
    if ps != [] {
      ClosedIsFuture(env, ps[1..], rd, wr, k);
      var p := With(ps[0], [AfterRight(rd, wr)] + k);
      var closed := ps[0].(fds := ParentFds(ps[0].fds, rd, wr));
      FutureOfOne(env, Advance(env, p).next);
      assert Advance(env, p).next == [With(closed, k)];
      LaterCons(env, closed, AllClosed(ps[1..], rd, wr), k);
    }
  }

  /** Run to its end, a process with run_cmd(c) and then k to do reaches the programs of the
      recursion, and then those of k once for each copy that comes back. */
  lemma {:induction false} RunsIsFuture(env: Env, c: Command, p: Copy, k: seq<Frame>)
    ensures Future(env, With(p, [Start(c)] + k))
         == multiset(Runs(env, c, p).leaves) + Later(env, Runs(env, c, p).back, k)
    decreases c, 3
  {
    if c.Exec? {
      ExecIsFuture(env, c.argv, p, k);
    } else if c.Redirect? {
      RedirectStep(env, c, p, k);
      RunsIsFuture(env, c.cmd, p.(fds := RedirectFds(env, p.fds, c.file, c.input)), k);
    } else {
      PipeIsFuture(env, c.left, c.right, p, k);
    }
  }

  lemma {:induction false} ExecIsFuture(env: Env, argv: seq<string>, p: Copy, k: seq<Frame>)
    ensures Future(env, With(p, [Start(Exec(argv))] + k))
         == multiset(Runs(env, Exec(argv), p).leaves) + Later(env, Runs(env, Exec(argv), p).back, k)
  {
    var self := With(p, [Start(Exec(argv))] + k);
    assert self.stack[1..] == k;
    if Fails(env, argv) {
      assert Advance(env, self).next == [With(p, k)];
      FutureOfOne(env, [With(p, k)]);
      LaterCons(env, p, [], k);
      assert [p] + [] == [p];
    }
  }

  lemma {:induction false} RedirectStep(env: Env, c: Command, p: Copy, k: seq<Frame>)
    requires c.Redirect?
    ensures Future(env, With(p, [Start(c)] + k))
         == Future(env, With(p.(fds := RedirectFds(env, p.fds, c.file, c.input)), [Start(c.cmd)] + k))
  {
    var self := With(p, [Start(c)] + k);
    assert self.stack[1..] == k;
    FutureOfOne(env, Advance(env, self).next);
  }

  /** The first step of a pipe leaves the parent and the left child. */
  lemma {:induction false} PipeStep(env: Env, left: Command, right: Command, p: Copy, k: seq<Frame>, rd: int, wr: int, fds: Fds)
    requires MakePipe(p.fds, p.pid, p.pipes, env.limit) == Made(rd, wr, fds)
    ensures var after := [AfterLeft(right, rd, wr)] + k;
      Future(env, With(p, [Start(Pipe(left, right))] + k))
        == Future(env, With(PipeMaker(p, fds), after)) + Future(env, With(LeftChild(env, p, rd, wr, fds), [Start(left)] + after))
  {
    var self := With(p, [Start(Pipe(left, right))] + k);
    assert self.stack[1..] == k;
    FutureOfTwo(env, Advance(env, self).next);
  }

  lemma {:induction false} PipeIsFuture(env: Env, left: Command, right: Command, p: Copy, k: seq<Frame>)
    ensures Future(env, With(p, [Start(Pipe(left, right))] + k))
         == multiset(RunsPipe(env, left, right, p).leaves) + Later(env, RunsPipe(env, left, right, p).back, k)
    decreases Pipe(left, right), 2
  {
    var self := With(p, [Start(Pipe(left, right))] + k);
    match MakePipe(p.fds, p.pid, p.pipes, env.limit)
    case NoPipe =>
      assert Advance(env, self) == Effect([], multiset{});
    case Made(rd, wr, fds) =>
      PipeStep(env, left, right, p, k, rd, wr, fds);
      FirstHalfIsFuture(env, left, right, rd, wr, PipeMaker(p, fds), LeftChild(env, p, rd, wr, fds), k);
  }

  lemma {:induction false} FirstHalfIsFuture(env: Env, left: Command, right: Command, rd: int, wr: int, parent: Copy, child: Copy, k: seq<Frame>)
    ensures var after, half := [AfterLeft(right, rd, wr)] + k, FirstHalf(env, left, right, rd, wr, parent, child);
      Future(env, With(parent, after)) + Future(env, With(child, [Start(left)] + after))
        == multiset(half.leaves) + Later(env, half.back, k)
    decreases Pipe(left, right), 1
  {
    var after := [AfterLeft(right, rd, wr)] + k;
    var ran := Runs(env, left, child);
    var second := AllSecond(env, right, rd, wr, [parent] + ran.back);
    RunsIsFuture(env, left, child, after);
    SecondsAreFuture(env, right, rd, wr, [parent] + ran.back, k);
    LaterCons(env, parent, ran.back, after);
    Exchange(Future(env, With(parent, after)), Future(env, With(child, [Start(left)] + after)),
             ran.leaves, Later(env, ran.back, after), second.leaves, Later(env, second.back, k));
  }

  lemma {:induction false} SecondStep(env: Env, right: Command, rd: int, wr: int, p: Copy, k: seq<Frame>)
    ensures var after := [AfterRight(rd, wr)] + k;
      Future(env, With(p, [AfterLeft(right, rd, wr)] + k))
        == Future(env, With(Forked(p), after)) + Future(env, With(RightChild(env, p, rd, wr), [Start(right)] + after))
  {
    var self := With(p, [AfterLeft(right, rd, wr)] + k);
    assert self.stack[1..] == k;
    FutureOfTwo(env, Advance(env, self).next);
  }

  lemma {:induction false} SecondHalfIsFuture(env: Env, right: Command, rd: int, wr: int, parent: Copy, child: Copy, k: seq<Frame>)
    ensures var after, half := [AfterRight(rd, wr)] + k, SecondHalf(env, right, rd, wr, parent, child);
      Future(env, With(parent, after)) + Future(env, With(child, [Start(right)] + after))
        == multiset(half.leaves) + Later(env, half.back, k)
    decreases right, 4
  {
    var after := [AfterRight(rd, wr)] + k;
    var ran := Runs(env, right, child);
    RunsIsFuture(env, right, child, after);
    LaterCons(env, parent, ran.back, after);
    ClosedIsFuture(env, [parent] + ran.back, rd, wr, k);
    Exchange(Future(env, With(parent, after)), Future(env, With(child, [Start(right)] + after)),
             ran.leaves, Later(env, ran.back, after), [], Later(env, AllClosed([parent] + ran.back, rd, wr), k));
    assert ran.leaves + [] == ran.leaves;
  }

  lemma {:induction false} SecondsAreFuture(env: Env, right: Command, rd: int, wr: int, ps: seq<Copy>, k: seq<Frame>)
    ensures var all := AllSecond(env, right, rd, wr, ps);
      Later(env, ps, [AfterLeft(right, rd, wr)] + k) == multiset(all.leaves) + Later(env, all.back, k)
    decreases right, 5, |ps|
  {
    if ps != [] {
      var parent, child := Forked(ps[0]), RightChild(env, ps[0], rd, wr);
      var one, rest := SecondHalf(env, right, rd, wr, parent, child), AllSecond(env, right, rd, wr, ps[1..]);
      SecondStep(env, right, rd, wr, ps[0], k);
      SecondHalfIsFuture(env, right, rd, wr, parent, child, k);
      SecondsAreFuture(env, right, rd, wr, ps[1..], k);
      LaterConcat(env, one.back, rest.back, k);
    }
  }

  // ---- Every line, whatever starts ------------------------------------------------------------

  /** For every tree, every table and whatever programs start or fail, in any interleaving: a finished
      run has reached exactly the programs of the recursion, each with its table. */
  lemma {:induction false} RunsReach(env: Env, c: Command, t: Fds, ws: seq<World>)
    requires ws != [] && IsRun(env, ws) && Finished(ws[|ws| - 1])
    requires ws[0] == World([Initial(c, t)], multiset{})
    ensures ws[|ws| - 1].reached == multiset(Runs(env, c, Copy([], 0, 0, t)).leaves)
  {
    var p := Copy([], 0, 0, t);
    RunReaches(env, c, t, ws);
    assert Initial(c, t) == With(p, [Start(c)] + []);
    RunsIsFuture(env, c, p, []);
    NothingLater(env, Runs(env, c, p).back);
    assert multiset(Runs(env, c, p).leaves) + multiset{} == multiset(Runs(env, c, p).leaves);
  }

  lemma {:induction false} NothingLater(env: Env, ps: seq<Copy>)
    ensures Later(env, ps, []) == multiset{}
  {
    if ps != [] {
      NothingLater(env, ps[1..]);
    }
  }

  /** A pipe for which two numbers are not free reaches no program: the process exits. */
  lemma {:induction false} NoPipeNoPrograms(env: Env, left: Command, right: Command, t: Fds, ws: seq<World>)
    requires !exists a, b :: 0 <= a < b < env.limit && a !in t && b !in t
    requires ws != [] && IsRun(env, ws) && Finished(ws[|ws| - 1])
    requires ws[0] == World([Initial(Pipe(left, right), t)], multiset{})
    ensures ws[|ws| - 1].reached == multiset{}
  {
    PipeIsMadeIff(t, [], 0, env.limit);
    RunsReach(env, Pipe(left, right), t, ws);
    assert Runs(env, Pipe(left, right), Copy([], 0, 0, t)) == RunsPipe(env, left, right, Copy([], 0, 0, t));
  }

  // ---- A program that does not start ----------------------------------------------------------

  /** `a | b` where a does not start and b does: b is reached twice, once as it should be, and once
      from the child of a that came back, with its output on the pipe that nobody else reads. */
  lemma {:induction false} FailedLeft(env: Env, a: seq<string>, b: seq<string>, t: Fds)
    requires Roomy(t.Keys, env.limit) && Fails(env, a) && !Fails(env, b)
    ensures var wr, rd := WriteEnd([], 0), ReadEnd([], 0);
      Runs(env, Pipe(Exec(a), Exec(b)), Copy([], 0, 0, t)).leaves
        == [Leaf(a, t[1 := wr]), Leaf(b, t[0 := rd]), Leaf(b, t[1 := wr])]
  {
    PipeEnds(t, [], env.limit);
    PipeIsMade(t, t.Keys, [], 0, env.limit);
    var p := Copy([], 0, 0, t);
    var c := MakePipe(t, [], 0, env.limit);
    var parent, child := PipeMaker(p, c.fds), LeftChild(env, p, c.rd, c.wr, c.fds);
    assert Runs(env, Exec(a), child) == Trace([Leaf(a, child.fds)], [child]);
    SecondOfExec(env, b, c.rd, c.wr, parent);
    SecondOfExec(env, b, c.rd, c.wr, child);
    ClosedPipeStays(child.fds, c.rd, c.wr, env.limit);
    assert [parent] + [child] == [parent, child] && [parent, child][1..] == [child] && [child][1..] == [];
    assert AllSecond(env, Exec(b), c.rd, c.wr, [child]).leaves == [Leaf(b, child.fds)];
    assert AllSecond(env, Exec(b), c.rd, c.wr, [parent, child]).leaves
        == [Leaf(b, RightFds(parent.fds, c.rd, c.wr, env.limit))] + [Leaf(b, child.fds)];
    assert FirstHalf(env, Exec(a), Exec(b), c.rd, c.wr, parent, child).leaves
        == [Leaf(a, child.fds)] + AllSecond(env, Exec(b), c.rd, c.wr, [parent, child]).leaves;
    assert Runs(env, Pipe(Exec(a), Exec(b)), p) == RunsPipe(env, Exec(a), Exec(b), p);
  }

  lemma {:induction false} SecondOfExec(env: Env, b: seq<string>, rd: int, wr: int, p: Copy)
    requires !Fails(env, b)
    ensures SecondHalf(env, Exec(b), rd, wr, Forked(p), RightChild(env, p, rd, wr)).leaves
         == [Leaf(b, RightFds(p.fds, rd, wr, env.limit))]
  {
  }

  /** Without the ends of the pipe the moves of the right child change nothing. */
  lemma ClosedPipeStays(t: Fds, rd: int, wr: int, limit: nat)
    requires rd !in t && wr !in t
    ensures RightFds(t, rd, wr, limit) == t
  {
  }

  lemma {:induction false} TwoWordLine(line: string, a: string, b: string)
    requires IsArgument(a) && IsArgument(b) && line == a + " | " + b + " "
    ensures Parse(line) == Ok(Pipe(Exec([a]), Exec([b])))
  {
    PrintedPipe(a, b);
    RoundTrip(Pipe(Exec([a]), Exec([b])));
  }

  /** Every line `a | b ` of two words, `nosuch | cat ` for one, parses to two exec nodes, and where a does
      not start and b does, every finished run of it has reached three programs. */
  lemma {:induction false} FallThrough(env: Env, line: string, a: string, b: string, t: Fds, ws: seq<World>)
    requires IsArgument(a) && IsArgument(b) && line == a + " | " + b + " "
    requires Roomy(t.Keys, env.limit) && !env.execWorks([a]) && env.execWorks([b])
    requires ws != [] && IsRun(env, ws) && Finished(ws[|ws| - 1])
    requires ws[0] == World([Initial(Pipe(Exec([a]), Exec([b])), t)], multiset{})
    ensures Parse(line) == Ok(Pipe(Exec([a]), Exec([b])))
    ensures ws[|ws| - 1].reached == multiset{Leaf([a], t[1 := WriteEnd([], 0)]),
              Leaf([b], t[0 := ReadEnd([], 0)]), Leaf([b], t[1 := WriteEnd([], 0)])}
  {
    TwoWordLine(line, a, b);
    FailedLeft(env, [a], [b], t);
    RunsReach(env, Pipe(Exec([a]), Exec([b])), t, ws);
  }

  lemma NosuchIsSuchALine(line: string)
    requires line == "nosuch | cat "
    ensures IsArgument("nosuch") && IsArgument("cat") && line == "nosuch" + " | " + "cat" + " "
  {
  }

  lemma {:induction false} PrintedPipe(a: string, b: string)
    ensures Print(Pipe(Exec([a]), Exec([b]))) == a + " | " + b + " "
  {
    assert [a][1..] == [] && [b][1..] == [];
    assert Words([a]) == [Word(a)] + Words([]) && Words([b]) == [Word(b)] + Words([]);
    assert Unparse(Pipe(Exec([a]), Exec([b]))) == [Word(a), Bar, Word(b)];
    var ts := [Word(a), Bar, Word(b)];
    assert ts[1..] == [Bar, Word(b)] && ts[1..][1..] == [Word(b)] && ts[1..][1..][1..] == [];
    assert Render([Word(b)]) == b + " " + "";
    assert Render([Bar, Word(b)]) == "|" + " " + Render([Word(b)]);
    assert Render(ts) == a + " " + Render([Bar, Word(b)]);
  }
}
