/** run_cmd as the statements of shell.c, one schedule at a time: a forked child runs to its end
    before its parent goes on. The child gets a copy of the table and of everything that its
    parent has still to do. */
module ShellRunner {
  import opened Descriptors
  import opened ShellGrammar
  import opened ShellRun
  import MyDup2

  class Running {
    const pid: Pid
    var forks: nat
    var pipes: nat
    var fds: Fds

    constructor (pid: Pid, fds: Fds)
      ensures this.pid == pid && this.fds == fds && forks == 0 && pipes == 0
    {
      this.pid, this.fds, forks, pipes := pid, fds, 0, 0;
    }

    /** The process with `stack` still to do. */
    function View(stack: seq<Frame>): Process
      reads this
    {
      Process(pid, forks, pipes, fds, stack)
    }

    method CloseFd(fd: int)
      modifies `fds
      ensures fds == Close(old(fds), fd).table
    {
      fds := fds - {fd};
    }

    method Dup2Fd(oldfd: int, newfd: int, limit: nat)
      modifies `fds
      ensures fds == Dup2(old(fds), oldfd, newfd, limit).table
    {
      if oldfd in fds && 0 <= newfd < limit {
        fds := fds[newfd := fds[oldfd]];
      }
    }

    method OpenFile(env: Env, file: string, input: bool) returns (fd: int)
      modifies `fds
      ensures Call(fd, fds) ==
        if env.openWorks(file, input) then Install(old(fds), File(file, input), env.limit) else Call(-1, old(fds))
    {
      fd := -1;
      if env.openWorks(file, input) {
        var free := FirstFree(fds, 0, env.limit);
        if free < env.limit {
          fd := free;
          fds := fds[fd := File(file, input)];
        }
      }
    }

    method PipeFds(limit: nat) returns (ok: bool, rd: int, wr: int)
      modifies `fds, `pipes
      ensures pipes == old(pipes) + 1
      ensures MakePipe(old(fds), pid, old(pipes), limit) == if ok then Made(rd, wr, fds) else NoPipe
      ensures !ok ==> fds == old(fds)
    {
      ok, rd := false, FirstFree(fds, 0, limit);
      wr := rd;
      if rd < limit {
        var more := fds[rd := ReadEnd(pid, pipes)];
        wr := FirstFree(more, 0, limit);
        if wr < limit {
          ok := true;
          fds := more[wr := WriteEnd(pid, pipes)];
        }
      }
      pipes := pipes + 1;
    }

    /** The left child: standard output on the pipe. */
    method ForkLeft(rd: int, wr: int, limit: nat) returns (child: Running)
      modifies `forks
      ensures fresh(child) && child.pid == pid + [old(forks)] && child.fds == LeftFds(fds, rd, wr, limit)
      ensures child.forks == 0 && child.pipes == 0 && forks == old(forks) + 1
    {
      child := Fork();
      if wr != 1 {
        child.Dup2Fd(wr, 1, limit);
        child.CloseFd(wr);
      }
      child.CloseFd(rd);
    }

    /** The right child: standard input on the pipe. */
    method ForkRight(rd: int, wr: int, limit: nat) returns (child: Running)
      modifies `forks
      ensures fresh(child) && child.pid == pid + [old(forks)] && child.fds == RightFds(fds, rd, wr, limit)
      ensures child.forks == 0 && child.pipes == 0 && forks == old(forks) + 1
    {
      child := Fork();
      if rd != 0 {
        child.Dup2Fd(rd, 0, limit);
        child.CloseFd(rd);
      }
      child.CloseFd(wr);
    }

    method Fork() returns (child: Running)
      modifies `forks
      ensures fresh(child) && child.pid == pid + [old(forks)] && child.fds == fds
      ensures child.forks == 0 && child.pipes == 0 && forks == old(forks) + 1
    {
      child := new Running(pid + [forks], fds);
      forks := forks + 1;
    }
  }

  /** run_cmd(c), and then whatever `k` says is left to do. */
  method RunCmd(env: Env, c: Command, p: Running, k: seq<Frame>) returns (leaves: seq<Leaf>)
    modifies p
    ensures multiset(leaves) == Future(env, old(p.View([Start(c)] + k)))
    decreases CommandSteps(c, StackSteps(k)), 1
  {
    match c {
      case Exec(argv) => leaves := RunExec(env, argv, p, k);
      case Pipe(left, right) => leaves := RunPipe(env, left, right, p, k);
      case Redirect(cmd, file, input) =>
        ghost var self := p.View([Start(c)] + k);
        p.CloseFd(if input then 0 else 1);
        var _ := p.OpenFile(env, file, input);
        ghost var next := Advance(env, self).next;
        FutureOfOne(env, next);
        assert next[0] == p.View([Start(cmd)] + k);
        leaves := RunCmd(env, cmd, p, k);
    }
  }

  method RunExec(env: Env, argv: seq<string>, p: Running, k: seq<Frame>) returns (leaves: seq<Leaf>)
    modifies p
    ensures multiset(leaves) == Future(env, old(p.View([Start(Exec(argv))] + k)))
    ensures leaves != [] && leaves[0] == Leaf(argv, old(p.fds))
    ensures argv == [] || env.execWorks(argv) ==> leaves == [Leaf(argv, old(p.fds))] && p.fds == old(p.fds)
    decreases CommandSteps(Exec(argv), StackSteps(k)), 0
  {
    leaves := [Leaf(argv, p.fds)];
    if Fails(env, argv) {
      ghost var next := Advance(env, p.View([Start(Exec(argv))] + k)).next;
      FutureOfOne(env, next);
      assert next[0] == p.View(k);
      var more := Resume(env, p, k);
      leaves := leaves + more;
    }
  }

  method RunPipe(env: Env, left: Command, right: Command, p: Running, k: seq<Frame>) returns (leaves: seq<Leaf>)
    modifies p
    ensures multiset(leaves) == Future(env, old(p.View([Start(Pipe(left, right))] + k)))
    decreases CommandSteps(Pipe(left, right), StackSteps(k)), 0
  {
    ghost var self := p.View([Start(Pipe(left, right))] + k);
    var ok, rd, wr := p.PipeFds(env.limit);
    if !ok {
      return [];
    }
    var after := [AfterLeft(right, rd, wr)] + k;
    StackStepsCons(after[0], k);
    ghost var next := Advance(env, self).next;
    FutureOfTwo(env, next);
    var child := p.ForkLeft(rd, wr, env.limit);
    assert next[1] == child.View([Start(left)] + after) && next[0] == p.View(after);
    var inChild := RunCmd(env, left, child, after);
    var inParent := RunAfterLeft(env, right, rd, wr, p, k);
    leaves := inChild + inParent;
  }

  /** The statements from the second fork on. */
  method RunAfterLeft(env: Env, right: Command, rd: int, wr: int, p: Running, k: seq<Frame>) returns (leaves: seq<Leaf>)
    modifies p
    ensures multiset(leaves) == Future(env, old(p.View([AfterLeft(right, rd, wr)] + k)))
    decreases RightSteps(right, StackSteps(k)), 0
  {
    ghost var self := p.View([AfterLeft(right, rd, wr)] + k);
    var after := [AfterRight(rd, wr)] + k;
    StackStepsCons(after[0], k);
    ghost var next := Advance(env, self).next;
    FutureOfTwo(env, next);
    var child := p.ForkRight(rd, wr, env.limit);
    assert next[1] == child.View([Start(right)] + after) && next[0] == p.View(after);
    var inChild := RunCmd(env, right, child, after);
    var inParent := RunAfterRight(env, rd, wr, p, k);
    leaves := inChild + inParent;
  }

  /** The statements after the second fork: the parent's ends of the pipe are closed. */
  method RunAfterRight(env: Env, rd: int, wr: int, p: Running, k: seq<Frame>) returns (leaves: seq<Leaf>)
    modifies p
    ensures multiset(leaves) == Future(env, old(p.View([AfterRight(rd, wr)] + k)))
    decreases 1 + StackSteps(k), 0
  {
    ghost var self := p.View([AfterRight(rd, wr)] + k);
    p.CloseFd(rd);
    p.CloseFd(wr);
    ghost var next := Advance(env, self).next;
    FutureOfOne(env, next);
    assert next[0] == p.View(k);
    leaves := Resume(env, p, k);
  }

  /** Returns into the caller: what is left is the rest of the stack. */
  method Resume(env: Env, p: Running, k: seq<Frame>) returns (leaves: seq<Leaf>)
    modifies p
    ensures multiset(leaves) == Future(env, old(p.View(k)))
    decreases StackSteps(k), 2
  {
    if k == [] {
      return [];
    }
    assert [k[0]] + k[1..] == k;
    match k[0] {
      case Start(cmd) => leaves := RunCmd(env, cmd, p, k[1..]);
      case AfterLeft(right, rd, wr) => leaves := RunAfterLeft(env, right, rd, wr, p, k[1..]);
      case AfterRight(rd, wr) => leaves := RunAfterRight(env, rd, wr, p, k[1..]);
    }
  }

  /** The dup2 of mydup2.c does in both children what run_cmd needs exactly while a third number is free. */
  lemma ImplServesRunCmd(t: Fds, pid: Pid, pipe: nat, limit: nat)
    requires InRange(t, limit) && 0 in t && 1 in t && MakePipe(t, pid, pipe, limit).Made?
    ensures var c := MakePipe(t, pid, pipe, limit);
      MyDup2.HasFree(c.fds, limit) <==>
        && MyDup2.Outcome(c.fds, c.wr, 1, limit) == Dup2(c.fds, c.wr, 1, limit) && !MyDup2.Diverges(c.fds, c.wr, 1, limit)
        && MyDup2.Outcome(c.fds, c.rd, 0, limit) == Dup2(c.fds, c.rd, 0, limit) && !MyDup2.Diverges(c.fds, c.rd, 0, limit)
  {
    var c := MakePipe(t, pid, pipe, limit);
    assert InRange(c.fds, limit);
    MyDup2.AgreesWithDup2(c.fds, c.wr, 1, limit);
    MyDup2.AgreesWithDup2(c.fds, c.rd, 0, limit);
  }
}
