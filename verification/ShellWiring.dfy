/** What the programs of a pipeline get: which pipe ends, which files, and nothing else. */
module ShellWiring {
  import opened Descriptors
  import opened ShellTokens
  import opened ShellGrammar
  import opened ShellRun
  import opened ShellLeaves
  import opened Options

  // ---- Redirections ---------------------------------------------------------------------------

  /** The table after the redirections of a stage, the outermost of which is performed first. */
  function StageFds(env: Env, c: Command, t: Fds): Fds {
    match c
    case Redirect(cmd, file, input) => StageFds(env, cmd, RedirectFds(env, t, file, input))
    case _ => t
  }

  function StageWords(c: Command): seq<string> {
    match c
    case Exec(argv) => argv
    case Redirect(cmd, _, _) => StageWords(cmd)
    case Pipe(_, _) => []
  }

  /** The target that is written first for a direction. */
  function FirstTarget(rs: seq<Redirection>, input: bool): Option<string> {
    if rs == [] then None
    else if rs[0].input == input then Some(rs[0].file)
    else FirstTarget(rs[1..], input)
  }

  /** `t` with a file, if there is one, in place of descriptor 0 or 1. */
  function Attach(t: Fds, file: Option<string>, input: bool): Fds {
    if file.None? then t else t[(if input then 0 else 1) := File(file.value, input)]
  }

  predicate Opens(env: Env, r: Redirection) { env.openWorks(r.file, r.input) }

  function AttachAll(t: Fds, rs: seq<Redirection>): Fds {
    Attach(Attach(t, FirstTarget(rs, true), true), FirstTarget(rs, false), false)
  }

  /** close and open land on the number that was closed. */
  lemma {:induction false} OpenTakesClosed(env: Env, t: Fds, file: string, input: bool)
    requires 0 in t && 1 in t && env.limit >= 2 && env.openWorks(file, input)
    ensures RedirectFds(env, t, file, input) == t[(if input then 0 else 1) := File(file, input)]
  {
    var fd := if input then 0 else 1;
    FirstFreeIs(Close(t, fd).table, 0, env.limit, fd);
  }

  /** The redirections performed from the last one written to the first. */
  function Performed(env: Env, rs: seq<Redirection>, t: Fds): Fds {
    if rs == [] then t else RedirectFds(env, Performed(env, rs[1..], t), rs[0].file, rs[0].input)
  }

  lemma {:induction false} PerformedSnoc(env: Env, rs: seq<Redirection>, r: Redirection, t: Fds)
    ensures Performed(env, rs + [r], t) == Performed(env, rs, RedirectFds(env, t, r.file, r.input))
  {
    if rs == [] {
      assert [r][1..] == [];
    } else {
      assert (rs + [r])[1..] == rs[1..] + [r];
      PerformedSnoc(env, rs[1..], r, t);
    }
  }

  lemma {:induction false} StageIsPerformed(env: Env, argv: seq<string>, rs: seq<Redirection>, t: Fds)
    ensures StageFds(env, Wrap(Exec(argv), rs), t) == Performed(env, rs, t)
  {
    if rs != [] {
      var init, last := rs[..|rs| - 1], rs[|rs| - 1];
      assert rs == init + [last];
      StageIsPerformed(env, argv, init, RedirectFds(env, t, last.file, last.input));
      PerformedSnoc(env, init, last, t);
    }
  }

  /** Descriptor 0 is open behind the redirections: no `<` that failed is the last to act on it. */
  predicate ZeroOpen(env: Env, rs: seq<Redirection>) {
    rs == [] || Opens(env, rs[0]) || (!rs[0].input && ZeroOpen(env, rs[1..]))
  }

  /** The first `<`, if there is one, opens. */
  predicate InputLands(env: Env, rs: seq<Redirection>) {
    rs == [] || if rs[0].input then Opens(env, rs[0]) else InputLands(env, rs[1..])
  }

  /** The first `>`, if there is one, opens, and those written after it leave descriptor 0 open. */
  predicate OutputLands(env: Env, rs: seq<Redirection>) {
    rs == [] || if rs[0].input then OutputLands(env, rs[1..]) else Opens(env, rs[0]) && ZeroOpen(env, rs[1..])
  }

  predicate FilesLand(env: Env, rs: seq<Redirection>) { InputLands(env, rs) && OutputLands(env, rs) }

  /** What descriptor 0 is in the end: the first target, exactly if that opens. */
  predicate InputIs(env: Env, rs: seq<Redirection>, t: Fds, t': Fds)
    requires 0 in t
  {
    var target := FirstTarget(rs, true);
    if target.None? then 0 in t' && t'[0] == t[0]
    else if InputLands(env, rs) then 0 in t' && t'[0] == File(target.value, true)
    else 0 in t' ==> t'[0].File? && !t'[0].input
  }

  predicate OutputIs(env: Env, rs: seq<Redirection>, t: Fds, t': Fds)
    requires 1 in t
  {
    var target := FirstTarget(rs, false);
    if target.None? then 1 in t' && t'[1] == t[1]
    else if OutputLands(env, rs) then 1 in t' && t'[1] == File(target.value, false)
    else 1 !in t'
  }

  /** Both numbers of one more redirection, performed last, on a table with one of them closed. */
  lemma {:induction false} OneMore(env: Env, t: Fds, r: Redirection)
    requires env.limit >= 2
    ensures var t' := RedirectFds(env, t, r.file, r.input);
      && t' - {0, 1} == t - {0, 1}
      && (r.input ==> (0 in t' <==> Opens(env, r)) && (0 in t' ==> t'[0] == File(r.file, true)))
      && (r.input ==> (1 in t' <==> 1 in t) && (1 in t ==> t'[1] == t[1]))
      && (!r.input && 0 in t ==> 0 in t' && t'[0] == t[0])
      && (!r.input && 0 !in t ==> (0 in t' <==> Opens(env, r)) && (0 in t' ==> t'[0] == File(r.file, false)))
      && (!r.input ==> (1 in t' <==> 0 in t && Opens(env, r)) && (1 in t' ==> t'[1] == File(r.file, false)))
  {
    var fd := if r.input then 0 else 1;
    var closed := Close(t, fd).table;
    if Opens(env, r) {
      var free := if r.input || 0 !in t then 0 else 1;
      FirstFreeIs(closed, 0, env.limit, free);
    }
  }

  lemma {:induction false} WhereFilesLand(env: Env, rs: seq<Redirection>, t: Fds)
    requires 0 in t && 1 in t && env.limit >= 2
    ensures var t' := Performed(env, rs, t);
      && t' - {0, 1} == t - {0, 1} && (0 in t' <==> ZeroOpen(env, rs))
      && InputIs(env, rs, t, t') && OutputIs(env, rs, t, t')
  {
    if rs != [] {
      WhereFilesLand(env, rs[1..], t);
      OneMore(env, Performed(env, rs[1..], t), rs[0]);
    }
  }

  lemma SameTable(t: Fds, t': Fds)
    requires t - {0, 1} == t' - {0, 1}
    requires (0 in t <==> 0 in t') && (1 in t <==> 1 in t')
    requires (0 in t ==> t[0] == t'[0]) && (1 in t ==> t[1] == t'[1])
    ensures t == t'
  {
    forall k
      ensures k in t <==> k in t'
      ensures k in t ==> t[k] == t'[k]
    {
      assert k in t - {0, 1} <==> k in t' - {0, 1};
      if k in t - {0, 1} {
        assert (t - {0, 1})[k] == (t' - {0, 1})[k];
      }
    }
  }

  /** A program reads from the first file written after `<` and writes to the first one written after
      `>`, with all other descriptors as before, exactly when those two open and descriptor 0 is open when
      the output file is opened: a `<` written after the `>` that fails leaves 0 free, and
      the output file takes it, unless another file takes it in between. */
  lemma {:induction false} RedirectChain(env: Env, argv: seq<string>, rs: seq<Redirection>, t: Fds)
    requires 0 in t && 1 in t && env.limit >= 2
    ensures StageFds(env, Wrap(Exec(argv), rs), t) == AttachAll(t, rs) <==> FilesLand(env, rs)
  {
    StageIsPerformed(env, argv, rs, t);
    WhereFilesLand(env, rs, t);
    LandsWithTarget(env, rs);
    var t' := Performed(env, rs, t);
    var meant := AttachAll(t, rs);
    assert meant - {0, 1} == t - {0, 1};
    if FilesLand(env, rs) {
      SameTable(t', meant);
    }
  }

  /** Without a target of a direction nothing can go wrong in it. */
  lemma {:induction false} LandsWithTarget(env: Env, rs: seq<Redirection>)
    ensures FirstTarget(rs, true).None? ==> InputLands(env, rs)
    ensures FirstTarget(rs, false).None? ==> OutputLands(env, rs)
  {
    if rs != [] {
      LandsWithTarget(env, rs[1..]);
    }
  }

  /** A file that does not open leaves its number free for the next one: `> out < missing` makes
      the program read from out and leaves it without standard output. */
  lemma {:induction false} FailedOpenShifts(env: Env, argv: seq<string>, t: Fds, out: string, missing: string)
    requires 0 in t && 1 in t && env.limit >= 2
    requires env.openWorks(out, false) && !env.openWorks(missing, true)
    ensures var rs := [Redirection(out, false), Redirection(missing, true)];
      && !FilesLand(env, rs)
      && StageFds(env, Wrap(Exec(argv), rs), t) == (t - {1})[0 := File(out, false)]
  {
    var first, second := Redirection(out, false), Redirection(missing, true);
    var rs := [first, second];
    StageIsPerformed(env, argv, rs, t);
    assert rs[1..] == [second] && rs[1..][1..] == [];
    var t1 := RedirectFds(env, t, missing, true);
    assert Performed(env, [second], t) == t1 == t - {0};
    FirstFreeIs(Close(t1, 1).table, 0, env.limit, 0);
  }

  // ---- A single stage -------------------------------------------------------------------------

  /** What is left after the last fork of a process reaches no leaf. */
  ghost predicate OnlyClosing(stack: seq<Frame>) { forall f | f in stack :: f.AfterRight? }

  lemma {:induction false} ClosingFuture(env: Env, p: Process)
    requires OnlyClosing(p.stack)
    ensures Future(env, p) == multiset{}
    decreases |p.stack|
  {
    if p.stack != [] {
      assert p.stack[0] in p.stack;
      var next := Advance(env, p).next;
      FutureOfOne(env, next);
      ClosingFuture(env, next[0]);
    }
  }

  /** A stage reaches one leaf if its process never comes back, or has only to close and wait
      when it does. */
  lemma {:induction false} StageFuture(env: Env, c: Command, p: Process)
    requires IsStage(c) && p.stack != [] && p.stack[0] == Start(c)
    requires Stays(env, c) || OnlyClosing(p.stack[1..])
    ensures Future(env, p) == multiset{Leaf(StageWords(c), StageFds(env, c, p.fds))}
    decreases c
  {
    var next := Advance(env, p).next;
    if c.Redirect? {
      FutureOfOne(env, next);
      StageFuture(env, c.cmd, next[0]);
    } else if next != [] {
      FutureOfOne(env, next);
      ClosingFuture(env, next[0]);
    }
  }

  // ---- Pipelines ------------------------------------------------------------------------------

  function Stages(c: Command): seq<Command> {
    if c.Pipe? then [c.left] + Stages(c.right) else [c]
  }

  /** A stage comes back exactly when it has words and execv of them fails. */
  lemma {:induction false} StageStays(env: Env, c: Command)
    requires IsStage(c)
    ensures Stays(env, c) <==> StageWords(c) == [] || env.execWorks(StageWords(c))
  {
    if c.Redirect? {
      StageStays(env, c.cmd);
    }
  }

  /** In a tree that the parser yields every left operand stays away exactly when each stage but the last has no
      words or a program that starts. */
  lemma {:induction false} StagesStay(env: Env, c: Command)
    requires WellFormed(c)
    ensures AllButLastStay(env, c) <==>
      forall i | 0 <= i < |Stages(c)| - 1 :: StageWords(Stages(c)[i]) == [] || env.execWorks(StageWords(Stages(c)[i]))
    ensures ExecNodes(c) == |Stages(c)|
  {
    if c.Pipe? {
      var stages, rest := Stages(c), Stages(c.right);
      StageStays(env, c.left);
      StagesStay(env, c.right);
      OneExec(c.left);
      assert forall i | 0 <= i < |rest| :: rest[i] == stages[i + 1];
      if AllButLastStay(env, c) {
        forall i | 0 <= i < |stages| - 1
          ensures StageWords(stages[i]) == [] || env.execWorks(StageWords(stages[i]))
        {
          if i > 0 { assert stages[i] == rest[i - 1]; }
        }
      }
      if forall i | 0 <= i < |stages| - 1 :: StageWords(stages[i]) == [] || env.execWorks(StageWords(stages[i])) {
        assert StageWords(stages[0]) == [] || env.execWorks(StageWords(stages[0]));
        forall i | 0 <= i < |rest| - 1
          ensures StageWords(rest[i]) == [] || env.execWorks(StageWords(rest[i]))
        {
          assert rest[i] == stages[i + 1];
        }
      }
    } else {
      OneExec(c);
    }
  }

  lemma {:induction false} OneExec(c: Command)
    requires IsStage(c)
    ensures ExecNodes(c) == 1
  {
    if c.Redirect? {
      OneExec(c.cmd);
    }
  }

  /** The leaves of a pipeline in order, for a process with this table and name. */
  function Wired(env: Env, c: Command, t: Fds, pid: Pid): seq<Leaf> {
    if c.Pipe? then
      [Leaf(StageWords(c.left), StageFds(env, c.left, t[1 := WriteEnd(pid, 0)]))]
      + Wired(env, c.right, t[0 := ReadEnd(pid, 0)], pid + [1])
    else [Leaf(StageWords(c), StageFds(env, c, t))]
  }

  /** The descriptor work around the two forks, from any table: the right child gets the read end as 0 and nothing
      else changes; the left child likewise gets the write end as 1, except when the shell has 0 but not 1, in which
      case the read end is 1 and the left child closes it last and is left without 1. */
  lemma {:induction false} PipeEndsAnywhere(t: Fds, pid: Pid, pipe: nat, limit: nat)
    requires MakePipe(t, pid, pipe, limit).Made?
    ensures var c := MakePipe(t, pid, pipe, limit);
      && LeftFds(c.fds, c.rd, c.wr, limit) == (if 0 in t && 1 !in t then t else t[1 := WriteEnd(pid, pipe)])
      && RightFds(c.fds, c.rd, c.wr, limit) == t[0 := ReadEnd(pid, pipe)]
      && ParentFds(c.fds, c.rd, c.wr) == t
  {
    var c := MakePipe(t, pid, pipe, limit);
    assert 0 <= c.rd < c.wr < limit && c.rd !in t && c.wr !in t;
    assert c.rd == 1 <==> 0 in t && 1 !in t;
    assert c.fds == t[c.rd := ReadEnd(pid, pipe)][c.wr := WriteEnd(pid, pipe)];
    if c.rd == 1 {
      assert LeftFds(c.fds, c.rd, c.wr, limit) == t;
    }
  }

  /** The descriptor work around the two forks amounts to replacing 1 on the left, 0 on the
      right, and nothing in the parent. */
  lemma {:induction false} PipeEnds(t: Fds, pid: Pid, limit: nat)
    requires Roomy(t.Keys, limit)
    ensures var c := MakePipe(t, pid, 0, limit);
      && c.Made?
      && LeftFds(c.fds, c.rd, c.wr, limit) == t[1 := WriteEnd(pid, 0)]
      && RightFds(c.fds, c.rd, c.wr, limit) == t[0 := ReadEnd(pid, 0)]
      && ParentFds(c.fds, c.rd, c.wr) == t
  {
    PipeIsMade(t, t.Keys, pid, 0, limit);
    var c := MakePipe(t, pid, 0, limit);
    assert c.rd != 0 && c.rd != 1 && c.wr != 0 && c.wr != 1;
  }

  lemma {:induction false} PipelineFuture(env: Env, c: Command, p: Process)
    requires WellFormed(c) && AllButLastStay(env, c) && Roomy(p.fds.Keys, env.limit)
    requires p.forks == 0 && p.pipes == 0 && p.stack != [] && p.stack[0] == Start(c) && OnlyClosing(p.stack[1..])
    ensures Future(env, p) == multiset(Wired(env, c, p.fds, p.pid))
    decreases c
  {
    if c.Pipe? {
      var left, parent, right := Forks(env, c, p);
      StageFuture(env, c.left, left);
      ClosingFuture(env, parent);
      PipelineFuture(env, c.right, right);
    } else {
      StageFuture(env, c, p);
    }
  }

  /** The three processes that a pipe leaves behind after its two forks. */
  lemma {:induction false} Forks(env: Env, c: Command, p: Process) returns (left: Process, parent: Process, right: Process)
    requires c.Pipe? && Roomy(p.fds.Keys, env.limit)
    requires p.forks == 0 && p.pipes == 0 && p.stack != [] && p.stack[0] == Start(c) && OnlyClosing(p.stack[1..])
    ensures Future(env, p) == Future(env, left) + Future(env, parent) + Future(env, right)
    ensures left.stack != [] && left.stack[0] == Start(c.left) && left.fds == p.fds[1 := WriteEnd(p.pid, 0)]
    ensures OnlyClosing(parent.stack)
    ensures right.stack != [] && right.stack[0] == Start(c.right) && OnlyClosing(right.stack[1..])
    ensures right.fds == p.fds[0 := ReadEnd(p.pid, 0)] && right.fds.Keys == p.fds.Keys
    ensures right.pid == p.pid + [1] && right.forks == 0 && right.pipes == 0
  {
    PipeEnds(p.fds, p.pid, env.limit);
    var next := Advance(env, p).next;
    left := next[1];
    var last := Advance(env, next[0]).next;
    parent, right := last[0], last[1];
    FutureOfTwo(env, next);
    FutureOfTwo(env, last);
    assert right.stack[1..] == [last[0].stack[0]] + p.stack[1..];
  }

  /** The name of the process that makes pipe i, and runs the stages after it. */
  function Maker(i: nat): Pid { if i == 0 then [] else Maker(i - 1) + [1] }

  /** The table of stage i out of n, before its own redirections: the initial one with 0 replaced by
      the read end of pipe i - 1 and 1 by the write end of pipe i, where these exist. */
  function StageTable(t: Fds, i: nat, n: nat): Fds {
    var t0 := if i == 0 then t else t[0 := ReadEnd(Maker(i - 1), 0)];
    if i + 1 < n then t0[1 := WriteEnd(Maker(i), 0)] else t0
  }

  lemma {:induction false} WiredFrom(env: Env, c: Command, t: Fds, done: nat, n: nat)
    requires n == done + |Stages(c)|
    ensures var wired := Wired(env, c, if done == 0 then t else t[0 := ReadEnd(Maker(done - 1), 0)], Maker(done));
      && |wired| == |Stages(c)|
      && forall k | 0 <= k < |wired| ::
           wired[k] == Leaf(StageWords(Stages(c)[k]), StageFds(env, Stages(c)[k], StageTable(t, done + k, n)))
    decreases c
  {
    var t0 := if done == 0 then t else t[0 := ReadEnd(Maker(done - 1), 0)];
    if c.Pipe? {
      assert t0[0 := ReadEnd(Maker(done), 0)] == t[0 := ReadEnd(Maker(done), 0)];
      WiredFrom(env, c.right, t, done + 1, n);
      var wired := Wired(env, c, t0, Maker(done));
      var rest := Wired(env, c.right, t[0 := ReadEnd(Maker(done), 0)], Maker(done + 1));
      assert wired == [Leaf(StageWords(c.left), StageFds(env, c.left, t0[1 := WriteEnd(Maker(done), 0)]))] + rest;
      forall k | 0 <= k < |wired|
        ensures wired[k] == Leaf(StageWords(Stages(c)[k]), StageFds(env, Stages(c)[k], StageTable(t, done + k, n)))
      {
        if k > 0 {
          assert Stages(c)[k] == Stages(c.right)[k - 1] && wired[k] == rest[k - 1];
        }
      }
    }
  }

  /** Pipeline wiring. For every line that parses, run with descriptors 0 and 1 open, two numbers
      free and a program for every stage but perhaps the last: however the processes interleave, a
      finished run has reached one exec node per stage, and the program of stage i has the
      initial table with 0 replaced by the read end of pipe i - 1 and 1 by the write end of
      pipe i where these exist, then changed by its own redirections. No other pipe end is open. */
  lemma {:induction false} PipelineWiring(env: Env, line: string, t: Fds, ws: seq<World>) returns (leaves: seq<Leaf>)
    requires NulFree(line) && Parse(line).Ok?
    requires Roomy(t.Keys, env.limit) && AllButLastStay(env, Parse(line).command)
    requires ws != [] && IsRun(env, ws) && Finished(ws[|ws| - 1])
    requires ws[0] == World([Initial(Parse(line).command, t)], multiset{})
    ensures ws[|ws| - 1].reached == multiset(leaves)
    ensures var stages := Stages(Parse(line).command);
      && |leaves| == |stages|
      && forall i | 0 <= i < |leaves| ::
           leaves[i] == Leaf(StageWords(stages[i]), StageFds(env, stages[i], StageTable(t, i, |stages|)))
  {
    var c := Parse(line).command;
    ParsedIsWellFormed(line);
    RunReaches(env, c, t, ws);
    FutureOfInitial(env, c, t);
    leaves := Wired(env, c, t, []);
    WiredFrom(env, c, t, 0, |Stages(c)|);
  }

  lemma {:induction false} FutureOfInitial(env: Env, c: Command, t: Fds)
    requires WellFormed(c) && AllButLastStay(env, c) && Roomy(t.Keys, env.limit)
    ensures Future(env, Initial(c, t)) == multiset(Wired(env, c, t, []))
  {
    PipelineFuture(env, c, Initial(c, t));
  }

  // ---- From the characters of the line to the tables of the programs --------------------------

  lemma {:induction false} StageOfWrap(argv: seq<string>, rs: seq<Redirection>)
    ensures !Wrap(Exec(argv), rs).Pipe? && StageWords(Wrap(Exec(argv), rs)) == argv
  {
    if rs != [] {
      StageOfWrap(argv, rs[..|rs| - 1]);
    }
  }

  lemma {:induction false} StagesAreSegments(items: seq<Item>)
    requires Meaning(items).Ok?
    ensures var stages, segments := Stages(Meaning(items).command), Segments(items);
      && |stages| == |segments|
      && forall i | 0 <= i < |stages| :: stages[i] == Wrap(Exec(Args(segments[i])), Redirs(segments[i]))
    decreases |items|
  {
    var n := FirstLength(items);
    var first := items[..n];
    StageOfWrap(Args(first), Redirs(first));
    if n == |items| {
      assert first == items;
    } else {
      StagesAreSegments(items[n + 1..]);
    }
  }

  lemma {:induction false} WordsOfStages(items: seq<Item>)
    requires Meaning(items).Ok?
    ensures var stages, segments := Stages(Meaning(items).command), Segments(items);
      |stages| == |segments| && forall i | 0 <= i < |stages| :: StageWords(stages[i]) == Args(segments[i])
  {
    StagesAreSegments(items);
    var stages, segments := Stages(Meaning(items).command), Segments(items);
    forall i | 0 <= i < |stages|
      ensures StageWords(stages[i]) == Args(segments[i])
    {
      StageOfWrap(Args(segments[i]), Redirs(segments[i]));
    }
  }

  lemma {:induction false} SegmentsStay(env: Env, items: seq<Item>, words: seq<seq<string>>)
    requires Meaning(items).Ok? && WellFormed(Meaning(items).command)
    requires |words| == |Segments(items)| && forall i | 0 <= i < |words| :: words[i] == Args(Segments(items)[i])
    ensures AllButLastStay(env, Meaning(items).command) <==>
      forall i | 0 <= i < |words| - 1 :: words[i] == [] || env.execWorks(words[i])
    ensures ExecNodes(Meaning(items).command) == |words|
  {
    WordsOfStages(items);
    StagesStay(env, Meaning(items).command);
    var stages := Stages(Meaning(items).command);
    assert forall i | 0 <= i < |words| :: words[i] == StageWords(stages[i]);
  }

  /** The words of the segments of a line. */
  function SegmentWords(line: string): (words: seq<seq<string>>)
    ensures |words| == |Segments(Items(Tokens(line)))|
    ensures forall i | 0 <= i < |words| :: words[i] == Args(Segments(Items(Tokens(line)))[i])
  {
    var segments := Segments(Items(Tokens(line)));
    seq(|segments|, i requires 0 <= i < |segments| => Args(segments[i]))
  }

  /** For every line that parses, a finished run has reached at least one program for each segment, and exactly one
      for each if and only if every segment but the last has no words or a program that starts. */
  lemma {:induction false} OneProgramPerSegment(env: Env, line: string, t: Fds, ws: seq<World>)
    requires NulFree(line) && Parse(line).Ok? && Roomy(t.Keys, env.limit)
    requires ws != [] && IsRun(env, ws) && Finished(ws[|ws| - 1])
    requires ws[0] == World([Initial(Parse(line).command, t)], multiset{})
    ensures var words := SegmentWords(line);
      && |ws[|ws| - 1].reached| >= |words|
      && (|ws[|ws| - 1].reached| == |words| <==>
            forall i | 0 <= i < |words| - 1 :: words[i] == [] || env.execWorks(words[i]))
  {
    var c := Parse(line).command;
    ParsedIsWellFormed(line);
    LeafCount(env, c, t, ws);
    ParsedTreesStay(env, c);
    SegmentsStay(env, Items(Tokens(line)), SegmentWords(line));
  }

  lemma {:induction false} SegmentLeaves(env: Env, items: seq<Item>, t: Fds, leaves: seq<Leaf>)
    requires Meaning(items).Ok? && 0 in t && 1 in t && env.limit >= 2
    requires var stages := Stages(Meaning(items).command);
      && |leaves| == |stages|
      && forall i | 0 <= i < |leaves| ::
           leaves[i] == Leaf(StageWords(stages[i]), StageFds(env, stages[i], StageTable(t, i, |stages|)))
    ensures var segments := Segments(items);
      && |leaves| == |segments|
      && forall i | 0 <= i < |leaves| ::
           && leaves[i] == Leaf(Args(segments[i]), Performed(env, Redirs(segments[i]), StageTable(t, i, |segments|)))
           && (leaves[i].fds == AttachAll(StageTable(t, i, |segments|), Redirs(segments[i]))
               <==> FilesLand(env, Redirs(segments[i])))
  {
    StagesAreSegments(items);
    var segments := Segments(items);
    forall i | 0 <= i < |leaves|
      ensures leaves[i] == Leaf(Args(segments[i]), Performed(env, Redirs(segments[i]), StageTable(t, i, |segments|)))
      ensures leaves[i].fds == AttachAll(StageTable(t, i, |segments|), Redirs(segments[i]))
          <==> FilesLand(env, Redirs(segments[i]))
    {
      var args, rs := Args(segments[i]), Redirs(segments[i]);
      StageOfWrap(args, rs);
      StageIsPerformed(env, args, rs, StageTable(t, i, |segments|));
      RedirectChain(env, args, rs, StageTable(t, i, |segments|));
    }
  }

  /** From characters to programs, for every line that parses: segment i of the line runs with its
      own words. It reads from its first `<` target or else from pipe i - 1 or else from the shell's
      input, and writes likewise, with all other descriptors as the shell had them, exactly if
      its files land. */
  lemma {:induction false} LineRuns(env: Env, line: string, t: Fds, ws: seq<World>) returns (leaves: seq<Leaf>)
    requires NulFree(line) && Parse(line).Ok?
    requires Roomy(t.Keys, env.limit)
    requires var words := SegmentWords(line);
      forall i | 0 <= i < |words| - 1 :: words[i] == [] || env.execWorks(words[i])
    requires ws != [] && IsRun(env, ws) && Finished(ws[|ws| - 1])
    requires ws[0] == World([Initial(Parse(line).command, t)], multiset{})
    ensures ws[|ws| - 1].reached == multiset(leaves)
    ensures var segments := Segments(Items(Tokens(line)));
      && |leaves| == |segments|
      && forall i | 0 <= i < |leaves| ::
           && leaves[i] == Leaf(Args(segments[i]), Performed(env, Redirs(segments[i]), StageTable(t, i, |segments|)))
           && (leaves[i].fds == AttachAll(StageTable(t, i, |segments|), Redirs(segments[i]))
               <==> FilesLand(env, Redirs(segments[i])))
  {
    ParsedIsWellFormed(line);
    SegmentsStay(env, Items(Tokens(line)), SegmentWords(line));
    leaves := PipelineWiring(env, line, t, ws);
    SegmentLeaves(env, Items(Tokens(line)), t, leaves);
  }
}
