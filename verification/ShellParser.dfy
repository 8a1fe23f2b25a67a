/** The scannerless recursive-descent parser of the shell: one shared cursor, moved by every
    function, and argv vectors that are filled in place while redirections already wrap them.
    Each method is proved against the cursor-free meaning of the tokens that are left. The parser
    comes in two forms, as it is meant and as it is written, that differ in the node that
    parse_exec writes the words to. */
module ShellParser {
  import opened ShellTokens
  import opened ShellGrammar
  import opened Options

  datatype TokenType = TokenInvalid | TokenLetter | TokenPipe | TokenInput | TokenOutput

  datatype OpenMode = ReadOnly | WriteCreateTruncate

  /** A cell of a structure: a `char *` that was stored in it, NULL, or what it was created with. */
  datatype Slot = Null | Str(text: string) | AsCreated

  /** The cells from `argv[0]` on of the structures that parse_exec writes to, by address. */
  type Memory = seq<seq<Slot>>

  /** Command nodes as they lie in memory: an exec node refers to its argv vector. A mistaken node is
      a redirect node that is written to as if it were an exec node: argv[0] is its sub-command, argv[1]
      its file, argv[2] its mode and descriptor, and the cells from argv[3] on lie behind it. */
  datatype Node =
    | ExecNode(argv: nat)
    | PipeNode(left: Node, right: Node)
    | RedirectNode(cmd: Node, file: string, mode: OpenMode, fd: int)
    | Mistaken(argv: nat, redirect: Node)

  datatype Outcome = Parsed(node: Node) | Exit(error: ParseError)

  /** The strings before the terminating null. */
  ghost function Strings(slots: seq<Slot>): seq<string> {
    if slots == [] || !slots[0].Str? then [] else [slots[0].text] + Strings(slots[1..])
  }

  /** The fields of a redirect node are as they were created. */
  ghost predicate Intact(cells: seq<Slot>) {
    |cells| >= 3 && cells[0].AsCreated? && cells[1].AsCreated? && cells[2].AsCreated?
  }

  /** All cells of a node are allocated. */
  ghost predicate Allocated(n: Node, mem: Memory) {
    match n
    case ExecNode(argv) => argv < |mem|
    case PipeNode(left, right) => Allocated(left, mem) && Allocated(right, mem)
    case RedirectNode(cmd, _, _, _) => Allocated(cmd, mem)
    case Mistaken(argv, redirect) => argv < |mem| && Allocated(redirect, mem)
  }

  /** The tree that a node stands for; none if a field that leads to a part of it was overwritten. */
  ghost function Tree(n: Node, mem: Memory): Option<Command>
    requires Allocated(n, mem)
  {
    match n
    case ExecNode(argv) => Some(Exec(Strings(mem[argv])))
    case PipeNode(left, right) => Piped(Tree(left, mem), Tree(right, mem))
    case RedirectNode(cmd, file, mode, _) => Wrapped(Tree(cmd, mem), [Redirection(file, mode.ReadOnly?)])
    case Mistaken(argv, redirect) => if Intact(mem[argv]) then Tree(redirect, mem) else None
  }

  function Piped(left: Option<Command>, right: Option<Command>): Option<Command> {
    if left.Some? && right.Some? then Some(Pipe(left.value, right.value)) else None
  }

  function Wrapped(c: Option<Command>, rs: seq<Redirection>): Option<Command> {
    if c.Some? then Some(Wrap(c.value, rs)) else None
  }

  /** Where the words of a stage were written. */
  ghost function Written(n: Node): nat {
    match n
    case ExecNode(argv) => argv
    case PipeNode(_, _) => 0
    case RedirectNode(cmd, _, _, _) => Written(cmd)
    case Mistaken(argv, _) => argv
  }

  /** Allocating and filling further cells does not change a tree. */
  lemma {:induction false} TreeIsStable(n: Node, mem: Memory, mem': Memory)
    requires Allocated(n, mem) && mem <= mem'
    ensures Allocated(n, mem') && Tree(n, mem') == Tree(n, mem)
  {
    match n
    case ExecNode(_) =>
    case PipeNode(left, right) =>
      TreeIsStable(left, mem, mem');
      TreeIsStable(right, mem, mem');
    case RedirectNode(cmd, _, _, _) =>
      TreeIsStable(cmd, mem, mem');
    case Mistaken(_, redirect) =>
      TreeIsStable(redirect, mem, mem');
  }

  /** Input is opened for reading on descriptor 0, output for writing on descriptor 1. */
  ghost predicate ModesMatch(n: Node) {
    match n
    case ExecNode(_) => true
    case PipeNode(left, right) => ModesMatch(left) && ModesMatch(right)
    case RedirectNode(cmd, _, mode, fd) => fd == (if mode.ReadOnly? then 0 else 1) && ModesMatch(cmd)
    case Mistaken(_, redirect) => ModesMatch(redirect)
  }

  function CreateRedirect(cmd: Node, file: string, tok: TokenType): Node {
    RedirectNode(cmd, file,
                 if tok == TokenInput then ReadOnly else WriteCreateTruncate,
                 if tok == TokenInput then 0 else 1)
  }

  /** Input is read from descriptor 0, output created or truncated and written on descriptor 1. */
  lemma RedirectFields(cmd: Node, file: string)
    ensures CreateRedirect(cmd, file, TokenInput) == RedirectNode(cmd, file, ReadOnly, 0)
    ensures CreateRedirect(cmd, file, TokenOutput) == RedirectNode(cmd, file, WriteCreateTruncate, 1)
  {
  }

  ghost function WrapNode(n: Node, rs: seq<Redirection>): Node {
    if rs == [] then n
    else
      var last := rs[|rs| - 1];
      CreateRedirect(WrapNode(n, rs[..|rs| - 1]), last.file, if last.input then TokenInput else TokenOutput)
  }

  lemma {:induction false} TreeOfWrap(n: Node, rs: seq<Redirection>, mem: Memory)
    requires Allocated(n, mem)
    ensures Allocated(WrapNode(n, rs), mem)
    ensures Tree(WrapNode(n, rs), mem) == Wrapped(Tree(n, mem), rs)
    ensures ModesMatch(n) ==> ModesMatch(WrapNode(n, rs))
    ensures Written(WrapNode(n, rs)) == Written(n)
  {
    if rs != [] {
      var last := rs[|rs| - 1];
      TreeOfWrap(n, rs[..|rs| - 1], mem);
      assert [Redirection(last.file, last.input)][..0] == [];
      if Tree(n, mem).Some? {
        assert Wrap(Wrap(Tree(n, mem).value, rs[..|rs| - 1]), [last]) == Wrap(Tree(n, mem).value, rs);
      }
    }
  }

  lemma {:induction false} WrapNodeConcat(n: Node, a: seq<Redirection>, b: seq<Redirection>)
    ensures WrapNode(n, a + b) == WrapNode(WrapNode(n, a), b)
  {
    if b == [] {
      assert a + b == a;
    } else {
      assert (a + b)[..|a + b| - 1] == a + b[..|b| - 1];
      WrapNodeConcat(n, a, b[..|b| - 1]);
    }
  }

  /** The first slots hold `words`, the others are as in `init`. */
  ghost predicate Filled(slots: seq<Slot>, init: seq<Slot>, words: seq<string>) {
    && |words| <= |slots| == |init|
    && (forall k | 0 <= k < |words| :: slots[k] == Str(words[k]))
    && (forall k | |words| <= k < |slots| :: slots[k] == init[k])
  }

  /** With a null behind them the words are the strings of the vector. */
  lemma {:induction false} StringsOfFilled(slots: seq<Slot>, init: seq<Slot>, words: seq<string>)
    requires Filled(slots, init, words) && |words| < |slots|
    ensures Strings(slots[|words| := Null]) == words
  {
    if words != [] {
      StringsOfFilled(slots[1..], init[1..], words[1..]);
      assert slots[|words| := Null][1..] == slots[1..][|words| - 1 := Null];
    }
  }

  function TypeOf(t: Token): TokenType {
    match t
    case Word(_) => TokenLetter
    case Bar => TokenPipe
    case Less => TokenInput
    case Greater => TokenOutput
  }

  /** An item list that starts with redirections only. */
  ghost predicate AllRedirs(items: seq<Item>) { forall i | i in items :: i.Redir? }

  /** Items of one stage, without an operator that lacks its target. */
  ghost predicate StageOnly(items: seq<Item>) { forall i | i in items :: i.Arg? || i.Redir? }

  ghost predicate Leads(items: seq<Item>) { items != [] && items[0].Redir? }

  /** Some stage is written with a redirection in front of its first word. */
  ghost predicate LeadingRedirect(items: seq<Item>) {
    exists segment: seq<Item> | segment in Segments(items) :: Leads(segment)
  }

  lemma TakeSlice(line: string, start: nat, end: nat)
    requires start < end <= |line| && Trim(line[start..]) == line[start..]
    requires end == start + TokenLength(line[start..])
    ensures Tokens(line[start..]) == [FirstToken(line[start..])] + Tokens(line[end..])
    ensures line[start..end] == FirstToken(line[start..]).Text()
    ensures Spans(line[start..], start) == [(start, end)] + Spans(line[end..], end)
  {
    var s := line[start..];
    assert line[start..end] == s[..end - start];
    assert AfterToken(s) == line[end..];
    Unfold(s, start, s, line[end..], start, end);
  }

  lemma {:induction false} SnocRedir(done: seq<Item>, item: Item)
    requires item.Redir?
    ensures Redirs(done + [item]) == Redirs(done) + [item.target]
    ensures Args(done + [item]) == Args(done)
  {
    ArgsConcat(done, [item]);
    assert Args([item]) == [] && Redirs([item]) == [item.target];
    assert Args(done) + [] == Args(done);
  }

  lemma {:induction false} ItemsAfterPair(ts: seq<Token>)
    requires |ts| >= 2 && ts[0].IsRedirect()
    ensures Items(ts) == [Redir(Redirection(ts[1].Text(), ts[0].Less?))] + Items(ts[2..])
  {
  }

  lemma ConcatAssoc<T>(a: seq<T>, b: seq<T>, c: seq<T>)
    ensures a + (b + c) == (a + b) + c
  {
  }

  lemma {:induction false} ItemsAfterBar(ts: seq<Token>)
    requires ts != [] && ts[0].Bar?
    ensures Items(ts) != [] && Items(ts)[1..] == Items(ts[1..]) && Items(ts)[0] == Separator
  {
  }

  /** One turn of the redirect loop. */
  lemma {:induction false} RedirectTurn(cmd: Node, done: seq<Item>, item: Item, node: Node)
    requires item.Redir?
    requires node == CreateRedirect(WrapNode(cmd, Redirs(done)), item.target.file,
                                    if item.target.input then TokenInput else TokenOutput)
    ensures node == WrapNode(cmd, Redirs(done + [item]))
  {
    SnocRedir(done, item);
    assert Redirs(done + [item])[..|Redirs(done)|] == Redirs(done);
  }

  lemma {:induction false} RedirsAreStage(items: seq<Item>)
    requires AllRedirs(items)
    ensures StageOnly(items) && Args(items) == []
    ensures items != [] <==> Redirs(items) != []
    ensures items != [] ==> items[0].Redir?
  {
    if items != [] {
      assert items[0] in items;
      RedirsAreStage(items[1..]);
    }
  }

  lemma {:induction false} SnocArg(done: seq<Item>, w: string)
    ensures Args(done + [Arg(w)]) == Args(done) + [w]
    ensures Redirs(done + [Arg(w)]) == Redirs(done)
  {
    ArgsConcat(done, [Arg(w)]);
    assert Args([Arg(w)]) == [w] && Redirs([Arg(w)]) == [];
    assert Redirs(done) + [] == Redirs(done);
  }

  /** What the argument loop has made of the items `done`: their words lie in the cells at `cmde`, which
      were `init`, and `cmd` is `base`, which was there at its start, under their redirections. */
  ghost predicate Built(done: seq<Item>, base: Node, init: seq<Slot>, cmd: Node, cmde: nat, mem: Memory, argc: nat) {
    && StageOnly(done) && argc == |Args(done)|
    && cmde < |mem| && |init| == MAXARGS && Filled(mem[cmde], init, Args(done))
    && cmd == WrapNode(base, Redirs(done))
  }

  lemma {:induction false} BuiltWord(done: seq<Item>, base: Node, init: seq<Slot>, cmd: Node, cmde: nat, mem: Memory, argc: nat, w: string)
    requires Built(done, base, init, cmd, cmde, mem, argc) && argc < MAXARGS
    ensures Built(done + [Arg(w)], base, init, cmd, cmde, mem[cmde := mem[cmde][argc := Str(w)]], argc + 1)
  {
    SnocArg(done, w);
  }

  lemma {:induction false} BuiltRedirs(done: seq<Item>, base: Node, init: seq<Slot>, cmd: Node, cmde: nat, mem: Memory, argc: nat, more: seq<Item>)
    requires Built(done, base, init, cmd, cmde, mem, argc) && AllRedirs(more)
    ensures Built(done + more, base, init, WrapNode(cmd, Redirs(more)), cmde, mem, argc)
  {
    RedirsAreStage(more);
    ArgsConcat(done, more);
    assert Args(done) + [] == Args(done);
    WrapNodeConcat(base, Redirs(done), Redirs(more));
  }

  /** The node of a stage as meant: the words lie in the exec node under all redirections. */
  lemma {:induction false} MeantStage(lead: seq<Item>, done: seq<Item>, cmd: Node, exec: nat, mem: Memory)
    requires AllRedirs(lead) && exec < |mem| && Strings(mem[exec]) == Args(done)
    requires cmd == WrapNode(WrapNode(ExecNode(exec), Redirs(lead)), Redirs(done))
    ensures Allocated(cmd, mem) && ModesMatch(cmd) && Written(cmd) == exec
    ensures Tree(cmd, mem) == Some(Wrap(Exec(Args(lead + done)), Redirs(lead + done)))
  {
    RedirsAreStage(lead);
    ArgsConcat(lead, done);
    assert [] + Args(done) == Args(done);
    TreeOfWrap(ExecNode(exec), Redirs(lead), mem);
    TreeOfWrap(WrapNode(ExecNode(exec), Redirs(lead)), Redirs(done), mem);
    WrapConcat(Exec(Args(done)), Redirs(lead), Redirs(done));
  }

  /** The node of a stage as written, when it begins with a redirection: the words, or the null behind
      none, lie over the fields of the last leading redirect node, and lead to no tree. */
  lemma {:induction false} MistakenStage(lead: seq<Item>, done: seq<Item>, cmd: Node, exec: nat, cmde: nat, mem: Memory)
    requires exec < |mem| && cmde < |mem| && mem[cmde] != [] && !mem[cmde][0].AsCreated?
    requires cmd == WrapNode(Mistaken(cmde, WrapNode(ExecNode(exec), Redirs(lead))), Redirs(done))
    ensures Allocated(cmd, mem) && ModesMatch(cmd) && Written(cmd) == cmde
    ensures Tree(cmd, mem) == None
  {
    TreeOfWrap(ExecNode(exec), Redirs(lead), mem);
    TreeOfWrap(Mistaken(cmde, WrapNode(ExecNode(exec), Redirs(lead))), Redirs(done), mem);
  }

  /** What one stage leaves: as meant, a node for its tree with the words in argv; as written, the same unless the
      stage begins with a redirection, when the words lie where the fields of a redirect node were. */
  ghost predicate StandsFor(n: Node, mem: Memory, asMeant: bool, done: seq<Item>) {
    && Allocated(n, mem) && ModesMatch(n)
    && Written(n) < |mem| && Strings(mem[Written(n)]) == Args(done) && |Args(done)| < MAXARGS
    && Tree(n, mem) == if asMeant || !Leads(done) then Some(Wrap(Exec(Args(done)), Redirs(done))) else None
  }

  /** The node of a stage in either form. */
  lemma {:induction false} StageNode(asMeant: bool, lead: seq<Item>, done: seq<Item>, base: Node, cmd: Node, exec: nat, cmde: nat, mem: Memory)
    requires AllRedirs(lead) && StageOnly(done) && !Leads(done) && exec < |mem| && cmde < |mem|
    requires Strings(mem[cmde]) == Args(done) && |Args(done)| < MAXARGS && mem[cmde] != [] && !mem[cmde][0].AsCreated?
    requires var node := WrapNode(ExecNode(exec), Redirs(lead));
      if asMeant || node.ExecNode? then base == node && cmde == exec else base == Mistaken(cmde, node)
    requires cmd == WrapNode(base, Redirs(done))
    ensures StandsFor(cmd, mem, asMeant, lead + done)
  {
    RedirsAreStage(lead);
    ArgsConcat(lead, done);
    assert [] + Args(done) == Args(done);
    if lead == [] {
      assert lead + done == done;
    } else {
      assert Leads(lead + done);
    }
    if asMeant || lead == [] {
      MeantStage(lead, done, cmd, exec, mem);
    } else {
      MistakenStage(lead, done, cmd, exec, cmde, mem);
    }
  }

  /** Items that are only redirections, in front of a stage. */
  lemma {:induction false} LeadingItems(lead: seq<Item>, done: seq<Item>, all: seq<Item>)
    requires AllRedirs(lead) && StageOnly(done)
    ensures StageOnly(lead + done) && Args(lead + done) == Args(done)
    ensures forall error :: StageFails(all, done, error) ==> StageFails(lead + all, lead + done, error)
  {
    RedirsAreStage(lead);
    ArgsConcat(lead, done);
    assert [] + Args(done) == Args(done);
    ConcatAssoc(lead, done, [Dangling]);
  }

  /** The two ways in which a stage makes the parser exit. */
  ghost predicate StageFails(all: seq<Item>, done: seq<Item>, error: ParseError) {
    match error
    case TooManyArgs => done <= all && |Args(done)| >= MAXARGS
    case NoRedirectArg => all == done + [Dangling] && |Args(done)| < MAXARGS
    case _ => false
  }

  lemma {:induction false} FailingStage(all: seq<Item>, done: seq<Item>, error: ParseError)
    requires StageOnly(done) && StageFails(all, done, error)
    ensures Meaning(all) == Err(error)
  {
    assert Separator !in done && Dangling !in done;
    var rest := all[|done|..];
    assert all == done + rest;
    FirstLengthOfConcat(done, rest);
    if error == TooManyArgs {
      var more := rest[..FirstLength(rest)];
      assert all[..FirstLength(all)] == done + more;
      ArgsConcat(done, more);
    } else {
      assert rest == [Dangling];
      assert all[..FirstLength(all)] == all;
      ArgsConcat(done, [Dangling]);
      assert Args([Dangling]) == [];
    }
  }

  /** A stage that parses, followed by the end or by a pipe. */
  lemma {:induction false} StageMeaning(done: seq<Item>, rest: seq<Item>)
    requires StageOnly(done) && |Args(done)| < MAXARGS
    requires rest != [] ==> rest[0] == Separator
    ensures var left := Wrap(Exec(Args(done)), Redirs(done));
      Meaning(done + rest) ==
        if rest == [] then Ok(left)
        else match Meaning(rest[1..]) case Err(e) => Err(e) case Ok(right) => Ok(Pipe(left, right))
    ensures LeadingRedirect(done + rest) <==>
      Leads(done) || (rest != [] && LeadingRedirect(rest[1..]))
  {
    assert Separator !in done && Dangling !in done;
    MeaningOfConcat(done, rest);
    FirstLengthOfConcat(done, rest);
    if rest == [] {
      assert done + rest == done;
      assert Segments(done) == [done];
    } else {
      assert (done + rest)[..|done|] == done;
      assert (done + rest)[|done| + 1..] == rest[1..];
      assert Segments(done + rest) == [done] + Segments(rest[1..]);
    }
    assert LeadingRedirect(done + rest) <==>
      Leads(done) || (rest != [] && LeadingRedirect(rest[1..])) by {
      assert done in Segments(done + rest);
      if rest != [] {
        assert forall s: seq<Item> | s in Segments(done + rest) :: s == done || s in Segments(rest[1..]);
        assert forall s: seq<Item> | s in Segments(rest[1..]) :: s in Segments(done + rest);
      }
    }
  }

  class Parser {
    const line: string
    /** The parser as meant; otherwise it is the one that is written, with the node that line 167 of shell.c picks. */
    const asMeant: bool
    var pos: nat
    var vectors: Memory
    /** The slices handed out so far. */
    ghost var slices: seq<(nat, nat)>

    ghost predicate Valid()
      reads this
    {
      && NulFree(line) && pos <= |line|
      && slices + Spans(line[pos..], pos) == Spans(line, 0)
    }

    /** The tokens that are left. */
    ghost function Left(): seq<Token>
      reads this
      requires pos <= |line|
    {
      Tokens(line[pos..])
    }

    constructor (line: string, asMeant: bool)
      requires NulFree(line)
      ensures vectors == []
      ensures Valid() && this.line == line && this.asMeant == asMeant && pos == 0 && Left() == Tokens(line)
      ensures slices == []
    {
      this.line, this.asMeant := line, asMeant;
      pos, vectors, slices := 0, [], [];
      new;
      assert line[0..] == line;
    }

    /** `*ptr`, with the NUL that ends the string. */
    function CharAt(i: nat): char {
      if i < |line| then line[i] else '\0'
    }

    method SkipSpaces(from: nat) returns (p: nat)
      requires from <= |line|
      ensures from <= p <= |line|
      ensures Trim(line[from..]) == line[p..]
      ensures Tokens(line[from..]) == Tokens(line[p..]) && Spans(line[from..], from) == Spans(line[p..], p)
    {
      p := from;
      while p < |line| && IsSpace(line[p])
        invariant from <= p <= |line|
        invariant Trim(line[from..]) == Trim(line[p..])
        invariant Tokens(line[from..]) == Tokens(line[p..]) && Spans(line[from..], from) == Spans(line[p..], p)
      {
        SkipSpace(line, p);
        p := p + 1;
      }
    }

    /** Moves the cursor over whitespace and tests the character under it. */
    method Peek(toks: string) returns (hit: bool)
      requires Valid()
      modifies `pos
      ensures Valid() && old(pos) <= pos && Left() == old(Left())
      ensures toks == "" ==> !hit
      ensures toks == "|" ==> (hit <==> Left() != [] && Left()[0].Bar?)
      ensures toks == "<>" ==> (hit <==> Left() != [] && Left()[0].IsRedirect())
      ensures Left() == [] ==> pos == |line|
    {
      var s := SkipSpaces(pos);
      pos := s;
      hit := CharAt(pos) != '\0' && CharAt(pos) in toks;
      assert Trim(line[pos..]) == line[pos..];
      if pos < |line| {
        assert line[pos] == line[pos..][0];
        assert Left()[0] == FirstToken(line[pos..]);
      }
    }

    /** Classifies the token that starts at `ptr` and finds its end. */
    method ScanToken(ptr: nat) returns (tok: TokenType, end: nat)
      requires NulFree(line) && ptr <= |line|
      requires ptr < |line| ==> !IsSpace(line[ptr..][0])
      ensures ptr == |line| ==> tok == TokenInvalid && end == ptr
      ensures ptr < |line| ==> tok == TypeOf(FirstToken(line[ptr..])) && end == ptr + TokenLength(line[ptr..])
    {
      tok := TokenInvalid;
      end := ptr;
      var c := CharAt(ptr);
      assert ptr < |line| ==> c == line[ptr..][0] && c in line;
      if c == '\0' {
      } else if c == '|' {
        tok := TokenPipe;
        end := end + 1;
      } else if c == '<' {
        tok := TokenInput;
        end := end + 1;
      } else if c == '>' {
        tok := TokenOutput;
        end := end + 1;
      } else {
        tok := TokenLetter;
        while end < |line| && !IsSpace(line[end]) && !IsSymbol(line[end])
          invariant ptr <= end <= |line|
          invariant Letters(line[ptr..]) == end - ptr + Letters(line[end..])
        {
          SkipLetter(line, end);
          end := end + 1;
        }
      }
    }

    /** From `from`: skips whitespace, scans one token, skips whitespace. */
    method NextToken(from: nat) returns (tok: TokenType, start: nat, end: nat, next: nat)
      requires NulFree(line) && from <= |line|
      ensures from <= start <= end <= next <= |line|
      ensures Tokens(line[from..]) == [] ==>
        tok == TokenInvalid && Tokens(line[next..]) == [] && Spans(line[next..], next) == Spans(line[from..], from)
      ensures Tokens(line[from..]) != [] ==>
        && tok == TypeOf(Tokens(line[from..])[0])
        && start < end && line[start..end] == Tokens(line[from..])[0].Text()
        && Tokens(line[from..]) == [Tokens(line[from..])[0]] + Tokens(line[next..])
        && Spans(line[from..], from) == [(start, end)] + Spans(line[next..], next)
    {
      start := SkipSpaces(from);
      tok, end := ScanToken(start);
      if start < |line| {
        TakeSlice(line, start, end);
      }
      next := SkipSpaces(end);
    }

    /** Takes one token; the slice `line[start..end]` spells it. */
    method GetToken() returns (tok: TokenType, start: nat, end: nat)
      requires Valid()
      modifies `pos, `slices
      ensures Valid() && old(pos) <= pos
      ensures old(Left()) == [] ==> tok == TokenInvalid && Left() == [] && slices == old(slices)
      ensures old(Left()) != [] ==>
        && tok == TypeOf(old(Left())[0])
        && start < end <= |line| && line[start..end] == old(Left())[0].Text()
        && Left() == old(Left())[1..]
        && old(pos) < pos
        && slices == old(slices) + [(start, end)]
    {
      var next: nat;
      tok, start, end, next := NextToken(pos);
      if Left() != [] {
        slices := slices + [(start, end)];
      }
      pos := next;
    }

    /** Takes a redirect operator and its target. */
    method GetRedirect() returns (ok: bool, tok: TokenType, text: string)
      requires Valid() && Left() != [] && Left()[0].IsRedirect()
      modifies `pos, `slices
      ensures Valid() && old(pos) < pos
      ensures ok ==> tok == TokenInput || tok == TokenOutput
      ensures ok ==> Items(old(Left())) == [Redir(Redirection(text, tok == TokenInput))] + Items(Left())
      ensures !ok ==> Items(old(Left())) == [Dangling]
    {
      ghost var ts := Left();
      var target, start, end;
      tok, start, end := GetToken();
      target, start, end := GetToken();
      ok, text := target != TokenInvalid, "";
      if ok {
        text := line[start..end];
        assert ts[1..][1..] == ts[2..];
        ItemsAfterPair(ts);
      } else {
        assert ts == [ts[0]];
      }
    }

    /** Takes the word of one turn of the argument loop, or finds the end of the line. */
    method GetWord() returns (w: string, eof: bool)
      requires Valid()
      requires Left() != [] ==> Left()[0].Word?
      modifies `pos, `slices
      ensures Valid() && old(pos) <= pos
      ensures eof ==> old(Left()) == [] && Left() == []
      ensures !eof ==> old(pos) < pos && Items(old(Left())) == [Arg(w)] + Items(Left())
    {
      var tok, start, end := GetToken();
      eof, w := tok == TokenInvalid, "";
      if !eof {
        assert tok == TokenLetter; // "syntax error" is never printed
        w := line[start..end];
      }
    }

    /** Consumes redirections and wraps them around `cmd`. */
    method ParseRedirects(cmd: Node) returns (r: Outcome, ghost done: seq<Item>)
      requires Valid()
      modifies `pos, `slices
      ensures Valid() && old(pos) <= pos
      ensures AllRedirs(done)
      ensures r.Parsed? ==> r.node == WrapNode(cmd, Redirs(done))
      ensures r.Parsed? ==> Items(old(Left())) == done + Items(Left())
      ensures r.Parsed? ==> Left() == [] || !Left()[0].IsRedirect()
      ensures r.Exit? ==> r.error == NoRedirectArg && Items(old(Left())) == done + [Dangling]
    {
      var node := cmd;
      ghost var all := Items(Left());
      done := [];
      var more := Peek("<>");
      while more
        invariant Valid() && old(pos) <= pos
        invariant more <==> Left() != [] && Left()[0].IsRedirect()
        invariant AllRedirs(done) && node == WrapNode(cmd, Redirs(done))
        invariant all == done + Items(Left())
        decreases |line| - pos
      {
        var ok, tok, text := GetRedirect();
        if !ok {
          return Exit(NoRedirectArg), done;
        }
        match tok {
          case TokenInput => node := CreateRedirect(node, text, TokenInput);
          case TokenOutput => node := CreateRedirect(node, text, TokenOutput);
          case _ => assert false; // "Unknown tok type" is never printed
        }
        ghost var item := Redir(Redirection(text, tok == TokenInput));
        RedirectTurn(cmd, done, item, node);
        ConcatAssoc(done, [item], Items(Left()));
        done := done + [item];
        more := Peek("<>");
      }
      r := Parsed(node);
    }

    /** Stores a word that was just taken, and takes the redirections after it. */
    method AddArgument(w: string, ghost base: Node, ghost init: seq<Slot>, cmd: Node, cmde: nat, argc: nat, ghost done: seq<Item>)
      returns (r: Outcome, ghost done': seq<Item>)
      requires Valid() && Built(done, base, init, cmd, cmde, vectors, argc) && argc < MAXARGS
      modifies `pos, `slices, `vectors
      ensures Valid() && old(pos) <= pos
      ensures |vectors| == old(|vectors|) && vectors[..cmde] == old(vectors[..cmde])
      ensures done + [Arg(w)] <= done' && StageOnly(done')
      ensures r.Parsed? ==>
        && Built(done', base, init, r.node, cmde, vectors, argc + 1) && argc + 1 < MAXARGS
        && done + ([Arg(w)] + Items(old(Left()))) == done' + Items(Left())
        && (Left() == [] || !Left()[0].IsRedirect())
      ensures r.Exit? ==> StageFails(done + ([Arg(w)] + Items(old(Left()))), done', r.error)
    {
      ConcatAssoc(done, [Arg(w)], Items(Left()));
      BuiltWord(done, base, init, cmd, cmde, vectors, argc, w);
      vectors := vectors[cmde := vectors[cmde][argc := Str(w)]];
      done' := done + [Arg(w)];
      if argc + 1 >= MAXARGS {
        return Exit(TooManyArgs), done';
      }
      ghost var more;
      r, more := ParseRedirects(cmd);
      BuiltRedirs(done', base, init, cmd, cmde, vectors, argc + 1, more);
      ConcatAssoc(done', more, if r.Exit? then [Dangling] else Items(Left()));
      done' := done' + more;
    }

    /** One turn of the argument loop. */
    method ParseArgument(ghost base: Node, ghost init: seq<Slot>, cmd: Node, cmde: nat, argc: nat, ghost all: seq<Item>, ghost done: seq<Item>)
      returns (eof: bool, r: Outcome, ghost done': seq<Item>)
      requires Valid() && Built(done, base, init, cmd, cmde, vectors, argc) && argc < MAXARGS
      requires all == done + Items(Left()) && (Left() != [] ==> Left()[0].Word?)
      modifies `pos, `slices, `vectors
      ensures Valid() && old(pos) <= pos
      ensures |vectors| == old(|vectors|) && vectors[..cmde] == old(vectors[..cmde])
      ensures eof ==> Left() == [] && vectors == old(vectors) && r == Parsed(cmd) && done' == done == all
      ensures !eof ==> old(pos) < pos && StageOnly(done') && |done'| > |done| && done <= done' && done'[|done|].Arg?
      ensures !eof && r.Parsed? ==>
        && Built(done', base, init, r.node, cmde, vectors, argc + 1) && argc + 1 < MAXARGS
        && all == done' + Items(Left())
        && (Left() == [] || !Left()[0].IsRedirect())
      ensures !eof && r.Exit? ==> StageFails(all, done', r.error)
    {
      var w;
      w, eof := GetWord();
      r, done' := Parsed(cmd), done;
      if !eof {
        r, done' := AddArgument(w, base, init, cmd, cmde, argc, done);
      }
    }

    /** The argument loop, and the null that ends the vector. */
    method ParseArguments(base: Node, cmde: nat)
      returns (r: Outcome, ghost done: seq<Item>)
      requires Valid() && |vectors| == cmde + 1 && |vectors[cmde]| == MAXARGS
      requires Left() == [] || !Left()[0].IsRedirect()
      modifies `pos, `slices, `vectors
      ensures Valid() && old(pos) <= pos
      ensures |vectors| == cmde + 1 && vectors[..cmde] == old(vectors[..cmde])
      ensures StageOnly(done) && !Leads(done)
      ensures r.Parsed? ==>
        && Items(old(Left())) == done + Items(Left())
        && (Left() == [] || Left()[0].Bar?)
        && r.node == WrapNode(base, Redirs(done)) && |Args(done)| < MAXARGS
        && Strings(vectors[cmde]) == Args(done)
        && vectors[cmde] != [] && !vectors[cmde][0].AsCreated?
      ensures r.Exit? ==> StageFails(Items(old(Left())), done, r.error)
    {
      ghost var all, init := Items(Left()), vectors[cmde];
      var argc := 0;
      r, done := Parsed(base), [];
      assert [] + all == all;
      var bar := Peek("|");
      while !bar
        invariant Valid() && old(pos) <= pos
        invariant |vectors| == cmde + 1 && vectors[..cmde] == old(vectors[..cmde])
        invariant !Leads(done)
        invariant all == done + Items(Left())
        invariant Left() == [] || !Left()[0].IsRedirect()
        invariant bar <==> Left() != [] && Left()[0].Bar?
        invariant r.Parsed? && Built(done, base, init, r.node, cmde, vectors, argc) && argc < MAXARGS
        decreases |line| - pos
      {
        var eof;
        eof, r, done := ParseArgument(base, init, r.node, cmde, argc, all, done);
        if eof {
          break;
        }
        if r.Exit? {
          return;
        }
        argc := argc + 1;
        bar := Peek("|");
      }
      StringsOfFilled(vectors[cmde], init, Args(done));
      vectors := vectors[cmde := vectors[cmde][argc := Null]];
    }

    /** The node that parse_exec writes to, and its cells: as meant, the exec node; as written, what the first
        parse_redirects returns, which is a redirect node when it is not the exec node. */
    method PickNode(node: Node, exec: nat) returns (base: Node, cmde: nat)
      requires |vectors| == exec + 1 && |vectors[exec]| == MAXARGS
      modifies `vectors
      ensures old(vectors) <= vectors && |vectors| == cmde + 1 && |vectors[cmde]| == MAXARGS && exec <= cmde
      ensures if asMeant || node.ExecNode? then base == node && cmde == exec
              else base == Mistaken(cmde, node) && cmde == exec + 1
    {
      base, cmde := node, exec;
      if !asMeant && !node.ExecNode? {
        cmde := |vectors|;
        vectors := vectors + [seq(MAXARGS, _ => AsCreated)];
        base := Mistaken(cmde, node);
      }
    }

    /** What follows the leading redirections of a stage. */
    method ParseRest(node: Node, exec: nat, ghost lead: seq<Item>) returns (r: Outcome, ghost done: seq<Item>)
      requires Valid() && |vectors| == exec + 1 && |vectors[exec]| == MAXARGS
      requires AllRedirs(lead) && node == WrapNode(ExecNode(exec), Redirs(lead))
      requires Left() == [] || !Left()[0].IsRedirect()
      modifies `pos, `slices, `vectors
      ensures Valid() && old(pos) <= pos && |vectors| > exec && vectors[..exec] == old(vectors[..exec])
      ensures StageOnly(done)
      ensures r.Parsed? ==>
        && Items(old(Left())) == done + Items(Left())
        && (Left() == [] || Left()[0].Bar?)
        && StandsFor(r.node, vectors, asMeant, lead + done)
      ensures r.Exit? ==> StageFails(Items(old(Left())), done, r.error)
    {
      RedirsAreStage(lead);
      var base, cmde := PickNode(node, exec);
      ghost var before := vectors;
      r, done := ParseArguments(base, cmde);
      assert vectors[..exec] == vectors[..cmde][..exec] == before[..cmde][..exec];
      if r.Parsed? {
        StageNode(asMeant, lead, done, base, r.node, exec, cmde, vectors);
      }
    }

    /** One stage: words go into the cells of the node that is picked, redirections wrap it. */
    method ParseExec() returns (r: Outcome, ghost done: seq<Item>)
      requires Valid()
      modifies `pos, `slices, `vectors
      ensures Valid() && old(pos) <= pos && old(vectors) <= vectors
      ensures StageOnly(done)
      ensures r.Parsed? ==>
        && Items(old(Left())) == done + Items(Left())
        && (Left() == [] || Left()[0].Bar?)
        && StandsFor(r.node, vectors, asMeant, done)
      ensures r.Exit? ==> StageFails(Items(old(Left())), done, r.error)
    {
      var exec := |vectors|;
      vectors := vectors + [seq(MAXARGS, _ => Null)];
      ghost var lead;
      r, lead := ParseRedirects(ExecNode(exec));
      done := lead;
      RedirsAreStage(lead);
      if r.Exit? {
        return;
      }
      ghost var rest := Items(Left());
      ghost var tail;
      r, tail := ParseRest(r.node, exec, lead);
      done := lead + tail;
      LeadingItems(lead, tail, rest);
      ConcatAssoc(lead, tail, Items(Left()));
    }

    /** A pipeline: the rest after a pipe becomes the right operand. */
    method ParsePipe() returns (r: Outcome)
      requires Valid()
      modifies `pos, `slices, `vectors
      ensures Valid() && old(pos) <= pos && old(vectors) <= vectors
      ensures r.Parsed? ==>
        && Meaning(Items(old(Left()))).Ok? && Allocated(r.node, vectors)
        && Tree(r.node, vectors) ==
             (if asMeant || !LeadingRedirect(Items(old(Left()))) then Some(Meaning(Items(old(Left()))).command) else None)
        && Left() == [] && ModesMatch(r.node)
      ensures r.Exit? ==> Meaning(Items(old(Left()))) == Err(r.error)
      decreases |line| - pos
    {
      ghost var all := Items(Left());
      ghost var done;
      r, done := ParseExec();
      if r.Exit? {
        FailingStage(all, done, r.error);
        return;
      }
      ghost var rest := Items(Left());
      StageMeaning(done, rest);
      var bar := Peek("|");
      if bar {
        ItemsAfterBar(Left());
        var left := r.node;
        ghost var mem := vectors;
        var _, _, _ := GetToken();
        r := ParsePipe();
        TreeIsStable(left, mem, vectors);
        if r.Parsed? {
          r := Parsed(PipeNode(left, r.node));
        }
      }
    }
  }

  /** Parses a whole line. As meant, the tree is what the line denotes. As written, the nodes stand for that
      tree exactly when no stage of the line begins with a redirection, and for none otherwise;
      which lines are rejected, and why, is the same. */
  method ParseCommand(line: string, asMeant: bool) returns (r: Outcome, memory: Memory, ghost slices: seq<(nat, nat)>)
    requires NulFree(line)
    ensures r.Parsed? ==> Parse(line).Ok? && Allocated(r.node, memory) && ModesMatch(r.node)
    ensures r.Parsed? && asMeant ==> Tree(r.node, memory) == Some(Parse(line).command)
    ensures r.Parsed? && !asMeant ==>
      && (Tree(r.node, memory) == Some(Parse(line).command) <==> !LeadingRedirect(Items(Tokens(line))))
      && (Tree(r.node, memory) == None <==> LeadingRedirect(Items(Tokens(line))))
    ensures r.Parsed? ==> slices == Spans(line, 0)
    ensures r.Exit? ==> Parse(line) == Err(r.error)
    ensures r.Parsed? <==> FiveWordsAtMost(line) && Trailing(Tokens(line)) % 2 == 0
    ensures r.Exit? ==> r.error == if FiveWordsAtMost(line) then NoRedirectArg else TooManyArgs
  {
    LineAcceptance(line);
    var p := new Parser(line, asMeant);
    r := p.ParsePipe();
    memory, slices := p.vectors, p.slices;
    if r.Parsed? {
      var _ := p.Peek("");
      assert p.pos == |line|; // "Symbols remained" is never printed
    }
  }

  lemma {:induction false} InputFirstTokens(line: string)
    requires line == "<" + " " + ("in" + " " + ("cat" + " " + ""))
    ensures Tokens(line) == [Less, Word("in"), Word("cat")]
  {
    var ts := [Less, Word("in"), Word("cat")];
    assert ts[1..] == [Word("in"), Word("cat")];
    assert [Word("in"), Word("cat")][1..] == [Word("cat")] && [Word("cat")][1..] == [];
    assert Render([Word("cat")]) == "cat" + " " + "";
    assert Render([Word("in"), Word("cat")]) == "in" + " " + Render([Word("cat")]);
    assert Render(ts) == line;
    TokensOfRender(ts);
  }

  /** A line on which the two differ: `< in cat`. It parses, and its one stage begins with a redirection. */
  lemma {:induction false} InputFirst(line: string)
    requires line == "<" + " " + ("in" + " " + ("cat" + " " + ""))
    ensures Parse(line) == Ok(Redirect(Exec(["cat"]), "in", true)) && LeadingRedirect(Items(Tokens(line)))
  {
    InputFirstTokens(line);
    var ts, r := [Less, Word("in"), Word("cat")], Redirection("in", true);
    assert ts[2..] == [Word("cat")];
    assert Items([Word("cat")]) == [Arg("cat")];
    ItemsAfterPair(ts);
    var items := [Redir(r), Arg("cat")];
    assert Items(ts) == items;
    assert items[1..] == [Arg("cat")] && items[1..][1..] == [];
    assert Args([Arg("cat")]) == ["cat"] && Redirs([Arg("cat")]) == [];
    assert Args(items) == ["cat"] && Redirs(items) == [r] + Redirs([Arg("cat")]);
    StageMeaning(items, []);
    assert items + [] == items;
    assert [r][..0] == [];
  }
}
