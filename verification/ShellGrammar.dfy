/** The shell's language on token lists: what tree a line denotes, which lines are rejected and why,
    and a printer that inverts the parser. No cursor and no recursive descent here: a token list is
    grouped into items, the items are cut at the pipes, and each piece denotes one stage. */
module ShellGrammar {
  import opened ShellTokens

  const MAXARGS: nat := 6

  datatype Command =
    | Exec(argv: seq<string>)
    | Pipe(left: Command, right: Command)
    | Redirect(cmd: Command, file: string, input: bool)

  /** The ways in which the parser can exit, one for each message that it prints. */
  datatype ParseError = NoRedirectArg | TooManyArgs | SyntaxError | UnknownToken | SymbolsRemained

  datatype Result = Ok(command: Command) | Err(error: ParseError)

  datatype Redirection = Redirection(file: string, input: bool)

  datatype Item = Arg(word: string) | Redir(target: Redirection) | Separator | Dangling

  /** Groups tokens: a redirect operator takes the next token, whatever it is, as its target. */
  function Items(ts: seq<Token>): seq<Item>
  {
    if ts == [] then []
    else match ts[0]
      case Word(text) => [Arg(text)] + Items(ts[1..])
      case Bar => [Separator] + Items(ts[1..])
      case _ =>
        if |ts| == 1 then [Dangling]
        else [Redir(Redirection(ts[1].Text(), ts[0].Less?))] + Items(ts[2..])
  }

  function Args(items: seq<Item>): seq<string> {
    if items == [] then []
    else (if items[0].Arg? then [items[0].word] else []) + Args(items[1..])
  }

  function Redirs(items: seq<Item>): seq<Redirection> {
    if items == [] then []
    else (if items[0].Redir? then [items[0].target] else []) + Redirs(items[1..])
  }

  /** Redirections wrap a command in the order in which they are written, the last one outermost. */
  function Wrap(c: Command, rs: seq<Redirection>): Command {
    if rs == [] then c
    else var last := rs[|rs| - 1]; Redirect(Wrap(c, rs[..|rs| - 1]), last.file, last.input)
  }

  /** What one stage of a pipeline denotes: its words in order, under its redirections in order,
      however the two are interleaved. */
  function Stage(segment: seq<Item>): Result {
    if |Args(segment)| >= MAXARGS then Err(TooManyArgs)
    else if Dangling in segment then Err(NoRedirectArg)
    else Ok(Wrap(Exec(Args(segment)), Redirs(segment)))
  }

  /** The number of items before the first pipe. */
  function FirstLength(items: seq<Item>): (n: nat)
    ensures n <= |items|
    ensures Separator !in items[..n]
    ensures n < |items| ==> items[n] == Separator
  {
    if items == [] || items[0] == Separator then 0 else 1 + FirstLength(items[1..])
  }

  /** The tree that an item list denotes: its stages nested to the right. */
  function Meaning(items: seq<Item>): Result
    decreases |items|
  {
    var n := FirstLength(items);
    match Stage(items[..n])
    case Err(e) => Err(e)
    case Ok(left) =>
      if n == |items| then Ok(left)
      else match Meaning(items[n + 1..])
        case Err(e) => Err(e)
        case Ok(right) => Ok(Pipe(left, right))
  }

  function Parse(line: string): Result { Meaning(Items(Tokens(line))) }

  // ---- Exact acceptance -----------------------------------------------------------------------

  /** The items between the pipes. */
  function Segments(items: seq<Item>): seq<seq<Item>>
    decreases |items|
  {
    var n := FirstLength(items);
    if n == |items| then [items] else [items[..n]] + Segments(items[n + 1..])
  }

  ghost predicate Fits(items: seq<Item>) {
    forall segment | segment in Segments(items) :: |Args(segment)| < MAXARGS
  }

  /** The segments with a pipe between each two of them. */
  function Joined(segments: seq<seq<Item>>): seq<Item> {
    if segments == [] then []
    else if |segments| == 1 then segments[0]
    else segments[0] + [Separator] + Joined(segments[1..])
  }

  /** They are the pieces that the pipes cut the line into. */
  lemma {:induction false} SegmentsJoin(items: seq<Item>)
    ensures Segments(items) != [] && Joined(Segments(items)) == items
    ensures forall segment | segment in Segments(items) :: Separator !in segment
    decreases |items|
  {
    var n := FirstLength(items);
    if n == |items| {
      assert items[..n] == items;
    } else {
      SegmentsJoin(items[n + 1..]);
      assert items == items[..n] + [Separator] + items[n + 1..];
      assert Segments(items)[1..] == Segments(items[n + 1..]);
    }
  }

  /** The tokens that an item was made from; of an operator without a target, none. */
  function Spell(items: seq<Item>): seq<Token> {
    if items == [] then []
    else
      (match items[0]
       case Arg(word) => [Word(word)]
       case Redir(r) => [if r.input then Less else Greater, TokenOf(r.file)]
       case Separator => [Bar]
       case Dangling => [])
      + Spell(items[1..])
  }

  /** The length of the run of redirect operators that ends the list. */
  function Trailing(ts: seq<Token>): nat {
    if ts == [] || !ts[|ts| - 1].IsRedirect() then 0 else 1 + Trailing(ts[..|ts| - 1])
  }

  lemma {:induction false} TrailingCons(t: Token, rest: seq<Token>)
    ensures Trailing([t] + rest) == Trailing(rest) + if t.IsRedirect() && Trailing(rest) == |rest| then 1 else 0
    ensures Trailing(rest) <= |rest|
  {
    if rest != [] {
      var init, last := rest[..|rest| - 1], rest[|rest| - 1];
      TrailingCons(t, init);
      assert ([t] + rest)[..|rest|] == [t] + init;
    } else {
      assert ([t] + rest)[..0] == [];
    }
  }

  /** An operator lacks its target exactly when an odd number of operators ends the line: of an even one each
      second is the target of the one before it. */
  lemma {:induction false} DanglingIff(ts: seq<Token>)
    ensures Dangling in Items(ts) <==> Trailing(ts) % 2 == 1
  {
    if ts != [] {
      assert ts == [ts[0]] + ts[1..];
      TrailingCons(ts[0], ts[1..]);
      if !ts[0].IsRedirect() {
        DanglingIff(ts[1..]);
      } else if |ts| > 1 {
        assert ts[1..] == [ts[1]] + ts[2..];
        TrailingCons(ts[1], ts[2..]);
        DanglingIff(ts[2..]);
      }
    }
  }

  /** Grouping loses, adds and moves no token: the items spell the line, but for an operator at its end that
      lacks its target. */
  lemma {:induction false} ItemsSpell(ts: seq<Token>)
    requires ValidTokens(ts)
    ensures Spell(Items(ts)) == if Dangling in Items(ts) then ts[..|ts| - 1] else ts
  {
    if ts != [] {
      var items := Items(ts);
      var k := if ts[0].IsRedirect() then 2 else 1;
      if k <= |ts| {
        ItemsSpell(ts[k..]);
        assert items[1..] == Items(ts[k..]);
        assert ts == ts[..k] + ts[k..];
        if Dangling in items {
          DanglingIff(ts[k..]);
          assert ts[k..] != [];
          assert ts[..|ts| - 1] == ts[..k] + ts[k..][..|ts| - k - 1];
        }
        SpellHead(ts, k);
      } else {
        assert items == [Dangling] && items[1..] == [];
      }
    }
  }

  lemma {:induction false} SpellHead(ts: seq<Token>, k: nat)
    requires ValidTokens(ts) && ts != [] && k == (if ts[0].IsRedirect() then 2 else 1) <= |ts|
    ensures Spell(Items(ts)) == ts[..k] + Spell(Items(ts[k..]))
  {
    assert Items(ts)[1..] == Items(ts[k..]);
    if k == 2 {
      assert ts[1] in ts;
      TokenOfText(ts[1]);
    }
  }

  lemma TokenOfText(t: Token)
    requires t.Valid()
    ensures TokenOf(t.Text()) == t
  {
    if t.Word? && |t.text| == 1 {
      assert IsLetter(t.text[0]) by { assert t.text[0] in t.text; }
    }
  }

  lemma {:induction false} DanglingIsLast(ts: seq<Token>)
    ensures forall i | 0 <= i < |Items(ts)| - 1 :: Items(ts)[i] != Dangling
  {
    if ts != [] {
      if ts[0].IsRedirect() {
        if |ts| > 1 { DanglingIsLast(ts[2..]); }
      } else {
        DanglingIsLast(ts[1..]);
      }
    }
  }

  /** A line is rejected exactly when some stage has MAXARGS or more words or a redirect operator
      ends the line without a target; the first of these reasons wins when both hold. */
  lemma {:induction false} ExactAcceptance(items: seq<Item>)
    requires forall i | 0 <= i < |items| - 1 :: items[i] != Dangling
    ensures Meaning(items).Ok? <==> Fits(items) && Dangling !in items
    ensures Meaning(items) == Err(TooManyArgs) <==> !Fits(items)
    ensures Meaning(items) == Err(NoRedirectArg) <==> Fits(items) && Dangling in items
    decreases |items|
  {
    var n := FirstLength(items);
    if n == |items| {
      assert items[..n] == items;
      assert Segments(items) == [items];
      assert items in Segments(items);
    } else {
      var first, rest := items[..n], items[n + 1..];
      assert items == first + [Separator] + rest;
      ExactAcceptance(rest);
      assert Segments(items) == [first] + Segments(rest);
      assert Fits(items) <==> |Args(first)| < MAXARGS && Fits(rest) by {
        assert first in Segments(items);
        assert forall s | s in Segments(rest) :: s in Segments(items);
      }
      assert Dangling !in first;
    }
  }

  /** Every stage of the line has at most five words besides the targets of its redirections. */
  ghost predicate FiveWordsAtMost(line: string) {
    forall segment | segment in Segments(Items(Tokens(line))) :: |Args(segment)| <= 5
  }

  /** The same for lines: which are rejected, and why, by their tokens. The other three errors never occur. */
  lemma {:induction false} LineAcceptance(line: string)
    ensures Parse(line).Ok? <==> FiveWordsAtMost(line) && Trailing(Tokens(line)) % 2 == 0
    ensures Parse(line) == Err(TooManyArgs) <==> !FiveWordsAtMost(line)
    ensures Parse(line) == Err(NoRedirectArg) <==> FiveWordsAtMost(line) && Trailing(Tokens(line)) % 2 == 1
  {
    DanglingIsLast(Tokens(line));
    DanglingIff(Tokens(line));
    ExactAcceptance(Items(Tokens(line)));
    assert FiveWordsAtMost(line) <==> Fits(Items(Tokens(line)));
  }

  // ---- Concatenation --------------------------------------------------------------------------

  lemma {:induction false} ArgsConcat(a: seq<Item>, b: seq<Item>)
    ensures Args(a + b) == Args(a) + Args(b)
    ensures Redirs(a + b) == Redirs(a) + Redirs(b)
  {
    if a == [] {
      assert a + b == b;
    } else {
      assert (a + b)[1..] == a[1..] + b;
      ArgsConcat(a[1..], b);
    }
  }

  lemma {:induction false} WrapConcat(c: Command, a: seq<Redirection>, b: seq<Redirection>)
    ensures Wrap(c, a + b) == Wrap(Wrap(c, a), b)
  {
    if b == [] {
      assert a + b == a;
    } else {
      assert (a + b)[..|a + b| - 1] == a + b[..|b| - 1];
      WrapConcat(c, a, b[..|b| - 1]);
    }
  }

  lemma {:induction false} FirstLengthOfConcat(a: seq<Item>, b: seq<Item>)
    requires Separator !in a
    ensures FirstLength(a + b) == |a| + FirstLength(b)
  {
    if a == [] {
      assert a + b == b;
    } else {
      assert (a + b)[1..] == a[1..] + b;
      assert a[0] in a;
      FirstLengthOfConcat(a[1..], b);
    }
  }

  /** A stage followed by nothing or by a pipe and more. */
  lemma MeaningOfConcat(a: seq<Item>, b: seq<Item>)
    requires Separator !in a
    requires b != [] ==> b[0] == Separator
    ensures Stage(a).Err? ==> Meaning(a + b) == Err(Stage(a).error)
    ensures Stage(a).Ok? && b == [] ==> Meaning(a + b) == Stage(a)
    ensures Stage(a).Ok? && b != [] ==>
      Meaning(a + b) == match Meaning(b[1..]) case Err(e) => Err(e) case Ok(right) => Ok(Pipe(Stage(a).command, right))
  {
    FirstLengthOfConcat(a, b);
    assert (a + b)[..|a|] == a;
    if b != [] {
      assert (a + b)[|a| + 1..] == b[1..];
    }
  }

  // ---- Well-formed trees ----------------------------------------------------------------------

  predicate IsArgument(w: string) { Word(w).Valid() }

  /** The token spelled by `text`. */
  function TokenOf(text: string): (t: Token)
    ensures t.Text() == text
  {
    if text == "|" then Bar else if text == "<" then Less else if text == ">" then Greater else Word(text)
  }

  /** Redirections over one exec node, never over a pipe. */
  predicate IsStage(c: Command) {
    match c
    case Exec(argv) => |argv| < MAXARGS && forall w | w in argv :: IsArgument(w)
    case Redirect(cmd, file, _) => TokenOf(file).Valid() && IsStage(cmd)
    case Pipe(_, _) => false
  }

  /** Pipes nest to the right only. */
  predicate WellFormed(c: Command) {
    if c.Pipe? then IsStage(c.left) && WellFormed(c.right) else IsStage(c)
  }

  lemma {:induction false} WrapIsStage(c: Command, rs: seq<Redirection>)
    requires IsStage(c) && forall r | r in rs :: TokenOf(r.file).Valid()
    ensures IsStage(Wrap(c, rs))
  {
    if rs != [] {
      assert rs[|rs| - 1] in rs;
      WrapIsStage(c, rs[..|rs| - 1]);
    }
  }

  predicate ValidItem(i: Item) {
    match i
    case Arg(w) => IsArgument(w)
    case Redir(r) => TokenOf(r.file).Valid()
    case _ => true
  }

  lemma {:induction false} ItemsAreValid(ts: seq<Token>)
    requires ValidTokens(ts)
    ensures forall i | i in Items(ts) :: ValidItem(i)
  {
    if ts != [] {
      assert ts[0].Valid();
      if ts[0].IsRedirect() {
        if |ts| > 1 {
          assert ts[1] in ts;
          assert TokenOf(ts[1].Text()) == ts[1] by {
            if ts[1].Word? && |ts[1].text| == 1 { assert ts[1].text[0] in ts[1].text; }
          }
          ItemsAreValid(ts[2..]);
        }
      } else {
        ItemsAreValid(ts[1..]);
      }
    }
  }

  lemma {:induction false} PartsAreValid(items: seq<Item>)
    requires forall i | i in items :: ValidItem(i)
    ensures forall w | w in Args(items) :: IsArgument(w)
    ensures forall r | r in Redirs(items) :: TokenOf(r.file).Valid()
  {
    if items != [] {
      assert items[0] in items;
      PartsAreValid(items[1..]);
    }
  }

  lemma {:induction false} MeaningIsWellFormed(items: seq<Item>)
    requires forall i | i in items :: ValidItem(i)
    ensures Meaning(items).Ok? ==> WellFormed(Meaning(items).command)
    decreases |items|
  {
    var n := FirstLength(items);
    if Stage(items[..n]).Ok? {
      PartsAreValid(items[..n]);
      WrapIsStage(Exec(Args(items[..n])), Redirs(items[..n]));
      if n < |items| {
        MeaningIsWellFormed(items[n + 1..]);
      }
    }
  }

  /** Every tree that parsing yields has pipes nested to the right, redirections over execs only,
      and at most five words in a stage, each non-empty and free of whitespace and symbols. */
  lemma ParsedIsWellFormed(line: string)
    requires NulFree(line)
    ensures Parse(line).Ok? ==> WellFormed(Parse(line).command)
  {
    TokensAreValid(line);
    ItemsAreValid(Tokens(line));
    MeaningIsWellFormed(Items(Tokens(line)));
  }

  // ---- The printer ----------------------------------------------------------------------------

  function Words(argv: seq<string>): seq<Token> {
    if argv == [] then [] else [Word(argv[0])] + Words(argv[1..])
  }

  /** Words, then redirections innermost first, stages joined by pipes. */
  function Unparse(c: Command): seq<Token> {
    match c
    case Exec(argv) => Words(argv)
    case Redirect(cmd, file, input) => Unparse(cmd) + [if input then Less else Greater, TokenOf(file)]
    case Pipe(left, right) => Unparse(left) + ([Bar] + Unparse(right))
  }

  function Print(c: Command): string { Render(Unparse(c)) }

  function ArgItems(argv: seq<string>): seq<Item> {
    if argv == [] then [] else [Arg(argv[0])] + ArgItems(argv[1..])
  }

  function StageItems(c: Command): seq<Item>
    requires IsStage(c)
  {
    match c
    case Exec(argv) => ArgItems(argv)
    case Redirect(cmd, file, input) => StageItems(cmd) + [Redir(Redirection(file, input))]
  }

  lemma {:induction false} ItemsOfWords(argv: seq<string>, rest: seq<Token>)
    ensures Items(Words(argv) + rest) == ArgItems(argv) + Items(rest)
  {
    if argv == [] {
      assert Words(argv) + rest == rest;
    } else {
      var ts := Words(argv) + rest;
      assert ts[0] == Word(argv[0]) && ts[1..] == Words(argv[1..]) + rest;
      ItemsOfWords(argv[1..], rest);
    }
  }

  lemma {:induction false} ArgsOfArgItems(argv: seq<string>)
    ensures Args(ArgItems(argv)) == argv && Redirs(ArgItems(argv)) == []
    ensures Separator !in ArgItems(argv) && Dangling !in ArgItems(argv)
  {
    if argv != [] {
      ArgsOfArgItems(argv[1..]);
      assert ArgItems(argv)[1..] == ArgItems(argv[1..]);
    }
  }

  lemma {:induction false} ItemsOfStage(c: Command, rest: seq<Token>)
    requires IsStage(c)
    ensures Items(Unparse(c) + rest) == StageItems(c) + Items(rest)
  {
    match c
    case Exec(argv) =>
      ItemsOfWords(argv, rest);
    case Redirect(cmd, file, input) =>
      var pair := [if input then Less else Greater, TokenOf(file)];
      assert Unparse(c) + rest == Unparse(cmd) + (pair + rest);
      ItemsOfStage(cmd, pair + rest);
      assert (pair + rest)[2..] == rest;
      assert Items(pair + rest) == [Redir(Redirection(file, input))] + Items(rest);
  }

  lemma {:induction false} StageOfItems(c: Command)
    requires IsStage(c)
    ensures Separator !in StageItems(c) && Stage(StageItems(c)) == Ok(c)
  {
    match c
    case Exec(argv) =>
      ArgsOfArgItems(argv);
    case Redirect(cmd, file, input) =>
      StageOfItems(cmd);
      var last := [Redir(Redirection(file, input))];
      ArgsConcat(StageItems(cmd), last);
      assert Args(last) == [] && Redirs(last) == [Redirection(file, input)];
      assert Args(StageItems(c)) == Args(StageItems(cmd));
      WrapConcat(Exec(Args(StageItems(cmd))), Redirs(StageItems(cmd)), Redirs(last));
      assert Wrap(cmd, Redirs(last)) == c;
  }

  lemma {:induction false} MeaningOfUnparse(c: Command)
    requires WellFormed(c)
    ensures Meaning(Items(Unparse(c))) == Ok(c)
  {
    if c.Pipe? {
      StageOfItems(c.left);
      MeaningOfUnparse(c.right);
      var rest := [Bar] + Unparse(c.right);
      ItemsOfStage(c.left, rest);
      assert Items(rest) == [Separator] + Items(Unparse(c.right));
      MeaningOfConcat(StageItems(c.left), Items(rest));
    } else {
      StageOfItems(c);
      ItemsOfStage(c, []);
      assert Unparse(c) + [] == Unparse(c);
      MeaningOfConcat(StageItems(c), []);
    }
  }

  lemma {:induction false} UnparseIsValid(c: Command)
    requires WellFormed(c) || IsStage(c)
    ensures ValidTokens(Unparse(c))
  {
    match c
    case Exec(argv) => WordsAreValid(argv);
    case Redirect(cmd, _, _) => UnparseIsValid(cmd);
    case Pipe(left, right) => UnparseIsValid(left); UnparseIsValid(right);
  }

  lemma {:induction false} WordsAreValid(argv: seq<string>)
    requires forall w | w in argv :: IsArgument(w)
    ensures ValidTokens(Words(argv))
  {
    if argv != [] {
      assert argv[0] in argv;
      WordsAreValid(argv[1..]);
    }
  }

  /** Parsing the printed form of a well-formed tree gives the tree back. */
  lemma RoundTrip(c: Command)
    requires WellFormed(c)
    ensures NulFree(Print(c)) && Parse(Print(c)) == Ok(c)
  {
    UnparseIsValid(c);
    TokensOfRender(Unparse(c));
    MeaningOfUnparse(c);
  }

  /** Parse, print, parse is parse. */
  lemma ParsePrintParse(line: string)
    requires NulFree(line)
    ensures Parse(line).Ok? ==> Parse(Print(Parse(line).command)) == Parse(line)
  {
    ParsedIsWellFormed(line);
    if Parse(line).Ok? {
      RoundTrip(Parse(line).command);
    }
  }

  /** Well-formed are exactly the trees that some line parses to. */
  lemma {:induction false} WellFormedIffParsed(c: Command)
    ensures WellFormed(c) <==> exists line :: NulFree(line) && Parse(line) == Ok(c)
  {
    if WellFormed(c) {
      RoundTrip(c);
      assert NulFree(Print(c)) && Parse(Print(c)) == Ok(c);
    }
    if line :| NulFree(line) && Parse(line) == Ok(c) {
      ParsedIsWellFormed(line);
    }
  }
}
