/** The lexical level of the shell: what a command line means as a list of tokens.
    Everything here is independent of the cursor that the parser moves. */
module ShellTokens {

  predicate IsSpace(c: char) { c == ' ' || c == '\t' || c == '\r' || c == '\n' || c == '\U{000B}' }

  predicate IsSymbol(c: char) { c == '<' || c == '|' || c == '>' }

  predicate IsLetter(c: char) { !IsSpace(c) && !IsSymbol(c) }

  /** The characters are those of the two strings of shell.c. */
  lemma CharacterClasses(c: char)
    ensures IsSpace(c) <==> c in " \t\r\n\U{000B}"
    ensures IsSymbol(c) <==> c in "<|>"
    ensures IsLetter(c) <==> c !in " \t\r\n\U{000B}<|>"
  {
  }

  /** A C string holds no NUL before its end. */
  predicate NulFree(s: string) { '\0' !in s }

  datatype Token = Word(text: string) | Bar | Less | Greater
  {
    /** The characters the token stands for. */
    function Text(): string {
      match this
      case Word(text) => text
      case Bar => "|"
      case Less => "<"
      case Greater => ">"
    }

    predicate IsRedirect() { Less? || Greater? }

    predicate Valid() {
      Word? ==> text != "" && NulFree(text) && forall c | c in text :: IsLetter(c)
    }
  }

  predicate ValidTokens(ts: seq<Token>) { forall t | t in ts :: t.Valid() }

  /** `s` without its leading whitespace. */
  function Trim(s: string): (t: string)
    ensures |t| <= |s|
    ensures t != "" ==> !IsSpace(t[0])
  {
    if s != "" && IsSpace(s[0]) then Trim(s[1..]) else s
  }

  /** How many letters `s` starts with. */
  function Letters(s: string): (n: nat)
    ensures n <= |s|
    ensures forall i | 0 <= i < n :: IsLetter(s[i])
    ensures n < |s| ==> !IsLetter(s[n])
  {
    if s != "" && IsLetter(s[0]) then 1 + Letters(s[1..]) else 0
  }

  /** The length of the token that starts at the head of `s`. */
  function TokenLength(s: string): (n: nat)
    requires s != "" && !IsSpace(s[0])
    ensures 1 <= n <= |s|
  {
    if IsSymbol(s[0]) then 1 else Letters(s)
  }

  function FirstToken(s: string): (t: Token)
    requires s != "" && !IsSpace(s[0])
    ensures t.Text() == s[..TokenLength(s)]
    ensures NulFree(s) ==> t.Valid()
  {
    if s[0] == '|' then Bar
    else if s[0] == '<' then Less
    else if s[0] == '>' then Greater
    else Word(s[..Letters(s)])
  }

  /** What follows the first token of `s`. */
  function AfterToken(s: string): (rest: string)
    requires Trim(s) != ""
    ensures |rest| < |s|
  {
    Trim(s)[TokenLength(Trim(s))..]
  }

  /** The token list of a line. */
  function Tokens(s: string): seq<Token>
    decreases |s|
  {
    if Trim(s) == "" then [] else [FirstToken(Trim(s))] + Tokens(AfterToken(s))
  }

  /** Where the tokens of `s` lie, when `s` starts at index `at` of a longer line. */
  function Spans(s: string, at: nat): seq<(nat, nat)>
    decreases |s|
  {
    if Trim(s) == "" then [] else
      var start := at + |s| - |Trim(s)|;
      var end := start + TokenLength(Trim(s));
      [(start, end)] + Spans(AfterToken(s), end)
  }

  /** The canonical spelling of a token list: every token followed by one blank. */
  function Render(ts: seq<Token>): string {
    if ts == [] then "" else ts[0].Text() + " " + Render(ts[1..])
  }

  // ---- Facts used by the cursor-moving parser -------------------------------------------------

  lemma {:induction false} SkipSpace(line: string, p: nat)
    requires p < |line| && IsSpace(line[p])
    ensures Trim(line[p..]) == Trim(line[p + 1..])
    ensures Tokens(line[p..]) == Tokens(line[p + 1..])
    ensures Spans(line[p..], p) == Spans(line[p + 1..], p + 1)
  {
    assert line[p..][1..] == line[p + 1..];
  }

  lemma {:induction false} SkipLetter(line: string, p: nat)
    requires p < |line| && IsLetter(line[p])
    ensures Letters(line[p..]) == 1 + Letters(line[p + 1..])
  {
    assert line[p..][1..] == line[p + 1..];
  }

  /** Every token of a NUL-free line is a symbol or a non-empty word of letters. */
  lemma {:induction false} TokensAreValid(s: string)
    requires NulFree(s)
    ensures ValidTokens(Tokens(s))
    decreases |s|
  {
    TrimDropsSpaces(s);
    if Trim(s) != "" {
      TokensAreValid(AfterToken(s));
    }
  }

  /** Trim drops a prefix of whitespace and nothing else. */
  lemma {:induction false} TrimDropsSpaces(s: string)
    ensures Trim(s) == s[|s| - |Trim(s)|..]
    ensures forall i | 0 <= i < |s| - |Trim(s)| :: IsSpace(s[i])
  {
    if s != "" && IsSpace(s[0]) {
      TrimDropsSpaces(s[1..]);
    }
  }

  // ---- Tiling ---------------------------------------------------------------------------------

  ghost predicate Covered(spans: seq<(nat, nat)>, i: nat) {
    exists k | 0 <= k < |spans| :: spans[k].0 <= i < spans[k].1
  }

  lemma CoveredCons(first: (nat, nat), rest: seq<(nat, nat)>, i: nat)
    ensures Covered([first] + rest, i) <==> (first.0 <= i < first.1 || Covered(rest, i))
  {
    var all := [first] + rest;
    if first.0 <= i < first.1 {
      assert all[0] == first;
    }
    if Covered(rest, i) {
      var k :| 0 <= k < |rest| && rest[k].0 <= i < rest[k].1;
      assert all[k + 1] == rest[k];
    }
    if Covered(all, i) {
      var k :| 0 <= k < |all| && all[k].0 <= i < all[k].1;
      assert k > 0 ==> rest[k - 1] == all[k];
    }
  }

  /** The next token of a line: a gap of whitespace, then the slice that spells the token. */
  lemma {:induction false} NextSlice(line: string, p: nat) returns (start: nat, end: nat)
    requires p <= |line| && Trim(line[p..]) != ""
    ensures p <= start < end <= |line| && Trim(line[p..]) == line[start..]
    ensures forall i | p <= i < start :: IsSpace(line[i])
    ensures end == start + TokenLength(line[start..])
    ensures line[start..end] == FirstToken(line[start..]).Text()
    ensures AfterToken(line[p..]) == line[end..]
    ensures FirstToken(line[start..]).Word? ==> EndsWord(line, end)
  {
    var s := line[p..];
    TrimDropsSpaces(s);
    start := p + |s| - |Trim(s)|;
    assert Trim(s) == line[start..];
    end := start + TokenLength(line[start..]);
    assert line[start..end] == line[start..][..end - start];
    forall i | p <= i < start ensures IsSpace(line[i]) { assert line[i] == s[i - p]; }
  }

  /** A word ends where the line does or in front of a character that is no letter. */
  predicate EndsWord(line: string, end: nat) { end >= |line| || !IsLetter(line[end]) }

  /** From index `p` on, the spans lie in order without overlap, span k spells token k, no word is cut
      short, and whatever no span covers is whitespace. */
  ghost predicate Tile(line: string, p: nat, spans: seq<(nat, nat)>, ts: seq<Token>) {
    && |spans| == |ts|
    && (forall k | 0 <= k < |spans| :: p <= spans[k].0 < spans[k].1 <= |line|)
    && (forall j, k | 0 <= j < k < |spans| :: spans[j].1 <= spans[k].0)
    && (forall k | 0 <= k < |spans| :: line[spans[k].0..spans[k].1] == ts[k].Text())
    && (forall k | 0 <= k < |spans| && ts[k].Word? :: EndsWord(line, spans[k].1))
    && (forall i | p <= i < |line| :: Covered(spans, i) || IsSpace(line[i]))
  }

  lemma TileCons(line: string, p: nat, first: (nat, nat), token: Token, spans: seq<(nat, nat)>, ts: seq<Token>,
                 spans': seq<(nat, nat)>, ts': seq<Token>)
    requires p <= first.0 < first.1 <= |line| && line[first.0..first.1] == token.Text()
    requires token.Word? ==> EndsWord(line, first.1)
    requires forall i | p <= i < first.0 :: IsSpace(line[i])
    requires Tile(line, first.1, spans, ts)
    requires spans' == [first] + spans && ts' == [token] + ts
    ensures Tile(line, p, spans', ts')
  {
    forall i | p <= i < |line|
      ensures Covered(spans', i) || IsSpace(line[i])
    {
      CoveredCons(first, spans, i);
    }
  }

  lemma {:induction false} Unfold(s: string, at: nat, t: string, rest: string, start: nat, end: nat)
    requires t == Trim(s) && t != "" && rest == AfterToken(s)
    requires start == at + |s| - |t| && end == start + TokenLength(t)
    ensures Tokens(s) == [FirstToken(t)] + Tokens(rest)
    ensures Spans(s, at) == [(start, end)] + Spans(rest, end)
  {
  }

  lemma {:induction false} SpansTileFrom(line: string, p: nat)
    requires p <= |line|
    ensures Tile(line, p, Spans(line[p..], p), Tokens(line[p..]))
    decreases |line| - p
  {
    if Trim(line[p..]) == "" {
      TrimDropsSpaces(line[p..]);
      forall i | p <= i < |line| ensures IsSpace(line[i]) { assert line[i] == line[p..][i - p]; }
    } else {
      var start, end := NextSlice(line, p);
      SpansTileFrom(line, end);
      Unfold(line[p..], p, line[start..], line[end..], start, end);
      TileCons(line, p, (start, end), FirstToken(line[start..]), Spans(line[end..], end), Tokens(line[end..]),
               Spans(line[p..], p), Tokens(line[p..]));
    }
  }

  /** The slices of a line lie in order without overlap, slice k spells token k, a word goes on as long as
      letters do, and whatever no slice covers is whitespace: slices and gaps tile the line exactly. */
  lemma SpansTile(line: string)
    ensures Tile(line, 0, Spans(line, 0), Tokens(line))
  {
    assert line[0..] == line;
    SpansTileFrom(line, 0);
  }

  // ---- Render is a right inverse of Tokens ----------------------------------------------------

  lemma {:induction false} LettersOfWord(w: string, rest: string)
    requires forall c | c in w :: IsLetter(c)
    requires rest != "" && !IsLetter(rest[0])
    ensures Letters(w + rest) == |w|
  {
    if w == "" {
      assert w + rest == rest;
    } else {
      assert (w + rest)[1..] == w[1..] + rest;
      LettersOfWord(w[1..], rest);
    }
  }

  lemma {:induction false} HeadOfCons(t: Token, rest: string, s: string)
    requires t.Valid() && rest != "" && !IsLetter(rest[0])
    requires s == t.Text() + rest
    ensures s != "" && !IsSpace(s[0])
    ensures TokenLength(s) == |t.Text()| && FirstToken(s) == t
    ensures s[TokenLength(s)..] == rest
  {
    assert s[0] == t.Text()[0];
    if t.Word? {
      assert t.text[0] in t.text;
      LettersOfWord(t.text, rest);
    }
  }

  lemma {:induction false} TokensOfCons(t: Token, rest: string)
    requires t.Valid()
    ensures Tokens(t.Text() + " " + rest) == [t] + Tokens(rest)
  {
    var s := t.Text() + " " + rest;
    assert s == t.Text() + (" " + rest);
    HeadOfCons(t, " " + rest, s);
    Unfold(s, 0, s, " " + rest, 0, TokenLength(s));
    assert Tokens(" " + rest) == Tokens(rest) by {
      SkipSpace(" " + rest, 0);
      assert (" " + rest)[0..] == " " + rest && (" " + rest)[1..] == rest;
    }
  }

  /** Scanning the canonical spelling of a token list gives that list back. */
  lemma {:induction false} TokensOfRender(ts: seq<Token>)
    requires ValidTokens(ts)
    ensures Tokens(Render(ts)) == ts
    ensures NulFree(Render(ts))
  {
    if ts != [] {
      TokensOfRender(ts[1..]);
      TokensOfCons(ts[0], Render(ts[1..]));
      assert NulFree(ts[0].Text());
    }
  }
}
