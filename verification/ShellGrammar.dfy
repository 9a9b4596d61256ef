/**
 The command parser of Offline 3/xv6/sh.c as functions of the text and the cursor, with the proof that
 fully parenthesised commands parse back to the tree they were written from.

 The text is NUL-free; position |text| is where C finds the terminating NUL.
 */
module ShellGrammar {

  const MAXARGS := 10

  /** A command tree over words: ranges of the text, or strings. `fd` is 0 for "<" and 1 for ">" and ">>". */
  datatype Cmd<W> =
    | Exec(args: seq<W>)
    | Redir(cmd: Cmd<W>, file: W, fd: int)
    | Pipe(left: Cmd<W>, right: Cmd<W>)
    | List(left: Cmd<W>, right: Cmd<W>)
    | Back(cmd: Cmd<W>)

  datatype Range = Range(q: int, eq: int)

  /** A command and the cursor behind it, or one of the parser's panics. */
  datatype Parse = Parsed(cmd: Cmd<Range>, s: int) | Panic

  predicate IsWhite(c: char) {
    c == ' ' || c == '\t' || c == '\r' || c == '\n' || c == 11 as char
  }

  predicate IsSymbol(c: char) {
    c == '<' || c == '|' || c == '>' || c == '&' || c == ';' || c == '(' || c == ')'
  }

  predicate IsPlain(c: char) {
    c != '\0' && !IsWhite(c) && !IsSymbol(c)
  }

  /** The loop over whitespace. */
  function Skip(t: string, s: int): (r: int)
    requires 0 <= s <= |t|
    ensures s <= r <= |t| && (r < |t| ==> !IsWhite(t[r]))
    ensures s == |t| || !IsWhite(t[s]) ==> r == s
    decreases |t| - s
  {
    if s < |t| && IsWhite(t[s]) then Skip(t, s + 1) else s
  }

  /** The loop over a word. */
  function WordEnd(t: string, s: int): (r: int)
    requires 0 <= s <= |t|
    ensures s <= r <= |t| && (r < |t| ==> IsWhite(t[r]) || IsSymbol(t[r]))
    ensures forall k :: s <= k < r ==> !IsWhite(t[k]) && !IsSymbol(t[k])
    decreases |t| - s
  {
    if s < |t| && !IsWhite(t[s]) && !IsSymbol(t[s]) then WordEnd(t, s + 1) else s
  }

  datatype Token = Token(kind: char, q: int, eq: int, next: int)

  /** gettoken: kind 'a' is a word, '+' is ">>", NUL the end of the text. */
  function GetToken(t: string, s: int): (r: Token)
    requires 0 <= s <= |t|
    ensures s <= r.q <= r.eq <= r.next <= |t|
    ensures r.kind != '\0' ==> s < r.next
  {
    var q := Skip(t, s);
    if q == |t| then Token('\0', q, q, q)
    else if t[q] == '\0' then Token('\0', q, q, Skip(t, q))
    else if t[q] == '|' || t[q] == '(' || t[q] == ')' || t[q] == ';' || t[q] == '&' || t[q] == '<' then
      Token(t[q], q, q + 1, Skip(t, q + 1))
    else if t[q] == '>' then
      if q + 1 < |t| && t[q + 1] == '>' then Token('+', q, q + 2, Skip(t, q + 2)) else Token('>', q, q + 1, Skip(t, q + 1))
    else
      Token('a', q, WordEnd(t, q), Skip(t, WordEnd(t, q)))
  }

  /** peek, at the cursor it has moved to. */
  predicate Peek(t: string, s: int, toks: string)
    requires 0 <= s <= |t|
  {
    var q := Skip(t, s);
    q < |t| && t[q] != '\0' && t[q] in toks
  }

  // ---------------------------------------------------------------------------------------------
  // The recursive descent
  // ---------------------------------------------------------------------------------------------

  function ParseLine(t: string, s: int): (r: Parse)
    requires 0 <= s <= |t|
    ensures r.Parsed? ==> s <= r.s <= |t|
    decreases |t| - s, 5
  {
    match ParsePipe(t, s)
    case Panic => Panic
    case Parsed(c, s1) =>
      match Backs(t, c, s1)
      case Panic => Panic
      case Parsed(c2, s2) =>
        if Peek(t, s2, ";") then
          match ParseLine(t, GetToken(t, Skip(t, s2)).next)
          case Panic => Panic
          case Parsed(c3, s3) => Parsed(List(c2, c3), s3)
        else Parsed(c2, Skip(t, s2))
  }

  /** parseline's loop over "&". */
  function Backs(t: string, c: Cmd<Range>, s: int): (r: Parse)
    requires 0 <= s <= |t|
    ensures r.Parsed? && s <= r.s <= |t|
    decreases |t| - s, 0
  {
    if Peek(t, s, "&") then Backs(t, Back(c), GetToken(t, Skip(t, s)).next) else Parsed(c, Skip(t, s))
  }

  function ParsePipe(t: string, s: int): (r: Parse)
    requires 0 <= s <= |t|
    ensures r.Parsed? ==> s <= r.s <= |t|
    decreases |t| - s, 4
  {
    match ParseExec(t, s)
    case Panic => Panic
    case Parsed(c, s1) =>
      if Peek(t, s1, "|") then
        match ParsePipe(t, GetToken(t, Skip(t, s1)).next)
        case Panic => Panic
        case Parsed(c2, s2) => Parsed(Pipe(c, c2), s2)
      else Parsed(c, Skip(t, s1))
  }

  function ParseRedirs(t: string, c: Cmd<Range>, s: int): (r: Parse)
    requires 0 <= s <= |t|
    ensures r.Parsed? ==> s <= r.s <= |t|
    decreases |t| - s, 0
  {
    if Peek(t, s, "<>") then
      var tok := GetToken(t, Skip(t, s));
      var file := GetToken(t, tok.next);
      if file.kind != 'a' then Panic
      else ParseRedirs(t, Redir(c, Range(file.q, file.eq), if tok.kind == '<' then 0 else 1), file.next)
    else Parsed(c, Skip(t, s))
  }

  function ParseBlock(t: string, s: int): (r: Parse)
    requires 0 <= s <= |t|
    ensures r.Parsed? ==> s <= r.s <= |t|
    decreases |t| - s, 1
  {
    if !Peek(t, s, "(") then Panic
    else
      match ParseLine(t, GetToken(t, Skip(t, s)).next)
      case Panic => Panic
      case Parsed(c, s1) =>
        if !Peek(t, s1, ")") then Panic
        else ParseRedirs(t, c, GetToken(t, Skip(t, s1)).next)
  }

  /** cmd->argv[argc] = q through the pointer to the innermost node. */
  function AddArg(c: Cmd<Range>, w: Range): Cmd<Range> {
    match c
    case Exec(args) => Exec(args + [w])
    case Redir(d, f, fd) => Redir(AddArg(d, w), f, fd)
    case _ => c
  }

  /** parseexec's loop over the words. */
  function ParseArgs(t: string, c: Cmd<Range>, argc: int, s: int): (r: Parse)
    requires 0 <= s <= |t|
    ensures r.Parsed? ==> s <= r.s <= |t|
    decreases |t| - s, 0
  {
    if Peek(t, s, "|)&;") then Parsed(c, Skip(t, s))
    else
      var tok := GetToken(t, Skip(t, s));
      if tok.kind == '\0' then Parsed(c, tok.next)
      else if tok.kind != 'a' then Panic
      else if argc + 1 >= MAXARGS then Panic
      else
        match ParseRedirs(t, AddArg(c, Range(tok.q, tok.eq)), tok.next)
        case Panic => Panic
        case Parsed(c2, s2) => ParseArgs(t, c2, argc + 1, s2)
  }

  function ParseExec(t: string, s: int): (r: Parse)
    requires 0 <= s <= |t|
    ensures r.Parsed? ==> s <= r.s <= |t|
    decreases |t| - s, 2
  {
    if Peek(t, s, "(") then ParseBlock(t, Skip(t, s))
    else
      match ParseRedirs(t, Exec([]), Skip(t, s))
      case Panic => Panic
      case Parsed(c, s1) => ParseArgs(t, c, 0, s1)
  }

  /** parsecmd before nulterminate. */
  function ParseCmd(t: string): Parse {
    match ParseLine(t, 0)
    case Panic => Panic
    case Parsed(c, s) => if Skip(t, s) != |t| then Panic else Parsed(c, |t|)
  }

  // ---------------------------------------------------------------------------------------------
  // Round trip
  // ---------------------------------------------------------------------------------------------

  /** The strings a tree of ranges stands for. */
  function View(t: string, c: Cmd<Range>): Cmd<string> {
    match c
    case Exec(args) => Exec(seq(|args|, i requires 0 <= i < |args| => TextOf(t, args[i])))
    case Redir(d, f, fd) => Redir(View(t, d), TextOf(t, f), fd)
    case Pipe(l, r) => Pipe(View(t, l), View(t, r))
    case List(l, r) => List(View(t, l), View(t, r))
    case Back(d) => Back(View(t, d))
  }

  function TextOf(t: string, w: Range): string {
    if 0 <= w.q <= w.eq <= |t| then t[w.q..w.eq] else []
  }

  predicate IsWord(w: string) {
    w != [] && forall i :: 0 <= i < |w| ==> IsPlain(w[i])
  }

  /** A tree the parser can build: proper words and not too many arguments. */
  predicate Writable(c: Cmd<string>) {
    match c
    case Exec(args) => |args| < MAXARGS && forall i :: 0 <= i < |args| ==> IsWord(args[i])
    case Redir(d, f, fd) => Writable(d) && IsWord(f) && (fd == 0 || fd == 1)
    case Pipe(l, r) => Writable(l) && Writable(r)
    case List(l, r) => Writable(l) && Writable(r)
    case Back(d) => Writable(d)
  }

  function Words(args: seq<string>): string
    decreases |args|
  {
    if args == [] then [] else if |args| == 1 then args[0] else args[0] + " " + Words(args[1..])
  }

  function Block(c: Cmd<string>): string
    decreases c, 1
  {
    "(" + Render(c) + ")"
  }

  /** The fully parenthesised rendering. */
  function Render(c: Cmd<string>): string
    decreases c, 0
  {
    match c
    case Exec(args) => Words(args)
    case Redir(d, f, fd) => Block(d) + (if fd == 0 then "<" else ">") + f
    case Pipe(l, r) => Block(l) + "|" + Block(r)
    case List(l, r) => Block(l) + ";" + Block(r)
    case Back(d) => Block(d) + "&"
  }

  /** The text has `w` at position `s`. */
  predicate At(t: string, s: int, w: string) {
    0 <= s && s + |w| <= |t| && t[s..s + |w|] == w
  }

  /** The text ends at `e`, or goes on with ")". */
  predicate Stop(t: string, e: int) {
    0 <= e <= |t| && (e == |t| || t[e] == ')')
  }

  lemma AtSplit(t: string, s: int, a: string, b: string)
    requires At(t, s, a + b)
    ensures At(t, s, a) && At(t, s + |a|, b)
  {
    assert t[s..s + |a|] == (a + b)[..|a|];
    assert t[s + |a|..s + |a| + |b|] == (a + b)[|a|..];
  }

  lemma AtChar(t: string, s: int, c: char)
    requires At(t, s, [c])
    ensures 0 <= s < |t| && t[s] == c
  {
    assert t[s..s + 1][0] == c;
  }

  /** A word in front of a blank, a symbol or the end is one token. */
  lemma WordToken(t: string, s: int, w: string)
    requires IsWord(w) && At(t, s, w)
    requires s + |w| == |t| || IsWhite(t[s + |w|]) || IsSymbol(t[s + |w|])
    ensures
      var tok := GetToken(t, s);
      tok.kind == 'a' && tok.q == s && tok.eq == s + |w| && tok.next == Skip(t, s + |w|) && TextOf(t, Range(tok.q, tok.eq)) == w
    ensures Skip(t, s) == s && !Peek(t, s, "<>") && !Peek(t, s, "(") && !Peek(t, s, "|)&;")
  {
    forall k | s <= k < s + |w|
      ensures IsPlain(t[k])
    {
      assert t[k] == w[k - s];
    }
    WordEndIs(t, s, s + |w|);
  }

  lemma {:induction false} WordEndIs(t: string, s: int, e: int)
    requires 0 <= s <= e <= |t| && forall k :: s <= k < e ==> IsPlain(t[k])
    requires e == |t| || IsWhite(t[e]) || IsSymbol(t[e])
    ensures WordEnd(t, s) == e
    decreases e - s
  {
    if s < e {
      WordEndIs(t, s + 1, e);
    }
  }

  /** At a position where no command goes on, nothing more is read. */
  lemma {:induction false} StopQuiet(t: string, e: int)
    requires Stop(t, e)
    ensures Skip(t, e) == e && !Peek(t, e, "|") && !Peek(t, e, "&") && !Peek(t, e, ";") && !Peek(t, e, "<>") && !Peek(t, e, "(")
    ensures e < |t| ==> Peek(t, e, "|)&;")
    ensures e == |t| ==> GetToken(t, e) == Token('\0', e, e, e)
  {
  }

  lemma WordChar(t: string, s: int, w: string)
    requires IsWord(w) && At(t, s, w)
    ensures 0 <= s < |t| && IsPlain(t[s])
  {
    assert t[s..s + |w|][0] == w[0];
  }

  lemma {:induction false} WordsFirst(args: seq<string>)
    requires args != []
    ensures Words(args) == args[0] + (if |args| == 1 then "" else " " + Words(args[1..]))
  {
  }

  /** parseexec's loop stops where no command goes on. */
  lemma {:induction false} ArgsEnd(t: string, s: int, done: seq<Range>)
    requires Stop(t, s)
    ensures ParseArgs(t, Exec(done), |done|, s) == Parsed(Exec(done), s)
  {
    StopQuiet(t, s);
  }

  /** The first of the words still to come, and where the next one starts. */
  lemma {:induction false} ArgsWord(t: string, s: int, args: seq<string>) returns (w: Range, next: int)
    requires args != [] && (forall i :: 0 <= i < |args| ==> IsWord(args[i]))
    requires At(t, s, Words(args)) && Stop(t, s + |Words(args)|)
    ensures s < next <= |t| && TextOf(t, w) == args[0] && At(t, next, Words(args[1..]))
    ensures next + |Words(args[1..])| == s + |Words(args)|
    ensures forall done: seq<Range> {:trigger ParseArgs(t, Exec(done), |done|, s)} :: |done| + 1 < MAXARGS ==>
              ParseArgs(t, Exec(done), |done|, s) == ParseArgs(t, Exec(done + [w]), |done| + 1, next)
  {
    hide ParseArgs, Peek, Skip, GetToken, WordEnd, TextOf;
    StopQuiet(t, s + |Words(args)|);
    var rest := args[1..];
    WordsFirst(args);
    AtSplit(t, s, args[0], if |args| == 1 then "" else " " + Words(rest));
    var e := s + |args[0]|;
    if rest != [] {
      NextWord(t, e, rest);
    }
    WordToken(t, s, args[0]);
    var tok := GetToken(t, s);
    w, next := Range(tok.q, tok.eq), Skip(t, e);
    forall done: seq<Range> | |done| + 1 < MAXARGS
      ensures ParseArgs(t, Exec(done), |done|, s) == ParseArgs(t, Exec(done + [w]), |done| + 1, next)
    {
      ArgsOne(t, s, done, tok, next);
    }
  }

  /** Behind a word comes a blank and the next word. */
  lemma {:induction false} NextWord(t: string, e: int, rest: seq<string>)
    requires rest != [] && (forall i :: 0 <= i < |rest| ==> IsWord(rest[i])) && At(t, e, " " + Words(rest))
    ensures 0 <= e < |t| && t[e] == ' ' && At(t, e + 1, Words(rest)) && Skip(t, e) == e + 1 && !Peek(t, e + 1, "<>") && Skip(t, e + 1) == e + 1
  {
    AtSplit(t, e, " ", Words(rest));
    AtChar(t, e, ' ');
    WordsFirst(rest);
    AtSplit(t, e + 1, rest[0], if |rest| == 1 then "" else " " + Words(rest[1..]));
    WordChar(t, e + 1, rest[0]);
    SkipBlank(t, e);
  }

  /** parseexec's loop reads the words of a command back. */
  lemma {:induction false} ArgsRun(t: string, s: int, done: seq<Range>, args: seq<string>)
    requires |done| + |args| < MAXARGS && (forall i :: 0 <= i < |args| ==> IsWord(args[i]))
    requires At(t, s, Words(args)) && Stop(t, s + |Words(args)|)
    ensures 0 <= s <= |t|
    ensures
      var r := ParseArgs(t, Exec(done), |done|, s);
      && r.Parsed? && r.s == s + |Words(args)| && r.cmd.Exec? && |r.cmd.args| == |done| + |args|
      && (forall i :: 0 <= i < |done| ==> r.cmd.args[i] == done[i])
      && (forall i :: 0 <= i < |args| ==> TextOf(t, r.cmd.args[|done| + i]) == args[i])
    decreases |args|
  {
    assert 0 <= s <= |t|;
    hide ParseArgs, At, Stop, IsWord, TextOf;
    if args == [] {
      assert Stop(t, s);
      ArgsEnd(t, s, done);
    } else {
      var w, next := ArgsWord(t, s, args);
      var rest := args[1..];
      ArgsRun(t, next, done + [w], rest);
      var r := ParseArgs(t, Exec(done), |done|, s);
      assert r == ParseArgs(t, Exec(done + [w]), |done| + 1, next);
      forall i | 0 <= i < |args|
        ensures TextOf(t, r.cmd.args[|done| + i]) == args[i]
      {
        if i == 0 {
          assert r.cmd.args[|done|] == (done + [w])[|done|];
        } else {
          assert args[i] == rest[i - 1] && |done| + i == |done + [w]| + (i - 1);
        }
      }
    }
  }

  lemma {:induction false} ArgsFull(t: string, s: int, done: seq<Range>)
    requires 0 <= s <= |t| && !Peek(t, s, "|)&;") && Skip(t, s) == s && GetToken(t, s).kind == 'a' && |done| + 1 >= MAXARGS
    ensures ParseArgs(t, Exec(done), |done|, s).Panic?
  {
    hide Peek, Skip, GetToken;
  }

  /** A command of MAXARGS words or more is refused. */
  lemma {:induction false} ArgsTooMany(t: string, s: int, done: seq<Range>, args: seq<string>)
    requires |done| < MAXARGS <= |done| + |args| && (forall i :: 0 <= i < |args| ==> IsWord(args[i]))
    requires At(t, s, Words(args)) && Stop(t, s + |Words(args)|)
    ensures 0 <= s <= |t| && ParseArgs(t, Exec(done), |done|, s).Panic?
    decreases |args|
  {
    hide ParseArgs, At, Stop, IsWord, TextOf, Skip, Peek, GetToken, Words;
    FirstWord(t, s, args);
    if |done| + 1 == MAXARGS {
      ArgsFull(t, s, done);
    } else {
      var w, next := ArgsWord(t, s, args);
      ArgsTooMany(t, next, done + [w], args[1..]);
      assert ParseArgs(t, Exec(done), |done|, s) == ParseArgs(t, Exec(done + [w]), |done| + 1, next);
    }
  }

  lemma {:induction false} FirstWord(t: string, s: int, args: seq<string>)
    requires args != [] && (forall i :: 0 <= i < |args| ==> IsWord(args[i]))
    requires At(t, s, Words(args)) && Stop(t, s + |Words(args)|)
    ensures 0 <= s <= |t| && !Peek(t, s, "|)&;") && Skip(t, s) == s && GetToken(t, s).kind == 'a'
    ensures !Peek(t, s, "(") && !Peek(t, s, "<>")
  {
    hide Peek, Skip, GetToken, WordEnd, TextOf;
    StopQuiet(t, s + |Words(args)|);
    WordsFirst(args);
    AtSplit(t, s, args[0], if |args| == 1 then "" else " " + Words(args[1..]));
    if |args| > 1 {
      NextWord(t, s + |args[0]|, args[1..]);
    }
    WordToken(t, s, args[0]);
  }

  /** A list of words is a command exactly when there are fewer than MAXARGS. */
  lemma {:induction false} WordsParseIff(t: string, s: int, args: seq<string>)
    requires (forall i :: 0 <= i < |args| ==> IsWord(args[i])) && At(t, s, Words(args)) && Stop(t, s + |Words(args)|)
    ensures 0 <= s <= |t|
    ensures ParseExec(t, s).Parsed? <==> |args| < MAXARGS
  {
    hide ParseArgs, Skip, Peek, GetToken, Words;
    if |args| < MAXARGS {
      ExecRun(t, s, args);
    } else {
      FirstWord(t, s, args);
      ArgsTooMany(t, s, [], args);
    }
  }

  lemma SkipBlank(t: string, e: int)
    requires 0 <= e < |t| - 1 && t[e] == ' ' && IsPlain(t[e + 1])
    ensures Skip(t, e) == e + 1 && !Peek(t, e + 1, "<>")
  {
    assert Skip(t, e) == Skip(t, e + 1);
  }

  /** One turn of the loop. */
  lemma {:induction false} ArgsOne(t: string, s: int, done: seq<Range>, tok: Token, next: int)
    requires 0 <= s <= |t| && Skip(t, s) == s && !Peek(t, s, "|)&;") && |done| + 1 < MAXARGS
    requires tok == GetToken(t, s) && tok.kind == 'a' && next == tok.next && !Peek(t, next, "<>") && Skip(t, next) == next
    ensures ParseArgs(t, Exec(done), |done|, s) == ParseArgs(t, Exec(done + [Range(tok.q, tok.eq)]), |done| + 1, next)
  {
    assert AddArg(Exec(done), Range(tok.q, tok.eq)) == Exec(done + [Range(tok.q, tok.eq)]);
  }

  /** A simple command parses back. */
  lemma {:induction false} ExecRun(t: string, s: int, args: seq<string>)
    requires Writable(Exec(args)) && At(t, s, Words(args)) && Stop(t, s + |Words(args)|)
    ensures
      var r := ParseExec(t, s);
      r.Parsed? && r.s == s + |Words(args)| && View(t, r.cmd) == Exec(args)
  {
    StopQuiet(t, s + |Words(args)|);
    if args != [] {
      WordsFirst(args);
      AtSplit(t, s, args[0], if |args| == 1 then "" else " " + Words(args[1..]));
      WordChar(t, s, args[0]);
    }
    assert !Peek(t, s, "(") && !Peek(t, s, "<>") && Skip(t, s) == s;
    ArgsRun(t, s, [], args);
    hide ParseArgs;
    var r := ParseExec(t, s);
    assert r == ParseArgs(t, Exec([]), 0, s);
    assert View(t, r.cmd).args == args;
  }

  // ---------------------------------------------------------------------------------------------
  // Blocks
  // ---------------------------------------------------------------------------------------------

  lemma SymbolToken(t: string, p: int)
    requires 0 <= p < |t| && (t[p] == '|' || t[p] == '(' || t[p] == ')' || t[p] == ';' || t[p] == '&' || t[p] == '<' || t[p] == '>')
    requires t[p] == '>' ==> p + 1 == |t| || t[p + 1] != '>'
    ensures Skip(t, p) == p && GetToken(t, p) == Token(t[p], p, p + 1, Skip(t, p + 1))
    ensures forall toks :: Peek(t, p, toks) <==> t[p] in toks
  {
  }

  /** A rendering starts with "(", a plain character, or not at all. */
  lemma {:induction false} RenderStart(t: string, s: int, c: Cmd<string>)
    requires Writable(c) && At(t, s, Render(c)) && Stop(t, s + |Render(c)|)
    ensures 0 <= s <= |t| && Skip(t, s) == s
  {
    match c
    case Exec(args) =>
      if args != [] {
        WordsFirst(args);
        AtSplit(t, s, args[0], if |args| == 1 then "" else " " + Words(args[1..]));
        WordChar(t, s, args[0]);
      }
    case _ =>
      assert t[s..s + |Render(c)|][0] == '(';
  }

  /** parseblock reads a parenthesised command back; what follows are its redirections. */
  lemma {:induction false} BlockRun(t: string, s: int, c: Cmd<string>) returns (r: Cmd<Range>)
    requires Writable(c) && At(t, s, Block(c))
    ensures View(t, r) == c
    ensures ParseExec(t, s) == ParseRedirs(t, r, Skip(t, s + |Block(c)|))
    decreases c, 6
  {
    hide ParseLine, ParseExec, ParseRedirs, View, Render, Skip, GetToken, Peek, Writable;
    var b, e := Render(c), s + 1 + |Render(c)|;
    assert Block(c) == "(" + b + ")";
    AtSplit(t, s, "(" + b, ")");
    AtSplit(t, s, "(", b);
    AtChar(t, s, '(');
    AtChar(t, e, ')');
    SymbolToken(t, s);
    SymbolToken(t, e);
    RenderStart(t, s + 1, c);
    LineRun(t, s + 1, c);
    r := ParseLine(t, s + 1).cmd;
    BlockJoins(t, s, r, e);
  }

  lemma {:induction false} BlockJoins(t: string, s: int, r: Cmd<Range>, e: int)
    requires 0 <= s < |t| && Skip(t, s) == s && Peek(t, s, "(") && GetToken(t, s).next == s + 1
    requires s < e < |t| && ParseLine(t, s + 1) == Parsed(r, e)
    requires Skip(t, e) == e && Peek(t, e, ")") && GetToken(t, e).next == Skip(t, e + 1)
    ensures ParseExec(t, s) == ParseRedirs(t, r, Skip(t, e + 1))
  {
    hide ParseLine, ParseRedirs, GetToken, Peek, Skip;
  }

  lemma {:induction false} PipeJoins(t: string, s: int, a: Cmd<Range>, b: Cmd<Range>, p: int, e: int)
    requires 0 <= s <= |t| && ParseExec(t, s) == Parsed(a, p)
    requires 0 <= p < |t| && Skip(t, p) == p && Peek(t, p, "|") && GetToken(t, p).next == p + 1
    requires ParsePipe(t, p + 1) == Parsed(b, e)
    ensures ParsePipe(t, s) == Parsed(Pipe(a, b), e)
  {
    hide ParseExec, GetToken, Peek, Skip;
  }

  lemma {:induction false} PipeAlone(t: string, s: int, a: Cmd<Range>, p: int)
    requires 0 <= s <= |t| && ParseExec(t, s) == Parsed(a, p)
    requires 0 <= p <= |t| && Skip(t, p) == p && !Peek(t, p, "|")
    ensures ParsePipe(t, s) == Parsed(a, p)
  {
    hide ParseExec, GetToken, Peek, Skip;
  }

  lemma {:induction false} ListJoins(t: string, s: int, a: Cmd<Range>, b: Cmd<Range>, p: int, e: int)
    requires 0 <= s <= |t| && ParsePipe(t, s) == Parsed(a, p)
    requires 0 <= p < |t| && Skip(t, p) == p && !Peek(t, p, "&") && Peek(t, p, ";") && GetToken(t, p).next == p + 1
    requires ParseLine(t, p + 1) == Parsed(b, e)
    ensures ParseLine(t, s) == Parsed(List(a, b), e)
  {
    assert Backs(t, a, p) == Parsed(a, p);
    hide ParsePipe, GetToken, Peek, Skip, Backs;
  }

  lemma {:induction false} BackJoins(t: string, s: int, a: Cmd<Range>, p: int)
    requires 0 <= s <= |t| && ParsePipe(t, s) == Parsed(a, p)
    requires 0 <= p < |t| && Skip(t, p) == p && Peek(t, p, "&") && GetToken(t, p).next == p + 1
    requires Skip(t, p + 1) == p + 1 && !Peek(t, p + 1, "&") && !Peek(t, p + 1, ";")
    ensures ParseLine(t, s) == Parsed(Back(a), p + 1)
  {
    assert Backs(t, Back(a), p + 1) == Parsed(Back(a), p + 1);
    assert Backs(t, a, p) == Backs(t, Back(a), p + 1);
    hide ParsePipe, GetToken, Peek, Skip, Backs;
  }

  /** What may follow a block that ends a pipe. */
  predicate PipeStop(t: string, p: int) {
    0 <= p <= |t| && (p == |t| || t[p] == ')' || t[p] == ';' || t[p] == '&')
  }

  lemma {:induction false} NoRedirs(t: string, r: Cmd<Range>, p: int)
    requires 0 <= p <= |t| && (p == |t| || t[p] == ')' || t[p] == ';' || t[p] == '&' || t[p] == '|')
    ensures Skip(t, p) == p && ParseRedirs(t, r, p) == Parsed(r, p)
  {
  }

  lemma {:induction false} PipeOfBlock(t: string, s: int, c: Cmd<string>) returns (r: Cmd<Range>)
    requires Writable(c) && At(t, s, Block(c)) && PipeStop(t, s + |Block(c)|)
    ensures View(t, r) == c && ParsePipe(t, s) == Parsed(r, s + |Block(c)|)
    decreases c, 7
  {
    hide ParseExec, View, Block, ParseRedirs, ParsePipe, Writable;
    r := BlockRun(t, s, c);
    var p := s + |Block(c)|;
    NoRedirs(t, r, p);
    PipeAlone(t, s, r, p);
  }

  /** parseline, once its pipe has been read and nothing follows. */
  lemma {:induction false} LineEnds(t: string, s: int, r: Cmd<Range>, e: int)
    requires 0 <= s <= |t| && ParsePipe(t, s) == Parsed(r, e) && Stop(t, e)
    ensures ParseLine(t, s) == Parsed(r, e)
  {
    StopQuiet(t, e);
    hide ParsePipe;
  }

  /** The round trip: a rendering, in front of ")" or the end, parses back to its tree. */
  lemma {:induction false} LineRun(t: string, s: int, c: Cmd<string>)
    requires Writable(c) && At(t, s, Render(c)) && Stop(t, s + |Render(c)|)
    ensures
      var r := ParseLine(t, s);
      r.Parsed? && r.s == s + |Render(c)| && View(t, r.cmd) == c
    decreases c, 5
  {
    var e := s + |Render(c)|;
    StopQuiet(t, e);
    match c
    case Exec(args) =>
      ExecRun(t, s, args);
      var r := ParseExec(t, s).cmd;
      PipeAlone(t, s, r, e);
      LineEnds(t, s, r, e);
    case Redir(d, f, fd) =>
      RedirRun(t, s, d, f, fd);
    case Pipe(l, r) =>
      PipeRun(t, s, l, r);
    case List(l, r) =>
      ListRun(t, s, l, r);
    case Back(d) =>
      BackRun(t, s, d);
  }

  lemma {:induction false} RedirRun(t: string, s: int, d: Cmd<string>, f: string, fd: int)
    requires Writable(Redir(d, f, fd)) && At(t, s, Render(Redir(d, f, fd))) && Stop(t, s + |Render(Redir(d, f, fd))|)
    ensures
      var r := ParseLine(t, s);
      r.Parsed? && r.s == s + |Render(Redir(d, f, fd))| && View(t, r.cmd) == Redir(d, f, fd)
    decreases Redir(d, f, fd), 4
  {
    hide ParseLine, ParsePipe, ParseExec, ParseRedirs, View, Block, Skip, GetToken, Peek;
    var p, x := s + |Block(d)|, if fd == 0 then "<" else ">";
    var e := p + 1 + |f|;
    AtSplit(t, s, Block(d) + x, f);
    AtSplit(t, s, Block(d), x);
    AtChar(t, p, x[0]);
    WordChar(t, p + 1, f);
    SymbolToken(t, p);
    StopQuiet(t, e);
    WordToken(t, p + 1, f);
    var r := BlockRun(t, s, d);
    var w := Range(p + 1, e);
    RedirsOne(t, r, p, w, fd);
    PipeAlone(t, s, Redir(r, w, fd), e);
    LineEnds(t, s, Redir(r, w, fd), e);
    ViewRedir(t, r, w, fd);
  }

  lemma {:induction false} ViewRedir(t: string, c: Cmd<Range>, w: Range, fd: int)
    ensures View(t, Redir(c, w, fd)) == Redir(View(t, c), TextOf(t, w), fd)
  {
  }

  /** One redirection and no more. */
  lemma {:induction false} RedirsOne(t: string, r: Cmd<Range>, p: int, w: Range, fd: int)
    requires 0 <= p < |t| && t[p] == (if fd == 0 then '<' else '>') && (fd == 0 || fd == 1)
    requires p + 1 < |t| && IsPlain(t[p + 1]) && Stop(t, w.eq)
    requires GetToken(t, p + 1) == Token('a', w.q, w.eq, w.eq)
    ensures ParseRedirs(t, r, p) == Parsed(Redir(r, w, fd), w.eq) && Skip(t, p) == p
  {
    SymbolToken(t, p);
    StopQuiet(t, w.eq);
    hide GetToken;
  }

  lemma {:induction false} PipeRun(t: string, s: int, l: Cmd<string>, r: Cmd<string>)
    requires Writable(Pipe(l, r)) && At(t, s, Render(Pipe(l, r))) && Stop(t, s + |Render(Pipe(l, r))|)
    ensures
      var x := ParseLine(t, s);
      x.Parsed? && x.s == s + |Render(Pipe(l, r))| && View(t, x.cmd) == Pipe(l, r)
    decreases Pipe(l, r), 4
  {
    hide ParseLine, ParsePipe, ParseExec, ParseRedirs, View, Block, Skip, GetToken, Peek, Backs;
    var p := s + |Block(l)|;
    var e := p + 1 + |Block(r)|;
    assert Render(Pipe(l, r)) == Block(l) + "|" + Block(r) && |Block(l) + "|"| == |Block(l)| + 1 && Stop(t, e);
    hide Render, Stop, At;
    AtSplit(t, s, Block(l) + "|", Block(r));
    AtSplit(t, s, Block(l), "|");
    AtChar(t, p, '|');
    SymbolToken(t, p);
    BlockStart(t, p + 1, r);
    var a := BlockRun(t, s, l);
    var b := PipeOfBlock(t, p + 1, r);
    NoRedirs(t, a, p);
    PipeJoins(t, s, a, b, p, e);
    LineEnds(t, s, Pipe(a, b), e);
    ViewPair(t, a, b);
  }

  lemma {:induction false} ViewPair(t: string, a: Cmd<Range>, b: Cmd<Range>)
    ensures View(t, Pipe(a, b)) == Pipe(View(t, a), View(t, b)) && View(t, List(a, b)) == List(View(t, a), View(t, b))
    ensures View(t, Back(a)) == Back(View(t, a))
  {
  }

  lemma {:induction false} BlockStart(t: string, p: int, c: Cmd<string>)
    requires At(t, p, Block(c))
    ensures 0 <= p < |t| && t[p] == '(' && Skip(t, p) == p
  {
    assert t[p..p + |Block(c)|][0] == '(';
  }

  lemma StopPipe(t: string, e: int)
    requires Stop(t, e)
    ensures PipeStop(t, e)
  {
  }

  lemma {:induction false} ListRun(t: string, s: int, l: Cmd<string>, r: Cmd<string>)
    requires Writable(List(l, r)) && At(t, s, Render(List(l, r))) && Stop(t, s + |Render(List(l, r))|)
    ensures
      var x := ParseLine(t, s);
      x.Parsed? && x.s == s + |Render(List(l, r))| && View(t, x.cmd) == List(l, r)
    decreases List(l, r), 4
  {
    hide ParseLine, ParsePipe, ParseExec, ParseRedirs, View, Block, Skip, GetToken, Peek, Backs;
    var p := s + |Block(l)|;
    var e := p + 1 + |Block(r)|;
    assert Render(List(l, r)) == Block(l) + ";" + Block(r) && |Block(l) + ";"| == |Block(l)| + 1 && Stop(t, e);
    hide Render, Stop, At;
    assert PipeStop(t, e) by { StopPipe(t, e); }
    AtSplit(t, s, Block(l) + ";", Block(r));
    AtSplit(t, s, Block(l), ";");
    AtChar(t, p, ';');
    SymbolToken(t, p);
    BlockStart(t, p + 1, r);
    var a := PipeOfBlock(t, s, l);
    var b := PipeOfBlock(t, p + 1, r);
    LineEnds(t, p + 1, b, e);
    ListJoins(t, s, a, b, p, e);
    ViewPair(t, a, b);
  }

  lemma {:induction false} BackRun(t: string, s: int, d: Cmd<string>)
    requires Writable(Back(d)) && At(t, s, Render(Back(d))) && Stop(t, s + |Render(Back(d))|)
    ensures
      var x := ParseLine(t, s);
      x.Parsed? && x.s == s + |Render(Back(d))| && View(t, x.cmd) == Back(d)
    decreases Back(d), 4
  {
    hide ParseLine, ParsePipe, ParseExec, ParseRedirs, View, Block, Skip, GetToken;
    var p := s + |Block(d)|;
    AtSplit(t, s, Block(d), "&");
    AtChar(t, p, '&');
    SymbolToken(t, p);
    StopQuiet(t, p + 1);
    var a := PipeOfBlock(t, s, d);
    BackJoins(t, s, a, p);
    ViewPair(t, a, a);
  }

  /** parsecmd reads every writable command back from its rendering. */
  lemma {:induction false} RoundTrip(c: Cmd<string>)
    requires Writable(c)
    ensures
      var r := ParseCmd(Render(c));
      r.Parsed? && View(Render(c), r.cmd) == c
  {
    var t := Render(c);
    assert t[0..0 + |t|] == t;
    LineRun(t, 0, c);
  }
}
