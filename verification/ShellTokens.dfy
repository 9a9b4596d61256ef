/**
 What the parser of Offline 3/xv6/sh.c makes of the tokens of a line: each word and each symbol of an accepted text is in
 the tree, once and in its place. The tokens are those of gettoken, one after the other, whatever the parser does.
 */
module ShellTokens {
  import opened ShellGrammar

  /** An argument, a redirection with its file, or one of the symbols that join commands. */
  datatype Item = Arg(w: Range) | File(w: Range, fd: int) | Dangling | Bar | Semi | Amp

  /** What the text from `s` on holds. Behind "<", ">" and ">>" a word is a file; the other words are arguments. */
  ghost function Items(t: string, s: int): multiset<Item>
    requires 0 <= s <= |t|
    decreases |t| - s
  {
    var tok := GetToken(t, s);
    if tok.kind == '\0' then multiset{}
    else if tok.kind == 'a' then multiset{Arg(Range(tok.q, tok.eq))} + Items(t, tok.next)
    else if tok.kind == '<' || tok.kind == '>' || tok.kind == '+' then
      var file := GetToken(t, tok.next);
      if file.kind == 'a' then multiset{File(Range(file.q, file.eq), if tok.kind == '<' then 0 else 1)} + Items(t, file.next)
      else multiset{Dangling} + Items(t, tok.next)
    else if tok.kind == '|' then multiset{Bar} + Items(t, tok.next)
    else if tok.kind == ';' then multiset{Semi} + Items(t, tok.next)
    else if tok.kind == '&' then multiset{Amp} + Items(t, tok.next)
    else Items(t, tok.next)
  }

  /** Opening less closing parentheses from `s` on. */
  ghost function Depth(t: string, s: int): int
    requires 0 <= s <= |t|
    decreases |t| - s
  {
    var tok := GetToken(t, s);
    if tok.kind == '\0' then 0
    else Depth(t, tok.next) + if tok.kind == '(' then 1 else if tok.kind == ')' then -1 else 0
  }

  ghost function ArgsOf(args: seq<Range>): multiset<Item>
    decreases |args|
  {
    if args == [] then multiset{} else ArgsOf(args[..|args| - 1]) + multiset{Arg(args[|args| - 1])}
  }

  /** What a tree holds. */
  ghost function ItemsOf(c: Cmd<Range>): multiset<Item> {
    match c
    case Exec(args) => ArgsOf(args)
    case Redir(d, f, fd) => ItemsOf(d) + multiset{File(f, fd)}
    case Pipe(l, r) => ItemsOf(l) + ItemsOf(r) + multiset{Bar}
    case List(l, r) => ItemsOf(l) + ItemsOf(r) + multiset{Semi}
    case Back(d) => ItemsOf(d) + multiset{Amp}
  }

  /** A command of words and redirections, as parseexec builds it. */
  predicate Simple(c: Cmd<Range>) {
    c.Exec? || (c.Redir? && Simple(c.cmd))
  }

  lemma {:induction false} AddArgItems(c: Cmd<Range>, w: Range)
    requires Simple(c)
    ensures Simple(AddArg(c, w)) && ItemsOf(AddArg(c, w)) == ItemsOf(c) + multiset{Arg(w)}
    decreases c
  {
    match c
    case Exec(args) =>
      assert (args + [w])[..|args|] == args;
    case Redir(d, _, _) =>
      AddArgItems(d, w);
  }

  /** Blanks in front make no difference. */
  lemma {:induction false} SkipItems(t: string, s: int)
    requires 0 <= s <= |t|
    ensures Items(t, Skip(t, s)) == Items(t, s) && Depth(t, Skip(t, s)) == Depth(t, s)
    ensures Skip(t, s) == |t| ==> Items(t, s) == multiset{} && Depth(t, s) == 0
  {
    assert GetToken(t, Skip(t, s)) == GetToken(t, s);
  }

  /** A symbol other than a redirection at the cursor. */
  lemma {:induction false} Symbol(t: string, q: int)
    requires 0 <= q < |t| && (t[q] == '|' || t[q] == ';' || t[q] == '&' || t[q] == '(' || t[q] == ')')
    ensures q < GetToken(t, q).next <= |t|
    ensures
      var next := GetToken(t, q).next;
      && Items(t, q) == (if t[q] == '|' then multiset{Bar} else if t[q] == ';' then multiset{Semi}
                         else if t[q] == '&' then multiset{Amp} else multiset{}) + Items(t, next)
      && Depth(t, q) == Depth(t, next) + if t[q] == '(' then 1 else if t[q] == ')' then -1 else 0
  {
    SymbolToken(t, q);
    hide GetToken, Skip;
  }

  lemma {:induction false} PeekedAt(t: string, s: int, c: char)
    requires 0 <= s <= |t| && Peek(t, s, [c])
    ensures s <= Skip(t, s) < |t| && t[Skip(t, s)] == c
  {
  }

  /** A redirection and its file. */
  lemma {:induction false} Redirection(t: string, s: int)
    requires 0 <= s <= |t| && Peek(t, s, "<>")
    ensures
      var tok := GetToken(t, Skip(t, s));
      var file := GetToken(t, tok.next);
      && s < tok.next <= file.next <= |t|
      && (file.kind == 'a' ==>
            && Items(t, s) == multiset{File(Range(file.q, file.eq), if tok.kind == '<' then 0 else 1)} + Items(t, file.next)
            && Depth(t, s) == Depth(t, file.next))
  {
    hide Items, Depth;
    SkipItems(t, s);
    var q := Skip(t, s);
    assert t[q] == '<' || t[q] == '>';
    AtRedirection(t, q);
  }

  lemma {:induction false} AtRedirection(t: string, q: int)
    requires 0 <= q < |t| && (t[q] == '<' || t[q] == '>')
    ensures
      var tok := GetToken(t, q);
      var file := GetToken(t, tok.next);
      && q < tok.next <= file.next <= |t|
      && (file.kind == 'a' ==>
            && Items(t, q) == multiset{File(Range(file.q, file.eq), if tok.kind == '<' then 0 else 1)} + Items(t, file.next)
            && Depth(t, q) == Depth(t, file.next))
  {
    var tok := GetToken(t, q);
    assert tok.kind == '<' || tok.kind == '>' || tok.kind == '+';
    hide GetToken;
    var file := GetToken(t, tok.next);
    assert file.kind == 'a' ==> Depth(t, tok.next) == Depth(t, file.next);
  }

  /** A word where no command goes on, or the end. */
  lemma {:induction false} Word(t: string, s: int)
    requires 0 <= s <= |t|
    ensures
      var tok := GetToken(t, Skip(t, s));
      && s <= tok.next <= |t| && (tok.kind == 'a' ==> s < tok.next)
      && (tok.kind == 'a' ==> Items(t, s) == multiset{Arg(Range(tok.q, tok.eq))} + Items(t, tok.next) && Depth(t, s) == Depth(t, tok.next))
      && (tok.kind == '\0' ==> Items(t, s) == Items(t, tok.next) && Depth(t, s) == Depth(t, tok.next))
  {
    hide GetToken, Skip;
    SkipItems(t, s);
    EndItems(t, Skip(t, s));
  }

  lemma {:induction false} EndItems(t: string, s: int)
    requires 0 <= s <= |t|
    ensures GetToken(t, s).kind == '\0' ==>
              Items(t, s) == Items(t, GetToken(t, s).next) && Depth(t, s) == Depth(t, GetToken(t, s).next)
  {
  }

  /** What is in the tree and what is still to be read are together what there was, and the parentheses read match. */
  ghost predicate Accounted(t: string, before: multiset<Item>, s: int, p: Parse) {
    p.Parsed? ==>
      0 <= s <= |t| && 0 <= p.s <= |t| && before + Items(t, s) == ItemsOf(p.cmd) + Items(t, p.s) && Depth(t, s) == Depth(t, p.s)
  }

  lemma {:induction false} RedirsAccount(t: string, c: Cmd<Range>, s: int)
    requires 0 <= s <= |t|
    ensures Accounted(t, ItemsOf(c), s, ParseRedirs(t, c, s))
    ensures ParseRedirs(t, c, s).Parsed? && Simple(c) ==> Simple(ParseRedirs(t, c, s).cmd)
    decreases |t| - s
  {
    hide Items, Depth, GetToken, Peek, Skip;
    if Peek(t, s, "<>") {
      Redirection(t, s);
      var tok := GetToken(t, Skip(t, s));
      var file := GetToken(t, tok.next);
      if file.kind == 'a' {
        RedirsAccount(t, Redir(c, Range(file.q, file.eq), if tok.kind == '<' then 0 else 1), file.next);
      }
    } else {
      SkipItems(t, s);
    }
  }

  lemma {:induction false} ArgsAccount(t: string, c: Cmd<Range>, argc: int, s: int)
    requires 0 <= s <= |t| && Simple(c)
    ensures Accounted(t, ItemsOf(c), s, ParseArgs(t, c, argc, s))
    decreases |t| - s
  {
    hide Items, Depth, GetToken, Peek, Skip, ParseRedirs, Simple, AddArg, ItemsOf;
    if Peek(t, s, "|)&;") {
      SkipItems(t, s);
    } else {
      Word(t, s);
      var tok := GetToken(t, Skip(t, s));
      if tok.kind == 'a' && argc + 1 < MAXARGS {
        var w := Range(tok.q, tok.eq);
        AddArgItems(c, w);
        RedirsAccount(t, AddArg(c, w), tok.next);
        var r := ParseRedirs(t, AddArg(c, w), tok.next);
        if r.Parsed? {
          ArgsAccount(t, r.cmd, argc + 1, r.s);
        }
      }
    }
  }

  lemma {:induction false} BacksAccount(t: string, c: Cmd<Range>, s: int)
    requires 0 <= s <= |t|
    ensures Accounted(t, ItemsOf(c), s, Backs(t, c, s))
    decreases |t| - s
  {
    hide Items, Depth, GetToken, Peek, Skip;
    SkipItems(t, s);
    if Peek(t, s, "&") {
      PeekedAt(t, s, '&');
      Symbol(t, Skip(t, s));
      BacksAccount(t, Back(c), GetToken(t, Skip(t, s)).next);
    }
  }

  lemma {:induction false} BlockAccount(t: string, s: int)
    requires 0 <= s <= |t|
    ensures Accounted(t, multiset{}, s, ParseBlock(t, s))
    decreases |t| - s, 1
  {
    hide Items, Depth, GetToken, Peek, Skip, ParseLine, ParseRedirs;
    if Peek(t, s, "(") {
      SkipItems(t, s);
      PeekedAt(t, s, '(');
      Symbol(t, Skip(t, s));
      var at := GetToken(t, Skip(t, s)).next;
      LineAccount(t, at);
      var r := ParseLine(t, at);
      if r.Parsed? && Peek(t, r.s, ")") {
        SkipItems(t, r.s);
        PeekedAt(t, r.s, ')');
        Symbol(t, Skip(t, r.s));
        RedirsAccount(t, r.cmd, GetToken(t, Skip(t, r.s)).next);
      }
    }
  }

  lemma {:induction false} ExecAccount(t: string, s: int)
    requires 0 <= s <= |t|
    ensures Accounted(t, multiset{}, s, ParseExec(t, s))
    decreases |t| - s, 2
  {
    hide Items, Depth, GetToken, Peek, Skip, ParseBlock, ParseRedirs, ParseArgs;
    SkipItems(t, s);
    if Peek(t, s, "(") {
      BlockAccount(t, Skip(t, s));
    } else {
      RedirsAccount(t, Exec([]), Skip(t, s));
      var r := ParseRedirs(t, Exec([]), Skip(t, s));
      if r.Parsed? {
        ArgsAccount(t, r.cmd, 0, r.s);
      }
    }
  }

  lemma Joined(a: multiset<Item>, b: multiset<Item>, i: multiset<Item>, rest: multiset<Item>)
    ensures multiset{} + (a + (i + (multiset{} + (b + rest)))) == a + b + i + rest
  {
  }

  lemma {:induction false} PipeAccount(t: string, s: int)
    requires 0 <= s <= |t|
    ensures Accounted(t, multiset{}, s, ParsePipe(t, s))
    decreases |t| - s, 4
  {
    hide Items, Depth, GetToken, Peek, Skip, ParseExec;
    ExecAccount(t, s);
    var r := ParseExec(t, s);
    if r.Parsed? {
      SkipItems(t, r.s);
      if Peek(t, r.s, "|") {
        PeekedAt(t, r.s, '|');
        Symbol(t, Skip(t, r.s));
        var next := GetToken(t, Skip(t, r.s)).next;
        PipeAccount(t, next);
        var rest := ParsePipe(t, next);
        if rest.Parsed? {
          Joined(ItemsOf(r.cmd), ItemsOf(rest.cmd), multiset{Bar}, Items(t, rest.s));
        }
      }
    }
  }

  lemma {:induction false} LineAccount(t: string, s: int)
    requires 0 <= s <= |t|
    ensures Accounted(t, multiset{}, s, ParseLine(t, s))
    decreases |t| - s, 5
  {
    hide Items, Depth, GetToken, Peek, Skip, ParsePipe, Backs;
    PipeAccount(t, s);
    var r := ParsePipe(t, s);
    if r.Parsed? {
      BacksAccount(t, r.cmd, r.s);
      var b := Backs(t, r.cmd, r.s);
      SkipItems(t, b.s);
      if Peek(t, b.s, ";") {
        PeekedAt(t, b.s, ';');
        Symbol(t, Skip(t, b.s));
        var next := GetToken(t, Skip(t, b.s)).next;
        LineAccount(t, next);
        var rest := ParseLine(t, next);
        if rest.Parsed? {
          Joined(ItemsOf(b.cmd), ItemsOf(rest.cmd), multiset{Semi}, Items(t, rest.s));
        }
      }
    }
  }

  /** Every word of an accepted text is in the tree once, as an argument or as the file of its redirection; there is a node
      for each symbol, and the parentheses match. */
  lemma {:induction false} NothingLost(t: string)
    ensures ParseCmd(t).Parsed? ==> ItemsOf(ParseCmd(t).cmd) == Items(t, 0) && Depth(t, 0) == 0
  {
    hide Items, Depth, Skip, ParseLine, ItemsOf;
    LineAccount(t, 0);
    var r := ParseLine(t, 0);
    if r.Parsed? && Skip(t, r.s) == |t| {
      SkipItems(t, r.s);
      assert ItemsOf(r.cmd) == multiset{} + Items(t, 0);
    }
  }

  // ---------------------------------------------------------------------------------------------
  // The order of the words
  // ---------------------------------------------------------------------------------------------

  /** The words of a tree lie in the text between two places. */
  predicate Within(c: Cmd<Range>, lo: int, hi: int) {
    match c
    case Exec(args) => forall i :: 0 <= i < |args| ==> lo <= args[i].q <= args[i].eq <= hi
    case Redir(d, f, _) => Within(d, lo, hi) && lo <= f.q <= f.eq <= hi
    case Pipe(l, r) => Within(l, lo, hi) && Within(r, lo, hi)
    case List(l, r) => Within(l, lo, hi) && Within(r, lo, hi)
    case Back(d) => Within(d, lo, hi)
  }

  /** Arguments, and redirections from the inside out, are in the order of the text, and so are the two sides of a pipe or
      list. */
  ghost predicate InOrder(c: Cmd<Range>) {
    match c
    case Exec(args) => forall i, j :: 0 <= i < j < |args| ==> args[i].eq <= args[j].q
    case Redir(d, f, _) => InOrder(d) && (d.Redir? ==> d.file.eq <= f.q)
    case Pipe(l, r) => InOrder(l) && InOrder(r) && Apart(l, r)
    case List(l, r) => InOrder(l) && InOrder(r) && Apart(l, r)
    case Back(d) => InOrder(d)
  }

  ghost predicate Apart(l: Cmd<Range>, r: Cmd<Range>) {
    exists lo, m, hi :: Within(l, lo, m) && Within(r, m, hi)
  }

  lemma {:induction false} WithinMore(c: Cmd<Range>, lo: int, hi: int, lo': int, hi': int)
    requires Within(c, lo, hi) && lo' <= lo && hi <= hi'
    ensures Within(c, lo', hi')
    decreases c
  {
    match c
    case Exec(_) =>
    case Redir(d, _, _) =>
      WithinMore(d, lo, hi, lo', hi');
    case Back(d) =>
      WithinMore(d, lo, hi, lo', hi');
    case Pipe(l, r) =>
      WithinMore(l, lo, hi, lo', hi');
      WithinMore(r, lo, hi, lo', hi');
    case List(l, r) =>
      WithinMore(l, lo, hi, lo', hi');
      WithinMore(r, lo, hi, lo', hi');
  }

  lemma {:induction false} AddArgOrder(c: Cmd<Range>, w: Range, lo: int)
    requires Simple(c) && InOrder(c) && Within(c, lo, w.q) && lo <= w.q <= w.eq
    ensures InOrder(AddArg(c, w)) && Within(AddArg(c, w), lo, w.eq)
    ensures c.Redir? ==> AddArg(c, w).Redir? && AddArg(c, w).file == c.file
    decreases c
  {
    if c.Redir? {
      AddArgOrder(c.cmd, w, lo);
    }
  }

  /** The command read so far, or just read, is in order and lies between `lo` and the cursor. */
  ghost predicate Placed(t: string, lo: int, p: Parse) {
    p.Parsed? ==> 0 <= p.s <= |t| && InOrder(p.cmd) && Within(p.cmd, lo, p.s)
  }

  lemma {:induction false} Tokens(t: string, s: int)
    requires 0 <= s <= |t|
    ensures
      var tok := GetToken(t, Skip(t, s));
      s <= Skip(t, s) <= |t| && s <= tok.q <= tok.eq <= tok.next <= |t| && (tok.kind != '\0' ==> s < tok.next)
  {
  }

  lemma {:induction false} PeekSome(t: string, s: int, toks: string)
    requires 0 <= s <= |t| && Peek(t, s, toks) && '\0' !in toks
    ensures GetToken(t, Skip(t, s)).kind != '\0'
  {
  }

  lemma {:induction false} RedirsPlaced(t: string, c: Cmd<Range>, lo: int, s: int)
    requires 0 <= lo <= s <= |t| && Placed(t, lo, Parsed(c, s))
    ensures Placed(t, lo, ParseRedirs(t, c, s))
    decreases |t| - s
  {
    hide GetToken, Peek, Skip;
    Tokens(t, s);
    WithinMore(c, lo, s, lo, Skip(t, s));
    if Peek(t, s, "<>") {
      PeekSome(t, s, "<>");
      var tok := GetToken(t, Skip(t, s));
      var file := GetToken(t, tok.next);
      if file.kind == 'a' {
        var w := Range(file.q, file.eq);
        WithinMore(c, lo, s, lo, file.next);
        if c.Redir? {
          assert c.file.eq <= s;
        }
        RedirsPlaced(t, Redir(c, w, if tok.kind == '<' then 0 else 1), lo, file.next);
      }
    }
  }

  lemma {:induction false} ArgsPlaced(t: string, c: Cmd<Range>, argc: int, lo: int, s: int)
    requires 0 <= lo <= s <= |t| && Placed(t, lo, Parsed(c, s)) && Simple(c)
    ensures Placed(t, lo, ParseArgs(t, c, argc, s))
    decreases |t| - s
  {
    hide GetToken, Peek, Skip, ParseRedirs, Simple, AddArg, Within, InOrder;
    Tokens(t, s);
    var tok := GetToken(t, Skip(t, s));
    WithinMore(c, lo, s, lo, Skip(t, s));
    WithinMore(c, lo, s, lo, tok.next);
    if !Peek(t, s, "|)&;") && tok.kind == 'a' && argc + 1 < MAXARGS {
      var w := Range(tok.q, tok.eq);
      WithinMore(c, lo, s, lo, w.q);
      AddArgOrder(c, w, lo);
      AddArgItems(c, w);
      WithinMore(AddArg(c, w), lo, w.eq, lo, tok.next);
      RedirsAccount(t, AddArg(c, w), tok.next);
      RedirsPlaced(t, AddArg(c, w), lo, tok.next);
      var r := ParseRedirs(t, AddArg(c, w), tok.next);
      if r.Parsed? {
        ArgsPlaced(t, r.cmd, argc + 1, lo, r.s);
      }
    }
  }

  lemma {:induction false} BacksPlaced(t: string, c: Cmd<Range>, lo: int, s: int)
    requires 0 <= lo <= s <= |t| && Placed(t, lo, Parsed(c, s))
    ensures Placed(t, lo, Backs(t, c, s))
    decreases |t| - s
  {
    hide GetToken, Peek, Skip;
    Tokens(t, s);
    WithinMore(c, lo, s, lo, Skip(t, s));
    if Peek(t, s, "&") {
      PeekSome(t, s, "&");
      var next := GetToken(t, Skip(t, s)).next;
      WithinMore(c, lo, s, lo, next);
      BacksPlaced(t, Back(c), lo, next);
    }
  }

  lemma {:induction false} BlockPlaced(t: string, s: int)
    requires 0 <= s <= |t|
    ensures Placed(t, s, ParseBlock(t, s))
    decreases |t| - s, 1
  {
    hide GetToken, Peek, Skip, ParseLine, ParseRedirs, Within, InOrder;
    Tokens(t, s);
    if Peek(t, s, "(") {
      PeekSome(t, s, "(");
      var at := GetToken(t, Skip(t, s)).next;
      LinePlaced(t, at);
      var r := ParseLine(t, at);
      if r.Parsed? && Peek(t, r.s, ")") {
        Tokens(t, r.s);
        var next := GetToken(t, Skip(t, r.s)).next;
        WithinMore(r.cmd, at, r.s, s, next);
        RedirsPlaced(t, r.cmd, s, next);
      }
    }
  }

  lemma {:induction false} ExecPlaced(t: string, s: int)
    requires 0 <= s <= |t|
    ensures Placed(t, s, ParseExec(t, s))
    decreases |t| - s, 2
  {
    hide GetToken, Peek, Skip, ParseBlock, ParseRedirs, ParseArgs;
    Tokens(t, s);
    var at := Skip(t, s);
    if Peek(t, s, "(") {
      BlockPlaced(t, at);
      var r := ParseBlock(t, at);
      if r.Parsed? {
        WithinMore(r.cmd, at, r.s, s, r.s);
      }
    } else {
      RedirsPlaced(t, Exec([]), s, at);
      RedirsAccount(t, Exec([]), at);
      var r := ParseRedirs(t, Exec([]), at);
      if r.Parsed? {
        ArgsPlaced(t, r.cmd, 0, s, r.s);
      }
    }
  }

  /** Two commands, one read after the other. */
  lemma {:induction false} Joins(l: Cmd<Range>, r: Cmd<Range>, lo: int, m: int, next: int, hi: int)
    requires InOrder(l) && InOrder(r) && Within(l, lo, m) && Within(r, next, hi) && lo <= m <= next <= hi
    ensures InOrder(Pipe(l, r)) && Within(Pipe(l, r), lo, hi) && InOrder(List(l, r)) && Within(List(l, r), lo, hi)
  {
    WithinMore(l, lo, m, lo, next);
    WithinMore(l, lo, m, lo, hi);
    WithinMore(r, next, hi, lo, hi);
    assert Apart(l, r);
  }

  lemma {:induction false} PipePlaced(t: string, s: int)
    requires 0 <= s <= |t|
    ensures Placed(t, s, ParsePipe(t, s))
    decreases |t| - s, 4
  {
    hide GetToken, Peek, Skip, ParseExec, Within, InOrder;
    ExecPlaced(t, s);
    var r := ParseExec(t, s);
    if r.Parsed? {
      Tokens(t, r.s);
      WithinMore(r.cmd, s, r.s, s, Skip(t, r.s));
      if Peek(t, r.s, "|") {
        PeekSome(t, r.s, "|");
        var next := GetToken(t, Skip(t, r.s)).next;
        PipePlaced(t, next);
        var rest := ParsePipe(t, next);
        if rest.Parsed? {
          Joins(r.cmd, rest.cmd, s, r.s, next, rest.s);
        }
      }
    }
  }

  lemma {:induction false} LinePlaced(t: string, s: int)
    requires 0 <= s <= |t|
    ensures Placed(t, s, ParseLine(t, s))
    decreases |t| - s, 5
  {
    hide GetToken, Peek, Skip, ParsePipe, Backs, Within, InOrder;
    PipePlaced(t, s);
    var r := ParsePipe(t, s);
    if r.Parsed? {
      BacksPlaced(t, r.cmd, s, r.s);
      var b := Backs(t, r.cmd, r.s);
      Tokens(t, b.s);
      WithinMore(b.cmd, s, b.s, s, Skip(t, b.s));
      if Peek(t, b.s, ";") {
        PeekSome(t, b.s, ";");
        var next := GetToken(t, Skip(t, b.s)).next;
        LinePlaced(t, next);
        var rest := ParseLine(t, next);
        if rest.Parsed? {
          Joins(b.cmd, rest.cmd, s, b.s, next, rest.s);
        }
      }
    }
  }

  /** In an accepted text the words of the tree are in the order of the text. */
  lemma {:induction false} OrderKept(t: string)
    ensures ParseCmd(t).Parsed? ==> InOrder(ParseCmd(t).cmd) && Within(ParseCmd(t).cmd, 0, |t|)
  {
    hide ParseLine, Within, InOrder, Skip;
    LinePlaced(t, 0);
    var r := ParseLine(t, 0);
    if r.Parsed? {
      WithinMore(r.cmd, 0, r.s, 0, |t|);
    }
  }
}
