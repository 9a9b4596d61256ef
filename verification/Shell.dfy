/**
 The parser of Offline 3/xv6/sh.c as code: recursive descent that advances one shared cursor, and
 nulterminate, which cuts the words of the finished tree out of the buffer.
 */
module Shell {
  import opened Wrappers
  import opened ShellGrammar
  import opened ShellTokens

  /** The outcome of a parsing function is that of its specification. */
  predicate Agrees(p: Parse, r: Option<Cmd<Range>>, s: int) {
    match p
    case Panic => r.None?
    case Parsed(c, s1) => r == Some(c) && s == s1
  }

  /** A range that is exactly one word of the text: it ends at the text's end, a blank or a symbol. */
  predicate ProperWord(t: string, w: Range) {
    && 0 <= w.q < w.eq <= |t|
    && (forall k :: w.q <= k < w.eq ==> IsPlain(t[k]))
    && (w.eq < |t| ==> !IsPlain(t[w.eq]))
  }

  predicate HasWord(c: Cmd<Range>, w: Range) {
    match c
    case Exec(args) => w in args
    case Redir(d, f, fd) => w == f || HasWord(d, w)
    case Pipe(l, r) => HasWord(l, w) || HasWord(r, w)
    case List(l, r) => HasWord(l, w) || HasWord(r, w)
    case Back(d) => HasWord(d, w)
  }

  ghost predicate Proper(t: string, c: Cmd<Range>) {
    forall w :: HasWord(c, w) ==> ProperWord(t, w)
  }

  lemma {:induction false} AddedWord(c: Cmd<Range>, w: Range, x: Range)
    ensures HasWord(AddArg(c, w), x) ==> x == w || HasWord(c, x)
    decreases c
  {
    if c.Redir? {
      AddedWord(c.cmd, w, x);
    }
  }

  lemma {:induction false} AddedProper(t: string, c: Cmd<Range>, w: Range)
    requires Proper(t, c) && ProperWord(t, w)
    ensures Proper(t, AddArg(c, w))
  {
    forall x | HasWord(AddArg(c, w), x)
      ensures ProperWord(t, x)
    {
      AddedWord(c, w, x);
    }
  }

  predicate CString(t: string) {
    forall k :: 0 <= k < |t| ==> t[k] != '\0'
  }

  lemma TokenProper(t: string, s: int)
    requires CString(t) && 0 <= s <= |t| && GetToken(t, s).kind == 'a'
    ensures ProperWord(t, Range(GetToken(t, s).q, GetToken(t, s).eq))
  {
    var q := Skip(t, s);
    assert q < |t|;
    assert WordEnd(t, q) > q;
  }

  lemma {:induction false} TokenIs(t: string, s: int)
    requires CString(t) && 0 <= s <= |t|
    ensures GetToken(t, s).kind == 'a' ==> ProperWord(t, Range(GetToken(t, s).q, GetToken(t, s).eq))
    ensures Skip(t, s) == |t| || t[Skip(t, s)] != '\0'
    ensures Skip(t, |t|) == |t|
  {
    if GetToken(t, s).kind == 'a' {
      TokenProper(t, s);
    }
  }

  class Parser {
    const t: string
    var s: int

    constructor (t: string)
      ensures this.t == t && s == 0
    {
      this.t, s := t, 0;
    }

    predicate Valid()
      reads this
    {
      0 <= s <= |t| && CString(t)
    }

    method SkipWhite()
      requires Valid()
      modifies this
      ensures Valid() && s == Skip(t, old(s))
    {
      while s < |t| && IsWhite(t[s])
        invariant 0 <= s <= |t| && Skip(t, s) == Skip(t, old(s))
        decreases |t| - s
      {
        s := s + 1;
      }
    }

    /** gettoken's loop over a word. */
    method SkipWord()
      requires Valid()
      modifies this
      ensures Valid() && s == WordEnd(t, old(s))
    {
      while s < |t| && !IsWhite(t[s]) && !IsSymbol(t[s])
        invariant 0 <= s <= |t| && WordEnd(t, s) == WordEnd(t, old(s))
        decreases |t| - s
      {
        s := s + 1;
      }
    }

    method Gettoken() returns (tok: Token)
      requires Valid()
      modifies this
      ensures Valid() && tok == GetToken(t, old(s)) && s == tok.next
      ensures tok.kind != '\0' ==> s > old(s)
      ensures tok.kind == 'a' ==> ProperWord(t, Range(tok.q, tok.eq))
    {
      hide Skip, WordEnd, ProperWord, CString;
      TokenIs(t, s);
      SkipWhite();
      var q, kind := s, 'a';
      if s == |t| {
        kind := '\0';
      } else if t[s] == '|' || t[s] == '(' || t[s] == ')' || t[s] == ';' || t[s] == '&' || t[s] == '<' {
        kind := t[s];
        s := s + 1;
      } else if t[s] == '>' {
        kind := '>';
        s := s + 1;
        if s < |t| && t[s] == '>' {
          kind := '+';
          s := s + 1;
        }
      } else {
        SkipWord();
      }
      var eq := s;
      SkipWhite();
      tok := Token(kind, q, eq, s);
    }

    method PeekFor(toks: string) returns (b: bool)
      requires Valid()
      modifies this
      ensures Valid() && s == Skip(t, old(s)) && b == Peek(t, old(s), toks)
      ensures b ==> GetToken(t, s).kind != '\0'
    {
      SkipWhite();
      b := s < |t| && t[s] in toks;
    }

    /** None is a panic: the shell prints a message and exits. */
    method Parseline() returns (r: Option<Cmd<Range>>)
      requires Valid()
      modifies this
      ensures Valid() && old(s) <= s && Agrees(ParseLine(t, old(s)), r, s) && (r.Some? ==> Proper(t, r.value))
      decreases |t| - s, 5
    {
      hide Proper, GetToken, Skip, Peek, CString;
      r := Parsepipe();
      if r.None? {
        return;
      }
      var cmd := ParseBacks(r.value);
      var semi := PeekFor(";");
      if semi {
        var tok := Gettoken();
        var rest := Parseline();
        if rest.None? {
          return None;
        }
        PairProper(t, cmd, rest.value);
        cmd := List(cmd, rest.value);
      }
      r := Some(cmd);
    }

    /** parseline's loop over "&". */
    method ParseBacks(cmd0: Cmd<Range>) returns (cmd: Cmd<Range>)
      requires Valid() && Proper(t, cmd0)
      modifies this
      ensures Valid() && old(s) <= s && Backs(t, cmd0, old(s)) == Parsed(cmd, s) && Proper(t, cmd) && Skip(t, s) == s
    {
      hide Proper, GetToken, Skip, Peek, CString;
      cmd := cmd0;
      Blank(t, s, cmd, 0);
      var more := PeekFor("&");
      Blank(t, s, cmd, 0);
      while more
        invariant Valid() && old(s) <= s && Proper(t, cmd) && Skip(t, s) == s && more == Peek(t, s, "&")
        invariant more ==> GetToken(t, s).kind != '\0'
        invariant Backs(t, cmd0, old(s)) == Backs(t, cmd, s)
        decreases |t| - s
      {
        var tok := Gettoken();
        BackProper(t, cmd);
        cmd := Back(cmd);
        Blank(t, s, cmd, 0);
        more := PeekFor("&");
      }
    }

    method Parsepipe() returns (r: Option<Cmd<Range>>)
      requires Valid()
      modifies this
      ensures Valid() && old(s) <= s && Agrees(ParsePipe(t, old(s)), r, s) && (r.Some? ==> Proper(t, r.value))
      decreases |t| - s, 4
    {
      hide Proper, GetToken, Skip, Peek, CString;
      r := Parseexec();
      if r.None? {
        return;
      }
      var bar := PeekFor("|");
      if bar {
        var tok := Gettoken();
        var rest := Parsepipe();
        if rest.None? {
          return None;
        }
        PairProper(t, r.value, rest.value);
        r := Some(Pipe(r.value, rest.value));
      }
    }

    method Parseredirs(cmd0: Cmd<Range>) returns (r: Option<Cmd<Range>>)
      requires Valid() && Proper(t, cmd0)
      modifies this
      ensures Valid() && old(s) <= s && Agrees(ParseRedirs(t, cmd0, old(s)), r, s) && (r.Some? ==> Proper(t, r.value))
    {
      hide Proper, GetToken, Skip, Peek, CString, ProperWord, ParseRedirs;
      var cmd := cmd0;
      BlankRedirs(t, s, cmd);
      var more := PeekFor("<>");
      while more
        invariant Valid() && old(s) <= s && Proper(t, cmd) && Skip(t, s) == s && more == Peek(t, s, "<>")
        invariant ParseRedirs(t, cmd0, old(s)) == ParseRedirs(t, cmd, s)
        decreases |t| - s
      {
        RedirsStep(t, cmd, s);
        var tok := Gettoken();
        var file := Gettoken();
        if file.kind != 'a' {
          return None;
        }
        RedirProper(t, cmd, Range(file.q, file.eq), if tok.kind == '<' then 0 else 1);
        cmd := Redir(cmd, Range(file.q, file.eq), if tok.kind == '<' then 0 else 1);
        BlankRedirs(t, s, cmd);
        more := PeekFor("<>");
      }
      RedirsStep(t, cmd, s);
      r := Some(cmd);
    }

    method Parseblock() returns (r: Option<Cmd<Range>>)
      requires Valid()
      modifies this
      ensures Valid() && old(s) <= s && Agrees(ParseBlock(t, old(s)), r, s) && (r.Some? ==> Proper(t, r.value))
      decreases |t| - s, 1
    {
      hide Proper, GetToken, Skip, Peek, CString, ParseLine, ParseRedirs;
      var open := PeekFor("(");
      if !open {
        return None;
      }
      var tok := Gettoken();
      r := Parseline();
      if r.None? {
        return;
      }
      var close := PeekFor(")");
      if !close {
        return None;
      }
      tok := Gettoken();
      r := Parseredirs(r.value);
    }

    method Parseexec() returns (r: Option<Cmd<Range>>)
      requires Valid()
      modifies this
      ensures Valid() && old(s) <= s && Agrees(ParseExec(t, old(s)), r, s) && (r.Some? ==> Proper(t, r.value))
      decreases |t| - s, 2
    {
      hide Proper, GetToken, Skip, Peek, CString, ParseBlock, ParseRedirs;
      var open := PeekFor("(");
      if open {
        r := Parseblock();
        return;
      }
      NoWords(t);
      r := Parseredirs(Exec([]));
      if r.None? {
        return;
      }
      r := ParseWords(r.value);
    }

    /** parseexec's loop over the words. */
    method ParseWords(cmd0: Cmd<Range>) returns (r: Option<Cmd<Range>>)
      requires Valid() && Proper(t, cmd0)
      modifies this
      ensures Valid() && old(s) <= s && Agrees(ParseArgs(t, cmd0, 0, old(s)), r, s) && (r.Some? ==> Proper(t, r.value))
    {
      hide Proper, GetToken, Skip, Peek, CString, ProperWord, ParseRedirs, ParseArgs, AddArg;
      var cmd, argc := cmd0, 0;
      BlankWords(t, s, cmd, argc);
      var stop := PeekFor("|)&;");
      while !stop
        invariant Valid() && old(s) <= s && Proper(t, cmd) && Skip(t, s) == s && stop == Peek(t, s, "|)&;")
        invariant ParseArgs(t, cmd0, 0, old(s)) == ParseArgs(t, cmd, argc, s)
        decreases |t| - s
      {
        ArgsStep(t, cmd, argc, s);
        var tok := Gettoken();
        if tok.kind == '\0' {
          return Some(cmd);
        }
        if tok.kind != 'a' {
          return None;
        }
        AddedProper(t, cmd, Range(tok.q, tok.eq));
        cmd := AddArg(cmd, Range(tok.q, tok.eq));
        argc := argc + 1;
        if argc >= MAXARGS {
          return None;
        }
        r := Parseredirs(cmd);
        if r.None? {
          return;
        }
        cmd := r.value;
        BlankWords(t, s, cmd, argc);
        stop := PeekFor("|)&;");
      }
      ArgsStep(t, cmd, argc, s);
      r := Some(cmd);
    }
  }

  /** One turn of the loop over the words. */
  lemma ArgsStep(t: string, c: Cmd<Range>, argc: int, s: int)
    requires 0 <= s <= |t| && Skip(t, s) == s
    ensures Peek(t, s, "|)&;") ==> ParseArgs(t, c, argc, s) == Parsed(c, s)
    ensures
      var tok := GetToken(t, s);
      !Peek(t, s, "|)&;") ==>
        && 0 <= tok.next <= |t|
        && ParseArgs(t, c, argc, s) ==
           if tok.kind == '\0' then Parsed(c, tok.next)
           else if tok.kind != 'a' || argc + 1 >= MAXARGS then Panic
           else
             match ParseRedirs(t, AddArg(c, Range(tok.q, tok.eq)), tok.next)
             case Panic => Panic
             case Parsed(c2, s2) => ParseArgs(t, c2, argc + 1, s2)
  {
    hide GetToken, Skip, Peek, ParseRedirs, AddArg;
  }

  lemma {:induction false} BlankWords(t: string, s: int, c: Cmd<Range>, argc: int)
    requires 0 <= s <= |t|
    ensures Skip(t, Skip(t, s)) == Skip(t, s) && Peek(t, Skip(t, s), "|)&;") == Peek(t, s, "|)&;")
    ensures ParseArgs(t, c, argc, Skip(t, s)) == ParseArgs(t, c, argc, s)
  {
    hide GetToken;
    Blank(t, s, c, argc);
  }

  lemma {:induction false} BlankRedirs(t: string, s: int, c: Cmd<Range>)
    requires 0 <= s <= |t|
    ensures Skip(t, Skip(t, s)) == Skip(t, s) && Peek(t, Skip(t, s), "<>") == Peek(t, s, "<>")
    ensures ParseRedirs(t, c, Skip(t, s)) == ParseRedirs(t, c, s)
  {
    hide GetToken;
    Blank(t, s, c, 0);
  }

  /** One turn of the loop over the redirections. */
  lemma RedirsStep(t: string, c: Cmd<Range>, s: int)
    requires 0 <= s <= |t| && Skip(t, s) == s
    ensures !Peek(t, s, "<>") ==> ParseRedirs(t, c, s) == Parsed(c, s)
    ensures
      var tok := GetToken(t, s);
      Peek(t, s, "<>") ==>
        && 0 <= tok.next <= |t|
        && var file := GetToken(t, tok.next);
        && 0 <= file.next <= |t|
        && ParseRedirs(t, c, s) ==
           if file.kind != 'a' then Panic
           else ParseRedirs(t, Redir(c, Range(file.q, file.eq), if tok.kind == '<' then 0 else 1), file.next)
  {
    hide GetToken, Skip, Peek;
  }

  /** Blanks in front of the cursor make no difference. */
  lemma {:induction false} Blank(t: string, s: int, c: Cmd<Range>, argc: int)
    requires 0 <= s <= |t|
    ensures Skip(t, Skip(t, s)) == Skip(t, s)
    ensures forall toks :: Peek(t, Skip(t, s), toks) == Peek(t, s, toks)
    ensures Backs(t, c, Skip(t, s)) == Backs(t, c, s) && ParseRedirs(t, c, Skip(t, s)) == ParseRedirs(t, c, s)
    ensures ParseArgs(t, c, argc, Skip(t, s)) == ParseArgs(t, c, argc, s)
  {
    hide GetToken;
  }

  lemma {:induction false} BackProper(t: string, c: Cmd<Range>)
    requires Proper(t, c)
    ensures Proper(t, Back(c))
  {
  }

  lemma {:induction false} PairProper(t: string, c: Cmd<Range>, d: Cmd<Range>)
    requires Proper(t, c) && Proper(t, d)
    ensures Proper(t, List(c, d)) && Proper(t, Pipe(c, d))
  {
  }

  lemma {:induction false} RedirProper(t: string, c: Cmd<Range>, w: Range, fd: int)
    requires Proper(t, c) && ProperWord(t, w)
    ensures Proper(t, Redir(c, w, fd))
  {
  }

  lemma NoWords(t: string)
    ensures Proper(t, Exec([]))
  {
  }

  // ---------------------------------------------------------------------------------------------
  // nulterminate
  // ---------------------------------------------------------------------------------------------

  /** Position `k` is the end of some word of the tree. */
  predicate EndsAt(c: Cmd<Range>, k: int) {
    match c
    case Exec(args) => exists i :: 0 <= i < |args| && args[i].eq == k
    case Redir(d, f, fd) => f.eq == k || EndsAt(d, k)
    case Pipe(l, r) => EndsAt(l, k) || EndsAt(r, k)
    case List(l, r) => EndsAt(l, k) || EndsAt(r, k)
    case Back(d) => EndsAt(d, k)
  }

  ghost predicate Fits(c: Cmd<Range>, n: int) {
    forall w :: HasWord(c, w) ==> 0 <= w.eq < n
  }

  /** nulterminate writes a NUL behind every word of the tree, and nothing else. */
  method Nulterminate(c: Cmd<Range>, buf: array<char>)
    requires Fits(c, buf.Length)
    modifies buf
    ensures forall k :: 0 <= k < buf.Length ==> buf[k] == if EndsAt(c, k) then '\0' else old(buf[k])
    decreases c
  {
    FitsParts(c, buf.Length);
    hide Fits, HasWord;
    match c {
      case Exec(args) =>
        var i := 0;
        while i < |args|
          invariant 0 <= i <= |args|
          invariant forall k :: 0 <= k < buf.Length ==>
                      buf[k] == if (exists j :: 0 <= j < i && args[j].eq == k) then '\0' else old(buf[k])
        {
          buf[args[i].eq] := '\0';
          i := i + 1;
        }
      case Redir(d, f, fd) =>
        Nulterminate(d, buf);
        buf[f.eq] := '\0';
      case Pipe(l, r) =>
        Nulterminate(l, buf);
        Nulterminate(r, buf);
      case List(l, r) =>
        Nulterminate(l, buf);
        Nulterminate(r, buf);
      case Back(d) =>
        Nulterminate(d, buf);
    }
  }

  lemma {:induction false} FitsParts(c: Cmd<Range>, n: int)
    requires Fits(c, n)
    ensures c.Exec? ==> forall i :: 0 <= i < |c.args| ==> 0 <= c.args[i].eq < n
    ensures c.Redir? ==> Fits(c.cmd, n) && 0 <= c.file.eq < n
    ensures c.Pipe? ==> Fits(c.left, n) && Fits(c.right, n)
    ensures c.List? ==> Fits(c.left, n) && Fits(c.right, n)
    ensures c.Back? ==> Fits(c.cmd, n)
  {
    if c.Exec? {
      forall i | 0 <= i < |c.args|
        ensures 0 <= c.args[i].eq < n
      {
        assert HasWord(c, c.args[i]);
      }
    } else if c.Redir? {
      assert HasWord(c, c.file);
    }
  }

  lemma {:induction false} EndsAtIs(c: Cmd<Range>, k: int)
    ensures EndsAt(c, k) <==> exists w :: HasWord(c, w) && w.eq == k
    decreases c
  {
    match c
    case Exec(args) =>
      if EndsAt(c, k) {
        var i :| 0 <= i < |args| && args[i].eq == k;
        assert HasWord(c, args[i]);
      }
    case Redir(d, f, fd) =>
      EndsAtIs(d, k);
      assert HasWord(c, f);
    case Pipe(l, r) =>
      EndsAtIs(l, k);
      EndsAtIs(r, k);
    case List(l, r) =>
      EndsAtIs(l, k);
      EndsAtIs(r, k);
    case Back(d) =>
      EndsAtIs(d, k);
  }

  /** The C string at position `q` of the buffer. */
  function StringAt(buf: seq<char>, q: int): string
    requires 0 <= q <= |buf|
    decreases |buf| - q
  {
    if q == |buf| || buf[q] == '\0' then [] else [buf[q]] + StringAt(buf, q + 1)
  }

  lemma {:induction false} StringIs(buf: seq<char>, q: int, e: int)
    requires 0 <= q <= e < |buf| && buf[e] == '\0' && forall k :: q <= k < e ==> buf[k] != '\0'
    ensures StringAt(buf, q) == buf[q..e]
    decreases e - q
  {
    if q < e {
      StringIs(buf, q + 1, e);
      assert buf[q..e] == [buf[q]] + buf[q + 1..e];
    }
  }

  /** Every word of the tree reads back as exactly its token: no terminator falls inside another word. */
  lemma {:induction false} WordsReadBack(t: string, c: Cmd<Range>, buf: seq<char>, w: Range)
    requires Proper(t, c) && HasWord(c, w) && |buf| == |t| + 1 && buf[|t|] == '\0'
    requires forall k :: 0 <= k < |t| ==> buf[k] == if EndsAt(c, k) then '\0' else t[k]
    ensures 0 <= w.q <= |buf| && StringAt(buf, w.q) == TextOf(t, w)
  {
    assert ProperWord(t, w);
    EndsAtIs(c, w.eq);
    forall k | w.q <= k < w.eq
      ensures buf[k] == t[k] && t[k] != '\0'
    {
      EndsAtIs(c, k);
      forall x | HasWord(c, x)
        ensures x.eq != k
      {
        assert ProperWord(t, x);
      }
    }
    StringIs(buf, w.q, w.eq);
    assert buf[w.q..w.eq] == t[w.q..w.eq];
  }

  lemma ProperFits(t: string, c: Cmd<Range>)
    requires Proper(t, c)
    ensures Fits(c, |t| + 1)
  {
  }

  /** parsecmd: None where the shell panics; otherwise the tree. It holds each word and symbol of the text once, in the
      order of the text, and all its words read back as their tokens. */
  method Parsecmd(buf: array<char>) returns (r: Option<Cmd<Range>>)
    requires buf.Length > 0 && buf[buf.Length - 1] == '\0' && CString(buf[..buf.Length - 1])
    modifies buf
    ensures
      var t := old(buf[..buf.Length - 1]);
      && Agrees(ParseCmd(t), r, |t|)
      && (r.Some? ==> ItemsOf(r.value) == Items(t, 0) && InOrder(r.value))
      && (r.Some? ==> forall w :: HasWord(r.value, w) ==> 0 <= w.q <= buf.Length && StringAt(buf[..], w.q) == TextOf(t, w))
  {
    hide ParseLine, Skip, CString, Proper, ItemsOf, Items, InOrder, Within, Depth;
    var t := buf[..buf.Length - 1];
    var p := new Parser(t);
    hide StringAt;
    assert p.Valid();
    r := p.Parseline();
    if r.None? {
      return;
    }
    var end := p.PeekFor("");
    if p.s != |t| {
      return None;
    }
    NothingLost(t);
    OrderKept(t);
    ProperFits(t, r.value);
    Nulterminate(r.value, buf);
    forall w | HasWord(r.value, w)
      ensures 0 <= w.q <= buf.Length && StringAt(buf[..], w.q) == TextOf(t, w)
    {
      WordsReadBack(t, r.value, buf[..], w);
    }
  }
}
