/**
 The regular-expression matcher of Offline 3/xv6/grep.c: match, matchhere and matchstar.

 A C string is a sequence without NUL; a pointer into it is what is left of the sequence.
 */
module Regex {

  predicate CString(s: string) {
    forall i :: 0 <= i < |s| ==> s[i] != '\0'
  }

  /** s[i] in C: the terminating NUL at the end. */
  function At(s: string, i: int): char
    requires i >= 0
  {
    if i < |s| then s[i] else '\0'
  }

  // ---------------------------------------------------------------------------------------------
  // What a pattern means
  // ---------------------------------------------------------------------------------------------

  /** One item of a pattern: a literal, ".", "x*", or the final "$". */
  datatype Item = Lit(c: char) | Any | Star(c: char) | End

  function Items(re: string): (r: seq<Item>)
    decreases |re|
  {
    if re == [] then []
    else if |re| >= 2 && re[1] == '*' then [Star(re[0])] + Items(re[2..])
    else if re == ['$'] then [End]
    else [if re[0] == '.' then Any else Lit(re[0])] + Items(re[1..])
  }

  /** The words of one item; `last` tells whether nothing follows in the text. */
  ghost predicate Word(it: Item, w: string, last: bool) {
    match it
    case Lit(c) => w == [c]
    case Any => |w| == 1
    case Star(c) => forall i :: 0 <= i < |w| ==> w[i] == c || c == '.'
    case End => w == [] && last
  }

  function Join(pieces: seq<string>): string
    decreases |pieces|
  {
    if pieces == [] then [] else pieces[0] + Join(pieces[1..])
  }

  /** `pieces` is a word of the pattern, cut into the words of its items. */
  ghost predicate Cut(its: seq<Item>, pieces: seq<string>, last: bool) {
    |pieces| == |its| && forall i :: 0 <= i < |its| ==> Word(its[i], pieces[i], last)
  }

  /** `w` is in the language of the pattern. */
  ghost predicate InLanguage(its: seq<Item>, w: string, last: bool) {
    exists pieces :: Cut(its, pieces, last) && Join(pieces) == w
  }

  /** Some prefix of the text is in the language of the pattern. */
  ghost predicate PrefixMatches(re: string, text: string) {
    exists k :: 0 <= k <= |text| && InLanguage(Items(re), text[..k], k == |text|)
  }

  lemma NoItems(w: string, last: bool)
    ensures InLanguage([], w, last) <==> w == []
  {
    if w == [] {
      assert Cut([], [], last) && Join([]) == w;
    }
  }

  lemma CutFirst(it: Item, its: seq<Item>, pieces: seq<string>, last: bool)
    requires Cut([it] + its, pieces, last)
    ensures |pieces| > 0 && Word(it, pieces[0], last) && Cut(its, pieces[1..], last)
  {
    assert ([it] + its)[0] == it;
    assert forall i :: 0 <= i < |its| ==> ([it] + its)[i + 1] == its[i];
  }

  lemma {:induction false} CutJoin(it: Item, its: seq<Item>, w: string, rest: seq<string>, last: bool)
    requires Word(it, w, last) && Cut(its, rest, last)
    ensures Cut([it] + its, [w] + rest, last) && Join([w] + rest) == w + Join(rest)
  {
    assert ([w] + rest)[1..] == rest;
  }

  /** A word of a pattern starts with a word of its first item. */
  lemma FirstItem(it: Item, its: seq<Item>, w: string, last: bool)
    ensures InLanguage([it] + its, w, last) <==> exists n :: 0 <= n <= |w| && Word(it, w[..n], last) && InLanguage(its, w[n..], last)
  {
    hide Word, Cut, Join;
    if InLanguage([it] + its, w, last) {
      var pieces :| Cut([it] + its, pieces, last) && Join(pieces) == w;
      CutFirst(it, its, pieces, last);
      JoinFirst(pieces);
      var n := |pieces[0]|;
      assert w[..n] == pieces[0] && w[n..] == Join(pieces[1..]);
    }
    if exists n :: 0 <= n <= |w| && Word(it, w[..n], last) && InLanguage(its, w[n..], last) {
      var n :| 0 <= n <= |w| && Word(it, w[..n], last) && InLanguage(its, w[n..], last);
      var rest :| Cut(its, rest, last) && Join(rest) == w[n..];
      CutJoin(it, its, w[..n], rest, last);
      assert w[..n] + w[n..] == w;
    }
  }

  lemma {:induction false} JoinFirst(pieces: seq<string>)
    requires pieces != []
    ensures Join(pieces) == pieces[0] + Join(pieces[1..])
  {
  }

  // ---------------------------------------------------------------------------------------------
  // The matcher
  // ---------------------------------------------------------------------------------------------

  /** matchhere */
  function Here(re: string, text: string): bool
    decreases |re|, 0, |text|
  {
    if re == [] then true
    else if At(re, 1) == '*' then StarHere(re[0], re[2..], text)
    else if re[0] == '$' && At(re, 1) == '\0' then At(text, 0) == '\0'
    else if At(text, 0) != '\0' && (re[0] == '.' || re[0] == At(text, 0)) then Here(re[1..], text[1..])
    else false
  }

  /** matchstar */
  function StarHere(c: char, re: string, text: string): bool
    decreases |re|, 1, |text|
  {
    Here(re, text) || (At(text, 0) != '\0' && (At(text, 0) == c || c == '.') && StarHere(c, re, text[1..]))
  }

  /** One item further, the text has to start with a word of that item. */
  lemma {:induction false} StepMatches(re: string, it: Item, its: string, text: string)
    requires Items(re) == [it] + Items(its)
    ensures PrefixMatches(re, text) <==>
            exists n, k :: 0 <= n <= k <= |text| && Word(it, text[..n], k == |text|) && InLanguage(Items(its), text[n..k], k == |text|)
  {
    hide InLanguage, Word, Items;
    if PrefixMatches(re, text) {
      var k :| 0 <= k <= |text| && InLanguage(Items(re), text[..k], k == |text|);
      FirstItem(it, Items(its), text[..k], k == |text|);
      var n :| 0 <= n <= k && Word(it, text[..k][..n], k == |text|) && InLanguage(Items(its), text[..k][n..], k == |text|);
      assert text[..k][..n] == text[..n] && text[..k][n..] == text[n..k];
    }
    if exists n, k :: 0 <= n <= k <= |text| && Word(it, text[..n], k == |text|) && InLanguage(Items(its), text[n..k], k == |text|) {
      var n, k :| 0 <= n <= k <= |text| && Word(it, text[..n], k == |text|) && InLanguage(Items(its), text[n..k], k == |text|);
      assert text[..k][..n] == text[..n] && text[..k][n..] == text[n..k];
      FirstItem(it, Items(its), text[..k], k == |text|);
    }
  }

  /** The rest of the pattern matches at position `n` of the text. */
  lemma {:induction false} RestMatches(its: string, text: string, n: int)
    requires 0 <= n <= |text|
    ensures PrefixMatches(its, text[n..]) <==> exists k :: n <= k <= |text| && InLanguage(Items(its), text[n..k], k == |text|)
  {
    if PrefixMatches(its, text[n..]) {
      var j :| 0 <= j <= |text[n..]| && InLanguage(Items(its), text[n..][..j], j == |text[n..]|);
      assert text[n..][..j] == text[n..n + j];
    }
    if exists k :: n <= k <= |text| && InLanguage(Items(its), text[n..k], k == |text|) {
      var k :| n <= k <= |text| && InLanguage(Items(its), text[n..k], k == |text|);
      assert text[n..][..k - n] == text[n..k];
    }
  }

  /** matchhere is right: it finds just the texts that have a prefix in the language. */
  lemma {:induction false} HereIsLanguage(re: string, text: string)
    requires CString(re) && CString(text)
    ensures Here(re, text) <==> PrefixMatches(re, text)
    decreases |re|, 0, |text|
  {
    hide InLanguage;
    if re == [] {
      NoItems(text[..0], 0 == |text|);
    } else if At(re, 1) == '*' {
      assert Items(re) == [Star(re[0])] + Items(re[2..]);
      StarIsLanguage(re[0], re[2..], text);
      StepMatches(re, Star(re[0]), re[2..], text);
      StarSplit(re[0], re[2..], text);
    } else if re[0] == '$' && At(re, 1) == '\0' {
      EndMatches(re, text);
    } else {
      var it := if re[0] == '.' then Any else Lit(re[0]);
      assert Items(re) == [it] + Items(re[1..]);
      StepMatches(re, it, re[1..], text);
      if text != [] {
        HereIsLanguage(re[1..], text[1..]);
        RestMatches(re[1..], text, 1);
        assert text[..1] == [text[0]];
      }
      assert forall n :: 0 <= n <= |text| ==> |text[..n]| == n;
    }
  }

  lemma EndMatches(re: string, text: string)
    requires re == ['$']
    ensures PrefixMatches(re, text) <==> text == []
  {
    assert Items(re) == [End] + [];
    hide InLanguage;
    forall k | 0 <= k <= |text|
      ensures InLanguage(Items(re), text[..k], k == |text|) <==> k == 0 && text == []
    {
      FirstItem(End, [], text[..k], k == |text|);
      forall n | 0 <= n <= k
        ensures InLanguage([], text[..k][n..], k == |text|) <==> n == k
      {
        NoItems(text[..k][n..], k == |text|);
      }
      if k == 0 && text == [] {
        assert Word(End, text[..k][..0], true);
      }
    }
    assert text == [] ==> InLanguage(Items(re), text[..0], 0 == |text|);
  }

  /** The text has the rest of the pattern after some number of the starred character. */
  ghost predicate StarMatches(c: char, re: string, text: string) {
    exists n :: 0 <= n <= |text| && Word(Star(c), text[..n], true) && PrefixMatches(re, text[n..])
  }

  lemma {:induction false} StarIsLanguage(c: char, re: string, text: string)
    requires CString(re) && CString(text)
    ensures StarHere(c, re, text) <==> StarMatches(c, re, text)
    decreases |re|, 1, |text|
  {
    HereIsLanguage(re, text);
    assert text[0..] == text;
    hide PrefixMatches;
    if text != [] && (text[0] == c || c == '.') {
      StarIsLanguage(c, re, text[1..]);
      forall n | 1 <= n <= |text|
        ensures text[n..] == text[1..][n - 1..]
        ensures Word(Star(c), text[..n], true) <==> Word(Star(c), text[1..][..n - 1], true)
      {
        StarWord(c, text, n);
      }
      assert StarMatches(c, re, text[1..]) ==> StarMatches(c, re, text) by {
        if StarMatches(c, re, text[1..]) {
          var m :| 0 <= m <= |text[1..]| && Word(Star(c), text[1..][..m], true) && PrefixMatches(re, text[1..][m..]);
          assert Word(Star(c), text[..m + 1], true) && text[m + 1..] == text[1..][m + 1 - 1..];
        }
      }
    } else if text != [] {
      assert forall n :: 1 <= n <= |text| ==> text[..n][0] == text[0];
    }
  }

  lemma StarWord(c: char, text: string, n: int)
    requires 1 <= n <= |text| && (text[0] == c || c == '.')
    ensures text[n..] == text[1..][n - 1..]
    ensures Word(Star(c), text[..n], true) <==> Word(Star(c), text[1..][..n - 1], true)
  {
    var a, b := text[..n], text[1..][..n - 1];
    assert a == [text[0]] + b;
    if Word(Star(c), a, true) {
      forall i | 0 <= i < |b|
        ensures b[i] == c || c == '.'
      {
        assert a[i + 1] == b[i];
      }
    }
  }

  lemma {:induction false} StarSplit(c: char, re: string, text: string)
    ensures StarMatches(c, re, text) <==>
            exists n, k :: 0 <= n <= k <= |text| && Word(Star(c), text[..n], k == |text|) && InLanguage(Items(re), text[n..k], k == |text|)
  {
    hide InLanguage;
    forall n | 0 <= n <= |text|
      ensures PrefixMatches(re, text[n..]) <==> exists k :: n <= k <= |text| && InLanguage(Items(re), text[n..k], k == |text|)
    {
      RestMatches(re, text, n);
    }
    hide PrefixMatches;
  }

  // ---------------------------------------------------------------------------------------------
  // The code
  // ---------------------------------------------------------------------------------------------

  method MatchHere(re: string, text: string) returns (r: bool)
    requires CString(re) && CString(text)
    ensures r <==> PrefixMatches(re, text)
    ensures r == Here(re, text)
    decreases |re|, 0
  {
    HereIsLanguage(re, text);
    hide PrefixMatches;
    if re == [] {
      return true;
    }
    if At(re, 1) == '*' {
      r := MatchStar(re[0], re[2..], text);
      return;
    }
    if re[0] == '$' && At(re, 1) == '\0' {
      return At(text, 0) == '\0';
    }
    if At(text, 0) != '\0' && (re[0] == '.' || re[0] == At(text, 0)) {
      r := MatchHere(re[1..], text[1..]);
      return;
    }
    r := false;
  }

  method MatchStar(c: char, re: string, text: string) returns (r: bool)
    requires CString(re) && CString(text)
    ensures r == StarHere(c, re, text)
    decreases |re|, 1
  {
    hide PrefixMatches;
    var t := text;
    while true
      invariant CString(t) && StarHere(c, re, t) == StarHere(c, re, text)
      decreases |t|
    {
      var here := MatchHere(re, t);
      if here {
        return true;
      }
      if At(t, 0) != '\0' {
        var x := At(t, 0);
        t := t[1..];
        if !(x == c || c == '.') {
          return false;
        }
      } else {
        return false;
      }
    }
  }

  /** match: without "^", the pattern may match at any position. */
  method Match(re: string, text: string) returns (r: bool)
    requires CString(re) && CString(text)
    ensures re != [] && re[0] == '^' ==> (r <==> PrefixMatches(re[1..], text))
    ensures re == [] || re[0] != '^' ==> (r <==> exists i :: 0 <= i <= |text| && PrefixMatches(re, text[i..]))
  {
    hide PrefixMatches;
    if At(re, 0) == '^' {
      r := MatchHere(re[1..], text);
      return;
    }
    var i := 0;
    while true
      invariant 0 <= i <= |text| && forall j :: 0 <= j < i ==> !PrefixMatches(re, text[j..])
      decreases |text| - i
    {
      var here := MatchHere(re, text[i..]);
      if here {
        return true;
      }
      if At(text, i) == '\0' {
        return false;
      }
      i := i + 1;
    }
  }
}
