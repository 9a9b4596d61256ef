/** Counting the elements of a sequence that have a property. */
module Counting {

  ghost predicate Distinct(s: seq<int>) {
    forall i, j :: 0 <= i < j < |s| ==> s[i] != s[j]
  }

  function Count<T>(s: seq<T>, p: T -> bool): (n: int)
    ensures 0 <= n <= |s|
    decreases |s|
  {
    if s == [] then 0 else Count(s[..|s| - 1], p) + (if p(s[|s| - 1]) then 1 else 0)
  }

  lemma {:induction false} CountUpdate<T>(s: seq<T>, p: T -> bool, i: int, x: T)
    requires 0 <= i < |s|
    ensures Count(s[i := x], p) == Count(s, p) - (if p(s[i]) then 1 else 0) + (if p(x) then 1 else 0)
    decreases |s|
  {
    var n := |s| - 1;
    if i == n {
      assert s[i := x][..n] == s[..n];
    } else {
      assert s[i := x][..n] == s[..n][i := x];
      CountUpdate(s[..n], p, i, x);
    }
  }

  /** An element with the property is counted. */
  lemma {:induction false} CountOne<T>(s: seq<T>, p: T -> bool, i: int)
    requires 0 <= i < |s| && p(s[i])
    ensures Count(s, p) >= 1
    decreases |s|
  {
    if i < |s| - 1 {
      CountOne(s[..|s| - 1], p, i);
    }
  }

  lemma {:induction false} CountTwo<T>(s: seq<T>, p: T -> bool, i: int, j: int)
    requires 0 <= i < j < |s| && p(s[i]) && p(s[j])
    ensures Count(s, p) >= 2
    decreases |s|
  {
    if j < |s| - 1 {
      CountTwo(s[..|s| - 1], p, i, j);
    } else {
      CountOne(s[..|s| - 1], p, i);
    }
  }

  /** Something counted can be found. */
  lemma {:induction false} CountFind<T>(s: seq<T>, p: T -> bool) returns (i: int)
    requires Count(s, p) > 0
    ensures 0 <= i < |s| && p(s[i])
    decreases |s|
  {
    i := |s| - 1;
    if !p(s[i]) {
      i := CountFind(s[..i], p);
    }
  }

  lemma {:induction false} CountNone<T>(s: seq<T>, p: T -> bool)
    requires forall i :: 0 <= i < |s| ==> !p(s[i])
    ensures Count(s, p) == 0
    decreases |s|
  {
    if s != [] {
      CountNone(s[..|s| - 1], p);
    }
  }

  lemma {:induction false} CountAll<T>(s: seq<T>, p: T -> bool)
    requires forall i :: 0 <= i < |s| ==> p(s[i])
    ensures Count(s, p) == |s|
    decreases |s|
  {
    if s != [] {
      CountAll(s[..|s| - 1], p);
    }
  }

  /** A property that implies another holds of no more elements. */
  lemma {:induction false} CountLeq<T>(s: seq<T>, p: T -> bool, q: T -> bool)
    requires forall x :: p(x) ==> q(x)
    ensures Count(s, p) <= Count(s, q)
    decreases |s|
  {
    if s != [] {
      CountLeq(s[..|s| - 1], p, q);
    }
  }

  /** The sum of the weights of the elements. */
  function Total<T>(s: seq<T>, w: T -> int): int
    decreases |s|
  {
    if s == [] then 0 else Total(s[..|s| - 1], w) + w(s[|s| - 1])
  }

  lemma {:induction false} TotalUpdate<T>(s: seq<T>, w: T -> int, i: int, x: T)
    requires 0 <= i < |s|
    ensures Total(s[i := x], w) == Total(s, w) - w(s[i]) + w(x)
    decreases |s|
  {
    var n := |s| - 1;
    if i == n {
      assert s[i := x][..n] == s[..n];
    } else {
      assert s[i := x][..n] == s[..n][i := x];
      TotalUpdate(s[..n], w, i, x);
    }
  }

  lemma {:induction false} CountAppend<T>(s: seq<T>, p: T -> bool, x: T)
    ensures Count(s + [x], p) == Count(s, p) + (if p(x) then 1 else 0)
  {
    assert (s + [x])[..|s|] == s;
  }

  /** If only element `i` can have the property, the count is its own. */
  lemma {:induction false} CountOnly<T>(s: seq<T>, p: T -> bool, i: int)
    requires 0 <= i < |s| && forall j :: 0 <= j < |s| && j != i ==> !p(s[j])
    ensures Count(s, p) == if p(s[i]) then 1 else 0
    decreases |s|
  {
    if i < |s| - 1 {
      CountOnly(s[..|s| - 1], p, i);
    } else {
      CountNone(s[..i], p);
    }
  }

  /** If all weights but that of element `i` are 0, the total is its weight. */
  lemma {:induction false} TotalOnly<T>(s: seq<T>, w: T -> int, i: int)
    requires 0 <= i < |s| && forall j :: 0 <= j < |s| && j != i ==> w(s[j]) == 0
    ensures Total(s, w) == w(s[i])
    decreases |s|
  {
    if i < |s| - 1 {
      TotalOnly(s[..|s| - 1], w, i);
    } else {
      TotalNone(s[..i], w);
    }
  }

  lemma {:induction false} TotalNone<T>(s: seq<T>, w: T -> int)
    requires forall j :: 0 <= j < |s| ==> w(s[j]) == 0
    ensures Total(s, w) == 0
    decreases |s|
  {
    if s != [] {
      TotalNone(s[..|s| - 1], w);
    }
  }

  lemma {:induction false} TotalTwo<T>(s: seq<T>, w: T -> int, i: int, j: int)
    requires 0 <= i < j < |s| && forall k :: 0 <= k < |s| ==> w(s[k]) >= 0
    ensures Total(s, w) >= w(s[i]) + w(s[j])
    decreases |s|
  {
    if j < |s| - 1 {
      TotalTwo(s[..|s| - 1], w, i, j);
    } else {
      TotalOne(s[..j], w, i);
    }
  }

  lemma {:induction false} TotalOne<T>(s: seq<T>, w: T -> int, i: int)
    requires 0 <= i < |s| && forall k :: 0 <= k < |s| ==> w(s[k]) >= 0
    ensures Total(s, w) >= w(s[i])
    decreases |s|
  {
    if i < |s| - 1 {
      TotalOne(s[..|s| - 1], w, i);
    } else {
      TotalPositive(s[..i], w);
    }
  }

  lemma {:induction false} TotalPositive<T>(s: seq<T>, w: T -> int)
    requires forall k :: 0 <= k < |s| ==> w(s[k]) >= 0
    ensures Total(s, w) >= 0
    decreases |s|
  {
    if s != [] {
      TotalPositive(s[..|s| - 1], w);
    }
  }

  lemma {:induction false} TotalLeq<T>(s: seq<T>, w: T -> int, v: T -> int)
    requires forall x :: w(x) <= v(x)
    ensures Total(s, w) <= Total(s, v)
    decreases |s|
  {
    if s != [] {
      TotalLeq(s[..|s| - 1], w, v);
    }
  }
}
