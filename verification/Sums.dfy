/** Sums and counts over finite maps and sets of integers. */
module Sums {
  import opened Wrappers

  ghost function Sum(m: map<int, int>): int
    decreases |m|
  {
    if m.Keys == {} then 0 else
      var k := Pick(m.Keys);
      m[k] + Sum(m - {k})
  }

  /** The order of summation does not matter. */
  lemma {:induction false} SumRemove(m: map<int, int>, k: int)
    requires k in m
    ensures Sum(m) == m[k] + Sum(m - {k})
    decreases |m|
  {
    var p := Pick(m.Keys);
    if p != k {
      SumRemove(m - {p}, k);
      SumRemove(m - {k}, p);
      assert m - {p} - {k} == m - {k} - {p};
    }
  }

  lemma SumInsert(m: map<int, int>, k: int, v: int)
    requires k !in m
    ensures Sum(m[k := v]) == Sum(m) + v
  {
    SumRemove(m[k := v], k);
    assert m[k := v] - {k} == m;
  }

  lemma SumUpdate(m: map<int, int>, k: int, v: int)
    requires k in m
    ensures Sum(m[k := v]) == Sum(m) - m[k] + v
  {
    SumRemove(m, k);
    SumRemove(m[k := v], k);
    assert m[k := v] - {k} == m - {k};
  }

  lemma {:induction false} SumBounds(m: map<int, int>, hi: int)
    requires forall k :: k in m ==> 0 <= m[k] <= hi
    ensures 0 <= Sum(m) <= |m| * hi
    decreases |m|
  {
    if m.Keys != {} {
      var k := Pick(m.Keys);
      SumBounds(m - {k}, hi);
      assert |m - {k}| == |m| - 1;
      assert (|m| - 1) * hi + hi == |m| * hi;
    }
  }

  /** The set of values of a map. */
  ghost function Image(m: map<int, int>): set<int>
    decreases |m|
  {
    if m.Keys == {} then {} else
      var k := Pick(m.Keys);
      Image(m - {k}) + {m[k]}
  }

  lemma {:induction false} ImageIs(m: map<int, int>, v: int)
    ensures v in Image(m) <==> exists k :: k in m && m[k] == v
    decreases |m|
  {
    if m.Keys != {} {
      var p := Pick(m.Keys);
      ImageIs(m - {p}, v);
      if k :| k in m && m[k] == v {
        assert k != p ==> k in m - {p} && (m - {p})[k] == v;
      }
    }
  }

  lemma {:induction false} ImageCount(m: map<int, int>)
    ensures |Image(m)| <= |m|
    decreases |m|
  {
    if m.Keys != {} {
      var k := Pick(m.Keys);
      ImageCount(m - {k});
      assert |m - {k}| == |m| - 1;
    }
  }

  lemma {:induction false} Subset<T>(a: set<T>, b: set<T>)
    requires a <= b
    ensures |a| <= |b|
    decreases |a|
  {
    if a != {} {
      var x := Pick(a);
      Subset(a - {x}, b - {x});
    }
  }

  lemma {:induction false} Range(n: nat, s: set<int>)
    requires forall i :: 0 <= i < n ==> i in s
    ensures |s| >= n
    decreases n
  {
    if n > 0 {
      Range(n - 1, s - {n - 1});
    }
  }

  lemma {:induction false} InjectiveCount(m: map<int, int>, s: set<int>)
    requires forall j, k :: j in m && k in m && m[j] == m[k] ==> j == k
    requires forall k :: k in m ==> m[k] in s
    ensures |m| <= |s|
    decreases |m|
  {
    if m.Keys != {} {
      var k := Pick(m.Keys);
      InjectiveCount(m - {k}, s - {m[k]});
      assert |m - {k}| == |m| - 1;
    }
  }

  lemma {:induction false} Between(lo: int, hi: int, s: set<int>)
    requires lo <= hi && forall x :: x in s ==> lo <= x < hi
    ensures |s| <= hi - lo
    decreases hi - lo
  {
    if lo == hi {
      if s != {} {
        var x := Pick(s);
      }
    } else {
      Between(lo, hi - 1, s - {hi - 1});
    }
  }

  lemma Below(n: nat, s: set<int>)
    requires forall i :: i in s ==> 0 <= i < n
    ensures |s| <= n
  {
    Between(0, n, s);
  }

  lemma {:induction false} Exactly(lo: int, hi: int, s: set<int>)
    requires lo <= hi && forall x :: x in s <==> lo <= x < hi
    ensures |s| == hi - lo
    decreases hi - lo
  {
    if lo == hi {
      if s != {} {
        var x := Pick(s);
      }
    } else {
      Exactly(lo, hi - 1, s - {hi - 1});
    }
  }
}
