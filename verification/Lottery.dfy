/**
 The lottery draw of scheduler() in Offline 3/xv6/proc.c: which runnable process each draw selects.
 */
module Lottery {
  import opened Wrappers
  import opened Sums
  import opened ProcTree

  predicate Fair(ps: seq<Proc>) {
    forall i :: 0 <= i < |ps| && ps[i].state.RUNNABLE? ==> ps[i].tickets >= 0
  }

  /** The tickets of the runnable processes among the first `n` slots. */
  function Before(ps: seq<Proc>, n: int): int
    requires 0 <= n <= |ps|
    decreases n
  {
    if n == 0 then 0 else Before(ps, n - 1) + if ps[n - 1].state.RUNNABLE? then ps[n - 1].tickets else 0
  }

  lemma {:induction false} BeforeGrows(ps: seq<Proc>, m: int, n: int)
    requires Fair(ps) && 0 <= m <= n <= |ps|
    ensures 0 <= Before(ps, m) <= Before(ps, n)
    decreases n
  {
    if n > 0 {
      BeforeGrows(ps, if m < n then m else n - 1, n - 1);
    }
  }

  predicate First(ps: seq<Proc>, i: int) {
    0 <= i < |ps| && ps[i].state.RUNNABLE? && forall k :: 0 <= k < i ==> !ps[k].state.RUNNABLE?
  }

  /** Slot `i` is the one the scheduler's loop stops at. */
  predicate Wins(ps: seq<Proc>, draw: int, i: int) {
    && 0 <= i < |ps| && ps[i].state.RUNNABLE? && Before(ps, i + 1) >= draw
    && forall k :: 0 <= k < i && ps[k].state.RUNNABLE? ==> Before(ps, k + 1) < draw
  }

  /** A process wins just the draws in its own interval of tickets; the first in the table also wins those below. */
  lemma {:induction false} WinsIff(ps: seq<Proc>, draw: int, i: int)
    requires Fair(ps) && 0 <= i < |ps| && ps[i].state.RUNNABLE?
    ensures Wins(ps, draw, i) <==> draw <= Before(ps, i) + ps[i].tickets && (First(ps, i) || draw > Before(ps, i))
  {
    if !First(ps, i) {
      var k := LastBefore(ps, i);
      if draw > Before(ps, i) {
        forall j | 0 < j <= i
          ensures Before(ps, j) < draw
        {
          BeforeGrows(ps, j, i);
        }
      }
    }
  }

  /** The last runnable slot before `i` holds all the tickets before `i`. */
  lemma {:induction false} LastBefore(ps: seq<Proc>, i: int) returns (k: int)
    requires 0 <= i <= |ps| && exists k :: 0 <= k < i && ps[k].state.RUNNABLE?
    ensures 0 <= k < i && ps[k].state.RUNNABLE? && Before(ps, k + 1) == Before(ps, i)
    decreases i
  {
    k := i - 1;
    if !ps[k].state.RUNNABLE? {
      k := LastBefore(ps, i - 1);
    }
  }

  lemma OneWinner(ps: seq<Proc>, draw: int, i: int, j: int)
    requires Wins(ps, draw, i) && Wins(ps, draw, j)
    ensures i == j
  {
  }

  /** Of the draws 0 .. total, each runnable process wins as many as it has tickets, and the first one more. */
  lemma {:induction false} Shares(ps: seq<Proc>, i: int, draws: set<int>)
    requires Fair(ps) && 0 <= i < |ps| && ps[i].state.RUNNABLE?
    requires forall d :: d in draws <==> 0 <= d <= Before(ps, |ps|) && Wins(ps, d, i)
    ensures |draws| == ps[i].tickets + if First(ps, i) then 1 else 0
  {
    BeforeGrows(ps, i + 1, |ps|);
    BeforeGrows(ps, i, i + 1);
    var lo := if First(ps, i) then 0 else Before(ps, i) + 1;
    if First(ps, i) {
      NoTickets(ps, i);
    }
    forall d
      ensures d in draws <==> lo <= d < Before(ps, i) + ps[i].tickets + 1
    {
      WinsIff(ps, d, i);
    }
    Exactly(lo, Before(ps, i) + ps[i].tickets + 1, draws);
  }

  lemma {:induction false} NoTickets(ps: seq<Proc>, i: int)
    requires 0 <= i <= |ps| && forall k :: 0 <= k < i ==> !ps[k].state.RUNNABLE?
    ensures Before(ps, i) == 0
    decreases i
  {
    if i > 0 {
      NoTickets(ps, i - 1);
    }
  }

  /** Any draw up to the total has a winner if some process is runnable. */
  lemma {:induction false} SomeoneWins(ps: seq<Proc>, draw: int, n: int) returns (i: int)
    requires Fair(ps) && 0 <= n <= |ps| && draw <= Before(ps, n) && exists k :: 0 <= k < n && ps[k].state.RUNNABLE?
    ensures 0 <= i < n && Wins(ps, draw, i)
    decreases n
  {
    var k := LastBefore(ps, n);
    if exists j :: 0 <= j < k && ps[j].state.RUNNABLE? && Before(ps, j + 1) >= draw {
      var j :| 0 <= j < k && ps[j].state.RUNNABLE? && Before(ps, j + 1) >= draw;
      i := SomeoneWins(ps, draw, j + 1);
    } else {
      i := k;
    }
  }

  /** C's remainder for a positive divisor. */
  function CMod(a: int, b: int): int
    requires b > 0
  {
    if a >= 0 then a % b else -((-a) % b)
  }

  /** The draw is a multiple of the limit away from rand's value, nearer to 0 than the limit, and has the value's sign; no
      other number does all that. */
  lemma {:induction false} CModIs(a: int, b: int, r: int)
    requires b > 0
    ensures r == CMod(a, b) <==> (a - r) % b == 0 && -b < r < b && (a >= 0 ==> r >= 0) && (a <= 0 ==> r <= 0)
  {
    var c, q := CMod(a, b), if a >= 0 then a / b else -((-a) / b);
    assert a == b * q + c;
    if r == c {
      Quotient(a - r, b, q, 0);
    } else if (a - r) % b == 0 && -b < r < b {
      assert a - r == b * ((a - r) / b);
      Near((a - r) / b, q, b, c - r);
    }
  }

  lemma Times(b: int, k: int)
    requires b > 0
    ensures k >= 1 ==> b * k >= b
    ensures k <= -1 ==> b * k <= -b
  {
  }

  lemma Near(p: int, q: int, b: int, d: int)
    requires b > 0 && b * p - b * q == d
    ensures -b < d < b ==> p == q && d == 0
  {
    assert b * (p - q) == b * p - b * q;
    Times(b, p - q);
  }

  lemma Quotient(a: int, b: int, q: int, r: int)
    requires b > 0 && a == b * q + r && 0 <= r < b
    ensures a / b == q && a % b == r
  {
    Near(a / b, q, b, r - a % b);
  }

  /** Among `limit` consecutive values just one leaves the remainder `d`. */
  lemma {:induction false} OneDraw(lo: nat, limit: int, d: int) returns (w: int)
    requires 0 <= d < limit
    ensures forall v :: lo <= v < lo + limit ==> (CMod(v, limit) == d <==> v == w)
    ensures lo <= w < lo + limit
  {
    w := lo + (d - lo) % limit;
    assert w - d == limit * -((d - lo) / limit) by {
      assert d - lo == limit * ((d - lo) / limit) + (d - lo) % limit;
    }
    forall v | lo <= v < lo + limit
      ensures CMod(v, limit) == d <==> v == w
    {
      if v % limit == d {
        Near(v / limit, -((d - lo) / limit), limit, v - w);
      }
      Quotient(w, limit, -((d - lo) / limit), d);
    }
  }

  /** Of `limit * m` consecutive values from `lo` on just `m` leave the remainder `d`, ... */
  lemma {:induction false} PerDraw(lo: nat, limit: int, m: nat, d: int, vs: set<int>)
    requires 0 <= d < limit && forall v :: v in vs <==> lo <= v < lo + limit * m && CMod(v, limit) == d
    ensures |vs| == m
    decreases m
  {
    hide CMod;
    if m == 0 {
      assert forall v :: v !in vs;
    } else {
      var less := limit * (m - 1);
      assert limit * m == less + limit;
      assert less >= 0;
      var w := OneDraw(lo + less, limit, d);
      PerDraw(lo, limit, m - 1, d, vs - {w});
      assert w in vs && |vs| == |vs - {w}| + 1;
    }
  }

  /** ... and `m` for each of several remainders. */
  lemma {:induction false} PerDraws(lo: nat, limit: int, m: nat, draws: set<int>, vs: set<int>)
    requires limit > 0 && forall d :: d in draws ==> 0 <= d < limit
    requires forall v :: v in vs <==> lo <= v < lo + limit * m && CMod(v, limit) in draws
    ensures |vs| == m * |draws|
    decreases |draws|
  {
    hide CMod;
    if draws == {} {
      assert vs == {};
    } else {
      var d := Pick(draws);
      var mine := set v | v in vs && CMod(v, limit) == d;
      PerDraw(lo, limit, m, d, mine);
      PerDraws(lo, limit, m, draws - {d}, vs - mine);
      assert |vs| == |mine| + |vs - mine|;
      var n := |draws - {d}|;
      assert |draws| == n + 1;
      assert m * (n + 1) == m * n + m;
    }
  }

  /** Of the values 0 .. m * (total + 1) - 1 of rand, each runnable process wins just m times as many as it has tickets,
      and the first one m more. */
  lemma {:induction false} WinsValues(ps: seq<Proc>, i: int, m: nat, vs: set<int>)
    requires Fair(ps) && 0 <= i < |ps| && ps[i].state.RUNNABLE? && Before(ps, |ps|) >= 0
    requires forall v :: v in vs <==> 0 <= v < (Before(ps, |ps|) + 1) * m && Wins(ps, CMod(v, Before(ps, |ps|) + 1), i)
    ensures |vs| == m * (ps[i].tickets + if First(ps, i) then 1 else 0)
  {
    hide Wins, First, Fair, Before;
    var limit := Before(ps, |ps|) + 1;
    var draws := set d | 0 <= d < limit && Wins(ps, d, i);
    Shares(ps, i, draws);
    PerDraws(0, limit, m, draws, vs);
  }

  /** The scheduler's first loop. */
  method TotalTickets(ps: seq<Proc>) returns (total: int)
    requires Fair(ps)
    ensures total == Before(ps, |ps|) >= 0
  {
    total := 0;
    var p := 0;
    while p < |ps|
      invariant 0 <= p <= |ps| && total == Before(ps, p)
    {
      if ps[p].state.RUNNABLE? {
        total := total + ps[p].tickets;
      }
      p := p + 1;
    }
    BeforeGrows(ps, |ps|, |ps|);
  }

  /** Its second loop: the slot that a draw up to the total picks; -1 if no process is runnable. */
  method FindWinner(ps: seq<Proc>, draw: int) returns (winner: int)
    requires Fair(ps) && draw <= Before(ps, |ps|)
    ensures winner == -1 <==> forall k :: 0 <= k < |ps| ==> !ps[k].state.RUNNABLE?
    ensures winner != -1 ==> Wins(ps, draw, winner)
  {
    var winnerTracker, p := 0, 0;
    while p < |ps|
      invariant 0 <= p <= |ps| && winnerTracker == Before(ps, p)
      invariant forall k :: 0 <= k < p && ps[k].state.RUNNABLE? ==> Before(ps, k + 1) < draw
    {
      if ps[p].state.RUNNABLE? {
        winnerTracker := winnerTracker + ps[p].tickets;
        if winnerTracker >= draw {
          return p;
        }
      }
      p := p + 1;
    }
    if exists k :: 0 <= k < |ps| && ps[k].state.RUNNABLE? {
      var i := SomeoneWins(ps, draw, |ps|);
      assert false;
    }
    winner := -1;
  }

  /** A process without tickets can win only if no runnable process comes before it. */
  lemma ZeroTickets(ps: seq<Proc>, draw: int, i: int)
    requires Fair(ps) && Wins(ps, draw, i) && ps[i].tickets == 0
    ensures First(ps, i) && draw <= 0
  {
    WinsIff(ps, draw, i);
    if First(ps, i) {
      NoTickets(ps, i);
    }
  }

  /** A draw below 1 picks the first runnable process. */
  lemma LowDraw(ps: seq<Proc>, draw: int, i: int)
    requires Fair(ps) && Wins(ps, draw, i) && draw <= 0
    ensures First(ps, i)
  {
    if !First(ps, i) {
      WinsIff(ps, draw, i);
      BeforeGrows(ps, i, i);
    }
  }
}
