/**
 The process table of Offline 3/xv6/proc.c between critical sections, as values: the states, parents
 and pids of the slots, and `doing`, which remembers what each process is in the middle of.
 */
module ProcTree {

  datatype PState = UNUSED | EMBRYO | SLEEPING | RUNNABLE | RUNNING | ZOMBIE

  /** A sleep channel: the address of a process slot (wait) or anything else. */
  datatype Chan = NoChan | OfProc(i: int) | Other(k: int)

  /** `parent` is a slot number, -1 for the null pointer. */
  datatype Proc = Proc(state: PState, pid: int, parent: int, chan: Chan, killed: bool, tickets: int)

  /** In fork between allocproc and the store of RUNNABLE (with np->parent set or not), or in wait. */
  datatype Doing = User | Forking(q: int, linked: bool) | Waiting

  predicate Live(p: Proc) {
    p.state.SLEEPING? || p.state.RUNNABLE? || p.state.RUNNING?
  }

  predicate Born(p: Proc) {
    Live(p) || p.state.ZOMBIE?
  }

  /** Every process but init has a live parent with a smaller pid; free slots have no parent. */
  ghost predicate Tree(ps: seq<Proc>, init: int) {
    && 0 <= init < |ps| && Live(ps[init]) && ps[init].parent == -1
    && (forall q {:trigger Born(ps[q])} :: 0 <= q < |ps| && q != init && Born(ps[q]) ==>
          0 <= ps[q].parent < |ps| && Live(ps[ps[q].parent]) && ps[ps[q].parent].pid < ps[q].pid)
    && (forall q :: 0 <= q < |ps| && ps[q].state.UNUSED? ==> ps[q].parent == -1)
  }

  /** pids are distinct and not yet given out again; those in use are positive and never come back. A free slot has pid 0
      or that of a fork that failed. */
  ghost predicate Pids(ps: seq<Proc>, init: int, nextpid: int, reaped: set<int>) {
    && 0 <= init < |ps|
    && (forall q :: 0 <= q < |ps| ==> 0 <= ps[q].pid < nextpid)
    && (forall q :: 0 <= q < |ps| && !ps[q].state.UNUSED? ==> 0 < ps[q].pid < nextpid && ps[q].pid !in reaped)
    && (forall q, r :: 0 <= q < r < |ps| && ps[q].pid != 0 ==> ps[q].pid != ps[r].pid)
    && (forall q :: 0 <= q < |ps| && q != init && !ps[q].state.UNUSED? ==> ps[init].pid < ps[q].pid)
    && (forall d :: d in reaped ==> d < nextpid)
    && ps[init].pid < nextpid
  }

  /** A forking process is live and owns an embryo of its own; an embryo's parent, once set, is the one forking it. */
  ghost predicate Forks(ps: seq<Proc>, doing: seq<Doing>) {
    && |doing| == |ps|
    && (forall p :: 0 <= p < |ps| && !doing[p].User? ==> Live(ps[p]))
    && (forall p :: 0 <= p < |ps| && doing[p].Forking? ==>
          0 <= doing[p].q < |ps| && ps[doing[p].q].state.EMBRYO? && ps[doing[p].q].parent == (if doing[p].linked then p else -1)
          && ps[p].pid < ps[doing[p].q].pid)
    && (forall p, r :: 0 <= p < r < |ps| && doing[p].Forking? && doing[r].Forking? ==> doing[p].q != doing[r].q)
    && (forall q :: 0 <= q < |ps| && ps[q].state.EMBRYO? && ps[q].parent != -1 ==>
          0 <= ps[q].parent < |ps| && doing[ps[q].parent] == Forking(q, true))
  }

  /** Nobody sleeps in wait while it has a zombie child. */
  ghost predicate Waits(ps: seq<Proc>, doing: seq<Doing>) {
    && |doing| == |ps|
    && (forall p :: 0 <= p < |ps| && ps[p].state.SLEEPING? && doing[p].Waiting? ==> ps[p].chan == OfProc(p))
    && (forall p, q :: 0 <= p < |ps| && 0 <= q < |ps| && ps[p].state.SLEEPING? && doing[p].Waiting? && ps[q].parent == p ==>
          !ps[q].state.ZOMBIE?)
  }

  ghost predicate Inv(ps: seq<Proc>, doing: seq<Doing>, init: int, nextpid: int, reaped: set<int>) {
    Tree(ps, init) && Pids(ps, init, nextpid, reaped) && Forks(ps, doing) && Waits(ps, doing)
  }

  // ---------------------------------------------------------------------------------------------
  // The critical sections
  // ---------------------------------------------------------------------------------------------

  /** wakeup1. */
  function Woken(ps: seq<Proc>, c: Chan): (r: seq<Proc>)
    ensures |r| == |ps|
    ensures forall i {:trigger r[i]} :: 0 <= i < |r| ==> r[i] == WokenOne(ps[i], c)
  {
    seq(|ps|, i requires 0 <= i < |ps| => WokenOne(ps[i], c))
  }

  function WokenOne(p: Proc, c: Chan): Proc {
    if p.state.SLEEPING? && p.chan == c then p.(state := RUNNABLE) else p
  }

  ghost predicate HasZombie(ps: seq<Proc>, p: int) {
    exists q :: 0 <= q < |ps| && ps[q].parent == p && ps[q].state.ZOMBIE?
  }

  /** One of the first `n` slots is a zombie child of `p`. */
  predicate ZombieIn(ps: seq<Proc>, p: int, n: int)
    requires n <= |ps|
    decreases n
  {
    n > 0 && ((ps[n - 1].parent == p && ps[n - 1].state.ZOMBIE?) || ZombieIn(ps, p, n - 1))
  }

  lemma {:induction false} ZombieInIs(ps: seq<Proc>, p: int, n: int)
    requires n <= |ps|
    ensures ZombieIn(ps, p, n) <==> exists q :: 0 <= q < n && ps[q].parent == p && ps[q].state.ZOMBIE?
    decreases n
  {
    if n > 0 {
      ZombieInIs(ps, p, n - 1);
    }
  }

  /** exit's loop: the children of `p` go to init. */
  function Adopted(ps: seq<Proc>, p: int, init: int): (r: seq<Proc>)
    ensures |r| == |ps|
    ensures forall i {:trigger r[i]} :: 0 <= i < |r| ==> r[i] == if ps[i].parent == p then ps[i].(parent := init) else ps[i]
  {
    seq(|ps|, i requires 0 <= i < |ps| => if ps[i].parent == p then ps[i].(parent := init) else ps[i])
  }

  /** exit under ptable.lock: the parent is woken, the children go to init, which is woken if one of them is a
      zombie, and the process becomes a zombie itself. */
  function Exited(ps: seq<Proc>, p: int, init: int): seq<Proc>
    requires 0 <= p < |ps|
  {
    var w := Woken(ps, OfProc(ps[p].parent));
    var z := if ZombieIn(w, p, |w|) then Woken(w, OfProc(init)) else w;
    var c := Adopted(z, p, init);
    c[p := c[p].(state := ZOMBIE)]
  }

  /** wait's cleaning of a zombie slot. */
  function Reaped(ps: seq<Proc>, q: int): seq<Proc>
    requires 0 <= q < |ps|
  {
    ps[q := ps[q].(pid := 0, parent := -1, killed := false, state := UNUSED)]
  }

  // ---------------------------------------------------------------------------------------------
  // What they keep
  // ---------------------------------------------------------------------------------------------

  /** `ps'` differs from `ps` in sleepers that have become runnable, and in `killed` and `tickets`. */
  ghost predicate OnlyWoken(ps: seq<Proc>, ps': seq<Proc>) {
    && |ps'| == |ps|
    && forall i {:trigger ps'[i]} :: 0 <= i < |ps'| ==>
         && ps'[i].pid == ps[i].pid && ps'[i].parent == ps[i].parent && ps'[i].chan == ps[i].chan
         && (ps'[i].state == ps[i].state || (ps[i].state.SLEEPING? && ps'[i].state.RUNNABLE?))
  }

  lemma WokenOnly(ps: seq<Proc>, c: Chan)
    ensures OnlyWoken(ps, Woken(ps, c))
  {
  }

  lemma WakingKeeps(ps: seq<Proc>, ps': seq<Proc>, doing: seq<Doing>, init: int, nextpid: int, reaped: set<int>)
    requires Inv(ps, doing, init, nextpid, reaped) && OnlyWoken(ps, ps')
    ensures Inv(ps', doing, init, nextpid, reaped)
  {
    assert Tree(ps', init) by { WakingTree(ps, ps', init); }
    assert Pids(ps', init, nextpid, reaped) by { WakingPids(ps, ps', init, nextpid, reaped); }
    assert Forks(ps', doing) by { WakingForks(ps, ps', doing); }
    assert Waits(ps', doing) by { WakingWaits(ps, ps', doing); }
  }

  lemma WakingTree(ps: seq<Proc>, ps': seq<Proc>, init: int)
    requires Tree(ps, init) && OnlyWoken(ps, ps')
    ensures Tree(ps', init)
  {
    forall q | 0 <= q < |ps'| && q != init && Born(ps'[q])
      ensures 0 <= ps'[q].parent < |ps'| && Live(ps'[ps'[q].parent]) && ps'[ps'[q].parent].pid < ps'[q].pid
    {
      assert Born(ps[q]);
    }
  }

  lemma WakingPids(ps: seq<Proc>, ps': seq<Proc>, init: int, nextpid: int, reaped: set<int>)
    requires Pids(ps, init, nextpid, reaped) && OnlyWoken(ps, ps')
    ensures Pids(ps', init, nextpid, reaped)
  {
  }

  lemma WakingForks(ps: seq<Proc>, ps': seq<Proc>, doing: seq<Doing>)
    requires Forks(ps, doing) && OnlyWoken(ps, ps')
    ensures Forks(ps', doing)
  {
  }

  lemma WakingWaits(ps: seq<Proc>, ps': seq<Proc>, doing: seq<Doing>)
    requires Waits(ps, doing) && OnlyWoken(ps, ps')
    ensures Waits(ps', doing)
  {
  }

  /** Nobody sleeps on channel `c`. */
  ghost predicate NoneOn(ps: seq<Proc>, c: Chan) {
    forall i :: 0 <= i < |ps| ==> !(ps[i].state.SLEEPING? && ps[i].chan == c)
  }

  lemma WokenNone(ps: seq<Proc>, c: Chan)
    ensures NoneOn(Woken(ps, c), c)
    ensures forall d :: NoneOn(ps, d) ==> NoneOn(Woken(ps, c), d)
  {
  }

  /** Leaving the table to init and becoming a zombie, once those who have to be woken are awake. */
  lemma LeaveTree(ps: seq<Proc>, doing: seq<Doing>, init: int, nextpid: int, reaped: set<int>, p: int)
    requires Tree(ps, init) && Pids(ps, init, nextpid, reaped) && Forks(ps, doing)
    requires 0 <= p < |ps| && p != init && Live(ps[p]) && doing[p].User?
    ensures Tree(Adopted(ps, p, init)[p := Adopted(ps, p, init)[p].(state := ZOMBIE)], init)
  {
    hide Forks, Pids, Tree;
    ChildrenBorn(ps, doing, init, p);
    InitFirst(ps, init, nextpid, reaped);
    LeftTree(ps, init, p);
  }

  lemma LeftTree(ps: seq<Proc>, init: int, p: int)
    requires Tree(ps, init) && 0 <= p < |ps| && p != init && Live(ps[p])
    requires forall q :: 0 <= q < |ps| && ps[q].parent == p ==> Born(ps[q]) && q != init
    requires forall q :: 0 <= q < |ps| && q != init && Born(ps[q]) ==> ps[init].pid < ps[q].pid
    ensures Tree(Adopted(ps, p, init)[p := Adopted(ps, p, init)[p].(state := ZOMBIE)], init)
  {
    var ps' := Adopted(ps, p, init)[p := Adopted(ps, p, init)[p].(state := ZOMBIE)];
    forall q | 0 <= q < |ps| && q != init && Born(ps'[q])
      ensures 0 <= ps'[q].parent < |ps| && Live(ps'[ps'[q].parent]) && ps'[ps'[q].parent].pid < ps'[q].pid
    {
      assert Born(ps[q]) && ps'[q].pid == ps[q].pid;
      var r := ps[q].parent;
      assert 0 <= r < |ps| && Live(ps[r]) && ps[r].pid < ps[q].pid;
    }
    assert ps'[init] == ps[init];
  }

  lemma ChildrenBorn(ps: seq<Proc>, doing: seq<Doing>, init: int, p: int)
    requires Tree(ps, init) && Forks(ps, doing) && 0 <= p < |ps| && doing[p].User?
    ensures forall q :: 0 <= q < |ps| && ps[q].parent == p ==> Born(ps[q]) && q != init
  {
  }

  lemma InitFirst(ps: seq<Proc>, init: int, nextpid: int, reaped: set<int>)
    requires Pids(ps, init, nextpid, reaped)
    ensures forall q :: 0 <= q < |ps| && q != init && Born(ps[q]) ==> ps[init].pid < ps[q].pid
  {
  }

  lemma LeavePids(ps: seq<Proc>, init: int, nextpid: int, reaped: set<int>, p: int)
    requires Pids(ps, init, nextpid, reaped) && 0 <= p < |ps| && Live(ps[p])
    ensures Pids(Adopted(ps, p, init)[p := Adopted(ps, p, init)[p].(state := ZOMBIE)], init, nextpid, reaped)
  {
    var ps' := Adopted(ps, p, init)[p := Adopted(ps, p, init)[p].(state := ZOMBIE)];
    assert forall q :: 0 <= q < |ps| ==> ps'[q].pid == ps[q].pid && (ps'[q].state.UNUSED? <==> ps[q].state.UNUSED?);
  }

  lemma LeaveForks(ps: seq<Proc>, doing: seq<Doing>, init: int, p: int)
    requires Forks(ps, doing) && 0 <= p < |ps| && Live(ps[p]) && doing[p].User?
    ensures Forks(Adopted(ps, p, init)[p := Adopted(ps, p, init)[p].(state := ZOMBIE)], doing)
  {
    var ps' := Adopted(ps, p, init)[p := Adopted(ps, p, init)[p].(state := ZOMBIE)];
    assert forall q :: 0 <= q < |ps| && ps[q].state.EMBRYO? ==> ps'[q] == ps[q];
    assert forall q :: 0 <= q < |ps| && q != p ==> ps'[q].state == ps[q].state;
  }

  lemma {:induction false} LeaveWaits(ps: seq<Proc>, doing: seq<Doing>, init: int, p: int)
    requires Waits(ps, doing) && 0 <= p < |ps| && Live(ps[p]) && 0 <= init < |ps| && doing[p].User? && ps[p].parent != p
    requires NoneOn(ps, OfProc(ps[p].parent)) && (ZombieIn(ps, p, |ps|) ==> NoneOn(ps, OfProc(init)))
    ensures Waits(Adopted(ps, p, init)[p := Adopted(ps, p, init)[p].(state := ZOMBIE)], doing)
  {
    ZombieInIs(ps, p, |ps|);
    hide ZombieIn;
    var ps' := Adopted(ps, p, init)[p := Adopted(ps, p, init)[p].(state := ZOMBIE)];
    forall r, q | 0 <= r < |ps| && 0 <= q < |ps| && ps'[r].state.SLEEPING? && doing[r].Waiting? && ps'[q].parent == r
      ensures !ps'[q].state.ZOMBIE?
    {
      assert ps[r].chan == OfProc(r);
    }
  }

  lemma NotOwnParent(ps: seq<Proc>, init: int, p: int)
    requires Tree(ps, init) && 0 <= p < |ps| && p != init && Live(ps[p])
    ensures ps[p].parent != p
  {
    assert Born(ps[p]);
  }

  /** exit keeps the tree, and no parent is left asleep beside a zombie child. */
  lemma ExitKeeps(ps: seq<Proc>, doing: seq<Doing>, init: int, nextpid: int, reaped: set<int>, p: int)
    requires Inv(ps, doing, init, nextpid, reaped) && 0 <= p < |ps| && p != init && Live(ps[p]) && doing[p].User?
    ensures Inv(Exited(ps, p, init), doing, init, nextpid, reaped)
  {
    var w := Woken(ps, OfProc(ps[p].parent));
    WokenOnly(ps, OfProc(ps[p].parent));
    WakingKeeps(ps, w, doing, init, nextpid, reaped);
    WokenNone(ps, OfProc(ps[p].parent));
    var z := if ZombieIn(w, p, |w|) then Woken(w, OfProc(init)) else w;
    if ZombieIn(w, p, |w|) {
      WokenOnly(w, OfProc(init));
      WakingKeeps(w, z, doing, init, nextpid, reaped);
      WokenNone(w, OfProc(init));
    }
    hide Tree, Pids, Forks, Waits, ZombieIn, NoneOn;
    NotOwnParent(z, init, p);
    LeaveTree(z, doing, init, nextpid, reaped, p);
    LeavePids(z, init, nextpid, reaped, p);
    LeaveForks(z, doing, init, p);
    LeaveWaits(z, doing, init, p);
  }

  // ---------------------------------------------------------------------------------------------
  // One slot changes
  // ---------------------------------------------------------------------------------------------

  lemma TreePut(ps: seq<Proc>, init: int, q: int, r: Proc)
    requires Tree(ps, init) && 0 <= q < |ps|
    requires Live(ps[q]) ==> Live(r) && r.pid == ps[q].pid && r.parent == ps[q].parent
    requires r.state.UNUSED? ==> r.parent == -1
    requires Born(r) && !Live(ps[q]) ==> 0 <= r.parent < |ps| && Live(ps[r.parent]) && ps[r.parent].pid < r.pid
    ensures Tree(ps[q := r], init)
  {
    var ps' := ps[q := r];
    forall p | 0 <= p < |ps| && p != init && Born(ps'[p])
      ensures 0 <= ps'[p].parent < |ps| && Live(ps'[ps'[p].parent]) && ps'[ps'[p].parent].pid < ps'[p].pid
    {
      var o := ps'[p].parent;
      if p != q {
        assert ps'[p] == ps[p];
      }
      assert Born(ps[p]) || p == q;
      assert Live(ps[o]);
    }
  }

  lemma PidsPut(ps: seq<Proc>, init: int, nextpid: int, reaped: set<int>, q: int, r: Proc)
    requires Pids(ps, init, nextpid, reaped) && 0 <= q < |ps|
    requires r.pid == ps[q].pid && (r.state.UNUSED? || !ps[q].state.UNUSED?)
    requires q == init ==> r.pid == ps[q].pid
    ensures Pids(ps[q := r], init, nextpid, reaped)
  {
  }

  lemma WaitsPut(ps: seq<Proc>, doing: seq<Doing>, q: int, r: Proc, cur: int, act: Doing)
    requires Waits(ps, doing) && 0 <= q < |ps| && 0 <= cur < |ps|
    requires !r.state.ZOMBIE? && (!r.state.SLEEPING? || q == cur) && (act.Waiting? ==> q == cur)
    requires r.state.SLEEPING? && act.Waiting? ==> r.chan == OfProc(cur) && !HasZombie(ps, cur)
    ensures Waits(ps[q := r], doing[cur := act])
  {
    hide Born;
    var ps', doing' := ps[q := r], doing[cur := act];
    forall p | 0 <= p < |ps| && ps'[p].state.SLEEPING? && doing'[p].Waiting?
      ensures ps'[p].chan == OfProc(p) && forall o :: 0 <= o < |ps| && ps'[o].parent == p ==> !ps'[o].state.ZOMBIE?
    {
      if p != cur {
        assert ps'[p] == ps[p] && doing'[p] == doing[p];
      }
    }
  }

  // ---------------------------------------------------------------------------------------------
  // fork
  // ---------------------------------------------------------------------------------------------

  lemma AllocForks(ps: seq<Proc>, doing: seq<Doing>, init: int, cur: int, q: int, r: Proc)
    requires Forks(ps, doing) && Tree(ps, init) && 0 <= cur < |ps| && Live(ps[cur]) && doing[cur].User?
    requires 0 <= q < |ps| && ps[q].state.UNUSED? && r.state.EMBRYO? && r.parent == ps[q].parent && ps[cur].pid < r.pid
    ensures Forks(ps[q := r], doing[cur := Forking(q, false)])
  {
  }

  lemma AllocPids(ps: seq<Proc>, init: int, nextpid: int, reaped: set<int>, q: int, r: Proc)
    requires Pids(ps, init, nextpid, reaped) && 0 <= q < |ps| && q != init && r.pid == nextpid > 0
    ensures Pids(ps[q := r], init, nextpid + 1, reaped)
  {
  }

  lemma InitLive(ps: seq<Proc>, init: int)
    requires Tree(ps, init)
    ensures 0 <= init < |ps| && Live(ps[init])
  {
  }

  lemma PidFacts(ps: seq<Proc>, init: int, nextpid: int, reaped: set<int>, cur: int)
    requires Tree(ps, init) && Pids(ps, init, nextpid, reaped) && 0 <= cur < |ps| && Live(ps[cur])
    ensures 0 <= init < |ps| && Live(ps[init]) && 0 < ps[init].pid < nextpid && ps[cur].pid < nextpid
  {
  }

  lemma AllocKeeps(ps: seq<Proc>, doing: seq<Doing>, init: int, nextpid: int, reaped: set<int>, cur: int, q: int)
    requires Inv(ps, doing, init, nextpid, reaped) && 0 <= cur < |ps| && Live(ps[cur]) && doing[cur].User?
    requires 0 <= q < |ps| && ps[q].state.UNUSED?
    ensures
      var ps' := ps[q := ps[q].(state := EMBRYO, pid := nextpid)];
      Inv(ps', doing[cur := Forking(q, false)], init, nextpid + 1, reaped)
  {
    var r := ps[q].(state := EMBRYO, pid := nextpid);
    hide Tree, Pids, Forks, Waits, HasZombie;
    PidFacts(ps, init, nextpid, reaped, cur);
    TreePut(ps, init, q, r);
    AllocPids(ps, init, nextpid, reaped, q, r);
    AllocForks(ps, doing, init, cur, q, r);
    WaitsPut(ps, doing, q, r, cur, Forking(q, false));
  }

  /** What Forks says of a process in the middle of fork. */
  lemma ForkIs(ps: seq<Proc>, doing: seq<Doing>, cur: int, q: int, linked: bool)
    requires Forks(ps, doing) && 0 <= cur < |ps| && doing[cur] == Forking(q, linked)
    ensures 0 <= q < |ps| && ps[q].state.EMBRYO? && Live(ps[cur]) && ps[q].parent == if linked then cur else -1
    ensures ps[cur].pid < ps[q].pid
  {
  }

  lemma ForksPut(ps: seq<Proc>, doing: seq<Doing>, cur: int, q: int, linked: bool, r: Proc, act: Doing)
    requires Forks(ps, doing) && 0 <= cur < |ps| && doing[cur] == Forking(q, linked) && 0 <= q < |ps|
    requires if act == Forking(q, true) then r.state.EMBRYO? && r.parent == cur && r.pid == ps[q].pid else act.User? && !r.state.EMBRYO?
    ensures Forks(ps[q := r], doing[cur := act])
  {
    assert q != cur && doing[q].User?;
  }

  /** fork gives the slot back when memory runs out. */
  lemma UnallocKeeps(ps: seq<Proc>, doing: seq<Doing>, init: int, nextpid: int, reaped: set<int>, cur: int, q: int)
    requires Inv(ps, doing, init, nextpid, reaped) && 0 <= cur < |ps| && doing[cur] == Forking(q, false)
    ensures 0 <= q < |ps| && Inv(ps[q := ps[q].(state := UNUSED)], doing[cur := User], init, nextpid, reaped)
  {
    hide Tree, Pids, Forks, Waits, HasZombie;
    ForkIs(ps, doing, cur, q, false);
    var r := ps[q].(state := UNUSED);
    TreePut(ps, init, q, r);
    PidsPut(ps, init, nextpid, reaped, q, r);
    ForksPut(ps, doing, cur, q, false, r, User);
    WaitsPut(ps, doing, q, r, cur, User);
  }

  /** np->parent = curproc */
  lemma LinkKeeps(ps: seq<Proc>, doing: seq<Doing>, init: int, nextpid: int, reaped: set<int>, cur: int, q: int, tickets: int)
    requires Inv(ps, doing, init, nextpid, reaped) && 0 <= cur < |ps| && doing[cur] == Forking(q, false)
    ensures 0 <= q < |ps|
    ensures Inv(ps[q := ps[q].(parent := cur, tickets := tickets)], doing[cur := Forking(q, true)], init, nextpid, reaped)
  {
    hide Tree, Pids, Forks, Waits, HasZombie;
    ForkIs(ps, doing, cur, q, false);
    var r := ps[q].(parent := cur, tickets := tickets);
    TreePut(ps, init, q, r);
    PidsPut(ps, init, nextpid, reaped, q, r);
    ForksPut(ps, doing, cur, q, false, r, Forking(q, true));
    WaitsPut(ps, doing, q, r, cur, Forking(q, true));
  }

  /** np->state = RUNNABLE; the child's pid is larger than its parent's because the parent was there first. */
  lemma LaunchKeeps(ps: seq<Proc>, doing: seq<Doing>, init: int, nextpid: int, reaped: set<int>, cur: int, q: int)
    requires Inv(ps, doing, init, nextpid, reaped) && 0 <= cur < |ps| && doing[cur] == Forking(q, true)
    ensures 0 <= q < |ps| && Inv(ps[q := ps[q].(state := RUNNABLE)], doing[cur := User], init, nextpid, reaped)
  {
    hide Tree, Pids, Forks, Waits, HasZombie;
    ForkIs(ps, doing, cur, q, true);
    var r := ps[q].(state := RUNNABLE);
    TreePut(ps, init, q, r);
    PidsPut(ps, init, nextpid, reaped, q, r);
    ForksPut(ps, doing, cur, q, true, r, User);
    WaitsPut(ps, doing, q, r, cur, User);
  }

  // ---------------------------------------------------------------------------------------------
  // wait, sleep and the scheduler
  // ---------------------------------------------------------------------------------------------

  lemma ReapPids(ps: seq<Proc>, init: int, nextpid: int, reaped: set<int>, q: int, r: Proc)
    requires Pids(ps, init, nextpid, reaped) && 0 <= q < |ps| && q != init && !ps[q].state.UNUSED? && r.state.UNUSED? && r.pid == 0
    ensures ps[q].pid !in reaped && Pids(ps[q := r], init, nextpid, reaped + {ps[q].pid})
  {
  }

  /** A slot that is neither live nor an embryo plays no part in any fork. */
  lemma ForksOther(ps: seq<Proc>, doing: seq<Doing>, cur: int, q: int, r: Proc, act: Doing)
    requires Forks(ps, doing) && 0 <= cur < |ps| && Live(ps[cur]) && 0 <= q < |ps|
    requires !ps[q].state.EMBRYO? && !r.state.EMBRYO? && (Live(ps[q]) ==> Live(r) && r.pid == ps[q].pid)
    requires act == doing[cur] || (!doing[cur].Forking? && !act.Forking?)
    ensures Forks(ps[q := r], doing[cur := act])
  {
  }

  /** wait takes a zombie child out of the table; its pid has never been reaped before. */
  lemma ReapKeeps(ps: seq<Proc>, doing: seq<Doing>, init: int, nextpid: int, reaped: set<int>, cur: int, q: int)
    requires Inv(ps, doing, init, nextpid, reaped) && 0 <= cur < |ps| && Live(ps[cur]) && !doing[cur].Forking?
    requires 0 <= q < |ps| && ps[q].state.ZOMBIE?
    ensures ps[q].pid !in reaped
    ensures Inv(Reaped(ps, q), doing[cur := User], init, nextpid, reaped + {ps[q].pid})
  {
    hide Tree, Pids, Forks, Waits, HasZombie;
    InitLive(ps, init);
    var r := ps[q].(pid := 0, parent := -1, killed := false, state := UNUSED);
    TreePut(ps, init, q, r);
    ReapPids(ps, init, nextpid, reaped, q, r);
    ForksOther(ps, doing, cur, q, r, User);
    WaitsPut(ps, doing, q, r, cur, User);
  }

  /** A live process changes between the live states; in wait it may go to sleep only without a zombie child. */
  lemma MoveKeeps(ps: seq<Proc>, doing: seq<Doing>, init: int, nextpid: int, reaped: set<int>, cur: int, st: PState, c: Chan, act: Doing)
    requires Inv(ps, doing, init, nextpid, reaped) && 0 <= cur < |ps| && Live(ps[cur]) && Live(ps[cur].(state := st))
    requires act == doing[cur] || (!doing[cur].Forking? && !act.Forking?)
    requires st.SLEEPING? && act.Waiting? ==> c == OfProc(cur) && !HasZombie(ps, cur)
    ensures Inv(ps[cur := ps[cur].(state := st, chan := c)], doing[cur := act], init, nextpid, reaped)
  {
    hide Tree, Pids, Forks, Waits, HasZombie;
    var r := ps[cur].(state := st, chan := c);
    TreePut(ps, init, cur, r);
    PidsPut(ps, init, nextpid, reaped, cur, r);
    ForksOther(ps, doing, cur, cur, r, act);
    WaitsPut(ps, doing, cur, r, cur, act);
  }
}
