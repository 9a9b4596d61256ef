/**
 The process table operations of Offline 3/xv6/proc.c. Each method is one critical section under
 ptable.lock (or one unlocked store of fork), so any interleaving of processes is a sequence of calls.
 The ghost `doing` says which process is in the middle of fork or wait; `reaped` collects the pids that
 wait has returned.
 */
module Proc {
  import opened Wrappers
  import opened ProcTree

  datatype WaitResult = Gone(pid: int, slot: int) | NoChild | Slept

  /** The first free slot from `i` on. */
  ghost predicate FirstFree(ps: seq<Proc>, q: int) {
    0 <= q < |ps| && ps[q].state.UNUSED? && forall k :: 0 <= k < q ==> !ps[k].state.UNUSED?
  }

  ghost predicate HasChild(ps: seq<Proc>, p: int) {
    exists q :: 0 <= q < |ps| && ps[q].parent == p
  }

  /** exit's loop after `i` slots. */
  function ExitLoopOne(w: seq<Proc>, p: int, init: int, i: int, k: int): Proc
    requires 0 <= i <= |w| && 0 <= k < |w|
  {
    var z := if ZombieIn(w, p, i) then WokenOne(w[k], OfProc(init)) else w[k];
    if k < i && w[k].parent == p then z.(parent := init) else z
  }

  ghost predicate ExitLoop(w: seq<Proc>, p: int, init: int, i: int, ps: seq<Proc>)
    requires 0 <= i <= |w|
  {
    |ps| == |w| && forall k {:trigger ps[k]} :: 0 <= k < |w| ==> ps[k] == ExitLoopOne(w, p, init, i, k)
  }

  lemma ExitLoopStart(w: seq<Proc>, p: int, init: int)
    ensures ExitLoop(w, p, init, 0, w)
  {
  }

  /** One turn: the child is handed to init; init is woken if the child is a zombie. */
  lemma ExitLoopNext(w: seq<Proc>, p: int, init: int, i: int, ps: seq<Proc>)
    requires 0 <= i < |w| && ExitLoop(w, p, init, i, ps) && p != init
    ensures ps[i].parent == w[i].parent && (ps[i].state.ZOMBIE? <==> w[i].state.ZOMBIE?)
    ensures ps[i].parent != p ==> ExitLoop(w, p, init, i + 1, ps)
    ensures ps[i].parent == p ==>
              var c := ps[i := ps[i].(parent := init)];
              if ps[i].state.ZOMBIE? then ExitLoop(w, p, init, i + 1, Woken(c, OfProc(init))) else ExitLoop(w, p, init, i + 1, c)
  {
    assert ZombieIn(w, p, i + 1) <==> (w[i].parent == p && w[i].state.ZOMBIE?) || ZombieIn(w, p, i);
    hide ZombieIn;
  }

  lemma ExitLoopEnd(ps0: seq<Proc>, p: int, init: int, ps: seq<Proc>)
    requires 0 <= p < |ps0|
    requires ExitLoop(Woken(ps0, OfProc(ps0[p].parent)), p, init, |ps0|, ps)
    ensures ps[p := ps[p].(state := ZOMBIE)] == Exited(ps0, p, init)
  {
    hide ZombieIn;
  }

  // ---------------------------------------------------------------------------------------------
  // Tickets
  // ---------------------------------------------------------------------------------------------

  ghost predicate InFork(doing: seq<Doing>, q: int) {
    exists c :: 0 <= c < |doing| && doing[c] == Forking(q, true)
  }

  /** Slot `q` holds a process that has been given its tickets: fork has stored them, whether or not it has finished. */
  ghost predicate Given(ps: seq<Proc>, doing: seq<Doing>, q: int) {
    0 <= q < |ps| && (Born(ps[q]) || InFork(doing, q))
  }

  /** Every such process has the tickets it is due: those its parent was due, or its own latest choice, or none after
      exit. */
  ghost predicate Fair(ps: seq<Proc>, doing: seq<Doing>, due: seq<int>) {
    |due| == |ps| && forall q :: Given(ps, doing, q) ==> ps[q].tickets == due[q]
  }

  lemma InForkSet(doing: seq<Doing>, c: int, act: Doing, q: int)
    requires 0 <= c < |doing| && act != Forking(q, true)
    ensures InFork(doing[c := act], q) ==> InFork(doing, q)
  {
    if InFork(doing[c := act], q) {
      var d :| 0 <= d < |doing| && doing[c := act][d] == Forking(q, true);
      assert doing[d] == Forking(q, true);
    }
  }

  /** One process does something else, slot `q` changes, and nobody is given tickets. */
  lemma FairStep(ps: seq<Proc>, doing: seq<Doing>, due: seq<int>, q: int, n: Proc, c: int, act: Doing)
    requires Fair(ps, doing, due) && 0 <= q < |ps| && 0 <= c < |doing| && !(act.Forking? && act.linked)
    requires n.tickets == ps[q].tickets && (Born(n) ==> Born(ps[q]) || InFork(doing, q))
    ensures Fair(ps[q := n], doing[c := act], due)
  {
    forall p | Given(ps[q := n], doing[c := act], p)
      ensures Given(ps, doing, p)
    {
      InForkSet(doing, c, act, p);
    }
  }

  lemma LinkerLive(ps: seq<Proc>, doing: seq<Doing>, init: int, nextpid: int, reaped: set<int>, cur: int, q: int)
    requires Inv(ps, doing, init, nextpid, reaped) && 0 <= cur < |ps| == |doing| && doing[cur] == Forking(q, false)
    ensures 0 <= q < |ps| && q != cur && Born(ps[cur])
  {
    ForkIs(ps, doing, cur, q, false);
  }

  lemma InForkNow(doing: seq<Doing>, cur: int, q: int)
    requires 0 <= cur < |doing| && doing[cur] == Forking(q, true)
    ensures InFork(doing, q)
  {
  }

  /** A process chooses its own tickets, or exits. */
  lemma StoreDue(ps: seq<Proc>, doing: seq<Doing>, due: seq<int>, q: int, n: int)
    requires Fair(ps, doing, due) && 0 <= q < |ps|
    ensures Fair(ps[q := ps[q].(tickets := n)], doing, due[q := n])
  {
    forall p | Given(ps[q := ps[q].(tickets := n)], doing, p)
      ensures Given(ps, doing, p)
    {
    }
  }

  lemma FairMove(ps: seq<Proc>, doing: seq<Doing>, due: seq<int>, c: int, state: PState, chan: Chan, act: Doing)
    requires Fair(ps, doing, due) && 0 <= c < |ps| == |doing| && Born(ps[c]) && !act.Forking?
    ensures Fair(ps[c := ps[c].(state := state, chan := chan)], doing[c := act], due)
  {
    FairStep(ps, doing, due, c, ps[c].(state := state, chan := chan), c, act);
  }

  /** fork's store of the tickets. */
  lemma FairLink(ps: seq<Proc>, doing: seq<Doing>, due: seq<int>, cur: int, q: int)
    requires Fair(ps, doing, due) && 0 <= cur < |ps| == |doing| && 0 <= q < |ps| && q != cur && Born(ps[cur])
    ensures Fair(ps[q := ps[q].(parent := cur, tickets := ps[cur].tickets)], doing[cur := Forking(q, true)], due[q := due[cur]])
  {
    var ps', doing' := ps[q := ps[q].(parent := cur, tickets := ps[cur].tickets)], doing[cur := Forking(q, true)];
    assert Given(ps, doing, cur);
    forall p | Given(ps', doing', p) && p != q
      ensures Given(ps, doing, p)
    {
      InForkSet(doing, cur, Forking(q, true), p);
    }
  }

  /** Wakeups, kills, adoptions and exits give and take no tickets. */
  lemma FairSame(ps: seq<Proc>, doing: seq<Doing>, ps': seq<Proc>, due: seq<int>)
    requires Fair(ps, doing, due) && |ps'| == |ps|
    requires forall q {:trigger ps'[q]} :: 0 <= q < |ps| ==> ps'[q].tickets == ps[q].tickets && (Born(ps'[q]) <==> Born(ps[q]))
    ensures Fair(ps', doing, due)
  {
  }

  lemma ExitedSame(ps: seq<Proc>, p: int, init: int)
    requires 0 <= p < |ps| && Live(ps[p])
    ensures |Exited(ps, p, init)| == |ps|
    ensures forall q {:trigger Exited(ps, p, init)[q]} :: 0 <= q < |ps| ==>
              Exited(ps, p, init)[q].tickets == ps[q].tickets && (Born(Exited(ps, p, init)[q]) <==> Born(ps[q]))
  {
    hide ZombieIn;
  }

  /** Storing tickets in a slot: everybody has what it is due exactly if the slot has no process that has been given
      tickets, or one that is due just these. */
  lemma StoreIff(ps: seq<Proc>, doing: seq<Doing>, due: seq<int>, q: int, n: int)
    requires Fair(ps, doing, due) && 0 <= q < |ps|
    ensures Fair(ps[q := ps[q].(tickets := n)], doing, due) <==> (Given(ps, doing, q) ==> due[q] == n)
  {
    var ps' := ps[q := ps[q].(tickets := n)];
    forall p
      ensures Given(ps', doing, p) <==> Given(ps, doing, p)
    {
    }
  }

  class Ptable {
    const init: int
    ghost var due: seq<int>
    var proc: seq<Proc>
    var nextpid: int
    ghost var doing: seq<Doing>
    ghost var reaped: set<int>

    /** After userinit: init alone is runnable. */
    constructor (slots: int, init: int, free: Proc)
      requires 0 <= init < slots && free.state.UNUSED? && free.parent == -1 && free.pid == 0
      ensures Valid() && this.init == init && |proc| == slots && nextpid == 2 && reaped == {}
      ensures proc[init] == free.(state := RUNNABLE, pid := 1)
      ensures Fair(proc, doing, due)
      ensures forall i :: 0 <= i < slots ==> doing[i].User? && (i != init ==> proc[i] == free)
    {
      this.init := init;
      proc := seq(slots, i => if i == init then free.(state := RUNNABLE, pid := 1) else free);
      nextpid, reaped := 2, {};
      due := seq(slots, _ => free.tickets);
      doing := seq(slots, _ => User);
    }

    ghost predicate Valid()
      reads this
    {
      Inv(proc, doing, init, nextpid, reaped) && |doing| == |proc| == |due|
    }

    /** A process that runs and is in neither fork nor wait. */
    predicate Runs(p: int)
      reads this
    {
      0 <= p < |proc| && proc[p].state.RUNNING?
    }

    /** allocproc under the lock: the first free slot becomes an embryo with a pid never used before. */
    method Allocproc(cur: int) returns (r: Option<int>)
      requires Valid() && Runs(cur) && doing[cur].User?
      modifies this
      ensures old(Fair(proc, doing, due)) ==> Fair(proc, doing, due)
      ensures due == old(due)
      ensures Valid()
      ensures r.None? <==> forall q :: 0 <= q < |old(proc)| ==> !old(proc)[q].state.UNUSED?
      ensures r.None? ==> unchanged(this)
      ensures r.Some? ==>
                && FirstFree(old(proc), r.value) && nextpid == old(nextpid) + 1 && reaped == old(reaped)
                && proc == old(proc)[r.value := old(proc)[r.value].(state := EMBRYO, pid := old(nextpid))]
                && doing == old(doing)[cur := Forking(r.value, false)]
    {
      hide Inv;
      var i := 0;
      while i < |proc|
        invariant 0 <= i <= |proc| && forall k :: 0 <= k < i ==> !proc[k].state.UNUSED?
      {
        if proc[i].state.UNUSED? {
          break;
        }
        i := i + 1;
      }
      if i == |proc| {
        return None;
      }
      AllocKeeps(proc, doing, init, nextpid, reaped, cur, i);
      if Fair(proc, doing, due) {
        FairStep(proc, doing, due, i, proc[i].(state := EMBRYO, pid := nextpid), cur, Forking(i, false));
      }
      proc := proc[i := proc[i].(state := EMBRYO, pid := nextpid)];
      nextpid := nextpid + 1;
      doing := doing[cur := Forking(i, false)];
      r := Some(i);
    }

    /** kstack or copyuvm failed: np->state = UNUSED. */
    method ForkFails(cur: int, q: int)
      requires Valid() && 0 <= cur < |proc| && doing[cur] == Forking(q, false)
      modifies `proc, `doing
      ensures old(Fair(proc, doing, due)) ==> Fair(proc, doing, due)
      ensures Valid() && 0 <= q < |proc| && doing == old(doing)[cur := User]
      ensures proc == old(proc)[q := old(proc)[q].(state := UNUSED)]
    {
      hide Inv;
      UnallocKeeps(proc, doing, init, nextpid, reaped, cur, q);
      if Fair(proc, doing, due) {
        FairStep(proc, doing, due, q, proc[q].(state := UNUSED), cur, User);
      }
      proc := proc[q := proc[q].(state := UNUSED)];
      doing := doing[cur := User];
    }

    /** np->parent = curproc, and the child gets its parent's tickets. */
    method ForkLinks(cur: int, q: int)
      requires Valid() && 0 <= cur < |proc| && doing[cur] == Forking(q, false)
      modifies `proc, `doing, `due
      ensures old(Fair(proc, doing, due)) ==> Fair(proc, doing, due)
      ensures due == old(due)[q := old(due)[cur]]
      ensures Valid() && 0 <= q < |proc| && doing == old(doing)[cur := Forking(q, true)]
      ensures proc == old(proc)[q := old(proc)[q].(parent := cur, tickets := old(proc)[cur].tickets)]
    {
      hide Inv;
      LinkKeeps(proc, doing, init, nextpid, reaped, cur, q, proc[cur].tickets);
      if Fair(proc, doing, due) {
        LinkerLive(proc, doing, init, nextpid, reaped, cur, q);
        FairLink(proc, doing, due, cur, q);
      }
      proc := proc[q := proc[q].(parent := cur, tickets := proc[cur].tickets)];
      due := due[q := due[cur]];
      doing := doing[cur := Forking(q, true)];
    }

    /** The store of RUNNABLE: whatever has happened since allocproc, the slot is still this fork's embryo. */
    method ForkLaunches(cur: int, q: int) returns (pid: int)
      requires Valid() && 0 <= cur < |proc| && doing[cur] == Forking(q, true)
      modifies `proc, `doing
      ensures old(Fair(proc, doing, due)) ==> Fair(proc, doing, due)
      ensures Valid() && 0 <= q < |proc| && doing == old(doing)[cur := User]
      ensures proc == old(proc)[q := old(proc)[q].(state := RUNNABLE)] && pid == proc[q].pid
      ensures old(proc)[q].state.EMBRYO? && proc[q].parent == cur && q != cur && proc[cur].pid < pid
    {
      EmbryoIs(cur, q);
      hide Inv;
      LaunchKeeps(proc, doing, init, nextpid, reaped, cur, q);
      if Fair(proc, doing, due) {
        InForkNow(doing, cur, q);
        FairStep(proc, doing, due, q, proc[q].(state := RUNNABLE), cur, User);
      }
      proc := proc[q := proc[q].(state := RUNNABLE)];
      doing := doing[cur := User];
      pid := proc[q].pid;
    }

    lemma EmbryoIs(cur: int, q: int)
      requires Valid() && 0 <= cur < |proc| && doing[cur] == Forking(q, true)
      ensures 0 <= q < |proc| && proc[q].state.EMBRYO? && proc[q].parent == cur && q != cur && proc[cur].pid < proc[q].pid
    {
      ForkIs(proc, doing, cur, q, true);
    }

    /** fork with nobody else running: -1 leaves the table as it was but for a pid used up. */
    method Fork(cur: int, memoryOk: bool) returns (pid: int)
      requires Valid() && Runs(cur) && doing[cur].User?
      modifies this
      ensures old(Fair(proc, doing, due)) ==> Fair(proc, doing, due)
      ensures Valid() && doing == old(doing) && reaped == old(reaped)
      ensures pid == -1 <==> !memoryOk || forall q :: 0 <= q < |old(proc)| ==> !old(proc)[q].state.UNUSED?
      ensures pid == -1 ==>
                proc == old(proc) || exists q :: FirstFree(old(proc), q) && proc == old(proc)[q := old(proc)[q].(pid := old(nextpid))]
      ensures pid != -1 ==> pid == old(nextpid) && exists q :: FirstFree(old(proc), q) && IsChild(old(proc), proc, cur, q, pid)
    {
      hide Inv;
      NextPositive();
      var q := Allocproc(cur);
      if q.None? {
        return -1;
      }
      if !memoryOk {
        ForkFails(cur, q.value);
        return -1;
      }
      ForkLinks(cur, q.value);
      pid := ForkLaunches(cur, q.value);
      assert IsChild(old(proc), proc, cur, q.value, pid);
    }

    lemma WaiterIs(cur: int)
      requires Valid() && 0 <= cur < |proc| && proc[cur].state.SLEEPING? && doing[cur].Waiting?
      ensures proc[cur].pid != 0 && !HasZombie(proc, cur)
    {
    }

    lemma ZeroIsFree()
      requires Valid()
      ensures forall i :: 0 <= i < |proc| && proc[i].pid == 0 ==> proc[i].state.UNUSED?
    {
    }

    lemma NextPositive()
      requires Valid()
      ensures nextpid > 0
    {
    }

    /** wakeup1. */
    method Wakeup1(c: Chan)
      modifies `proc
      ensures proc == Woken(old(proc), c)
    {
      var i := 0;
      while i < |proc|
        invariant 0 <= i <= |proc| == |old(proc)|
        invariant forall k :: 0 <= k < |proc| ==> proc[k] == if k < i then WokenOne(old(proc)[k], c) else old(proc)[k]
      {
        if proc[i].state.SLEEPING? && proc[i].chan == c {
          proc := proc[i := proc[i].(state := RUNNABLE)];
        }
        i := i + 1;
      }
    }

    /** wakeup. */
    method Wakeup(c: Chan)
      requires Valid()
      modifies `proc
      ensures old(Fair(proc, doing, due)) ==> Fair(proc, doing, due)
      ensures Valid() && proc == Woken(old(proc), c)
    {
      hide Inv;
      WokenOnly(proc, c);
      WakingKeeps(proc, Woken(proc, c), doing, init, nextpid, reaped);
      if Fair(proc, doing, due) {
        FairSame(proc, doing, Woken(proc, c), due);
      }
      Wakeup1(c);
    }

    /** kill: the first slot with the pid is marked and, if asleep, made runnable; for a pid other than 0 it is the only
        one. */
    method Kill(pid: int) returns (ok: bool)
      requires Valid()
      modifies `proc
      ensures old(Fair(proc, doing, due)) ==> Fair(proc, doing, due)
      ensures Valid() && (ok <==> exists i :: 0 <= i < |old(proc)| && old(proc)[i].pid == pid)
      ensures !ok ==> proc == old(proc)
      ensures ok ==> exists i :: FirstWith(old(proc), pid, i) && Marked(old(proc), proc, i)
      ensures pid != 0 ==> forall i :: 0 <= i < |proc| && old(proc)[i].pid == pid ==> Marked(old(proc), proc, i)
    {
      hide Inv;
      var i := 0;
      while i < |proc|
        invariant 0 <= i <= |proc| && proc == old(proc) && forall k :: 0 <= k < i ==> proc[k].pid != pid
      {
        if proc[i].pid == pid {
          OnlyWith(i);
          proc := proc[i := proc[i].(killed := true)];
          if proc[i].state.SLEEPING? {
            proc := proc[i := proc[i].(state := RUNNABLE)];
          }
          assert Marked(old(proc), proc, i);
          WakingKeeps(old(proc), proc, doing, init, nextpid, reaped);
          if old(Fair(proc, doing, due)) {
            FairSame(old(proc), doing, proc, due);
          }
          return true;
        }
        i := i + 1;
      }
      ok := false;
    }

    lemma OnlyWith(i: int)
      requires Valid() && 0 <= i < |proc|
      ensures proc[i].pid != 0 ==> forall k :: 0 <= k < |proc| && proc[k].pid == proc[i].pid ==> k == i
    {
    }

    /** setticketsutil, with a lock of its own. */
    method SetTickets(p: int, n: int)
      requires Valid() && 0 <= p < |proc|
      modifies `proc
      ensures Valid() && proc == old(proc)[p := old(proc)[p].(tickets := n)]
      ensures old(Fair(proc, doing, due)) ==> (Fair(proc, doing, due) <==> (Given(old(proc), doing, p) ==> due[p] == n))
    {
      hide Inv, Fair, Given;
      WakingKeeps(proc, proc[p := proc[p].(tickets := n)], doing, init, nextpid, reaped);
      if Fair(proc, doing, due) {
        StoreIff(proc, doing, due, p, n);
      }
      proc := proc[p := proc[p].(tickets := n)];
    }

    /** settickets: a process sets its own tickets, to a positive number. */
    method Settickets(cur: int, n: int) returns (ok: bool)
      requires Valid() && Runs(cur)
      modifies `proc, `due
      ensures Valid() && (ok <==> n > 0) && proc == if ok then old(proc)[cur := old(proc)[cur].(tickets := n)] else old(proc)
      ensures due == if ok then old(due)[cur := n] else old(due)
      ensures old(Fair(proc, doing, due)) ==> Fair(proc, doing, due)
    {
      hide Inv, Fair, Given;
      if n <= 0 {
        return false;
      }
      if Fair(proc, doing, due) {
        StoreDue(proc, doing, due, cur, n);
      }
      SetTickets(cur, n);
      due := due[cur := n];
      ok := true;
    }

    /** The end of wait: the slot that was freed gets no tickets. The lock has been released since, so the slot may
        have a new process: it loses its tickets exactly if fork has stored them already and they are not 0. */
    method ClearTickets(q: int)
      requires Valid() && 0 <= q < |proc|
      modifies `proc
      ensures Valid() && proc == old(proc)[q := old(proc)[q].(tickets := 0)]
      ensures old(Fair(proc, doing, due)) ==> (Fair(proc, doing, due) <==> !(Given(old(proc), doing, q) && due[q] != 0))
    {
      SetTickets(q, 0);
    }

    /** exit with nobody else running in between; false where init would exit (the source panics). */
    method Exit(cur: int) returns (ok: bool)
      requires Valid() && Runs(cur) && doing[cur].User?
      modifies `proc, `due
      ensures Valid() && (ok <==> cur != init)
      ensures ok ==> proc == Exited(old(proc)[cur := old(proc)[cur].(tickets := 0)], cur, init) && due == old(due)[cur := 0]
      ensures !ok ==> proc == old(proc) && due == old(due)
      ensures old(Fair(proc, doing, due)) ==> Fair(proc, doing, due)
    {
      hide Inv, Fair, Given;
      if cur == init {
        return false;
      }
      ExitStart(cur);
      ExitLocked(cur);
      ok := true;
    }

    /** exit's ticket store. */
    method ExitStart(cur: int)
      requires Valid() && Runs(cur)
      modifies `proc, `due
      ensures Valid() && proc == old(proc)[cur := old(proc)[cur].(tickets := 0)] && due == old(due)[cur := 0]
      ensures old(Fair(proc, doing, due)) ==> Fair(proc, doing, due)
    {
      hide Inv, Fair, Given;
      if Fair(proc, doing, due) {
        StoreDue(proc, doing, due, cur, 0);
      }
      SetTickets(cur, 0);
      due := due[cur := 0];
    }

    /** exit under the lock. */
    method ExitLocked(cur: int)
      requires Valid() && Runs(cur) && doing[cur].User? && cur != init
      modifies `proc
      ensures Valid() && proc == Exited(old(proc), cur, init)
      ensures old(Fair(proc, doing, due)) ==> Fair(proc, doing, due)
    {
      hide Inv, Fair, Given;
      if Fair(proc, doing, due) {
        ExitedSame(proc, cur, init);
        FairSame(proc, doing, Exited(proc, cur, init), due);
      }
      ExitKeeps(proc, doing, init, nextpid, reaped, cur);
      Wakeup1(OfProc(proc[cur].parent));
      ghost var w := proc;
      ExitLoopStart(w, cur, init);
      hide ExitLoop, ZombieIn;
      var i := 0;
      while i < |proc|
        invariant 0 <= i <= |proc| == |w| == |old(proc)| && ExitLoop(w, cur, init, i, proc)
      {
        ExitLoopNext(w, cur, init, i, proc);
        if proc[i].parent == cur {
          ghost var zombie := proc[i].state.ZOMBIE?;
          proc := proc[i := proc[i].(parent := init)];
          if proc[i].state.ZOMBIE? {
            Wakeup1(OfProc(init));
          }
        }
        i := i + 1;
      }
      ExitLoopEnd(old(proc), cur, init, proc);
      proc := proc[cur := proc[cur].(state := ZOMBIE)];
    }

    /** wait, from taking the lock (or waking up) to releasing it (or going to sleep). After Gone the slot's
        tickets are still to be cleared, by ClearTickets. */
    method Wait(cur: int) returns (r: WaitResult)
      requires Valid() && Runs(cur) && !doing[cur].Forking?
      modifies `proc, `doing, `reaped
      ensures old(Fair(proc, doing, due)) ==> Fair(proc, doing, due)
      ensures Valid()
      ensures r.Gone? ==>
                && r.pid !in old(reaped) && reaped == old(reaped) + {r.pid} && doing == old(doing)[cur := User]
                && 0 <= r.slot < |old(proc)| && old(proc)[r.slot].state.ZOMBIE? && old(proc)[r.slot].parent == cur
                && old(proc)[r.slot].pid == r.pid && proc == Reaped(old(proc), r.slot)
                && forall q :: 0 <= q < r.slot ==> !(old(proc)[q].parent == cur && old(proc)[q].state.ZOMBIE?)
      ensures !r.Gone? ==> reaped == old(reaped) && !HasZombie(old(proc), cur)
      ensures r.NoChild? ==> proc == old(proc) && doing == old(doing)[cur := User] && (!HasChild(proc, cur) || proc[cur].killed)
      ensures old(proc)[cur].killed && !HasZombie(old(proc), cur) ==> r.NoChild?
      ensures r.Slept? ==>
                && HasChild(old(proc), cur) && !old(proc)[cur].killed && doing == old(doing)[cur := Waiting]
                && proc == old(proc)[cur := old(proc)[cur].(state := SLEEPING, chan := OfProc(cur))]
    {
      hide Inv;
      var havekids := false;
      var i := 0;
      while i < |proc|
        invariant 0 <= i <= |proc| && proc == old(proc)
        invariant havekids <==> exists q :: 0 <= q < i && proc[q].parent == cur
        invariant forall q :: 0 <= q < i && proc[q].parent == cur ==> !proc[q].state.ZOMBIE?
      {
        if proc[i].parent == cur {
          havekids := true;
          if proc[i].state.ZOMBIE? {
            break;
          }
        }
        i := i + 1;
      }
      if i < |proc| {
        ReapKeeps(proc, doing, init, nextpid, reaped, cur, i);
        if Fair(proc, doing, due) {
          FairStep(proc, doing, due, i, Reaped(proc, i)[i], cur, User);
        }
        var pid := proc[i].pid;
        proc := proc[i := proc[i].(pid := 0, parent := -1, killed := false, state := UNUSED)];
        assert proc == Reaped(old(proc), i);
        doing, reaped := doing[cur := User], reaped + {pid};
        return Gone(pid, i);
      }
      if !havekids || proc[cur].killed {
        MoveKeeps(proc, doing, init, nextpid, reaped, cur, proc[cur].state, proc[cur].chan, User);
        assert proc[cur := proc[cur].(state := proc[cur].state, chan := proc[cur].chan)] == proc;
        if Fair(proc, doing, due) {
          FairMove(proc, doing, due, cur, proc[cur].state, proc[cur].chan, User);
        }
        doing := doing[cur := User];
        return NoChild;
      }
      MoveKeeps(proc, doing, init, nextpid, reaped, cur, SLEEPING, OfProc(cur), Waiting);
      if Fair(proc, doing, due) {
        FairMove(proc, doing, due, cur, SLEEPING, OfProc(cur), Waiting);
      }
      proc := proc[cur := proc[cur].(state := SLEEPING, chan := OfProc(cur))];
      doing := doing[cur := Waiting];
      r := Slept;
    }

    /** sleep on a channel that is not a process. */
    method Sleep(cur: int, k: int)
      requires Valid() && Runs(cur) && !doing[cur].Waiting?
      modifies `proc
      ensures old(Fair(proc, doing, due)) ==> Fair(proc, doing, due)
      ensures Valid() && proc == old(proc)[cur := old(proc)[cur].(state := SLEEPING, chan := Other(k))]
    {
      hide Inv;
      MoveKeeps(proc, doing, init, nextpid, reaped, cur, SLEEPING, Other(k), doing[cur]);
      assert doing[cur := doing[cur]] == doing;
      if Fair(proc, doing, due) {
        FairSame(proc, doing, proc[cur := proc[cur].(state := SLEEPING, chan := Other(k))], due);
      }
      proc := proc[cur := proc[cur].(state := SLEEPING, chan := Other(k))];
    }

    /** The scheduler resumes `p`; a sleeper that wakes up clears its channel. */
    method Resume(p: int)
      requires Valid() && 0 <= p < |proc| && proc[p].state.RUNNABLE?
      modifies `proc
      ensures old(Fair(proc, doing, due)) ==> Fair(proc, doing, due)
      ensures Valid() && proc == old(proc)[p := old(proc)[p].(state := RUNNING, chan := NoChan)]
    {
      hide Inv;
      MoveKeeps(proc, doing, init, nextpid, reaped, p, RUNNING, NoChan, doing[p]);
      assert doing[p := doing[p]] == doing;
      if Fair(proc, doing, due) {
        FairSame(proc, doing, proc[p := proc[p].(state := RUNNING, chan := NoChan)], due);
      }
      proc := proc[p := proc[p].(state := RUNNING, chan := NoChan)];
    }

    method Yield(cur: int)
      requires Valid() && Runs(cur)
      modifies `proc
      ensures old(Fair(proc, doing, due)) ==> Fair(proc, doing, due)
      ensures Valid() && proc == old(proc)[cur := old(proc)[cur].(state := RUNNABLE)]
    {
      hide Inv;
      MoveKeeps(proc, doing, init, nextpid, reaped, cur, RUNNABLE, proc[cur].chan, doing[cur]);
      assert doing[cur := doing[cur]] == doing;
      if Fair(proc, doing, due) {
        FairSame(proc, doing, proc[cur := proc[cur].(state := RUNNABLE, chan := proc[cur].chan)], due);
      }
      proc := proc[cur := proc[cur].(state := RUNNABLE)];
    }
  }

  ghost predicate FirstWith(ps: seq<Proc>, pid: int, i: int) {
    0 <= i < |ps| && ps[i].pid == pid && forall k :: 0 <= k < i ==> ps[k].pid != pid
  }

  /** What kill does to the table: slot `i` is killed and does not sleep. */
  ghost predicate Marked(ps: seq<Proc>, ps': seq<Proc>, i: int) {
    && 0 <= i < |ps| == |ps'| && (forall k {:trigger ps'[k]} :: 0 <= k < |ps| && k != i ==> ps'[k] == ps[k])
    && ps'[i].killed && !ps'[i].state.SLEEPING? && (if ps[i].state.SLEEPING? then ps'[i].state.RUNNABLE? else ps'[i].state == ps[i].state)
    && ps'[i].pid == ps[i].pid && ps'[i].parent == ps[i].parent && ps'[i].chan == ps[i].chan && ps'[i].tickets == ps[i].tickets
  }

  /** kill ends a wait: the process wakes up, and without a zombie child it returns. */
  method KilledWaiter(t: Ptable, cur: int) returns (r: WaitResult)
    requires t.Valid() && 0 <= cur < |t.proc| && t.proc[cur].state.SLEEPING? && t.doing[cur].Waiting?
    modifies t
    ensures r.NoChild? && t.Valid() && t.doing == old(t.doing)[cur := User]
  {
    hide Inv;
    t.WaiterIs(cur);
    var ok := t.Kill(t.proc[cur].pid);
    assert Marked(old(t.proc), t.proc, cur);
    t.Resume(cur);
    r := t.Wait(cur);
  }

  /** No free slot is marked as killed. */
  ghost predicate FreeUnmarked(ps: seq<Proc>) {
    forall q :: 0 <= q < |ps| && ps[q].state.UNUSED? ==> !ps[q].killed
  }

  /** kill marks a free slot exactly if the first slot with the pid is one: it has pid 0, or that of a fork that failed. */
  lemma MarkedFree(ps: seq<Proc>, ps': seq<Proc>, i: int)
    requires Marked(ps, ps', i) && FreeUnmarked(ps)
    ensures FreeUnmarked(ps') <==> !ps[i].state.UNUSED?
  {
    assert ps'[i].state.UNUSED? <==> ps[i].state.UNUSED?;
  }

  /** kill(0) succeeds while a free slot has pid 0, as one that was never used or that wait has freed, and marks the first
      of them; if that is the first free slot, the next process starts out killed. */
  method KillNobody(t: Ptable, cur: int, q: int) returns (ok: bool, pid: int)
    requires t.Valid() && t.Runs(cur) && t.doing[cur].User? && FirstFree(t.proc, q) && t.proc[q].pid == 0
    modifies t
    ensures ok && t.Valid() && pid == old(t.nextpid) && 0 <= q < |t.proc|
    ensures t.proc[q].pid == pid && t.proc[q].parent == cur && t.proc[q].state.RUNNABLE? && t.proc[q].killed
  {
    hide Inv;
    t.ZeroIsFree();
    ok := t.Kill(0);
    assert FirstFree(t.proc, q);
    t.NextPositive();
    pid := t.Fork(cur, true);
  }

  /** fork's only effect: slot `q` holds a runnable child of `cur` with its tickets. */
  ghost predicate IsChild(ps: seq<Proc>, ps': seq<Proc>, cur: int, q: int, pid: int) {
    && 0 <= q < |ps| == |ps'| && 0 <= cur < |ps| && q != cur
    && ps' == ps[q := ps[q].(state := RUNNABLE, pid := pid, parent := cur, tickets := ps[cur].tickets)]
  }

  /** The processes of the run below when wait is about to free slot 1. */
  ghost predicate Reapable(t: Ptable, n: int)
    reads t
  {
    && t.Valid() && |t.proc| == 3 && t.init == 0 && (forall i :: 0 <= i < 3 ==> t.doing[i].User?)
    && t.proc[0].state.RUNNING? && t.proc[1].state.ZOMBIE? && t.proc[1].parent == 0
    && t.proc[2].state.RUNNING? && t.proc[2].parent == 0 && t.proc[2].tickets == n
  }

  /** init forks twice, and the first child exits. */
  method UntilReap(free: Proc, n: int) returns (t: Ptable)
    requires free.state.UNUSED? && free.parent == -1 && free.pid == 0 && n > 0
    ensures fresh(t) && Reapable(t, n)
  {
    hide Inv;
    t := new Ptable(3, 0, free);
    t.Resume(0);
    var ok := t.Settickets(0, n);
    t.NextPositive();
    var pid := t.Fork(0, true);
    t.NextPositive();
    pid := t.Fork(0, true);
    t.Resume(2);
    t.Resume(1);
    ok := t.Exit(1);
  }

  /** wait clears the tickets of the slot it freed after it has released the lock. A process forks into that slot in
      between: the child runs without tickets if fork has stored them before that, although its parent has some, and
      with its parent's if fork stores them afterwards. */
  method ReapRace(free: Proc, n: int, stored: bool) returns (t: Ptable, pid: int)
    requires free.state.UNUSED? && free.parent == -1 && free.pid == 0 && n > 0
    ensures fresh(t) && t.Valid() && |t.proc| == 3 && t.proc[1].state.RUNNABLE? && t.proc[1].pid == pid
    ensures t.proc[1].parent == 2 && t.proc[2].tickets == n && t.proc[1].tickets == if stored then 0 else n
  {
    hide Inv;
    t := UntilReap(free, n);
    var r := t.Wait(0);
    assert t.proc[1].state.UNUSED?;
    var q := t.Allocproc(2);
    assert q == Some(1);
    if stored {
      t.ForkLinks(2, 1);
      t.ClearTickets(r.slot);
    } else {
      t.ClearTickets(r.slot);
      t.ForkLinks(2, 1);
    }
    pid := t.ForkLaunches(2, 1);
  }

  /** What the invariant means: following parents from any process leads up to init, through live processes. */
  lemma {:induction false} LeadsToInit(ps: seq<Proc>, doing: seq<Doing>, init: int, nextpid: int, reaped: set<int>, q: int) returns (steps: nat)
    requires Inv(ps, doing, init, nextpid, reaped) && 0 <= q < |ps| && Born(ps[q])
    ensures Ancestor(ps, q, steps) == init
    decreases ps[q].pid
  {
    hide Tree, Pids, Forks, Waits;
    PidsPositive(ps, init, nextpid, reaped, q);
    steps := 0;
    if q != init {
      var up := LeadsToInit(ps, doing, init, nextpid, reaped, ps[q].parent);
      steps := up + 1;
    }
  }

  lemma PidsPositive(ps: seq<Proc>, init: int, nextpid: int, reaped: set<int>, q: int)
    requires Pids(ps, init, nextpid, reaped) && Tree(ps, init) && 0 <= q < |ps| && Born(ps[q])
    ensures ps[q].pid > 0
    ensures q != init ==> 0 <= ps[q].parent < |ps| && 0 < ps[ps[q].parent].pid < ps[q].pid && Born(ps[ps[q].parent])
  {
  }

  /** The `n`-th parent of slot `q`. */
  function Ancestor(ps: seq<Proc>, q: int, n: nat): int
    decreases n
  {
    if n == 0 || !(0 <= q < |ps|) then q else Ancestor(ps, ps[q].parent, n - 1)
  }
}
