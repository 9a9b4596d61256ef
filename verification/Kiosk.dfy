/**
 The check-in kiosks of Offline 2/1705058.cpp: SelfCheckUp as interleaved atomic steps of any number
 of passengers. `kiosk` is the array Kiosk (1 for empty), `sem` is kiosk_sem, `check` is
 kiosk_check_mutex and `inside` the array kiosk_mutex. GetEmptyKiosk reads one element a step, while
 others set theirs to 1 without holding kiosk_check_mutex.
 */
module Kiosk {
  import opened Wrappers
  import opened Counting

  /** Each constructor names the step the passenger takes next. */
  datatype Pc = Out | Check | Wait | Scan(i: int) | Take(e: int) | Unlock | Enter | Finish | Leave | Post

  datatype Hall = Hall(pc: seq<Pc>, my: seq<int>, kiosk: seq<int>, sem: int, check: Option<int>, inside: seq<Option<int>>)

  /** A step: the passenger waits, writes outside the array Kiosk, or moves on. */
  datatype Outcome = Waits | Crashes | Moves(h: Hall)

  /** What GetEmptyKiosk returns. */
  function FirstEmpty(kiosk: seq<int>, i: int): (r: int)
    requires 0 <= i <= |kiosk|
    ensures r == -1 || i <= r < |kiosk|
    decreases |kiosk| - i
  {
    if i == |kiosk| then -1 else if kiosk[i] == 1 then i else FirstEmpty(kiosk, i + 1)
  }

  /** GetEmptyKiosk finds an empty kiosk whenever there is one. */
  lemma {:induction false} FirstEmptyIs(kiosk: seq<int>, i: int)
    requires 0 <= i <= |kiosk|
    ensures FirstEmpty(kiosk, i) == -1 <==> forall k :: i <= k < |kiosk| ==> kiosk[k] != 1
    ensures FirstEmpty(kiosk, i) != -1 ==> kiosk[FirstEmpty(kiosk, i)] == 1
    ensures forall k :: i <= k < FirstEmpty(kiosk, i) ==> kiosk[k] != 1
    decreases |kiosk| - i
  {
    if i < |kiosk| && kiosk[i] != 1 {
      FirstEmptyIs(kiosk, i + 1);
    }
  }

  method GetEmptyKiosk(kiosk: array<int>) returns (r: int)
    ensures r == FirstEmpty(kiosk[..], 0)
    ensures r == -1 || (0 <= r < kiosk.Length && kiosk[r] == 1)
  {
    var i := 0;
    while i < kiosk.Length
      invariant 0 <= i <= kiosk.Length && FirstEmpty(kiosk[..], 0) == FirstEmpty(kiosk[..], i)
    {
      if kiosk[i] == 1 {
        return i;
      }
      i := i + 1;
    }
    r := -1;
  }

  function Go(h: Hall, t: int, pc: Pc): Outcome
    requires 0 <= t < |h.pc|
  {
    Moves(h.(pc := h.pc[t := pc]))
  }

  predicate Sized(h: Hall) {
    |h.my| == |h.pc| && |h.inside| == |h.kiosk|
  }

  /** The next step of passenger `t`. */
  function Step(h: Hall, t: int): Outcome
    requires Sized(h) && 0 <= t < |h.pc|
  {
    var k := h.my[t];
    match h.pc[t]
    case Out => Go(h, t, Check)
    case Check => if h.check.None? then Go(h.(check := Some(t)), t, Wait) else Waits
    case Wait => if h.sem > 0 then Go(h.(sem := h.sem - 1), t, Scan(0)) else Waits
    case Scan(i) =>
      if !(0 <= i < |h.kiosk|) then Go(h, t, Take(-1))
      else if h.kiosk[i] == 1 then Go(h, t, Take(i)) else Go(h, t, Scan(i + 1))
    case Take(e) =>
      if 0 <= e < |h.kiosk| then Go(h.(kiosk := h.kiosk[e := 0], my := h.my[t := e]), t, Unlock) else Crashes
    case Unlock => Go(h.(check := None), t, Enter)
    case Enter =>
      if !(0 <= k < |h.inside|) then Crashes
      else if h.inside[k].None? then Go(h.(inside := h.inside[k := Some(t)]), t, Finish) else Waits
    case Finish => if 0 <= k < |h.kiosk| then Go(h.(kiosk := h.kiosk[k := 1]), t, Leave) else Crashes
    case Leave => if 0 <= k < |h.inside| then Go(h.(inside := h.inside[k := None]), t, Post) else Crashes
    case Post => Go(h.(sem := h.sem + 1), t, Out)
  }

  /** Past sem_wait and before sem_post. */
  predicate Admitted(p: Pc) {
    p.Scan? || p.Take? || p.Unlock? || p.Enter? || p.Finish? || p.Leave? || p.Post?
  }

  /** Has a kiosk marked as its own. */
  predicate Busy(p: Pc) {
    p.Unlock? || p.Enter? || p.Finish?
  }

  predicate Choosing(p: Pc) {
    p.Wait? || p.Scan? || p.Take? || p.Unlock?
  }

  predicate Taken(k: int) {
    k == 0
  }

  ghost predicate Counts(h: Hall) {
    && h.sem >= 0 && h.sem + Count(h.pc, Admitted) == |h.kiosk|
    && Count(h.kiosk, Taken) == Count(h.pc, Busy)
  }

  /** Every busy passenger has a kiosk of its own, marked taken. */
  ghost predicate Own(h: Hall) {
    && Sized(h) && (forall k :: 0 <= k < |h.kiosk| ==> h.kiosk[k] == 0 || h.kiosk[k] == 1)
    && (forall t :: 0 <= t < |h.pc| && Busy(h.pc[t]) ==> 0 <= h.my[t] < |h.kiosk| && h.kiosk[h.my[t]] == 0)
    && (forall t, u :: 0 <= t < u < |h.pc| && Busy(h.pc[t]) && Busy(h.pc[u]) ==> h.my[t] != h.my[u])
  }

  /** The mutexes are held by just the passengers between their lock and their unlock. */
  ghost predicate Locks(h: Hall) {
    && Sized(h)
    && (forall t :: 0 <= t < |h.pc| ==> (Choosing(h.pc[t]) <==> h.check == Some(t)))
    && (h.check.Some? ==> 0 <= h.check.value < |h.pc|)
    && (forall t :: 0 <= t < |h.pc| && (h.pc[t].Finish? || h.pc[t].Leave?) ==> 0 <= h.my[t] < |h.inside| && h.inside[h.my[t]] == Some(t))
    && (forall k :: 0 <= k < |h.inside| && h.inside[k].Some? ==>
          && 0 <= h.inside[k].value < |h.pc| && h.my[h.inside[k].value] == k
          && (h.pc[h.inside[k].value].Finish? || h.pc[h.inside[k].value].Leave?))
  }

  ghost predicate EmptyFrom(kiosk: seq<int>, i: int) {
    0 <= i && exists k :: i <= k < |kiosk| && kiosk[k] == 1
  }

  /** The scan has an empty kiosk before it; the kiosk found is still empty. */
  ghost predicate LookOk(kiosk: seq<int>, p: Pc) {
    (p.Scan? ==> EmptyFrom(kiosk, p.i)) && (p.Take? ==> 0 <= p.e < |kiosk| && kiosk[p.e] == 1)
  }

  ghost predicate Looks(h: Hall) {
    forall t :: 0 <= t < |h.pc| ==> LookOk(h.kiosk, h.pc[t])
  }

  ghost predicate Inv(h: Hall) {
    Own(h) && Counts(h) && Locks(h) && Looks(h)
  }

  /** sem_init with the number of kiosks, all of them empty. */
  function Start(passengers: nat, kiosks: nat): (h: Hall)
    ensures Sized(h) && |h.pc| == passengers && |h.kiosk| == kiosks
  {
    Hall(seq(passengers, _ => Out), seq(passengers, _ => -1), seq(kiosks, _ => 1), kiosks, None, seq(kiosks, _ => None))
  }

  lemma StartInv(passengers: nat, kiosks: nat)
    ensures Inv(Start(passengers, kiosks))
  {
    var h := Start(passengers, kiosks);
    CountNone(h.pc, Admitted);
    CountNone(h.pc, Busy);
    CountNone(h.kiosk, Taken);
  }

  /** While the semaphore lets passengers through, some kiosk is empty. */
  lemma KioskFree(h: Hall)
    requires Own(h) && Counts(h) && h.sem > 0
    ensures EmptyFrom(h.kiosk, 0)
  {
    CountLeq(h.pc, Busy, Admitted);
    if !EmptyFrom(h.kiosk, 0) {
      CountAll(h.kiosk, Taken);
    }
  }

  /** Only passengers that hold kiosk_check_mutex take kiosks, so nobody takes one from under a scan. */
  lemma StepLooks(h: Hall, t: int)
    requires Own(h) && Counts(h) && Locks(h) && Looks(h) && 0 <= t < |h.pc| && Step(h, t).Moves?
    ensures Looks(Step(h, t).h)
  {
    hide Counts, FirstEmpty;
    var h' := Step(h, t).h;
    if h.pc[t].Wait? {
      KioskFree(h);
    }
    assert LookOk(h.kiosk, h.pc[t]);
    forall u | 0 <= u < |h.pc| && u != t
      ensures LookOk(h'.kiosk, h'.pc[u])
    {
      assert LookOk(h.kiosk, h.pc[u]) && h'.pc[u] == h.pc[u];
      if h.pc[u].Scan? || h.pc[u].Take? {
        assert Choosing(h.pc[u]) && !Choosing(h.pc[t]);
        KeepsEmpty(h.kiosk, h'.kiosk, h.pc[u]);
      }
    }
    OwnLook(h.kiosk, h.pc[t], h'.kiosk, h'.pc[t]);
  }

  lemma KeepsEmpty(kiosk: seq<int>, kiosk': seq<int>, p: Pc)
    requires LookOk(kiosk, p) && |kiosk'| == |kiosk| && forall k :: 0 <= k < |kiosk| && kiosk[k] == 1 ==> kiosk'[k] == 1
    ensures LookOk(kiosk', p)
  {
    if p.Scan? {
      var k :| p.i <= k < |kiosk| && kiosk[k] == 1;
      assert kiosk'[k] == 1;
    }
  }

  /** The scan's own steps. */
  lemma OwnLook(kiosk: seq<int>, p: Pc, kiosk': seq<int>, q: Pc)
    requires LookOk(kiosk, p) && |kiosk'| == |kiosk|
    requires q.Scan? || q.Take? ==> kiosk' == kiosk
    requires q.Scan? ==> (p.Wait? && q.i == 0 && EmptyFrom(kiosk, 0)) || (p.Scan? && 0 <= p.i < |kiosk| && kiosk[p.i] != 1 && q.i == p.i + 1)
    requires q.Take? ==> p.Scan? && q.e == if 0 <= p.i < |kiosk| && kiosk[p.i] == 1 then p.i else -1
    requires q.Take? && p.Scan? && 0 <= p.i < |kiosk| ==> kiosk[p.i] == 1
    ensures LookOk(kiosk', q)
  {
  }

  lemma StepCounts(h: Hall, t: int)
    requires Own(h) && Counts(h) && Looks(h) && 0 <= t < |h.pc| && Step(h, t).Moves?
    ensures Counts(Step(h, t).h)
  {
    hide FirstEmpty;
    assert LookOk(h.kiosk, h.pc[t]);
    var h' := Step(h, t).h;
    var q := h'.pc[t];
    assert h'.pc == h.pc[t := q];
    CountUpdate(h.pc, Admitted, t, q);
    CountUpdate(h.pc, Busy, t, q);
    if h.pc[t].Take? {
      CountUpdate(h.kiosk, Taken, h.pc[t].e, 0);
    } else if h.pc[t].Finish? {
      CountUpdate(h.kiosk, Taken, h.my[t], 1);
    }
  }

  lemma StepOwn(h: Hall, t: int)
    requires Own(h) && Looks(h) && 0 <= t < |h.pc| && Step(h, t).Moves?
    ensures Own(Step(h, t).h)
  {
    assert Sized(h) && LookOk(h.kiosk, h.pc[t]);
    hide FirstEmpty, Counts, Own, Busy, Looks;
    var h' := Step(h, t).h;
    match h.pc[t] {
      case Take(e) =>
        OwnTake(h, t, e, h');
      case Finish =>
        OwnGive(h, t, h');
      case _ =>
        BusyStays(h.pc[t], h'.pc[t]);
        OwnStays(h, t, h'.pc[t], h');
    }
  }

  lemma BusyStays(p: Pc, q: Pc)
    requires !p.Take? && !p.Finish?
    ensures Busy(q) && (q.Unlock? ==> p.Take?) && (q.Enter? ==> p.Unlock?) && (q.Finish? ==> p.Enter?) ==> Busy(p)
  {
  }

  lemma OwnTake(h: Hall, t: int, e: int, h': Hall)
    requires Own(h) && 0 <= t < |h.pc| && 0 <= e < |h.kiosk| && h.kiosk[e] == 1
    requires Sized(h') && h'.pc == h.pc[t := Unlock] && h'.my == h.my[t := e] && h'.kiosk == h.kiosk[e := 0]
    ensures Own(h')
  {
    hide Busy;
  }

  lemma OwnGive(h: Hall, t: int, h': Hall)
    requires Own(h) && 0 <= t < |h.pc| && h.pc[t].Finish? && 0 <= h.my[t] < |h.kiosk|
    requires Sized(h') && h'.pc == h.pc[t := Leave] && h'.my == h.my && h'.kiosk == h.kiosk[h.my[t] := 1]
    ensures Own(h')
  {
    assert Busy(h.pc[t]) && !Busy(Leave);
    hide Busy;
  }

  lemma OwnStays(h: Hall, t: int, q: Pc, h': Hall)
    requires Own(h) && 0 <= t < |h.pc| && (Busy(q) ==> Busy(h.pc[t]))
    requires Sized(h') && h'.pc == h.pc[t := q] && h'.my == h.my && h'.kiosk == h.kiosk
    ensures Own(h')
  {
    hide Busy;
  }

  lemma StepLocks(h: Hall, t: int)
    requires Locks(h) && 0 <= t < |h.pc| && Step(h, t).Moves?
    ensures Locks(Step(h, t).h)
  {
    hide FirstEmpty;
    match h.pc[t] {
      case Check => case Scan(i) => case Take(e) => case Unlock => case Enter => case Leave =>
      case _ =>
    }
  }

  lemma StepInv(h: Hall, t: int)
    requires Inv(h) && 0 <= t < |h.pc| && Step(h, t).Moves?
    ensures Inv(Step(h, t).h)
  {
    hide Step, Own, Counts, Locks, Looks;
    StepCounts(h, t);
    StepOwn(h, t);
    StepLocks(h, t);
    StepLooks(h, t);
  }

  lemma NoCrash(h: Hall, t: int)
    requires Inv(h) && 0 <= t < |h.pc|
    ensures !Step(h, t).Crashes?
  {
    hide FirstEmpty, Counts, EmptyFrom;
    assert LookOk(h.kiosk, h.pc[t]);
  }

  // ---------------------------------------------------------------------------------------------
  // Runs
  // ---------------------------------------------------------------------------------------------

  /** The scheduler gives passenger `t` a turn; nothing happens if it has to wait. */
  function TakeTurn(h: Hall, t: int): (r: Hall)
    requires Sized(h)
    ensures Sized(r) && |r.pc| == |h.pc| && |r.kiosk| == |h.kiosk|
  {
    if 0 <= t < |h.pc| && Step(h, t).Moves? then Step(h, t).h else h
  }

  function Run(h: Hall, turns: seq<int>): (r: Hall)
    requires Sized(h)
    ensures Sized(r) && |r.pc| == |h.pc| && |r.kiosk| == |h.kiosk|
    decreases |turns|
  {
    if turns == [] then h else TakeTurn(Run(h, turns[..|turns| - 1]), turns[|turns| - 1])
  }

  lemma {:induction false} RunInv(h: Hall, turns: seq<int>)
    requires Inv(h)
    ensures Inv(Run(h, turns))
    decreases |turns|
  {
    assert Sized(h);
    hide Own, Counts, Locks, Looks, Step;
    if turns != [] {
      RunInv(h, turns[..|turns| - 1]);
      var r, t := Run(h, turns[..|turns| - 1]), turns[|turns| - 1];
      if 0 <= t < |r.pc| && Step(r, t).Moves? {
        StepInv(r, t);
      }
    }
  }

  /** Before the check-in. */
  predicate Before(p: Pc) {
    p.Check? || p.Wait? || p.Scan? || p.Take? || p.Unlock? || p.Enter?
  }

  lemma BeforeNext(h: Hall, u: int, t: int)
    requires Sized(h) && 0 <= t < |h.pc| && Before(h.pc[t])
    ensures Before(TakeTurn(h, u).pc[t]) || TakeTurn(h, u).pc[t].Finish?
  {
  }

  lemma {:induction false} StillBefore(h: Hall, turns: seq<int>, t: int, i: nat)
    requires Sized(h) && 0 <= t < |h.pc| && i <= |turns| && Before(Run(h, turns[..i]).pc[t])
    requires forall k :: i < k <= |turns| ==> !Run(h, turns[..k]).pc[t].Finish?
    ensures Before(Run(h, turns).pc[t])
    decreases |turns|
  {
    hide TakeTurn, Before, FirstEmpty;
    assert turns[..|turns|] == turns;
    if i < |turns| {
      var n := |turns| - 1;
      forall k | 0 <= k <= n
        ensures turns[..n][..k] == turns[..k]
      {
      }
      StillBefore(h, turns[..n], t, i);
      BeforeNext(Run(h, turns[..n]), turns[n], t);
    }
  }

  /** A passenger that has set out does not come back without having checked in at a kiosk that it has to itself. */
  lemma {:induction false} TripChecksIn(passengers: nat, kiosks: nat, turns: seq<int>, t: int, i: nat)
    requires 0 <= t < passengers && i < |turns| && turns[i] == t
    requires Run(Start(passengers, kiosks), turns[..i]).pc[t].Out? && Run(Start(passengers, kiosks), turns).pc[t].Out?
    ensures exists k :: i < k < |turns| && ChecksIn(Run(Start(passengers, kiosks), turns[..k]), t)
  {
    hide Inv, FirstEmpty, Start, Before, ChecksIn, Run;
    var h := Start(passengers, kiosks);
    StartInv(passengers, kiosks);
    assert turns[..|turns|] == turns;
    SetsOut(h, turns, i);
    if forall k :: i < k <= |turns| ==> !Run(h, turns[..k]).pc[t].Finish? {
      StillBefore(h, turns, t, i + 1);
      NotBoth(Run(h, turns).pc[t]);
    }
    var k :| i < k <= |turns| && Run(h, turns[..k]).pc[t].Finish?;
    RunInv(h, turns[..k]);
    FinishIs(Run(h, turns[..k]), t);
  }

  lemma {:induction false} SetsOut(h: Hall, turns: seq<int>, i: nat)
    requires Sized(h) && i < |turns| && 0 <= turns[i] < |h.pc| && Run(h, turns[..i]).pc[turns[i]].Out?
    ensures Before(Run(h, turns[..i + 1]).pc[turns[i]])
  {
    assert turns[..i + 1][..i] == turns[..i];
  }

  lemma NotBoth(p: Pc)
    ensures !(p.Out? && Before(p))
  {
  }

  lemma FinishIs(h: Hall, t: int)
    requires Inv(h) && 0 <= t < |h.pc| && h.pc[t].Finish?
    ensures ChecksIn(h, t)
  {
    hide Counts, Looks;
    assert Busy(h.pc[t]);
  }

  /** Passenger `t` is in its kiosk, which is marked as taken, and has locked it. */
  predicate ChecksIn(h: Hall, t: int) {
    && Sized(h) && 0 <= t < |h.pc| && h.pc[t].Finish? && 0 <= h.my[t] < |h.kiosk|
    && h.inside[h.my[t]] == Some(t) && h.kiosk[h.my[t]] == 0
  }

  /** `n` turns in a row for passenger `t`. */
  function Alone(t: int, n: int): (r: seq<int>)
    requires n >= 0
    ensures |r| == n
  {
    if n == 0 then [] else Alone(t, n - 1) + [t]
  }

  lemma {:induction false} RunMore(h: Hall, turns: seq<int>, t: int)
    requires Sized(h)
    ensures Run(h, turns + [t]) == TakeTurn(Run(h, turns), t) && Run(h, []) == h
  {
    assert (turns + [t])[..|turns|] == turns;
  }

  /** One turn of the scan. */
  lemma ScanTurn(h: Hall, t: int, i: int)
    requires Sized(h) && 0 <= t < |h.pc| && 0 <= i <= |h.kiosk|
    ensures
      var q := if i == |h.kiosk| then Take(-1) else if h.kiosk[i] == 1 then Take(i) else Scan(i + 1);
      TakeTurn(h.(pc := h.pc[t := Scan(i)]), t) == h.(pc := h.pc[t := q])
  {
    var q := if i == |h.kiosk| then Take(-1) else if h.kiosk[i] == 1 then Take(i) else Scan(i + 1);
    assert h.pc[t := Scan(i)][t := q] == h.pc[t := q];
  }

  lemma {:induction false} ScanAlone(h: Hall, t: int, n: int)
    requires Sized(h) && 0 <= t < |h.pc| && h.pc[t] == Scan(0) && 0 <= n <= |h.kiosk|
    requires forall k :: 0 <= k < n ==> h.kiosk[k] != 1
    ensures Run(h, Alone(t, n)) == h.(pc := h.pc[t := Scan(n)])
    decreases n
  {
    hide Run, TakeTurn, FirstEmpty;
    if n == 0 {
      RunMore(h, [], t);
      assert h.pc[t := Scan(0)] == h.pc;
    } else {
      ScanAlone(h, t, n - 1);
      ScanTurn(h, t, n - 1);
      RunMore(h, Alone(t, n - 1), t);
    }
  }

  /** Undisturbed, the scan returns what GetEmptyKiosk returns. */
  lemma {:induction false} ScanReturns(h: Hall, t: int)
    requires Sized(h) && 0 <= t < |h.pc| && h.pc[t] == Scan(0)
    ensures
      var e := FirstEmpty(h.kiosk, 0);
      Run(h, Alone(t, 1 + if e == -1 then |h.kiosk| else e)) == h.(pc := h.pc[t := Take(e)])
  {
    hide Run, TakeTurn, FirstEmpty;
    var e := FirstEmpty(h.kiosk, 0);
    FirstEmptyIs(h.kiosk, 0);
    var n := if e == -1 then |h.kiosk| else e;
    ScanAlone(h, t, n);
    ScanTurn(h, t, n);
    RunMore(h, Alone(t, n), t);
  }

  /** After sem_wait on kiosk_sem, GetEmptyKiosk never returns -1, in any interleaving with the releases of others:
      its scan never runs off the end, and the kiosk it returns is empty when it is marked. */
  lemma {:induction false} NeverMinusOne(passengers: nat, kiosks: nat, turns: seq<int>, t: int)
    requires 0 <= t < passengers
    ensures
      var h := Run(Start(passengers, kiosks), turns);
      && (h.pc[t].Scan? ==> 0 <= h.pc[t].i < kiosks) && (h.pc[t].Take? ==> 0 <= h.pc[t].e < kiosks && h.kiosk[h.pc[t].e] == 1)
      && !Step(h, t).Crashes?
  {
    hide Run, Counts, FirstEmpty, Start, Own, Locks;
    StartInv(passengers, kiosks);
    RunInv(Start(passengers, kiosks), turns);
    var h := Run(Start(passengers, kiosks), turns);
    NoCrash(h, t);
    assert LookOk(h.kiosk, h.pc[t]);
  }

  /** No two passengers check in at the same kiosk. */
  lemma {:induction false} OwnKiosk(passengers: nat, kiosks: nat, turns: seq<int>, t: int, u: int)
    requires 0 <= t < u < passengers
    ensures
      var h := Run(Start(passengers, kiosks), turns);
      (h.pc[t].Finish? || h.pc[t].Leave?) && (h.pc[u].Finish? || h.pc[u].Leave?) ==> h.my[t] != h.my[u]
  {
    hide Run, Counts, Start, Own, Looks;
    StartInv(passengers, kiosks);
    RunInv(Start(passengers, kiosks), turns);
  }

  predicate CanStep(h: Hall, t: int) {
    Sized(h) && 0 <= t < |h.pc| && !h.pc[t].Out? && Step(h, t).Moves?
  }

  /** A passenger admitted by the semaphore, or the one whose kiosk it waits for, can step. */
  lemma AdmittedMoves(h: Hall, u: int) returns (t: int)
    requires Inv(h) && 0 <= u < |h.pc| && Admitted(h.pc[u])
    ensures CanStep(h, t)
  {
    hide Counts, Own, Looks, FirstEmpty, Choosing;
    NoCrash(h, u);
    t := u;
    if Step(h, u).Waits? {
      t := h.inside[h.my[u]].value;
      NoCrash(h, t);
    }
  }

  /** With at least one kiosk nobody waits for ever: while some passenger is on its way, some passenger can step. */
  lemma NoDeadlock(h: Hall, u: int) returns (t: int)
    requires Inv(h) && |h.kiosk| > 0 && 0 <= u < |h.pc| && !h.pc[u].Out?
    ensures CanStep(h, t)
  {
    hide Own, Looks, FirstEmpty;
    NoCrash(h, u);
    t := u;
    if !CanStep(h, u) {
      var w := if h.pc[u].Check? then h.check.value else u;
      if h.pc[w].Wait? {
        t := w;
        if h.sem == 0 {
          var a := CountFind(h.pc, Admitted);
          t := AdmittedMoves(h, a);
        }
      } else {
        t := AdmittedMoves(h, w);
      }
    }
  }
}
