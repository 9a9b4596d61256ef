/**
 Sleep-locks over sleep and wakeup: Offline 3/xv6/sleeplock.c and the hand-off between a sleep-lock's
 spinlock and ptable.lock in proc.c, as interleaved atomic steps of any number of processes.

 The steps are the acquires and releases of the two spinlocks and the stores between them. kill may
 wake a sleeper at any time. Running and runnable are not told apart: a process that is not asleep
 may be given a turn.
 */
module SleepLock {
  import opened Wrappers

  /** Where a process is; each constructor names the step it takes next. */
  datatype Pc =
    | Idle
    | AAcquire | ATest | AGrab | ARelease | Held             // acquiresleep
    | RAcquire | RClear | WAcquire | WWake | WRelease | RRelease   // releasesleep and wakeup
    | SAcquire | SRelease | SSleep | SSched | Asleep | STidy | SDrop | SReacquire   // sleep
    | KAcquire | KWake | KRelease                            // kill

  /** `asleep` is state == SLEEPING and `chan` is chan == lk, by process; `pid` is the process lk->pid names, -1 for
      none; `inner` holds lk->lk and `pt` holds ptable.lock. */
  datatype State = State(pc: seq<Pc>, asleep: seq<bool>, chan: seq<bool>, locked: bool, pid: int,
                         inner: Option<int>, pt: Option<int>)

  /** The scheduler gives process `t` a turn; an idle one wants the lock or kills `victim`. */
  datatype Turn = Turn(t: int, kills: bool, victim: int)

  predicate Sized(s: State) {
    |s.asleep| == |s.pc| && |s.chan| == |s.pc|
  }

  /** Spinning on a taken spinlock, or not scheduled because asleep. */
  predicate Waits(s: State, p: Pc, asleep: bool) {
    match p
    case AAcquire | RAcquire | SReacquire => s.inner.Some?
    case WAcquire | SAcquire | KAcquire => s.pt.Some?
    case Asleep => asleep || s.pt.Some?
    case _ => false
  }

  function Next(p: Pc, locked: bool, kills: bool): Pc {
    match p
    case Idle => if kills then KAcquire else AAcquire
    case AAcquire => ATest
    case ATest => if locked then SAcquire else AGrab
    case AGrab => ARelease
    case ARelease => Held
    case Held => RAcquire
    case RAcquire => RClear
    case RClear => WAcquire
    case WAcquire => WWake
    case WWake => WRelease
    case WRelease => RRelease
    case RRelease => Idle
    case SAcquire => SRelease
    case SRelease => SSleep
    case SSleep => SSched
    case SSched => Asleep
    case Asleep => STidy
    case STidy => SDrop
    case SDrop => SReacquire
    case SReacquire => ATest
    case KAcquire => KWake
    case KWake => KRelease
    case KRelease => Idle
  }

  function Inner(p: Pc, t: int, inner: Option<int>): Option<int> {
    if p.AAcquire? || p.RAcquire? || p.SReacquire? then Some(t)
    else if p.ARelease? || p.RRelease? || p.SRelease? then None
    else inner
  }

  /** sched gives ptable.lock to the scheduler, which releases it; it is taken again to resume a process. */
  function Pt(p: Pc, t: int, pt: Option<int>): Option<int> {
    if p.WAcquire? || p.SAcquire? || p.KAcquire? || p.Asleep? then Some(t)
    else if p.WRelease? || p.SSched? || p.SDrop? || p.KRelease? then None
    else pt
  }

  /** wakeup1: the sleepers on the lock's channel become runnable. */
  function WakeAll(asleep: seq<bool>, chan: seq<bool>): (r: seq<bool>)
    requires |chan| == |asleep|
    ensures |r| == |asleep| && forall i :: 0 <= i < |r| ==> r[i] == (asleep[i] && !chan[i])
  {
    seq(|asleep|, i requires 0 <= i < |asleep| => asleep[i] && !chan[i])
  }

  function Sleepers(p: Pc, t: int, victim: int, asleep: seq<bool>, chan: seq<bool>): (r: seq<bool>)
    requires 0 <= t < |asleep| == |chan|
    ensures |r| == |asleep|
  {
    if p.SSleep? then asleep[t := true]
    else if p.WWake? then WakeAll(asleep, chan)
    else if p.KWake? && 0 <= victim < |asleep| then asleep[victim := false]
    else asleep
  }

  function Chan(p: Pc, t: int, chan: seq<bool>): (r: seq<bool>)
    requires 0 <= t < |chan|
    ensures |r| == |chan|
  {
    if p.SSleep? then chan[t := true] else if p.STidy? then chan[t := false] else chan
  }

  function Locked(p: Pc, locked: bool): bool {
    if p.AGrab? then true else if p.RClear? then false else locked
  }

  /** The next step of process `t`, None if it has to wait. */
  function Step(s: State, u: Turn): (r: Option<State>)
    requires Sized(s) && 0 <= u.t < |s.pc|
    ensures r.Some? ==> Sized(r.value) && |r.value.pc| == |s.pc|
  {
    var t := u.t;
    var p := s.pc[t];
    if Waits(s, p, s.asleep[t]) then None
    else
      Some(State(s.pc[t := Next(p, s.locked, u.kills)], Sleepers(p, t, u.victim, s.asleep, s.chan), Chan(p, t, s.chan),
                 Locked(p, s.locked), if p.AGrab? then t else if p.RClear? then -1 else s.pid, Inner(p, t, s.inner), Pt(p, t, s.pt)))
  }

  // ---------------------------------------------------------------------------------------------
  // The invariant
  // ---------------------------------------------------------------------------------------------

  predicate HoldsInner(p: Pc) {
    p.ATest? || p.AGrab? || p.ARelease? || p.RClear? || p.WAcquire? || p.WWake? || p.WRelease? || p.RRelease? || p.SAcquire? || p.SRelease?
  }

  predicate HoldsPt(p: Pc) {
    p.SRelease? || p.SSleep? || p.SSched? || p.STidy? || p.SDrop? || p.WWake? || p.WRelease? || p.KWake? || p.KRelease?
  }

  /** Has the sleep-lock: from the store of `locked` to its clearing. */
  predicate Owns(p: Pc) {
    p.ARelease? || p.Held? || p.RAcquire? || p.RClear?
  }

  /** Has decided to sleep, and is not yet asleep. */
  predicate Drowsy(p: Pc) {
    p.SAcquire? || p.SRelease? || p.SSleep?
  }

  /** Has cleared `locked` and not yet woken the sleepers. */
  predicate Waking(p: Pc) {
    p.WAcquire? || p.WWake?
  }

  ghost predicate Spin(s: State) {
    && (forall t :: 0 <= t < |s.pc| ==> (HoldsInner(s.pc[t]) <==> s.inner == Some(t)))
    && (forall t :: 0 <= t < |s.pc| ==> (HoldsPt(s.pc[t]) <==> s.pt == Some(t)))
    && (s.inner.Some? ==> 0 <= s.inner.value < |s.pc|) && (s.pt.Some? ==> 0 <= s.pt.value < |s.pc|)
  }

  ghost predicate Owner(s: State) {
    && (forall t :: 0 <= t < |s.pc| ==> (Owns(s.pc[t]) <==> s.locked && s.pid == t))
    && (s.locked ==> 0 <= s.pid < |s.pc|)
    && (forall t :: 0 <= t < |s.pc| && s.pc[t].AGrab? ==> !s.locked)
    && (forall t :: 0 <= t < |s.pc| && Waking(s.pc[t]) ==> !s.locked)
  }

  ghost predicate Beds(s: State)
    requires Sized(s)
  {
    && (forall t :: 0 <= t < |s.pc| && s.asleep[t] ==> s.pc[t].SSched? || s.pc[t].Asleep?)
    && (forall t :: 0 <= t < |s.pc| ==> (s.chan[t] <==> s.pc[t].SSched? || s.pc[t].Asleep? || s.pc[t].STidy?))
  }

  /** Whoever sleeps on the lock, or is about to, will be woken: the lock is taken, or a releaser has yet to
      wake the sleepers. */
  ghost predicate NotLost(s: State)
    requires Sized(s)
  {
    forall t :: 0 <= t < |s.pc| && (s.asleep[t] || Drowsy(s.pc[t])) ==>
      s.locked || (s.inner.Some? && 0 <= s.inner.value < |s.pc| && Waking(s.pc[s.inner.value]))
  }

  ghost predicate Inv(s: State) {
    Sized(s) && Spin(s) && Owner(s) && Beds(s) && NotLost(s)
  }

  function Start(n: nat): (s: State)
    ensures |s.pc| == n && Sized(s)
  {
    State(seq(n, _ => Idle), seq(n, _ => false), seq(n, _ => false), false, -1, None, None)
  }

  lemma StartInv(n: nat)
    ensures Inv(Start(n))
  {
  }

  lemma NextHolds(p: Pc, locked: bool, kills: bool)
    ensures
      var q := Next(p, locked, kills);
      && (HoldsInner(q) <==> p.AAcquire? || p.RAcquire? || p.SReacquire? || (HoldsInner(p) && !p.ARelease? && !p.RRelease? && !p.SRelease?))
      && (HoldsPt(q) <==> p.WAcquire? || p.SAcquire? || p.KAcquire? || p.Asleep?
                          || (HoldsPt(p) && !p.WRelease? && !p.SSched? && !p.SDrop? && !p.KRelease?))
    ensures p.ARelease? || p.RRelease? || p.SRelease? ==> HoldsInner(p)
    ensures p.AAcquire? || p.RAcquire? || p.SReacquire? ==> !HoldsInner(p)
    ensures p.WRelease? || p.SSched? || p.SDrop? || p.KRelease? ==> HoldsPt(p)
    ensures p.WAcquire? || p.SAcquire? || p.KAcquire? || p.Asleep? ==> !HoldsPt(p)
  {
  }

  lemma NextOwns(p: Pc, locked: bool, kills: bool)
    ensures
      var q := Next(p, locked, kills);
      && (Owns(q) <==> p.AGrab? || (Owns(p) && !p.RClear?))
      && (q.AGrab? <==> p.ATest? && !locked)
      && (Waking(q) <==> p.RClear? || p.WAcquire?)
      && (Drowsy(q) <==> (p.ATest? && locked) || p.SAcquire? || p.SRelease?)
      && (q.SSched? <==> p.SSleep?) && (q.Asleep? <==> p.SSched?) && (q.STidy? <==> p.Asleep?)
    ensures p.RClear? ==> Owns(p) && HoldsInner(p)
    ensures p.AGrab? || p.ATest? ==> HoldsInner(p) && !Owns(p)
    ensures Waking(p) ==> HoldsInner(p)
    ensures p.WWake? ==> HoldsPt(p)
    ensures Drowsy(p) ==> HoldsInner(p) || HoldsPt(p)
  {
  }

  lemma StepSpin(s: State, u: Turn)
    requires Sized(s) && Spin(s) && 0 <= u.t < |s.pc| && Step(s, u).Some?
    ensures Spin(Step(s, u).value)
  {
    hide Next, HoldsInner, HoldsPt, Sleepers, Chan, Locked;
    NextHolds(s.pc[u.t], s.locked, u.kills);
  }

  lemma StepOwner(s: State, u: Turn)
    requires Sized(s) && Spin(s) && Owner(s) && 0 <= u.t < |s.pc| && Step(s, u).Some?
    ensures Owner(Step(s, u).value)
  {
    hide Next, HoldsInner, HoldsPt, Sleepers, Chan, Owns;
    forall t | 0 <= t < |s.pc|
      ensures s.pc[t].AGrab? || Waking(s.pc[t]) || s.pc[t].RClear? || s.pc[t].ATest? ==> HoldsInner(s.pc[t])
    {
      NextOwns(s.pc[t], s.locked, u.kills);
    }
    NextOwns(s.pc[u.t], s.locked, u.kills);
  }

  lemma StepBeds(s: State, u: Turn)
    requires Sized(s) && Spin(s) && Beds(s) && 0 <= u.t < |s.pc| && Step(s, u).Some?
    ensures Beds(Step(s, u).value)
  {
    hide Next, HoldsInner, HoldsPt, Locked;
    NextOwns(s.pc[u.t], s.locked, u.kills);
  }

  lemma StepNotLost(s: State, u: Turn)
    requires Inv(s) && 0 <= u.t < |s.pc| && Step(s, u).Some?
    ensures NotLost(Step(s, u).value)
  {
    hide Next, HoldsInner, HoldsPt, Owns;
    forall t | 0 <= t < |s.pc|
      ensures Waking(s.pc[t]) ==> HoldsInner(s.pc[t])
      ensures Drowsy(s.pc[t]) ==> HoldsInner(s.pc[t]) || HoldsPt(s.pc[t])
    {
      NextOwns(s.pc[t], s.locked, u.kills);
    }
    NextOwns(s.pc[u.t], s.locked, u.kills);
    NextHolds(s.pc[u.t], s.locked, u.kills);
  }

  lemma StepInv(s: State, u: Turn)
    requires Inv(s) && 0 <= u.t < |s.pc| && Step(s, u).Some?
    ensures Inv(Step(s, u).value)
  {
    assert Sized(s) && Spin(s) && Owner(s) && Beds(s);
    hide Step, Spin, Owner, Beds, NotLost;
    StepSpin(s, u);
    StepOwner(s, u);
    StepBeds(s, u);
    StepNotLost(s, u);
  }

  // ---------------------------------------------------------------------------------------------
  // Runs
  // ---------------------------------------------------------------------------------------------

  /** One turn; nothing happens if the process has to wait. */
  function TakeTurn(s: State, u: Turn): (r: State)
    requires Sized(s)
    ensures Sized(r) && |r.pc| == |s.pc|
  {
    if 0 <= u.t < |s.pc| && Step(s, u).Some? then Step(s, u).value else s
  }

  function Run(s: State, turns: seq<Turn>): (r: State)
    requires Sized(s)
    ensures Sized(r) && |r.pc| == |s.pc|
    decreases |turns|
  {
    if turns == [] then s else TakeTurn(Run(s, turns[..|turns| - 1]), turns[|turns| - 1])
  }

  lemma {:induction false} RunInv(s: State, turns: seq<Turn>)
    requires Inv(s)
    ensures Inv(Run(s, turns))
    decreases |turns|
  {
    assert Sized(s);
    hide Inv, Step;
    if turns != [] {
      RunInv(s, turns[..|turns| - 1]);
      var r, u := Run(s, turns[..|turns| - 1]), turns[|turns| - 1];
      if 0 <= u.t < |r.pc| && Step(r, u).Some? {
        StepInv(r, u);
      }
    }
  }

  /** No lost wakeup: when the lock is free and no releaser is on its way to wakeup, nobody sleeps on it. */
  lemma {:induction false} NoLostWakeup(n: nat, turns: seq<Turn>, t: int)
    requires 0 <= t < n
    ensures
      var s := Run(Start(n), turns);
      !s.locked && (forall u :: 0 <= u < n ==> !Waking(s.pc[u])) ==> !s.asleep[t]
  {
    hide Run, Start, Spin, Owner, Beds, Waking, Drowsy;
    StartInv(n);
    RunInv(Start(n), turns);
  }

  /** At most one process has the sleep-lock. */
  lemma {:induction false} AtMostOne(n: nat, turns: seq<Turn>, t: int, u: int)
    requires 0 <= t < n && 0 <= u < n && t != u
    ensures
      var s := Run(Start(n), turns);
      !(Owns(s.pc[t]) && Owns(s.pc[u]))
  {
    hide Run, Start, Spin, Beds, NotLost, Owns;
    StartInv(n);
    RunInv(Start(n), turns);
  }

  /** In acquiresleep, awake or asleep. */
  predicate Acquiring(p: Pc) {
    p.AAcquire? || p.ATest? || p.AGrab? || p.ARelease? || p.SAcquire? || p.SRelease? || p.SSleep? || p.SSched? || p.Asleep? || p.STidy?
    || p.SDrop? || p.SReacquire?
  }

  /** Between acquiresleep and the wakeup of releasesleep. */
  predicate Releasing(p: Pc) {
    p.Held? || p.RAcquire? || p.RClear? || p.WAcquire?
  }

  predicate Killing(p: Pc) {
    p.KAcquire?
  }

  predicate AtHeld(p: Pc) {
    p.Held?
  }

  predicate AtWake(p: Pc) {
    p.WWake?
  }

  predicate AtKill(p: Pc) {
    p.KWake?
  }

  /** From `before` program order goes on to `before` or to `at`. */
  ghost predicate LeadsTo(before: Pc -> bool, at: Pc -> bool) {
    forall p, locked, kills {:trigger Next(p, locked, kills)} :: before(p) ==> before(Next(p, locked, kills)) || at(Next(p, locked, kills))
  }

  lemma TurnNext(s: State, u: Turn, t: int)
    requires Sized(s) && 0 <= t < |s.pc|
    ensures TakeTurn(s, u).pc[t] == s.pc[t] || TakeTurn(s, u).pc[t] == Next(s.pc[t], s.locked, u.kills)
  {
  }

  /** A process that was `before` and has not been `at` is `before`, whatever the others have done. */
  lemma {:induction false} StillBefore(s: State, turns: seq<Turn>, t: int, i: nat, before: Pc -> bool, at: Pc -> bool)
    requires Sized(s) && 0 <= t < |s.pc| && i <= |turns| && LeadsTo(before, at) && before(Run(s, turns[..i]).pc[t])
    requires forall k :: i < k <= |turns| ==> !at(Run(s, turns[..k]).pc[t])
    ensures before(Run(s, turns).pc[t])
    decreases |turns|
  {
    hide Next, TakeTurn;
    assert turns[..|turns|] == turns;
    if i < |turns| {
      var n := |turns| - 1;
      forall k | 0 <= k <= n
        ensures turns[..n][..k] == turns[..k]
      {
      }
      StillBefore(s, turns[..n], t, i, before, at);
      TurnNext(Run(s, turns[..n]), turns[n], t);
    }
  }

  lemma PathsLead()
    ensures LeadsTo(Acquiring, AtHeld) && LeadsTo(Releasing, AtWake) && LeadsTo(Killing, AtKill)
  {
  }

  lemma SetsOut(s: State, turns: seq<Turn>, i: nat)
    requires Sized(s) && i < |turns| && 0 <= turns[i].t < |s.pc| && Run(s, turns[..i]).pc[turns[i].t].Idle?
    ensures Run(s, turns[..i + 1]).pc[turns[i].t] == if turns[i].kills then KAcquire else AAcquire
  {
    assert turns[..i + 1][..i] == turns[..i];
  }

  /** A process comes out of acquiresleep only with the lock, whatever wakes it. */
  lemma {:induction false} AcquireHolds(n: nat, turns: seq<Turn>, t: int, i: nat)
    requires 0 <= t < n && i < |turns| && turns[i].t == t && !turns[i].kills
    requires Run(Start(n), turns[..i]).pc[t].Idle? && Run(Start(n), turns).pc[t].Idle?
    ensures exists k :: i < k < |turns| && HasLock(Run(Start(n), turns[..k]), t)
  {
    hide Inv, Start, Run, LeadsTo, HasLock;
    var s := Start(n);
    StartInv(n);
    assert turns[..|turns|] == turns;
    SetsOut(s, turns, i);
    PathsLead();
    if forall k :: i < k <= |turns| ==> !AtHeld(Run(s, turns[..k]).pc[t]) {
      StillBefore(s, turns, t, i + 1, Acquiring, AtHeld);
    }
    var k :| i < k <= |turns| && AtHeld(Run(s, turns[..k]).pc[t]);
    RunInv(s, turns[..k]);
    HeldIs(Run(s, turns[..k]), t);
  }

  ghost predicate HasLock(s: State, t: int) {
    0 <= t < |s.pc| && s.pc[t].Held? && s.locked && s.pid == t
  }

  lemma HeldIs(s: State, t: int)
    requires Inv(s) && 0 <= t < |s.pc| && s.pc[t].Held?
    ensures HasLock(s, t)
  {
    hide Spin, Beds, NotLost;
    assert Owns(s.pc[t]);
  }

  /** releasesleep wakes those that wait for the lock before it is done, ... */
  lemma {:induction false} ReleaseWakes(n: nat, turns: seq<Turn>, t: int, i: nat)
    requires 0 <= t < n && i <= |turns| && Run(Start(n), turns[..i]).pc[t].Held? && Run(Start(n), turns).pc[t].Idle?
    ensures exists k :: i < k < |turns| && Run(Start(n), turns[..k]).pc[t].WWake?
  {
    hide Start, Run, LeadsTo;
    assert turns[..|turns|] == turns;
    PathsLead();
    if forall k :: i < k <= |turns| ==> !AtWake(Run(Start(n), turns[..k]).pc[t]) {
      StillBefore(Start(n), turns, t, i, Releasing, AtWake);
    }
  }

  /** ... and kill its victim. */
  lemma {:induction false} KillWakes(n: nat, turns: seq<Turn>, t: int, i: nat)
    requires 0 <= t < n && i < |turns| && turns[i].t == t && turns[i].kills
    requires Run(Start(n), turns[..i]).pc[t].Idle? && Run(Start(n), turns).pc[t].Idle?
    ensures exists k :: i < k < |turns| && Run(Start(n), turns[..k]).pc[t].KWake?
  {
    hide Start, Run, LeadsTo;
    assert turns[..|turns|] == turns;
    SetsOut(Start(n), turns, i);
    PathsLead();
    if forall k :: i < k <= |turns| ==> !AtKill(Run(Start(n), turns[..k]).pc[t]) {
      StillBefore(Start(n), turns, t, i + 1, Killing, AtKill);
    }
  }

  /** Who is asleep after a step: the process that went to sleep, and those that slept unless the step woke them. */
  lemma SleepersAre(s: State, u: Turn, t: int)
    requires Sized(s) && 0 <= u.t < |s.pc| && Step(s, u).Some? && 0 <= t < |s.pc|
    ensures Step(s, u).value.asleep[t] <==>
            if s.pc[u.t].SSleep? && t == u.t then true
            else s.asleep[t] && !(s.pc[u.t].WWake? && s.chan[t]) && !(s.pc[u.t].KWake? && t == u.victim)
  {
  }

  /** `t` has something to do and can do its next step. */
  predicate CanStep(s: State, t: int) {
    Sized(s) && 0 <= t < |s.pc| && !s.pc[t].Idle? && !Waits(s, s.pc[t], s.asleep[t])
  }

  /** If one of the spinlocks is taken, a process that is not idle can step. */
  lemma SpinnerMoves(s: State) returns (t: int)
    requires Inv(s) && (s.inner.Some? || s.pt.Some?)
    ensures CanStep(s, t)
  {
    hide Owner, NotLost;
    if s.pt.Some? {
      t := s.pt.value;
    } else {
      t := s.inner.value;
    }
    assert HoldsPt(s.pc[t]) || HoldsInner(s.pc[t]);
  }

  /** No deadlock: while some process is not idle, some process can step; nobody sleeps for ever on a free lock. */
  lemma NoDeadlock(s: State, u: int) returns (t: int)
    requires Inv(s) && 0 <= u < |s.pc| && !s.pc[u].Idle?
    ensures CanStep(s, t)
  {
    hide Spin, Beds, Drowsy;
    if s.inner.Some? || s.pt.Some? {
      t := SpinnerMoves(s);
    } else if s.asleep[u] {
      t := s.pid;
      assert Owns(s.pc[t]);
      OwnerAwake(s, t);
    } else {
      t := u;
    }
  }

  lemma OwnerAwake(s: State, t: int)
    requires Inv(s) && 0 <= t < |s.pc| && Owns(s.pc[t])
    ensures !s.asleep[t]
  {
    hide Spin, Owner, NotLost;
  }
}
