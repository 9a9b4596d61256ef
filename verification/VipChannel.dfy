/**
 The VIP channel of Offline 2/1705058.cpp: LeftToRight and RightToLeft as interleaved atomic steps of
 any number of passengers.

 vip_way_mutex and channel_mutex are binary semaphores: the last left-to-right passenger may release
 what the first one took. The state records which side took them; releasing never looks at it.
 */
module VipChannel {
  import opened Wrappers
  import opened Counting

  /** Where a passenger is; each constructor names the step it takes next. */
  datatype Pc =
    | Out
    | LLock | LInc | LTest | LVip | LChan | LUnlock | LIn | LDec | LTest0 | LRelVip | LRelChan | LLeave
    | RGate | RPass | RLock | RInc | RTest | RChan | RUnlock | RIn | RDec | RTest0 | RRel | RLeave

  /** Who took a binary semaphore. */
  datatype Owner = Free | Left | Right

  datatype World = World(pc: seq<Pc>, ltr: int, rtl: int, ltrLock: Option<int>, rtlLock: Option<int>,
                         vip: Owner, gate: int, chan: Owner)

  /** A passenger at a lock that is taken has to wait. */
  predicate Waits(s: World, p: Pc) {
    match p
    case LLock | LIn => s.ltrLock.Some?
    case LVip | RGate => !s.vip.Free?
    case LChan | RChan => !s.chan.Free?
    case RLock | RIn => s.rtlLock.Some?
    case _ => false
  }

  /** Program order. An idle passenger sets out in either direction. */
  function Next(p: Pc, ltr: int, rtl: int, toLeft: bool): Pc {
    match p
    case Out => if toLeft then RGate else LLock
    // LeftToRight
    case LLock => LInc
    case LInc => LTest
    case LTest => if ltr == 1 then LVip else LUnlock
    case LVip => LChan
    case LChan => LUnlock
    case LUnlock => LIn
    case LIn => LDec
    case LDec => LTest0
    case LTest0 => if ltr == 0 then LRelVip else LLeave
    case LRelVip => LRelChan
    case LRelChan => LLeave
    case LLeave => Out
    // RightToLeft
    case RGate => RPass
    case RPass => RLock
    case RLock => RInc
    case RInc => RTest
    case RTest => if rtl == 1 then RChan else RUnlock
    case RChan => RUnlock
    case RUnlock => RIn
    case RIn => RDec
    case RDec => RTest0
    case RTest0 => if rtl == 0 then RRel else RLeave
    case RRel => RLeave
    case RLeave => Out
  }

  /** LTRCount++ and LTRCount-- */
  function DeltaL(p: Pc): int {
    if p.LInc? then 1 else if p.LDec? then -1 else 0
  }

  function DeltaR(p: Pc): int {
    if p.RInc? then 1 else if p.RDec? then -1 else 0
  }

  function LockL(p: Pc, t: int, lock: Option<int>): Option<int> {
    if p.LLock? || p.LIn? then Some(t) else if p.LUnlock? || p.LLeave? then None else lock
  }

  function LockR(p: Pc, t: int, lock: Option<int>): Option<int> {
    if p.RLock? || p.RIn? then Some(t) else if p.RUnlock? || p.RLeave? then None else lock
  }

  function Vip(p: Pc, vip: Owner): Owner {
    if p.LVip? then Left else if p.RGate? then Right else if p.LRelVip? || p.RPass? then Free else vip
  }

  function Chan(p: Pc, chan: Owner): Owner {
    if p.LChan? then Left else if p.RChan? then Right else if p.LRelChan? || p.RRel? then Free else chan
  }

  /** The next step of passenger `t`, None if it has to wait. */
  function Step(s: World, t: int, toLeft: bool): (r: Option<World>)
    requires 0 <= t < |s.pc|
  {
    var p := s.pc[t];
    if Waits(s, p) then None
    else
      Some(World(s.pc[t := Next(p, s.ltr, s.rtl, toLeft)], s.ltr + DeltaL(p), s.rtl + DeltaR(p),
                 LockL(p, t, s.ltrLock), LockR(p, t, s.rtlLock), Vip(p, s.vip), if p.RGate? then t else s.gate, Chan(p, s.chan)))
  }

  predicate CountedL(p: Pc) {
    p.LTest? || p.LVip? || p.LChan? || p.LUnlock? || p.LIn? || p.LDec?
  }

  predicate HoldsL(p: Pc) {
    p.LInc? || p.LTest? || p.LVip? || p.LChan? || p.LUnlock? || p.LDec? || p.LTest0? || p.LRelVip? || p.LRelChan? || p.LLeave?
  }

  predicate CountedR(p: Pc) {
    p.RTest? || p.RChan? || p.RUnlock? || p.RIn? || p.RDec?
  }

  predicate HoldsR(p: Pc) {
    p.RInc? || p.RTest? || p.RChan? || p.RUnlock? || p.RDec? || p.RTest0? || p.RRel? || p.RLeave?
  }

  /** Which semaphores the left-to-right side has, given where the holder `h` of ltr_count_mutex is. */
  predicate LeftOk(h: Option<Pc>, ltr: int, hasVip: bool, hasChan: bool) {
    match h
    case Some(LTest) => ltr >= 1 && hasVip == hasChan == (ltr > 1)
    case Some(LVip) => ltr == 1 && !hasVip && !hasChan
    case Some(LChan) => ltr == 1 && hasVip && !hasChan
    case Some(LTest0) => hasVip && hasChan
    case Some(LRelVip) => ltr == 0 && hasVip && hasChan
    case Some(LRelChan) => ltr == 0 && !hasVip && hasChan
    case _ => hasVip == hasChan == (ltr > 0)
  }

  predicate RightOk(h: Option<Pc>, rtl: int, hasChan: bool) {
    match h
    case Some(RTest) => rtl >= 1 && hasChan == (rtl > 1)
    case Some(RChan) => rtl == 1 && !hasChan
    case Some(RTest0) => hasChan
    case Some(RRel) => rtl == 0 && hasChan
    case _ => hasChan == (rtl > 0)
  }

  function Holder(pc: seq<Pc>, lock: Option<int>): Option<Pc> {
    if lock.Some? && 0 <= lock.value < |pc| then Some(pc[lock.value]) else None
  }

  ghost predicate Counts(s: World) {
    s.ltr == Count(s.pc, CountedL) && s.rtl == Count(s.pc, CountedR)
  }

  /** The mutexes are held by just the passengers between their lock and their unlock. */
  ghost predicate Holders(s: World) {
    && (forall t :: 0 <= t < |s.pc| ==> (HoldsL(s.pc[t]) <==> s.ltrLock == Some(t)))
    && (forall t :: 0 <= t < |s.pc| ==> (HoldsR(s.pc[t]) <==> s.rtlLock == Some(t)))
    && (forall t :: 0 <= t < |s.pc| ==> (s.pc[t].RPass? <==> s.vip.Right? && s.gate == t))
    && (s.ltrLock.Some? ==> 0 <= s.ltrLock.value < |s.pc|) && (s.rtlLock.Some? ==> 0 <= s.rtlLock.value < |s.pc|)
    && (s.vip.Right? ==> 0 <= s.gate < |s.pc|)
  }

  predicate Sides(s: World) {
    && LeftOk(Holder(s.pc, s.ltrLock), s.ltr, s.vip.Left?, s.chan.Left?)
    && RightOk(Holder(s.pc, s.rtlLock), s.rtl, s.chan.Right?)
  }

  ghost predicate Inv(s: World) {
    Counts(s) && Holders(s) && Sides(s)
  }

  function Start(n: nat): (s: World)
    ensures |s.pc| == n
  {
    World(seq(n, _ => Out), 0, 0, None, None, Free, 0, Free)
  }

  lemma StartInv(n: nat)
    ensures Inv(Start(n))
  {
    CountNone(Start(n).pc, CountedL);
    CountNone(Start(n).pc, CountedR);
  }

  lemma NextCounts(p: Pc, ltr: int, rtl: int, toLeft: bool)
    ensures
      var q := Next(p, ltr, rtl, toLeft);
      && (if CountedL(q) then 1 else 0) == (if CountedL(p) then 1 else 0) + DeltaL(p)
      && (if CountedR(q) then 1 else 0) == (if CountedR(p) then 1 else 0) + DeltaR(p)
  {
  }

  lemma NextHolds(p: Pc, ltr: int, rtl: int, toLeft: bool)
    ensures
      var q := Next(p, ltr, rtl, toLeft);
      && (HoldsL(q) <==> p.LLock? || p.LIn? || (HoldsL(p) && !p.LUnlock? && !p.LLeave?))
      && (HoldsR(q) <==> p.RLock? || p.RIn? || (HoldsR(p) && !p.RUnlock? && !p.RLeave?))
      && (q.RPass? <==> p.RGate?)
    ensures p.LUnlock? || p.LLeave? ==> HoldsL(p)
    ensures p.RUnlock? || p.RLeave? ==> HoldsR(p)
    ensures p.LLock? || p.LIn? ==> !HoldsL(p)
    ensures p.RLock? || p.RIn? ==> !HoldsR(p)
  {
  }

  lemma StepCounts(s: World, t: int, toLeft: bool)
    requires Counts(s) && 0 <= t < |s.pc| && Step(s, t, toLeft).Some?
    ensures Counts(Step(s, t, toLeft).value)
    ensures CountedL(s.pc[t]) ==> s.ltr >= 1
    ensures CountedR(s.pc[t]) ==> s.rtl >= 1
    ensures s.ltr >= 0 && s.rtl >= 0
  {
    hide Waits, Next, DeltaL, DeltaR, LockL, LockR, Vip, Chan, CountedL, CountedR;
    var q := Next(s.pc[t], s.ltr, s.rtl, toLeft);
    NextCounts(s.pc[t], s.ltr, s.rtl, toLeft);
    CountUpdate(s.pc, CountedL, t, q);
    CountUpdate(s.pc, CountedR, t, q);
    if CountedL(s.pc[t]) {
      CountOne(s.pc, CountedL, t);
    }
    if CountedR(s.pc[t]) {
      CountOne(s.pc, CountedR, t);
    }
  }

  lemma StepHolders(s: World, t: int, toLeft: bool)
    requires Holders(s) && Sides(s) && 0 <= t < |s.pc| && Step(s, t, toLeft).Some?
    ensures Holders(Step(s, t, toLeft).value)
  {
    hide Next, DeltaL, DeltaR, Chan, HoldsL, HoldsR, Sides;
    NextHolds(s.pc[t], s.ltr, s.rtl, toLeft);
    LeftHasVip(s, t);
  }

  /** The releases of vip_way_mutex by the left side find it taken by that side. */
  lemma LeftHasVip(s: World, t: int)
    requires Holders(s) && Sides(s) && 0 <= t < |s.pc|
    ensures s.pc[t].LRelVip? ==> s.vip.Left?
    ensures s.pc[t].LRelChan? ==> s.chan.Left?
    ensures s.pc[t].RRel? ==> s.chan.Right?
    ensures HoldsL(s.pc[t]) ==> Holder(s.pc, s.ltrLock) == Some(s.pc[t])
    ensures HoldsR(s.pc[t]) ==> Holder(s.pc, s.rtlLock) == Some(s.pc[t])
  {
    hide LeftOk, RightOk;
    hide HoldsL, HoldsR;
    RelHolds(s.pc[t], s.ltr, s.rtl, s.vip.Left?, s.chan.Left?, s.chan.Right?);
  }

  lemma RelHolds(p: Pc, ltr: int, rtl: int, hasVip: bool, hasChan: bool, rightChan: bool)
    ensures p.LRelVip? || p.LRelChan? ==> HoldsL(p)
    ensures p.RRel? ==> HoldsR(p)
    ensures p.LRelVip? && LeftOk(Some(p), ltr, hasVip, hasChan) ==> hasVip
    ensures p.LRelChan? && LeftOk(Some(p), ltr, hasVip, hasChan) ==> hasChan
    ensures p.RRel? && RightOk(Some(p), rtl, rightChan) ==> rightChan
  {
  }

  /** One step of the passenger that holds ltr_count_mutex. */
  lemma LeftMoves(p: Pc, ltr: int, rtl: int, vip: Owner, chan: Owner, toLeft: bool)
    requires HoldsL(p) && LeftOk(Some(p), ltr, vip.Left?, chan.Left?) && ltr >= 0 && (CountedL(p) ==> ltr >= 1)
    ensures
      var q := Next(p, ltr, rtl, toLeft);
      LeftOk(if p.LUnlock? || p.LLeave? then None else Some(q), ltr + DeltaL(p), Vip(p, vip).Left?, Chan(p, chan).Left?)
  {
  }

  lemma RightMoves(p: Pc, ltr: int, rtl: int, chan: Owner, toLeft: bool)
    requires HoldsR(p) && RightOk(Some(p), rtl, chan.Right?) && rtl >= 0 && (CountedR(p) ==> rtl >= 1)
    ensures
      var q := Next(p, ltr, rtl, toLeft);
      RightOk(if p.RUnlock? || p.RLeave? then None else Some(q), rtl + DeltaR(p), Chan(p, chan).Right?)
  {
  }

  /** A step by a passenger that does not hold ltr_count_mutex. */
  lemma LeftStays(p: Pc, ltr: int, rtl: int, vip: Owner, chan: Owner, toLeft: bool)
    requires !HoldsL(p) && (p.RPass? ==> vip.Right?) && (p.RGate? ==> vip.Free?) && (p.RChan? ==> chan.Free?) && (p.RRel? ==> chan.Right?)
    ensures DeltaL(p) == 0 && Vip(p, vip).Left? == vip.Left? && Chan(p, chan).Left? == chan.Left?
    ensures p.LLock? || p.LIn? ==> forall l, v, c :: LeftOk(Some(Next(p, ltr, rtl, toLeft)), l, v, c) == LeftOk(None, l, v, c)
  {
  }

  lemma RightStays(p: Pc, ltr: int, rtl: int, chan: Owner, toLeft: bool)
    requires !HoldsR(p) && (p.LChan? ==> chan.Free?) && (p.LRelChan? ==> chan.Left?)
    ensures DeltaR(p) == 0 && Chan(p, chan).Right? == chan.Right?
    ensures p.RLock? || p.RIn? ==> forall l, c :: RightOk(Some(Next(p, ltr, rtl, toLeft)), l, c) == RightOk(None, l, c)
  {
  }

  lemma StepLeft(s: World, t: int, toLeft: bool)
    requires Holders(s) && Sides(s) && 0 <= t < |s.pc| && Step(s, t, toLeft).Some?
    requires s.ltr >= 0 && (CountedL(s.pc[t]) ==> s.ltr >= 1)
    ensures
      var s' := Step(s, t, toLeft).value;
      LeftOk(Holder(s'.pc, s'.ltrLock), s'.ltr, s'.vip.Left?, s'.chan.Left?)
  {
    hide Next, DeltaL, DeltaR, Vip, Chan, HoldsL, HoldsR, LeftOk, RightOk, LockR, CountedL;
    LeftHasVip(s, t);
    var p := s.pc[t];
    NextHolds(p, s.ltr, s.rtl, toLeft);
    if HoldsL(p) {
      LeftMoves(p, s.ltr, s.rtl, s.vip, s.chan, toLeft);
    } else {
      LeftStays(p, s.ltr, s.rtl, s.vip, s.chan, toLeft);
    }
  }

  lemma StepRight(s: World, t: int, toLeft: bool)
    requires Holders(s) && Sides(s) && 0 <= t < |s.pc| && Step(s, t, toLeft).Some?
    requires s.rtl >= 0 && (CountedR(s.pc[t]) ==> s.rtl >= 1)
    ensures
      var s' := Step(s, t, toLeft).value;
      RightOk(Holder(s'.pc, s'.rtlLock), s'.rtl, s'.chan.Right?)
  {
    hide Next, DeltaL, DeltaR, Vip, Chan, HoldsL, HoldsR, LeftOk, RightOk, LockL, CountedR;
    LeftHasVip(s, t);
    var p := s.pc[t];
    NextHolds(p, s.ltr, s.rtl, toLeft);
    if HoldsR(p) {
      RightMoves(p, s.ltr, s.rtl, s.chan, toLeft);
    } else {
      RightStays(p, s.ltr, s.rtl, s.chan, toLeft);
    }
  }

  lemma StepInv(s: World, t: int, toLeft: bool)
    requires Inv(s) && 0 <= t < |s.pc| && Step(s, t, toLeft).Some?
    ensures Inv(Step(s, t, toLeft).value)
  {
    hide Step, Counts, Holders, LeftOk, RightOk;
    StepCounts(s, t, toLeft);
    StepLeft(s, t, toLeft);
    StepRight(s, t, toLeft);
    StepHolders(s, t, toLeft);
  }

  // ---------------------------------------------------------------------------------------------
  // Runs
  // ---------------------------------------------------------------------------------------------

  /** The scheduler gives passenger `t` a turn; `toLeft` is the direction it would set out in. */
  datatype Turn = Turn(t: int, toLeft: bool)

  /** One turn; nothing happens if the passenger has to wait. */
  function TakeTurn(s: World, u: Turn): (r: World)
    ensures |r.pc| == |s.pc|
  {
    if 0 <= u.t < |s.pc| && Step(s, u.t, u.toLeft).Some? then Step(s, u.t, u.toLeft).value else s
  }

  function Run(s: World, turns: seq<Turn>): (r: World)
    ensures |r.pc| == |s.pc|
    decreases |turns|
  {
    if turns == [] then s else TakeTurn(Run(s, turns[..|turns| - 1]), turns[|turns| - 1])
  }

  lemma {:induction false} RunInv(s: World, turns: seq<Turn>)
    requires Inv(s)
    ensures Inv(Run(s, turns))
    decreases |turns|
  {
    hide Inv, Step;
    if turns != [] {
      RunInv(s, turns[..|turns| - 1]);
      var r, u := Run(s, turns[..|turns| - 1]), turns[|turns| - 1];
      if 0 <= u.t < |r.pc| && Step(r, u.t, u.toLeft).Some? {
        StepInv(r, u.t, u.toLeft);
      }
    }
  }

  /** On the way to the channel. */
  predicate OnWay(p: Pc, toLeft: bool) {
    if toLeft then p.RGate? || p.RPass? || p.RLock? || p.RInc? || p.RTest? || p.RChan? || p.RUnlock?
    else p.LLock? || p.LInc? || p.LTest? || p.LVip? || p.LChan? || p.LUnlock?
  }

  /** In the channel. */
  predicate InChannel(p: Pc, toLeft: bool) {
    if toLeft then p.RIn? else p.LIn?
  }

  /** From the way to the channel there is no other way on. */
  lemma WayNext(p: Pc, ltr: int, rtl: int, d: bool, toLeft: bool)
    requires OnWay(p, toLeft)
    ensures OnWay(Next(p, ltr, rtl, d), toLeft) || InChannel(Next(p, ltr, rtl, d), toLeft)
  {
  }

  lemma {:induction false} StillOnWay(s: World, turns: seq<Turn>, t: int, toLeft: bool, i: nat)
    requires 0 <= t < |s.pc| && i <= |turns| && OnWay(Run(s, turns[..i]).pc[t], toLeft)
    requires forall k :: i < k <= |turns| ==> !InChannel(Run(s, turns[..k]).pc[t], toLeft)
    ensures OnWay(Run(s, turns).pc[t], toLeft)
    decreases |turns|
  {
    hide Next, OnWay, InChannel, Waits;
    assert turns[..|turns|] == turns;
    if i < |turns| {
      var n := |turns| - 1;
      forall k | 0 <= k <= n
        ensures turns[..n][..k] == turns[..k]
      {
      }
      StillOnWay(s, turns[..n], t, toLeft, i);
      var r := Run(s, turns[..n]);
      WayNext(r.pc[t], r.ltr, r.rtl, turns[n].toLeft, toLeft);
    }
  }

  /** A passenger that has set out, in whatever interleaving, does not come back without having been in the channel in
      the direction it chose. */
  lemma {:induction false} TripPasses(s: World, turns: seq<Turn>, t: int, i: nat)
    requires 0 <= t < |s.pc| && i < |turns| && turns[i].t == t && Run(s, turns[..i]).pc[t].Out? && Run(s, turns).pc[t].Out?
    ensures exists k :: i < k < |turns| && InChannel(Run(s, turns[..k]).pc[t], turns[i].toLeft)
  {
    assert turns[..|turns|] == turns && turns[..i + 1][..i] == turns[..i];
    SetsOut(Run(s, turns[..i]), turns[i]);
    if forall k :: i < k <= |turns| ==> !InChannel(Run(s, turns[..k]).pc[t], turns[i].toLeft) {
      StillOnWay(s, turns, t, turns[i].toLeft, i + 1);
    }
  }

  lemma SetsOut(s: World, u: Turn)
    requires 0 <= u.t < |s.pc| && s.pc[u.t].Out?
    ensures OnWay(TakeTurn(s, u).pc[u.t], u.toLeft)
  {
  }

  /** A passenger in the channel finds it taken by its own side. */
  lemma ChannelOwned(s: World, t: int)
    requires Inv(s) && 0 <= t < |s.pc|
    ensures s.pc[t].LIn? ==> s.chan.Left?
    ensures s.pc[t].RIn? ==> s.chan.Right?
  {
    if s.pc[t].LIn? {
      CountOne(s.pc, CountedL, t);
      if s.ltrLock.Some? && CountedL(s.pc[s.ltrLock.value]) {
        var h := s.ltrLock.value;
        CountTwo(s.pc, CountedL, if h < t then h else t, if h < t then t else h);
      }
    } else if s.pc[t].RIn? {
      CountOne(s.pc, CountedR, t);
      if s.rtlLock.Some? && CountedR(s.pc[s.rtlLock.value]) {
        var h := s.rtlLock.value;
        CountTwo(s.pc, CountedR, if h < t then h else t, if h < t then t else h);
      }
    }
  }

  /** Passengers of the two directions are never in the channel together. */
  lemma {:induction false} NeverBoth(n: nat, turns: seq<Turn>, t: int, u: int)
    requires 0 <= t < n && 0 <= u < n
    ensures !(Run(Start(n), turns).pc[t].LIn? && Run(Start(n), turns).pc[u].RIn?)
  {
    hide Inv, Run, Start;
    StartInv(n);
    RunInv(Start(n), turns);
    ChannelOwned(Run(Start(n), turns), t);
    ChannelOwned(Run(Start(n), turns), u);
  }

  /** A passenger counted on a side whose mutex is free is in the channel. */
  lemma InsideL(s: World) returns (t: int)
    requires Inv(s) && s.ltrLock.None? && s.ltr > 0
    ensures 0 <= t < |s.pc| && s.pc[t].LIn?
  {
    t := CountFind(s.pc, CountedL);
    assert !HoldsL(s.pc[t]);
  }

  lemma InsideR(s: World) returns (t: int)
    requires Inv(s) && s.rtlLock.None? && s.rtl > 0
    ensures 0 <= t < |s.pc| && s.pc[t].RIn?
  {
    t := CountFind(s.pc, CountedR);
    assert !HoldsR(s.pc[t]);
  }

  predicate CanStep(s: World, t: int) {
    0 <= t < |s.pc| && !s.pc[t].Out? && !Waits(s, s.pc[t])
  }

  /** If the right-to-left side has the channel, one of its passengers can step. */
  lemma RightMoving(s: World) returns (t: int)
    requires Inv(s) && s.chan.Right?
    ensures CanStep(s, t) && PastGate(s.pc[t])
  {
    hide Counts, LeftOk;
    if s.rtlLock.Some? {
      t := s.rtlLock.value;
      assert HoldsR(s.pc[t]);
    } else {
      t := InsideR(s);
    }
  }

  /** If ltr_count_mutex is taken, its holder or someone it waits for can step. */
  lemma LeftMoving(s: World) returns (t: int)
    requires Inv(s) && s.ltrLock.Some?
    ensures CanStep(s, t)
  {
    hide Counts, RightOk;
    t := s.ltrLock.value;
    assert HoldsL(s.pc[t]);
    if s.pc[t].LVip? && s.vip.Right? {
      t := s.gate;
    } else if s.pc[t].LChan? && s.chan.Right? {
      t := RightMoving(s);
    }
  }

  /** No deadlock: as long as some passenger is on its way, some passenger can step. */
  lemma NoDeadlock(s: World, u: int) returns (t: int)
    requires Inv(s) && 0 <= u < |s.pc| && !s.pc[u].Out?
    ensures CanStep(s, t)
  {
    hide Counts, LeftOk, RightOk;
    t := u;
    if s.ltrLock.Some? {
      t := LeftMoving(s);
    } else if s.chan.Right? && !CanStep(s, u) {
      t := RightMoving(s);
    } else if !CanStep(s, u) {
      t := LeftOrHolder(s, u);
    }
  }

  lemma LeftOrHolder(s: World, u: int) returns (t: int)
    requires Inv(s) && 0 <= u < |s.pc| && !s.pc[u].Out? && s.ltrLock.None? && !s.chan.Right? && !CanStep(s, u)
    ensures CanStep(s, t)
  {
    hide Counts;
    assert !HoldsL(s.pc[u]);
    if s.ltr > 0 {
      t := InsideL(s);
    } else if s.vip.Right? {
      t := s.gate;
    } else {
      t := s.rtlLock.value;
      assert HoldsR(s.pc[t]);
    }
  }

  lemma NoDeadlockEver(n: nat, turns: seq<Turn>, u: int) returns (t: int)
    requires 0 <= u < n && !Run(Start(n), turns).pc[u].Out?
    ensures CanStep(Run(Start(n), turns), t)
  {
    hide Inv, Run, Start, CanStep;
    StartInv(n);
    RunInv(Start(n), turns);
    t := NoDeadlock(Run(Start(n), turns), u);
  }

  // ---------------------------------------------------------------------------------------------
  // Priority of the left-to-right direction
  // ---------------------------------------------------------------------------------------------

  predicate PastGate(p: Pc) {
    p.RPass? || p.RLock? || HoldsR(p) || p.RIn?
  }

  /** While the left-to-right side has vip_way_mutex, nobody passes the gate. */
  lemma GateShut(s: World, t: int, toLeft: bool, u: int)
    requires Inv(s) && s.vip.Left? && 0 <= t < |s.pc| && Step(s, t, toLeft).Some? && 0 <= u < |s.pc|
    ensures PastGate(Step(s, t, toLeft).value.pc[u]) ==> PastGate(s.pc[u])
  {
    hide Counts, Holders, Sides;
  }

  lemma WaitingHasVip(s: World, l: int)
    requires Inv(s) && 0 <= l < |s.pc| && s.pc[l].LChan?
    ensures s.vip.Left? && s.ltr == 1
  {
    hide Counts, RightOk;
    assert HoldsL(s.pc[l]);
  }

  /** As long as a left-to-right passenger waits for the channel, only right-to-left passengers that were
      past the gate when it began to wait can be past it. */
  lemma {:induction false} LeftFirst(s: World, turns: seq<Turn>, l: int, u: int)
    requires Inv(s) && 0 <= l < |s.pc| && 0 <= u < |s.pc|
    requires forall k :: 0 <= k <= |turns| ==> Run(s, turns[..k]).pc[l].LChan?
    ensures PastGate(Run(s, turns).pc[u]) ==> PastGate(s.pc[u])
    decreases |turns|
  {
    hide Inv, Step, PastGate;
    assert turns[..|turns|] == turns;
    if turns != [] {
      var n := |turns| - 1;
      forall k | 0 <= k <= n
        ensures Run(s, turns[..n][..k]).pc[l].LChan?
      {
        assert turns[..n][..k] == turns[..k];
      }
      LeftFirst(s, turns[..n], l, u);
      RunInv(s, turns[..n]);
      var r := Run(s, turns[..n]);
      WaitingHasVip(r, l);
      if 0 <= turns[n].t < |r.pc| && Step(r, turns[n].t, turns[n].toLeft).Some? {
        GateShut(r, turns[n].t, turns[n].toLeft, u);
      }
    }
  }

  /** Steps a right-to-left passenger past the gate still has to take, at most. */
  function ToGo(p: Pc): int {
    match p
    case RPass => 11
    case RLock => 10
    case RInc => 9
    case RTest => 8
    case RChan => 7
    case RUnlock => 6
    case RIn => 5
    case RDec => 4
    case RTest0 => 3
    case RRel => 2
    case RLeave => 1
    case _ => 0
  }

  lemma NextToGo(p: Pc, ltr: int, rtl: int, toLeft: bool)
    requires !p.RGate?
    ensures PastGate(p) ==> ToGo(Next(p, ltr, rtl, toLeft)) < ToGo(p)
    ensures !PastGate(p) ==> ToGo(Next(p, ltr, rtl, toLeft)) == ToGo(p)
  {
  }

  /** Every step of a passenger past the gate shortens the wait of the left-to-right side; no step lengthens it. */
  lemma WaitShrinks(s: World, t: int, toLeft: bool)
    requires Inv(s) && s.vip.Left? && 0 <= t < |s.pc| && Step(s, t, toLeft).Some?
    ensures Total(Step(s, t, toLeft).value.pc, ToGo) <= Total(s.pc, ToGo)
    ensures PastGate(s.pc[t]) ==> Total(Step(s, t, toLeft).value.pc, ToGo) < Total(s.pc, ToGo)
  {
    hide Counts, Holders, Sides, PastGate, ToGo, Next;
    NextToGo(s.pc[t], s.ltr, s.rtl, toLeft);
    TotalUpdate(s.pc, ToGo, t, Next(s.pc[t], s.ltr, s.rtl, toLeft));
  }

  /** A left-to-right passenger that cannot take the channel yet waits for one past the gate that can step. */
  lemma WaitEnds(s: World, l: int) returns (t: int)
    requires Inv(s) && 0 <= l < |s.pc| && s.pc[l].LChan? && !CanStep(s, l)
    ensures CanStep(s, t) && PastGate(s.pc[t])
  {
    hide Counts, RightOk;
    assert HoldsL(s.pc[l]);
    t := RightMoving(s);
  }
}
