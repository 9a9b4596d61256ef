/**
 Runs of the log of Offline 3/xv6/log.c, from boot, that end in a panic: commit or a reader finds no buffer, and
 log_write refuses a block that its operation may log.
 */
module LogRun {
  import opened Blocks
  import opened Counting
  import opened Bio
  import opened LogDisk
  import opened BufUsers
  import opened Sums
  import opened Log

  /** mkfs's place for the log. */
  const START := 2

  function IsIdle(): Buf -> bool {
    (b: Buf) => Idle(b)
  }

  /** Only blocks first .. first + n - 1 are cached. */
  ghost predicate CachedIn(buf: seq<Buf>, first: int, n: int) {
    forall b :: 0 <= b < |buf| && buf[b].dev != 0 ==> buf[b].dev == ROOTDEV && first <= buf[b].blockno < first + n
  }

  /** Nobody has a buffer, and the schedule is still to come. */
  ghost predicate AtRest(users: BufUsers, turns: seq<Turn>)
    reads users
  {
    |users.user| >= 2 && users.turns == turns && forall i :: 0 <= i < |users.user| ==> users.user[i].Out?
  }

  /** The first `i` blocks behind the log have been logged by three operations; their buffers are dirty, the others
      idle. */
  ghost predicate Running(log: Log, size: int, i: int, turns: seq<Turn>)
    reads log, log.bc, log.users
  {
    && log.Valid() && log.users.Inv() && AtRest(log.users, turns) && log.start == START && log.size == size
    && |log.bc.disk| == |log.bc.view| && START + size + LOGSIZE + |log.bc.buf| <= |log.bc.disk|
    && 0 <= i && log.lh == Blocknos(START + size, i) && log.ops == Budgets(i) && !log.committing
    && CachedIn(log.bc.buf, START + size, i) && Count(log.bc.buf, IsIdle()) == |log.bc.buf| - i
  }

  /** The next write is paid for by operation i / 10. */
  lemma NextBudget(i: int)
    requires 0 <= i < LOGSIZE
    ensures i / MAXOPBLOCKS in Budgets(i) && Budgets(i)[i / MAXOPBLOCKS] > 0
    ensures Budgets(i)[i / MAXOPBLOCKS := Budgets(i)[i / MAXOPBLOCKS] - 1] == Budgets(i + 1)
  {
  }

  lemma EmptyHeader(disk: Disk, size: int)
    requires START + size <= |disk| && 1 <= size && disk[START] == ZERO
    ensures Clean(disk, START, size) && Fits([], |disk|, START, size)
  {
    ZeroWords(0);
  }

  lemma NoOps()
    ensures Reserved([], 0, false, map[]) && Distinct([]) && PinnedAre(map[], [])
  {
  }

  lemma {:induction false} AllIdle(buf: seq<Buf>, first: int)
    requires forall i :: 0 <= i < |buf| ==> Idle(buf[i]) && buf[i].dev == 0
    ensures Count(buf, IsIdle()) == |buf| && CachedIn(buf, first, 0)
  {
    CountAll(buf, IsIdle());
  }

  /** A log on a zeroed disk, with `nbuf` buffers and `readers` other processes. */
  method Start(nbuf: nat, size: int, readers: nat, turns: seq<Turn>) returns (log: Log)
    requires 1 <= size < UINT_RANGE / 4 && nbuf < UINT_RANGE / 4
    ensures fresh(log) && fresh(log.bc) && fresh(log.users) && log.Valid() && log.users.Inv() && AtRest(log.users, turns)
    ensures log.start == START && log.size == size && log.lh == [] && log.ops == map[] && log.outstanding == 0 && !log.committing
    ensures |log.bc.buf| == nbuf && |log.users.user| == readers + 2 && |log.bc.disk| == |log.bc.view| == START + size + LOGSIZE + nbuf
    ensures CachedIn(log.bc.buf, START + size, 0) && Count(log.bc.buf, IsIdle()) == nbuf
  {
    hide Coherent, ListOk, Unique, Distinct, Refs, ReadersOk, CachedIn, ZERO, Sum, PinnedAre, Clean, Fits;
    var disk: Disk := seq(START + size + LOGSIZE + nbuf, _ => ZERO);
    EmptyHeader(disk, size);
    NoOps();
    var bc := new Bcache(nbuf, disk);
    AllIdle(bc.buf, START + size);
    var users := new BufUsers(bc, START, size, readers, turns);
    log := new Log(users);
  }

  /** Boot, and begin three operations. */
  method Boot(nbuf: nat, size: int, readers: nat, turns: seq<Turn>) returns (log: Log)
    requires 1 <= size < UINT_RANGE / 4 && nbuf < UINT_RANGE / 4
    ensures fresh(log) && fresh(log.bc) && fresh(log.users) && Running(log, size, 0, turns) && |log.bc.buf| == nbuf
    ensures |log.users.user| == readers + 2
  {
    hide Coherent, ListOk, Unique, Distinct, Refs, ReadersOk, CachedIn, IsIdle, Sum, PinnedAre, Clean, Fits;
    log := Start(nbuf, size, readers, turns);
    var admitted := log.BeginOp(0);
    admitted := log.BeginOp(1);
    admitted := log.BeginOp(2);
    assert log.ops == Budgets(0);
  }

  /** With an idle buffer bget finds one, and for an uncached block it is idle. */
  lemma {:induction false} IdleFound(buf: seq<Buf>, first: int, n: int, x: int)
    requires Count(buf, IsIdle()) > 0 && CachedIn(buf, first, n)
    ensures !NoBuffer(buf, ROOTDEV, x)
    ensures !(first <= x < first + n) ==> forall b :: 0 <= b < |buf| ==> !Caches(buf[b], ROOTDEV, x)
  {
    var b := CountFind(buf, IsIdle());
  }

  /** A buffer taken for an uncached block: one idle buffer less. */
  lemma Taken(buf: seq<Buf>, b: int, n: Buf, first: int, k: int)
    requires 0 <= b < |buf| && Idle(buf[b]) && !Idle(n) && k >= 0
    ensures Count(buf[b := n], IsIdle()) == Count(buf, IsIdle()) - 1
    ensures CachedIn(buf, first, k) && n.dev == ROOTDEV && n.blockno == first + k ==> CachedIn(buf[b := n], first, k + 1)
  {
    CountUpdate(buf, IsIdle(), b, n);
  }

  lemma {:induction false} RunningParts(log: Log, size: int, i: int, turns: seq<Turn>)
    requires Running(log, size, i, turns) && i < LOGSIZE
    ensures log.Valid() && log.users.Inv() && |log.users.user| >= 2 && log.users.user[0].Out?
    ensures 0 <= START + size + i < |log.bc.disk| == |log.bc.view| && START + size + i !in log.lh
    ensures Home(START + size + i, START, size) && |log.lh| == i && WithinBudget(log.lh, log.ops, i / MAXOPBLOCKS, START + size + i)
    ensures log.outstanding >= 1 && Blocknos(START + size, i + 1) == log.lh + [START + size + i]
    ensures !NoBuffer(log.bc.buf, ROOTDEV, START + size + i) || i >= |log.bc.buf|
    ensures forall b :: 0 <= b < |log.bc.buf| ==> !Caches(log.bc.buf[b], ROOTDEV, START + size + i)
  {
    hide Coherent, ListOk, Unique, Clean, Reserved, Distinct, Refs, ReadersOk, Idle, NoBuffer, CachedIn, IsIdle, Sum, PinnedAre, Budgets;
    log.ValidParts();
    NextBudget(i);
    OpRunning(log.lh, log.outstanding, log.committing, log.ops, i / MAXOPBLOCKS);
    NotCached(log.bc.buf, START + size, i, START + size + i);
    if i < |log.bc.buf| {
      IdleFound(log.bc.buf, START + size, i, START + size + i);
    }
  }

  lemma NotCached(buf: seq<Buf>, first: int, n: int, x: int)
    requires CachedIn(buf, first, n) && !(first <= x < first + n)
    ensures forall b :: 0 <= b < |buf| ==> !Caches(buf[b], ROOTDEV, x)
  {
  }

  /** The log's process reads the block behind those logged so far. */
  method ReadNew(log: Log, size: int, i: int, ghost turns: seq<Turn>) returns (b: int)
    requires Running(log, size, i, turns) && 0 <= i < |log.bc.buf| && i < LOGSIZE
    modifies log.bc, log.users
    ensures log.Valid() && log.users.Inv() && log.users.turns == turns && |log.bc.buf| == |old(log.bc.buf)|
    ensures log.bc.disk == old(log.bc.disk) && log.bc.view == old(log.bc.view) && 0 <= START + size + i < |log.bc.view|
    ensures 0 <= b < |log.bc.buf| && Idle(old(log.bc.buf)[b])
    ensures log.users.user == old(log.users.user)[0 := Reading(b, START + size + i)]
    ensures log.bc.buf == old(log.bc.buf)[b := Filled(Gotten(old(log.bc.buf)[b], ROOTDEV, START + size + i), log.bc.view[START + size + i])]
    ensures !Caches(old(log.bc.buf)[b], ROOTDEV, START + size + i)
  {
    hide Coherent, ListOk, Unique, Clean, Reserved, Distinct, Fits, Refs, ReadersOk, Idle, NoBuffer, CachedIn, Kept, Blocknos, Budgets, Sum, PinnedAre, HeldLocked, IsIdle;
    RunningParts(log, size, i, turns);
    var ok := log.users.Get(0, START + size + i);
    var got := log.users.Resume(0);
    b := log.users.user[0].b;
  }

  /** log_write changes the flags of the buffer and the contents its block is meant to have. */
  lemma AfterPin(buf: seq<Buf>, view: seq<Block>, user: seq<User>, b: int, x: int, start: int, size: int)
    requires Refs(buf, user) && ReadersOk(buf, view, user, start, size) && Unique(buf) && |user| >= 2 && user[0] == Reading(b, x)
    requires 0 <= b < |buf| && 0 <= x < |view|
    ensures Refs(buf[b := buf[b].(dirty := true)], user)
    ensures ReadersOk(buf[b := buf[b].(dirty := true)], view[x := buf[b].data], user, start, size)
  {
    SetRefs(buf, user, b, buf[b].(dirty := true));
    SetReaders(buf, view, user, 0, buf[b].(dirty := true), view[x := buf[b].data], start, size);
  }

  lemma RestsAgain(users: BufUsers, user: seq<User>, u: User, turns: seq<Turn>)
    requires |user| >= 2 && (forall i :: 0 <= i < |user| ==> user[i].Out?) && users.user == user[0 := u][0 := Out] && users.turns == turns
    ensures AtRest(users, turns)
  {
  }

  /** One more block read, logged and released. */
  method LogNext(log: Log, size: int, i: int, ghost turns: seq<Turn>)
    requires Running(log, size, i, turns) && 0 <= i < |log.bc.buf| && i < LOGSIZE && i < size - 1
    modifies log, log.bc, log.users
    ensures Running(log, size, i + 1, turns) && |log.bc.buf| == |old(log.bc.buf)| && |log.users.user| == |old(log.users.user)|
  {
    hide Coherent, ListOk, Unique, Clean, Reserved, Distinct, Fits, Refs, ReadersOk, NoBuffer, CachedIn, Kept, Blocknos, Budgets, Sum, PinnedAre;
    hide HeldLocked, IsIdle, WithinBudget, Getting, Locking, Releasing, Picks, MovedFront, BufUsers.State;
    RunningParts(log, size, i, turns);
    NextBudget(i);
    var b := ReadNew(log, size, i, turns);
    log.users.Parts();
    AfterPin(log.bc.buf, log.bc.view, log.users.user, b, START + size + i, START, size);
    var ok := log.LogWrite(b, i / MAXOPBLOCKS);
    log.users.Release(0);
    RestsAgain(log.users, old(log.users.user), Reading(b, START + size + i), turns);
    hide AtRest;
    Taken(old(log.bc.buf), b, log.bc.buf[b], START + size, i);
    assert log.bc.buf == old(log.bc.buf)[b := log.bc.buf[b]];
  }

  /** Log `n` blocks. */
  method Fill(nbuf: nat, n: nat, size: int, readers: nat, turns: seq<Turn>) returns (log: Log)
    requires n <= nbuf < UINT_RANGE / 4 && n <= LOGSIZE && n < size < UINT_RANGE / 4
    ensures fresh(log) && fresh(log.bc) && fresh(log.users) && Running(log, size, n, turns) && |log.bc.buf| == nbuf
    ensures |log.users.user| == readers + 2
  {
    hide Running;
    log := Boot(nbuf, size, readers, turns);
    var i := 0;
    while i < n
      invariant 0 <= i <= n && fresh(log) && fresh(log.bc) && fresh(log.users) && Running(log, size, i, turns)
      invariant |log.bc.buf| == nbuf && |log.users.user| == readers + 2
    {
      LogNext(log, size, i, turns);
      i := i + 1;
    }
  }

  lemma {:induction false} NoneIdle(buf: seq<Buf>)
    requires Count(buf, IsIdle()) == 0
    ensures AllBusy(buf)
  {
    forall i | 0 <= i < |buf|
      ensures !Idle(buf[i])
    {
      if Idle(buf[i]) {
        CountOne(buf, IsIdle(), i);
      }
    }
  }

  /** Reader after reader begins to read, each the next of the blocks from `first` on. */
  ghost predicate ReadInTurn(turns: seq<Turn>, i: int, first: int) {
    forall j :: 0 <= j < |turns| ==> turns[j] == Reader(i + j, first + j)
  }

  /** The first `m` blocks behind the log have been read or logged, and their buffers are busy; readers `i` and up have none. */
  ghost predicate Crowded(p: Pool, m: int, i: int) {
    && p.start == START && 0 <= p.size && 0 <= m && START + p.size + |p.buf| <= |p.view|
    && CachedIn(p.buf, START + p.size, m) && Count(p.buf, IsIdle()) == |p.buf| - m
    && 2 <= i && forall k :: i <= k < |p.user| ==> p.user[k].Out?
  }

  /** The next reader takes an idle buffer. */
  lemma {:induction false} CrowdedNext(p: Pool, m: int, i: int)
    requires Crowded(p, m, i) && m < |p.buf| && i < |p.user|
    ensures !Halts(p, i, START + p.size + m)
    ensures
      var p' := Step(p, i, START + p.size + m);
      && Crowded(p', m + 1, i + 1) && |p'.user| == |p.user| && p' == p.(buf := p'.buf, user := p'.user) && |p'.buf| == |p.buf|
  {
    hide CachedIn, IsIdle, NoBuffer, Picks;
    var x := START + p.size + m;
    IdleFound(p.buf, START + p.size, m, x);
    var b := Choice(p.buf, p.released, x);
    PicksIs(p.buf, p.released, x, b);
    Taken(p.buf, b, Gotten(p.buf[b], ROOTDEV, x), START + p.size, m);
  }

  /** When they have all had their turn no buffer is idle. */
  lemma {:induction false} CrowdedOut(p: Pool, turns: seq<Turn>, m: int, i: int)
    requires Crowded(p, m, i) && ReadInTurn(turns, i, START + p.size + m) && m + |turns| == |p.buf| && i + |turns| <= |p.user|
    ensures forall x :: START <= x < START + p.size ==> Starved(p, turns, x)
    decreases |turns|
  {
    hide CachedIn, IsIdle, NoBuffer, Step, Halts;
    OthersNext(p, turns);
    if turns == [] {
      NoneIdle(p.buf);
      forall x | START <= x < START + p.size
        ensures NoBuffer(p.buf, ROOTDEV, x)
      {
        NotCached(p.buf, START + p.size, m, x);
        BusyFinds(p.buf, x);
      }
    } else {
      assert turns[0] == Reader(i, START + p.size + m);
      CrowdedNext(p, m, i);
      var p' := Step(p, i, START + p.size + m);
      CrowdedOut(p', turns[1..], m + 1, i + 1);
      forall x | START <= x < START + p.size
        ensures Starved(p, turns, x)
      {
        assert Starved(p', turns[1..], x);
      }
    }
  }

  lemma BusyFinds(buf: seq<Buf>, x: int)
    requires AllBusy(buf) && forall b :: 0 <= b < |buf| ==> !Caches(buf[b], ROOTDEV, x)
    ensures NoBuffer(buf, ROOTDEV, x)
  {
  }

  lemma RunningCrowded(log: Log, size: int, n: int, turns: seq<Turn>)
    requires Running(log, size, n, turns) && 0 <= size
    ensures Crowded(log.users.State(), n, 2) && log.users.turns == turns
    ensures log.users.State().size == size && log.users.State().buf == log.bc.buf && log.users.State().user == log.users.user
  {
    hide Coherent, ListOk, Unique, Clean, Reserved, Distinct, Fits, Refs, ReadersOk, Budgets, Blocknos, IsIdle, CachedIn;
    log.Shared();
  }

  /** With at least as many logged blocks and readers as buffers commit can panic: once the last operation has ended, each
      reader in turn takes a buffer. At the sizes of param.h and mkfs, 30 buffers and 29 blocks in the log, one reader
      does. */
  method CommitPanics(nbuf: nat, n: nat, size: int, readers: nat, turns: seq<Turn>) returns (r: Outcome)
    requires 1 <= n <= LOGSIZE && n < size < UINT_RANGE / 4 && n <= nbuf <= n + readers && nbuf < UINT_RANGE / 4
    requires |turns| == nbuf - n && ReadInTurn(turns, 2, START + size + n)
    ensures r.Panicked?
  {
    hide Running, ReadInTurn;
    var log := Fill(nbuf, n, size, readers, turns);
    r := EndAndCommit(log, size, n, turns);
  }

  /** All three operations end; the last one commits. */
  method EndAndCommit(log: Log, size: int, n: int, turns: seq<Turn>) returns (r: Outcome)
    requires Running(log, size, n, turns) && 1 <= n <= |log.bc.buf| && 1 < size && |log.users.user| >= |turns| + 2
    requires |turns| == |log.bc.buf| - n && ReadInTurn(turns, 2, START + size + n)
    modifies log, log.bc, log.users
    ensures r.Panicked?
  {
    hide Coherent, ListOk, Unique, Clean, Reserved, Distinct, Fits, Refs, ReadersOk, Budgets, CachedIn, IsIdle, AllBusy, Starved, ReadInTurn, Crowded;
    RunningCrowded(log, size, n, turns);
    CrowdedOut(log.users.State(), turns, n, 2);
    BudgetsEnd(n);
    var c := log.EndOp(0);
    c := log.EndOp(1);
    c := log.EndOp(2);
    ghost var m;
    r, m := log.Commit();
  }

  lemma BudgetsEnd(i: int)
    ensures 0 in Budgets(i) && 1 in Budgets(i) && 2 in Budgets(i) && Budgets(i) - {0} - {1} - {2} == map[]
    ensures 1 in Budgets(i) - {0} && 2 in Budgets(i) - {0} - {1}
    ensures Budgets(i) - {0} != map[] && Budgets(i) - {0} - {1} != map[]
  {
    assert 2 in Budgets(i) - {0} - {1};
  }

  /** In a log of at most LOGSIZE blocks, mkfs's among them, log_write refuses a new block although its operation has
      budget left. */
  method ShortLogPanics(size: int) returns (log: Log, b: int, ok: bool)
    requires 1 <= size <= LOGSIZE
    ensures fresh(log) && log.Valid() && log.size == size && 0 <= b < |log.bc.buf| && log.bc.buf[b].blockno !in log.lh
    ensures WithinBudget(log.lh, log.ops, (size - 1) / MAXOPBLOCKS, log.bc.buf[b].blockno) && Sum(log.ops) > 0 && !ok
  {
    hide Coherent, ListOk, Unique, Clean, Distinct, Fits, Refs, ReadersOk, Idle, NoBuffer, CachedIn, Kept, Blocknos, Budgets, PinnedAre, HeldLocked, IsIdle;
    log := Fill(size, size - 1, size, 0, []);
    RunningParts(log, size, size - 1, []);
    b := ReadNew(log, size, size - 1, []);
    NextBudget(size - 1);
    BudgetLeft(log.lh, log.outstanding, log.committing, log.ops, (size - 1) / MAXOPBLOCKS);
    ok := log.LogWrite(b, (size - 1) / MAXOPBLOCKS);
  }

  lemma {:induction false} BudgetLeft(lh: seq<int>, outstanding: int, committing: bool, ops: map<int, int>, op: int)
    requires Reserved(lh, outstanding, committing, ops) && op in ops && ops[op] > 0
    ensures Sum(ops) > 0
  {
    SumRemove(ops, op);
    SumBounds(ops - {op}, MAXOPBLOCKS);
  }

  lemma {:induction false} FirstIn(first: int, n: int)
    requires n >= 1
    ensures first in Blocknos(first, n) && |Blocknos(first, n)| == n
  {
  }

  /** What a full log means for its first block. */
  lemma FullParts(log: Log, size: int)
    requires Running(log, size, LOGSIZE, []) && LOGSIZE < size
    ensures log.Valid() && log.users.Inv() && log.users.Free() && log.users.turns == [] && log.start == START && log.size == size
    ensures START + size in log.lh && Home(START + size, START, size) && 0 <= START + size < |log.bc.disk|
    ensures WithinBudget(log.lh, log.ops, 0, START + size) && Refused(log.lh, size) && !NoBuffer(log.bc.buf, ROOTDEV, START + size)
    ensures !HeldLocked(log.bc.buf, ROOTDEV, START + size)
  {
    hide Coherent, ListOk, Unique, Clean, Reserved, Distinct, Fits, Refs, ReadersOk, Idle, NoBuffer, CachedIn, Blocknos, Budgets, HeldLocked, Sum;
    FirstIn(START + size, LOGSIZE);
    BudgetsEnd(LOGSIZE);
    log.users.Parts();
    NoLocks(log.users.user, START + size);
    LocksIs(log.bc.buf, log.users.user, START + size);
    PinnedIsCached(log.bc.buf, log.bc.disk, log.bc.view, log.bc.pinned, START + size);
  }

  lemma NoLocks(user: seq<User>, x: int)
    requires forall i :: 0 <= i < |user| ==> user[i].Out?
    ensures !Locks(user, x)
  {
  }

  /** In a longer log three operations fill it within their budgets, and logging one of its blocks once more
      panics. */
  method FullLogPanics(size: int) returns (log: Log, b: int, ok: bool)
    requires LOGSIZE < size < UINT_RANGE / 4
    ensures fresh(log) && log.Valid() && log.size == size && 0 <= b < |log.bc.buf|
    ensures WithinBudget(log.lh, log.ops, 0, log.bc.buf[b].blockno) && !ok
  {
    hide Coherent, ListOk, Unique, Clean, Distinct, Fits, Refs, ReadersOk, Idle, NoBuffer, CachedIn, Kept, Blocknos, Budgets, PinnedAre, HeldLocked, IsIdle;
    hide Running, Refused, WithinBudget, Reserved, Sum, Home;
    log := Fill(LOGSIZE, LOGSIZE, size, 0, []);
    FullParts(log, size);
    var got := log.users.Get(0, START + size);
    got := log.users.Resume(0);
    b := log.users.user[0].b;
    UserIs(log.bc.buf, log.users.user, 0);
    ok := log.LogWrite(b, 0);
  }
}
