/**
 The redo log of Offline 3/xv6/log.c: admission of operations, log_write with absorption, commit
 and recovery, over the buffer cache and beside any number of processes that read.
 */
module Log {
  import opened Wrappers
  import opened Blocks
  import opened Bio
  import opened BufUsers
  import opened LogDisk
  import opened Sums
  import opened Counting

  // ---------------------------------------------------------------------------------------------
  // Facts about the cache that the log relies on
  // ---------------------------------------------------------------------------------------------

  /** A reader has the lock of one of the blocks. */
  ghost predicate LocksAny(user: seq<User>, lh: seq<int>) {
    exists k :: 0 <= k < |lh| && Locks(user, lh[k])
  }

  /** No reader has the lock of one of the first `n` blocks. */
  ghost predicate NoneLocked(user: seq<User>, lh: seq<int>, n: int) {
    forall k :: 0 <= k < n && k < |lh| ==> !Locks(user, lh[k])
  }

  lemma LockedNext(user: seq<User>, lh: seq<int>, k: int)
    requires 0 <= k < |lh|
    ensures (Locks(user, lh[k]) ==> LocksAny(user, lh))
    ensures NoneLocked(user, lh, k) && !Locks(user, lh[k]) ==> NoneLocked(user, lh, k + 1)
  {
  }

  lemma LockedStart(user: seq<User>, lh: seq<int>)
    ensures NoneLocked(user, lh, 0)
  {
  }

  lemma MoreIs(pinned: map<int, int>, x: int)
    ensures More(pinned, x) == if x in pinned then 0 else 1
  {
  }

  lemma LockedEnd(user: seq<User>, lh: seq<int>)
    ensures NoneLocked(user, lh, |lh|) ==> !LocksAny(user, lh)
  {
  }

  lemma LogNotLocked(buf: seq<Buf>, view: seq<Block>, user: seq<User>, start: int, size: int, x: int)
    requires ReadersOk(buf, view, user, start, size)
    ensures start <= x < start + size ==> !Locks(user, x)
  {
    forall i | 2 <= i < |user| && user[i].Reading?
      ensures start <= x < start + size ==> user[i].x != x
    {
      assert ReaderOk(buf, view, user[i], start, size);
    }
  }

  /** Before reading a log block. */
  lemma BeforeLog(buf: seq<Buf>, disk: Disk, view: seq<Block>, pinned: map<int, int>, user: seq<User>, x: int, start: int, size: int)
    requires Coherent(buf, disk, view, pinned) && Refs(buf, user) && ReadersOk(buf, view, user, start, size)
    requires |user| >= 2 && user[0].Out? && user[1].Out?
    ensures start <= x < start + size && x !in pinned ==> (NoBuffer(buf, ROOTDEV, x) <==> AllBusy(buf)) && !Locks(user, x)
  {
    if start <= x < start + size && x !in pinned {
      BusyNoLog(buf, disk, view, pinned, user, x, start, size);
    }
  }

  /** As many pinned blocks as buffers leave no buffer idle. */
  lemma AllPinned(buf: seq<Buf>, disk: Disk, view: seq<Block>, pinned: map<int, int>)
    requires Coherent(buf, disk, view, pinned) && |pinned| >= |buf|
    ensures AllBusy(buf)
  {
    var others := Image(pinned);
    forall j
      ensures j in others <==> exists bn :: bn in pinned && pinned[bn] == j
    {
      ImageIs(pinned, j);
    }
    InjectiveCount(pinned, others);
    forall i | 0 <= i < |buf|
      ensures buf[i].dirty
    {
      if !buf[i].dirty {
        Below(|buf|, others + {i});
      }
    }
  }

  /** No buffer is idle exactly if each has a pinned block or a user. */
  lemma {:induction false} BusyIff(buf: seq<Buf>, disk: Disk, view: seq<Block>, pinned: map<int, int>, user: seq<User>)
    requires Coherent(buf, disk, view, pinned) && Refs(buf, user)
    ensures AllBusy(buf) <==>
            forall b :: 0 <= b < |buf| ==> b in Image(pinned) || exists i :: 0 <= i < |user| && Uses(b)(user[i])
  {
    forall b | 0 <= b < |buf|
      ensures Idle(buf[b]) <==> b !in Image(pinned) && forall i :: 0 <= i < |user| ==> !Uses(b)(user[i])
    {
      IdleIff(buf, disk, view, pinned, user, b);
    }
  }

  lemma {:induction false} IdleIff(buf: seq<Buf>, disk: Disk, view: seq<Block>, pinned: map<int, int>, user: seq<User>, b: int)
    requires Coherent(buf, disk, view, pinned) && Refs(buf, user) && 0 <= b < |buf|
    ensures Idle(buf[b]) <==> b !in Image(pinned) && forall i :: 0 <= i < |user| ==> !Uses(b)(user[i])
  {
    ImageIs(pinned, b);
    assert BufOk(buf[b], b, view, pinned);
    if buf[b].refcnt == 0 {
      forall i | 0 <= i < |user|
        ensures !Uses(b)(user[i])
      {
        if Uses(b)(user[i]) {
          CountOne(user, Uses(b), i);
        }
      }
    } else {
      var i := BusyUses(buf, user, b);
    }
  }

  // ---------------------------------------------------------------------------------------------
  // Admission: budgets of the outstanding operations
  // ---------------------------------------------------------------------------------------------

  /** `ops` gives each outstanding operation the number of new blocks it may still log. */
  ghost predicate Reserved(lh: seq<int>, outstanding: int, committing: bool, ops: map<int, int>) {
    && outstanding == |ops|
    && (forall o :: o in ops ==> 0 <= ops[o] <= MAXOPBLOCKS)
    && |lh| + Sum(ops) <= LOGSIZE
    && (committing ==> outstanding == 0)
  }

  /** begin_op's test leaves room for a whole new budget. */
  lemma BeginReserves(lh: seq<int>, outstanding: int, ops: map<int, int>, op: int)
    requires Reserved(lh, outstanding, false, ops) && op !in ops
    requires |lh| + (outstanding + 1) * MAXOPBLOCKS <= LOGSIZE
    ensures Reserved(lh, outstanding + 1, false, ops[op := MAXOPBLOCKS])
  {
    SumBounds(ops, MAXOPBLOCKS);
    SumInsert(ops, op, MAXOPBLOCKS);
  }

  /** A new block is paid for from its operation's budget, and there is room for it. */
  lemma SpendReserves(lh: seq<int>, outstanding: int, ops: map<int, int>, op: int, b: int)
    requires Reserved(lh, outstanding, false, ops) && op in ops && ops[op] > 0
    ensures Reserved(lh + [b], outstanding, false, ops[op := ops[op] - 1])
    ensures |lh| < LOGSIZE && outstanding >= 1
  {
    SumUpdate(ops, op, ops[op] - 1);
    SumBounds(ops[op := ops[op] - 1], MAXOPBLOCKS);
  }

  lemma EndReserves(lh: seq<int>, outstanding: int, ops: map<int, int>, op: int)
    requires Reserved(lh, outstanding, false, ops) && op in ops
    ensures outstanding >= 1 && Reserved(lh, outstanding - 1, outstanding == 1, ops - {op})
  {
    SumRemove(ops, op);
    assert |ops - {op}| == |ops| - 1;
  }

  /** log_write's guard, tested before it looks for the block in the list. */
  predicate Refused(lh: seq<int>, size: int) {
    |lh| >= LOGSIZE || |lh| >= size - 1
  }

  /** A write that its operation may make: of a block already in the log, or paid for from the budget. */
  predicate WithinBudget(lh: seq<int>, ops: map<int, int>, op: int, b: int) {
    op in ops && (b in lh || ops[op] > 0)
  }

  /** A write that an outstanding operation may make: the log can hold what it holds, and the block is one of the
      disk outside it. */
  ghost predicate MayWrite(lh: seq<int>, outstanding: int, ops: map<int, int>, op: int, b: int, blocks: int, start: int, size: int) {
    && Reserved(lh, outstanding, false, ops) && Distinct(lh) && Fits(lh, blocks, start, size)
    && 0 <= b < blocks && Home(b, start, size) && WithinBudget(lh, ops, op, b)
  }

  /** While some outstanding operation has budget left, no such write is refused. */
  ghost predicate NeverRefused(size: int) {
    forall lh: seq<int>, outstanding: int, ops: map<int, int>, op: int, b: int, blocks: int, start: int ::
      MayWrite(lh, outstanding, ops, op, b, blocks, start, size) && Sum(ops) > 0 ==> !Refused(lh, size)
  }

  /** That holds exactly when the log has more blocks than LOGSIZE (or is none at all); mkfs makes LOGSIZE. */
  lemma NeverRefusedIff(size: int)
    ensures NeverRefused(size) <==> !(1 <= size <= LOGSIZE)
  {
    if 1 <= size <= LOGSIZE {
      var lh, ops := Blocknos(size, size - 1), map[0 := 1];
      SumInsert(map[], 0, 1);
      assert map[][0 := 1] == ops;
      assert MayWrite(lh, 1, ops, 0, 2 * size - 1, 2 * size, 0, size) && Refused(lh, size);
    }
  }

  /** Which writes within budget are refused. With more blocks than LOGSIZE: those made when the log is exactly
      full, and then every budget is spent and the block is one already in the log. */
  lemma {:induction false} RefusedIff(lh: seq<int>, outstanding: int, ops: map<int, int>, op: int, b: int, size: int)
    requires Reserved(lh, outstanding, false, ops) && Distinct(lh) && WithinBudget(lh, ops, op, b)
    ensures Refused(lh, size) <==> |lh| == LOGSIZE || |lh| >= size - 1
    ensures size > LOGSIZE ==> (Refused(lh, size) <==> |lh| == LOGSIZE)
    ensures |lh| == LOGSIZE ==> Sum(ops) == 0 && b in lh && forall o :: o in ops ==> ops[o] == 0
    ensures Sum(ops) == 0 ==> b in lh && (Refused(lh, size) <==> |lh| >= if size > LOGSIZE then LOGSIZE else size - 1)
  {
    SumBounds(ops, MAXOPBLOCKS);
    forall o | o in ops
      ensures ops[o] <= Sum(ops)
    {
      SumRemove(ops, o);
      SumBounds(ops - {o}, MAXOPBLOCKS);
    }
  }

  /** `n` consecutive block numbers. */
  function Blocknos(first: int, n: int): (r: seq<int>)
    requires 0 <= n
    ensures |r| == n && (forall k :: 0 <= k < n ==> r[k] == first + k)
    ensures Distinct(r) && forall b :: b in r <==> first <= b < first + n
    decreases n
  {
    if n == 0 then [] else Blocknos(first, n - 1) + [first + n - 1]
  }

  /** What operation `o` of three has left after `i` new blocks, ten to an operation. */
  function Left(i: int, o: int): int {
    if i <= MAXOPBLOCKS * o then MAXOPBLOCKS else if i >= MAXOPBLOCKS * (o + 1) then 0 else MAXOPBLOCKS * (o + 1) - i
  }

  function Budgets(i: int): map<int, int> {
    map[0 := Left(i, 0), 1 := Left(i, 1), 2 := Left(i, 2)]
  }

  /** No log avoids that: three operations that filled one of more than LOGSIZE blocks may log none of its blocks
      again. */
  lemma {:induction false} FullLogRefuses(size: int, start: int)
    requires size > LOGSIZE && 0 <= start && start + size + LOGSIZE < UINT_RANGE
    ensures
      var lh, ops := Blocknos(start + size, LOGSIZE), Budgets(LOGSIZE);
      && Reserved(lh, 3, false, ops) && Distinct(lh) && Fits(lh, start + size + LOGSIZE, start, size) && Sum(ops) == 0
      && Refused(lh, size) && forall b :: b in lh ==> WithinBudget(lh, ops, 0, b)
  {
    var ops := Budgets(LOGSIZE);
    SumBounds(ops, 0);
    assert |ops| == 3 by {
      assert ops.Keys == {0, 1, 2};
    }
  }

  lemma OpRunning(lh: seq<int>, outstanding: int, committing: bool, ops: map<int, int>, op: int)
    requires Reserved(lh, outstanding, committing, ops) && op in ops
    ensures outstanding >= 1 && !committing
  {
    assert op in ops.Keys;
  }

  lemma Append(lh: seq<int>, blocks: int, start: int, size: int, bn: int)
    requires Distinct(lh) && Fits(lh, blocks, start, size) && bn !in lh
    requires 0 <= bn < blocks < UINT_RANGE && Home(bn, start, size) && |lh| < LOGSIZE && |lh| < size - 1
    ensures Distinct(lh + [bn]) && Fits(lh + [bn], blocks, start, size)
  {
  }

  /** The dirty buffers are exactly those of the logged blocks. */
  ghost predicate PinnedAre(pinned: map<int, int>, lh: seq<int>) {
    forall bn :: bn in pinned <==> bn in lh
  }

  lemma SlotFree(pinned: map<int, int>, lh: seq<int>, blocks: int, start: int, size: int, k: int)
    requires PinnedAre(pinned, lh) && Fits(lh, blocks, start, size) && 0 <= k < |lh|
    ensures lh[k] in pinned && start + k + 1 !in pinned && pinned - {start + k + 1} == pinned
    ensures start + k + 1 < blocks && start + k + 1 != lh[k]
  {
    assert lh[k] in lh;
  }

  lemma Unpinned(buf: seq<Buf>, disk: Disk, view: seq<Block>, pinned: map<int, int>, bn: int)
    requires Coherent(buf, disk, view, pinned) && bn !in pinned && 0 <= bn < |disk|
    ensures |disk| == |view| && disk[bn] == view[bn]
  {
  }

  /** `pinned` is what is left of `pinned0` after the first `k` logged blocks were installed. */
  ghost predicate PinnedLess(pinned0: map<int, int>, pinned: map<int, int>, lh: seq<int>, k: int) {
    && 0 <= k <= |lh| && |pinned| <= |pinned0|
    && forall bn :: bn in pinned <==> bn in pinned0 && bn !in lh[..k]
  }

  lemma PinnedLessStart(pinned: map<int, int>, lh: seq<int>)
    ensures PinnedLess(pinned, pinned, lh, 0)
  {
  }

  lemma PinnedLessStep(pinned0: map<int, int>, pinned: map<int, int>, lh: seq<int>, k: int)
    requires PinnedLess(pinned0, pinned, lh, k) && k < |lh|
    ensures PinnedLess(pinned0, pinned - {lh[k]}, lh, k + 1)
  {
    Subset((pinned - {lh[k]}).Keys, pinned.Keys);
    assert lh[..k + 1] == lh[..k] + [lh[k]];
  }

  lemma PinnedLessFacts(pinned0: map<int, int>, pinned: map<int, int>, lh: seq<int>, k: int, start: int, size: int)
    requires PinnedLess(pinned0, pinned, lh, k) && forall bn :: bn in pinned0 ==> Home(bn, start, size)
    ensures |pinned| <= |pinned0| && forall bn :: bn in pinned ==> Home(bn, start, size)
    ensures k == |lh| ==> forall bn :: bn in pinned <==> bn in pinned0 && bn !in lh
    ensures k < |lh| && PinnedAre(pinned0, lh) && Distinct(lh) ==> lh[k] in pinned
  {
    assert lh[..|lh|] == lh;
    if k < |lh| && PinnedAre(pinned0, lh) && Distinct(lh) {
      var bn: int := lh[k];
      assert bn in lh;
      assert bn in pinned0 && bn !in lh[..k];
    }
  }

  lemma PinnedLessMore(pinned0: map<int, int>, pinned: map<int, int>, lh: seq<int>, k: int, start: int, size: int)
    requires PinnedLess(pinned0, pinned, lh, k) && k < |lh| && forall bn :: bn in pinned0 ==> Home(bn, start, size)
    ensures start < start + k + 1 < start + size ==> start + k + 1 !in pinned && More(pinned, start + k + 1) == 1
    ensures 0 <= More(pinned, lh[k]) <= 1 && (PinnedAre(pinned0, lh) && Distinct(lh) ==> lh[k] in pinned && More(pinned, lh[k]) == 0)
  {
    hide Distinct, PinnedAre;
    PinnedLessFacts(pinned0, pinned, lh, k, start, size);
  }

  lemma NotHome(x: int, start: int, size: int)
    requires start <= x < start + size
    ensures !Home(x, start, size)
  {
  }

  /** A completed commit leaves every home block with its logical contents. */
  lemma CommittedView(d: Disk, start: int, size: int, lh: seq<int>, view: seq<Block>, buf: seq<Buf>, pinned: map<int, int>)
    requires Coherent(buf, d, view, pinned) && PinnedAre(pinned, lh) && Clean(d, start, size) && Fits(lh, |d|, start, size)
    ensures |view| == |d|
    ensures forall x :: 0 <= x < |d| && Home(x, start, size) ==>
              CommitDisk(d, start, size, lh, view, if lh == [] then 0 else 2 * |lh| + 2)[x] == view[x]
  {
    forall x | 0 <= x < |d| && Home(x, start, size)
      ensures CommitDisk(d, start, size, lh, view, if lh == [] then 0 else 2 * |lh| + 2)[x] == view[x]
    {
      CommitDiskAt(d, start, size, lh, view, if lh == [] then 0 else 2 * |lh| + 2, x);
      LastIff(lh, x, |lh|);
    }
  }

  lemma {:induction false} CountPinned(pinned: map<int, int>, lh: seq<int>)
    requires PinnedAre(pinned, lh) && Distinct(lh)
    ensures |pinned| == |lh|
    decreases |lh|
  {
    if lh == [] {
      assert forall bn :: bn in pinned.Keys ==> bn in lh;
      if pinned.Keys != {} {
        var bn := Pick(pinned.Keys);
      }
    } else {
      var n, last := |lh| - 1, lh[|lh| - 1];
      assert lh == lh[..n] + [last];
      CountPinned(pinned - {last}, lh[..n]);
      assert last in lh;
      assert |pinned - {last}| == |pinned| - 1;
    }
  }

  lemma NothingPinned(pinned: map<int, int>)
    requires forall bn :: bn !in pinned
    ensures |pinned| == 0
  {
    if pinned.Keys != {} {
      var bn := Pick(pinned.Keys);
    }
  }

  lemma FitsEmpty(lh: seq<int>, blocks: int, start: int, size: int)
    requires Fits(lh, blocks, start, size)
    ensures Fits([], blocks, start, size)
  {
  }

  lemma ReservedEmpty(lh: seq<int>, outstanding: int, committing: bool, ops: map<int, int>)
    requires Reserved(lh, outstanding, committing, ops)
    ensures Reserved([], outstanding, committing, ops)
  {
  }

  lemma WordsCount(lh: seq<int>)
    requires Words(lh)
    ensures |lh| <= LOGSIZE
  {
  }

  lemma Limits()
    ensures ROOTDEV == 1 && LOGSIZE < WORDS - 1 && WORDS < UINT_RANGE && BSIZE == 4 * WORDS
  {
  }

  /** The header block after write_head has set the count and the first `i` words. */
  function HeaderPrefix(b: Block, lh: seq<int>, i: int): (r: Block)
    requires |b| == BSIZE && Words(lh) && 0 <= i <= |lh|
    ensures |r| == BSIZE
  {
    PutWords(SetWord(b, 0, |lh|), lh, i)
  }

  lemma PutHeaderSteps(b: Block, lh: seq<int>, i: int)
    requires |b| == BSIZE && Words(lh) && 0 <= i <= |lh|
    ensures |SetWord(b, 0, |lh|)| == BSIZE && HeaderPrefix(b, lh, 0) == SetWord(b, 0, |lh|)
    ensures HeaderPrefix(b, lh, |lh|) == PutHeader(b, lh)
    ensures i < |lh| ==> 0 <= lh[i] < UINT_RANGE && HeaderPrefix(b, lh, i + 1) == SetWord(HeaderPrefix(b, lh, i), i + 1, lh[i])
  {
  }

  /** One turn of install_trans's loop. */
  lemma InstallTurn(buf: seq<Buf>, disk: Disk, view: seq<Block>, pinned: map<int, int>, disk0: Disk, view0: seq<Block>, pinned0: map<int, int>,
                    lh: seq<int>, start: int, size: int, k: int)
    requires Coherent(buf, disk, view, pinned) && |disk| == |disk0| == |view0| && Fits(lh, |disk|, start, size) && 0 <= k < |lh|
    requires disk == Install(disk0, start, lh, k) && view == Install(view0, start, lh, k)
    requires PinnedLess(pinned0, pinned, lh, k) && forall bn :: bn in pinned0 ==> Home(bn, start, size)
    ensures
      var slot, home := start + k + 1, lh[k];
      && |view| == |disk| && start <= slot < start + size && 0 <= slot < |disk| && 0 <= home < |disk| && slot != home
      && slot !in pinned && More(pinned, slot) == 1 && 0 <= More(pinned, home) <= 1 && |pinned| <= |pinned0|
      && (PinnedAre(pinned0, lh) && Distinct(lh) ==> home in pinned && More(pinned, home) == 0)
      && Install(disk0, start, lh, k + 1) == disk[home := view[slot]] && Install(view0, start, lh, k + 1) == view[home := view[slot]]
      && InstallTrace(disk0, start, lh, k + 1) == InstallTrace(disk0, start, lh, k) + [Install(disk0, start, lh, k + 1)]
      && PinnedLess(pinned0, pinned - {home}, lh, k + 1)
  {
    hide *;
    FitsFacts(lh, |disk|, start, size);
    InstallStep(disk0, start, size, lh, k);
    InstallStep(view0, start, size, lh, k);
    PinnedLessFacts(pinned0, pinned, lh, k, start, size);
    NotHome(start + k + 1, start, size);
    PinnedLessMore(pinned0, pinned, lh, k, start, size);
    PinnedLessStep(pinned0, pinned, lh, k);
    Unpinned(buf, disk, view, pinned, start + k + 1);
  }

  class Log {
    const users: BufUsers
    const bc := users.bc
    const start := users.start
    const size := users.size
    var outstanding: int
    var committing: bool
    var lh: seq<int>
    ghost var ops: map<int, int>

    constructor (users: BufUsers)
      ensures this.users == users && outstanding == 0 && !committing && lh == [] && ops == map[]
    {
      this.users := users;
      outstanding, committing, lh, ops := 0, false, [], map[];
    }

    ghost predicate Valid()
      reads this, bc
    {
      && bc.Valid()
      && Reserved(lh, outstanding, committing, ops) && Distinct(lh)
      && Fits(lh, |bc.disk|, start, size) && |bc.disk| < UINT_RANGE
      && Clean(bc.disk, start, size)
      && PinnedAre(bc.pinned, lh)
    }

    /** One turn of begin_op's loop: admit the operation, or leave it to sleep. */
    method BeginOp(ghost op: int) returns (admitted: bool)
      requires Valid() && op !in ops
      modifies `outstanding, `ops
      ensures Valid()
      ensures admitted <==> !committing && |lh| + (old(outstanding) + 1) * MAXOPBLOCKS <= LOGSIZE
      ensures admitted ==> outstanding == old(outstanding) + 1 && ops == old(ops)[op := MAXOPBLOCKS]
      ensures !admitted ==> outstanding == old(outstanding) && ops == old(ops)
    {
      if committing || |lh| + (outstanding + 1) * MAXOPBLOCKS > LOGSIZE {
        return false;
      }
      BeginReserves(lh, outstanding, ops, op);
      outstanding := outstanding + 1;
      ops := ops[op := MAXOPBLOCKS];
      admitted := true;
    }

    /** log_write; `ok` is false where the source panics. */
    method LogWrite(b: int, ghost op: int) returns (ok: bool)
      requires Valid() && 0 <= b < |bc.buf| && bc.buf[b].valid && Home(bc.buf[b].blockno, start, size)
      requires WithinBudget(lh, ops, op, bc.buf[b].blockno)
      modifies `lh, `ops, bc
      ensures Valid()
      ensures ok <==> !Refused(old(lh), size)
      ensures size > LOGSIZE && Sum(old(ops)) > 0 ==> ok
      ensures !ok ==> unchanged(`lh) && unchanged(`ops) && unchanged(bc)
      ensures ok ==>
                var bn := old(bc.buf)[b].blockno;
                && lh == (if bn in old(lh) then old(lh) else old(lh) + [bn])
                && ops == (if bn in old(lh) then old(ops) else old(ops)[op := old(ops)[op] - 1])
                && 0 <= bn < |old(bc.view)| && bc.view == old(bc.view)[bn := old(bc.buf)[b].data]
                && bc.buf == old(bc.buf)[b := old(bc.buf)[b].(dirty := true)]
                && bc.disk == old(bc.disk) && bc.trace == old(bc.trace)
    {
      hide Clean, Sum, HeaderFits, Reserved, Distinct, Fits;
      OpRunning(lh, outstanding, committing, ops, op);
      RefusedIff(lh, outstanding, ops, op, bc.buf[b].blockno, size);
      if bc.buf[b].blockno !in lh {
        SpendReserves(lh, outstanding, ops, op, bc.buf[b].blockno);
      }
      if |lh| >= LOGSIZE || |lh| >= size - 1 {
        return false;
      }
      if outstanding < 1 {
        return false;
      }
      var bn := bc.buf[b].blockno;
      var i := 0;
      while i < |lh|
        modifies {}
        invariant 0 <= i <= |lh| && bn !in lh[..i]
      {
        if lh[i] == bn {
          break;
        }
        i := i + 1;
      }
      bc.ValidBlock(b);
      bc.Pin(b);
      if i == |lh| {
        Append(lh, |bc.disk|, start, size, bn);
        lh := lh + [bn];
        ops := ops[op := ops[op] - 1];
      }
      ok := true;
    }

    /** The critical section of end_op; commit follows when it returns true. */
    method EndOp(ghost op: int) returns (doCommit: bool)
      requires Valid() && op in ops
      modifies `outstanding, `committing, `ops
      ensures Valid() && !old(committing)
      ensures outstanding == old(outstanding) - 1 && ops == old(ops) - {op}
      ensures doCommit == committing && (doCommit <==> ops == map[])
    {
      EndReserves(lh, outstanding, ops, op);
      outstanding := outstanding - 1;
      ops := ops - {op};
      if committing {
        assert false;
      }
      doCommit := false;
      if outstanding == 0 {
        doCommit := true;
        committing := true;
      }
    }

    // -------------------------------------------------------------------------------------------
    // commit and recovery
    // -------------------------------------------------------------------------------------------

    lemma Shared()
      ensures bc == users.bc && start == users.start && size == users.size
    {
    }

    /** One turn of write_log's loop: copy the cached home block into its log slot and write that; `wrote` tells
        whether the write was made. */
    method LogBlock(slot: int, home: int) returns (r: Outcome, ghost wrote: bool)
      requires users.Inv() && users.Free() && slot != home && 0 <= slot < |bc.disk| && 0 <= home < |bc.disk|
      modifies bc, users
      ensures users.Inv() && |bc.view| == |bc.disk| == |old(bc.disk)| && |bc.buf| == |old(bc.buf)| && |users.user| == |old(users.user)|
      ensures !wrote ==> bc.disk == old(bc.disk) && bc.view == old(bc.view) && bc.pinned == old(bc.pinned) && bc.trace == old(bc.trace)
      ensures wrote ==>
                && |old(bc.view)| == |bc.disk| && bc.disk == old(bc.disk)[slot := old(bc.view)[home]] && bc.trace == old(bc.trace) + [bc.disk]
                && bc.view == old(bc.view)[slot := old(bc.view)[home]] && bc.pinned == old(bc.pinned) - {slot}
      ensures r.Fine? ==> wrote && users.Free()
      ensures r.Panicked? ==> AllBusy(bc.buf)
      ensures r.Asleep? ==> !wrote && users.turns == [] && (Locks(users.user, slot) || Locks(users.user, home))
      ensures |old(bc.pinned)| + |users.user| - 2 + More(old(bc.pinned), slot) + More(old(bc.pinned), home) <= |bc.buf| ==> !r.Panicked?
      ensures old(users.turns) == [] && home in old(bc.pinned) && slot !in old(bc.pinned) && start <= slot < start + size ==>
                && users.turns == [] && (r.Panicked? <==> AllBusy(old(bc.buf)))
                && (r.Asleep? <==> !r.Panicked? && Locks(old(users.user), home))
                && (r.Fine? ==> users.user == old(users.user) && !AllBusy(bc.buf))
      ensures Starved(old(users.State()), old(users.turns), slot) ==> r.Panicked?
    {
      hide Coherent, Unique, ListOk, Refs, ReadersOk, Kept, NoBuffer, AllBusy, Load, Locks, Settled, Starved, BreadingTwo, BrelsingTwo;
      wrote := false;
      users.Parts();
      BeforeLog(bc.buf, bc.disk, bc.view, bc.pinned, users.user, slot, start, size);
      r := users.ReadTwo(slot, home);
      if Starved(old(users.State()), old(users.turns), slot) {
        StarvedPanics(old(users.State()), old(users.turns), 0, slot);
      }
      if !r.Fine? {
        return;
      }
      users.CopyInto(0);
      wrote := true;
      var halted := users.ReleaseBoth(1);
      r := if halted then Panicked else Fine;
    }

    /** One turn of install_trans's loop: copy a log slot to its home block and write that. */
    method InstallBlock(slot: int, home: int) returns (r: Outcome, ghost wrote: bool)
      requires users.Inv() && users.Free() && slot != home && 0 <= slot < |bc.disk| && 0 <= home < |bc.disk|
      modifies bc, users
      ensures users.Inv() && |bc.view| == |bc.disk| == |old(bc.disk)| && |bc.buf| == |old(bc.buf)| && |users.user| == |old(users.user)|
      ensures !wrote ==> bc.disk == old(bc.disk) && bc.view == old(bc.view) && bc.pinned == old(bc.pinned) && bc.trace == old(bc.trace)
      ensures wrote ==>
                && |old(bc.view)| == |bc.disk| && bc.disk == old(bc.disk)[home := old(bc.view)[slot]] && bc.trace == old(bc.trace) + [bc.disk]
                && bc.view == old(bc.view)[home := old(bc.view)[slot]] && bc.pinned == old(bc.pinned) - {home}
      ensures r.Fine? ==> wrote && users.Free()
      ensures r.Panicked? ==> AllBusy(bc.buf)
      ensures r.Asleep? ==> !wrote && users.turns == [] && (Locks(users.user, slot) || Locks(users.user, home))
      ensures |old(bc.pinned)| + |users.user| - 2 + More(old(bc.pinned), slot) + More(old(bc.pinned), home) <= |bc.buf| ==> !r.Panicked?
      ensures old(users.turns) == [] && home in old(bc.pinned) && slot !in old(bc.pinned) && start <= slot < start + size ==>
                && users.turns == [] && (r.Panicked? <==> AllBusy(old(bc.buf)))
                && (r.Asleep? <==> !r.Panicked? && Locks(old(users.user), home))
                && (r.Fine? ==> users.user == old(users.user) && !AllBusy(bc.buf))
    {
      hide Coherent, Unique, ListOk, Refs, ReadersOk, Kept, NoBuffer, AllBusy, Load, Locks, Settled;
      wrote := false;
      users.Parts();
      BeforeLog(bc.buf, bc.disk, bc.view, bc.pinned, users.user, slot, start, size);
      r := users.ReadTwo(slot, home);
      if !r.Fine? {
        return;
      }
      users.CopyInto(1);
      wrote := true;
      var halted := users.ReleaseBoth(0);
      r := if halted then Panicked else Fine;
    }

    /** write_log: copy the modified blocks from the cache to the log; `m` counts the writes made. */
    method WriteLog() returns (r: Outcome, ghost m: int)
      requires users.Inv() && users.Free() && |bc.disk| == |bc.view|
      requires Fits(lh, |bc.disk|, start, size) && PinnedAre(bc.pinned, lh) && |bc.disk[start]| == BSIZE
      modifies bc, users
      ensures users.Inv() && |bc.disk| == |old(bc.disk)| == |bc.view| && |bc.buf| == |old(bc.buf)| && |users.user| == |old(users.user)|
      ensures 0 <= m <= |lh| && (r.Fine? ==> m == |lh|)
      ensures bc.disk == Logged(old(bc.disk), start, lh, old(bc.view), m)
      ensures bc.trace == old(bc.trace) + CommitTrace(old(bc.disk), start, size, lh, old(bc.view), m)
      ensures r.Fine? ==> users.Free() && bc.view == Logged(old(bc.view), start, lh, old(bc.view), m) && bc.pinned == old(bc.pinned)
      ensures r.Panicked? ==> AllBusy(bc.buf)
      ensures r.Asleep? ==> users.turns == [] && LocksAny(users.user, lh)
      ensures |old(bc.pinned)| + |users.user| - 2 < |bc.buf| ==> !r.Panicked?
      ensures old(users.turns) == [] ==>
                && users.turns == [] && (r.Panicked? <==> lh != [] && AllBusy(old(bc.buf)))
                && (r.Asleep? <==> !r.Panicked? && LocksAny(old(users.user), lh))
                && (r.Fine? ==> users.user == old(users.user) && (lh != [] ==> !AllBusy(bc.buf)))
      ensures lh != [] && Starved(old(users.State()), old(users.turns), start + 1) ==> r.Panicked?
    {
      hide *;
      FitsFacts(lh, |bc.disk|, start, size);
      LogStart(bc.disk, start, size, lh, bc.view);
      Shared();
      LockedStart(users.user, lh);
      m, r := 0, Fine;
      var tail := 0;
      while tail < |lh|
        invariant 0 <= tail <= |lh| && m == tail && users.Inv() && users.Free() && r.Fine?
        invariant |bc.disk| == |old(bc.disk)| == |bc.view| && |bc.buf| == |old(bc.buf)| && |users.user| == |old(users.user)|
        invariant bc.disk == Logged(old(bc.disk), start, lh, old(bc.view), tail)
        invariant bc.view == Logged(old(bc.view), start, lh, old(bc.view), tail)
        invariant bc.trace == old(bc.trace) + CommitTrace(old(bc.disk), start, size, lh, old(bc.view), tail)
        invariant bc.pinned == old(bc.pinned)
        invariant if tail == 0 then users.State() == old(users.State()) && users.turns == old(users.turns)
                  else !Starved(old(users.State()), old(users.turns), start + 1)
        invariant old(users.turns) == [] ==>
                    && users.turns == [] && users.user == old(users.user) && NoneLocked(old(users.user), lh, tail)
                    && if tail == 0 then bc.buf == old(bc.buf) else !AllBusy(bc.buf) && !AllBusy(old(bc.buf))
      {
        LogStep(old(bc.disk), start, size, lh, old(bc.view), tail, bc.view[lh[tail]]);
        SlotFree(bc.pinned, lh, |bc.disk|, start, size, tail);
        MoreIs(bc.pinned, lh[tail]);
        MoreIs(bc.pinned, start + tail + 1);
        LockedNext(old(users.user), lh, tail);
        ghost var wrote;
        r, wrote := LogBlock(start + tail + 1, lh[tail]);
        SlotNotLocked(start + tail + 1);
        LockedNext(users.user, lh, tail);
        if wrote {
          m := m + 1;
        }
        if !r.Fine? {
          return;
        }
        tail := tail + 1;
      }
      LockedEnd(old(users.user), lh);
    }

    /** No reader has the lock of a log block. */
    lemma SlotNotLocked(slot: int)
      requires users.Inv()
      ensures start <= slot < start + size ==> !Locks(users.user, slot)
    {
      LogNotLocked(bc.buf, bc.view, users.user, start, size, slot);
    }

    /** write_head's stores into the locked header buffer. */
    method FillHeader()
      requires users.Inv() && |users.user| >= 2 && users.user[0].Reading? && users.user[1].Out? && 0 <= users.user[0].b < |bc.buf|
      requires |bc.buf[users.user[0].b].data| == BSIZE && Words(lh)
      modifies bc`buf
      ensures users.Inv() && Load(bc.buf, bc.pinned, users.user) == Load(old(bc.buf), bc.pinned, users.user)
      ensures
        var b := users.user[0].b;
        bc.buf == old(bc.buf)[b := old(bc.buf)[b].(data := PutHeader(old(bc.buf)[b].data, lh))]
    {
      hide *;
      Limits();
      Shared();
      ghost var held := bc.buf;
      var b := users.user[0].b;
      WordsCount(lh);
      PutHeaderSteps(held[b].data, lh, 0);
      users.Modify(0, SetWord(bc.buf[b].data, 0, |lh|));
      var i := 0;
      while i < |lh|
        invariant 0 <= i <= |lh| && users.Inv() && Load(bc.buf, bc.pinned, users.user) == Load(held, bc.pinned, users.user)
        invariant bc.buf == held[b := held[b].(data := HeaderPrefix(held[b].data, lh, i))]
      {
        PutHeaderSteps(held[b].data, lh, i);
        users.Modify(0, SetWord(bc.buf[b].data, i + 1, lh[i]));
        i := i + 1;
      }
      PutHeaderSteps(held[b].data, lh, |lh|);
    }

    /** write_head: put the in-memory list into the header block and write it. */
    method WriteHead() returns (r: Outcome, ghost wrote: bool)
      requires users.Inv() && users.Free() && |bc.disk| == |bc.view|
      requires Fits(lh, |bc.disk|, start, size) && start !in bc.pinned && |bc.disk[start]| == BSIZE
      modifies bc, users
      ensures users.Inv() && |bc.disk| == |old(bc.disk)| == |bc.view| && |bc.buf| == |old(bc.buf)| && |users.user| == |old(users.user)|
      ensures !wrote ==> bc.disk == old(bc.disk) && bc.view == old(bc.view) && bc.pinned == old(bc.pinned) && bc.trace == old(bc.trace)
      ensures wrote ==>
                && bc.disk == old(bc.disk)[start := PutHeader(old(bc.disk)[start], lh)]
                && bc.view == old(bc.view)[start := PutHeader(old(bc.disk)[start], lh)]
                && bc.trace == old(bc.trace) + [bc.disk] && bc.pinned == old(bc.pinned)
      ensures !r.Asleep? && (r.Fine? ==> wrote && users.Free())
      ensures r.Panicked? ==> AllBusy(bc.buf)
      ensures |old(bc.pinned)| + |users.user| - 2 < |bc.buf| ==> !r.Panicked?
      ensures old(users.turns) == [] ==>
                && users.turns == [] && (r.Panicked? <==> AllBusy(old(bc.buf)))
                && (r.Fine? ==> users.user == old(users.user) && !AllBusy(bc.buf))
    {
      hide *;
      Limits();
      Shared();
      FitsFacts(lh, |bc.disk|, start, size);
      wrote := false;
      users.Parts();
      Unpinned(bc.buf, bc.disk, bc.view, bc.pinned, start);
      users.FreeParts();
      BeforeLog(bc.buf, bc.disk, bc.view, bc.pinned, users.user, start, start, size);
      LoadFree(bc.buf, bc.pinned, users.user);
      MoreIs(bc.pinned, start);
      r := users.Read(0, start);
      SlotNotLocked(start);
      if !r.Fine? {
        return;
      }
      SettledIs(bc.buf, bc.view, users.user[0]);
      FillHeader();
      users.Write(0);
      wrote := true;
      SettledIntro(bc.buf, bc.view, users.user[0]);
      var halted := users.ReleaseNext(0);
      if !halted {
        users.FreeWhole();
      }
      r := if halted then Panicked else Fine;
    }

    /** install_trans: copy the log slots to their home blocks; `m` counts the writes made. */
    method InstallTrans() returns (r: Outcome, ghost m: int)
      requires users.Inv() && users.Free() && |bc.disk| == |bc.view|
      requires Fits(lh, |bc.disk|, start, size) && forall bn :: bn in bc.pinned ==> Home(bn, start, size)
      modifies bc, users
      ensures users.Inv() && |bc.disk| == |old(bc.disk)| == |bc.view| && |bc.buf| == |old(bc.buf)| && |users.user| == |old(users.user)|
      ensures 0 <= m <= |lh| && (r.Fine? ==> m == |lh|)
      ensures bc.disk == Install(old(bc.disk), start, lh, m)
      ensures bc.trace == old(bc.trace) + InstallTrace(old(bc.disk), start, lh, m)
      ensures r.Fine? ==>
                && users.Free() && bc.view == Install(old(bc.view), start, lh, m)
                && forall bn :: bn in bc.pinned <==> bn in old(bc.pinned) && bn !in lh
      ensures r.Panicked? ==> AllBusy(bc.buf)
      ensures r.Asleep? ==> users.turns == [] && LocksAny(users.user, lh)
      ensures |old(bc.pinned)| + |users.user| - 2 + (if PinnedAre(old(bc.pinned), lh) && Distinct(lh) then 0 else 1) < |bc.buf| ==> !r.Panicked?
      ensures old(users.turns) == [] && PinnedAre(old(bc.pinned), lh) && Distinct(lh) ==>
                && users.turns == [] && (r.Panicked? <==> lh != [] && AllBusy(old(bc.buf)))
                && (r.Asleep? <==> !r.Panicked? && LocksAny(old(users.user), lh))
                && (r.Fine? ==> users.user == old(users.user) && (lh != [] ==> !AllBusy(bc.buf)))
    {
      hide *;
      FitsFacts(lh, |bc.disk|, start, size);
      InstallStart(bc.disk, start, size, lh);
      InstallStart(bc.view, start, size, lh);
      PinnedLessStart(bc.pinned, lh);
      Shared();
      LockedStart(users.user, lh);
      m, r := 0, Fine;
      var tail := 0;
      while tail < |lh|
        invariant 0 <= tail <= |lh| && m == tail && users.Inv() && users.Free() && r.Fine?
        invariant |bc.disk| == |old(bc.disk)| == |bc.view| && |bc.buf| == |old(bc.buf)| && |users.user| == |old(users.user)|
        invariant bc.disk == Install(old(bc.disk), start, lh, tail) && bc.view == Install(old(bc.view), start, lh, tail)
        invariant bc.trace == old(bc.trace) + InstallTrace(old(bc.disk), start, lh, tail)
        invariant PinnedLess(old(bc.pinned), bc.pinned, lh, tail)
        invariant old(users.turns) == [] && PinnedAre(old(bc.pinned), lh) && Distinct(lh) ==>
                    && users.turns == [] && users.user == old(users.user) && NoneLocked(old(users.user), lh, tail)
                    && if tail == 0 then bc.buf == old(bc.buf) else !AllBusy(bc.buf) && !AllBusy(old(bc.buf))
      {
        users.Parts();
        InstallTurn(bc.buf, bc.disk, bc.view, bc.pinned, old(bc.disk), old(bc.view), old(bc.pinned), lh, start, size, tail);
        LockedNext(old(users.user), lh, tail);
        ghost var wrote;
        r, wrote := InstallBlock(start + tail + 1, lh[tail]);
        SlotNotLocked(start + tail + 1);
        LockedNext(users.user, lh, tail);
        if wrote {
          m := m + 1;
        }
        if !r.Fine? {
          return;
        }
        tail := tail + 1;
      }
      PinnedLessFacts(old(bc.pinned), bc.pinned, lh, |lh|, start, size);
      LockedEnd(old(users.user), lh);
    }

    lemma ValidParts()
      requires Valid()
      ensures bc.Valid() && |bc.disk| == |bc.view| && Reserved(lh, outstanding, committing, ops) && Distinct(lh)
      ensures Fits(lh, |bc.disk|, start, size) && |bc.disk| < UINT_RANGE && 0 <= start < |bc.disk|
      ensures Clean(bc.disk, start, size) && |bc.disk[start]| == BSIZE && PinnedAre(bc.pinned, lh)
      ensures |bc.pinned| == |lh| && start !in bc.pinned && forall bn :: bn in bc.pinned ==> Home(bn, start, size)
    {
      CountPinned(bc.pinned, lh);
    }

    lemma WholeEmpty()
      requires bc.Valid() && |bc.disk| < UINT_RANGE && lh == [] && Reserved(lh, outstanding, committing, ops)
      requires Clean(bc.disk, start, size) && forall bn :: bn !in bc.pinned
      ensures Valid() && bc.view == bc.disk
    {
      assert forall bn :: 0 <= bn < |bc.disk| ==> bc.disk[bn] == bc.view[bn];
    }

    /** commit up to clearing the log; `m` counts its block writes. */
    method CommitInstalls() returns (r: Outcome, ghost m: int)
      requires Valid() && users.Inv() && users.Free() && lh != []
      modifies bc, users
      ensures users.Inv() && |bc.disk| == |old(bc.disk)| && |bc.buf| == |old(bc.buf)| && |users.user| == |old(users.user)|
      ensures 0 <= m <= 2 * |lh| + 1
      ensures bc.trace == old(bc.trace) + CommitTrace(old(bc.disk), start, size, lh, old(bc.view), m)
      ensures bc.disk == CommitDisk(old(bc.disk), start, size, lh, old(bc.view), m)
      ensures r.Fine? ==> m == 2 * |lh| + 1 && users.Free() && |bc.disk| == |bc.view| && forall bn :: bn !in bc.pinned
      ensures r.Panicked? ==> AllBusy(bc.buf)
      ensures r.Asleep? ==> users.turns == [] && LocksAny(users.user, lh)
      ensures |lh| + |users.user| - 2 < |bc.buf| ==> !r.Panicked?
      ensures old(users.turns) == [] ==>
                && users.turns == [] && (r.Panicked? <==> AllBusy(old(bc.buf)))
                && (r.Asleep? <==> !r.Panicked? && LocksAny(old(users.user), lh)) && (r.Fine? ==> !AllBusy(bc.buf))
      ensures Starved(old(users.State()), old(users.turns), start + 1) ==> r.Panicked?
    {
      hide *;
      ghost var d, v, n := bc.disk, bc.view, |lh|;
      ValidParts();
      FitsFacts(lh, |d|, start, size);
      LogStart(d, start, size, lh, v);
      r, m := WriteLog();
      LoggedIsCommit(d, start, size, lh, v, m);
      if !r.Fine? {
        return;
      }
      CommitMiddle(d, start, size, lh, v, bc.disk);
      ghost var wrote;
      r, wrote := WriteHead();
      if wrote {
        m := n + 1;
      }
      if !r.Fine? {
        return;
      }
      ghost var h, k := bc.disk, 0;
      r, k := InstallTrans();
      CommitInstallTrace(d, start, size, lh, v, h, k);
      m := n + 1 + k;
    }

    /** commit, after end_op set `committing`, with readers at work in any order. `m` counts the block writes it
        made. It panics only at a moment when every buffer is dirty or in use, never with fewer logged blocks and
        readers than buffers, and always if the readers' turns before its first bget panic or leave no buffer for the
        first log block. It is left asleep only on a logged block that a reader has locked. With the readers
        at rest it panics exactly if every buffer is dirty or in use at the start, and sleeps exactly if one of them
        has a logged block locked. */
    method Commit() returns (r: Outcome, ghost m: int)
      requires Valid() && committing && users.Inv() && users.Free()
      modifies bc, users, `lh
      ensures users.Inv() && |bc.disk| == |old(bc.disk)| && |bc.buf| == |old(bc.buf)| && |users.user| == |old(users.user)|
      ensures 0 <= m <= 2 * |old(lh)| + 2
      ensures bc.trace == old(bc.trace) + CommitTrace(old(bc.disk), start, size, old(lh), old(bc.view), m)
      ensures bc.disk == CommitDisk(old(bc.disk), start, size, old(lh), old(bc.view), m)
      ensures r.Fine? ==> Valid() && users.Free() && lh == [] && bc.view == bc.disk
      ensures r.Fine? ==> m == if old(lh) == [] then 0 else 2 * |old(lh)| + 2
      ensures r.Fine? ==> forall x :: 0 <= x < |bc.disk| && x < |old(bc.view)| && Home(x, start, size) ==> bc.disk[x] == old(bc.view)[x]
      ensures r.Panicked? ==> old(lh) != [] && AllBusy(bc.buf)
      ensures r.Asleep? ==> users.turns == [] && LocksAny(users.user, old(lh))
      ensures |old(lh)| + |users.user| - 2 < |bc.buf| ==> !r.Panicked?
      ensures old(lh) != [] && Starved(old(users.State()), old(users.turns), start + 1) ==> r.Panicked?
      ensures old(users.turns) == [] ==>
                && (r.Panicked? <==> old(lh) != [] && AllBusy(old(bc.buf)))
                && (r.Asleep? <==> !r.Panicked? && LocksAny(old(users.user), old(lh)))
      ensures old(users.turns) == [] && |users.user| == 2 ==> (r.Panicked? <==> old(lh) != [] && |old(lh)| >= |bc.buf|)
    {
      hide *;
      ghost var d, v := bc.disk, bc.view;
      ValidParts();
      FitsFacts(lh, |d|, start, size);
      LogStart(d, start, size, lh, v);
      LoggedIsCommit(d, start, size, lh, v, 0);
      bc.Parts();
      CommittedView(d, start, size, lh, v, bc.buf, bc.pinned);
      LockedStart(users.user, lh);
      LockedEnd(users.user, lh);
      if |bc.pinned| >= |bc.buf| {
        AllPinned(bc.buf, d, v, bc.pinned);
      }
      r, m := Fine, 0;
      if |lh| > 0 {
        r, m := CommitInstalls();
        if !r.Fine? {
          return;
        }
        ReservedEmpty(lh, outstanding, committing, ops);
        CommitFinish(d, start, size, lh, v, bc.disk, m);
        ghost var wrote;
        r, wrote := Erase();
        if wrote {
          m := m + 1;
        }
      } else {
        WholeEmpty();
      }
    }

    /** The last step of commit and of recovery: forget the transaction and clear the header. */
    method Erase() returns (r: Outcome, ghost wrote: bool)
      requires users.Inv() && users.Free() && |bc.disk| == |bc.view| && |bc.disk| < UINT_RANGE
      requires Fits(lh, |bc.disk|, start, size) && 0 <= start < |bc.disk| && |bc.disk[start]| == BSIZE
      requires Reserved([], outstanding, committing, ops) && forall bn :: bn !in bc.pinned
      requires Clean(bc.disk[start := PutHeader(bc.disk[start], [])], start, size)
      modifies bc, users, `lh
      ensures users.Inv() && |bc.disk| == |old(bc.disk)| && |bc.buf| == |old(bc.buf)| && |users.user| == |old(users.user)|
      ensures !wrote ==> bc.disk == old(bc.disk) && bc.trace == old(bc.trace)
      ensures wrote ==> bc.disk == old(bc.disk)[start := PutHeader(old(bc.disk)[start], [])] && bc.trace == old(bc.trace) + [bc.disk]
      ensures !r.Asleep? && (r.Fine? ==> wrote && Valid() && users.Free() && lh == [] && bc.view == bc.disk)
      ensures r.Panicked? ==> AllBusy(bc.buf)
      ensures |users.user| - 2 < |bc.buf| ==> !r.Panicked?
      ensures old(users.turns) == [] ==> (r.Panicked? <==> AllBusy(old(bc.buf)))
    {
      hide *;
      FitsEmpty(lh, |bc.disk|, start, size);
      NothingPinned(bc.pinned);
      lh := [];
      r, wrote := WriteHead();
      if r.Fine? {
        Shared();
        users.Parts();
        WholeEmpty();
      }
    }

    /** The rest of end_op after a commit: let waiting operations in again. */
    method CommitDone()
      requires Valid() && committing
      modifies `committing
      ensures Valid() && !committing
    {
      committing := false;
    }

    /** read_head: copy the on-disk list into memory. */
    method ReadHead() returns (r: Outcome)
      requires users.Inv() && users.Free() && |bc.disk| == |bc.view|
      requires 0 <= start < |bc.disk| && 0 < size && start !in bc.pinned && HeaderReadable(bc.disk[start])
      modifies bc, users, `lh
      ensures users.Inv() && |bc.buf| == |old(bc.buf)| && |bc.view| == |bc.disk| && |users.user| == |old(users.user)|
      ensures bc.disk == old(bc.disk) && bc.trace == old(bc.trace) && bc.view == old(bc.view) && bc.pinned == old(bc.pinned)
      ensures !r.Asleep? && (r.Fine? ==> users.Free() && lh == ReadHeader(bc.disk[start]))
      ensures |bc.pinned| + |users.user| - 2 < |bc.buf| ==> !r.Panicked?
    {
      hide *;
      Shared();
      users.Parts();
      Unpinned(bc.buf, bc.disk, bc.view, bc.pinned, start);
      users.FreeParts();
      LoadFree(bc.buf, bc.pinned, users.user);
      MoreIs(bc.pinned, start);
      r := users.Read(0, start);
      SlotNotLocked(start);
      if !r.Fine? {
        return;
      }
      SettledIs(bc.buf, bc.view, users.user[0]);
      CopyList(bc.buf[users.user[0].b].data);
      var halted := users.ReleaseNext(0);
      if !halted {
        users.FreeWhole();
      }
      r := if halted then Panicked else Fine;
    }

    /** read_head's loop. */
    method CopyList(b: Block)
      requires HeaderReadable(b)
      modifies `lh
      ensures lh == ReadHeader(b)
    {
      hide Word;
      var n := Word(b, 0);
      lh := [];
      var i := 0;
      while i < n
        invariant 0 <= i <= n && lh == ReadWords(b, i)
      {
        lh := lh + [Word(b, i + 1)];
        i := i + 1;
      }
    }

    /** recover_from_log on a freshly booted cache; `m` counts its block writes. */
    method Recover() returns (r: Outcome, ghost m: int)
      requires users.Inv() && users.Free() && (forall bn :: bn !in bc.pinned) && |bc.disk| < UINT_RANGE
      requires HeaderFits(bc.disk, start, size) && Reserved([], outstanding, committing, ops)
      modifies bc, users, `lh
      ensures users.Inv() && |bc.disk| == |old(bc.disk)| && 0 <= m <= |ReadHeader(old(bc.disk)[start])| + 1
      ensures bc.trace == old(bc.trace) + RecoveryTrace(old(bc.disk), start, size, m)
      ensures bc.disk == RecoveryDisk(old(bc.disk), start, size, m)
      ensures r.Fine? ==> Valid() && users.Free() && bc.disk == Recovered(old(bc.disk), start, size) && bc.view == bc.disk && lh == []
      ensures |old(users.user)| - 2 + 1 < |old(bc.buf)| ==> !r.Panicked?
      ensures r.Asleep? ==> users.turns == [] && LocksAny(users.user, ReadHeader(old(bc.disk)[start]))
    {
      hide *;
      ghost var d := bc.disk;
      Shared();
      users.Parts();
      NothingPinned(bc.pinned);
      HeaderParts(d, start, size);
      m := 0;
      RecoverySteps(d, start, size, 0);
      InstallStart(d, start, size, ReadHeader(d[start]));
      FitsFacts(ReadHeader(d[start]), |d|, start, size);
      r := ReadHead();
      if !r.Fine? {
        return;
      }
      r, m := InstallTrans();
      RecoverySteps(d, start, size, m);
      if !r.Fine? {
        return;
      }
      ghost var wrote;
      r, wrote := Erase();
      if wrote {
        m := m + 1;
      }
    }
  }
}
