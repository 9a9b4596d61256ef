/**
 The processes that share the buffer cache of Offline 3/xv6/bio.c with the one that commits. Readers
 (fileread, for one, runs outside any transaction) take and give back buffers at every point where the
 committing process could be interrupted or sleeps, in the order of an arbitrary schedule.

 Users 0 and 1 are the two buffers the committing process works on; the others are readers with one buffer
 each.
 */
module BufUsers {
  import opened Sums
  import opened Counting
  import opened Bio
  import opened LogDisk

  /** A process has no buffer, has a reference and waits for the lock, or has the lock. `x` is the block. */
  datatype User = Out | Waiting(b: int, x: int) | Reading(b: int, x: int)

  /** Reader `i` takes its next step, with block `x` if that is a bread; or the committing process goes on. */
  datatype Turn = Reader(i: int, x: int) | Committer

  /** What becomes of a piece of the commit: done; the kernel panics for want of a buffer; or the schedule ends
      while it sleeps on a locked buffer. */
  datatype Outcome = Fine | Panicked | Asleep

  function Uses(b: int): User -> bool {
    (u: User) => !u.Out? && u.b == b
  }

  ghost predicate UserOk(buf: seq<Buf>, u: User) {
    !u.Out? ==> 0 <= u.b < |buf| && Caches(buf[u.b], ROOTDEV, u.x) && (u.Reading? ==> buf[u.b].locked)
  }

  ghost predicate Locker(user: seq<User>, b: int) {
    exists i :: 0 <= i < |user| && user[i].Reading? && user[i].b == b
  }

  /** Reference counts count the users; a lock has exactly one holder. */
  ghost predicate Refs(buf: seq<Buf>, user: seq<User>) {
    && (forall i :: 0 <= i < |user| ==> UserOk(buf, user[i]))
    && (forall b :: 0 <= b < |buf| ==> buf[b].refcnt == Count(user, Uses(b)))
    && (forall i, j :: 0 <= i < j < |user| && user[i].Reading? && user[j].Reading? ==> user[i].b != user[j].b)
    && (forall b :: 0 <= b < |buf| && buf[b].locked ==> Locker(user, b))
  }

  /** Readers read blocks outside the log, and do not change them. */
  ghost predicate ReaderOk(buf: seq<Buf>, view: seq<Block>, u: User, start: int, size: int) {
    !u.Out? ==>
      && 0 <= u.b < |buf| && 0 <= u.x < |view| && Home(u.x, start, size)
      && (u.Reading? ==> buf[u.b].valid && buf[u.b].data == view[u.x])
  }

  ghost predicate ReadersOk(buf: seq<Buf>, view: seq<Block>, user: seq<User>, start: int, size: int) {
    forall i :: 2 <= i < |user| ==> ReaderOk(buf, view, user[i], start, size)
  }

  lemma {:induction false} UsedOnce(user: seq<User>, i: int)
    requires 0 <= i < |user| && !user[i].Out?
    ensures Count(user, Uses(user[i].b)) >= 1
  {
    CountOne(user, Uses(user[i].b), i);
  }

  /** bget: a reference more, on a buffer that has the block or that nobody used. */
  lemma GetRefs(buf: seq<Buf>, user: seq<User>, i: int, b: int, x: int)
    requires Refs(buf, user) && 0 <= i < |user| && user[i].Out? && 0 <= b < |buf|
    requires Caches(buf[b], ROOTDEV, x) || buf[b].refcnt == 0
    ensures Refs(buf[b := Gotten(buf[b], ROOTDEV, x)], user[i := Waiting(b, x)])
  {
    var buf', user' := buf[b := Gotten(buf[b], ROOTDEV, x)], user[i := Waiting(b, x)];
    forall j | 0 <= j < |user|
      ensures UserOk(buf', user'[j])
    {
      assert UserOk(buf, user[j]);
      if !user[j].Out? && user[j].b == b {
        UsedOnce(user, j);
      }
    }
    forall c | 0 <= c < |buf|
      ensures buf'[c].refcnt == Count(user', Uses(c))
    {
      CountUpdate(user, Uses(c), i, Waiting(b, x));
    }
    forall c | 0 <= c < |buf| && buf'[c].locked
      ensures Locker(user', c)
    {
      LockerStays(user, i, Waiting(b, x), c);
    }
  }

  lemma LockerStays(user: seq<User>, i: int, u: User, c: int)
    requires 0 <= i < |user| && Locker(user, c) && (user[i].Reading? && user[i].b == c ==> u.Reading? && u.b == c)
    ensures Locker(user[i := u], c)
  {
    var j :| 0 <= j < |user| && user[j].Reading? && user[j].b == c;
    assert user[i := u][j].Reading? && user[i := u][j].b == c;
  }

  /** acquiresleep of a buffer that is not locked. */
  lemma LockRefs(buf: seq<Buf>, user: seq<User>, i: int, data: Block)
    requires Refs(buf, user) && 0 <= i < |user| && user[i].Waiting? && 0 <= user[i].b < |buf| && !buf[user[i].b].locked
    ensures Refs(buf[user[i].b := Filled(buf[user[i].b], data)], user[i := Reading(user[i].b, user[i].x)])
  {
    var b, u := user[i].b, Reading(user[i].b, user[i].x);
    var buf', user' := buf[b := Filled(buf[b], data)], user[i := u];
    forall j | 0 <= j < |user|
      ensures UserOk(buf', user'[j])
      ensures j != i && user[j].Reading? ==> user[j].b != b
    {
      assert UserOk(buf, user[j]) && UserOk(buf, user[i]);
    }
    forall c | 0 <= c < |buf|
      ensures buf'[c].refcnt == Count(user', Uses(c))
    {
      CountUpdate(user, Uses(c), i, u);
    }
    forall c | 0 <= c < |buf| && buf'[c].locked
      ensures Locker(user', c)
    {
      if c == b {
        assert user'[i].Reading? && user'[i].b == c;
      } else {
        LockerStays(user, i, u, c);
      }
    }
  }

  /** brelse. */
  lemma DropRefs(buf: seq<Buf>, user: seq<User>, i: int)
    requires Refs(buf, user) && 0 <= i < |user| && user[i].Reading? && 0 <= user[i].b < |buf|
    ensures
      var b := user[i].b;
      Refs(buf[b := buf[b].(locked := false, refcnt := buf[b].refcnt - 1)], user[i := Out])
  {
    var b := user[i].b;
    var buf', user' := buf[b := buf[b].(locked := false, refcnt := buf[b].refcnt - 1)], user[i := Out];
    forall j | 0 <= j < |user|
      ensures UserOk(buf', user'[j])
    {
      assert UserOk(buf, user[j]);
    }
    forall c | 0 <= c < |buf|
      ensures buf'[c].refcnt == Count(user', Uses(c))
    {
      CountUpdate(user, Uses(c), i, Out);
    }
    forall c | 0 <= c < |buf| && buf'[c].locked
      ensures Locker(user', c)
    {
      LockerStays(user, i, Out, c);
    }
  }

  /** Other fields of a buffer do not matter. */
  lemma SetRefs(buf: seq<Buf>, user: seq<User>, b: int, n: Buf)
    requires Refs(buf, user) && 0 <= b < |buf|
    requires n.dev == buf[b].dev && n.blockno == buf[b].blockno && n.refcnt == buf[b].refcnt && n.locked == buf[b].locked
    ensures Refs(buf[b := n], user)
  {
    forall j | 0 <= j < |user|
      ensures UserOk(buf[b := n], user[j])
    {
      assert UserOk(buf, user[j]);
    }
  }

  lemma GetReaders(buf: seq<Buf>, view: seq<Block>, user: seq<User>, i: int, b: int, x: int, start: int, size: int)
    requires Refs(buf, user) && ReadersOk(buf, view, user, start, size) && 0 <= i < |user| && 0 <= b < |buf| && 0 <= x < |view|
    requires Caches(buf[b], ROOTDEV, x) || buf[b].refcnt == 0
    requires i >= 2 ==> Home(x, start, size)
    ensures ReadersOk(buf[b := Gotten(buf[b], ROOTDEV, x)], view, user[i := Waiting(b, x)], start, size)
  {
    forall j | 2 <= j < |user| && j != i
      ensures ReaderOk(buf[b := Gotten(buf[b], ROOTDEV, x)], view, user[j], start, size)
    {
      assert ReaderOk(buf, view, user[j], start, size);
      if user[j].Reading? && user[j].b == b {
        UsedOnce(user, j);
      }
    }
  }

  lemma LockReaders(buf: seq<Buf>, view: seq<Block>, user: seq<User>, i: int, start: int, size: int)
    requires Refs(buf, user) && ReadersOk(buf, view, user, start, size) && 0 <= i < |user| && user[i].Waiting? && 0 <= user[i].b < |buf|
    requires !buf[user[i].b].locked && 0 <= user[i].x < |view|
    ensures ReadersOk(buf[user[i].b := Filled(buf[user[i].b], view[user[i].x])], view, user[i := Reading(user[i].b, user[i].x)], start, size)
  {
    var b, user' := user[i].b, user[i := Reading(user[i].b, user[i].x)];
    forall j | 2 <= j < |user|
      ensures ReaderOk(buf[b := Filled(buf[b], view[user[i].x])], view, user'[j], start, size)
    {
      assert ReaderOk(buf, view, user[j], start, size) && UserOk(buf, user[j]);
    }
  }

  lemma DropReaders(buf: seq<Buf>, view: seq<Block>, user: seq<User>, i: int, start: int, size: int)
    requires Refs(buf, user) && ReadersOk(buf, view, user, start, size) && 0 <= i < |user| && user[i].Reading? && 0 <= user[i].b < |buf|
    ensures
      var b := user[i].b;
      ReadersOk(buf[b := buf[b].(locked := false, refcnt := buf[b].refcnt - 1)], view, user[i := Out], start, size)
  {
    var b, user' := user[i].b, user[i := Out];
    forall j | 2 <= j < |user|
      ensures ReaderOk(buf[b := buf[b].(locked := false, refcnt := buf[b].refcnt - 1)], view, user'[j], start, size)
    {
      assert ReaderOk(buf, view, user[j], start, size);
    }
  }

  /** The holder of a lock changes its buffer, and perhaps the contents its block is meant to have. */
  lemma SetReaders(buf: seq<Buf>, view: seq<Block>, user: seq<User>, h: int, n: Buf, view': seq<Block>, start: int, size: int)
    requires Refs(buf, user) && ReadersOk(buf, view, user, start, size) && Unique(buf) && 0 <= h < 2 <= |user| && user[h].Reading?
    requires 0 <= user[h].b < |buf| && |view'| == |view| && forall x :: 0 <= x < |view| && x != user[h].x ==> view'[x] == view[x]
    ensures ReadersOk(buf[user[h].b := n], view', user, start, size)
  {
    var b := user[h].b;
    assert UserOk(buf, user[h]);
    OnlyHere(buf, b);
    forall j | 2 <= j < |user|
      ensures ReaderOk(buf[b := n], view', user[j], start, size)
    {
      assert ReaderOk(buf, view, user[j], start, size) && UserOk(buf, user[j]);
    }
  }

  // ---------------------------------------------------------------------------------------------
  // When the buffers run out
  // ---------------------------------------------------------------------------------------------

  /** Every buffer is dirty or in use. */
  ghost predicate AllBusy(buf: seq<Buf>) {
    forall i :: 0 <= i < |buf| ==> !Idle(buf[i])
  }

  /** Uses a buffer that is not dirty. */
  function UsesClean(buf: seq<Buf>): User -> bool {
    (u: User) => !u.Out? && 0 <= u.b < |buf| && !buf[u.b].dirty
  }

  ghost function CleanUsed(buf: seq<Buf>, user: seq<User>): (s: set<int>)
    ensures |s| <= Count(user, UsesClean(buf))
    ensures forall i :: 0 <= i < |user| && UsesClean(buf)(user[i]) ==> user[i].b in s
    decreases |user|
  {
    if user == [] then {} else
      var n := |user| - 1;
      var s := CleanUsed(buf, user[..n]);
      if UsesClean(buf)(user[n]) then s + {user[n].b} else s
  }

  lemma BusyUses(buf: seq<Buf>, user: seq<User>, b: int) returns (i: int)
    requires Refs(buf, user) && 0 <= b < |buf| && buf[b].refcnt > 0
    ensures 0 <= i < |user| && Uses(b)(user[i])
  {
    i := CountFind(user, Uses(b));
  }

  /** With all buffers busy there are at most as many buffers as pinned blocks and users of clean buffers. */
  lemma {:induction false} BusyCount(buf: seq<Buf>, disk: Disk, view: seq<Block>, pinned: map<int, int>, user: seq<User>)
    requires Coherent(buf, disk, view, pinned) && Refs(buf, user) && AllBusy(buf)
    ensures |buf| <= |pinned| + Count(user, UsesClean(buf))
  {
    var s, t := Image(pinned), CleanUsed(buf, user);
    forall b | 0 <= b < |buf|
      ensures b in s + t
    {
      ImageIs(pinned, b);
      assert BufOk(buf[b], b, view, pinned) && !Idle(buf[b]);
      if !buf[b].dirty {
        var i := BusyUses(buf, user, b);
        assert UsesClean(buf)(user[i]);
      }
    }
    Range(|buf|, s + t);
    ImageCount(pinned);
  }

  /** The two buffers of the committing process and at most one for each reader. */
  lemma {:induction false} CountUsers(user: seq<User>, p: User -> bool, i: int)
    requires |user| >= 2
    ensures Count(user, p) <= (if p(user[0]) then 1 else 0) + (if p(user[1]) then 1 else 0) + |user| - 2
    ensures 2 <= i < |user| && !p(user[i]) ==>
              Count(user, p) <= (if p(user[0]) then 1 else 0) + (if p(user[1]) then 1 else 0) + |user| - 3
    decreases |user|
  {
    if |user| > 2 {
      CountUsers(user[..|user| - 1], p, i);
    } else {
      assert user[..1][..0] == [];
      assert Count(user[..1], p) == Count(user[..1][..0], p) + (if p(user[..1][0]) then 1 else 0);
    }
  }

  function Mine(buf: seq<Buf>, u: User): int {
    if UsesClean(buf)(u) then 1 else 0
  }

  /** Pinned blocks, clean buffers of the committing process, and readers. */
  ghost function Load(buf: seq<Buf>, pinned: map<int, int>, user: seq<User>): int
    requires |user| >= 2
  {
    |pinned| + Mine(buf, user[0]) + Mine(buf, user[1]) + |user| - 2
  }

  /** The buffers that reading block `x` adds to the load. */
  function More(pinned: map<int, int>, x: int): int {
    if x in pinned then 0 else 1
  }

  /** A reader always finds a buffer while the load is at most the number of buffers ... */
  lemma ReaderFinds(buf: seq<Buf>, disk: Disk, view: seq<Block>, pinned: map<int, int>, user: seq<User>, i: int, x: int)
    requires Coherent(buf, disk, view, pinned) && Refs(buf, user) && 2 <= i < |user| && user[i].Out?
    requires Load(buf, pinned, user) <= |buf|
    ensures !NoBuffer(buf, ROOTDEV, x)
  {
    if NoBuffer(buf, ROOTDEV, x) {
      BusyCount(buf, disk, view, pinned, user);
      CountUsers(user, UsesClean(buf), i);
    }
  }

  /** ... and the committing process while it is less. */
  lemma CommitFinds(buf: seq<Buf>, disk: Disk, view: seq<Block>, pinned: map<int, int>, user: seq<User>, x: int)
    requires Coherent(buf, disk, view, pinned) && Refs(buf, user) && |user| >= 2
    requires Load(buf, pinned, user) < |buf|
    ensures !NoBuffer(buf, ROOTDEV, x)
  {
    if NoBuffer(buf, ROOTDEV, x) {
      BusyCount(buf, disk, view, pinned, user);
      CountUsers(user, UsesClean(buf), 0);
    }
  }

  /** A pinned block is cached, in a dirty buffer. */
  lemma PinnedIsCached(buf: seq<Buf>, disk: Disk, view: seq<Block>, pinned: map<int, int>, x: int)
    requires Coherent(buf, disk, view, pinned) && x in pinned
    ensures !NoBuffer(buf, ROOTDEV, x)
    ensures forall b :: 0 <= b < |buf| && Caches(buf[b], ROOTDEV, x) ==> buf[b].dirty
  {
    var i := pinned[x];
    assert BufOk(buf[i], i, view, pinned);
    assert Caches(buf[i], ROOTDEV, x);
    OnlyHere(buf, i);
  }

  lemma NoneIsBusy(buf: seq<Buf>, x: int)
    ensures NoBuffer(buf, ROOTDEV, x) ==> AllBusy(buf)
  {
  }

  /** Steps of others do not change the load. */
  lemma LoadKept(buf: seq<Buf>, buf': seq<Buf>, pinned: map<int, int>, user: seq<User>, user': seq<User>)
    requires |user| == |user'| >= 2 && user'[0] == user[0] && user'[1] == user[1] && Kept(buf, buf', user[0]) && Kept(buf, buf', user[1])
    ensures Load(buf', pinned, user') == Load(buf, pinned, user)
  {
  }

  /** A buffer more for the committing process, unless it is a dirty one. */
  lemma LoadMore(buf: seq<Buf>, buf': seq<Buf>, pinned: map<int, int>, user: seq<User>, user': seq<User>, h: int)
    requires |user| == |user'| >= 2 && 0 <= h < 2 && user' == user[h := user'[h]] && user[h].Out? && Kept(buf, buf', user[1 - h])
    ensures Load(buf', pinned, user') <= Load(buf, pinned, user) + 1
    ensures !user'[h].Out? && 0 <= user'[h].b < |buf'| && buf'[user'[h].b].dirty ==> Load(buf', pinned, user') == Load(buf, pinned, user)
  {
  }

  /** What the committing process can rely on: its user `u` keeps its buffer, with the data if it has the lock. */
  ghost predicate Kept(buf: seq<Buf>, buf': seq<Buf>, u: User) {
    && |buf'| == |buf|
    && (!u.Out? ==> 0 <= u.b < |buf| && buf'[u.b].dirty == buf[u.b].dirty)
    && (u.Reading? ==> buf'[u.b] == buf[u.b].(refcnt := buf'[u.b].refcnt))
  }

  lemma KeptRefl(buf: seq<Buf>, user: seq<User>, h: int)
    requires Refs(buf, user) && 0 <= h < |user|
    ensures Kept(buf, buf, user[h])
  {
    assert UserOk(buf, user[h]);
  }

  lemma KeptTrans(buf0: seq<Buf>, buf1: seq<Buf>, buf2: seq<Buf>, u: User)
    requires Kept(buf0, buf1, u) && Kept(buf1, buf2, u)
    ensures Kept(buf0, buf2, u)
  {
  }

  /** A step on the buffer `b` of another user. */
  lemma KeptStep(buf: seq<Buf>, user: seq<User>, h: int, b: int, n: Buf)
    requires Refs(buf, user) && 0 <= h < |user| && 0 <= b < |buf|
    requires !user[h].Out? && user[h].b == b ==> n.dirty == buf[b].dirty
    requires user[h].Reading? && user[h].b == b ==> n == buf[b].(refcnt := n.refcnt)
    ensures Kept(buf, buf[b := n], user[h])
  {
    assert UserOk(buf, user[h]);
  }

  /** The holder of a lock knows it is the only one. */
  lemma NotOthers(buf: seq<Buf>, user: seq<User>, h: int, i: int)
    requires Refs(buf, user) && 0 <= h < |user| && 0 <= i < |user| && h != i
    ensures user[h].Reading? && user[i].Reading? ==> user[h].b != user[i].b
    ensures !user[h].Out? ==> 0 <= user[h].b < |buf| && buf[user[h].b].refcnt > 0
    ensures user[h].Reading? ==> buf[user[h].b].locked
  {
    assert UserOk(buf, user[h]);
    if !user[h].Out? {
      UsedOnce(user, h);
    }
  }

  lemma StartRefs(buf: seq<Buf>, user: seq<User>)
    requires forall b :: 0 <= b < |buf| ==> buf[b].refcnt == 0 && !buf[b].locked
    requires forall i :: 0 <= i < |user| ==> user[i].Out?
    ensures Refs(buf, user)
  {
    forall b | 0 <= b < |buf|
      ensures Count(user, Uses(b)) == 0
    {
      CountNone(user, Uses(b));
    }
  }

  lemma ReaderIs(buf: seq<Buf>, view: seq<Block>, user: seq<User>, i: int, start: int, size: int)
    requires Refs(buf, user) && ReadersOk(buf, view, user, start, size) && 2 <= i < |user|
    ensures !user[i].Out? ==> 0 <= user[i].b < |buf| && 0 <= user[i].x < |view|
    ensures user[i].Reading? ==> buf[user[i].b].data == view[user[i].x]
  {
    assert ReaderOk(buf, view, user[i], start, size);
  }

  // ---------------------------------------------------------------------------------------------
  // What the readers do
  // ---------------------------------------------------------------------------------------------

  /** The buffers, the order in which they were released, and who has which; the contents of the blocks and the place
      of the log. */
  datatype Pool = Pool(buf: seq<Buf>, released: seq<int>, user: seq<User>, view: seq<Block>, start: int, size: int)

  /** A reader without a buffer may read block `x` of a file. */
  ghost predicate MayRead(p: Pool, i: int, x: int) {
    2 <= i < |p.user| && p.user[i].Out? && 0 <= x < |p.view| && Home(x, p.start, p.size)
  }

  /** The turn of reader `i` panics: it finds no buffer for block `x`. */
  ghost predicate Halts(p: Pool, i: int, x: int) {
    MayRead(p, i, x) && NoBuffer(p.buf, ROOTDEV, x)
  }

  lemma SomePick(buf: seq<Buf>, released: seq<int>, x: int)
    requires !NoBuffer(buf, ROOTDEV, x)
    ensures exists b :: Picks(buf, released, ROOTDEV, x, b)
  {
    var b := PicksSome(buf, released, ROOTDEV, x);
  }

  /** bget's choice. */
  ghost function Choice(buf: seq<Buf>, released: seq<int>, x: int): (b: int)
    requires !NoBuffer(buf, ROOTDEV, x)
    ensures Picks(buf, released, ROOTDEV, x, b)
  {
    SomePick(buf, released, x);
    var b :| Picks(buf, released, ROOTDEV, x, b);
    b
  }

  /** User `i` gets a reference to a buffer for block `x`; ... */
  ghost function Getting(p: Pool, i: int, x: int): Pool
    requires 0 <= i < |p.user| && !NoBuffer(p.buf, ROOTDEV, x)
  {
    var b := Choice(p.buf, p.released, x);
    p.(buf := p.buf[b := Gotten(p.buf[b], ROOTDEV, x)], user := p.user[i := Waiting(b, x)])
  }

  /** ... gets its lock, unless another user has it; ... */
  ghost function Locking(p: Pool, i: int): Pool
    requires 0 <= i < |p.user| && !p.user[i].Out?
  {
    var b, x := p.user[i].b, p.user[i].x;
    if 0 <= b < |p.buf| && 0 <= x < |p.view| && !p.buf[b].locked then
      p.(buf := p.buf[b := Filled(p.buf[b], p.view[x])], user := p.user[i := Reading(b, x)])
    else p
  }

  /** ... and gives the buffer back. */
  ghost function Releasing(p: Pool, i: int): Pool
    requires 0 <= i < |p.user| && !p.user[i].Out?
  {
    var b := p.user[i].b;
    if 0 <= b < |p.buf| then
      p.(buf := p.buf[b := p.buf[b].(locked := false, refcnt := p.buf[b].refcnt - 1)], user := p.user[i := Out],
         released := if p.buf[b].refcnt == 1 then p.released + [b] else p.released)
    else p
  }

  /** The next step of reader `i`, with block `x` if it begins a bread. */
  ghost function Step(p: Pool, i: int, x: int): Pool {
    if !(2 <= i < |p.user|) then p
    else if p.user[i].Waiting? then Locking(p, i)
    else if p.user[i].Reading? then Releasing(p, i)
    else if MayRead(p, i, x) && !NoBuffer(p.buf, ROOTDEV, x) then Getting(p, i, x)
    else p
  }

  /** Where a piece of a schedule leads: the state, the rest of the schedule, and what becomes of the process. */
  datatype Ran = Ran(pool: Pool, turns: seq<Turn>, outcome: Outcome)

  /** The turns of readers up to the next one of the committing process. */
  ghost function Others(p: Pool, turns: seq<Turn>): (r: Ran)
    ensures |r.turns| <= |turns| && (turns != [] ==> |r.turns| < |turns|)
    decreases |turns|
  {
    if turns == [] then Ran(p, [], Fine)
    else if turns[0].Committer? then Ran(p, turns[1..], Fine)
    else if Halts(p, turns[0].i, turns[0].x) then Ran(p, turns[1..], Panicked)
    else Others(Step(p, turns[0].i, turns[0].x), turns[1..])
  }

  /** bget of the committing process for its user `h`: readers are at work before it and after it. */
  ghost function Fetching(p: Pool, turns: seq<Turn>, h: int, x: int): Ran {
    var o := Others(p, turns);
    if o.outcome.Panicked? then o
    else if NoBuffer(o.pool.buf, ROOTDEV, x) || !(0 <= h < |o.pool.user|) then o.(outcome := Panicked)
    else Others(Getting(o.pool, h, x), o.turns)
  }

  /** Its acquiresleep: it tries again after other turns until it gets the lock or the schedule ends. */
  ghost function Awaiting(p: Pool, turns: seq<Turn>, h: int): Ran
    decreases |turns|
  {
    if !(0 <= h < |p.user|) || p.user[h].Out? || !(0 <= p.user[h].b < |p.buf|) || !p.buf[p.user[h].b].locked then
      Ran(if 0 <= h < |p.user| && !p.user[h].Out? then Locking(p, h) else p, turns, Fine)
    else if turns == [] then Ran(p, [], Outcome.Asleep)
    else
      var o := Others(p, turns);
      if o.outcome.Panicked? then o else Awaiting(o.pool, o.turns, h)
  }

  /** Its bread. */
  ghost function Breading(p: Pool, turns: seq<Turn>, h: int, x: int): Ran {
    var f := Fetching(p, turns, h, x);
    if f.outcome.Panicked? then f else Awaiting(f.pool, f.turns, h)
  }

  /** Its brelse. */
  ghost function Brelsing(p: Pool, turns: seq<Turn>, h: int): Ran {
    var o := Others(p, turns);
    if o.outcome.Panicked? || !(0 <= h < |o.pool.user|) || o.pool.user[h].Out? then o
    else o.(pool := Releasing(o.pool, h))
  }

  /** The two breads of a turn of write_log or install_trans ... */
  ghost function BreadingTwo(p: Pool, turns: seq<Turn>, x: int, y: int): Ran {
    var a := Breading(p, turns, 0, x);
    if a.outcome.Fine? then Breading(a.pool, a.turns, 1, y) else a
  }

  /** ... and its two brelses. */
  ghost function BrelsingTwo(p: Pool, turns: seq<Turn>, first: int): Ran {
    var a := Brelsing(p, turns, first);
    if a.outcome.Fine? then Brelsing(a.pool, a.turns, 1 - first) else a
  }

  /** The committing process gets no buffer for block `x` after the turns before its bget, or those panic. */
  ghost predicate Starved(p: Pool, turns: seq<Turn>, x: int) {
    var o := Others(p, turns);
    o.outcome.Panicked? || NoBuffer(o.pool.buf, ROOTDEV, x)
  }

  lemma StarvedPanics(p: Pool, turns: seq<Turn>, h: int, x: int)
    requires Starved(p, turns, x)
    ensures Breading(p, turns, h, x).outcome.Panicked? && forall y :: h == 0 ==> BreadingTwo(p, turns, x, y).outcome.Panicked?
  {
  }

  lemma {:induction false} OthersNext(p: Pool, turns: seq<Turn>)
    ensures turns == [] ==> Others(p, turns) == Ran(p, [], Fine)
    ensures turns != [] && turns[0].Committer? ==> Others(p, turns) == Ran(p, turns[1..], Fine)
    ensures turns != [] && turns[0].Reader? ==>
              Others(p, turns) ==
              var p' := Step(p, turns[0].i, turns[0].x);
              if Halts(p, turns[0].i, turns[0].x) then Ran(p', turns[1..], Panicked) else Others(p', turns[1..])
  {
  }

  /** Whatever buffer bget's rule allows is the one taken here. */
  lemma GettingIs(p: Pool, i: int, x: int, b: int, ring: seq<int>, pos: seq<int>)
    requires Tour(ring, pos, |p.buf|) && ByRelease(ring, p.released, |p.buf|) && Unique(p.buf)
    requires 0 <= i < |p.user| && Picks(p.buf, p.released, ROOTDEV, x, b)
    ensures !NoBuffer(p.buf, ROOTDEV, x)
    ensures Getting(p, i, x) == p.(buf := p.buf[b := Gotten(p.buf[b], ROOTDEV, x)], user := p.user[i := Waiting(b, x)])
  {
    PicksOne(p.buf, ring, pos, p.released, ROOTDEV, x, b, Choice(p.buf, p.released, x));
  }

  lemma StepIs(p: Pool, i: int, x: int)
    ensures !(2 <= i < |p.user|) ==> Step(p, i, x) == p && !Halts(p, i, x)
    ensures 2 <= i < |p.user| && !p.user[i].Out? ==>
              !Halts(p, i, x) && Step(p, i, x) == if p.user[i].Waiting? then Locking(p, i) else Releasing(p, i)
    ensures 2 <= i < |p.user| && p.user[i].Out? && 0 <= x < |p.view| && Home(x, p.start, p.size) ==>
              && (Halts(p, i, x) <==> NoBuffer(p.buf, ROOTDEV, x))
              && Step(p, i, x) == if NoBuffer(p.buf, ROOTDEV, x) then p else Getting(p, i, x)
    ensures 2 <= i < |p.user| && p.user[i].Out? && !(0 <= x < |p.view| && Home(x, p.start, p.size)) ==>
              Step(p, i, x) == p && !Halts(p, i, x)
  {
  }

  /** A brelse itself never sleeps. */
  lemma BrelsingFine(p: Pool, turns: seq<Turn>, h: int)
    ensures Brelsing(p, turns, h).outcome != Outcome.Asleep
  {
    OthersFine(p, turns);
  }

  lemma {:induction false} OthersFine(p: Pool, turns: seq<Turn>)
    ensures Others(p, turns).outcome != Outcome.Asleep
    decreases |turns|
  {
    if turns != [] && turns[0].Reader? && !Halts(p, turns[0].i, turns[0].x) {
      OthersFine(Step(p, turns[0].i, turns[0].x), turns[1..]);
    }
  }

  lemma {:induction false} AwaitingNext(p: Pool, turns: seq<Turn>, h: int)
    requires 0 <= h < |p.user| && !p.user[h].Out? && 0 <= p.user[h].b < |p.buf|
    ensures !p.buf[p.user[h].b].locked ==> Awaiting(p, turns, h) == Ran(Locking(p, h), turns, Fine)
    ensures p.buf[p.user[h].b].locked && turns == [] ==> Awaiting(p, turns, h) == Ran(p, [], Outcome.Asleep)
    ensures
      var o := Others(p, turns);
      p.buf[p.user[h].b].locked && turns != [] ==> Awaiting(p, turns, h) == if o.outcome.Panicked? then o else Awaiting(o.pool, o.turns, h)
  {
  }

  lemma PicksIs(buf: seq<Buf>, released: seq<int>, x: int, b: int)
    requires Picks(buf, released, ROOTDEV, x, b)
    ensures 0 <= b < |buf| && (Caches(buf[b], ROOTDEV, x) || (Idle(buf[b]) && forall i :: 0 <= i < |buf| ==> !Caches(buf[i], ROOTDEV, x)))
  {
  }

  class BufUsers {
    const bc: Bcache
    const start: int
    const size: int
    var user: seq<User>
    var turns: seq<Turn>

    /** Nobody has a buffer yet. */
    constructor (bc: Bcache, start: int, size: int, readers: nat, turns: seq<Turn>)
      requires bc.Valid() && forall b :: 0 <= b < |bc.buf| ==> bc.buf[b].refcnt == 0 && !bc.buf[b].locked
      ensures Inv() && this.bc == bc && this.start == start && this.size == size && this.turns == turns
      ensures |user| == readers + 2 && forall i :: 0 <= i < |user| ==> user[i].Out?
    {
      this.bc, this.start, this.size, this.turns := bc, start, size, turns;
      user := seq(readers + 2, _ => Out);
      new;
      StartRefs(bc.buf, user);
    }

    ghost predicate Inv()
      reads this, bc
    {
      && bc.Valid() && |user| >= 2
      && Refs(bc.buf, user) && ReadersOk(bc.buf, bc.view, user, start, size)
    }

    ghost function State(): Pool
      reads this`user, bc
    {
      Pool(bc.buf, bc.released, user, bc.view, start, size)
    }

    lemma StateIs()
      ensures State() == Pool(bc.buf, bc.released, user, bc.view, start, size)
    {
    }

    lemma Parts()
      requires Inv()
      ensures bc.Valid() && |user| >= 2 && Refs(bc.buf, user) && ReadersOk(bc.buf, bc.view, user, start, size)
      ensures Coherent(bc.buf, bc.disk, bc.view, bc.pinned) && |bc.disk| == |bc.view| && Unique(bc.buf)
    {
      bc.Parts();
    }

    /** bget for user `i`; false where it panics. */
    method Get(i: int, x: int) returns (ok: bool)
      requires Inv() && 0 <= i < |user| && user[i].Out? && 0 <= x < |bc.disk| && (i >= 2 ==> Home(x, start, size))
      modifies `user, bc`buf
      ensures Inv() && |bc.buf| == |old(bc.buf)|
      ensures ok <==> !NoBuffer(old(bc.buf), ROOTDEV, x)
      ensures !ok ==> bc.buf == old(bc.buf) && user == old(user)
      ensures ok ==>
                && |user| == |old(user)| && user[i].Waiting? && user[i].x == x && user == old(user)[i := user[i]]
                && Picks(old(bc.buf), bc.released, ROOTDEV, x, user[i].b) && 0 <= user[i].b < |bc.buf|
                && (Caches(old(bc.buf)[user[i].b], ROOTDEV, x) || Idle(old(bc.buf)[user[i].b]))
                && bc.buf == old(bc.buf)[user[i].b := Gotten(old(bc.buf)[user[i].b], ROOTDEV, x)]
                && (bc.buf[user[i].b].locked <==> HeldLocked(old(bc.buf), ROOTDEV, x))
                && State() == Getting(old(State()), i, x)
      ensures forall h :: 0 <= h < |user| && h != i ==> Kept(old(bc.buf), bc.buf, old(user)[h])
    {
      hide Coherent, Unique, ListOk, Refs, ReadersOk, Kept, NoBuffer, HeldLocked, Tour, ByRelease, Picks, Getting;
      Parts();
      bc.Parts();
      var r := bc.Bget(ROOTDEV, x);
      ok := r.Some?;
      if ok {
        PicksIs(old(bc.buf), bc.released, x, r.value);
        GettingIs(old(State()), i, x, r.value, old(bc.ring), old(bc.pos));
        GottenFacts(old(bc.buf), bc.disk, bc.view, bc.pinned, r.value, ROOTDEV, x);
        GetRefs(old(bc.buf), user, i, r.value, x);
        GetReaders(old(bc.buf), bc.view, user, i, r.value, x, start, size);
        user := user[i := Waiting(r.value, x)];
      }
      forall h | 0 <= h < |user| && h != i
        ensures Kept(old(bc.buf), bc.buf, old(user)[h])
      {
        if ok {
          NotOthers(old(bc.buf), old(user), h, i);
          KeptStep(old(bc.buf), old(user), h, r.value, Gotten(old(bc.buf)[r.value], ROOTDEV, x));
        } else {
          KeptRefl(old(bc.buf), old(user), h);
        }
      }
    }

    /** acquiresleep and the read of an unread buffer; false if another user has the lock. */
    method Resume(i: int) returns (got: bool)
      requires Inv() && 0 <= i < |user| && user[i].Waiting? && 0 <= user[i].x < |bc.disk|
      modifies `user, bc`buf, bc`disk, bc`view, bc`pinned, bc`trace
      ensures Inv() && |bc.buf| == |old(bc.buf)| && |user| == |old(user)| && 0 <= old(user)[i].b < |bc.buf|
      ensures bc.disk == old(bc.disk) && bc.view == old(bc.view) && bc.pinned == old(bc.pinned) && bc.trace == old(bc.trace)
      ensures got <==> !old(bc.buf)[old(user)[i].b].locked
      ensures !got ==> bc.buf == old(bc.buf) && user == old(user)
      ensures got ==>
                && user == old(user)[i := Reading(old(user)[i].b, old(user)[i].x)] && old(user)[i].x < |bc.view|
                && bc.buf == old(bc.buf)[user[i].b := Filled(old(bc.buf)[user[i].b], bc.view[user[i].x])]
      ensures State() == Locking(old(State()), i)
      ensures forall h :: 0 <= h < |user| && h != i ==> Kept(old(bc.buf), bc.buf, old(user)[h])
    {
      hide Coherent, Unique, ListOk, Refs, ReadersOk, Kept;
      Parts();
      var b, x := user[i].b, user[i].x;
      UserIs(bc.buf, user, i);
      var r := bc.Resume(b);
      got := r.Locked?;
      if got {
        LockRefs(old(bc.buf), user, i, bc.view[x]);
        LockReaders(old(bc.buf), bc.view, user, i, start, size);
        user := user[i := Reading(b, x)];
      }
      forall h | 0 <= h < |user| && h != i
        ensures Kept(old(bc.buf), bc.buf, old(user)[h])
      {
        if got {
          NotOthers(old(bc.buf), old(user), h, i);
          KeptStep(old(bc.buf), old(user), h, b, Filled(old(bc.buf)[b], bc.view[x]));
        } else {
          KeptRefl(old(bc.buf), old(user), h);
        }
      }
    }

    /** brelse. */
    method Release(i: int)
      requires Inv() && 0 <= i < |user| && user[i].Reading? && 0 <= user[i].b < |bc.buf|
      requires bc.buf[user[i].b].valid ==> 0 <= user[i].x < |bc.view| && bc.buf[user[i].b].data == bc.view[user[i].x]
      modifies `user, bc
      ensures Inv() && |bc.buf| == |old(bc.buf)| && user == old(user)[i := Out]
      ensures bc.disk == old(bc.disk) && bc.view == old(bc.view) && bc.pinned == old(bc.pinned) && bc.trace == old(bc.trace)
      ensures
        var b := old(user)[i].b;
        && 0 <= b < |old(bc.buf)|
        && bc.buf == old(bc.buf)[b := old(bc.buf)[b].(locked := false, refcnt := old(bc.buf)[b].refcnt - 1)]
        && (if bc.buf[b].refcnt > 0 then bc.released == old(bc.released) && bc.ring == old(bc.ring)
            else bc.released == old(bc.released) + [b] && b < |old(bc.pos)| && MovedFront(old(bc.ring), old(bc.pos)[b], bc.ring))
      ensures State() == Releasing(old(State()), i)
      ensures forall h :: 0 <= h < |user| && h != i ==> Kept(old(bc.buf), bc.buf, old(user)[h])
    {
      hide Coherent, Unique, ListOk, Refs, ReadersOk, Kept;
      Parts();
      var b := user[i].b;
      UserIs(bc.buf, user, i);
      bc.Brelse(b);
      DropRefs(old(bc.buf), user, i);
      DropReaders(old(bc.buf), bc.view, user, i, start, size);
      user := user[i := Out];
      forall h | 0 <= h < |user| && h != i
        ensures Kept(old(bc.buf), bc.buf, old(user)[h])
      {
        NotOthers(old(bc.buf), old(user), h, i);
        KeptStep(old(bc.buf), old(user), h, b, old(bc.buf)[b].(locked := false, refcnt := old(bc.buf)[b].refcnt - 1));
      }
    }

    /** A reader without a buffer begins a bread; true if the kernel panics because it finds no buffer. */
    method Begin(i: int, x: int) returns (halted: bool)
      requires Inv() && 2 <= i < |user| && user[i].Out?
      modifies `user, bc`buf
      ensures Inv() && |bc.buf| == |old(bc.buf)| && |user| == |old(user)| && user[0] == old(user)[0] && user[1] == old(user)[1]
      ensures halted == Halts(old(State()), i, x) && State() == Step(old(State()), i, x)
      ensures Kept(old(bc.buf), bc.buf, user[0]) && Kept(old(bc.buf), bc.buf, user[1])
      ensures halted ==> AllBusy(bc.buf)
      ensures Load(old(bc.buf), bc.pinned, old(user)) <= |bc.buf| ==> !halted
    {
      hide Coherent, Unique, ListOk, Refs, ReadersOk, Kept, NoBuffer, HeldLocked, AllBusy, Load, Picks, Step, Halts, Getting;
      Parts();
      StepIs(State(), i, x);
      if !(0 <= x < |bc.disk|) || start <= x < start + size {
        halted := false;
        KeptRefl(bc.buf, user, 0);
        KeptRefl(bc.buf, user, 1);
        return;
      }
      if Load(bc.buf, bc.pinned, user) <= |bc.buf| {
        ReaderFinds(bc.buf, bc.disk, bc.view, bc.pinned, user, i, x);
      }
      NoneIsBusy(bc.buf, x);
      var ok := Get(i, x);
      halted := !ok;
    }

    /** The next step of a reader; true if the kernel panics because it finds no buffer. */
    method TakeTurn(i: int, x: int) returns (halted: bool)
      requires Inv()
      modifies `user, bc
      ensures halted == Halts(old(State()), i, x) && State() == Step(old(State()), i, x)
      ensures Inv() && |bc.buf| == |old(bc.buf)| && |user| == |old(user)| && user[0] == old(user)[0] && user[1] == old(user)[1]
      ensures bc.disk == old(bc.disk) && bc.view == old(bc.view) && bc.pinned == old(bc.pinned) && bc.trace == old(bc.trace)
      ensures Kept(old(bc.buf), bc.buf, user[0]) && Kept(old(bc.buf), bc.buf, user[1])
      ensures halted ==> AllBusy(bc.buf)
      ensures Load(old(bc.buf), bc.pinned, old(user)) <= |bc.buf| ==> !halted
    {
      hide Coherent, Unique, ListOk, Refs, ReadersOk, Kept, AllBusy, Load, Step, Halts, Locking, Releasing;
      Parts();
      StepIs(State(), i, x);
      halted := false;
      if !(2 <= i < |user|) {
        KeptRefl(bc.buf, user, 0);
        KeptRefl(bc.buf, user, 1);
        return;
      }
      ReaderIs(bc.buf, bc.view, user, i, start, size);
      match user[i] {
        case Out =>
          halted := Begin(i, x);
        case Waiting(_, _) =>
          var got := Resume(i);
        case Reading(_, _) =>
          Release(i);
      }
    }

    /** The turns of readers up to the next one of the committing process. After the last turn they rest. */
    method RunOthers() returns (halted: bool)
      requires Inv()
      modifies this, bc
      ensures Inv() && |bc.buf| == |old(bc.buf)| && |user| == |old(user)| && user[0] == old(user)[0] && user[1] == old(user)[1]
      ensures bc.disk == old(bc.disk) && bc.view == old(bc.view) && bc.pinned == old(bc.pinned) && bc.trace == old(bc.trace)
      ensures Kept(old(bc.buf), bc.buf, user[0]) && Kept(old(bc.buf), bc.buf, user[1])
      ensures halted ==> AllBusy(bc.buf)
      ensures Load(bc.buf, bc.pinned, user) == Load(old(bc.buf), bc.pinned, old(user))
      ensures Load(old(bc.buf), bc.pinned, old(user)) <= |bc.buf| ==> !halted
      ensures if old(turns) == [] then !halted && turns == [] && bc.buf == old(bc.buf) && user == old(user) else |turns| < |old(turns)|
      ensures Ran(State(), turns, if halted then Panicked else Fine) == Others(old(State()), old(turns))
    {
      hide Coherent, Unique, ListOk, Refs, ReadersOk, Kept, AllBusy, Load, Others, Step, Halts, State;
      KeptRefl(bc.buf, user, 0);
      KeptRefl(bc.buf, user, 1);
      halted := false;
      while turns != []
        invariant Inv() && |bc.buf| == |old(bc.buf)| && |user| == |old(user)| && user[0] == old(user)[0] && user[1] == old(user)[1]
        invariant bc.disk == old(bc.disk) && bc.view == old(bc.view) && bc.pinned == old(bc.pinned) && bc.trace == old(bc.trace)
        invariant Kept(old(bc.buf), bc.buf, user[0]) && Kept(old(bc.buf), bc.buf, user[1])
        invariant Load(bc.buf, bc.pinned, user) == Load(old(bc.buf), bc.pinned, old(user))
        invariant (turns == old(turns) && bc.buf == old(bc.buf) && user == old(user)) || |turns| < |old(turns)|
        invariant !halted && Others(State(), turns) == Others(old(State()), old(turns))
        decreases |turns|
      {
        var t := turns[0];
        OthersNext(State(), turns);
        turns := turns[1..];
        if t.Committer? {
          return;
        }
        ghost var buf1, user1 := bc.buf, user;
        halted := TakeTurn(t.i, t.x);
        LoadKept(buf1, bc.buf, bc.pinned, user1, user);
        KeptTrans(old(bc.buf), buf1, bc.buf, user[0]);
        KeptTrans(old(bc.buf), buf1, bc.buf, user[1]);
        if halted {
          return;
        }
      }
      OthersNext(State(), turns);
    }

    /** acquiresleep by the committing process, which has a reference; readers are at work while it waits. */
    method Await(h: int) returns (r: Outcome)
      requires Inv() && 0 <= h < 2 && user[h].Waiting? && 0 <= user[h].x < |bc.disk|
      modifies this, bc
      ensures Inv() && |bc.buf| == |old(bc.buf)| && |user| == |old(user)| && user[1 - h] == old(user)[1 - h]
      ensures bc.disk == old(bc.disk) && bc.view == old(bc.view) && bc.pinned == old(bc.pinned) && bc.trace == old(bc.trace)
      ensures Kept(old(bc.buf), bc.buf, user[1 - h])
      ensures r.Fine? ==> old(user)[h].x < |bc.view| && Has(bc.buf, user[h], old(user)[h].x, bc.view[old(user)[h].x])
      ensures r.Panicked? ==> AllBusy(bc.buf)
      ensures r.Asleep? ==> turns == [] && user[h] == old(user)[h] && HeldLocked(bc.buf, ROOTDEV, user[h].x)
      ensures Load(bc.buf, bc.pinned, user) == Load(old(bc.buf), bc.pinned, old(user))
      ensures Load(old(bc.buf), bc.pinned, old(user)) <= |bc.buf| ==> !r.Panicked?
      ensures old(turns) == [] ==>
                && turns == [] && !r.Panicked? && user == old(user)[h := user[h]]
                && 0 <= old(user)[h].b < |bc.buf| && (r.Asleep? <==> old(bc.buf)[old(user)[h].b].locked)
      ensures Ran(State(), turns, r) == Awaiting(old(State()), old(turns), h)
    {
      hide Coherent, Unique, ListOk, Refs, ReadersOk, Kept, NoBuffer, HeldLocked, AllBusy, Load, Locking, Awaiting, State, Others;
      KeptRefl(bc.buf, user, 1 - h);
      UserIs(bc.buf, user, h);
      while true
        invariant Inv() && |bc.buf| == |old(bc.buf)| && |user| == |old(user)| && user[1 - h] == old(user)[1 - h]
        invariant bc.disk == old(bc.disk) && bc.view == old(bc.view) && bc.pinned == old(bc.pinned) && bc.trace == old(bc.trace)
        invariant Kept(old(bc.buf), bc.buf, user[1 - h]) && Load(bc.buf, bc.pinned, user) == Load(old(bc.buf), bc.pinned, old(user))
        invariant user[h] == old(user)[h] && (old(turns) == [] ==> turns == [] && user == old(user) && bc.buf == old(bc.buf))
        invariant Awaiting(State(), turns, h) == Awaiting(old(State()), old(turns), h)
        decreases |turns|
      {
        StateIs();
        AwaitingNext(State(), turns, h);
        ghost var buf1, user1 := bc.buf, user;
        UserIs(bc.buf, user, h);
        var got := Resume(h);
        LoadLock(buf1, bc.buf, bc.pinned, user1, user, h);
        KeptTrans(old(bc.buf), buf1, bc.buf, user[1 - h]);
        if got {
          return Fine;
        }
        if turns == [] {
          HeldIs(bc.buf, user, h);
          return Outcome.Asleep;
        }
        ghost var buf2, user2 := bc.buf, user;
        var halted := RunOthers();
        KeptTrans(old(bc.buf), buf2, bc.buf, user[1 - h]);
        if halted {
          return Panicked;
        }
      }
    }

    /** bread by the committing process, with readers at work before it and while it waits. */
    method Read(h: int, x: int) returns (r: Outcome)
      requires Inv() && 0 <= h < 2 && user[h].Out? && 0 <= x < |bc.disk| && (!user[1 - h].Out? ==> user[1 - h].x != x)
      modifies this, bc
      ensures Inv() && |bc.buf| == |old(bc.buf)| && |user| == |old(user)| && user[1 - h] == old(user)[1 - h]
      ensures bc.disk == old(bc.disk) && bc.view == old(bc.view) && bc.pinned == old(bc.pinned) && bc.trace == old(bc.trace)
      ensures Kept(old(bc.buf), bc.buf, user[1 - h])
      ensures r.Fine? ==> user[h].Reading? && user[h].x == x && Settled(bc.buf, bc.view, user[h])
      ensures r.Panicked? ==> AllBusy(bc.buf)
      ensures r.Asleep? ==> turns == [] && Locks(user, x)
      ensures
        var more := More(bc.pinned, x);
        Load(old(bc.buf), bc.pinned, old(user)) + more <= |bc.buf| ==>
          !r.Panicked? && Load(bc.buf, bc.pinned, user) <= Load(old(bc.buf), bc.pinned, old(user)) + more
      ensures old(turns) == [] ==>
                && turns == [] && (r.Panicked? <==> NoBuffer(old(bc.buf), ROOTDEV, x)) && (r.Asleep? <==> Locks(old(user), x))
                && user == old(user)[h := user[h]]
      ensures Ran(State(), turns, r) == Breading(old(State()), old(turns), h, x)
    {
      hide Coherent, Unique, ListOk, Refs, ReadersOk, Kept, NoBuffer, HeldLocked, AllBusy, Load, Has, Locks, Settled, Fetching, Awaiting, State;
      Parts();
      LocksIs(bc.buf, user, x);
      NotLocked(bc.buf, ROOTDEV, x);
      var ok := Fetch(h, x);
      if !ok {
        return Panicked;
      }
      ghost var buf1 := bc.buf;
      r := Await(h);
      KeptTrans(old(bc.buf), buf1, bc.buf, user[1 - h]);
      if r.Fine? {
        HasSettled(bc.buf, bc.view, user[h], x);
      } else if r.Asleep? {
        Parts();
        LocksIs(bc.buf, user, x);
      }
    }

    /** The bget of such a bread; false if the kernel has panicked. */
    method Fetch(h: int, x: int) returns (ok: bool)
      requires Inv() && 0 <= h < 2 && user[h].Out? && 0 <= x < |bc.disk|
      modifies this, bc
      ensures Inv() && |bc.buf| == |old(bc.buf)| && |user| == |old(user)| && user[1 - h] == old(user)[1 - h]
      ensures bc.disk == old(bc.disk) && bc.view == old(bc.view) && bc.pinned == old(bc.pinned) && bc.trace == old(bc.trace)
      ensures Kept(old(bc.buf), bc.buf, user[1 - h])
      ensures ok ==> user[h].Waiting? && user[h].x == x
      ensures !ok ==> AllBusy(bc.buf)
      ensures
        var more := More(bc.pinned, x);
        Load(old(bc.buf), bc.pinned, old(user)) + more <= |bc.buf| ==>
          ok && Load(bc.buf, bc.pinned, user) <= Load(old(bc.buf), bc.pinned, old(user)) + more
      ensures old(turns) == [] ==>
                && turns == [] && user == old(user)[h := user[h]] && (ok <==> !NoBuffer(old(bc.buf), ROOTDEV, x))
                && (ok ==> 0 <= user[h].b < |bc.buf| && (bc.buf[user[h].b].locked <==> HeldLocked(old(bc.buf), ROOTDEV, x)))
      ensures Ran(State(), turns, if ok then Fine else Panicked) == Fetching(old(State()), old(turns), h, x)
    {
      hide Coherent, Unique, ListOk, Refs, ReadersOk, Kept, NoBuffer, HeldLocked, AllBusy, Load, Others, Getting, State, Picks;
      var halted := RunOthers();
      StateIs();
      if halted {
        return false;
      }
      ghost var buf1, user1 := bc.buf, user;
      Parts();
      BeforeGet(bc.buf, bc.disk, bc.view, bc.pinned, user, x);
      ok := Get(h, x);
      if !ok {
        return;
      }
      Parts();
      AfterGet(buf1, user1, bc.buf, bc.disk, bc.view, bc.pinned, user, h);
      KeptTrans(old(bc.buf), buf1, bc.buf, user[1 - h]);
      ghost var buf2 := bc.buf;
      halted := RunOthers();
      KeptTrans(old(bc.buf), buf2, bc.buf, user[1 - h]);
      ok := !halted;
    }

    /** The committing process fills its buffer. */
    method Modify(h: int, data: Block)
      requires Inv() && 0 <= h < 2 && user[h].Reading? && 0 <= user[h].b < |bc.buf|
      modifies bc`buf
      ensures Inv() && bc.buf == old(bc.buf)[user[h].b := old(bc.buf)[user[h].b].(data := data)]
      ensures Kept(old(bc.buf), bc.buf, user[1 - h]) && Load(bc.buf, bc.pinned, user) == Load(old(bc.buf), bc.pinned, user)
    {
      hide Coherent, Unique, ListOk, Refs, ReadersOk, Kept;
      Parts();
      UserIs(bc.buf, user, h);
      NotOthers(bc.buf, user, h, 1 - h);
      SetRefs(bc.buf, user, user[h].b, bc.buf[user[h].b].(data := data));
      SetReaders(bc.buf, bc.view, user, h, bc.buf[user[h].b].(data := data), bc.view, start, size);
      KeptStep(bc.buf, user, 1 - h, user[h].b, bc.buf[user[h].b].(data := data));
      bc.Modify(user[h].b, data);
    }

    /** bwrite. */
    method Write(h: int)
      requires Inv() && 0 <= h < 2 && user[h].Reading? && 0 <= user[h].b < |bc.buf| && bc.buf[user[h].b].valid
      requires !user[1 - h].Out? ==> user[1 - h].x != user[h].x
      modifies bc
      ensures Inv() && |bc.buf| == |old(bc.buf)| && 0 <= user[h].x < |old(bc.view)| == |old(bc.disk)|
      ensures bc.buf == old(bc.buf)[user[h].b := old(bc.buf)[user[h].b].(dirty := false)]
      ensures bc.disk == old(bc.disk)[user[h].x := bc.buf[user[h].b].data] && bc.trace == old(bc.trace) + [bc.disk]
      ensures bc.view == old(bc.view)[user[h].x := bc.buf[user[h].b].data] && bc.pinned == old(bc.pinned) - {user[h].x}
      ensures Kept(old(bc.buf), bc.buf, user[1 - h]) && Load(bc.buf, bc.pinned, user) == Load(old(bc.buf), old(bc.pinned), user)
    {
      hide Coherent, Unique, ListOk, Refs, ReadersOk, Kept, Load;
      Parts();
      var b, x := user[h].b, user[h].x;
      UserIs(bc.buf, user, h);
      OtherBuffer(bc.buf, user, h);
      bc.Bwrite(b);
      SetRefs(old(bc.buf), user, b, bc.buf[b]);
      SetReaders(old(bc.buf), old(bc.view), user, h, bc.buf[b], bc.view, start, size);
      KeptClean(old(bc.buf), user, 1 - h, b, bc.buf[b]);
      LoadWrite(old(bc.buf), old(bc.disk), old(bc.view), old(bc.pinned), user, h);
    }

    /** The committing process has no buffer. */
    ghost predicate Free()
      reads this
    {
      |user| >= 2 && user[0].Out? && user[1].Out?
    }

    lemma FreeParts()
      requires Free()
      ensures |user| >= 2 && user[0].Out? && user[1].Out?
    {
    }

    lemma FreeWhole()
      requires |user| >= 2 && user[0].Out? && user[1].Out?
      ensures Free()
    {
    }

    /** Two breads. */
    method ReadTwo(x: int, y: int) returns (r: Outcome)
      requires Inv() && Free() && 0 <= x < |bc.disk| && 0 <= y < |bc.disk| && x != y
      modifies this, bc
      ensures Inv() && |bc.buf| == |old(bc.buf)| && |user| == |old(user)|
      ensures bc.disk == old(bc.disk) && bc.view == old(bc.view) && bc.pinned == old(bc.pinned) && bc.trace == old(bc.trace)
      ensures r.Fine? ==>
                && |bc.view| == |bc.disk| && user[0].Reading? && user[0].x == x && user[1].Reading? && user[1].x == y
                && Settled(bc.buf, bc.view, user[0]) && Settled(bc.buf, bc.view, user[1])
      ensures r.Panicked? ==> AllBusy(bc.buf)
      ensures r.Asleep? ==> turns == [] && (Locks(user, x) || Locks(user, y))
      ensures
        var more := More(bc.pinned, x) + More(bc.pinned, y);
        |bc.pinned| + |user| - 2 + more <= |bc.buf| ==>
          !r.Panicked? && Load(bc.buf, bc.pinned, user) <= |bc.pinned| + |user| - 2 + more
      ensures old(turns) == [] && y in bc.pinned ==>
                && turns == [] && (r.Panicked? <==> NoBuffer(old(bc.buf), ROOTDEV, x))
                && (r.Asleep? <==> !r.Panicked? && (Locks(old(user), x) || Locks(old(user), y)))
                && user == old(user)[0 := user[0]][1 := user[1]]
      ensures Ran(State(), turns, r) == BreadingTwo(old(State()), old(turns), x, y)
    {
      hide Coherent, Unique, ListOk, Refs, ReadersOk, Kept, NoBuffer, AllBusy, Load, Locks, Settled, Breading, State;
      LoadFree(bc.buf, bc.pinned, user);
      r := Read(0, x);
      if !r.Fine? {
        return;
      }
      LocksSet(old(user), 0, user[0], y);
      if y in bc.pinned {
        Parts();
        PinnedIsCached(bc.buf, bc.disk, bc.view, bc.pinned, y);
      }
      ghost var buf1 := bc.buf;
      r := Read(1, y);
      SettledKept(buf1, bc.buf, bc.view, user[0]);
    }

    /** The committing process copies its other buffer into buffer `h` and writes that through. */
    method CopyInto(h: int)
      requires Inv() && 0 <= h < 2 && Settled(bc.buf, bc.view, user[0]) && Settled(bc.buf, bc.view, user[1])
      requires user[0].Reading? && user[1].Reading? && user[0].x != user[1].x
      modifies bc
      ensures Inv() && |bc.buf| == |old(bc.buf)| && |bc.view| == |bc.disk|
      ensures Settled(bc.buf, bc.view, user[0]) && Settled(bc.buf, bc.view, user[1])
      ensures
        var x, y := user[h].x, user[1 - h].x;
        && 0 <= x < |old(bc.view)| == |old(bc.disk)| && 0 <= y < |old(bc.view)|
        && bc.view == old(bc.view)[x := old(bc.view)[y]] && bc.disk == old(bc.disk)[x := old(bc.view)[y]]
        && bc.trace == old(bc.trace) + [bc.disk] && bc.pinned == old(bc.pinned) - {x}
      ensures Load(bc.buf, bc.pinned, user) == Load(old(bc.buf), old(bc.pinned), user)
    {
      hide Coherent, Unique, ListOk, Refs, ReadersOk, Kept, Load;
      SettledIs(bc.buf, bc.view, user[h]);
      SettledIs(bc.buf, bc.view, user[1 - h]);
      OtherBuffer(bc.buf, user, h);
      Modify(h, bc.buf[user[1 - h].b].data);
      Write(h);
    }

    /** Two brelses, with readers at work before each; true if the kernel has panicked. */
    method ReleaseBoth(first: int) returns (halted: bool)
      requires Inv() && 0 <= first < 2 && |bc.view| == |bc.disk|
      requires Settled(bc.buf, bc.view, user[0]) && Settled(bc.buf, bc.view, user[1])
      modifies this, bc
      ensures Inv() && |bc.buf| == |old(bc.buf)| && |user| == |old(user)|
      ensures bc.disk == old(bc.disk) && bc.view == old(bc.view) && bc.pinned == old(bc.pinned) && bc.trace == old(bc.trace)
      ensures if halted then AllBusy(bc.buf) else Free()
      ensures Load(old(bc.buf), bc.pinned, old(user)) <= |bc.buf| ==> !halted
      ensures old(turns) == [] ==> !halted && turns == [] && user == old(user)[0 := Out][1 := Out]
      ensures old(turns) == [] && old(user)[0].Reading? && start <= old(user)[0].x < start + size && old(user)[0].x !in bc.pinned ==>
                !AllBusy(bc.buf)
      ensures Ran(State(), turns, if halted then Panicked else Fine) == BrelsingTwo(old(State()), old(turns), first)
    {
      hide Coherent, Unique, ListOk, Refs, ReadersOk, Kept, AllBusy, Settled, SameBlocks, Load, Brelsing, State;
      SettledIs(bc.buf, bc.view, user[0]);
      halted := ReleaseNext(first);
      BrelsingFine(old(State()), old(turns), first);
      if halted {
        return;
      }
      SettledKept(old(bc.buf), bc.buf, bc.view, user[1 - first]);
      ghost var buf1 := bc.buf;
      halted := ReleaseNext(1 - first);
      BrelsingFine(State(), turns, 1 - first);
      if old(turns) == [] {
        SameTrans(old(bc.buf), buf1, bc.buf);
        Parts();
        ReleasedIdle(old(bc.buf), bc.buf, bc.disk, bc.view, bc.pinned, user, old(user)[0].b, old(user)[0].x, start, size);
      }
    }

    /** One brelse, after the turns of readers. */
    method ReleaseNext(h: int) returns (halted: bool)
      requires Inv() && 0 <= h < 2 && |bc.view| == |bc.disk|
      requires Settled(bc.buf, bc.view, user[h])
      modifies this, bc
      ensures Inv() && |bc.buf| == |old(bc.buf)| && |user| == |old(user)| && user[1 - h] == old(user)[1 - h]
      ensures bc.disk == old(bc.disk) && bc.view == old(bc.view) && bc.pinned == old(bc.pinned) && bc.trace == old(bc.trace)
      ensures Kept(old(bc.buf), bc.buf, user[1 - h])
      ensures if halted then AllBusy(bc.buf) else user[h].Out?
      ensures Load(old(bc.buf), bc.pinned, old(user)) <= |bc.buf| ==> !halted && Load(bc.buf, bc.pinned, user) <= |bc.buf|
      ensures old(turns) == [] ==> !halted && turns == [] && user == old(user)[h := Out] && SameBlocks(old(bc.buf), bc.buf)
      ensures old(turns) == [] && old(user)[1 - h].Out? && old(user)[h].Reading? && start <= old(user)[h].x < start + size ==>
                old(user)[h].x in bc.pinned || !AllBusy(bc.buf)
      ensures Ran(State(), turns, if halted then Panicked else Fine) == Brelsing(old(State()), old(turns), h)
    {
      hide Coherent, Unique, ListOk, Refs, ReadersOk, Kept, AllBusy, Settled, Load, Others, Releasing;
      SettledIs(bc.buf, bc.view, user[h]);
      halted := RunOthers();
      if halted {
        return;
      }
      SettledKept(old(bc.buf), bc.buf, bc.view, user[h]);
      SettledIs(bc.buf, bc.view, user[h]);
      ghost var buf1, user1 := bc.buf, user;
      Release(h);
      KeptTrans(old(bc.buf), buf1, bc.buf, user[1 - h]);
      LoadLess(buf1, bc.buf, bc.pinned, user1, user, h);
      if user[1 - h].Out? {
        Parts();
        SettledIs(buf1, bc.view, user1[h]);
        ReleasedIdle(buf1, bc.buf, bc.disk, bc.view, bc.pinned, user, user1[h].b, user1[h].x, start, size);
      }
    }
  }

  /** Some reader has the lock of block `x`. */
  ghost predicate Locks(user: seq<User>, x: int) {
    exists i :: 2 <= i < |user| && user[i].Reading? && user[i].x == x
  }

  lemma LocksIs(buf: seq<Buf>, user: seq<User>, x: int)
    requires Refs(buf, user) && Unique(buf) && forall h :: 0 <= h < 2 && h < |user| && user[h].Reading? ==> user[h].x != x
    ensures HeldLocked(buf, ROOTDEV, x) <==> Locks(user, x)
  {
    if HeldLocked(buf, ROOTDEV, x) {
      var b :| 0 <= b < |buf| && Caches(buf[b], ROOTDEV, x) && buf[b].locked;
      assert Locker(user, b);
      var i :| 0 <= i < |user| && user[i].Reading? && user[i].b == b;
      assert UserOk(buf, user[i]);
    }
    if Locks(user, x) {
      var i :| 2 <= i < |user| && user[i].Reading? && user[i].x == x;
      assert UserOk(buf, user[i]);
    }
  }

  lemma LocksSet(user: seq<User>, h: int, u: User, y: int)
    requires 0 <= h < 2 <= |user|
    ensures Locks(user[h := u], y) <==> Locks(user, y)
  {
    if Locks(user, y) {
      var i :| 2 <= i < |user| && user[i].Reading? && user[i].x == y;
      assert user[h := u][i].Reading? && user[h := u][i].x == y;
    }
  }

  lemma LoadFree(buf: seq<Buf>, pinned: map<int, int>, user: seq<User>)
    requires |user| >= 2 && user[0].Out? && user[1].Out?
    ensures Load(buf, pinned, user) == |pinned| + |user| - 2
  {
  }

  lemma LoadLess(buf: seq<Buf>, buf': seq<Buf>, pinned: map<int, int>, user: seq<User>, user': seq<User>, h: int)
    requires |user| >= 2 && 0 <= h < 2 && user' == user[h := Out] && Kept(buf, buf', user[1 - h])
    ensures Load(buf', pinned, user') <= Load(buf, pinned, user)
  {
  }

  /** User `u` has the locked buffer of a block with the contents it is meant to have. */
  ghost predicate Settled(buf: seq<Buf>, view: seq<Block>, u: User) {
    u.Reading? && 0 <= u.x < |view| && Has(buf, u, u.x, view[u.x])
  }

  lemma SettledIs(buf: seq<Buf>, view: seq<Block>, u: User)
    requires Settled(buf, view, u)
    ensures u.Reading? && 0 <= u.b < |buf| && 0 <= u.x < |view| && buf[u.b].data == view[u.x] && Caches(buf[u.b], ROOTDEV, u.x)
    ensures buf[u.b].dev == ROOTDEV && buf[u.b].blockno == u.x && buf[u.b].locked && buf[u.b].valid
  {
  }

  lemma SettledIntro(buf: seq<Buf>, view: seq<Block>, u: User)
    requires u.Reading? && 0 <= u.b < |buf| && 0 <= u.x < |view| && buf[u.b].data == view[u.x] && buf[u.b].dev == ROOTDEV
    requires buf[u.b].blockno == u.x && buf[u.b].locked && buf[u.b].valid
    ensures Settled(buf, view, u)
  {
  }

  lemma HasSettled(buf: seq<Buf>, view: seq<Block>, u: User, x: int)
    requires 0 <= x < |view| && Has(buf, u, x, view[x])
    ensures Settled(buf, view, u) && u.Reading? && u.x == x
  {
  }

  lemma SettledKept(buf: seq<Buf>, buf': seq<Buf>, view: seq<Block>, u: User)
    requires Settled(buf, view, u) && Kept(buf, buf', u)
    ensures Settled(buf', view, u)
  {
  }

  ghost predicate SameBlocks(buf: seq<Buf>, buf': seq<Buf>) {
    |buf'| == |buf| && forall b {:trigger buf'[b]} :: 0 <= b < |buf| ==> buf'[b].dev == buf[b].dev && buf'[b].blockno == buf[b].blockno
  }

  lemma SameTrans(buf0: seq<Buf>, buf1: seq<Buf>, buf2: seq<Buf>)
    requires SameBlocks(buf0, buf1) && SameBlocks(buf1, buf2)
    ensures SameBlocks(buf0, buf2)
  {
  }

  /** No reader uses the buffer of a log block, so it is idle when the committing process has none. */
  lemma ReleasedIdle(buf0: seq<Buf>, buf: seq<Buf>, disk: Disk, view: seq<Block>, pinned: map<int, int>, user: seq<User>, b: int, x: int,
                     start: int, size: int)
    requires Coherent(buf, disk, view, pinned) && Refs(buf, user) && ReadersOk(buf, view, user, start, size) && SameBlocks(buf0, buf)
    requires |user| >= 2 && user[0].Out? && user[1].Out? && 0 <= b < |buf0| && Caches(buf0[b], ROOTDEV, x)
    ensures start <= x < start + size && x !in pinned ==> !AllBusy(buf)
  {
    if start <= x < start + size && x !in pinned {
      LogBlockIdle(buf, disk, view, pinned, user, b, x, start, size);
    }
  }

  lemma LogBlockIdle(buf: seq<Buf>, disk: Disk, view: seq<Block>, pinned: map<int, int>, user: seq<User>, b: int, x: int, start: int, size: int)
    requires Coherent(buf, disk, view, pinned) && Refs(buf, user) && ReadersOk(buf, view, user, start, size)
    requires |user| >= 2 && user[0].Out? && user[1].Out? && 0 <= b < |buf| && Caches(buf[b], ROOTDEV, x)
    requires start <= x < start + size && x !in pinned
    ensures Idle(buf[b])
  {
    assert BufOk(buf[b], b, view, pinned);
    forall i | 0 <= i < |user|
      ensures !Uses(b)(user[i])
    {
      assert UserOk(buf, user[i]) && (i >= 2 ==> ReaderOk(buf, view, user[i], start, size));
    }
    CountNone(user, Uses(b));
  }

  /** With every buffer busy none holds a log block, so the committing process finds no buffer for one. */
  lemma BusyNoLog(buf: seq<Buf>, disk: Disk, view: seq<Block>, pinned: map<int, int>, user: seq<User>, x: int, start: int, size: int)
    requires Coherent(buf, disk, view, pinned) && Refs(buf, user) && ReadersOk(buf, view, user, start, size)
    requires |user| >= 2 && user[0].Out? && user[1].Out? && start <= x < start + size && x !in pinned
    ensures NoBuffer(buf, ROOTDEV, x) <==> AllBusy(buf)
    ensures !Locks(user, x)
  {
    forall b | 0 <= b < |buf| && Caches(buf[b], ROOTDEV, x)
      ensures Idle(buf[b])
    {
      LogBlockIdle(buf, disk, view, pinned, user, b, x, start, size);
    }
    forall i | 0 <= i < |user| && user[i].Reading?
      ensures user[i].x != x
    {
      assert i >= 2 ==> ReaderOk(buf, view, user[i], start, size);
    }
  }

  lemma KeptClean(buf: seq<Buf>, user: seq<User>, o: int, b: int, n: Buf)
    requires Refs(buf, user) && 0 <= o < |user| && 0 <= b < |buf| && (!user[o].Out? ==> user[o].b != b)
    ensures Kept(buf, buf[b := n], user[o])
  {
    assert UserOk(buf, user[o]);
  }

  /** The committing process works on two different buffers. */
  lemma OtherBuffer(buf: seq<Buf>, user: seq<User>, h: int)
    requires Refs(buf, user) && 0 <= h < 2 <= |user| && !user[h].Out? && (!user[1 - h].Out? ==> user[1 - h].x != user[h].x)
    ensures !user[1 - h].Out? ==> user[1 - h].b != user[h].b
  {
    assert UserOk(buf, user[h]) && UserOk(buf, user[1 - h]);
  }

  /** A write-through makes a dirty buffer clean and its block unpinned. */
  lemma LoadWrite(buf: seq<Buf>, disk: Disk, view: seq<Block>, pinned: map<int, int>, user: seq<User>, h: int)
    requires Coherent(buf, disk, view, pinned) && Refs(buf, user) && 0 <= h < 2 <= |user| && user[h].Reading? && 0 <= user[h].b < |buf|
    requires !user[1 - h].Out? ==> user[1 - h].b != user[h].b
    ensures Load(buf[user[h].b := buf[user[h].b].(dirty := false)], pinned - {user[h].x}, user) == Load(buf, pinned, user)
  {
    var b, x := user[h].b, user[h].x;
    UserIs(buf, user, h);
    if buf[b].dirty {
      assert BufOk(buf[b], b, view, pinned);
      assert |pinned - {x}| == |pinned| - 1;
    } else {
      UnreadIsClean(buf, disk, view, pinned, b);
      assert pinned - {x} == pinned;
    }
  }

  /** Before a bread of the committing process. */
  lemma BeforeGet(buf: seq<Buf>, disk: Disk, view: seq<Block>, pinned: map<int, int>, user: seq<User>, x: int)
    requires Coherent(buf, disk, view, pinned) && Refs(buf, user) && |user| >= 2
    ensures Load(buf, pinned, user) + (if x in pinned then 0 else 1) <= |buf| ==> !NoBuffer(buf, ROOTDEV, x)
    ensures NoBuffer(buf, ROOTDEV, x) ==> AllBusy(buf)
  {
    if x in pinned {
      PinnedIsCached(buf, disk, view, pinned, x);
    } else if Load(buf, pinned, user) < |buf| {
      CommitFinds(buf, disk, view, pinned, user, x);
    }
  }

  lemma AfterGet(buf0: seq<Buf>, user0: seq<User>, buf: seq<Buf>, disk: Disk, view: seq<Block>, pinned: map<int, int>, user: seq<User>, h: int)
    requires Coherent(buf, disk, view, pinned) && Refs(buf, user) && |user| == |user0| >= 2 && 0 <= h < 2 && user == user0[h := user[h]]
    requires user0[h].Out? && !user[h].Out? && Kept(buf0, buf, user[1 - h])
    ensures Load(buf, pinned, user) <= Load(buf0, pinned, user0) + (if user[h].x in pinned then 0 else 1)
  {
    hide Coherent, Load;
    UserIs(buf, user, h);
    LoadMore(buf0, buf, pinned, user0, user, h);
    if user[h].x in pinned {
      PinnedIsCached(buf, disk, view, pinned, user[h].x);
    }
  }

  /** Getting the lock does not change the load. */
  lemma LoadLock(buf: seq<Buf>, buf': seq<Buf>, pinned: map<int, int>, user: seq<User>, user': seq<User>, h: int)
    requires |user| == |user'| >= 2 && 0 <= h < 2 && user' == user[h := user'[h]] && |buf'| == |buf| && Kept(buf, buf', user[1 - h])
    requires !user[h].Out? && !user'[h].Out? && user'[h].b == user[h].b && 0 <= user[h].b < |buf| && buf'[user[h].b].dirty == buf[user[h].b].dirty
    ensures Load(buf', pinned, user') == Load(buf, pinned, user)
  {
  }

  lemma HeldIs(buf: seq<Buf>, user: seq<User>, h: int)
    requires Refs(buf, user) && 0 <= h < |user| && !user[h].Out? && 0 <= user[h].b < |buf| && buf[user[h].b].locked
    ensures HeldLocked(buf, ROOTDEV, user[h].x)
  {
    assert UserOk(buf, user[h]);
  }

  /** User `u` has the locked buffer of block `x`, holding `data`. */
  ghost predicate Has(buf: seq<Buf>, u: User, x: int, data: Block) {
    && u.Reading? && u.x == x && 0 <= u.b < |buf|
    && buf[u.b].dev == ROOTDEV && buf[u.b].blockno == x && buf[u.b].locked && buf[u.b].valid && buf[u.b].data == data
  }

  lemma UserIs(buf: seq<Buf>, user: seq<User>, i: int)
    requires Refs(buf, user) && 0 <= i < |user| && !user[i].Out?
    ensures 0 <= user[i].b < |buf| && buf[user[i].b].dev == ROOTDEV && buf[user[i].b].blockno == user[i].x && buf[user[i].b].refcnt >= 1
    ensures user[i].Reading? ==> buf[user[i].b].locked
  {
    assert UserOk(buf, user[i]);
    UsedOnce(user, i);
  }
}
