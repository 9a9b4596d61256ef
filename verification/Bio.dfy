/**
 The buffer cache of Offline 3/xv6/bio.c over the block disk of Offline 3/xv6/memide.c.

 Buffers are indices below N = |buf|; index N stands for the list head. Every write of a block
 to the disk is recorded in the ghost `trace`, so that a crash can be placed between any two of
 them. The ghost `view` is the contents the file system means each block to have: it changes
 only when a modified buffer is handed to bwrite or log_write.
 */
module Bio {
  import opened Wrappers

  const ROOTDEV := 1

  type Block = seq<int>
  type Disk = seq<Block>

  datatype Buf = Buf(dev: int, blockno: int, refcnt: int, locked: bool, valid: bool, dirty: bool, data: Block)

  // ---------------------------------------------------------------------------------------------
  // The doubly linked list
  // ---------------------------------------------------------------------------------------------

  /** `ring` walks from the head `n` through every buffer once and back to the head; `pos` inverts it. */
  ghost predicate Tour(ring: seq<int>, pos: seq<int>, n: int) {
    && n >= 0 && |ring| == n + 2 && |pos| == n && ring[0] == n && ring[n + 1] == n
    && (forall i :: 1 <= i <= n ==> 0 <= ring[i] < n && pos[ring[i]] == i)
    && (forall b :: 0 <= b < n ==> 1 <= pos[b] <= n && ring[pos[b]] == b)
  }

  /** next and prev thread exactly the nodes of `ring`, in order, in both directions. */
  ghost predicate Threaded(next: seq<int>, prev: seq<int>, ring: seq<int>, n: int) {
    && n >= 0 && |next| == n + 1 && |prev| == n + 1 && |ring| == n + 2
    && (forall i :: 0 <= i <= n + 1 ==> 0 <= ring[i] <= n)
    && (forall i, j :: 0 <= i <= n && j == i + 1 ==> next[ring[i]] == ring[j])
    && (forall i, j :: 0 <= i <= n && j == i + 1 ==> prev[ring[j]] == ring[i])
  }

  /** When `b` was last released: its last place in the history `released`, -1 if it is not there. */
  ghost function LastAt(released: seq<int>, b: int): (t: int)
    ensures -1 <= t < |released|
    decreases |released|
  {
    if released == [] then -1
    else if released[|released| - 1] == b then |released| - 1
    else LastAt(released[..|released| - 1], b)
  }

  lemma {:induction false} LastAtMore(released: seq<int>, x: int, b: int)
    ensures LastAt(released + [x], b) == if b == x then |released| else LastAt(released, b)
  {
    assert (released + [x])[..|released|] == released;
  }

  /** The history that binit starts: it has put the buffers on the list one after the other. */
  ghost function InOrder(n: nat): (h: seq<int>)
    ensures |h| == n
    decreases n
  {
    if n == 0 then [] else InOrder(n - 1) + [n - 1]
  }

  lemma {:induction false} InOrderAt(n: nat, b: int)
    requires 0 <= b < n
    ensures LastAt(InOrder(n), b) == b
    decreases n
  {
    LastAtMore(InOrder(n - 1), n - 1, b);
    if b < n - 1 {
      InOrderAt(n - 1, b);
    }
  }

  /** The buffers of the list are in the order of their last release, latest first. */
  ghost predicate ByRelease(ring: seq<int>, released: seq<int>, n: int) {
    && n >= 0 && |ring| == n + 2
    && (forall i :: 1 <= i <= n ==> 0 <= ring[i] < n)
    && (forall i, j :: 1 <= i < j <= n ==> LastAt(released, ring[j]) < LastAt(released, ring[i]))
  }

  /** `ring'` is `ring` with position `k` moved right behind the head. */
  ghost predicate MovedFront(ring: seq<int>, k: int, ring': seq<int>) {
    && 1 <= k < |ring| - 1 && |ring'| == |ring|
    && (forall i {:trigger ring'[i]} :: 0 <= i < |ring'| ==>
          ring'[i] == if i == 0 then ring[0] else if i == 1 then ring[k] else if i <= k then ring[i - 1] else ring[i])
  }

  /** What brelse does to the links of `b`, whose neighbours are `a` and `c`: `first` is then first. */
  function NextAfter(next: seq<int>, n: int, a: int, b: int, c: int, first: int): seq<int>
    requires 0 <= n < |next| && 0 <= a < |next| && 0 <= b < |next|
  {
    next[a := c][b := first][n := b]
  }

  function PrevAfter(prev: seq<int>, n: int, a: int, b: int, c: int, first: int): seq<int>
    requires 0 <= c < |prev| && 0 <= b < |prev| && 0 <= first < |prev|
  {
    prev[c := a][b := n][first := b]
  }

  lemma Neighbours(next: seq<int>, prev: seq<int>, ring: seq<int>, pos: seq<int>, n: int, k: int)
    requires Tour(ring, pos, n) && Threaded(next, prev, ring, n) && 1 <= k <= n
    ensures 0 <= ring[k] < n && 0 <= ring[k - 1] <= n && 0 <= ring[k + 1] <= n && 0 <= ring[1] <= n
    ensures next[ring[k]] == ring[k + 1] && prev[ring[k]] == ring[k - 1]
    ensures next[ring[k - 1] := ring[k + 1]][n] == if k == 1 then ring[2] else ring[1]
    ensures ring[k + 1] != ring[k] && ring[k - 1] != ring[k]
  {
    assert k > 1 ==> pos[ring[k - 1]] == k - 1;
    assert k < n ==> pos[ring[k + 1]] == k + 1;
    assert next[ring[0]] == ring[1];
  }

  lemma NextAfterAt(next: seq<int>, prev: seq<int>, ring: seq<int>, pos: seq<int>, n: int, k: int, first: int, i: int)
    requires Tour(ring, pos, n) && Threaded(next, prev, ring, n) && 1 <= k <= n && 0 <= i <= n
    requires first == (if k == 1 then ring[2] else ring[1])
    ensures NextAfter(next, n, ring[k - 1], ring[k], ring[k + 1], first)[ring[i]] ==
            if i == 0 then ring[k] else if i == k then first else if i == k - 1 then ring[k + 1] else ring[i + 1]
  {
    assert i != 0 ==> pos[ring[i]] == i;
    assert pos[ring[k]] == k && (k > 1 ==> pos[ring[k - 1]] == k - 1);
  }

  lemma PrevAfterAt(next: seq<int>, prev: seq<int>, ring: seq<int>, pos: seq<int>, n: int, k: int, first: int, i: int)
    requires Tour(ring, pos, n) && Threaded(next, prev, ring, n) && 1 <= k <= n && 1 <= i <= n + 1
    requires first == (if k == 1 then ring[2] else ring[1])
    ensures PrevAfter(prev, n, ring[k - 1], ring[k], ring[k + 1], first)[ring[i]] ==
            if i == (if k == 1 then 2 else 1) then ring[k] else if i == k then n
            else if i == k + 1 then ring[k - 1] else ring[i - 1]
  {
    assert i != n + 1 ==> pos[ring[i]] == i;
    assert pos[ring[k]] == k && pos[ring[1]] == 1;
    assert k < n ==> pos[ring[k + 1]] == k + 1;
  }

  lemma RelinkThreaded(next: seq<int>, prev: seq<int>, ring: seq<int>, pos: seq<int>, n: int, k: int, first: int, ring': seq<int>)
    requires Tour(ring, pos, n) && Threaded(next, prev, ring, n) && 1 <= k <= n && MovedFront(ring, k, ring')
    requires first == (if k == 1 then ring[2] else ring[1])
    ensures Threaded(NextAfter(next, n, ring[k - 1], ring[k], ring[k + 1], first),
                     PrevAfter(prev, n, ring[k - 1], ring[k], ring[k + 1], first), ring', n)
  {
    var next' := NextAfter(next, n, ring[k - 1], ring[k], ring[k + 1], first);
    var prev' := PrevAfter(prev, n, ring[k - 1], ring[k], ring[k + 1], first);
    forall i, j | 0 <= i <= n && j == i + 1
      ensures next'[ring'[i]] == ring'[j]
    {
      NextAfterAt(next, prev, ring, pos, n, k, first, if i == 0 then 0 else if i == 1 then k else if i <= k then i - 1 else i);
    }
    forall i, j | 0 <= i <= n && j == i + 1
      ensures prev'[ring'[j]] == ring'[i]
    {
      PrevAfterAt(next, prev, ring, pos, n, k, first, if j == 1 then k else if j <= k then j - 1 else j);
    }
  }

  /** Moving position `k` to the front keeps the tour, with `pos'` its inverse. */
  lemma MoveTour(ring: seq<int>, pos: seq<int>, n: int, k: int, ring': seq<int>)
    returns (pos': seq<int>)
    requires Tour(ring, pos, n) && 1 <= k <= n && MovedFront(ring, k, ring')
    ensures Tour(ring', pos', n)
  {
    pos' := seq(n, b requires 0 <= b < n => if pos[b] == k then 1 else if pos[b] < k then pos[b] + 1 else pos[b]);
    assert ring'[n + 1] == n;
  }

  lemma MoveByRelease(ring: seq<int>, pos: seq<int>, released: seq<int>, n: int, k: int, ring': seq<int>)
    requires Tour(ring, pos, n) && ByRelease(ring, released, n) && 1 <= k <= n && MovedFront(ring, k, ring')
    ensures ByRelease(ring', released + [ring[k]], n)
  {
    forall b
      ensures LastAt(released + [ring[k]], b) == if b == ring[k] then |released| else LastAt(released, b)
    {
      LastAtMore(released, ring[k], b);
    }
    forall i | 2 <= i <= n
      ensures ring'[i] != ring[k]
    {
      assert ring'[i] == ring[if i <= k then i - 1 else i];
      assert pos[ring[k]] == k;
    }
  }

  // ---------------------------------------------------------------------------------------------
  // Buffers, disk and logical contents
  // ---------------------------------------------------------------------------------------------

  predicate Caches(b: Buf, dev: int, blockno: int) {
    b.dev == dev && b.blockno == blockno
  }

  /** At most one buffer holds a given block of a real device. */
  ghost predicate Unique(buf: seq<Buf>) {
    forall a, b :: 0 <= a < |buf| && 0 <= b < |buf| && buf[a].dev != 0 && Caches(buf[b], buf[a].dev, buf[a].blockno) ==> a == b
  }

  /** A valid buffer nobody holds has the logical contents; the dirty buffers are those of `pinned`. */
  ghost predicate BufOk(b: Buf, i: int, view: seq<Block>, pinned: map<int, int>) {
    && b.refcnt >= 0 && (b.locked ==> b.refcnt >= 1)
    && (b.valid ==> b.dev == ROOTDEV && 0 <= b.blockno < |view|)
    && (b.valid && !b.locked ==> b.data == view[b.blockno])
    && (b.dirty ==> b.valid && b.blockno in pinned && pinned[b.blockno] == i)
  }

  ghost predicate BufsOk(buf: seq<Buf>, view: seq<Block>, pinned: map<int, int>) {
    && (forall i :: 0 <= i < |buf| ==> BufOk(buf[i], i, view, pinned))
    && (forall bn :: bn in pinned ==> 0 <= pinned[bn] < |buf| && buf[pinned[bn]].dirty && buf[pinned[bn]].blockno == bn)
  }

  /** Only a pinned block may differ between the disk and its logical contents. */
  ghost predicate DiskOk(disk: Disk, view: seq<Block>, pinned: map<int, int>) {
    && |disk| == |view|
    && (forall bn :: 0 <= bn < |disk| && bn !in pinned ==> disk[bn] == view[bn])
  }

  ghost predicate Coherent(buf: seq<Buf>, disk: Disk, view: seq<Block>, pinned: map<int, int>) {
    Unique(buf) && BufsOk(buf, view, pinned) && DiskOk(disk, view, pinned)
  }

  /** A buffer after bget picked it for a block. */
  function Gotten(b: Buf, dev: int, blockno: int): Buf {
    if Caches(b, dev, blockno) then b.(refcnt := b.refcnt + 1) else Buf(dev, blockno, 1, false, false, false, b.data)
  }

  predicate Idle(b: Buf) {
    b.refcnt == 0 && !b.dirty
  }

  /** bget finds neither the block nor a buffer to recycle. */
  ghost predicate NoBuffer(buf: seq<Buf>, dev: int, blockno: int) {
    forall i :: 0 <= i < |buf| ==> !Caches(buf[i], dev, blockno) && !Idle(buf[i])
  }

  /** The buffer bget chooses: the one that has the block, else the idle one released longest ago. */
  ghost predicate Picks(buf: seq<Buf>, released: seq<int>, dev: int, blockno: int, b: int) {
    && 0 <= b < |buf|
    && (Caches(buf[b], dev, blockno) || (Oldest(buf, released, b) && forall i :: 0 <= i < |buf| ==> !Caches(buf[i], dev, blockno)))
  }

  ghost predicate Oldest(buf: seq<Buf>, released: seq<int>, b: int) {
    0 <= b < |buf| && Idle(buf[b]) && forall i :: 0 <= i < |buf| && Idle(buf[i]) ==> LastAt(released, b) <= LastAt(released, i)
  }

  /** There is just one such buffer ... */
  lemma PicksOne(buf: seq<Buf>, ring: seq<int>, pos: seq<int>, released: seq<int>, dev: int, blockno: int, a: int, b: int)
    requires Tour(ring, pos, |buf|) && ByRelease(ring, released, |buf|) && Unique(buf) && dev != 0
    requires Picks(buf, released, dev, blockno, a) && Picks(buf, released, dev, blockno, b)
    ensures a == b
  {
    assert ring[pos[a]] == a && ring[pos[b]] == b;
  }

  /** ... unless there is no buffer at all. */
  lemma {:induction false} PicksSome(buf: seq<Buf>, released: seq<int>, dev: int, blockno: int) returns (b: int)
    requires !NoBuffer(buf, dev, blockno)
    ensures Picks(buf, released, dev, blockno, b)
  {
    b :| 0 <= b < |buf| && (Caches(buf[b], dev, blockno) || Idle(buf[b]));
    if exists i :: 0 <= i < |buf| && Caches(buf[i], dev, blockno) {
      b :| 0 <= b < |buf| && Caches(buf[b], dev, blockno);
    } else {
      b := OldestUpTo(buf, released, b, |buf|);
    }
  }

  lemma {:induction false} OldestUpTo(buf: seq<Buf>, released: seq<int>, some: int, n: int) returns (b: int)
    requires 0 <= some < |buf| && Idle(buf[some]) && 0 <= n <= |buf|
    ensures 0 <= b < |buf| && Idle(buf[b]) && LastAt(released, b) <= LastAt(released, some)
    ensures forall i :: 0 <= i < n && Idle(buf[i]) ==> LastAt(released, b) <= LastAt(released, i)
    decreases n
  {
    if n == 0 {
      b := some;
    } else {
      b := OldestUpTo(buf, released, some, n - 1);
      if Idle(buf[n - 1]) && LastAt(released, n - 1) < LastAt(released, b) {
        b := n - 1;
      }
    }
  }

  /** The block is cached in a buffer some process has locked. */
  ghost predicate HeldLocked(buf: seq<Buf>, dev: int, blockno: int) {
    exists i :: 0 <= i < |buf| && Caches(buf[i], dev, blockno) && buf[i].locked
  }

  /** bread panics, sleeps on the lock of the block's buffer, or returns the locked buffer. */
  datatype BreadResult = Panic | Asleep(buf: int) | Locked(buf: int)

  lemma NotLocked(buf: seq<Buf>, dev: int, blockno: int)
    ensures NoBuffer(buf, dev, blockno) ==> !HeldLocked(buf, dev, blockno)
  {
  }

  /** A change to one buffer that leaves the contents alone keeps the cache coherent. */
  lemma SetBuf(buf: seq<Buf>, disk: Disk, view: seq<Block>, pinned: map<int, int>, i: int, b: Buf)
    requires Coherent(buf, disk, view, pinned) && 0 <= i < |buf| && BufOk(b, i, view, pinned)
    requires buf[i].dirty == b.dirty && (b.dirty ==> b.blockno == buf[i].blockno)
    requires forall j :: 0 <= j < |buf| && j != i && b.dev != 0 ==> !Caches(buf[j], b.dev, b.blockno)
    ensures Coherent(buf[i := b], disk, view, pinned)
  {
  }

  /** The buffer at `i` is the only one that can hold its block. */
  lemma OnlyHere(buf: seq<Buf>, i: int)
    requires Unique(buf) && 0 <= i < |buf| && buf[i].dev != 0
    ensures forall j :: 0 <= j < |buf| && j != i ==> !Caches(buf[j], buf[i].dev, buf[i].blockno)
  {
  }

  /** A block held by a buffer that has not been read is not pinned, so the disk has its contents. */
  lemma UnreadIsClean(buf: seq<Buf>, disk: Disk, view: seq<Block>, pinned: map<int, int>, i: int)
    requires Coherent(buf, disk, view, pinned) && 0 <= i < |buf| && !buf[i].dirty && buf[i].dev == ROOTDEV
    ensures buf[i].blockno !in pinned
    ensures 0 <= buf[i].blockno < |disk| ==> disk[buf[i].blockno] == view[buf[i].blockno]
  {
    if buf[i].blockno in pinned {
      var j := pinned[buf[i].blockno];
      assert BufOk(buf[j], j, view, pinned);
      assert Caches(buf[j], buf[i].dev, buf[i].blockno);
    }
  }

  /** Handing a modified buffer to log_write: its block gets new contents and is pinned. */
  lemma PinBuf(buf: seq<Buf>, disk: Disk, view: seq<Block>, pinned: map<int, int>, i: int)
    requires Coherent(buf, disk, view, pinned) && 0 <= i < |buf| && buf[i].valid
    ensures 0 <= buf[i].blockno < |view|
    ensures Coherent(buf[i := buf[i].(dirty := true)], disk, view[buf[i].blockno := buf[i].data], pinned[buf[i].blockno := i])
  {
    assert BufOk(buf[i], i, view, pinned);
    OnlyHere(buf, i);
    var buf', view', pinned' := buf[i := buf[i].(dirty := true)], view[buf[i].blockno := buf[i].data], pinned[buf[i].blockno := i];
    forall j | 0 <= j < |buf'|
      ensures BufOk(buf'[j], j, view', pinned')
    {
      assert BufOk(buf[j], j, view, pinned);
    }
  }

  /** Writing a buffer through to the disk: its block gets new contents and is pinned no more. */
  lemma FlushBuf(buf: seq<Buf>, disk: Disk, view: seq<Block>, pinned: map<int, int>, i: int, b: Buf)
    requires Coherent(buf, disk, view, pinned) && 0 <= i < |buf| && buf[i].locked
    requires buf[i].dev == ROOTDEV && 0 <= buf[i].blockno < |disk| && b == buf[i].(valid := true, dirty := false)
    ensures Coherent(buf[i := b], disk[b.blockno := b.data], view[b.blockno := b.data], pinned - {b.blockno})
  {
    OnlyHere(buf, i);
    var buf', view', pinned' := buf[i := b], view[b.blockno := b.data], pinned - {b.blockno};
    forall j | 0 <= j < |buf'|
      ensures BufOk(buf'[j], j, view', pinned')
    {
      assert BufOk(buf[j], j, view, pinned);
    }
  }

  // ---------------------------------------------------------------------------------------------
  // The cache
  // ---------------------------------------------------------------------------------------------

  ghost predicate ListOk(next: seq<int>, prev: seq<int>, ring: seq<int>, pos: seq<int>, released: seq<int>, n: int) {
    Tour(ring, pos, n) && Threaded(next, prev, ring, n) && ByRelease(ring, released, n)
  }

  lemma ListParts(next: seq<int>, prev: seq<int>, ring: seq<int>, pos: seq<int>, released: seq<int>, n: int)
    requires ListOk(next, prev, ring, pos, released, n)
    ensures Tour(ring, pos, n) && Threaded(next, prev, ring, n) && ByRelease(ring, released, n)
    ensures n >= 0 && |next| == |prev| == n + 1 && |ring| == n + 2 && |pos| == n
  {
  }

  lemma NodeAt(next: seq<int>, prev: seq<int>, ring: seq<int>, pos: seq<int>, released: seq<int>, n: int, i: int)
    requires ListOk(next, prev, ring, pos, released, n) && 0 <= i <= n + 1
    ensures |next| == |prev| == n + 1 && |ring| == n + 2 && 0 <= ring[i] <= n
    ensures 1 <= i <= n <==> ring[i] != n
    ensures ring[0] == n == ring[n + 1]
    ensures i <= n ==> next[ring[i]] == ring[i + 1]
    ensures i >= 1 ==> prev[ring[i]] == ring[i - 1]
  {
  }

  lemma PlaceOf(ring: seq<int>, pos: seq<int>, n: int, b: int)
    requires Tour(ring, pos, n) && 0 <= b < n
    ensures 1 <= pos[b] <= n && ring[pos[b]] == b
  {
  }

  /** A search over the whole list has seen every buffer. */
  lemma SearchedAll(buf: seq<Buf>, ring: seq<int>, pos: seq<int>, i: int)
    requires Tour(ring, pos, |buf|) && 0 <= i < |buf|
    ensures exists t :: 1 <= t <= |buf| && ring[t] == i
  {
    assert ring[pos[i]] == i;
  }

  /** The first idle buffer met from the end of the list was released before every other idle one. */
  lemma {:induction false} OldestIdle(buf: seq<Buf>, next: seq<int>, prev: seq<int>, ring: seq<int>, pos: seq<int>, released: seq<int>,
                   i: int)
    requires ListOk(next, prev, ring, pos, released, |buf|) && 1 <= i <= |buf|
    requires |ring| == |buf| + 2 && 0 <= ring[i] < |buf|
    requires forall t :: i < t <= |buf| ==> 0 <= ring[t] < |buf| && !Idle(buf[ring[t]])
    ensures forall b :: 0 <= b < |buf| && Idle(buf[b]) ==> LastAt(released, ring[i]) <= LastAt(released, b)
  {
    forall b | 0 <= b < |buf| && Idle(buf[b])
      ensures LastAt(released, ring[i]) <= LastAt(released, b)
    {
      assert ring[pos[b]] == b;
    }
  }

  /** A hit takes one more reference. */
  lemma HitOk(buf: seq<Buf>, disk: Disk, view: seq<Block>, pinned: map<int, int>, b: int)
    requires Coherent(buf, disk, view, pinned) && 0 <= b < |buf| && buf[b].dev != 0
    ensures Coherent(buf[b := buf[b].(refcnt := buf[b].refcnt + 1)], disk, view, pinned)
  {
    OnlyHere(buf, b);
    assert BufOk(buf[b], b, view, pinned);
    SetBuf(buf, disk, view, pinned, b, buf[b].(refcnt := buf[b].refcnt + 1));
  }

  /** Recycling an idle buffer for a block nobody holds loses nothing. */
  lemma RecycleOk(buf: seq<Buf>, disk: Disk, view: seq<Block>, pinned: map<int, int>, b: int, dev: int, blockno: int)
    requires Coherent(buf, disk, view, pinned) && 0 <= b < |buf| && Idle(buf[b])
    requires forall i :: 0 <= i < |buf| ==> !Caches(buf[i], dev, blockno)
    ensures Coherent(buf[b := Buf(dev, blockno, 1, false, false, false, buf[b].data)], disk, view, pinned)
  {
    SetBuf(buf, disk, view, pinned, b, Buf(dev, blockno, 1, false, false, false, buf[b].data));
  }

  /** A buffer after bread locked it and made sure it holds the block's contents. */
  function Filled(b: Buf, data: Block): Buf {
    b.(locked := true, valid := true, data := data)
  }

  lemma GottenFacts(buf: seq<Buf>, disk: Disk, view: seq<Block>, pinned: map<int, int>, b: int, dev: int, blockno: int)
    requires Coherent(buf, disk, view, pinned) && 0 <= b < |buf| && dev != 0
    requires Caches(buf[b], dev, blockno) || (Idle(buf[b]) && forall i :: 0 <= i < |buf| ==> !Caches(buf[i], dev, blockno))
    ensures
      var g := Gotten(buf[b], dev, blockno);
      && g.refcnt >= 1 && g.dev == dev && g.blockno == blockno && (g.locked <==> HeldLocked(buf, dev, blockno))
      && (g.locked ==> Caches(buf[b], dev, blockno) && buf[b].locked) && (!g.locked ==> !buf[b].locked)
  {
    assert BufOk(buf[b], b, view, pinned);
  }

  /** What the holder of a reference knows of its buffer. */
  lemma BufFacts(buf: seq<Buf>, disk: Disk, view: seq<Block>, pinned: map<int, int>, b: int)
    requires Coherent(buf, disk, view, pinned) && 0 <= b < |buf|
    ensures |disk| == |view| && (buf[b].dirty ==> buf[b].valid)
    ensures buf[b].valid ==> buf[b].dev == ROOTDEV && 0 <= buf[b].blockno < |view|
    ensures buf[b].valid && !buf[b].locked ==> buf[b].data == view[buf[b].blockno]
  {
    assert BufOk(buf[b], b, view, pinned);
  }

  lemma LockOk(buf: seq<Buf>, disk: Disk, view: seq<Block>, pinned: map<int, int>, b: int)
    requires Coherent(buf, disk, view, pinned) && 0 <= b < |buf| && buf[b].dev != 0 && buf[b].refcnt >= 1
    ensures Coherent(buf[b := buf[b].(locked := true)], disk, view, pinned)
  {
    OnlyHere(buf, b);
    assert BufOk(buf[b], b, view, pinned);
    SetBuf(buf, disk, view, pinned, b, buf[b].(locked := true));
  }

  lemma ReadOk(buf: seq<Buf>, disk: Disk, view: seq<Block>, pinned: map<int, int>, b: int)
    requires Coherent(buf, disk, view, pinned) && 0 <= b < |buf| && buf[b].dev == ROOTDEV && !buf[b].dirty
    requires 0 <= buf[b].blockno < |disk| && disk[buf[b].blockno] == view[buf[b].blockno]
    ensures Coherent(buf[b := buf[b].(data := disk[buf[b].blockno], valid := true)], disk, view, pinned)
  {
    OnlyHere(buf, b);
    assert BufOk(buf[b], b, view, pinned);
    SetBuf(buf, disk, view, pinned, b, buf[b].(data := disk[buf[b].blockno], valid := true));
  }

  lemma DataOk(buf: seq<Buf>, disk: Disk, view: seq<Block>, pinned: map<int, int>, b: int, data: Block)
    requires Coherent(buf, disk, view, pinned) && 0 <= b < |buf| && buf[b].locked && buf[b].dev != 0
    ensures Coherent(buf[b := buf[b].(data := data)], disk, view, pinned)
  {
    OnlyHere(buf, b);
    assert BufOk(buf[b], b, view, pinned);
    SetBuf(buf, disk, view, pinned, b, buf[b].(data := data));
  }

  lemma UnlockOk(buf: seq<Buf>, disk: Disk, view: seq<Block>, pinned: map<int, int>, b: int)
    requires Coherent(buf, disk, view, pinned) && 0 <= b < |buf| && buf[b].dev != 0
    requires buf[b].valid ==> 0 <= buf[b].blockno < |view| && buf[b].data == view[buf[b].blockno]
    ensures Coherent(buf[b := buf[b].(locked := false)], disk, view, pinned)
  {
    OnlyHere(buf, b);
    assert BufOk(buf[b], b, view, pinned);
    SetBuf(buf, disk, view, pinned, b, buf[b].(locked := false));
  }

  lemma DropOk(buf: seq<Buf>, disk: Disk, view: seq<Block>, pinned: map<int, int>, b: int)
    requires Coherent(buf, disk, view, pinned) && 0 <= b < |buf| && buf[b].dev != 0 && !buf[b].locked && buf[b].refcnt >= 1
    ensures Coherent(buf[b := buf[b].(refcnt := buf[b].refcnt - 1)], disk, view, pinned)
  {
    OnlyHere(buf, b);
    assert BufOk(buf[b], b, view, pinned);
    SetBuf(buf, disk, view, pinned, b, buf[b].(refcnt := buf[b].refcnt - 1));
  }

  ghost function ToFront(ring: seq<int>, n: int, k: int): (r: seq<int>)
    requires |ring| == n + 2 && 1 <= k <= n
    ensures MovedFront(ring, k, r)
  {
    seq(n + 2, i requires 0 <= i < n + 2 => if i == 0 then ring[0] else if i == 1 then ring[k] else if i <= k then ring[i - 1] else ring[i])
  }

  lemma Moved(next: seq<int>, prev: seq<int>, ring: seq<int>, pos: seq<int>, released: seq<int>, n: int, k: int,
              ring': seq<int>) returns (pos': seq<int>)
    requires ListOk(next, prev, ring, pos, released, n) && 1 <= k <= n && MovedFront(ring, k, ring')
    ensures
      var first := if k == 1 then ring[2] else ring[1];
      ListOk(NextAfter(next, n, ring[k - 1], ring[k], ring[k + 1], first),
             PrevAfter(prev, n, ring[k - 1], ring[k], ring[k + 1], first), ring', pos', released + [ring[k]], n)
  {
    RelinkThreaded(next, prev, ring, pos, n, k, if k == 1 then ring[2] else ring[1], ring');
    MoveByRelease(ring, pos, released, n, k, ring');
    pos' := MoveTour(ring, pos, n, k, ring');
  }

  lemma {:induction false} InitialList(next: seq<int>, prev: seq<int>, ring: seq<int>, pos: seq<int>, n: int)
    requires n >= 0 && |next| == n + 1 && |prev| == n + 1 && |ring| == n + 2 && |pos| == n
    requires next[n] == (if n == 0 then n else n - 1) && prev[n] == (if n == 0 then n else 0)
    requires forall c :: 0 <= c < n ==> next[c] == (if c == 0 then n else c - 1)
    requires forall c :: 0 <= c < n ==> prev[c] == (if c == n - 1 then n else c + 1)
    requires forall i :: 0 <= i < n + 2 ==> ring[i] == if i == 0 || i == n + 1 then n else n - i
    requires forall b :: 0 <= b < n ==> pos[b] == n - b
    ensures ListOk(next, prev, ring, pos, InOrder(n), n)
  {
    forall b | 0 <= b < n
      ensures LastAt(InOrder(n), b) == b
    {
      InOrderAt(n, b);
    }
  }

  class Bcache {
    var buf: seq<Buf>
    var next: seq<int>
    var prev: seq<int>
    var disk: Disk
    ghost var ring: seq<int>
    ghost var pos: seq<int>
    ghost var released: seq<int>
    ghost var view: seq<Block>
    ghost var pinned: map<int, int>
    ghost var trace: seq<Disk>

    ghost predicate Valid()
      reads this
    {
      && ListOk(next, prev, ring, pos, released, |buf|)
      && Coherent(buf, disk, view, pinned)
      && |disk| == |view|
    }

    lemma Parts()
      requires Valid()
      ensures ListOk(next, prev, ring, pos, released, |buf|) && Coherent(buf, disk, view, pinned)
      ensures Tour(ring, pos, |buf|) && ByRelease(ring, released, |buf|) && Unique(buf) && |disk| == |view|
      ensures |next| == |prev| == |buf| + 1 && |ring| == |buf| + 2
    {
    }

    lemma Whole()
      requires ListOk(next, prev, ring, pos, released, |buf|) && Coherent(buf, disk, view, pinned)
      requires |disk| == |view|
      ensures Valid()
    {
    }

    /** binit: thread `nbuf` empty buffers, all of device 0, onto the list. */
    constructor (nbuf: nat, disk: Disk)
      ensures Valid() && |buf| == nbuf && this.disk == disk && view == disk && pinned == map[] && trace == [disk]
      ensures forall i :: 0 <= i < nbuf ==> Idle(buf[i]) && buf[i].dev == 0 && !buf[i].locked
    {
      hide ListOk;
      this.disk := disk;
      buf := seq(nbuf, _ => Buf(0, 0, 0, false, false, false, []));
      next := seq(nbuf + 1, _ => nbuf);
      prev := seq(nbuf + 1, _ => nbuf);
      ring := seq(nbuf + 2, i => if i == 0 || i == nbuf + 1 then nbuf else nbuf - i);
      pos := seq(nbuf, b => nbuf - b);
      released := InOrder(nbuf);
      view, pinned, trace := disk, map[], [disk];
      new;
      var b := 0;
      while b < nbuf
        modifies `next, `prev
        invariant 0 <= b <= nbuf && |next| == |prev| == nbuf + 1
        invariant next[nbuf] == (if b == 0 then nbuf else b - 1) && prev[nbuf] == (if b == 0 then nbuf else 0)
        invariant forall c :: 0 <= c < b ==> next[c] == (if c == 0 then nbuf else c - 1)
        invariant forall c :: 0 <= c < b ==> prev[c] == (if c == b - 1 then nbuf else c + 1)
      {
        next := next[b := next[nbuf]];
        prev := prev[b := nbuf];
        prev := prev[next[nbuf] := b];
        next := next[nbuf := b];
        b := b + 1;
      }
      InitialList(next, prev, ring, pos, nbuf);
    }

    /** bget's first loop: the buffer that holds the block, or the list head if there is none. */
    method FindCached(dev: int, blockno: int) returns (b: int)
      requires Valid()
      ensures 0 <= b <= |buf|
      ensures b < |buf| ==> Caches(buf[b], dev, blockno)
      ensures b == |buf| ==> forall i :: 0 <= i < |buf| ==> !Caches(buf[i], dev, blockno)
    {
      hide ListOk, Coherent, Unique, Tour, Threaded;
      Parts();
      NodeAt(next, prev, ring, pos, released, |buf|, 0);
      b := next[|buf|];
      ghost var i := 1;
      while b != |buf|
        invariant 1 <= i <= |buf| + 1 && b == ring[i]
        invariant forall t :: 1 <= t < i ==> 0 <= ring[t] < |buf| && !Caches(buf[ring[t]], dev, blockno)
        decreases |buf| + 1 - i
      {
        NodeAt(next, prev, ring, pos, released, |buf|, i);
        if buf[b].dev == dev && buf[b].blockno == blockno {
          return;
        }
        b := next[b];
        i := i + 1;
      }
      NodeAt(next, prev, ring, pos, released, |buf|, i);
      forall c | 0 <= c < |buf|
        ensures !Caches(buf[c], dev, blockno)
      {
        SearchedAll(buf, ring, pos, c);
      }
    }

    /** bget's second loop: the least recently released idle buffer, or the list head if there is none. */
    method FindIdle() returns (b: int)
      requires Valid()
      ensures 0 <= b <= |buf|
      ensures b < |buf| ==> Oldest(buf, released, b)
      ensures b == |buf| ==> forall i :: 0 <= i < |buf| ==> !Idle(buf[i])
    {
      hide ListOk, Coherent, Unique, Tour, Threaded;
      Parts();
      NodeAt(next, prev, ring, pos, released, |buf|, |buf| + 1);
      b := prev[|buf|];
      ghost var i := |buf|;
      while b != |buf|
        invariant 0 <= i <= |buf| && b == ring[i]
        invariant forall t :: i < t <= |buf| ==> 0 <= ring[t] < |buf| && !Idle(buf[ring[t]])
        decreases i
      {
        NodeAt(next, prev, ring, pos, released, |buf|, i);
        if buf[b].refcnt == 0 && !buf[b].dirty {
          OldestIdle(buf, next, prev, ring, pos, released, i);
          return;
        }
        b := prev[b];
        i := i - 1;
      }
      NodeAt(next, prev, ring, pos, released, |buf|, i);
      forall c | 0 <= c < |buf|
        ensures !Idle(buf[c])
      {
        SearchedAll(buf, ring, pos, c);
      }
    }

    /** The critical section of bget: a cached block gains a reference, else an idle buffer is recycled. */
    method Bget(dev: int, blockno: int) returns (r: Option<int>)
      requires Valid() && dev != 0
      modifies `buf
      ensures Valid() && |buf| == |old(buf)|
      ensures r.None? <==> NoBuffer(old(buf), dev, blockno)
      ensures r.None? ==> buf == old(buf)
      ensures r.Some? ==> Picks(old(buf), released, dev, blockno, r.value)
      ensures r.Some? ==> buf == old(buf)[r.value := Gotten(old(buf)[r.value], dev, blockno)]
    {
      hide ListOk, Coherent, Unique, Tour, Threaded;
      Parts();
      var b := FindCached(dev, blockno);
      if b < |buf| {
        HitOk(buf, disk, view, pinned, b);
        buf := buf[b := buf[b].(refcnt := buf[b].refcnt + 1)];
      } else {
        b := FindIdle();
        if b == |buf| {
          return None;
        }
        RecycleOk(buf, disk, view, pinned, b, dev, blockno);
        buf := buf[b := Buf(dev, blockno, 1, false, false, false, buf[b].data)];
      }
      Whole();
      r := Some(b);
    }

    /** acquiresleep on a buffer somebody referenced: the lock, or sleep while another process has it. */
    method AcquireSleep(b: int) returns (got: bool)
      requires Valid() && 0 <= b < |buf| && buf[b].refcnt >= 1 && buf[b].dev != 0
      modifies `buf
      ensures Valid() && got == !old(buf)[b].locked
      ensures buf == if got then old(buf)[b := old(buf)[b].(locked := true)] else old(buf)
    {
      hide ListOk, Coherent, Unique;
      if buf[b].locked {
        return false;
      }
      Parts();
      LockOk(buf, disk, view, pinned, b);
      buf := buf[b := buf[b].(locked := true)];
      Whole();
      got := true;
    }

    /** memide's iderw: write a dirty buffer, read an invalid one, panic otherwise. */
    method Iderw(b: int) returns (ok: bool)
      requires Valid() && 0 <= b < |buf|
      modifies `buf, `disk, `view, `pinned, `trace
      ensures Valid()
      ensures ok <==> && old(buf)[b].locked && !(old(buf)[b].valid && !old(buf)[b].dirty)
                      && old(buf)[b].dev == ROOTDEV && 0 <= old(buf)[b].blockno < |old(disk)|
      ensures !ok ==> unchanged(this)
      ensures ok && old(buf)[b].dirty ==>
                var d := old(buf)[b];
                && buf == old(buf)[b := d.(valid := true, dirty := false)]
                && disk == old(disk)[d.blockno := d.data] && trace == old(trace) + [disk]
                && d.blockno < |old(view)| && view == old(view)[d.blockno := d.data] && pinned == old(pinned) - {d.blockno}
      ensures ok && !old(buf)[b].dirty ==>
                var d := old(buf)[b];
                && disk == old(disk) && view == old(view) && pinned == old(pinned) && trace == old(trace)
                && d.blockno < |view| && disk[d.blockno] == view[d.blockno]
                && buf == old(buf)[b := d.(valid := true, data := disk[d.blockno])]
    {
      hide ListOk, Coherent, Unique;
      Parts();
      if !buf[b].locked || (buf[b].valid && !buf[b].dirty) || buf[b].dev != 1
         || !(0 <= buf[b].blockno < |disk|) {
        return false;
      }
      ok := true;
      if buf[b].dirty {
        FlushBuf(buf, disk, view, pinned, b, buf[b].(valid := true, dirty := false));
        buf := buf[b := buf[b].(valid := true, dirty := false)];
        disk := disk[buf[b].blockno := buf[b].data];
        view := view[buf[b].blockno := buf[b].data];
        pinned := pinned - {buf[b].blockno};
        trace := trace + [disk];
      } else {
        UnreadIsClean(buf, disk, view, pinned, b);
        ReadOk(buf, disk, view, pinned, b);
        buf := buf[b := buf[b].(data := disk[buf[b].blockno], valid := true)];
      }
      Whole();
    }

    /** bread from acquiresleep on: what a caller does after bget, and again when it wakes on the lock. */
    method Resume(b: int) returns (r: BreadResult)
      requires Valid() && 0 <= b < |buf| && buf[b].refcnt >= 1 && buf[b].dev != 0
      modifies `buf, `disk, `view, `pinned, `trace
      ensures Valid() && |buf| == |old(buf)|
      ensures disk == old(disk) && view == old(view) && pinned == old(pinned) && trace == old(trace)
      ensures r.Asleep? <==> old(buf)[b].locked
      ensures r.Asleep? ==> r.buf == b && buf == old(buf)
      ensures r.Panic? <==> !old(buf)[b].locked && (old(buf)[b].dev != ROOTDEV || !(0 <= old(buf)[b].blockno < |disk|))
      ensures r.Locked? ==> r.buf == b && 0 <= old(buf)[b].blockno < |view|
      ensures r.Locked? ==> buf == old(buf)[b := Filled(old(buf)[b], view[old(buf)[b].blockno])]
    {
      hide ListOk, Coherent, Unique;
      Parts();
      BufFacts(buf, disk, view, pinned, b);
      var got := AcquireSleep(b);
      if !got {
        return Asleep(b);
      }
      if !buf[b].valid {
        var ok := Iderw(b);
        if !ok {
          return Panic;
        }
      }
      r := Locked(b);
    }

    /** bread: a locked buffer with the block's logical contents; a block another process has locked makes the
        caller sleep with its reference taken. */
    method Bread(dev: int, blockno: int) returns (r: BreadResult)
      requires Valid() && dev != 0
      modifies `buf, `disk, `view, `pinned, `trace
      ensures Valid() && |buf| == |old(buf)|
      ensures disk == old(disk) && view == old(view) && pinned == old(pinned) && trace == old(trace)
      ensures r.Asleep? <==> HeldLocked(old(buf), dev, blockno)
      ensures r.Asleep? ==>
                && 0 <= r.buf < |buf| && Caches(old(buf)[r.buf], dev, blockno) && old(buf)[r.buf].locked
                && buf == old(buf)[r.buf := Gotten(old(buf)[r.buf], dev, blockno)]
      ensures r.Panic? <==>
              NoBuffer(old(buf), dev, blockno) || (!HeldLocked(old(buf), dev, blockno) && (dev != ROOTDEV || !(0 <= blockno < |disk|)))
      ensures !r.Panic? ==> Picks(old(buf), released, dev, blockno, r.buf)
      ensures r.Locked? ==>
                && 0 <= r.buf < |buf| && 0 <= blockno < |view| && !old(buf)[r.buf].locked
                && buf == old(buf)[r.buf := Filled(Gotten(old(buf)[r.buf], dev, blockno), view[blockno])]
    {
      hide ListOk, Coherent, Unique, NoBuffer, HeldLocked;
      Parts();
      NotLocked(buf, dev, blockno);
      var o := Bget(dev, blockno);
      if o.None? {
        return Panic;
      }
      GottenFacts(old(buf), disk, view, pinned, o.value, dev, blockno);
      r := Resume(o.value);
    }

    /** The holder of a locked buffer changes its data. */
    method Modify(b: int, data: Block)
      requires Valid() && 0 <= b < |buf| && buf[b].locked && buf[b].dev != 0
      modifies `buf
      ensures Valid() && buf == old(buf)[b := old(buf)[b].(data := data)]
    {
      hide ListOk, Coherent, Unique;
      Parts();
      DataOk(buf, disk, view, pinned, b, data);
      buf := buf[b := buf[b].(data := data)];
      Whole();
    }

    /** What log_write does to the buffer: B_DIRTY keeps it from being recycled until it is committed. */
    method Pin(b: int)
      requires Valid() && 0 <= b < |buf| && buf[b].valid
      modifies `buf, `view, `pinned
      ensures Valid() && 0 <= old(buf)[b].blockno < |old(view)|
      ensures buf == old(buf)[b := old(buf)[b].(dirty := true)]
      ensures view == old(view)[buf[b].blockno := buf[b].data] && pinned == old(pinned)[buf[b].blockno := b]
    {
      hide ListOk, Coherent, Unique;
      Parts();
      PinBuf(buf, disk, view, pinned, b);
      view := view[buf[b].blockno := buf[b].data];
      pinned := pinned[buf[b].blockno := b];
      buf := buf[b := buf[b].(dirty := true)];
      Whole();
    }

    /** bwrite: write a locked, valid buffer through to the disk. */
    method Bwrite(b: int)
      requires Valid() && 0 <= b < |buf| && buf[b].locked && buf[b].valid
      modifies `buf, `disk, `view, `pinned, `trace
      ensures Valid() && 0 <= old(buf)[b].blockno < |old(view)| == |old(disk)|
      ensures buf == old(buf)[b := old(buf)[b].(dirty := false)]
      ensures disk == old(disk)[buf[b].blockno := buf[b].data] && trace == old(trace) + [disk]
      ensures view == old(view)[buf[b].blockno := buf[b].data] && pinned == old(pinned) - {buf[b].blockno}
    {
      hide ListOk, Coherent, Unique;
      ValidBlock(b);
      Pin(b);
      var ok := Iderw(b);
    }

    lemma ValidBlock(b: int)
      requires Valid() && 0 <= b < |buf| && buf[b].valid
      ensures buf[b].dev == ROOTDEV && 0 <= buf[b].blockno < |view| == |disk|
    {
      assert BufOk(buf[b], b, view, pinned);
    }

    /** The releasesleep of brelse; the data must have been written or logged if it was changed. */
    method ReleaseSleep(b: int)
      requires Valid() && 0 <= b < |buf| && buf[b].locked && buf[b].dev != 0
      requires buf[b].valid ==> 0 <= buf[b].blockno < |view| && buf[b].data == view[buf[b].blockno]
      modifies `buf
      ensures Valid() && buf == old(buf)[b := old(buf)[b].(locked := false)]
    {
      hide ListOk, Coherent, Unique;
      Parts();
      UnlockOk(buf, disk, view, pinned, b);
      buf := buf[b := buf[b].(locked := false)];
      Whole();
    }

    /** brelse's six pointer writes: unlink `b` from between `a` and `c`, then push it behind the head. */
    method Relink(b: int, ghost a: int, ghost c: int, ghost first: int)
      requires |next| == |prev| == |buf| + 1 && 0 <= a <= |buf| && 0 <= b < |buf| && 0 <= c <= |buf| && 0 <= first <= |buf|
      requires a != b && c != b && next[b] == c && prev[b] == a && next[a := c][|buf|] == first
      modifies `next, `prev
      ensures next == NextAfter(old(next), |buf|, a, b, c, first) && prev == PrevAfter(old(prev), |buf|, a, b, c, first)
    {
      prev := prev[next[b] := prev[b]];
      next := next[prev[b] := next[b]];
      next := next[b := next[|buf|]];
      prev := prev[b := |buf|];
      prev := prev[next[|buf|] := b];
      next := next[|buf| := b];
    }

    /** brelse's relinking: `b` leaves its place in the list and becomes the most recently released. */
    method MoveToFront(b: int)
      requires Valid() && 0 <= b < |buf|
      modifies `next, `prev, `ring, `pos, `released
      ensures Valid() && released == old(released) + [b]
      ensures b < |old(pos)| && MovedFront(old(ring), old(pos)[b], ring)
    {
      hide *;
      Parts();
      ghost var n := |buf|;
      ListParts(next, prev, ring, pos, released, n);
      PlaceOf(ring, pos, n, b);
      ghost var k := pos[b];
      Neighbours(next, prev, ring, pos, n, k);
      ghost var ring' := ToFront(ring, n, k);
      ghost var pos' := Moved(next, prev, ring, pos, released, n, k, ring');
      Relink(b, ring[k - 1], ring[k + 1], if k == 1 then ring[2] else ring[1]);
      ring, pos, released := ring', pos', released + [b];
      Whole();
    }

    /** The critical section of brelse: drop a reference; the last one moves the buffer to the front. */
    method Put(b: int)
      requires Valid() && 0 <= b < |buf| && !buf[b].locked && buf[b].refcnt >= 1 && buf[b].dev != 0
      modifies `buf, `next, `prev, `ring, `pos, `released
      ensures Valid() && buf == old(buf)[b := old(buf)[b].(refcnt := old(buf)[b].refcnt - 1)]
      ensures buf[b].refcnt > 0 ==> released == old(released) && ring == old(ring)
      ensures buf[b].refcnt == 0 ==>
                released == old(released) + [b] && b < |old(pos)| && MovedFront(old(ring), old(pos)[b], ring)
    {
      hide ListOk, Coherent, Unique;
      Parts();
      DropOk(buf, disk, view, pinned, b);
      buf := buf[b := buf[b].(refcnt := buf[b].refcnt - 1)];
      Whole();
      if buf[b].refcnt == 0 {
        MoveToFront(b);
      }
    }

    /** brelse. */
    method Brelse(b: int)
      requires Valid() && 0 <= b < |buf| && buf[b].locked && buf[b].dev != 0
      requires buf[b].valid ==> 0 <= buf[b].blockno < |view| && buf[b].data == view[buf[b].blockno]
      modifies `buf, `next, `prev, `ring, `pos, `released
      ensures Valid() && buf == old(buf)[b := old(buf)[b].(locked := false, refcnt := old(buf)[b].refcnt - 1)]
      ensures buf[b].refcnt > 0 ==> released == old(released) && ring == old(ring)
      ensures buf[b].refcnt == 0 ==>
                released == old(released) + [b] && b < |old(pos)| && MovedFront(old(ring), old(pos)[b], ring)
    {
      hide ListOk, Coherent, Unique;
      Held(b);
      ReleaseSleep(b);
      Put(b);
    }

    lemma Held(b: int)
      requires Valid() && 0 <= b < |buf| && buf[b].locked
      ensures buf[b].refcnt >= 1
    {
      assert BufOk(buf[b], b, view, pinned);
    }
  }
}
