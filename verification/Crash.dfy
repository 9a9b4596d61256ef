/**
 The file system and the log together: an operation of Fs whose changed blocks all went through log_write
 is atomic under crashes at any point of its commit, and of the recoveries after it. Inodes, bitmap and data
 are read back from the disk itself, so what a crash leaves behind is again a sound file system.
 */
module Crash {
  import opened Blocks
  import opened Bitmap
  import opened FsTree
  import opened Inodes
  import opened Bio
  import opened LogDisk
  import opened FsSteps
  import Fs

  /** The home blocks of the disk hold `blk`. */
  ghost predicate OnDisk(d: Disk, blk: seq<Block>, start: int, size: int) {
    |blk| == |d| && forall x :: 0 <= x < |d| && Home(x, start, size) ==> d[x] == blk[x]
  }

  /** Operation `t` starts from `blk` and has logged every block it changed. */
  ghost predicate LogsAll(blk: seq<Block>, t: Transaction, logged: set<int>) {
    Covers(blk, {}, t.view, logged) && forall x :: x in logged ==> x in t.lh
  }

  /** `t` commits an operation that took the blocks from `blk` to `t.view`: whatever is cut, afterwards the disk
      holds all of the operation or nothing of it, and the log is clean for the next one. */
  lemma OperationAtomic(d: Disk, start: int, size: int, t: Transaction, blk: seq<Block>, logged: set<int>)
    requires Clean(d, start, size) && TransactionFits(t, |d|, start, size) && OnDisk(d, blk, start, size)
    requires LogsAll(blk, t, logged)
    ensures |After(d, start, size, t)| == |d| && Clean(After(d, start, size, t), start, size)
    ensures OnDisk(After(d, start, size, t), if Committed(t) then t.view else blk, start, size)
  {
    hide Clean, After, TransactionFits;
    AfterClean(d, start, size, t);
    forall x | 0 <= x < |d| && Home(x, start, size)
      ensures After(d, start, size, t)[x] == if Committed(t) then t.view[x] else blk[x]
    {
      AfterOne(d, start, size, t, x);
      assert t.view[x] != blk[x] ==> x in logged;
    }
  }

  /** A run of operations: the disk always holds the state after some of them, in order, each whole. */
  lemma {:induction false} RunAtomic(d: Disk, start: int, size: int, ts: seq<Transaction>, blk: seq<Block>)
    requires Clean(d, start, size) && AllFit(ts, |d|, start, size) && OnDisk(d, blk, start, size)
    requires Chained(ts, blk)
    ensures |AfterAll(d, start, size, ts)| == |d| && OnDisk(AfterAll(d, start, size, ts), Outcome(ts, blk), start, size)
    decreases |ts|
  {
    hide Clean, After, TransactionFits, LogsAll;
    if ts != [] {
      var logged :| LogsAll(blk, ts[0], logged);
      OperationAtomic(d, start, size, ts[0], blk, logged);
      RunAtomic(After(d, start, size, ts[0]), start, size, ts[1..], if Committed(ts[0]) then ts[0].view else blk);
    }
  }

  /** Each operation starts from the outcome of those before it, and logs every block it changes. */
  ghost predicate Chained(ts: seq<Transaction>, blk: seq<Block>)
    decreases |ts|
  {
    ts == [] ||
    ((exists logged :: LogsAll(blk, ts[0], logged))
     && Chained(ts[1..], if Committed(ts[0]) then ts[0].view else blk))
  }

  /** The blocks after the committed operations. */
  function Outcome(ts: seq<Transaction>, blk: seq<Block>): seq<Block>
    decreases |ts|
  {
    if ts == [] then blk else Outcome(ts[1..], if Committed(ts[0]) then ts[0].view else blk)
  }

  // ---------------------------------------------------------------------------------------------
  // The file system a disk holds
  // ---------------------------------------------------------------------------------------------

  /** All inodes as the disk has them. */
  function Decoded(sb: Super, blk: seq<Block>): (r: seq<Inode>)
    ensures |r| == if sb.ninodes < 0 then 0 else sb.ninodes
  {
    seq(if sb.ninodes < 0 then 0 else sb.ninodes, i => Dinode(sb, blk, i))
  }

  /** The inodes on the disk own the blocks as `owner` says, and the bitmap agrees. */
  ghost predicate OwnedAs(sb: Super, blk: seq<Block>, owner: map<int, Slot>) {
    FsOk(sb, Decoded(sb, blk), blk, owner, {})
  }

  ghost predicate Full(inode: seq<Inode>, blk: seq<Block>) {
    forall ino {:trigger inode[ino]} :: 0 <= ino < |inode| ==> NoHoles(inode, blk, ino)
  }

  /** A sound file system: no block has two owners, a block is marked exactly if it has one, and no file has holes. */
  ghost predicate Consistent(sb: Super, blk: seq<Block>) {
    InodeArea(sb, blk) && Full(Decoded(sb, blk), blk) && exists owner: map<int, Slot> :: OwnedAs(sb, blk, owner)
  }

  /** The blocks from the inodes on are the same. */
  ghost predicate SameBehind(sb: Super, blk: seq<Block>, blk': seq<Block>) {
    |blk'| == |blk| && forall x {:trigger blk'[x]} :: sb.inodestart <= x < |blk| && 0 <= x ==> blk'[x] == blk[x]
  }

  /** Inodes, addresses and file bytes depend on those blocks only. */
  lemma DecodedBehind(sb: Super, blk: seq<Block>, blk': seq<Block>)
    requires InodeArea(sb, blk) && SameBehind(sb, blk, blk')
    ensures InodeArea(sb, blk') && Decoded(sb, blk') == Decoded(sb, blk)
  {
    hide DecodeInode;
    forall o | 0 <= o < sb.ninodes
      ensures Dinode(sb, blk', o) == Dinode(sb, blk, o)
    {
      InodePlace(sb, blk, o);
    }
  }

  lemma AddrBehind(sb: Super, inode: seq<Inode>, blk: seq<Block>, blk': seq<Block>, owner: map<int, Slot>, o: int, i: int)
    requires Tree(inode, blk, owner, sb.datastart, sb.size) && 0 < sb.inodestart <= sb.datastart && SameBehind(sb, blk, blk')
    ensures Addr(inode, blk', o, i) == Addr(inode, blk, o, i)
  {
    assert Addr(inode, blk, o, NDIRECT) == 0 || Addr(inode, blk, o, NDIRECT) >= sb.datastart;
  }

  lemma BitBehind(sb: Super, blk: seq<Block>, blk': seq<Block>, b: int)
    requires MapOk(blk, sb.bmapstart, sb.datastart, sb.size) && sb.inodestart <= sb.bmapstart && SameBehind(sb, blk, blk') && 0 <= b < sb.size
    ensures InUse(blk', sb.bmapstart, b) <==> InUse(blk, sb.bmapstart, b)
  {
    hide BitOf;
    BitPlace(blk, sb.bmapstart, sb.datastart, sb.size, b);
  }

  lemma TreeBehind(sb: Super, inode: seq<Inode>, blk: seq<Block>, blk': seq<Block>, owner: map<int, Slot>)
    requires FsOk(sb, inode, blk, owner, {}) && 0 < sb.inodestart <= sb.bmapstart && SameBehind(sb, blk, blk')
    ensures FsOk(sb, inode, blk', owner, {}) && SameAddrs(inode, blk, inode, blk')
  {
    hide Addr, InUse, Tree;
    forall o, i
      ensures Addr(inode, blk', o, i) == Addr(inode, blk, o, i)
    {
      AddrBehind(sb, inode, blk, blk', owner, o, i);
    }
    SameTree(inode, blk, blk', owner, sb.datastart, sb.size);
    forall b | 0 <= b < sb.size
      ensures InUse(blk', sb.bmapstart, b) <==> b < sb.datastart || b in owner
    {
      assert InUse(blk, sb.bmapstart, b) <==> b < sb.datastart || b in owner || b in {};
      BitBehind(sb, blk, blk', b);
    }
  }

  /** Soundness is a property of those blocks. */
  lemma ConsistentBehind(sb: Super, blk: seq<Block>, blk': seq<Block>)
    requires Consistent(sb, blk) && SameBehind(sb, blk, blk') && sb.inodestart <= sb.bmapstart
    ensures Consistent(sb, blk') && Decoded(sb, blk') == Decoded(sb, blk)
    ensures SameAddrs(Decoded(sb, blk), blk, Decoded(sb, blk'), blk')
  {
    hide FsOk, SameBehind, InodeArea, SameAddrs, Decoded, Full;
    DecodedBehind(sb, blk, blk');
    var owner :| OwnedAs(sb, blk, owner);
    AreaFront(sb, blk);
    TreeBehind(sb, Decoded(sb, blk), blk, blk', owner);
    FullBehind(Decoded(sb, blk), blk, blk');
    assert OwnedAs(sb, blk', owner);
  }

  lemma FullBehind(inode: seq<Inode>, blk: seq<Block>, blk': seq<Block>)
    requires Full(inode, blk) && SameAddrs(inode, blk, inode, blk')
    ensures Full(inode, blk')
  {
    hide Addr;
    forall o | 0 <= o < |inode|
      ensures NoHoles(inode, blk', o)
    {
      assert NoHoles(inode, blk, o);
      forall k | 0 <= k < inode[o].size
        ensures Mapped(inode, blk', o, k)
      {
        assert Mapped(inode, blk, o, k);
      }
    }
  }

  lemma AreaFront(sb: Super, blk: seq<Block>)
    requires InodeArea(sb, blk)
    ensures 0 < sb.inodestart
  {
  }

  /** The file's bytes as the disk has them. */
  function FileOnDisk(sb: Super, blk: seq<Block>, ino: int): seq<int>
    requires 0 <= ino < sb.ninodes
  {
    Contents(Decoded(sb, blk), blk, ino)
  }

  lemma FileBehind(sb: Super, blk: seq<Block>, blk': seq<Block>, ino: int)
    requires Consistent(sb, blk) && SameBehind(sb, blk, blk') && sb.inodestart <= sb.bmapstart && 0 <= ino < sb.ninodes
    ensures FileOnDisk(sb, blk', ino) == FileOnDisk(sb, blk, ino)
  {
    hide Addr, InodeArea, Decoded;
    ConsistentBehind(sb, blk, blk');
    var owner :| OwnedAs(sb, blk, owner);
    var inode := Decoded(sb, blk);
    assert NoHoles(inode, blk, ino);
    assert |inode[ino].addrs| == NDIRECT + 1;
    forall k | 0 <= k < inode[ino].size
      ensures ByteAt(inode, blk', ino, k) == ByteAt(inode, blk, ino, k)
    {
      assert Mapped(inode, blk, ino, k);
      OwnedAreData(inode, blk, owner, sb.datastart, sb.size);
    }
  }

  // ---------------------------------------------------------------------------------------------
  // What a crash leaves
  // ---------------------------------------------------------------------------------------------

  /** mkfs puts the log between the superblock and the inodes. */
  predicate LogInFront(sb: Super, start: int, size: int) {
    0 < start && 0 < size && start + size <= sb.inodestart <= sb.bmapstart
  }

  /** Disk `e` holds the same sound file system as the blocks `v`. */
  ghost predicate Holds(sb: Super, e: Disk, v: seq<Block>) {
    && Consistent(sb, e) && Decoded(sb, e) == Decoded(sb, v)
    && forall ino {:trigger FileOnDisk(sb, e, ino)} :: 0 <= ino < sb.ninodes ==> FileOnDisk(sb, e, ino) == FileOnDisk(sb, v, ino)
  }

  lemma OnDiskHolds(sb: Super, d: Disk, blk: seq<Block>, start: int, size: int)
    requires OnDisk(d, blk, start, size) && LogInFront(sb, start, size) && Consistent(sb, blk)
    ensures Holds(sb, d, blk)
  {
    hide Consistent, Decoded, FileOnDisk;
    assert SameBehind(sb, blk, d);
    ConsistentBehind(sb, blk, d);
    forall ino | 0 <= ino < sb.ninodes
      ensures FileOnDisk(sb, d, ino) == FileOnDisk(sb, blk, ino)
    {
      FileBehind(sb, blk, d, ino);
    }
  }

  /** After any cut of the commit and of the recoveries the disk is a sound file system: inodes, bitmap and
      files are those after the operation, or all are those before it. */
  lemma CrashConsistent(sb: Super, d: Disk, start: int, size: int, t: Transaction, blk: seq<Block>, logged: set<int>)
    requires Clean(d, start, size) && TransactionFits(t, |d|, start, size) && OnDisk(d, blk, start, size)
    requires LogsAll(blk, t, logged) && LogInFront(sb, start, size) && Consistent(sb, blk) && Consistent(sb, t.view)
    ensures Holds(sb, After(d, start, size, t), if Committed(t) then t.view else blk)
  {
    hide Clean, After, TransactionFits, LogsAll, Consistent, OnDisk, Holds;
    OperationAtomic(d, start, size, t, blk, logged);
    OnDiskHolds(sb, After(d, start, size, t), if Committed(t) then t.view else blk, start, size);
  }

  ghost predicate AllConsistent(sb: Super, ts: seq<Transaction>) {
    forall i :: 0 <= i < |ts| ==> Consistent(sb, ts[i].view)
  }

  lemma {:induction false} OutcomeConsistent(sb: Super, ts: seq<Transaction>, blk: seq<Block>)
    requires AllConsistent(sb, ts) && Consistent(sb, blk)
    ensures Consistent(sb, Outcome(ts, blk))
    decreases |ts|
  {
    hide Consistent;
    if ts != [] {
      assert Consistent(sb, ts[0].view);
      OutcomeConsistent(sb, ts[1..], if Committed(ts[0]) then ts[0].view else blk);
    }
  }

  /** The same after any run of operations and crashes. */
  lemma {:induction false} RunConsistent(sb: Super, d: Disk, start: int, size: int, ts: seq<Transaction>, blk: seq<Block>)
    requires Clean(d, start, size) && AllFit(ts, |d|, start, size) && OnDisk(d, blk, start, size)
    requires Chained(ts, blk) && LogInFront(sb, start, size) && Consistent(sb, blk) && AllConsistent(sb, ts)
    ensures Holds(sb, AfterAll(d, start, size, ts), Outcome(ts, blk))
  {
    hide Clean, AfterAll, AllFit, Chained, Consistent, AllConsistent, OnDisk, Holds;
    RunAtomic(d, start, size, ts, blk);
    OutcomeConsistent(sb, ts, blk);
    OnDiskHolds(sb, AfterAll(d, start, size, ts), Outcome(ts, blk), start, size);
  }

  // ---------------------------------------------------------------------------------------------
  // Operations of Fs under crashes
  // ---------------------------------------------------------------------------------------------

  /** Between operations: every inode in core is on the disk. */
  ghost predicate Current(fs: Fs.Fs)
    reads fs
  {
    fs.Valid() && fs.inode == Decoded(fs.sb, fs.blk) && Full(fs.inode, fs.blk)
  }

  lemma CurrentConsistent(fs: Fs.Fs)
    requires Current(fs)
    ensures Consistent(fs.sb, fs.blk)
  {
    hide FsOk, Full, Decoded;
    assert OwnedAs(fs.sb, fs.blk, fs.owner);
  }

  /** However a commit of the logged blocks is cut, the disk ends with the blocks before or after. */
  ghost predicate Survives(sb: Super, d: Disk, start: int, size: int, blk: seq<Block>, blk': seq<Block>, logged: set<int>) {
    forall t {:trigger After(d, start, size, t)} ::
      Clean(d, start, size) && TransactionFits(t, |d|, start, size) && t.view == blk' && (forall x :: x in logged ==> x in t.lh) ==>
        Holds(sb, After(d, start, size, t), if Committed(t) then blk' else blk)
  }

  lemma OperationSurvives(sb: Super, d: Disk, start: int, size: int, blk: seq<Block>, blk': seq<Block>, logged: set<int>)
    requires OnDisk(d, blk, start, size) && LogInFront(sb, start, size) && Consistent(sb, blk) && Consistent(sb, blk')
    requires Covers(blk, {}, blk', logged)
    ensures Survives(sb, d, start, size, blk, blk', logged)
  {
    hide Clean, After, TransactionFits, Consistent, OnDisk, Holds, Covers;
    forall t | Clean(d, start, size) && TransactionFits(t, |d|, start, size) && t.view == blk' && (forall x :: x in logged ==> x in t.lh)
      ensures Holds(sb, After(d, start, size, t), if Committed(t) then blk' else blk)
    {
      CrashConsistent(sb, d, start, size, t, blk, logged);
    }
  }

  lemma FullKept(inode: seq<Inode>, blk: seq<Block>, inode': seq<Inode>, blk': seq<Block>, ino: int)
    requires Full(inode, blk) && KeepsOthers(inode, blk, inode', blk', ino) && |inode'| == |inode|
    requires forall o :: 0 <= o < |inode| && o != ino ==> inode'[o] == inode[o]
    requires 0 <= ino < |inode| ==> NoHoles(inode', blk', ino)
    ensures Full(inode', blk')
  {
    hide Mapped, ByteAt;
    forall o | 0 <= o < |inode| && o != ino
      ensures NoHoles(inode', blk', o)
    {
      assert NoHoles(inode, blk, o);
    }
  }

  lemma SyncedAll(sb: Super, inode: seq<Inode>, blk: seq<Block>, inode': seq<Inode>, blk': seq<Block>, ino: int)
    requires inode == Decoded(sb, blk) && OthersSame(sb, inode, blk, inode', blk', ino)
    requires 0 <= ino < |inode| ==> Dinode(sb, blk', ino) == inode'[ino]
    ensures inode' == Decoded(sb, blk')
  {
    hide Dinode;
    forall o | 0 <= o < |inode|
      ensures inode'[o] == Dinode(sb, blk', o)
    {
      assert o != ino ==> inode'[o] == inode[o] && Dinode(sb, blk', o) == Dinode(sb, blk, o);
    }
  }

  /** One transaction of filewrite, and any crash in its commit: the file on the disk is the spliced one or the
      old one, with size, addresses and bitmap to match. */
  method WriteSurvives(fs: Fs.Fs, ino: int, src: seq<int>, off: int, n: int, hasDriver: bool, ghost d: Disk, ghost start: int, ghost size: int)
    returns (r: IoResult)
    requires Current(fs) && 0 <= ino < |fs.inode| && 0 <= off < UINT_RANGE && 0 < n <= CHUNK && |src| == n
    requires OnDisk(d, fs.blk, start, size) && LogInFront(fs.sb, start, size)
    modifies fs
    ensures !r.Panicked? ==> Current(fs) && Survives(fs.sb, d, start, size, old(fs.blk), fs.blk, fs.logged)
    ensures !r.Panicked? ==> |fs.logged| <= 6 + BitmapBlocks(fs.sb)
    ensures r.Count? ==> off <= |FileOnDisk(fs.sb, old(fs.blk), ino)|
    ensures r.Count? ==> FileOnDisk(fs.sb, fs.blk, ino) == Splice(FileOnDisk(fs.sb, old(fs.blk), ino), off, src)
  {
    hide FsOk, Decoded, Full, Consistent, OnDisk, Survives, KeepsOthers, Covers, Splice, Dinode, NoHoles, Meta, DinodesBut;
    CurrentConsistent(fs);
    CurrentFile(fs, ino);
    r := fs.WriteOp(ino, src, off, n, hasDriver);
    if !r.Panicked? {
      FullKept(old(fs.inode), old(fs.blk), fs.inode, fs.blk, ino);
      SyncedAll(fs.sb, old(fs.inode), old(fs.blk), fs.inode, fs.blk, ino);
      CurrentConsistent(fs);
      OperationSurvives(fs.sb, d, start, size, old(fs.blk), fs.blk, fs.logged);
    }
  }

  lemma CurrentFile(fs: Fs.Fs, ino: int)
    requires Current(fs) && 0 <= ino < |fs.inode|
    ensures NoHoles(fs.inode, fs.blk, ino) && fs.Synced(ino)
    ensures FileOnDisk(fs.sb, fs.blk, ino) == Contents(fs.inode, fs.blk, ino)
  {
    hide FsOk, NoHoles, Dinode;
  }

  /** The last iput of an unlinked file, and any crash in its commit: the disk has the file with all its blocks,
      or a free inode and exactly those blocks free. */
  method IputSurvives(fs: Fs.Fs, ino: int, ghost d: Disk, ghost start: int, ghost size: int)
    requires Current(fs) && 0 <= ino < |fs.inode| && |fs.ref| == |fs.valid| == |fs.inode| && fs.logged == {}
    requires OnDisk(d, fs.blk, start, size) && LogInFront(fs.sb, start, size)
    modifies fs
    ensures Current(fs) && Survives(fs.sb, d, start, size, old(fs.blk), fs.blk, fs.logged)
    ensures |fs.logged| <= 1 + BitmapBlocks(fs.sb) && (fs.sb.size <= BPB ==> |fs.logged| <= 2 < MAXOPBLOCKS)
    ensures Decoded(fs.sb, fs.blk) ==
            if old(fs.valid)[ino] && old(fs.inode)[ino].nlink == 0 && old(fs.ref)[ino] == 1
            then old(fs.inode)[ino := old(fs.inode)[ino].(kind := 0, size := 0, addrs := NO_ADDRS)] else old(fs.inode)
  {
    hide FsOk, Decoded, Full, Consistent, OnDisk, Survives, KeepsOthers, Covers, Dinode, NoHoles, Meta, DinodesBut, LoggedBy, BitmapBlocks;
    CurrentConsistent(fs);
    CurrentFile(fs, ino);
    fs.Iput(ino);
    FreeBudget(fs.sb, ino, fs.logged);
    EmptyFull(fs.inode, fs.blk, ino);
    FullKept(old(fs.inode), old(fs.blk), fs.inode, fs.blk, ino);
    SyncedAll(fs.sb, old(fs.inode), old(fs.blk), fs.inode, fs.blk, ino);
    CurrentConsistent(fs);
    OperationSurvives(fs.sb, d, start, size, old(fs.blk), fs.blk, fs.logged);
  }

  lemma EmptyFull(inode: seq<Inode>, blk: seq<Block>, ino: int)
    requires 0 <= ino < |inode|
    ensures inode[ino].size == 0 ==> NoHoles(inode, blk, ino)
  {
  }
}
