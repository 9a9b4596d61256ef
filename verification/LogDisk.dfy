/**
 What the redo log of Offline 3/xv6/log.c does to the disk, block write by block write, and why a
 crash between any two of them is harmless.

 The log occupies the blocks start .. start + size - 1: the header block, then the slots. `lh` is
 the list of logged home blocks and `view` the contents the transaction gives them.
 */
module LogDisk {
  import opened Blocks
  import opened Bio

  const MAXOPBLOCKS := 10
  const LOGSIZE := 30

  // ---------------------------------------------------------------------------------------------
  // The header block
  // ---------------------------------------------------------------------------------------------

  /** read_head: the block numbers the header lists. */
  function ReadWords(b: Block, n: int): (lh: seq<int>)
    requires |b| == BSIZE && n < WORDS
    ensures |lh| == if n < 0 then 0 else n
    decreases if n < 0 then 0 else n
  {
    if n <= 0 then [] else ReadWords(b, n - 1) + [Word(b, n)]
  }

  predicate HeaderReadable(b: Block) {
    |b| == BSIZE && 0 <= Word(b, 0) <= LOGSIZE
  }

  function ReadHeader(b: Block): seq<int>
    requires HeaderReadable(b)
  {
    ReadWords(b, Word(b, 0))
  }

  predicate Words(lh: seq<int>) {
    |lh| <= LOGSIZE && forall i :: 0 <= i < |lh| ==> 0 <= lh[i] < UINT_RANGE
  }

  function PutWords(b: Block, lh: seq<int>, k: int): (r: Block)
    requires |b| == BSIZE && Words(lh) && 0 <= k <= |lh|
    ensures |r| == BSIZE
  {
    if k == 0 then b else SetWord(PutWords(b, lh, k - 1), k, lh[k - 1])
  }

  /** write_head: set the count and the listed words, leave the rest of the old header block. */
  function PutHeader(b: Block, lh: seq<int>): (r: Block)
    requires |b| == BSIZE && Words(lh)
    ensures |r| == BSIZE
  {
    PutWords(SetWord(b, 0, |lh|), lh, |lh|)
  }

  lemma {:induction false} PutWordsAt(b: Block, lh: seq<int>, k: int, j: int)
    requires |b| == BSIZE && Words(lh) && 0 <= k <= |lh| && 0 <= j < WORDS
    ensures Word(PutWords(b, lh, k), j) == if 1 <= j <= k then lh[j - 1] else Word(b, j)
    decreases k
  {
    if k > 0 {
      PutWordsAt(b, lh, k - 1, j);
      WordSetWord(PutWords(b, lh, k - 1), k, lh[k - 1], j);
    }
  }

  lemma {:induction false} ReadWordsAt(b: Block, n: int, i: int)
    requires |b| == BSIZE && 0 <= i < n < WORDS
    ensures ReadWords(b, n)[i] == Word(b, i + 1)
    decreases n
  {
    if i < n - 1 {
      ReadWordsAt(b, n - 1, i);
    }
  }

  /** What write_head writes, read_head reads back. */
  lemma HeaderRoundTrip(b: Block, lh: seq<int>)
    requires |b| == BSIZE && Words(lh)
    ensures HeaderReadable(PutHeader(b, lh)) && ReadHeader(PutHeader(b, lh)) == lh
  {
    hide Word, SetWord, PutWords, ReadWords;
    var h := PutHeader(b, lh);
    PutWordsAt(SetWord(b, 0, |lh|), lh, |lh|, 0);
    WordSetWord(b, 0, |lh|, 0);
    forall i | 0 <= i < |lh|
      ensures ReadWords(h, |lh|)[i] == lh[i]
    {
      ReadWordsAt(h, |lh|, i);
      PutWordsAt(SetWord(b, 0, |lh|), lh, |lh|, i + 1);
    }
  }

  // ---------------------------------------------------------------------------------------------
  // The block writes
  // ---------------------------------------------------------------------------------------------

  /** The home blocks `lh` lie on the disk outside the log area, and the log area can hold them. */
  predicate Fits(lh: seq<int>, blocks: int, start: int, size: int) {
    && Words(lh) && 0 <= start && |lh| < size && start + size <= blocks
    && (forall i :: 0 <= i < |lh| ==> 0 <= lh[i] < blocks && !(start <= lh[i] < start + size))
  }

  /** write_log after `k` blocks. */
  function Logged(d: Disk, start: int, lh: seq<int>, view: seq<Block>, k: int): (r: Disk)
    requires 0 <= k <= |lh| && 0 <= start && start + |lh| < |d| && forall i :: 0 <= i < |lh| ==> 0 <= lh[i] < |view|
    ensures |r| == |d|
  {
    if k == 0 then d else Logged(d, start, lh, view, k - 1)[start + k := view[lh[k - 1]]]
  }

  /** install_trans after `k` blocks. */
  function Install(d: Disk, start: int, lh: seq<int>, k: int): (r: Disk)
    requires 0 <= k <= |lh| && 0 <= start && start + |lh| < |d| && forall i :: 0 <= i < |lh| ==> 0 <= lh[i] < |d|
    ensures |r| == |d|
  {
    if k == 0 then d else
      var p := Install(d, start, lh, k - 1);
      p[lh[k - 1] := p[start + k]]
  }

  /** The last position below `k` where `x` is logged, or -1. */
  function Last(lh: seq<int>, x: int, k: int): (i: int)
    requires 0 <= k <= |lh|
    ensures -1 <= i < k && (i >= 0 ==> lh[i] == x)
  {
    if k == 0 then -1 else if lh[k - 1] == x then k - 1 else Last(lh, x, k - 1)
  }

  lemma {:induction false} LastIff(lh: seq<int>, x: int, k: int)
    requires 0 <= k <= |lh|
    ensures Last(lh, x, k) >= 0 <==> exists i :: 0 <= i < k && lh[i] == x
  {
    if k > 0 {
      LastIff(lh, x, k - 1);
    }
  }

  lemma {:induction false} LoggedAt(d: Disk, start: int, lh: seq<int>, view: seq<Block>, k: int, x: int)
    requires 0 <= k <= |lh| && 0 <= start && start + |lh| < |d| && forall i :: 0 <= i < |lh| ==> 0 <= lh[i] < |view|
    requires 0 <= x < |d|
    ensures Logged(d, start, lh, view, k)[x] == if start < x <= start + k then view[lh[x - start - 1]] else d[x]
    decreases k
  {
    if k > 0 {
      LoggedAt(d, start, lh, view, k - 1, x);
    }
  }

  lemma {:induction false} InstallAt(d: Disk, start: int, size: int, lh: seq<int>, k: int, x: int)
    requires Fits(lh, |d|, start, size) && 0 <= k <= |lh| && 0 <= x < |d|
    ensures
      var i := Last(lh, x, k);
      Install(d, start, lh, k)[x] == if i >= 0 then d[start + 1 + i] else d[x]
    ensures start <= x < start + size ==> Install(d, start, lh, k)[x] == d[x]
    decreases k
  {
    if k > 0 {
      InstallAt(d, start, size, lh, k - 1, x);
      InstallAt(d, start, size, lh, k - 1, start + k);
    }
  }

  predicate HeaderFits(d: Disk, start: int, size: int) {
    0 <= start < |d| && HeaderReadable(d[start]) && Fits(ReadHeader(d[start]), |d|, start, size)
  }

  /** A disk whose log is empty: what recovery leaves behind. */
  predicate Clean(d: Disk, start: int, size: int) {
    HeaderFits(d, start, size) && ReadHeader(d[start]) == []
  }

  /** recover_from_log run to its end. */
  function Recovered(d: Disk, start: int, size: int): (r: Disk)
    requires HeaderFits(d, start, size)
    ensures |r| == |d|
  {
    var lh := ReadHeader(d[start]);
    Install(d, start, lh, |lh|)[start := PutHeader(d[start], [])]
  }

  /** recover_from_log cut after `k` block writes. */
  function RecoveryDisk(d: Disk, start: int, size: int, k: int): (r: Disk)
    requires HeaderFits(d, start, size) && k >= 0
    ensures |r| == |d|
  {
    var lh := ReadHeader(d[start]);
    if k <= |lh| then Install(d, start, lh, k) else Recovered(d, start, size)
  }

  /** The number of block writes in a commit of `n` blocks. */
  function CommitWrites(n: int): int {
    2 * n + 2
  }

  /** commit cut after `k` block writes: log the blocks, write the header, install, clear the header. */
  function CommitDisk(d: Disk, start: int, size: int, lh: seq<int>, view: seq<Block>, k: int): (r: Disk)
    requires Fits(lh, |d|, start, size) && |view| == |d| && |d[start]| == BSIZE && 0 <= k
    ensures |r| == |d|
  {
    var n := |lh|;
    if k <= n then Logged(d, start, lh, view, k) else
      var h := Logged(d, start, lh, view, n)[start := PutHeader(d[start], lh)];
      if k <= 2 * n + 1 then Install(h, start, lh, k - n - 1)
      else Install(h, start, lh, n)[start := PutHeader(h[start], [])]
  }

  // ---------------------------------------------------------------------------------------------
  // Crash atomicity
  // ---------------------------------------------------------------------------------------------

  predicate Home(x: int, start: int, size: int) {
    !(start <= x < start + size)
  }

  lemma RecoveredAt(d: Disk, start: int, size: int, x: int)
    requires HeaderFits(d, start, size) && 0 <= x < |d|
    ensures
      var lh := ReadHeader(d[start]);
      var i := Last(lh, x, |lh|);
      Recovered(d, start, size)[x] ==
      if x == start then PutHeader(d[start], []) else if i >= 0 then d[start + 1 + i] else d[x]
  {
    var lh := ReadHeader(d[start]);
    InstallAt(d, start, size, lh, |lh|, x);
  }

  lemma RecoveredClean(d: Disk, start: int, size: int)
    requires HeaderFits(d, start, size)
    ensures Clean(Recovered(d, start, size), start, size)
  {
    HeaderRoundTrip(d[start], []);
  }

  /** Recovery cut anywhere and run again ends exactly where an uncut recovery ends. */
  lemma RecoveryRestartable(d: Disk, start: int, size: int, k: int)
    requires HeaderFits(d, start, size) && k >= 0
    ensures HeaderFits(RecoveryDisk(d, start, size, k), start, size)
    ensures Recovered(RecoveryDisk(d, start, size, k), start, size) == Recovered(d, start, size)
  {
    if k <= |ReadHeader(d[start])| {
      InstallRestartable(d, start, size, k);
    } else {
      RecoveredClean(d, start, size);
      forall x | 0 <= x < |d|
        ensures Recovered(Recovered(d, start, size), start, size)[x] == Recovered(d, start, size)[x]
      {
        RecoveredAt(Recovered(d, start, size), start, size, x);
        ClearTwice(d[start]);
      }
    }
  }

  lemma {:induction false} InstallRestartable(d: Disk, start: int, size: int, k: int)
    requires HeaderFits(d, start, size) && 0 <= k <= |ReadHeader(d[start])|
    ensures HeaderFits(Install(d, start, ReadHeader(d[start]), k), start, size)
    ensures Recovered(Install(d, start, ReadHeader(d[start]), k), start, size) == Recovered(d, start, size)
  {
    hide ReadHeader, HeaderReadable, Install, Last, PutHeader, Words;
    var lh := ReadHeader(d[start]);
    var e := Install(d, start, lh, k);
    InstallAt(d, start, size, lh, k, start);
    forall x | 0 <= x < |d|
      ensures Recovered(e, start, size)[x] == Recovered(d, start, size)[x]
    {
      RecoveredAt(d, start, size, x);
      RecoveredAt(e, start, size, x);
      InstallAt(d, start, size, lh, k, x);
      var i := Last(lh, x, |lh|);
      if i >= 0 {
        InstallAt(d, start, size, lh, k, start + 1 + i);
      } else {
        LastIff(lh, x, |lh|);
        LastIff(lh, x, k);
      }
    }
  }

  lemma ClearTwice(b: Block)
    requires |b| == BSIZE
    ensures PutHeader(PutHeader(b, []), []) == PutHeader(b, [])
  {
  }

  /** The disk after recovery was cut, one crash after the other, at the given write counts. */
  function Recoveries(d: Disk, start: int, size: int, cuts: seq<nat>): Disk
    requires HeaderFits(d, start, size)
    decreases |cuts|
  {
    if cuts == [] then d else
      var e := RecoveryDisk(d, start, size, cuts[0]);
      RecoveryRestartable(d, start, size, cuts[0]);
      Recoveries(e, start, size, cuts[1..])
  }

  /** Any number of crashes during recovery change nothing in the end. */
  lemma {:induction false} RecoverableAfterCrashes(d: Disk, start: int, size: int, cuts: seq<nat>)
    requires HeaderFits(d, start, size)
    ensures HeaderFits(Recoveries(d, start, size, cuts), start, size)
    ensures Recovered(Recoveries(d, start, size, cuts), start, size) == Recovered(d, start, size)
    decreases |cuts|
  {
    if cuts != [] {
      var e := RecoveryDisk(d, start, size, cuts[0]);
      RecoveryRestartable(d, start, size, cuts[0]);
      RecoverableAfterCrashes(e, start, size, cuts[1..]);
    }
  }

  lemma CommitHeader(d: Disk, start: int, size: int, lh: seq<int>, view: seq<Block>, k: int)
    requires Clean(d, start, size) && Fits(lh, |d|, start, size) && |view| == |d| && k >= 0
    ensures HeaderFits(CommitDisk(d, start, size, lh, view, k), start, size)
    ensures ReadHeader(CommitDisk(d, start, size, lh, view, k)[start]) == if |lh| < k <= 2 * |lh| + 1 then lh else []
  {
    var n := |lh|;
    LoggedAt(d, start, lh, view, if k <= n then k else n, start);
    HeaderRoundTrip(d[start], lh);
    if k > n {
      var h := Logged(d, start, lh, view, n)[start := PutHeader(d[start], lh)];
      InstallAt(h, start, size, lh, if k <= 2 * n + 1 then k - n - 1 else n, start);
      HeaderRoundTrip(h[start], []);
    }
  }

  /** Crash atomicity: recovery after a commit cut anywhere yields all of the transaction or none. */
  lemma CommitAtomic(d: Disk, start: int, size: int, lh: seq<int>, view: seq<Block>, k: int, x: int)
    requires Clean(d, start, size) && Fits(lh, |d|, start, size) && |view| == |d| && k >= 0
    requires 0 <= x < |d| && Home(x, start, size)
    ensures HeaderFits(CommitDisk(d, start, size, lh, view, k), start, size)
    ensures Recovered(CommitDisk(d, start, size, lh, view, k), start, size)[x] == if k > |lh| && x in lh then view[x] else d[x]
  {
    hide CommitDisk, Recovered, ReadHeader, Install, Logged, PutHeader;
    var n := |lh|;
    var e := CommitDisk(d, start, size, lh, view, k);
    CommitHeader(d, start, size, lh, view, k);
    RecoveredAt(e, start, size, x);
    LastIff(lh, x, n);
    if k <= n {
      CommitDiskAt(d, start, size, lh, view, k, x);
    } else {
      CommitDiskAt(d, start, size, lh, view, k, x);
      if k <= 2 * n + 1 && Last(lh, x, n) >= 0 {
        CommitDiskAt(d, start, size, lh, view, k, start + 1 + Last(lh, x, n));
      }
    }
  }

  lemma {:induction false} CommitDiskAt(d: Disk, start: int, size: int, lh: seq<int>, view: seq<Block>, k: int, x: int)
    requires Clean(d, start, size) && Fits(lh, |d|, start, size) && |view| == |d| && k >= 0 && 0 <= x < |d|
    ensures
      var e, n := CommitDisk(d, start, size, lh, view, k)[x], |lh|;
      && (k <= n && Home(x, start, size) ==> e == d[x])
      && (n < k <= 2 * n + 1 && start < x <= start + n ==> e == view[lh[x - start - 1]])
      && (n < k <= 2 * n + 1 && Home(x, start, size) ==> e == if Last(lh, x, k - n - 1) >= 0 then view[x] else d[x])
      && (k > 2 * n + 1 && Home(x, start, size) ==> e == if Last(lh, x, n) >= 0 then view[x] else d[x])
      && (Last(lh, x, n) < 0 && n < k <= 2 * n + 1 ==> Last(lh, x, k - n - 1) < 0)
  {
    var n := |lh|;
    if k <= n {
      LoggedAt(d, start, lh, view, k, x);
    } else {
      var h := Logged(d, start, lh, view, n)[start := PutHeader(d[start], lh)];
      var m := if k <= 2 * n + 1 then k - n - 1 else n;
      InstalledAt(d, start, size, lh, view, h, m, x);
      LastIff(lh, x, n);
      LastIff(lh, x, m);
    }
  }

  /** Past the header write, a home block holds its new contents or will get them from its slot. */
  lemma {:induction false} InstalledAt(d: Disk, start: int, size: int, lh: seq<int>, view: seq<Block>, h: Disk, m: int, x: int)
    requires Fits(lh, |d|, start, size) && |view| == |d| && |d[start]| == BSIZE && 0 <= m <= |lh| && 0 <= x < |d|
    requires h == Logged(d, start, lh, view, |lh|)[start := PutHeader(d[start], lh)]
    ensures start < x <= start + |lh| ==> Install(h, start, lh, m)[x] == view[lh[x - start - 1]]
    ensures Home(x, start, size) ==> Install(h, start, lh, m)[x] == if Last(lh, x, m) >= 0 then view[x] else d[x]
    ensures Home(x, start, size) && m == |lh| && Last(lh, x, m) >= 0 ==> Install(h, start, lh, m)[x] == view[x]
  {
    InstallAt(h, start, size, lh, m, x);
    LoggedAt(d, start, lh, view, |lh|, x);
    var j := Last(lh, x, m);
    if j >= 0 {
      LoggedAt(d, start, lh, view, |lh|, start + 1 + j);
    }
  }

  // ---------------------------------------------------------------------------------------------
  // Whole histories
  // ---------------------------------------------------------------------------------------------

  /** One transaction: `cut` is None if its commit ran to the end, else where a crash cut it, and
      `cuts` are the crashes during the recoveries that followed. */
  datatype Transaction = Done(lh: seq<int>, view: seq<Block>) | Crashed(lh: seq<int>, view: seq<Block>, cut: nat, cuts: seq<nat>)

  predicate TransactionFits(t: Transaction, blocks: int, start: int, size: int) {
    Fits(t.lh, blocks, start, size) && |t.view| == blocks
  }

  /** A transaction happened if its header reached the disk. */
  predicate Committed(t: Transaction) {
    t.Done? || t.cut > |t.lh|
  }

  function After(d: Disk, start: int, size: int, t: Transaction): Disk
    requires Clean(d, start, size) && TransactionFits(t, |d|, start, size)
  {
    match t
    case Done(lh, view) => CommitDisk(d, start, size, lh, view, CommitWrites(|lh|))
    case Crashed(lh, view, cut, cuts) =>
      CommitHeader(d, start, size, lh, view, cut);
      var e := CommitDisk(d, start, size, lh, view, cut);
      RecoverableAfterCrashes(e, start, size, cuts);
      Recovered(Recoveries(e, start, size, cuts), start, size)
  }

  /** One transaction, crashed or not, leaves a clean log ... */
  lemma AfterClean(d: Disk, start: int, size: int, t: Transaction)
    requires Clean(d, start, size) && TransactionFits(t, |d|, start, size)
    ensures |After(d, start, size, t)| == |d| && Clean(After(d, start, size, t), start, size)
  {
    match t
    case Done(lh, view) =>
      CommitHeader(d, start, size, lh, view, CommitWrites(|lh|));
    case Crashed(lh, view, cut, cuts) =>
      CommitHeader(d, start, size, lh, view, cut);
      var e := CommitDisk(d, start, size, lh, view, cut);
      RecoverableAfterCrashes(e, start, size, cuts);
      RecoveredClean(e, start, size);
  }

  /** ... and is atomic. */
  lemma AfterOne(d: Disk, start: int, size: int, t: Transaction, x: int)
    requires Clean(d, start, size) && TransactionFits(t, |d|, start, size)
    requires 0 <= x < |d| && Home(x, start, size)
    ensures |After(d, start, size, t)| == |d|
    ensures After(d, start, size, t)[x] == if Committed(t) && x in t.lh then t.view[x] else d[x]
  {
    match t
    case Done(lh, view) =>
      CommitHeader(d, start, size, lh, view, CommitWrites(|lh|));
      CommitAtomic(d, start, size, lh, view, CommitWrites(|lh|), x);
      var e := CommitDisk(d, start, size, lh, view, CommitWrites(|lh|));
      RecoveredAt(e, start, size, x);
    case Crashed(lh, view, cut, cuts) =>
      CommitAtomic(d, start, size, lh, view, cut, x);
      var e := CommitDisk(d, start, size, lh, view, cut);
      CommitHeader(d, start, size, lh, view, cut);
      RecoverableAfterCrashes(e, start, size, cuts);
  }

  /** The atomic reading of a history: committed transactions apply whole, the others not at all. */
  function Atomic(block: Block, x: int, ts: seq<Transaction>): Block
    decreases |ts|
  {
    if ts == [] then block else
      var t := ts[0];
      Atomic(if Committed(t) && x in t.lh && 0 <= x < |t.view| then t.view[x] else block, x, ts[1..])
  }

  predicate AllFit(ts: seq<Transaction>, blocks: int, start: int, size: int) {
    forall i :: 0 <= i < |ts| ==> TransactionFits(ts[i], blocks, start, size)
  }

  ghost function AfterAll(d: Disk, start: int, size: int, ts: seq<Transaction>): (r: Disk)
    requires Clean(d, start, size) && AllFit(ts, |d|, start, size)
    decreases |ts|
  {
    if ts == [] then d else
      AfterClean(d, start, size, ts[0]);
      AfterAll(After(d, start, size, ts[0]), start, size, ts[1..])
  }

  /** Over any history of commits, crashes and interrupted recoveries, the home blocks read as if
      every transaction had been atomic. */
  lemma {:induction false} HistoryAtomic(d: Disk, start: int, size: int, ts: seq<Transaction>, x: int)
    requires Clean(d, start, size) && AllFit(ts, |d|, start, size)
    requires 0 <= x < |d| && Home(x, start, size)
    ensures |AfterAll(d, start, size, ts)| == |d| && Clean(AfterAll(d, start, size, ts), start, size)
    ensures AfterAll(d, start, size, ts)[x] == Atomic(d[x], x, ts)
    decreases |ts|
  {
    if ts != [] {
      AfterOne(d, start, size, ts[0], x);
      AfterClean(d, start, size, ts[0]);
      HistoryAtomic(After(d, start, size, ts[0]), start, size, ts[1..], x);
    }
  }

  // ---------------------------------------------------------------------------------------------
  // Traces: the disks after each write
  // ---------------------------------------------------------------------------------------------

  function CommitTrace(d: Disk, start: int, size: int, lh: seq<int>, view: seq<Block>, k: int): (r: seq<Disk>)
    requires Fits(lh, |d|, start, size) && |view| == |d| && |d[start]| == BSIZE && 0 <= k
    ensures |r| == k
  {
    if k == 0 then [] else CommitTrace(d, start, size, lh, view, k - 1) + [CommitDisk(d, start, size, lh, view, k)]
  }

  function InstallTrace(d: Disk, start: int, lh: seq<int>, k: int): (r: seq<Disk>)
    requires 0 <= k <= |lh| && 0 <= start && start + |lh| < |d| && forall i :: 0 <= i < |lh| ==> 0 <= lh[i] < |d|
    ensures |r| == k
  {
    if k == 0 then [] else InstallTrace(d, start, lh, k - 1) + [Install(d, start, lh, k)]
  }

  function RecoveryTrace(d: Disk, start: int, size: int, k: int): (r: seq<Disk>)
    requires HeaderFits(d, start, size) && 0 <= k
    ensures |r| == k
  {
    if k == 0 then [] else RecoveryTrace(d, start, size, k - 1) + [RecoveryDisk(d, start, size, k)]
  }

  lemma {:induction false} CommitTraceAt(d: Disk, start: int, size: int, lh: seq<int>, view: seq<Block>, k: int, i: int)
    requires Fits(lh, |d|, start, size) && |view| == |d| && |d[start]| == BSIZE && 0 <= i < k
    ensures CommitTrace(d, start, size, lh, view, k)[i] == CommitDisk(d, start, size, lh, view, i + 1)
    decreases k
  {
    if i < k - 1 {
      CommitTraceAt(d, start, size, lh, view, k - 1, i);
    }
  }

  lemma {:induction false} CommitInstallDisk(d: Disk, start: int, size: int, lh: seq<int>, view: seq<Block>, h: Disk, k: int)
    requires Fits(lh, |d|, start, size) && |view| == |d| && |d[start]| == BSIZE && 0 <= k <= |lh|
    requires h == CommitDisk(d, start, size, lh, view, |lh| + 1)
    ensures CommitDisk(d, start, size, lh, view, |lh| + 1 + k) == Install(h, start, lh, k)
  {
  }

  lemma CommitTraceStep(d: Disk, start: int, size: int, lh: seq<int>, view: seq<Block>, k: int)
    requires Fits(lh, |d|, start, size) && |view| == |d| && |d[start]| == BSIZE && 0 <= k
    ensures CommitTrace(d, start, size, lh, view, k + 1) ==
            CommitTrace(d, start, size, lh, view, k) + [CommitDisk(d, start, size, lh, view, k + 1)]
  {
  }

  /** The installing part of a commit's trace is the trace of installing from the logged disk. */
  lemma {:induction false} CommitInstallTrace(d: Disk, start: int, size: int, lh: seq<int>, view: seq<Block>, h: Disk, k: int)
    requires Fits(lh, |d|, start, size) && |view| == |d| && |d[start]| == BSIZE && 0 <= k <= |lh|
    requires h == CommitDisk(d, start, size, lh, view, |lh| + 1) && Fits(lh, |h|, start, size)
    ensures CommitTrace(d, start, size, lh, view, |lh| + 1 + k) ==
            CommitTrace(d, start, size, lh, view, |lh| + 1) + InstallTrace(h, start, lh, k)
    ensures CommitDisk(d, start, size, lh, view, |lh| + 1 + k) == Install(h, start, lh, k)
    decreases k
  {
    hide *;
    FitsFacts(lh, |d|, start, size);
    CommitInstallDisk(d, start, size, lh, view, h, k);
    if k == 0 {
      InstallStart(h, start, size, lh);
    } else {
      CommitInstallTrace(d, start, size, lh, view, h, k - 1);
      CommitTraceStep(d, start, size, lh, view, |lh| + k);
      InstallStep(h, start, size, lh, k - 1);
    }
  }

  lemma {:induction false} RecoveryInstallTrace(d: Disk, start: int, size: int, k: int)
    requires HeaderFits(d, start, size) && 0 <= k <= |ReadHeader(d[start])|
    ensures RecoveryTrace(d, start, size, k) == InstallTrace(d, start, ReadHeader(d[start]), k)
    decreases k
  {
    if k > 0 {
      RecoveryInstallTrace(d, start, size, k - 1);
    }
  }

  lemma FitsFacts(lh: seq<int>, blocks: int, start: int, size: int)
    requires Fits(lh, blocks, start, size)
    ensures |lh| <= LOGSIZE && 0 <= start && start + |lh| < start + size <= blocks && Words(lh) && Words([])
    ensures forall i :: 0 <= i < |lh| ==> 0 <= lh[i] < blocks && Home(lh[i], start, size)
  {
  }

  /** One more block in the log phase of a commit. */
  lemma LogStep(d: Disk, start: int, size: int, lh: seq<int>, view: seq<Block>, k: int, home: Block)
    requires Fits(lh, |d|, start, size) && |view| == |d| && |d[start]| == BSIZE && 0 <= k < |lh|
    requires home == Logged(view, start, lh, view, k)[lh[k]]
    ensures
      var d' := Logged(d, start, lh, view, k)[start + k + 1 := home];
      && d' == Logged(d, start, lh, view, k + 1)
      && CommitTrace(d, start, size, lh, view, k + 1) == CommitTrace(d, start, size, lh, view, k) + [d']
    ensures Logged(view, start, lh, view, k + 1) == Logged(view, start, lh, view, k)[start + k + 1 := home]
  {
    LoggedAt(view, start, lh, view, k, lh[k]);
  }

  lemma {:induction false} LogStart(d: Disk, start: int, size: int, lh: seq<int>, view: seq<Block>)
    requires Fits(lh, |d|, start, size) && |view| == |d| && |d[start]| == BSIZE
    ensures Logged(d, start, lh, view, 0) == d && Logged(view, start, lh, view, 0) == view
    ensures CommitTrace(d, start, size, lh, view, 0) == []
  {
  }

  /** One more block installed. */
  lemma InstallStep(d: Disk, start: int, size: int, lh: seq<int>, k: int)
    requires Fits(lh, |d|, start, size) && 0 <= k < |lh|
    ensures
      var p := Install(d, start, lh, k);
      && Install(d, start, lh, k + 1) == p[lh[k] := p[start + k + 1]]
      && InstallTrace(d, start, lh, k + 1) == InstallTrace(d, start, lh, k) + [Install(d, start, lh, k + 1)]
  {
  }

  lemma {:induction false} InstallStart(d: Disk, start: int, size: int, lh: seq<int>)
    requires Fits(lh, |d|, start, size)
    ensures Install(d, start, lh, 0) == d && InstallTrace(d, start, lh, 0) == []
  {
  }

  /** The header write of a commit. */
  lemma {:induction false} CommitMiddle(d: Disk, start: int, size: int, lh: seq<int>, view: seq<Block>, l: Disk)
    requires Fits(lh, |d|, start, size) && |view| == |d| && |d[start]| == BSIZE
    requires l == Logged(d, start, lh, view, |lh|)
    ensures |l| == |d| && l[start] == d[start] && l[start := PutHeader(d[start], lh)] == CommitDisk(d, start, size, lh, view, |lh| + 1)
    ensures CommitTrace(d, start, size, lh, view, |lh| + 1) ==
            CommitTrace(d, start, size, lh, view, |lh|) + [CommitDisk(d, start, size, lh, view, |lh| + 1)]
    ensures Logged(view, start, lh, view, |lh|)[start] == view[start]
  {
    LoggedAt(d, start, lh, view, |lh|, start);
    LoggedAt(view, start, lh, view, |lh|, start);
  }

  /** The last write of a commit. */
  lemma CommitFinish(d: Disk, start: int, size: int, lh: seq<int>, view: seq<Block>, e: Disk, m: int)
    requires Clean(d, start, size) && Fits(lh, |d|, start, size) && |view| == |d| && |d[start]| == BSIZE
    requires m == 2 * |lh| + 1 && e == CommitDisk(d, start, size, lh, view, m)
    ensures |e| == |d| && 0 <= start < |d| && |e[start]| == BSIZE && Words([])
    ensures e[start := PutHeader(e[start], [])] == CommitDisk(d, start, size, lh, view, m + 1)
    ensures Clean(e[start := PutHeader(e[start], [])], start, size)
    ensures CommitTrace(d, start, size, lh, view, m + 1) ==
            CommitTrace(d, start, size, lh, view, m) + [CommitDisk(d, start, size, lh, view, m + 1)]
  {
    CommitHeader(d, start, size, lh, view, m + 1);
    CommitLast(d, start, size, lh, view, m);
  }

  lemma CommitLast(d: Disk, start: int, size: int, lh: seq<int>, view: seq<Block>, m: int)
    requires Fits(lh, |d|, start, size) && |view| == |d| && |d[start]| == BSIZE && m == 2 * |lh| + 1
    ensures
      var e := CommitDisk(d, start, size, lh, view, m);
      |e[start]| == BSIZE && Words([]) && CommitDisk(d, start, size, lh, view, m + 1) == e[start := PutHeader(e[start], [])]
  {
    var h := Logged(d, start, lh, view, |lh|)[start := PutHeader(d[start], lh)];
    InstallAt(h, start, size, lh, |lh|, start);
    assert m - |lh| - 1 == |lh|;
  }

  lemma {:induction false} LoggedIsCommit(d: Disk, start: int, size: int, lh: seq<int>, view: seq<Block>, k: int)
    requires Fits(lh, |d|, start, size) && |view| == |d| && |d[start]| == BSIZE && 0 <= k <= |lh|
    ensures CommitDisk(d, start, size, lh, view, k) == Logged(d, start, lh, view, k)
  {
  }

  lemma HeaderParts(d: Disk, start: int, size: int)
    requires HeaderFits(d, start, size)
    ensures 0 <= start < |d| && HeaderReadable(d[start]) && |d[start]| == BSIZE
    ensures Fits(ReadHeader(d[start]), |d|, start, size) && Words([])
  {
  }

  /** Recovery after `k` installed blocks, and its last write. */
  lemma RecoverySteps(d: Disk, start: int, size: int, k: int)
    requires HeaderFits(d, start, size) && 0 <= k <= |ReadHeader(d[start])|
    ensures
      var lh := ReadHeader(d[start]);
      && RecoveryDisk(d, start, size, k) == Install(d, start, lh, k)
      && RecoveryTrace(d, start, size, k) == InstallTrace(d, start, lh, k)
    ensures
      var n := |ReadHeader(d[start])|;
      var e := RecoveryDisk(d, start, size, n);
      && |e[start]| == BSIZE && e[start := PutHeader(e[start], [])] == RecoveryDisk(d, start, size, n + 1)
      && RecoveryDisk(d, start, size, n + 1) == Recovered(d, start, size) && Clean(Recovered(d, start, size), start, size)
      && RecoveryTrace(d, start, size, n + 1) == RecoveryTrace(d, start, size, n) + [Recovered(d, start, size)]
  {
    hide CommitDisk, CommitTrace, Word, PutHeader;
    RecoveryInstallTrace(d, start, size, k);
    InstallAt(d, start, size, ReadHeader(d[start]), |ReadHeader(d[start])|, start);
    RecoveredClean(d, start, size);
  }
}
