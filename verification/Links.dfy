/**
 Directories and link counts of Offline 3/xv6/sysfile.c and fs.c, as values: inodes by number, with the
 entries of the directories, the link counts, and the references that open files and working
 directories hold. `pending` counts the sys_link calls that have raised nlink and not yet written their
 entry.
 */
module Links {
  import opened Counting

  const T_DIR := 1
  const T_FILE := 2
  const ROOTINO := 1

  datatype Dirent = Dirent(inum: int, name: string)

  datatype Node = Node(kind: int, nlink: int, ref: int, ents: seq<Dirent>)

  predicate IsDir(n: Node) {
    n.kind == T_DIR
  }

  predicate Linked(n: Node) {
    IsDir(n) && n.nlink > 0
  }

  /** The entries, other than ".", that name inode `i`. */
  function Names(i: int): Dirent -> bool {
    (e: Dirent) => e.inum == i && e.name != "."
  }

  function Weight(n: Node, i: int): int {
    if Linked(n) then Count(n.ents, Names(i)) else 0
  }

  function Weights(i: int): Node -> int {
    (n: Node) => Weight(n, i)
  }

  /** The number of entries in linked directories that name `i`, not counting ".". */
  function Entries(nodes: seq<Node>, i: int): int {
    Total(nodes, Weights(i))
  }

  /** Names in a directory are unique; the first two entries are "." and "..". */
  ghost predicate DirOk(nodes: seq<Node>, d: int)
    requires 0 <= d < |nodes|
  {
    var e := nodes[d].ents;
    IsDir(nodes[d]) ==>
      && |e| >= 2 && e[0] == Dirent(d, ".") && e[1].name == ".." && 0 < e[1].inum < |nodes|
      && (forall j, k :: 0 <= j < k < |e| && e[j].inum != 0 && e[k].inum != 0 ==> e[j].name != e[k].name)
      && (forall k :: 0 <= k < |e| ==> 0 <= e[k].inum < |nodes|)
  }

  /** `k` is a name in the tree: not "." or "..". */
  predicate Proper(nodes: seq<Node>, p: int, k: int) {
    0 <= p < |nodes| && 2 <= k < |nodes[p].ents| && IsDir(nodes[p]) && nodes[p].ents[k].inum != 0
  }

  /** Every proper entry stands in a linked directory and names an inode in use; a directory it names has this
      directory as its "..". So a directory that is no longer linked is empty. */
  ghost predicate Targets(nodes: seq<Node>) {
    forall p, k {:trigger Proper(nodes, p, k)} :: Proper(nodes, p, k) ==> TargetOk(nodes, p, nodes[p].ents[k].inum)
  }

  predicate TargetOk(nodes: seq<Node>, p: int, d: int)
    requires 0 <= p < |nodes|
  {
    && nodes[p].nlink > 0 && d != p && d != ROOTINO && 0 < d < |nodes| && nodes[d].kind != 0
    && (IsDir(nodes[d]) ==> nodes[d].nlink > 0 && |nodes[d].ents| >= 2 && nodes[d].ents[1].inum == p)
  }

  /** No two proper entries name the same directory. */
  ghost predicate UniqueNames(nodes: seq<Node>) {
    forall p, j, k {:trigger Proper(nodes, p, j), Proper(nodes, p, k)} ::
      Proper(nodes, p, j) && Proper(nodes, p, k) && j < k && nodes[p].ents[j].inum == nodes[p].ents[k].inum ==>
        !IsDirAt(nodes, nodes[p].ents[j].inum)
  }

  predicate IsDirAt(nodes: seq<Node>, d: int) {
    0 <= d < |nodes| && IsDir(nodes[d])
  }

  /** Every linked directory but the root is named by an entry of the directory its ".." names. */
  ghost predicate Attached(nodes: seq<Node>) {
    forall d :: 0 <= d < |nodes| && d != ROOTINO && Linked(nodes[d]) ==> HasEntry(nodes, d)
  }

  ghost predicate HasEntry(nodes: seq<Node>, d: int)
    requires 0 <= d < |nodes|
  {
    |nodes[d].ents| >= 2 && exists k :: Proper(nodes, nodes[d].ents[1].inum, k) && nodes[nodes[d].ents[1].inum].ents[k].inum == d
  }

  /** nlink counts the entries in linked directories, and the pending links. */
  ghost predicate Counted(nodes: seq<Node>, pending: seq<int>) {
    && |pending| == |nodes|
    && (forall i :: 1 <= i < |nodes| ==> nodes[i].nlink == Entries(nodes, i) + pending[i])
    && (forall i :: 0 <= i < |nodes| ==> pending[i] >= 0)
    && (forall i :: 0 <= i < |nodes| && pending[i] > 0 ==> nodes[i].kind != 0 && !IsDir(nodes[i]))
  }

  ghost predicate Dirs(nodes: seq<Node>) {
    && |nodes| > ROOTINO && Linked(nodes[ROOTINO]) && nodes[0].kind == 0
    && (forall d :: 0 <= d < |nodes| ==> DirOk(nodes, d))
    && |nodes[ROOTINO].ents| >= 2 && nodes[ROOTINO].ents[1].inum == ROOTINO
    && (forall i :: 0 <= i < |nodes| && nodes[i].kind == 0 ==> nodes[i].nlink == 0)
  }

  ghost predicate Inv(nodes: seq<Node>, pending: seq<int>) {
    Dirs(nodes) && Targets(nodes) && UniqueNames(nodes) && Attached(nodes) && Counted(nodes, pending)
  }

  // ---------------------------------------------------------------------------------------------
  // Counting entries
  // ---------------------------------------------------------------------------------------------

  lemma WeightsPositive(nodes: seq<Node>, i: int)
    ensures forall k :: 0 <= k < |nodes| ==> Weights(i)(nodes[k]) >= 0
  {
  }

  lemma EntriesUpdate(nodes: seq<Node>, d: int, n: Node, i: int)
    requires 0 <= d < |nodes|
    ensures Entries(nodes[d := n], i) == Entries(nodes, i) - Weight(nodes[d], i) + Weight(n, i)
  {
    TotalUpdate(nodes, Weights(i), d, n);
  }

  /** Writing an entry into a slot, or appending it. */
  function Put(e: seq<Dirent>, k: int, d: Dirent): (r: seq<Dirent>)
    requires 0 <= k <= |e|
    ensures |r| == if k < |e| then |e| else |e| + 1
    ensures forall j :: 0 <= j < |r| ==> r[j] == if j == k then d else e[j]
  {
    if k < |e| then e[k := d] else e + [d]
  }

  lemma {:induction false} PutCount(e: seq<Dirent>, k: int, d: Dirent, i: int)
    requires 0 <= k <= |e| && (k < |e| ==> e[k].inum == 0) && i >= 1
    ensures Count(Put(e, k, d), Names(i)) == Count(e, Names(i)) + if d.inum == i && d.name != "." then 1 else 0
  {
    if k < |e| {
      CountUpdate(e, Names(i), k, d);
    } else {
      CountAppend(e, Names(i), d);
    }
  }

  const EMPTY := Dirent(0, "")

  lemma ClearCount(e: seq<Dirent>, k: int, i: int)
    requires 0 <= k < |e| && e[k].name != "." && i >= 1
    ensures Count(e[k := EMPTY], Names(i)) == Count(e, Names(i)) - if e[k].inum == i then 1 else 0
  {
    CountUpdate(e, Names(i), k, EMPTY);
  }

  /** A proper entry of a linked directory is counted. */
  lemma EntryCounts(nodes: seq<Node>, p: int, k: int)
    requires Dirs(nodes) && Proper(nodes, p, k) && nodes[p].nlink > 0
    ensures nodes[p].ents[k].name != "." && nodes[p].ents[k].name != ".."
    ensures Entries(nodes, nodes[p].ents[k].inum) >= Weight(nodes[p], nodes[p].ents[k].inum) >= 1
  {
    var i := nodes[p].ents[k].inum;
    assert DirOk(nodes, p);
    CountOne(nodes[p].ents, Names(i), k);
    WeightsPositive(nodes, i);
    TotalOne(nodes, Weights(i), p);
  }

  /** Nobody names a free inode, or a directory that is no longer linked. */
  lemma NotNamed(nodes: seq<Node>, pending: seq<int>, i: int)
    requires Inv(nodes, pending) && 1 <= i < |nodes| && nodes[i].nlink == 0
    ensures Entries(nodes, i) == 0 && pending[i] == 0
    ensures forall p, k :: Proper(nodes, p, k) ==> nodes[p].ents[k].inum != i
  {
    hide Attached, UniqueNames, Entries;
    EntriesPositive(nodes, i);
    forall p, k | Proper(nodes, p, k)
      ensures nodes[p].ents[k].inum != i
    {
      EntryCounts(nodes, p, k);
    }
  }

  lemma EntriesPositive(nodes: seq<Node>, i: int)
    ensures Entries(nodes, i) >= 0
  {
    WeightsPositive(nodes, i);
    TotalPositive(nodes, Weights(i));
  }

  // ---------------------------------------------------------------------------------------------
  // The width of nlink
  // ---------------------------------------------------------------------------------------------

  /** param.h: blocks of the file system and processes; fs.h: directory entries in a block. */
  const FSSIZE := 1000
  const NPROC := 64
  const DIRENTS := 32

  /** The directory entries on the disk, empty ones included. */
  function Slots(nodes: seq<Node>): int {
    Total(nodes, (n: Node) => |n.ents|)
  }

  /** nlink is a short that link and mkdir never test. It cannot overflow while every entry lies in a block of the disk
      and every process has at most one link to finish. */
  lemma NlinkFits(nodes: seq<Node>, pending: seq<int>, i: int)
    requires Inv(nodes, pending) && 1 <= i < |nodes| == |pending|
    requires Slots(nodes) <= FSSIZE * DIRENTS && pending[i] <= NPROC
    ensures 0 <= nodes[i].nlink < 0x8000
  {
    TotalLeq(nodes, Weights(i), (n: Node) => |n.ents|);
    EntriesPositive(nodes, i);
  }

  // ---------------------------------------------------------------------------------------------
  // Files
  // ---------------------------------------------------------------------------------------------

  /** Changing a node that is not a directory: its link count moves with its pending links. */
  lemma FileNode(nodes: seq<Node>, pending: seq<int>, i: int, n: Node, q: int)
    requires Inv(nodes, pending) && 1 <= i < |nodes| && !IsDir(nodes[i]) && !IsDir(n)
    requires n.kind == 0 ==> n.nlink == 0 && nodes[i].nlink == 0
    requires n.nlink - q == nodes[i].nlink - pending[i] && q >= 0 && (q > 0 ==> n.kind != 0)
    ensures Inv(nodes[i := n], pending[i := q])
  {
    var nodes', pending' := nodes[i := n], pending[i := q];
    assert Dirs(nodes') by { hide Targets, UniqueNames, Attached, Counted; FileDirs(nodes, i, n); }
    assert Targets(nodes') by { FileTargets(nodes, pending, i, n); }
    assert UniqueNames(nodes') by { FileDistinct(nodes, i, n); }
    assert Attached(nodes') by { FileAttached(nodes, i, n); }
    assert Counted(nodes', pending') by { FileCounted(nodes, pending, i, n, q); }
  }

  lemma FileDirs(nodes: seq<Node>, i: int, n: Node)
    requires Dirs(nodes) && 1 <= i < |nodes| && !IsDir(nodes[i]) && !IsDir(n) && (n.kind == 0 ==> n.nlink == 0)
    ensures Dirs(nodes[i := n])
  {
    var nodes' := nodes[i := n];
    forall d | 0 <= d < |nodes|
      ensures DirOk(nodes', d)
    {
      assert DirOk(nodes, d);
    }
  }

  lemma FileTargets(nodes: seq<Node>, pending: seq<int>, i: int, n: Node)
    requires Inv(nodes, pending) && 1 <= i < |nodes| && !IsDir(nodes[i]) && !IsDir(n)
    requires n.kind == 0 ==> nodes[i].nlink == 0
    ensures Targets(nodes[i := n])
  {
    if n.kind == 0 {
      NotNamed(nodes, pending, i);
    }
    hide Dirs, UniqueNames, Attached, Counted;
    var nodes' := nodes[i := n];
    forall p, k | Proper(nodes', p, k)
      ensures TargetOk(nodes', p, nodes'[p].ents[k].inum)
    {
      assert Proper(nodes, p, k);
    }
  }

  lemma FileDistinct(nodes: seq<Node>, i: int, n: Node)
    requires UniqueNames(nodes) && 0 <= i < |nodes| && !IsDir(nodes[i]) && !IsDir(n)
    ensures UniqueNames(nodes[i := n])
  {
    var nodes' := nodes[i := n];
    forall p, j, k | Proper(nodes', p, j) && Proper(nodes', p, k) && j < k && nodes'[p].ents[j].inum == nodes'[p].ents[k].inum
      ensures !IsDirAt(nodes', nodes'[p].ents[j].inum)
    {
      assert Proper(nodes, p, j) && Proper(nodes, p, k);
    }
  }

  lemma FileAttached(nodes: seq<Node>, i: int, n: Node)
    requires Attached(nodes) && 0 <= i < |nodes| && !IsDir(nodes[i]) && !IsDir(n)
    ensures Attached(nodes[i := n])
  {
    var nodes' := nodes[i := n];
    forall d | 0 <= d < |nodes| && d != ROOTINO && Linked(nodes'[d])
      ensures HasEntry(nodes', d)
    {
      assert HasEntry(nodes, d);
      var k :| Proper(nodes, nodes[d].ents[1].inum, k) && nodes[nodes[d].ents[1].inum].ents[k].inum == d;
      assert Proper(nodes', nodes'[d].ents[1].inum, k);
    }
  }

  lemma FileCounted(nodes: seq<Node>, pending: seq<int>, i: int, n: Node, q: int)
    requires Counted(nodes, pending) && 1 <= i < |nodes| && !IsDir(nodes[i]) && !IsDir(n)
    requires n.nlink - q == nodes[i].nlink - pending[i] && q >= 0 && (q > 0 ==> n.kind != 0)
    ensures Counted(nodes[i := n], pending[i := q])
  {
    hide Entries;
    forall x | 1 <= x < |nodes|
      ensures Entries(nodes[i := n], x) == Entries(nodes, x)
    {
      PlainNode(nodes, i, n, x);
    }
  }

  /** A change to a node that is no linked directory before or after. */
  lemma PlainNode(nodes: seq<Node>, d: int, n: Node, i: int)
    requires 0 <= d < |nodes| && !Linked(nodes[d]) && !Linked(n)
    ensures Entries(nodes[d := n], i) == Entries(nodes, i)
  {
    EntriesUpdate(nodes, d, n, i);
  }

  /** References do not matter to the names. */
  lemma RefNode(nodes: seq<Node>, pending: seq<int>, i: int, r: int)
    requires Inv(nodes, pending) && 0 <= i < |nodes|
    ensures Inv(nodes[i := nodes[i].(ref := r)], pending)
  {
    var nodes' := nodes[i := nodes[i].(ref := r)];
    assert forall p, k :: Proper(nodes', p, k) <==> Proper(nodes, p, k);
    assert Dirs(nodes') by {
      hide Targets, UniqueNames, Attached, Counted;
      assert forall d :: 0 <= d < |nodes| ==> DirOk(nodes, d) ==> DirOk(nodes', d);
    }
    assert Targets(nodes') by { hide Dirs, UniqueNames, Attached, Counted; }
    assert UniqueNames(nodes') by { hide Dirs, Targets, Attached, Counted; }
    assert Attached(nodes') by { hide Dirs, Targets, UniqueNames, Counted; RefAttached(nodes, i, r); }
    assert Counted(nodes', pending) by { hide Dirs, Targets, UniqueNames, Attached, Entries; RefCounted(nodes, pending, i, r); }
  }

  lemma RefAttached(nodes: seq<Node>, i: int, r: int)
    requires Attached(nodes) && 0 <= i < |nodes|
    ensures Attached(nodes[i := nodes[i].(ref := r)])
  {
    var nodes' := nodes[i := nodes[i].(ref := r)];
    forall d | 0 <= d < |nodes| && d != ROOTINO && Linked(nodes'[d])
      ensures HasEntry(nodes', d)
    {
      assert HasEntry(nodes, d);
      var k :| Proper(nodes, nodes[d].ents[1].inum, k) && nodes[nodes[d].ents[1].inum].ents[k].inum == d;
      assert Proper(nodes', nodes'[d].ents[1].inum, k);
    }
  }

  lemma RefCounted(nodes: seq<Node>, pending: seq<int>, i: int, r: int)
    requires Counted(nodes, pending) && 0 <= i < |nodes|
    ensures Counted(nodes[i := nodes[i].(ref := r)], pending)
  {
    hide Entries;
    forall x | 1 <= x < |nodes|
      ensures Entries(nodes[i := nodes[i].(ref := r)], x) == Entries(nodes, x)
    {
      EntriesUpdate(nodes, i, nodes[i].(ref := r), x);
    }
  }

  // ---------------------------------------------------------------------------------------------
  // Entries of files
  // ---------------------------------------------------------------------------------------------

  /** Slot `k` of the entries is one that dirlink may write. */
  predicate Slot(e: seq<Dirent>, k: int) {
    0 <= k <= |e| && (k < |e| ==> e[k].inum == 0)
  }

  ghost predicate Fresh(e: seq<Dirent>, name: string) {
    forall k :: 0 <= k < |e| && e[k].inum != 0 ==> e[k].name != name
  }

  /** dirlink into directory `p`. */
  function Added(nodes: seq<Node>, p: int, k: int, name: string, i: int): seq<Node>
    requires 0 <= p < |nodes| && 0 <= k <= |nodes[p].ents|
  {
    nodes[p := nodes[p].(ents := Put(nodes[p].ents, k, Dirent(i, name)))]
  }

  lemma SlotPast(nodes: seq<Node>, p: int, k: int)
    requires Dirs(nodes) && 0 <= p < |nodes| && IsDir(nodes[p]) && Slot(nodes[p].ents, k)
    ensures k >= 2
  {
    assert DirOk(nodes, p);
  }

  lemma AddDirs(nodes: seq<Node>, p: int, k: int, name: string, i: int)
    requires Dirs(nodes) && 0 <= p < |nodes| && IsDir(nodes[p]) && Slot(nodes[p].ents, k) && Fresh(nodes[p].ents, name)
    requires 0 < i < |nodes|
    ensures Dirs(Added(nodes, p, k, name, i))
  {
    var nodes' := Added(nodes, p, k, name, i);
    SlotPast(nodes, p, k);
    forall d | 0 <= d < |nodes|
      ensures DirOk(nodes', d)
    {
      assert DirOk(nodes, d);
    }
  }

  /** The proper entries after dirlink: those before, and the new one. */
  lemma AddProper(nodes: seq<Node>, p: int, k: int, name: string, i: int)
    requires Dirs(nodes) && 0 <= p < |nodes| && IsDir(nodes[p]) && Slot(nodes[p].ents, k) && i > 0
    ensures
      var nodes' := Added(nodes, p, k, name, i);
      forall o, j {:trigger Proper(nodes', o, j)} ::
        && (Proper(nodes', o, j) <==> Proper(nodes, o, j) || (o == p && j == k))
        && (Proper(nodes', o, j) ==> nodes'[o].ents[j].inum == if o == p && j == k then i else nodes[o].ents[j].inum)
  {
    SlotPast(nodes, p, k);
  }

  lemma AddTargets(nodes: seq<Node>, p: int, k: int, name: string, i: int)
    requires Dirs(nodes) && Targets(nodes) && 0 <= p < |nodes| && IsDir(nodes[p]) && nodes[p].nlink > 0 && Slot(nodes[p].ents, k)
    requires 0 < i < |nodes| && !IsDir(nodes[i]) && nodes[i].kind != 0
    ensures Targets(Added(nodes, p, k, name, i))
  {
    AddProper(nodes, p, k, name, i);
    SlotPast(nodes, p, k);
    var nodes' := Added(nodes, p, k, name, i);
    assert Linked(nodes[ROOTINO]);
    hide Dirs, Proper;
    forall o, j | Proper(nodes', o, j)
      ensures TargetOk(nodes', o, nodes'[o].ents[j].inum)
    {
      if !(o == p && j == k) {
        assert Proper(nodes, o, j);
      }
    }
  }

  lemma AddDistinct(nodes: seq<Node>, p: int, k: int, name: string, i: int)
    requires Dirs(nodes) && UniqueNames(nodes) && 0 <= p < |nodes| && IsDir(nodes[p]) && Slot(nodes[p].ents, k)
    requires 0 < i < |nodes| && !IsDir(nodes[i])
    ensures UniqueNames(Added(nodes, p, k, name, i))
  {
    AddProper(nodes, p, k, name, i);
    var nodes' := Added(nodes, p, k, name, i);
    hide Dirs, Proper;
    forall o, j, l | Proper(nodes', o, j) && Proper(nodes', o, l) && j < l && nodes'[o].ents[j].inum == nodes'[o].ents[l].inum
      ensures !IsDirAt(nodes', nodes'[o].ents[j].inum)
    {
      if nodes'[o].ents[j].inum != i {
        assert Proper(nodes, o, j) && Proper(nodes, o, l);
      }
    }
  }

  lemma AddAttached(nodes: seq<Node>, p: int, k: int, name: string, i: int)
    requires Dirs(nodes) && Attached(nodes) && 0 <= p < |nodes| && IsDir(nodes[p]) && Slot(nodes[p].ents, k) && i > 0
    ensures Attached(Added(nodes, p, k, name, i))
  {
    AddProper(nodes, p, k, name, i);
    SlotPast(nodes, p, k);
    var nodes' := Added(nodes, p, k, name, i);
    hide Dirs;
    forall d | 0 <= d < |nodes| && d != ROOTINO && Linked(nodes'[d])
      ensures HasEntry(nodes', d)
    {
      assert HasEntry(nodes, d);
      var j :| Proper(nodes, nodes[d].ents[1].inum, j) && nodes[nodes[d].ents[1].inum].ents[j].inum == d;
      assert Proper(nodes', nodes[d].ents[1].inum, j);
    }
  }

  lemma AddEntries(nodes: seq<Node>, p: int, k: int, name: string, i: int, x: int)
    requires Dirs(nodes) && 0 <= p < |nodes| && Linked(nodes[p]) && Slot(nodes[p].ents, k) && Fresh(nodes[p].ents, name) && x >= 1
    ensures Entries(Added(nodes, p, k, name, i), x) == Entries(nodes, x) + if x == i then 1 else 0
  {
    assert DirOk(nodes, p);
    var n := nodes[p].(ents := Put(nodes[p].ents, k, Dirent(i, name)));
    EntriesUpdate(nodes, p, n, x);
    PutCount(nodes[p].ents, k, Dirent(i, name), x);
  }

  lemma AddCounted(nodes: seq<Node>, pending: seq<int>, p: int, k: int, name: string, i: int)
    requires Dirs(nodes) && Counted(nodes, pending) && 0 <= p < |nodes| && Linked(nodes[p]) && Slot(nodes[p].ents, k)
    requires Fresh(nodes[p].ents, name) && 0 < i < |nodes| && pending[i] > 0
    ensures Counted(Added(nodes, p, k, name, i), pending[i := pending[i] - 1])
    ensures nodes[i].kind != 0 && !IsDir(nodes[i])
  {
    var nodes' := Added(nodes, p, k, name, i);
    hide Dirs, Entries, Slot, Fresh;
    forall x | 1 <= x < |nodes|
      ensures Entries(nodes', x) == Entries(nodes, x) + if x == i then 1 else 0
    {
      AddEntries(nodes, p, k, name, i, x);
    }
  }

  /** A new entry for a file takes the place of a pending link. */
  lemma AddKeeps(nodes: seq<Node>, pending: seq<int>, p: int, k: int, name: string, i: int)
    requires Inv(nodes, pending) && 0 <= p < |nodes| && Linked(nodes[p]) && Slot(nodes[p].ents, k) && Fresh(nodes[p].ents, name)
    requires 0 < i < |nodes| && pending[i] > 0
    ensures Inv(Added(nodes, p, k, name, i), pending[i := pending[i] - 1])
  {
    hide Dirs, Targets, UniqueNames, Attached, Counted, Slot, Fresh, Added;
    AddCounted(nodes, pending, p, k, name, i);
    AddDirs(nodes, p, k, name, i);
    AddTargets(nodes, p, k, name, i);
    AddDistinct(nodes, p, k, name, i);
    AddAttached(nodes, p, k, name, i);
  }

  /** The converse: in a directory that is no longer linked the new entry breaks the count. */
  lemma AddBreaks(nodes: seq<Node>, pending: seq<int>, p: int, k: int, name: string, i: int, q: seq<int>)
    requires Inv(nodes, pending) && 0 <= p < |nodes| && IsDir(nodes[p]) && nodes[p].nlink <= 0 && Slot(nodes[p].ents, k)
    requires 0 < i < |nodes|
    ensures !Inv(Added(nodes, p, k, name, i), q)
  {
    AddProper(nodes, p, k, name, i);
    var nodes' := Added(nodes, p, k, name, i);
    assert Proper(nodes', p, k);
    hide Dirs, UniqueNames, Attached, Counted;
  }

  /** unlink's cleared entry: the file's link count is still to be lowered. */
  function Cleared(nodes: seq<Node>, p: int, k: int): seq<Node>
    requires 0 <= p < |nodes| && 0 <= k < |nodes[p].ents|
  {
    nodes[p := nodes[p].(ents := nodes[p].ents[k := EMPTY])]
  }

  lemma ClearProper(nodes: seq<Node>, p: int, k: int)
    requires Proper(nodes, p, k)
    ensures
      var nodes' := Cleared(nodes, p, k);
      forall o, j {:trigger Proper(nodes', o, j)} ::
        && (Proper(nodes', o, j) <==> Proper(nodes, o, j) && !(o == p && j == k))
        && (Proper(nodes', o, j) ==> nodes'[o].ents[j].inum == nodes[o].ents[j].inum)
  {
  }

  lemma ClearDirs(nodes: seq<Node>, p: int, k: int)
    requires Dirs(nodes) && Proper(nodes, p, k)
    ensures Dirs(Cleared(nodes, p, k))
  {
    var nodes' := Cleared(nodes, p, k);
    forall d | 0 <= d < |nodes|
      ensures DirOk(nodes', d)
    {
      assert DirOk(nodes, d);
    }
  }

  lemma ClearTargets(nodes: seq<Node>, p: int, k: int)
    requires Targets(nodes) && UniqueNames(nodes) && Proper(nodes, p, k)
    ensures Targets(Cleared(nodes, p, k)) && UniqueNames(Cleared(nodes, p, k))
  {
    ClearProper(nodes, p, k);
    var nodes' := Cleared(nodes, p, k);
    assert 2 <= k < |nodes[p].ents|;
    hide Proper;
    forall o, j | Proper(nodes', o, j)
      ensures TargetOk(nodes', o, nodes'[o].ents[j].inum)
    {
      assert Proper(nodes, o, j);
    }
    forall o, j, l | Proper(nodes', o, j) && Proper(nodes', o, l) && j < l && nodes'[o].ents[j].inum == nodes'[o].ents[l].inum
      ensures !IsDirAt(nodes', nodes'[o].ents[j].inum)
    {
      assert Proper(nodes, o, j) && Proper(nodes, o, l);
    }
  }

  lemma ClearAttached(nodes: seq<Node>, p: int, k: int)
    requires Attached(nodes) && Proper(nodes, p, k) && !IsDirAt(nodes, nodes[p].ents[k].inum)
    ensures Attached(Cleared(nodes, p, k))
  {
    ClearProper(nodes, p, k);
    var nodes' := Cleared(nodes, p, k);
    forall d | 0 <= d < |nodes| && d != ROOTINO && Linked(nodes'[d])
      ensures HasEntry(nodes', d)
    {
      assert HasEntry(nodes, d) && IsDirAt(nodes, d) && nodes'[d].ents[1] == nodes[d].ents[1];
      var j :| Proper(nodes, nodes[d].ents[1].inum, j) && nodes[nodes[d].ents[1].inum].ents[j].inum == d;
      assert Proper(nodes', nodes[d].ents[1].inum, j);
    }
  }

  lemma ClearEntries(nodes: seq<Node>, p: int, k: int, x: int)
    requires Dirs(nodes) && Proper(nodes, p, k) && nodes[p].nlink > 0 && x >= 1
    ensures Entries(Cleared(nodes, p, k), x) == Entries(nodes, x) - if x == nodes[p].ents[k].inum then 1 else 0
  {
    EntryCounts(nodes, p, k);
    EntriesUpdate(nodes, p, nodes[p].(ents := nodes[p].ents[k := EMPTY]), x);
    ClearCount(nodes[p].ents, k, x);
  }

  lemma ClearKeeps(nodes: seq<Node>, pending: seq<int>, p: int, k: int)
    requires Inv(nodes, pending) && Proper(nodes, p, k) && !IsDirAt(nodes, nodes[p].ents[k].inum)
    ensures
      var i := nodes[p].ents[k].inum;
      && 0 < i < |nodes| && nodes[i].nlink >= 1 && nodes[i].kind != 0 && nodes[p].nlink > 0
      && Inv(Cleared(nodes, p, k), pending[i := pending[i] + 1])
  {
    var i := nodes[p].ents[k].inum;
    assert TargetOk(nodes, p, i);
    var nodes' := Cleared(nodes, p, k);
    EntryCounts(nodes, p, k);
    hide Dirs, Targets, UniqueNames, Attached, Entries, Proper;
    ClearDirs(nodes, p, k);
    ClearTargets(nodes, p, k);
    ClearAttached(nodes, p, k);
    forall x | 1 <= x < |nodes|
      ensures Entries(nodes', x) == Entries(nodes, x) - if x == i then 1 else 0
    {
      ClearEntries(nodes, p, k, x);
    }
  }
}
