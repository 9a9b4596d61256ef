/**
 What making, removing and freeing a directory keeps of the invariant in Links.
 */
module LinkDirs {
  import opened Counting
  import opened Links

  function NewDir(p: int, i: int): Node {
    Node(T_DIR, 1, 1, [Dirent(i, "."), Dirent(p, "..")])
  }

  /** create for a directory: the new inode with "." and "..", and its entry in directory `p`. */
  function MadeDir(nodes: seq<Node>, p: int, k: int, name: string, i: int): seq<Node>
    requires 0 <= p < |nodes| && 0 <= i < |nodes| && 0 <= k <= |nodes[p].ents|
  {
    nodes[i := NewDir(p, i)][p := nodes[p].(nlink := nodes[p].nlink + 1, ents := Put(nodes[p].ents, k, Dirent(i, name)))]
  }

  lemma MadeProper(nodes: seq<Node>, p: int, k: int, name: string, i: int)
    requires Dirs(nodes) && 0 <= p < |nodes| && IsDir(nodes[p]) && Slot(nodes[p].ents, k) && 0 < i < |nodes| && nodes[i].kind == 0
    ensures k >= 2 && i != p && i != ROOTINO
    ensures
      var nodes' := MadeDir(nodes, p, k, name, i);
      forall o, j {:trigger Proper(nodes', o, j)} ::
        && (Proper(nodes', o, j) <==> Proper(nodes, o, j) || (o == p && j == k))
        && (Proper(nodes', o, j) ==> nodes'[o].ents[j].inum == if o == p && j == k then i else nodes[o].ents[j].inum)
  {
    SlotPast(nodes, p, k);
  }

  lemma MadeDirs(nodes: seq<Node>, p: int, k: int, name: string, i: int)
    requires Dirs(nodes) && 0 < p < |nodes| && IsDir(nodes[p]) && Slot(nodes[p].ents, k) && Fresh(nodes[p].ents, name)
    requires 0 < i < |nodes| && nodes[i].kind == 0 && nodes[p].nlink >= 0
    ensures Dirs(MadeDir(nodes, p, k, name, i))
  {
    var nodes' := MadeDir(nodes, p, k, name, i);
    SlotPast(nodes, p, k);
    forall d | 0 <= d < |nodes|
      ensures DirOk(nodes', d)
    {
      assert DirOk(nodes, d);
    }
  }

  lemma MadeTargets(nodes: seq<Node>, p: int, k: int, name: string, i: int)
    requires Dirs(nodes) && Targets(nodes) && 0 <= p < |nodes| && IsDir(nodes[p]) && nodes[p].nlink >= 0 && Slot(nodes[p].ents, k)
    requires 0 < i < |nodes| && nodes[i].kind == 0
    ensures Targets(MadeDir(nodes, p, k, name, i))
  {
    MadeProper(nodes, p, k, name, i);
    var nodes' := MadeDir(nodes, p, k, name, i);
    assert DirOk(nodes, p);
    hide Dirs, Proper;
    forall o, j | Proper(nodes', o, j)
      ensures TargetOk(nodes', o, nodes'[o].ents[j].inum)
    {
      if !(o == p && j == k) {
        assert Proper(nodes, o, j);
      }
    }
  }

  lemma FreeNotNamed(nodes: seq<Node>, i: int)
    requires Targets(nodes) && 0 <= i < |nodes| && nodes[i].kind == 0
    ensures forall o, j :: Proper(nodes, o, j) ==> nodes[o].ents[j].inum != i
  {
    hide Proper;
    forall o, j | Proper(nodes, o, j)
      ensures 0 <= o < |nodes| && 0 <= j < |nodes[o].ents| && nodes[o].ents[j].inum != i
    {
      ProperIn(nodes, o, j);
    }
  }

  lemma MadeDistinct(nodes: seq<Node>, p: int, k: int, name: string, i: int)
    requires Dirs(nodes) && Targets(nodes) && UniqueNames(nodes) && 0 <= p < |nodes| && IsDir(nodes[p]) && Slot(nodes[p].ents, k)
    requires 0 < i < |nodes| && nodes[i].kind == 0
    ensures UniqueNames(MadeDir(nodes, p, k, name, i))
  {
    MadeProper(nodes, p, k, name, i);
    FreeNotNamed(nodes, i);
    var nodes' := MadeDir(nodes, p, k, name, i);
    hide Dirs, Proper;
    forall o, j, l | Proper(nodes', o, j) && Proper(nodes', o, l) && j < l && nodes'[o].ents[j].inum == nodes'[o].ents[l].inum
      ensures !IsDirAt(nodes', nodes'[o].ents[j].inum)
    {
      assert nodes'[o].ents[j].inum != i ==> Proper(nodes, o, j) && Proper(nodes, o, l);
    }
  }

  lemma MadeAttached(nodes: seq<Node>, p: int, k: int, name: string, i: int)
    requires Dirs(nodes) && Attached(nodes) && 0 <= p < |nodes| && Linked(nodes[p]) && Slot(nodes[p].ents, k)
    requires 0 < i < |nodes| && nodes[i].kind == 0
    ensures Attached(MadeDir(nodes, p, k, name, i))
  {
    MadeProper(nodes, p, k, name, i);
    var nodes' := MadeDir(nodes, p, k, name, i);
    hide Dirs;
    forall d | 0 <= d < |nodes| && d != ROOTINO && Linked(nodes'[d])
      ensures HasEntry(nodes', d)
    {
      if d == i {
        assert Proper(nodes', p, k) && nodes'[i] == NewDir(p, i) && nodes'[p].ents[k].inum == i;
        assert nodes'[i].ents[1].inum == p;
      } else {
        assert HasEntry(nodes, d) && nodes'[d].ents[1] == nodes[d].ents[1];
        var j :| Proper(nodes, nodes[d].ents[1].inum, j) && nodes[nodes[d].ents[1].inum].ents[j].inum == d;
        assert Proper(nodes', nodes[d].ents[1].inum, j);
      }
    }
  }

  lemma NewDirCount(p: int, i: int, x: int)
    ensures Weight(NewDir(p, i), x) == if x == p then 1 else 0
  {
    var e := NewDir(p, i).ents;
    CountOnly(e, Names(x), 1);
  }

  lemma MadeEntries(nodes: seq<Node>, p: int, k: int, name: string, i: int, x: int)
    requires Dirs(nodes) && 0 < p < |nodes| && Linked(nodes[p]) && Slot(nodes[p].ents, k) && Fresh(nodes[p].ents, name) && x >= 1
    requires 0 < i < |nodes| && nodes[i].kind == 0
    ensures Entries(MadeDir(nodes, p, k, name, i), x) == Entries(nodes, x) + (if x == i then 1 else 0) + if x == p then 1 else 0
  {
    assert DirOk(nodes, p);
    var n := nodes[p].(nlink := nodes[p].nlink + 1, ents := Put(nodes[p].ents, k, Dirent(i, name)));
    EntriesUpdate(nodes, i, NewDir(p, i), x);
    EntriesUpdate(nodes[i := NewDir(p, i)], p, n, x);
    NewDirCount(p, i, x);
    PutCount(nodes[p].ents, k, Dirent(i, name), x);
  }

  lemma MadeCounted(nodes: seq<Node>, pending: seq<int>, p: int, k: int, name: string, i: int)
    requires Dirs(nodes) && Counted(nodes, pending)
    requires 0 < p < |nodes| && Linked(nodes[p]) && Slot(nodes[p].ents, k) && Fresh(nodes[p].ents, name)
    requires 0 < i < |nodes| && i != p && nodes[i].kind == 0 && Entries(nodes, i) == 0 && pending[i] == 0
    ensures Counted(MadeDir(nodes, p, k, name, i), pending)
  {
    var nodes' := MadeDir(nodes, p, k, name, i);
    hide Dirs, Entries, Slot, Fresh;
    forall x | 1 <= x < |nodes|
      ensures Entries(nodes', x) == Entries(nodes, x) + (if x == i then 1 else 0) + if x == p then 1 else 0
    {
      MadeEntries(nodes, p, k, name, i, x);
    }
  }

  /** mkdir in a linked directory. */
  lemma MadeKeeps(nodes: seq<Node>, pending: seq<int>, p: int, k: int, name: string, i: int)
    requires Inv(nodes, pending) && 0 < p < |nodes| && Linked(nodes[p]) && Slot(nodes[p].ents, k) && Fresh(nodes[p].ents, name)
    requires 0 < i < |nodes| && nodes[i].kind == 0
    ensures Inv(MadeDir(nodes, p, k, name, i), pending)
  {
    hide Dirs, Targets, UniqueNames, Attached, Counted, Entries, Slot, Fresh, MadeDir;
    FreeUnused(nodes, pending, i);
    MadeDirs(nodes, p, k, name, i);
    MadeTargets(nodes, p, k, name, i);
    MadeDistinct(nodes, p, k, name, i);
    MadeAttached(nodes, p, k, name, i);
    MadeCounted(nodes, pending, p, k, name, i);
  }

  lemma FreeUnused(nodes: seq<Node>, pending: seq<int>, i: int)
    requires Inv(nodes, pending) && 0 < i < |nodes| && nodes[i].kind == 0
    ensures nodes[i].nlink == 0 && |pending| == |nodes| && pending[i] == 0 && Entries(nodes, i) == 0
  {
    NotNamed(nodes, pending, i);
  }

  /** The converse: in a directory that is no longer linked, mkdir makes a tree that hangs on nothing. */
  lemma MadeBreaks(nodes: seq<Node>, pending: seq<int>, p: int, k: int, name: string, i: int, q: seq<int>)
    requires Inv(nodes, pending) && 0 < p < |nodes| && IsDir(nodes[p]) && nodes[p].nlink <= 0 && Slot(nodes[p].ents, k)
    requires 0 < i < |nodes| && nodes[i].kind == 0
    ensures !Inv(MadeDir(nodes, p, k, name, i), q)
  {
    MadeProper(nodes, p, k, name, i);
    EntriesPositive(nodes, p);
    NotNamed(nodes, pending, p);
    NotNamed(nodes, pending, i);
    var nodes' := MadeDir(nodes, p, k, name, i);
    assert DirOk(nodes, p);
    assert p != ROOTINO;
    hide Dirs, Targets, UniqueNames, Counted;
    assert !HasEntry(nodes', p);
  }

  // ---------------------------------------------------------------------------------------------
  // Removing a directory
  // ---------------------------------------------------------------------------------------------

  /** isdirempty */
  ghost predicate Bare(n: Node) {
    forall k :: 2 <= k < |n.ents| ==> n.ents[k].inum == 0
  }

  /** An empty directory named by entry (p, k) has no other entry to its name, so its nlink is 1. */
  lemma OnlyName(nodes: seq<Node>, pending: seq<int>, p: int, k: int)
    requires Inv(nodes, pending) && Proper(nodes, p, k)
    requires IsDirAt(nodes, nodes[p].ents[k].inum) && Bare(nodes[nodes[p].ents[k].inum])
    ensures
      var i := nodes[p].ents[k].inum;
      && 1 < i < |nodes| && i != p && nodes[i].nlink == 1 && nodes[p].nlink > 0 && pending[i] == 0
      && |nodes[i].ents| >= 2 && nodes[i].ents[1] == Dirent(p, "..")
  {
    var i := nodes[p].ents[k].inum;
    assert TargetOk(nodes, p, i) && DirOk(nodes, i);
    forall d | 0 <= d < |nodes| && d != p
      ensures Weights(i)(nodes[d]) == 0
    {
      NoOtherName(nodes, p, k, d);
    }
    TotalOnly(nodes, Weights(i), p);
    OneName(nodes, p, k);
  }

  /** Within `p` itself only entry `k` names it. */
  lemma OneName(nodes: seq<Node>, p: int, k: int)
    requires Dirs(nodes) && Targets(nodes) && UniqueNames(nodes) && Attached(nodes) && Proper(nodes, p, k)
    requires IsDirAt(nodes, nodes[p].ents[k].inum) && Bare(nodes[nodes[p].ents[k].inum])
    ensures Weight(nodes[p], nodes[p].ents[k].inum) == 1
  {
    var i, e := nodes[p].ents[k].inum, nodes[p].ents;
    assert TargetOk(nodes, p, i) && DirOk(nodes, p);
    forall j | 0 <= j < |e| && j != k
      ensures !Names(i)(e[j])
    {
      if j >= 2 && e[j].inum == i {
        assert Proper(nodes, p, j);
      } else if j == 1 && e[1].inum == i {
        NotUp(nodes, p, i);
      }
    }
    CountOnly(e, Names(i), k);
    EntryCounts(nodes, p, k);
  }

  /** The ".." of a linked directory never names an empty directory. */
  lemma NotUp(nodes: seq<Node>, d: int, i: int)
    requires Dirs(nodes) && Attached(nodes) && IsDirAt(nodes, i) && Bare(nodes[i]) && i != ROOTINO
    requires 0 <= d < |nodes| && Linked(nodes[d])
    ensures |nodes[d].ents| >= 2 && nodes[d].ents[1].inum != i
  {
    assert DirOk(nodes, d);
    if d != ROOTINO {
      assert HasEntry(nodes, d);
    }
  }

  lemma NoOtherName(nodes: seq<Node>, p: int, k: int, d: int)
    requires Dirs(nodes) && Targets(nodes) && Attached(nodes) && Proper(nodes, p, k) && 0 <= d < |nodes| && d != p
    requires IsDirAt(nodes, nodes[p].ents[k].inum) && Bare(nodes[nodes[p].ents[k].inum])
    ensures Weight(nodes[d], nodes[p].ents[k].inum) == 0
  {
    var i, e := nodes[p].ents[k].inum, nodes[d].ents;
    assert TargetOk(nodes, p, i);
    if Linked(nodes[d]) {
      NotUp(nodes, d, i);
      assert DirOk(nodes, d);
      forall j | 0 <= j < |e|
        ensures !Names(i)(e[j])
      {
        if j >= 2 && e[j].inum == i {
          assert Proper(nodes, d, j);
        }
      }
      CountNone(e, Names(i));
    }
  }

  /** unlink of an empty directory. */
  function RemovedDir(nodes: seq<Node>, p: int, k: int): seq<Node>
    requires 0 <= p < |nodes| && 0 <= k < |nodes[p].ents| && 0 <= nodes[p].ents[k].inum < |nodes|
  {
    var i := nodes[p].ents[k].inum;
    nodes[p := nodes[p].(ents := nodes[p].ents[k := EMPTY], nlink := nodes[p].nlink - 1)][i := nodes[i].(nlink := nodes[i].nlink - 1)]
  }

  /** The directory left behind is still linked: it has its own name and the removed directory's "..". */
  lemma ParentStays(nodes: seq<Node>, pending: seq<int>, p: int, k: int)
    requires Inv(nodes, pending) && Proper(nodes, p, k)
    requires IsDirAt(nodes, nodes[p].ents[k].inum) && Bare(nodes[nodes[p].ents[k].inum])
    ensures nodes[p].nlink >= 2 && pending[p] == 0
  {
    OnlyName(nodes, pending, p, k);
    var i := nodes[p].ents[k].inum;
    assert DirOk(nodes, p) && DirOk(nodes, i);
    CountOne(nodes[i].ents, Names(p), 1);
    var o := if p == ROOTINO then p else nodes[p].ents[1].inum;
    if p == ROOTINO {
      CountOne(nodes[p].ents, Names(p), 1);
    } else {
      assert HasEntry(nodes, p);
      var j :| Proper(nodes, o, j) && nodes[o].ents[j].inum == p;
      assert TargetOk(nodes, o, p);
      EntryCounts(nodes, o, j);
    }
    assert o != i;
    WeightsPositive(nodes, p);
    TotalTwo(nodes, Weights(p), if o < i then o else i, if o < i then i else o);
  }

  lemma RemovedProper(nodes: seq<Node>, p: int, k: int)
    requires Proper(nodes, p, k) && 0 < nodes[p].ents[k].inum < |nodes| && nodes[p].ents[k].inum != p
    ensures
      var nodes' := RemovedDir(nodes, p, k);
      forall o, j {:trigger Proper(nodes', o, j)} ::
        && (Proper(nodes', o, j) <==> Proper(nodes, o, j) && !(o == p && j == k))
        && (Proper(nodes', o, j) ==> nodes'[o].ents[j].inum == nodes[o].ents[j].inum)
  {
  }

  lemma RemovedDirs(nodes: seq<Node>, p: int, k: int)
    requires Dirs(nodes) && Proper(nodes, p, k) && 1 < nodes[p].ents[k].inum < |nodes| && nodes[p].ents[k].inum != p
    requires nodes[p].nlink >= 2 && IsDir(nodes[nodes[p].ents[k].inum])
    ensures Dirs(RemovedDir(nodes, p, k))
  {
    var nodes' := RemovedDir(nodes, p, k);
    forall d | 0 <= d < |nodes|
      ensures DirOk(nodes', d)
    {
      assert DirOk(nodes, d);
    }
  }

  lemma RemovedTargets(nodes: seq<Node>, p: int, k: int)
    requires Targets(nodes) && UniqueNames(nodes) && Proper(nodes, p, k)
    requires IsDirAt(nodes, nodes[p].ents[k].inum) && Bare(nodes[nodes[p].ents[k].inum]) && nodes[p].nlink >= 2
    ensures Targets(RemovedDir(nodes, p, k)) && UniqueNames(RemovedDir(nodes, p, k))
  {
    var i := nodes[p].ents[k].inum;
    assert TargetOk(nodes, p, i);
    RemovedProper(nodes, p, k);
    var nodes' := RemovedDir(nodes, p, k);
    BareProper(nodes, i);
    assert 2 <= k;
    hide Proper, Bare;
    forall o, j | Proper(nodes', o, j)
      ensures TargetOk(nodes', o, nodes'[o].ents[j].inum)
    {
      assert Proper(nodes, o, j) && TargetOk(nodes, o, nodes[o].ents[j].inum);
      assert nodes[o].ents[j].inum == i ==> o == p;
    }
    forall o, j, l | Proper(nodes', o, j) && Proper(nodes', o, l) && j < l && nodes'[o].ents[j].inum == nodes'[o].ents[l].inum
      ensures !IsDirAt(nodes', nodes'[o].ents[j].inum)
    {
      assert Proper(nodes, o, j) && Proper(nodes, o, l);
    }
  }

  lemma BareProper(nodes: seq<Node>, i: int)
    requires 0 <= i < |nodes| && Bare(nodes[i])
    ensures forall j :: !Proper(nodes, i, j)
  {
  }

  lemma RemovedAttached(nodes: seq<Node>, p: int, k: int)
    requires Dirs(nodes) && Attached(nodes) && Proper(nodes, p, k) && IsDirAt(nodes, nodes[p].ents[k].inum)
    requires nodes[p].ents[k].inum != p && nodes[nodes[p].ents[k].inum].nlink == 1 && nodes[p].ents[k].inum > 0
    ensures Attached(RemovedDir(nodes, p, k))
  {
    RemovedProper(nodes, p, k);
    var nodes' := RemovedDir(nodes, p, k);
    assert 2 <= k;
    hide Dirs;
    forall d | 0 <= d < |nodes| && d != ROOTINO && Linked(nodes'[d])
      ensures HasEntry(nodes', d)
    {
      assert Linked(nodes[d]) by { assert d == p ==> nodes'[p].nlink == nodes[p].nlink - 1; }
      assert HasEntry(nodes, d) && nodes'[d].ents[1] == nodes[d].ents[1];
      var j :| Proper(nodes, nodes[d].ents[1].inum, j) && nodes[nodes[d].ents[1].inum].ents[j].inum == d;
      assert Proper(nodes', nodes[d].ents[1].inum, j);
    }
  }

  lemma RemovedEntries(nodes: seq<Node>, pending: seq<int>, p: int, k: int, x: int)
    requires Inv(nodes, pending) && Proper(nodes, p, k) && x >= 1
    requires IsDirAt(nodes, nodes[p].ents[k].inum) && Bare(nodes[nodes[p].ents[k].inum])
    ensures nodes[p].ents[k].inum > 0
    ensures Entries(RemovedDir(nodes, p, k), x) == Entries(nodes, x) - (if x == nodes[p].ents[k].inum then 1 else 0) - if x == p then 1 else 0
  {
    OnlyName(nodes, pending, p, k);
    ParentStays(nodes, pending, p, k);
    EntryCounts(nodes, p, k);
    var i := nodes[p].ents[k].inum;
    var n := nodes[p].(ents := nodes[p].ents[k := EMPTY], nlink := nodes[p].nlink - 1);
    EntriesUpdate(nodes, p, n, x);
    ClearCount(nodes[p].ents, k, x);
    EntriesUpdate(nodes[p := n], i, nodes[i].(nlink := 0), x);
    BareCount(nodes, i, p, x);
  }

  lemma BareCount(nodes: seq<Node>, i: int, p: int, x: int)
    requires Dirs(nodes) && 0 <= i < |nodes| && Linked(nodes[i]) && Bare(nodes[i]) && x >= 1
    requires |nodes[i].ents| >= 2 && nodes[i].ents[1] == Dirent(p, "..")
    ensures Weight(nodes[i], x) == if x == p then 1 else 0
  {
    assert DirOk(nodes, i);
    CountOnly(nodes[i].ents, Names(x), 1);
  }

  lemma RemovedCounted(nodes: seq<Node>, pending: seq<int>, p: int, k: int)
    requires Inv(nodes, pending) && Proper(nodes, p, k)
    requires IsDirAt(nodes, nodes[p].ents[k].inum) && Bare(nodes[nodes[p].ents[k].inum]) && nodes[p].ents[k].inum != p
    ensures nodes[p].ents[k].inum > 0 && Counted(RemovedDir(nodes, p, k), pending)
  {
    hide Dirs, Targets, UniqueNames, Attached, Entries, Bare;
    OnlyName(nodes, pending, p, k);
    var i, nodes' := nodes[p].ents[k].inum, RemovedDir(nodes, p, k);
    forall x | 1 <= x < |nodes|
      ensures Entries(nodes', x) == Entries(nodes, x) - (if x == i then 1 else 0) - if x == p then 1 else 0
    {
      RemovedEntries(nodes, pending, p, k, x);
    }
  }

  /** unlink of an empty directory. */
  lemma RemovedKeeps(nodes: seq<Node>, pending: seq<int>, p: int, k: int)
    requires Inv(nodes, pending) && Proper(nodes, p, k)
    requires IsDirAt(nodes, nodes[p].ents[k].inum) && Bare(nodes[nodes[p].ents[k].inum])
    ensures nodes[nodes[p].ents[k].inum].nlink == 1
    ensures Inv(RemovedDir(nodes, p, k), pending)
  {
    hide Dirs, Targets, UniqueNames, Attached, Counted, Entries, Proper, Bare, RemovedDir;
    OnlyName(nodes, pending, p, k);
    ParentStays(nodes, pending, p, k);
    RemovedDirs(nodes, p, k);
    RemovedTargets(nodes, p, k);
    RemovedAttached(nodes, p, k);
    RemovedCounted(nodes, pending, p, k);
  }

  // ---------------------------------------------------------------------------------------------
  // Truncating in iput
  // ---------------------------------------------------------------------------------------------

  const NONE := Node(0, 0, 0, [])

  /** iput frees an inode without links: no entry names it, and it holds no entry itself. */
  lemma FreedKeeps(nodes: seq<Node>, pending: seq<int>, i: int)
    requires Inv(nodes, pending) && 1 <= i < |nodes| && nodes[i].nlink == 0
    ensures Inv(nodes[i := NONE], pending)
    ensures forall p, k :: Proper(nodes, p, k) ==> nodes[p].ents[k].inum != i && p != i
    ensures Entries(nodes, i) == 0 && pending[i] == 0
  {
    NotNamed(nodes, pending, i);
    if IsDir(nodes[i]) {
      FreedDir(nodes, pending, i);
    } else {
      FileNode(nodes, pending, i, NONE, 0);
      assert pending[i := 0] == pending;
    }
    hide Dirs, UniqueNames, Attached, Counted, Proper;
    forall p, k | Proper(nodes, p, k)
      ensures p != i
    {
      ProperIn(nodes, p, k);
      assert TargetOk(nodes, p, nodes[p].ents[k].inum);
    }
  }

  lemma ProperIn(nodes: seq<Node>, p: int, k: int)
    requires Proper(nodes, p, k)
    ensures 0 <= p < |nodes| && 2 <= k < |nodes[p].ents|
  {
  }

  lemma FreedDir(nodes: seq<Node>, pending: seq<int>, i: int)
    requires Inv(nodes, pending) && 1 <= i < |nodes| && nodes[i].nlink == 0 && IsDir(nodes[i])
    requires forall p, k :: Proper(nodes, p, k) ==> nodes[p].ents[k].inum != i
    ensures Inv(nodes[i := NONE], pending)
  {
    var nodes' := nodes[i := NONE];
    forall p, k {:trigger Proper(nodes', p, k)}
      ensures Proper(nodes', p, k) <==> Proper(nodes, p, k)
    {
      assert Proper(nodes, p, k) ==> TargetOk(nodes, p, nodes[p].ents[k].inum);
    }
    assert Dirs(nodes') by { hide Targets, UniqueNames, Attached, Counted; FreedDirs(nodes, i); }
    assert Targets(nodes') by {
      hide Dirs, UniqueNames, Attached, Counted;
      assert forall p, k :: Proper(nodes', p, k) ==> TargetOk(nodes, p, nodes[p].ents[k].inum);
    }
    assert UniqueNames(nodes') by { hide Dirs, Targets, Attached, Counted; }
    assert Attached(nodes') by { hide UniqueNames, Targets, Counted; FreedAttached(nodes, i); }
    assert Counted(nodes', pending) by { hide Dirs, Targets, UniqueNames, Attached; FreedCounted(nodes, pending, i); }
  }

  lemma FreedDirs(nodes: seq<Node>, i: int)
    requires Dirs(nodes) && 1 <= i < |nodes| && nodes[i].nlink == 0
    ensures Dirs(nodes[i := NONE])
  {
    var nodes' := nodes[i := NONE];
    forall d | 0 <= d < |nodes|
      ensures DirOk(nodes', d)
    {
      assert DirOk(nodes, d);
    }
  }

  lemma FreedAttached(nodes: seq<Node>, i: int)
    requires Attached(nodes) && 0 <= i < |nodes| && nodes[i].nlink == 0
    requires forall p, k :: Proper(nodes[i := NONE], p, k) <==> Proper(nodes, p, k)
    ensures Attached(nodes[i := NONE])
  {
    var nodes' := nodes[i := NONE];
    forall d | 0 <= d < |nodes| && d != ROOTINO && Linked(nodes'[d])
      ensures HasEntry(nodes', d)
    {
      assert HasEntry(nodes, d);
      var j :| Proper(nodes, nodes[d].ents[1].inum, j) && nodes[nodes[d].ents[1].inum].ents[j].inum == d;
      assert Proper(nodes', nodes[d].ents[1].inum, j);
    }
  }

  lemma FreedCounted(nodes: seq<Node>, pending: seq<int>, i: int)
    requires Counted(nodes, pending) && 1 <= i < |nodes| && nodes[i].nlink == 0 && pending[i] == 0
    ensures Counted(nodes[i := NONE], pending)
  {
    hide Entries;
    forall x | 1 <= x < |nodes|
      ensures Entries(nodes[i := NONE], x) == Entries(nodes, x)
    {
      PlainNode(nodes, i, NONE, x);
    }
  }
}
