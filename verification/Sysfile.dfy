/**
 create, link, unlink and iput of Offline 3/xv6/sysfile.c and fs.c on the directory tree of Links.

 Path lookup has already produced the directory and the last path element. The iunlockput(dp) that ends
 each system call is a separate call of Iput.
 */
module Sysfile {
  import opened Wrappers
  import opened Counting
  import opened Links
  import opened LinkDirs

  /** create: 0, the inode that was there already, a new inode, or the panic of ialloc. */
  datatype CreateResult = Refused | Found(i: int) | Made(i: int) | NoInode

  datatype UnlinkResult = Kept | Gone(i: int)

  /** Entry `k` is the one dirlookup finds for `name`. */
  predicate Finds(e: seq<Dirent>, name: string, k: int) {
    0 <= k < |e| && e[k].inum != 0 && e[k].name == name && forall j :: 0 <= j < k ==> !(e[j].inum != 0 && e[j].name == name)
  }

  /** Entry `k` is the first empty one, or the place behind the last. */
  predicate FirstSlot(e: seq<Dirent>, k: int) {
    Slot(e, k) && forall j :: 0 <= j < k ==> e[j].inum != 0
  }

  lemma FirstIsSlot(e: seq<Dirent>, k: int)
    requires FirstSlot(e, k)
    ensures Slot(e, k) && 0 <= k <= |e|
  {
  }

  /** An inode after iput: freed if that was its last reference and it has no links. */
  function AfterPut(n: Node): Node {
    if n.nlink == 0 && n.ref == 1 then NONE else n.(ref := n.ref - 1)
  }

  lemma GetThenPut(nodes: seq<Node>, nodes1: seq<Node>, nodes2: seq<Node>, i: int)
    requires 0 <= i < |nodes| && nodes[i].nlink >= 1 && nodes1 == nodes[i := nodes[i].(ref := nodes[i].ref + 1)]
    requires nodes2 == nodes1[i := AfterPut(nodes1[i])]
    ensures nodes2 == nodes
  {
  }

  /** The node create leaves behind for a file or device. */
  function NewFile(kind: int): Node {
    Node(kind, 1, 1, [])
  }

  /** create for anything but a directory. */
  function MadeFile(nodes: seq<Node>, p: int, k: int, name: string, i: int, kind: int): seq<Node>
    requires 0 <= p < |nodes| && 0 <= i < |nodes| && i != p && 0 <= k <= |nodes[p].ents|
  {
    Added(nodes[i := NewFile(kind)], p, k, name, i)
  }

  /** A pending link gets its entry: sound exactly if the directory is still linked. */
  lemma AddIff(nodes: seq<Node>, pending: seq<int>, p: int, k: int, name: string, i: int)
    requires Inv(nodes, pending) && 0 <= p < |nodes| && IsDir(nodes[p]) && Slot(nodes[p].ents, k) && Fresh(nodes[p].ents, name)
    requires 1 <= i < |nodes| == |pending| && pending[i] > 0
    ensures Inv(Added(nodes, p, k, name, i), pending[i := pending[i] - 1]) <==> Linked(nodes[p])
  {
    hide Inv, Fresh, Slot;
    if Linked(nodes[p]) {
      AddKeeps(nodes, pending, p, k, name, i);
    } else {
      AddBreaks(nodes, pending, p, k, name, i, pending[i := pending[i] - 1]);
    }
  }

  /** create's new inode, while its entry is still to be written. */
  lemma NewFilePending(nodes: seq<Node>, pending: seq<int>, i: int, kind: int)
    requires Inv(nodes, pending) && 1 <= i < |nodes| && nodes[i].kind == 0 && kind != T_DIR && kind != 0
    ensures |pending| == |nodes| && pending[i] == 0
    ensures Inv(nodes[i := NewFile(kind)], pending[i := 1])
  {
    FreeNode(nodes, i);
    hide Inv;
    NotNamed(nodes, pending, i);
    PendingPositive(nodes, pending, i);
    FileNode(nodes, pending, i, NewFile(kind), 1);
  }

  lemma FreeNode(nodes: seq<Node>, i: int)
    requires Dirs(nodes) && 0 <= i < |nodes| && nodes[i].kind == 0
    ensures nodes[i].nlink == 0
  {
  }

  lemma MadeFileKeeps(nodes: seq<Node>, pending: seq<int>, p: int, k: int, name: string, i: int, kind: int)
    requires Inv(nodes, pending) && 0 <= p < |nodes| && IsDir(nodes[p]) && Slot(nodes[p].ents, k) && Fresh(nodes[p].ents, name)
    requires 1 <= i < |nodes| && nodes[i].kind == 0 && kind != T_DIR && kind != 0
    ensures i != p && (Inv(MadeFile(nodes, p, k, name, i, kind), pending) <==> Linked(nodes[p]))
  {
    hide Inv, Fresh, Slot;
    NewFilePending(nodes, pending, i, kind);
    AddIff(nodes[i := NewFile(kind)], pending[i := 1], p, k, name, i);
    assert pending[i := 1][i := 0] == pending;
  }

  lemma MadeDirKeeps(nodes: seq<Node>, pending: seq<int>, p: int, k: int, name: string, i: int)
    requires Inv(nodes, pending) && 0 <= p < |nodes| && IsDir(nodes[p]) && Slot(nodes[p].ents, k) && Fresh(nodes[p].ents, name)
    requires 1 <= i < |nodes| && nodes[i].kind == 0
    ensures Inv(MadeDir(nodes, p, k, name, i), pending) <==> Linked(nodes[p])
  {
    assert p > 0;
    hide Inv, Fresh, Slot;
    if Linked(nodes[p]) {
      MadeKeeps(nodes, pending, p, k, name, i);
    } else {
      MadeBreaks(nodes, pending, p, k, name, i, pending);
    }
  }

  /** A name that dirlookup finds and that is not "." or ".." is a proper entry. */
  lemma FoundProper(nodes: seq<Node>, p: int, name: string, k: int)
    requires Dirs(nodes) && 0 <= p < |nodes| && IsDir(nodes[p]) && Finds(nodes[p].ents, name, k)
    ensures 0 < nodes[p].ents[k].inum < |nodes| && (name != "." && name != ".." ==> Proper(nodes, p, k))
  {
    assert DirOk(nodes, p);
  }

  lemma FoundTarget(nodes: seq<Node>, pending: seq<int>, p: int, k: int)
    requires Inv(nodes, pending) && Proper(nodes, p, k)
    ensures TargetOk(nodes, p, nodes[p].ents[k].inum) && nodes[nodes[p].ents[k].inum].nlink >= 1
  {
    assert TargetOk(nodes, p, nodes[p].ents[k].inum);
    EntryCounts(nodes, p, k);
  }

  class Tree {
    var nodes: seq<Node>
    ghost var pending: seq<int>

    /** mkfs: a root directory whose ".." is itself, linked once. */
    constructor (n: int)
      requires n > ROOTINO
      ensures Valid() && |nodes| == n && pending == seq(n, _ => 0)
      ensures nodes == seq(n, _ => NONE)[ROOTINO := Node(T_DIR, 1, 0, [Dirent(ROOTINO, "."), Dirent(ROOTINO, "..")])]
    {
      nodes := seq(n, _ => NONE)[ROOTINO := Node(T_DIR, 1, 0, [Dirent(ROOTINO, "."), Dirent(ROOTINO, "..")])];
      pending := seq(n, _ => 0);
      new;
      RootInv(nodes, pending);
    }

    ghost predicate Valid()
      reads this
    {
      Inv(nodes, pending) && |pending| == |nodes|
    }

    predicate DirAt(d: int)
      reads this
    {
      0 <= d < |nodes| && IsDir(nodes[d])
    }

    /** dirlookup, -1 if the name is not there. */
    method DirLookup(d: int, name: string) returns (k: int)
      requires DirAt(d)
      ensures k == -1 <==> Fresh(nodes[d].ents, name)
      ensures k != -1 ==> Finds(nodes[d].ents, name, k)
    {
      k := 0;
      while k < |nodes[d].ents|
        invariant 0 <= k <= |nodes[d].ents|
        invariant forall j :: 0 <= j < k ==> !(nodes[d].ents[j].inum != 0 && nodes[d].ents[j].name == name)
      {
        if nodes[d].ents[k].inum != 0 && nodes[d].ents[k].name == name {
          return;
        }
        k := k + 1;
      }
      k := -1;
    }

    /** dirlink's search for an empty slot. */
    method FreeSlot(d: int) returns (k: int)
      requires DirAt(d)
      ensures FirstSlot(nodes[d].ents, k)
    {
      k := 0;
      while k < |nodes[d].ents|
        invariant 0 <= k <= |nodes[d].ents| && forall j :: 0 <= j < k ==> nodes[d].ents[j].inum != 0
      {
        if nodes[d].ents[k].inum == 0 {
          return;
        }
        k := k + 1;
      }
    }

    /** dirlink: the name goes into the first empty slot, unless it is there already. */
    method DirLink(d: int, name: string, i: int) returns (ok: bool, k: int)
      requires DirAt(d)
      modifies `nodes
      ensures ok <==> Fresh(old(nodes)[d].ents, name)
      ensures !ok ==> nodes == old(nodes)
      ensures ok ==> FirstSlot(old(nodes)[d].ents, k) && nodes == Added(old(nodes), d, k, name, i)
    {
      k := DirLookup(d, name);
      if k != -1 {
        return false, k;
      }
      k := FreeSlot(d);
      nodes := nodes[d := nodes[d].(ents := Put(nodes[d].ents, k, Dirent(i, name)))];
      ok := true;
    }

    method IsDirEmpty(d: int) returns (b: bool)
      requires 0 <= d < |nodes|
      ensures b <==> Bare(nodes[d])
    {
      var k := 2;
      while k < |nodes[d].ents|
        invariant 2 <= k && forall j :: 2 <= j < k && j < |nodes[d].ents| ==> nodes[d].ents[j].inum == 0
      {
        if nodes[d].ents[k].inum != 0 {
          return false;
        }
        k := k + 1;
      }
      b := true;
    }

    /** ialloc's search. */
    method FreeInode() returns (i: int)
      requires |nodes| > 0
      ensures 1 <= i <= |nodes| && forall j :: 1 <= j < i ==> nodes[j].kind != 0
      ensures i < |nodes| ==> nodes[i].kind == 0
    {
      i := 1;
      while i < |nodes|
        invariant 1 <= i <= |nodes| && forall j :: 1 <= j < i ==> nodes[j].kind != 0
      {
        if nodes[i].kind == 0 {
          return;
        }
        i := i + 1;
      }
    }

    method Iget(i: int)
      requires Valid() && 0 <= i < |nodes|
      modifies `nodes
      ensures Valid() && nodes == old(nodes)[i := old(nodes)[i].(ref := old(nodes)[i].ref + 1)]
    {
      hide Inv;
      RefNode(nodes, pending, i, nodes[i].ref + 1);
      nodes := nodes[i := nodes[i].(ref := nodes[i].ref + 1)];
    }

    /** iput: the last reference to an inode without links frees it; no entry of the tree then names it. */
    method Iput(i: int)
      requires Valid() && 1 <= i < |nodes|
      modifies `nodes
      ensures Valid() && |nodes| == |old(nodes)|
      ensures nodes == old(nodes)[i := AfterPut(old(nodes)[i])]
      ensures old(nodes)[i].nlink == 0 && old(nodes)[i].ref == 1 ==>
                Entries(old(nodes), i) == 0 && forall p, k :: Proper(old(nodes), p, k) ==> old(nodes)[p].ents[k].inum != i && p != i
    {
      hide Inv;
      if nodes[i].nlink == 0 && nodes[i].ref == 1 {
        FreedKeeps(nodes, pending, i);
        nodes := nodes[i := NONE];
      } else {
        RefNode(nodes, pending, i, nodes[i].ref - 1);
        nodes := nodes[i := nodes[i].(ref := nodes[i].ref - 1)];
      }
    }

    /** create. It keeps the tree exactly when the directory is still linked, which it does not check. */
    method Create(d: int, name: string, kind: int) returns (r: CreateResult)
      requires Valid() && DirAt(d) && kind != 0
      modifies `nodes
      ensures |nodes| == |old(nodes)|
      ensures Valid() <==> (r.Made? ==> Linked(old(nodes)[d]))
      ensures r.Refused? || r.NoInode? ==> nodes == old(nodes)
      ensures r.NoInode? ==> forall j :: 1 <= j < |nodes| ==> nodes[j].kind != 0
      ensures r.Found? ==>
                && kind == T_FILE && 0 < r.i < |nodes| && nodes[r.i].kind == T_FILE
                && nodes == old(nodes)[r.i := old(nodes)[r.i].(ref := old(nodes)[r.i].ref + 1)]
                && exists k :: Finds(old(nodes)[d].ents, name, k) && old(nodes)[d].ents[k].inum == r.i
      ensures r.Made? || r.NoInode? <==> Fresh(old(nodes)[d].ents, name)
      ensures r.Made? ==>
                && 1 <= r.i < |nodes| && old(nodes)[r.i].kind == 0 && r.i != d && (forall j :: 1 <= j < r.i ==> old(nodes)[j].kind != 0)
                && nodes[r.i].kind == kind && nodes[r.i].nlink == 1 && nodes[r.i].ref == 1
                && nodes[r.i].ents == (if kind == T_DIR then [Dirent(r.i, "."), Dirent(d, "..")] else [])
                && exists k :: FirstSlot(old(nodes)[d].ents, k)
                     && nodes == if kind == T_DIR then MadeDir(old(nodes), d, k, name, r.i) else MadeFile(old(nodes), d, k, name, r.i, kind)
    {
      TreeDirs(nodes, pending);
      hide Inv, Dirs, Finds, Fresh, Slot, FirstSlot, MadeDir, MadeFile, Linked;
      var k := DirLookup(d, name);
      if k != -1 {
        FoundIn(nodes, d, name, k);
        var i := nodes[d].ents[k].inum;
        if kind == T_FILE && nodes[i].kind == T_FILE {
          Iget(i);
          return Found(i);
        }
        return Refused;
      }
      var i := FreeInode();
      if i == |nodes| {
        return NoInode;
      }
      NotSelf(nodes, d, i);
      var slot := FreeSlot(d);
      FirstIsSlot(nodes[d].ents, slot);
      MadeIs(nodes, d, slot, name, i, kind);
      if kind == T_DIR {
        CreateDir(d, name, slot, i);
      } else {
        CreateFile(d, name, slot, i, kind);
      }
      r := Made(i);
    }

    /** create's stores for a directory: nlink of the parent, "." and "..", the entry. */
    method CreateDir(d: int, name: string, slot: int, i: int)
      requires Valid() && DirAt(d) && 1 <= i < |nodes| && nodes[i].kind == 0 && i != d
      requires 0 <= slot <= |nodes[d].ents| && Slot(nodes[d].ents, slot) && Fresh(nodes[d].ents, name)
      modifies `nodes
      ensures nodes == MadeDir(old(nodes), d, slot, name, i) && (Valid() <==> Linked(old(nodes)[d]))
    {
      MadeDirKeeps(nodes, pending, d, slot, name, i);
      hide Inv, Slot, Fresh;
      nodes := nodes[i := NewDir(d, i)];
      nodes := nodes[d := nodes[d].(nlink := nodes[d].nlink + 1)];
      nodes := nodes[d := nodes[d].(ents := Put(nodes[d].ents, slot, Dirent(i, name)))];
      assert nodes == MadeDir(old(nodes), d, slot, name, i);
    }

    method CreateFile(d: int, name: string, slot: int, i: int, kind: int)
      requires Valid() && DirAt(d) && 1 <= i < |nodes| && nodes[i].kind == 0 && i != d && kind != 0 && kind != T_DIR
      requires 0 <= slot <= |nodes[d].ents| && Slot(nodes[d].ents, slot) && Fresh(nodes[d].ents, name)
      modifies `nodes
      ensures nodes == MadeFile(old(nodes), d, slot, name, i, kind) && (Valid() <==> Linked(old(nodes)[d]))
    {
      MadeFileKeeps(nodes, pending, d, slot, name, i, kind);
      hide Inv, Slot, Fresh;
      nodes := nodes[i := NewFile(kind)];
      nodes := nodes[d := nodes[d].(ents := Put(nodes[d].ents, slot, Dirent(i, name)))];
      assert nodes == MadeFile(old(nodes), d, slot, name, i, kind);
    }

    /** sys_link up to iunlock(ip): directories are refused, otherwise nlink is raised. */
    method LinkStart(i: int) returns (ok: bool)
      requires Valid() && 1 <= i < |nodes| && nodes[i].kind != 0
      modifies this
      ensures Valid() && (ok <==> !IsDir(old(nodes)[i]))
      ensures !ok ==> unchanged(this)
      ensures ok ==> pending == old(pending)[i := old(pending)[i] + 1]
      ensures ok ==> nodes == old(nodes)[i := old(nodes)[i].(nlink := old(nodes)[i].nlink + 1)]
    {
      hide Inv;
      if IsDir(nodes[i]) {
        return false;
      }
      PendingPositive(nodes, pending, i);
      FileNode(nodes, pending, i, nodes[i].(nlink := nodes[i].nlink + 1), pending[i] + 1);
      nodes := nodes[i := nodes[i].(nlink := nodes[i].nlink + 1)];
      pending := pending[i := pending[i] + 1];
      ok := true;
    }

    /** The rest of sys_link: the entry, or the `bad` exit that lowers nlink again. `parent` is what nameiparent
        found, on the same device or another. Other calls may have come in between; the entry is sound exactly when
        the directory is still linked. */
    method LinkFinish(i: int, parent: Option<int>, sameDev: bool, name: string) returns (ok: bool)
      requires Valid() && 1 <= i < |nodes| && pending[i] > 0 && (parent.Some? ==> DirAt(parent.value))
      modifies this
      ensures |nodes| == |old(nodes)| && (ok <==> parent.Some? && sameDev && Fresh(old(nodes)[parent.value].ents, name))
      ensures Valid() <==> (ok ==> Linked(old(nodes)[parent.value]))
      ensures pending == old(pending)[i := old(pending)[i] - 1]
      ensures ok ==> exists k :: FirstSlot(old(nodes)[parent.value].ents, k) && nodes == Added(old(nodes), parent.value, k, name, i)
      ensures !ok ==> nodes == old(nodes)[i := old(nodes)[i].(nlink := old(nodes)[i].nlink - 1)]
    {
      hide Inv, Fresh, FirstSlot, Linked, Added;
      UndoKeeps(nodes, pending, i);
      ok := false;
      if parent.Some? && sameDev {
        ok := EnterLink(i, parent.value, name);
      }
      pending := pending[i := pending[i] - 1];
      if !ok {
        nodes := nodes[i := nodes[i].(nlink := nodes[i].nlink - 1)];
      }
    }

    /** sys_link's dirlink. */
    method EnterLink(i: int, d: int, name: string) returns (ok: bool)
      requires Valid() && 1 <= i < |nodes| && pending[i] > 0 && DirAt(d)
      modifies `nodes
      ensures |nodes| == |old(nodes)| && (ok <==> Fresh(old(nodes)[d].ents, name))
      ensures ok ==> (Inv(nodes, pending[i := pending[i] - 1]) <==> Linked(old(nodes)[d]))
      ensures ok ==> exists k :: FirstSlot(old(nodes)[d].ents, k) && nodes == Added(old(nodes), d, k, name, i)
      ensures !ok ==> nodes == old(nodes)
    {
      hide Inv, Fresh, Slot, FirstSlot, Linked, Added;
      ghost var nodes0 := nodes;
      var k;
      ok, k := DirLink(d, name, i);
      if ok {
        FirstIsSlot(nodes0[d].ents, k);
        AddIff(nodes0, pending, d, k, name, i);
        AddedSize(nodes0, d, k, name, i);
      }
    }

    /** sys_unlink between ilock(dp) and iunlockput(dp), and the iunlockput(ip) after it. The panic on
        nlink < 1 is unreachable. */
    method Unlink(d: int, name: string) returns (r: UnlinkResult)
      requires Valid() && DirAt(d)
      modifies `nodes
      ensures Valid() && |nodes| == |old(nodes)|
      ensures r.Gone? ==> exists k :: Finds(old(nodes)[d].ents, name, k) && IsUnlinked(old(nodes), nodes, d, k, r.i)
      ensures r.Kept? ==> name == "." || name == ".." || Fresh(old(nodes)[d].ents, name)
                          || exists k :: Finds(old(nodes)[d].ents, name, k) && IsDirAt(old(nodes), old(nodes)[d].ents[k].inum)
                                         && !Bare(old(nodes)[old(nodes)[d].ents[k].inum])
      ensures r.Kept? ==> nodes == old(nodes)
      ensures r.Gone? ==> name != "." && name != ".." && !(IsDirAt(old(nodes), r.i) && !Bare(old(nodes)[r.i]))
    {
      TreeDirs(nodes, pending);
      hide Inv, Dirs, Finds, Fresh, Bare, Proper, IsUnlinked, TargetOk;
      if name == "." || name == ".." {
        return Kept;
      }
      var k := DirLookup(d, name);
      if k == -1 {
        return Kept;
      }
      FoundIn(nodes, d, name, k);
      FoundProper(nodes, d, name, k);
      FoundTarget(nodes, pending, d, k);
      var i := nodes[d].ents[k].inum;
      var gone := UnlinkAt(d, k, i);
      r := if gone then Gone(i) else Kept;
    }

    /** From ilock(ip) on; false for a directory that is not empty. */
    method UnlinkAt(d: int, k: int, i: int) returns (gone: bool)
      requires Valid() && Proper(nodes, d, k) && nodes[d].ents[k].inum == i && TargetOk(nodes, d, i) && nodes[i].nlink >= 1
      modifies `nodes
      ensures Valid() && |nodes| == |old(nodes)|
      ensures gone <==> !(IsDirAt(old(nodes), i) && !Bare(old(nodes)[i]))
      ensures gone ==> IsUnlinked(old(nodes), nodes, d, k, i)
      ensures !gone ==> nodes == old(nodes)
    {
      hide *;
      TargetApart(nodes, d, k, i);
      Iget(i);
      ghost var nodes1 := nodes;
      AfterGet(old(nodes), nodes1, d, k, i);
      var blocked := Blocked(i);
      if blocked {
        Iput(i);
        GetThenPut(old(nodes), nodes1, nodes, i);
        return false;
      }
      Drop(d, k, i);
      ghost var nodes2 := nodes;
      DroppedSize(nodes1, nodes2, d, k, i);
      Iput(i);
      UnlinkedIs(old(nodes), nodes1, nodes2, nodes, d, k, i);
      gone := true;
    }

    /** A directory that is not empty. */
    method Blocked(i: int) returns (b: bool)
      requires 0 <= i < |nodes|
      ensures b <==> IsDirAt(nodes, i) && !Bare(nodes[i])
    {
      b := false;
      if IsDir(nodes[i]) {
        var empty := IsDirEmpty(i);
        b := !empty;
      }
    }

    method Drop(d: int, k: int, i: int)
      requires Valid() && ProperTo(nodes, d, k, i) && (IsDirAt(nodes, i) ==> Bare(nodes[i]))
      modifies `nodes
      ensures Valid() && Dropped(old(nodes), nodes, d, k, i)
    {
      if IsDir(nodes[i]) {
        UnlinkDir(d, k, i);
      } else {
        UnlinkFile(d, k, i);
      }
    }

    /** The entry is cleared, then both link counts fall. */
    method UnlinkDir(d: int, k: int, i: int)
      requires Valid() && Proper(nodes, d, k) && nodes[d].ents[k].inum == i && IsDirAt(nodes, i) && Bare(nodes[i]) && i != d
      modifies `nodes
      ensures Valid() && Dropped(old(nodes), nodes, d, k, i)
    {
      hide Inv, Bare, Dropped, RemovedDir;
      RemovedKeeps(nodes, pending, d, k);
      DirStores(nodes, d, k, i);
      nodes := nodes[d := nodes[d].(ents := nodes[d].ents[k := EMPTY])];
      nodes := nodes[d := nodes[d].(nlink := nodes[d].nlink - 1)];
      nodes := nodes[i := nodes[i].(nlink := nodes[i].nlink - 1)];
    }

    method UnlinkFile(d: int, k: int, i: int)
      requires Valid() && Proper(nodes, d, k) && nodes[d].ents[k].inum == i && !IsDirAt(nodes, i) && 0 < i < |nodes| && i != d
      modifies `nodes
      ensures Valid() && Dropped(old(nodes), nodes, d, k, i)
    {
      hide Inv;
      ClearKeeps(nodes, pending, d, k);
      PendingPositive(nodes, pending, i);
      FileNode(Cleared(nodes, d, k), pending[i := pending[i] + 1], i, nodes[i].(nlink := nodes[i].nlink - 1), pending[i]);
      assert pending[i := pending[i] + 1][i := pending[i]] == pending;
      nodes := nodes[d := nodes[d].(ents := nodes[d].ents[k := EMPTY])];
      nodes := nodes[i := nodes[i].(nlink := nodes[i].nlink - 1)];
    }
  }

  /** Entry `k` of `d`, which named `i`, is empty, and the link counts have fallen. */
  ghost predicate Dropped(nodes: seq<Node>, nodes': seq<Node>, d: int, k: int, i: int) {
    && 0 <= d < |nodes| == |nodes'| && 0 <= k < |nodes[d].ents| && nodes[d].ents[k].inum == i && 0 <= i < |nodes| && i != d
    && nodes'[d] == nodes[d].(ents := nodes[d].ents[k := EMPTY], nlink := nodes[d].nlink - if IsDir(nodes[i]) then 1 else 0)
    && nodes'[i] == nodes[i].(nlink := nodes[i].nlink - 1)
    && forall x :: 0 <= x < |nodes| && x != d && x != i ==> nodes'[x] == nodes[x]
  }

  lemma DroppedSize(nodes: seq<Node>, nodes': seq<Node>, d: int, k: int, i: int)
    requires Dropped(nodes, nodes', d, k, i)
    ensures |nodes'| == |nodes|
  {
  }

  /** Entry `k` of `d`, which named `i`, is empty; nlink of `i` (and of `d`, for a directory) is one less; `i` is
      freed if that was its last link and nobody has it open. */
  ghost predicate IsUnlinked(nodes: seq<Node>, nodes': seq<Node>, d: int, k: int, i: int) {
    && 0 <= d < |nodes| == |nodes'| && 0 <= k < |nodes[d].ents| && nodes[d].ents[k].inum == i && 0 <= i < |nodes| && i != d
    && nodes'[d] == nodes[d].(ents := nodes[d].ents[k := EMPTY], nlink := nodes[d].nlink - if IsDir(nodes[i]) then 1 else 0)
    && nodes'[i] == (if nodes[i].nlink == 1 && nodes[i].ref == 0 then NONE else nodes[i].(nlink := nodes[i].nlink - 1))
    && forall x :: 0 <= x < |nodes| && x != d && x != i ==> nodes'[x] == nodes[x]
  }

  /** Entry (d, k) is proper and names inode `i`, not `d` itself. */
  predicate ProperTo(nodes: seq<Node>, d: int, k: int, i: int) {
    Proper(nodes, d, k) && nodes[d].ents[k].inum == i && 0 < i < |nodes| && i != d
  }

  /** unlink's three stores for a directory. */
  lemma DirStores(nodes: seq<Node>, d: int, k: int, i: int)
    requires Proper(nodes, d, k) && nodes[d].ents[k].inum == i && IsDirAt(nodes, i) && i != d
    ensures
      var n1 := nodes[d := nodes[d].(ents := nodes[d].ents[k := EMPTY])];
      var n2 := n1[d := n1[d].(nlink := n1[d].nlink - 1)];
      var n3 := n2[i := n2[i].(nlink := n2[i].nlink - 1)];
      n3 == RemovedDir(nodes, d, k) && Dropped(nodes, n3, d, k, i)
  {
  }

  /** sys_link's `bad` exit. */
  lemma UndoKeeps(nodes: seq<Node>, pending: seq<int>, i: int)
    requires Inv(nodes, pending) && 1 <= i < |nodes| == |pending| && pending[i] > 0
    ensures Inv(nodes[i := nodes[i].(nlink := nodes[i].nlink - 1)], pending[i := pending[i] - 1])
  {
    PendingFile(nodes, pending, i);
    hide Inv;
    FileNode(nodes, pending, i, nodes[i].(nlink := nodes[i].nlink - 1), pending[i] - 1);
  }

  lemma AddedSize(nodes: seq<Node>, p: int, k: int, name: string, i: int)
    requires 0 <= p < |nodes| && 0 <= k <= |nodes[p].ents|
    ensures |Added(nodes, p, k, name, i)| == |nodes|
  {
  }

  lemma AfterGet(nodes: seq<Node>, nodes1: seq<Node>, d: int, k: int, i: int)
    requires Proper(nodes, d, k) && nodes[d].ents[k].inum == i && TargetOk(nodes, d, i)
    requires nodes1 == nodes[i := nodes[i].(ref := nodes[i].ref + 1)]
    ensures |nodes1| == |nodes| && ProperTo(nodes1, d, k, i)
    ensures IsDirAt(nodes1, i) == IsDirAt(nodes, i) && (Bare(nodes1[i]) <==> Bare(nodes[i]))
  {
  }

  lemma TargetApart(nodes: seq<Node>, d: int, k: int, i: int)
    requires Proper(nodes, d, k) && TargetOk(nodes, d, i)
    ensures d != i && 0 < i < |nodes|
  {
  }

  /** What unlink has done after iget, the two stores and iput. */
  lemma UnlinkedIs(nodes: seq<Node>, nodes1: seq<Node>, nodes2: seq<Node>, nodes': seq<Node>, d: int, k: int, i: int)
    requires 0 <= d < |nodes| && 0 <= i < |nodes| && nodes1 == nodes[i := nodes[i].(ref := nodes[i].ref + 1)]
    requires Dropped(nodes1, nodes2, d, k, i)
    requires |nodes2| == |nodes| && nodes' == nodes2[i := AfterPut(nodes2[i])]
    ensures IsUnlinked(nodes, nodes', d, k, i)
  {
  }

  lemma TreeDirs(nodes: seq<Node>, pending: seq<int>)
    requires Inv(nodes, pending)
    ensures Dirs(nodes)
  {
  }

  lemma FoundIn(nodes: seq<Node>, d: int, name: string, k: int)
    requires Dirs(nodes) && 0 <= d < |nodes| && IsDir(nodes[d]) && Finds(nodes[d].ents, name, k)
    ensures 0 <= k < |nodes[d].ents| && 0 < nodes[d].ents[k].inum < |nodes|
    ensures !Fresh(nodes[d].ents, name)
  {
    assert DirOk(nodes, d);
  }

  lemma NotSelf(nodes: seq<Node>, d: int, i: int)
    requires 0 <= d < |nodes| && IsDir(nodes[d]) && 0 <= i < |nodes| && nodes[i].kind == 0
    ensures d != i
  {
  }

  /** The new inode. */
  lemma MadeIs(nodes: seq<Node>, p: int, k: int, name: string, i: int, kind: int)
    requires 0 <= p < |nodes| && 0 <= i < |nodes| && i != p && 0 <= k <= |nodes[p].ents|
    ensures
      var n := if kind == T_DIR then MadeDir(nodes, p, k, name, i)[i] else MadeFile(nodes, p, k, name, i, kind)[i];
      n.kind == kind && n.nlink == 1 && n.ref == 1 && n.ents == if kind == T_DIR then [Dirent(i, "."), Dirent(p, "..")] else []
  {
  }

  lemma PendingPositive(nodes: seq<Node>, pending: seq<int>, i: int)
    requires Inv(nodes, pending) && 0 <= i < |nodes|
    ensures |pending| == |nodes| && pending[i] >= 0
  {
  }

  lemma PendingFile(nodes: seq<Node>, pending: seq<int>, i: int)
    requires Inv(nodes, pending) && 0 <= i < |nodes| && |pending| == |nodes| && pending[i] > 0
    ensures nodes[i].kind != 0 && !IsDir(nodes[i])
  {
  }

  lemma RootInv(nodes: seq<Node>, pending: seq<int>)
    requires |nodes| == |pending| > ROOTINO && pending == seq(|pending|, _ => 0)
    requires nodes == seq(|nodes|, _ => NONE)[ROOTINO := Node(T_DIR, 1, 0, [Dirent(ROOTINO, "."), Dirent(ROOTINO, "..")])]
    ensures Inv(nodes, pending)
  {
    var e := nodes[ROOTINO].ents;
    assert forall p, k :: !Proper(nodes, p, k);
    forall i | 1 <= i < |nodes|
      ensures Entries(nodes, i) == if i == ROOTINO then 1 else 0
    {
      forall d | 0 <= d < |nodes| && d != ROOTINO
        ensures Weights(i)(nodes[d]) == 0
      {
      }
      TotalOnly(nodes, Weights(i), ROOTINO);
      CountOnly(e, Names(i), 1);
    }
  }

  /** A file made in a directory that is no longer linked has a link count of 1 and no entry that counts. */
  lemma UncountedFile(nodes: seq<Node>, pending: seq<int>, p: int, k: int, name: string, i: int, kind: int)
    requires Inv(nodes, pending) && 0 <= p < |nodes| && IsDir(nodes[p]) && !Linked(nodes[p]) && 0 <= k <= |nodes[p].ents|
    requires 1 <= i < |nodes| && nodes[i].kind == 0 && kind != T_DIR && i != p
    ensures |MadeFile(nodes, p, k, name, i, kind)| == |nodes|
    ensures MadeFile(nodes, p, k, name, i, kind)[i].nlink == 1 && Entries(MadeFile(nodes, p, k, name, i, kind), i) == 0
  {
    FreeNode(nodes, i);
    NotNamed(nodes, pending, i);
    hide Inv, Entries;
    PlainNode(nodes, i, NewFile(kind), i);
    var nodes1 := nodes[i := NewFile(kind)];
    PlainNode(nodes1, p, nodes1[p].(ents := Put(nodes1[p].ents, k, Dirent(i, name))), i);
  }

  lemma RootFacts(nodes: seq<Node>)
    requires |nodes| == 4
    requires nodes == seq(4, _ => NONE)[ROOTINO := Node(T_DIR, 1, 0, [Dirent(ROOTINO, "."), Dirent(ROOTINO, "..")])]
    ensures IsDir(nodes[1]) && Linked(nodes[1]) && Fresh(nodes[1].ents, "d") && nodes[2] == nodes[3] == NONE
  {
  }

  /** After mkdir the name finds the new directory, which is empty. */
  lemma FindsMade(nodes: seq<Node>, p: int, slot: int, name: string, i: int)
    requires 0 <= p < |nodes| && 0 < i < |nodes| && i != p && Slot(nodes[p].ents, slot) && Fresh(nodes[p].ents, name)
    ensures
      var nodes' := MadeDir(nodes, p, slot, name, i);
      && |nodes'| == |nodes| && !Fresh(nodes'[p].ents, name) && nodes'[i] == NewDir(p, i) && Bare(nodes'[i])
      && nodes'[p].kind == nodes[p].kind && (forall x :: 0 <= x < |nodes| && x != p && x != i ==> nodes'[x] == nodes[x])
      && forall k :: Finds(nodes'[p].ents, name, k) ==> nodes'[p].ents[k].inum == i
  {
    var nodes' := MadeDir(nodes, p, slot, name, i);
    assert nodes'[p].ents[slot] == Dirent(i, name);
  }

  lemma NewDirFacts(p: int, i: int)
    ensures NewDir(p, i).kind == T_DIR && NewDir(p, i).nlink == 1 && NewDir(p, i).ref == 1 && NewDir(p, i).ents == [Dirent(i, "."), Dirent(p, "..")]
  {
  }

  /** iput and then iget of an inode with links. */
  lemma PutThenGet(nodes: seq<Node>, i: int)
    requires 0 <= i < |nodes| && nodes[i].nlink >= 1
    ensures
      var nodes1 := nodes[i := AfterPut(nodes[i])];
      nodes1[i := nodes1[i].(ref := nodes1[i].ref + 1)] == nodes
  {
  }

  /** mkdir("d"), chdir("d"), unlink("../d"): the directory is no longer linked, but still in use. */
  method RemoveCwd() returns (t: Tree, i: int)
    ensures fresh(t) && t.Valid() && |t.nodes| == 4 && 2 <= i < 4 && t.nodes[5 - i].kind == 0
    ensures IsDir(t.nodes[i]) && t.nodes[i].nlink == 0 && t.nodes[i].ents == [Dirent(i, "."), Dirent(ROOTINO, "..")]
  {
    hide Inv, Fresh, MadeDir, Finds, Entries, Bare, Linked, NewDir, AfterPut;
    t := new Tree(4);
    RootFacts(t.nodes);
    ghost var nodes0 := t.nodes;
    var r := t.Create(ROOTINO, "d", T_DIR);
    i := r.i;
    ghost var slot :| FirstSlot(nodes0[ROOTINO].ents, slot) && t.nodes == MadeDir(nodes0, ROOTINO, slot, "d", i);
    FirstIsSlot(nodes0[ROOTINO].ents, slot);
    FindsMade(nodes0, ROOTINO, slot, "d", i);
    NewDirFacts(ROOTINO, i);
    PutThenGet(t.nodes, i);
    t.Iput(i);
    t.Iget(i);
    var u := t.Unlink(ROOTINO, "d");
  }

  lemma DotsOnly(nodes: seq<Node>, i: int)
    requires 0 <= i < |nodes| && nodes[i].ents == [Dirent(i, "."), Dirent(ROOTINO, "..")]
    ensures Fresh(nodes[i].ents, "a")
  {
  }

  /** The link count goes wrong when a file is created in a directory that has been removed: after mkdir, chdir and
      unlink of the directory, create makes a file that has a link count of 1 and no entry that counts. */
  method CreateInRemoved() returns (t: Tree, i: int, j: int)
    ensures fresh(t) && !t.Valid() && 0 <= i < |t.nodes| && IsDir(t.nodes[i]) && t.nodes[i].nlink == 0
    ensures 0 <= j < |t.nodes| && t.nodes[j].kind == T_FILE && t.nodes[j].nlink == 1 && Entries(t.nodes, j) == 0
  {
    hide Inv, Fresh, Entries, MadeFile;
    t, i := RemoveCwd();
    DotsOnly(t.nodes, i);
    ghost var nodes0 := t.nodes;
    var r := t.Create(i, "a", T_FILE);
    j := r.i;
    ghost var slot :| FirstSlot(nodes0[i].ents, slot) && t.nodes == MadeFile(nodes0, i, slot, "a", j, T_FILE);
    FirstIsSlot(nodes0[i].ents, slot);
    UncountedFile(nodes0, t.pending, i, slot, "a", j, T_FILE);
    MadeFileNodes(nodes0, i, slot, "a", j, T_FILE);
  }

  lemma MadeFileNodes(nodes: seq<Node>, p: int, k: int, name: string, i: int, kind: int)
    requires 0 <= p < |nodes| && 0 <= i < |nodes| && i != p && 0 <= k <= |nodes[p].ents|
    ensures
      var nodes' := MadeFile(nodes, p, k, name, i, kind);
      |nodes'| == |nodes| && nodes'[i].kind == kind && nodes'[p].kind == nodes[p].kind && nodes'[p].nlink == nodes[p].nlink
  {
  }

  /** unlink right behind create: the inode stays, without a link, for as long as its creator has it open; the iput that
      lets go of it frees it. */
  method CreateUnlink(t: Tree, d: int, name: string) returns (r: CreateResult, ghost between: seq<Node>)
    requires t.Valid() && t.DirAt(d) && Linked(t.nodes[d]) && Fresh(t.nodes[d].ents, name) && name != "." && name != ".."
    requires exists i :: 1 <= i < |t.nodes| && t.nodes[i].kind == 0
    modifies t
    ensures r.Made? && t.Valid() && |t.nodes| == |between| == |old(t.nodes)| && 1 <= r.i < |t.nodes| && r.i != d
    ensures between[r.i] == Node(T_FILE, 0, 1, []) && Fresh(between[d].ents, name)
    ensures t.nodes == between[r.i := NONE] && forall x :: 0 <= x < |between| && x != r.i && x != d ==> between[x] == old(t.nodes)[x]
  {
    hide Inv, Fresh, Finds, Linked, MadeFile, IsUnlinked;
    ghost var nodes0 := t.nodes;
    r := t.Create(d, name, T_FILE);
    ghost var slot :| FirstSlot(nodes0[d].ents, slot) && t.nodes == MadeFile(nodes0, d, slot, name, r.i, T_FILE);
    ghost var nodes1 := t.nodes;
    FirstIsSlot(nodes0[d].ents, slot);
    FileFound(nodes0, d, slot, name, r.i);
    var u := t.Unlink(d, name);
    ghost var k :| Finds(nodes1[d].ents, name, k) && IsUnlinked(nodes1, t.nodes, d, k, u.i);
    FileGone(nodes0, nodes1, t.nodes, d, slot, name, r.i, k, u.i);
    between := t.nodes;
    t.Iput(r.i);
  }

  /** The name finds the new file and no other entry. */
  lemma FileFound(nodes: seq<Node>, d: int, slot: int, name: string, i: int)
    requires 0 <= d < |nodes| && IsDir(nodes[d]) && 1 <= i < |nodes| && i != d && Slot(nodes[d].ents, slot) && Fresh(nodes[d].ents, name)
    ensures
      var nodes1 := MadeFile(nodes, d, slot, name, i, T_FILE);
      && |nodes1| == |nodes| && IsDir(nodes1[d]) && !Fresh(nodes1[d].ents, name) && nodes1[i] == Node(T_FILE, 1, 1, [])
      && forall k :: Finds(nodes1[d].ents, name, k) ==> k == slot && nodes1[d].ents[k].inum == i
  {
    var nodes1 := MadeFile(nodes, d, slot, name, i, T_FILE);
    assert nodes1[d].ents[slot] == Dirent(i, name);
  }

  lemma FileGone(nodes: seq<Node>, nodes1: seq<Node>, nodes2: seq<Node>, d: int, slot: int, name: string, i: int, k: int, u: int)
    requires 0 <= d < |nodes| && IsDir(nodes[d]) && 1 <= i < |nodes| && i != d && Slot(nodes[d].ents, slot) && Fresh(nodes[d].ents, name)
    requires nodes1 == MadeFile(nodes, d, slot, name, i, T_FILE) && Finds(nodes1[d].ents, name, k) && IsUnlinked(nodes1, nodes2, d, k, u)
    ensures |nodes2| == |nodes| && nodes2[i] == Node(T_FILE, 0, 1, []) && Fresh(nodes2[d].ents, name)
    ensures forall x :: 0 <= x < |nodes| && x != i && x != d ==> nodes2[x] == nodes[x]
  {
    FileFound(nodes, d, slot, name, i);
  }
}
