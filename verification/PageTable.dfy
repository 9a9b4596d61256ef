/**
 Page tables and physical frames of Offline 3/xv6/vm.c and kalloc.c, as values.

 `mem` is physical memory by frame number. Page directories, page tables, user pages and the links
 of the free list all live in these frames. The ghost map `use` tells what each frame that kalloc
 has handed out is used for; `Loose` is a frame that no page table refers to.
 */
module PageTable {
  import opened Blocks

  const PGSIZE := 4096
  const NPT := 1024
  const KERNBASE := 0x8000_0000
  const NFRAMES := 57344
  const USER := 0x80000
  const VPNS := 0x100000

  const PTE_W := 2
  const PTE_U := 4

  datatype Use = Loose | Dir | Table(d: int, i: int) | Page(d: int, v: int)

  /** Word `i` of frame `f`. */
  function At(mem: seq<Block>, f: int, i: int): int {
    if 0 <= f < |mem| && |mem[f]| == PGSIZE && 0 <= i < NPT then Word(mem[f], i) else 0
  }

  predicate Present(e: int) {
    e % 2 == 1
  }

  function FrameOf(e: int): int {
    e / PGSIZE
  }

  function Flags(e: int): int {
    e % PGSIZE
  }

  /** pa | perm | PTE_P for the frame at pa. */
  function Entry(f: int, perm: int): (e: int)
    requires 0 <= perm < PGSIZE
    ensures Present(e) && FrameOf(e) == f && Flags(e) == if perm % 2 == 1 then perm else perm + 1
    ensures 0 <= f < VPNS ==> 0 <= e < UINT_RANGE
  {
    f * PGSIZE + if perm % 2 == 1 then perm else perm + 1
  }

  /** The page-table entry for virtual page `v`, 0 if it has no page table. */
  function Pte(mem: seq<Block>, d: int, v: int): int {
    var e := At(mem, d, v / NPT);
    if Present(e) then At(mem, FrameOf(e), v % NPT) else 0
  }

  /** The translation of virtual page `v` under directory `d`, 0 if it is not mapped. */
  function Lookup(mem: seq<Block>, d: int, v: int): int {
    if 0 <= v < VPNS && Present(Pte(mem, d, v)) then Pte(mem, d, v) else 0
  }

  predicate IsDir(use: map<int, Use>, d: int) {
    d in use && use[d].Dir?
  }

  /** Directories and tables point at frames that are in use for just that, and only they do. */
  ghost predicate Tables(mem: seq<Block>, use: map<int, Use>) {
    && (forall d, i {:trigger At(mem, d, i)} :: IsDir(use, d) && 0 <= i < NPT && Present(At(mem, d, i)) ==>
          FrameOf(At(mem, d, i)) in use && use[FrameOf(At(mem, d, i))] == Table(d, i))
    && (forall t :: t in use && use[t].Table? ==>
          IsDir(use, use[t].d) && 0 <= use[t].i < NPT
          && Present(At(mem, use[t].d, use[t].i)) && FrameOf(At(mem, use[t].d, use[t].i)) == t)
    && (forall d, v {:trigger Lookup(mem, d, v)} :: IsDir(use, d) && v < USER && Lookup(mem, d, v) != 0 ==>
          FrameOf(Lookup(mem, d, v)) in use && use[FrameOf(Lookup(mem, d, v))] == Page(d, v))
    && (forall f :: f in use && use[f].Page? ==>
          IsDir(use, use[f].d) && 0 <= use[f].v < USER
          && Lookup(mem, use[f].d, use[f].v) != 0 && FrameOf(Lookup(mem, use[f].d, use[f].v)) == f)
  }

  // ---------------------------------------------------------------------------------------------
  // Writes and what they keep
  // ---------------------------------------------------------------------------------------------

  /** The only word that differs is word `i` of frame `f`, now `w`. */
  ghost predicate WordPut(mem: seq<Block>, mem': seq<Block>, f: int, i: int, w: int) {
    forall g, j {:trigger At(mem', g, j)} :: At(mem', g, j) == if g == f && j == i then w else At(mem, g, j)
  }

  /** The words of the frames other than `f` are unchanged. */
  ghost predicate WordsKept(mem: seq<Block>, mem': seq<Block>, f: int) {
    forall g, j {:trigger At(mem', g, j)} :: g != f ==> At(mem', g, j) == At(mem, g, j)
  }

  lemma PutWord(mem: seq<Block>, f: int, i: int, w: int)
    requires 0 <= f < |mem| && |mem[f]| == PGSIZE && 0 <= i < NPT && 0 <= w < UINT_RANGE
    ensures WordPut(mem, mem[f := SetWord(mem[f], i, w)], f, i, w)
  {
    hide Word, SetWord;
    var mem' := mem[f := SetWord(mem[f], i, w)];
    forall g, j
      ensures At(mem', g, j) == if g == f && j == i then w else At(mem, g, j)
    {
      if g == f && 0 <= j < NPT {
        WordSetWord(mem[f], i, w, j);
      }
    }
  }

  lemma PutFrame(mem: seq<Block>, f: int, b: Block)
    requires 0 <= f < |mem|
    ensures WordsKept(mem, mem[f := b], f)
  {
  }

  /** Every directory translates as before. */
  ghost predicate LooksKept(mem: seq<Block>, use: map<int, Use>, mem': seq<Block>) {
    forall d, v {:trigger Lookup(mem', d, v)} :: IsDir(use, d) ==> Lookup(mem', d, v) == Lookup(mem, d, v)
  }

  /** The only translation that differs is that of page `v` under `d`, now `w`. */
  ghost predicate LookPut(mem: seq<Block>, use: map<int, Use>, mem': seq<Block>, d: int, v: int, w: int) {
    forall e, u {:trigger Lookup(mem', e, u)} :: IsDir(use, e) ==>
      Lookup(mem', e, u) == if e == d && u == v then w else Lookup(mem, e, u)
  }

  predicate IsData(use: map<int, Use>, f: int) {
    f in use && (use[f].Page? || use[f].Loose?)
  }

  /** A write to a user page, a loose frame or a free frame touches no table. */
  lemma DataWrite(mem: seq<Block>, use: map<int, Use>, mem': seq<Block>, f: int)
    requires Tables(mem, use) && WordsKept(mem, mem', f) && (f in use ==> IsData(use, f))
    ensures Tables(mem', use) && LooksKept(mem, use, mem')
  {
    hide At;
    forall d, v | IsDir(use, d)
      ensures Lookup(mem', d, v) == Lookup(mem, d, v)
    {
      if 0 <= v < VPNS {
        assert At(mem', d, v / NPT) == At(mem, d, v / NPT);
      }
    }
  }

  /** kalloc hands out a frame. */
  lemma TakeLoose(mem: seq<Block>, use: map<int, Use>, f: int)
    requires Tables(mem, use) && f !in use
    ensures Tables(mem, use[f := Loose])
  {
    hide At, Lookup;
  }

  /** kfree takes back a loose frame. */
  lemma DropLoose(mem: seq<Block>, use: map<int, Use>, f: int)
    requires Tables(mem, use) && f in use && use[f].Loose?
    ensures Tables(mem, use - {f})
  {
    hide At, Lookup;
  }

  ghost predicate Blank(mem: seq<Block>, f: int) {
    forall j :: At(mem, f, j) == 0
  }

  lemma BlankLook(mem: seq<Block>, d: int, v: int)
    requires Blank(mem, d)
    ensures Lookup(mem, d, v) == 0
  {
    hide At;
    assert At(mem, d, v / NPT) == 0;
  }

  /** setupkvm turns a zeroed frame into a directory that maps nothing. */
  lemma MakeDir(mem: seq<Block>, use: map<int, Use>, d: int)
    requires Tables(mem, use) && d in use && use[d].Loose? && Blank(mem, d)
    ensures Tables(mem, use[d := Dir])
  {
    hide At, Lookup;
    forall v
      ensures Lookup(mem, d, v) == 0
    {
      BlankLook(mem, d, v);
    }
  }

  /** walkpgdir hangs a zeroed frame below the directory; no translation changes. */
  lemma AttachTable(mem: seq<Block>, use: map<int, Use>, mem': seq<Block>, d: int, i: int, t: int, w: int)
    requires Tables(mem, use) && IsDir(use, d) && 0 <= i < NPT && !Present(At(mem, d, i))
    requires t in use && use[t].Loose? && Blank(mem, t)
    requires WordPut(mem, mem', d, i, w) && Present(w) && FrameOf(w) == t
    ensures Tables(mem', use[t := Table(d, i)]) && LooksKept(mem, use, mem')
  {
    hide At;
    AttachLooks(mem, use, mem', d, i, t, w);
    hide Lookup;
  }

  lemma AttachLooks(mem: seq<Block>, use: map<int, Use>, mem': seq<Block>, d: int, i: int, t: int, w: int)
    requires Tables(mem, use) && IsDir(use, d) && 0 <= i < NPT && !Present(At(mem, d, i))
    requires t in use && use[t].Loose? && Blank(mem, t)
    requires WordPut(mem, mem', d, i, w) && Present(w) && FrameOf(w) == t
    ensures LooksKept(mem, use, mem')
  {
    hide At;
    forall e, v | IsDir(use, e)
      ensures Lookup(mem', e, v) == Lookup(mem, e, v)
    {
      if 0 <= v < VPNS {
        var x := At(mem, e, v / NPT);
        assert At(mem', e, v / NPT) == if e == d && v / NPT == i then w else x;
        if e == d && v / NPT == i {
          assert At(mem', t, v % NPT) == At(mem, t, v % NPT) == 0;
        } else if Present(x) {
          assert use[FrameOf(x)] == Table(e, v / NPT);
          assert At(mem', FrameOf(x), v % NPT) == At(mem, FrameOf(x), v % NPT);
        }
      }
    }
  }

  /** Writing one page-table entry changes just that translation. */
  lemma PutPte(mem: seq<Block>, use: map<int, Use>, mem': seq<Block>, d: int, v: int, t: int, w: int)
    requires Tables(mem, use) && IsDir(use, d) && 0 <= v < VPNS
    requires Present(At(mem, d, v / NPT)) && FrameOf(At(mem, d, v / NPT)) == t
    requires WordPut(mem, mem', t, v % NPT, w) && (Present(w) || w == 0)
    ensures LookPut(mem, use, mem', d, v, w)
    ensures forall e, i :: IsDir(use, e) ==> At(mem', e, i) == At(mem, e, i)
  {
    hide At;
    assert use[t] == Table(d, v / NPT);
    forall e, u | IsDir(use, e)
      ensures Lookup(mem', e, u) == if e == d && u == v then w else Lookup(mem, e, u)
    {
      if 0 <= u < VPNS {
        var x := At(mem, e, u / NPT);
        assert At(mem', e, u / NPT) == x;
        if Present(x) {
          assert use[FrameOf(x)] == Table(e, u / NPT);
          assert At(mem', FrameOf(x), u % NPT) == if FrameOf(x) == t && u % NPT == v % NPT then w else At(mem, FrameOf(x), u % NPT);
        }
      }
    }
  }

  /** The use of frame `f` once page `v` of `d` maps to it. */
  function Mapped(use: map<int, Use>, d: int, v: int, f: int): map<int, Use> {
    if v < USER then use[f := Page(d, v)] else use
  }

  /** mappages fills an empty entry. */
  lemma StorePte(mem: seq<Block>, use: map<int, Use>, mem': seq<Block>, d: int, v: int, t: int, w: int, f: int)
    requires Tables(mem, use) && IsDir(use, d) && 0 <= v < VPNS && Lookup(mem, d, v) == 0
    requires Present(At(mem, d, v / NPT)) && FrameOf(At(mem, d, v / NPT)) == t
    requires WordPut(mem, mem', t, v % NPT, w) && Present(w) && FrameOf(w) == f
    requires v < USER ==> f in use && use[f].Loose?
    ensures Tables(mem', Mapped(use, d, v, f)) && LookPut(mem, use, mem', d, v, w)
  {
    PutPte(mem, use, mem', d, v, t, w);
    hide At, Lookup;
  }

  /** deallocuvm clears an entry; its frame becomes loose. */
  lemma ErasePte(mem: seq<Block>, use: map<int, Use>, mem': seq<Block>, d: int, v: int, t: int)
    requires Tables(mem, use) && IsDir(use, d) && 0 <= v < USER && Lookup(mem, d, v) != 0
    requires Present(At(mem, d, v / NPT)) && FrameOf(At(mem, d, v / NPT)) == t
    requires WordPut(mem, mem', t, v % NPT, 0)
    ensures FrameOf(Lookup(mem, d, v)) in use && use[FrameOf(Lookup(mem, d, v))] == Page(d, v)
    ensures Tables(mem', use[FrameOf(Lookup(mem, d, v)) := Loose]) && LookPut(mem, use, mem', d, v, 0)
  {
    PutPte(mem, use, mem', d, v, t, 0);
    hide At, Lookup;
  }

  /** The frames that belong to directory `d`: itself, its tables and its pages. */
  predicate Belongs(use: map<int, Use>, d: int, f: int) {
    f in use && (f == d || (use[f].Table? && use[f].d == d) || (use[f].Page? && use[f].d == d))
  }

  ghost predicate NoPages(use: map<int, Use>, d: int) {
    forall f :: f in use && use[f].Page? ==> use[f].d != d
  }

  /** The same uses, with directory `d` taken apart. */
  ghost function Dismantled(use: map<int, Use>, d: int): map<int, Use> {
    map f | f in use :: if Belongs(use, d, f) then Loose else use[f]
  }

  /** freevm takes the directory apart once no user page is left. */
  lemma Dismantle(mem: seq<Block>, use: map<int, Use>, d: int)
    requires Tables(mem, use) && IsDir(use, d) && NoPages(use, d)
    ensures Tables(mem, Dismantled(use, d))
  {
    hide At, Lookup;
  }
}
