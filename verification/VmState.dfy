/**
 What the steps of Offline 3/xv6/vm.c keep and change, as predicates and lemmas on memory and uses.
 */
module VmState {
  import opened Wrappers
  import opened Sums
  import opened Blocks
  import opened PageTable
  import opened Kalloc

  datatype MapResult = Done | NoMemory | Remap

  const ZEROPAGE: Block := seq(PGSIZE, _ => 0)

  /** Frames and page tables together. */
  ghost predicate VmOk(mem: seq<Block>, head: int, free: seq<int>, use: map<int, Use>, lo: int) {
    Frames(mem, head, free, use, lo) && Tables(mem, use)
  }

  /** The contents of user pages and loose frames are unchanged. */
  ghost predicate DataKept(mem: seq<Block>, use: map<int, Use>, mem': seq<Block>) {
    forall f {:trigger mem'[f]} :: IsData(use, f) && 0 <= f < |mem| && f < |mem'| ==> mem'[f] == mem[f]
  }

  /** Every frame in use keeps its use; any new one is a table of `d`. */
  ghost predicate TablesAdded(use: map<int, Use>, use': map<int, Use>, d: int) {
    && (forall f :: f in use ==> f in use' && use'[f] == use[f])
    && (forall f :: f in use' && f !in use ==> use'[f].Table? && use'[f].d == d)
  }

  /** The use of frame `f` after pages lo .. lo + k - 1 were mapped to frames f0 .. f0 + k - 1. */
  function UseOf(u: Use, d: int, lo: int, k: int, f0: int, f: int): Use {
    if f0 <= f < f0 + k && lo + f - f0 < USER then Page(d, lo + f - f0) else u
  }

  ghost predicate MapUse(use: map<int, Use>, use': map<int, Use>, d: int, lo: int, k: int, f0: int) {
    && (forall f :: f in use ==> f in use' && use'[f] == UseOf(use[f], d, lo, k, f0, f))
    && (forall f :: f in use' && f !in use ==> use'[f].Table? && use'[f].d == d)
  }

  /** Under `d`, pages lo .. lo + k - 1 map to frames f0 .. f0 + k - 1; nothing else has changed. */
  ghost predicate MapLook(mem: seq<Block>, use: map<int, Use>, mem': seq<Block>, d: int, lo: int, k: int, f0: int, perm: int)
    requires 0 <= perm < PGSIZE
  {
    forall e, u {:trigger Lookup(mem', e, u)} :: IsDir(use, e) ==>
      Lookup(mem', e, u) == if e == d && lo <= u < lo + k then Entry(f0 + u - lo, perm) else Lookup(mem, e, u)
  }

  /** User frames about to be mapped are loose. */
  ghost predicate LooseRange(use: map<int, Use>, lo: int, n: int, f0: int) {
    forall f :: f0 <= f < f0 + n && lo + f - f0 < USER ==> f in use && use[f].Loose?
  }

  lemma KvaRange(mem: seq<Block>, head: int, free: seq<int>, use: map<int, Use>, lo: int)
    requires Frames(mem, head, free, use, lo)
    ensures 0 <= head < UINT_RANGE
  {
    if free != [] {
      var first: int := free[0];
      assert first in free;
    }
  }

  lemma KallocOk(mem: seq<Block>, head: int, free: seq<int>, use: map<int, Use>, lo: int)
    requires VmOk(mem, head, free, use, lo)
    ensures head == 0 <==> free == []
    ensures free != [] ==>
              && head == Kva(free[0]) && lo <= free[0] < NFRAMES && free[0] !in use
              && VmOk(mem, At(mem, free[0], 0), free[1..], use[free[0] := Loose], lo)
  {
    hide Frames, Tables, At;
    PopFrame(mem, head, free, use, lo);
    if free != [] {
      TakeLoose(mem, use, free[0]);
    }
  }

  lemma PutShaped(mem: seq<Block>, f: int, b: Block)
    requires Shaped(mem) && 0 <= f < NFRAMES && |b| == PGSIZE
    ensures Shaped(mem[f := b]) && WordsKept(mem, mem[f := b], f)
  {
    hide At;
    PutFrame(mem, f, b);
  }

  lemma KfreeFrames(mem: seq<Block>, head: int, free: seq<int>, use: map<int, Use>, lo: int, f: int)
    requires Frames(mem, head, free, use, lo) && f in use
    ensures lo <= f < |mem| == NFRAMES && 0 <= head < UINT_RANGE
    ensures WordsKept(mem, mem[f := Junk(head)], f)
    ensures Frames(mem[f := Junk(head)], Kva(f), [f] + free, use - {f}, lo)
  {
    hide Chain, Junk, WordsKept, Shaped;
    hide Word;
    KvaRange(mem, head, free, use, lo);
    ShapedSize(mem);
    PutShaped(mem, f, Junk(head));
    JunkHead(head);
    PushFrame(mem, head, free, use, lo, f, mem[f := Junk(head)]);
  }

  lemma ShapedSize(mem: seq<Block>)
    requires Shaped(mem)
    ensures |mem| == NFRAMES && forall f :: 0 <= f < |mem| ==> |mem[f]| == PGSIZE
  {
  }

  lemma KfreeOk(mem: seq<Block>, head: int, free: seq<int>, use: map<int, Use>, lo: int, f: int, mem': seq<Block>)
    requires VmOk(mem, head, free, use, lo) && f in use && use[f].Loose? && WordsKept(mem, mem', f)
    ensures Tables(mem', use - {f}) && LooksKept(mem, use, mem')
  {
    hide Frames, Tables, LooksKept, WordsKept;
    DataWrite(mem, use, mem', f);
    DropLoose(mem', use, f);
  }

  /** Rewriting a page or a loose frame. */
  lemma WriteData(mem: seq<Block>, head: int, free: seq<int>, use: map<int, Use>, lo: int, f: int, b: Block)
    requires VmOk(mem, head, free, use, lo) && IsData(use, f) && |b| == PGSIZE
    ensures lo <= f < |mem| && VmOk(mem[f := b], head, free, use, lo) && LooksKept(mem, use, mem[f := b])
  {
    hide Chain, Tables, LooksKept, WordsKept, At;
    PutShaped(mem, f, b);
    WriteUsed(mem, head, free, use, lo, f, mem[f := b]);
    DataWrite(mem, use, mem[f := b], f);
  }

  lemma ZeroPageBlank(mem: seq<Block>, f: int)
    requires 0 <= f < |mem| && mem[f] == ZEROPAGE
    ensures Blank(mem, f)
  {
  }

  /** walkpgdir's new page table. */
  lemma AttachOk(mem: seq<Block>, head: int, free: seq<int>, use: map<int, Use>, lo: int, d: int, i: int, t: int)
    requires VmOk(mem, head, free, use, lo) && IsDir(use, d) && 0 <= i < NPT && !Present(At(mem, d, i))
    requires t in use && use[t].Loose? && 0 <= t < |mem| && mem[t] == ZEROPAGE
    ensures 0 <= d < |mem| && |mem[d]| == PGSIZE
    ensures
      var mem' := mem[d := SetWord(mem[d], i, Entry(t, PTE_W + PTE_U))];
      && VmOk(mem', head, free, use[t := Table(d, i)], lo) && LooksKept(mem, use, mem')
      && At(mem', d, i) == Entry(t, PTE_W + PTE_U) && forall j :: j != i ==> At(mem', d, j) == At(mem, d, j)
  {
    hide Chain, Tables, LooksKept, At, Word, SetWord, ZEROPAGE, WordsKept;
    var w := Entry(t, PTE_W + PTE_U);
    var mem' := mem[d := SetWord(mem[d], i, w)];
    ZeroPageBlank(mem, t);
    PutWord(mem, d, i, w);
    AttachTable(mem, use, mem', d, i, t, w);
    PutShaped(mem, d, SetWord(mem[d], i, w));
    WriteUsed(mem, head, free, use, lo, d, mem');
    UseOnly(mem', head, free, use, lo, use[t := Table(d, i)]);
  }

  /** A table below a directory is a frame in use as that table. */
  lemma TableIs(mem: seq<Block>, head: int, free: seq<int>, use: map<int, Use>, lo: int, d: int, v: int)
    requires VmOk(mem, head, free, use, lo) && IsDir(use, d) && 0 <= v < VPNS && Present(At(mem, d, v / NPT))
    ensures
      var t := FrameOf(At(mem, d, v / NPT));
      && t in use && use[t] == Table(d, v / NPT) && lo <= t < |mem| && |mem[t]| == PGSIZE
      && Pte(mem, d, v) == At(mem, t, v % NPT)
  {
    hide At, Chain;
  }

  /** mappages' store. */
  lemma StoreOk(mem: seq<Block>, head: int, free: seq<int>, use: map<int, Use>, lo: int, d: int, v: int, t: int, f: int, perm: int)
    requires VmOk(mem, head, free, use, lo) && IsDir(use, d) && 0 <= v < VPNS && Lookup(mem, d, v) == 0
    requires Present(At(mem, d, v / NPT)) && FrameOf(At(mem, d, v / NPT)) == t
    requires 0 <= f < VPNS && 0 <= perm < PGSIZE && (v < USER ==> f in use && use[f].Loose?)
    ensures 0 <= t < |mem| && |mem[t]| == PGSIZE && IsTable(use, t)
    ensures
      var mem' := mem[t := SetWord(mem[t], v % NPT, Entry(f, perm))];
      && VmOk(mem', head, free, Mapped(use, d, v, f), lo) && LookPut(mem, use, mem', d, v, Entry(f, perm)) && SameSlots(mem, mem', d)
  {
    hide Chain, Tables, LookPut, At, Word, SetWord, Lookup, WordsKept;
    TableIs(mem, head, free, use, lo, d, v);
    var w := Entry(f, perm);
    var mem' := mem[t := SetWord(mem[t], v % NPT, w)];
    PutWord(mem, t, v % NPT, w);
    StorePte(mem, use, mem', d, v, t, w, f);
    PutShaped(mem, t, SetWord(mem[t], v % NPT, w));
    WriteUsed(mem, head, free, use, lo, t, mem');
    UseOnly(mem', head, free, use, lo, Mapped(use, d, v, f));
  }

  /** The directory's own entries are unchanged. */
  ghost predicate SameSlots(mem: seq<Block>, mem': seq<Block>, d: int) {
    forall i {:trigger At(mem', d, i)} :: At(mem', d, i) == At(mem, d, i)
  }

  /** Directory slot `i` is the slot of one of the pages lo .. lo + k - 1. */
  predicate Touched(i: int, lo: int, k: int) {
    k > 0 && lo / NPT <= i <= (lo + k - 1) / NPT
  }

  /** The directory has a page table for the slots of pages lo .. lo + k - 1, and where it had one. */
  ghost predicate SlotsAre(mem: seq<Block>, mem': seq<Block>, d: int, lo: int, k: int) {
    forall i {:trigger At(mem', d, i)} :: 0 <= i < NPT ==>
      (Present(At(mem', d, i)) <==> Present(At(mem, d, i)) || Touched(i, lo, k))
  }

  lemma SlotsStart(mem: seq<Block>, d: int, lo: int)
    ensures SlotsAre(mem, mem, d, lo, 0)
  {
  }

  /** walkpgdir makes the table of one page. */
  lemma SlotsOne(mem: seq<Block>, mem': seq<Block>, d: int, v: int)
    requires Present(At(mem', d, v / NPT)) && forall i :: i != v / NPT ==> At(mem', d, i) == At(mem, d, i)
    ensures SlotsAre(mem, mem', d, v, 1)
  {
    hide At;
  }

  lemma SlotsSame(mem: seq<Block>, mem': seq<Block>, d: int, lo: int)
    requires SameSlots(mem, mem', d)
    ensures SlotsAre(mem, mem', d, lo, 0)
  {
    hide At;
  }

  /** One page more. */
  lemma SlotsNext(mem0: seq<Block>, mem: seq<Block>, mem': seq<Block>, d: int, lo: int, k: int, one: int)
    requires SlotsAre(mem0, mem, d, lo, k) && SlotsAre(mem, mem', d, lo + k, one) && k >= 0 && 0 <= one <= 1
    ensures SlotsAre(mem0, mem', d, lo, k + one)
  {
    hide At;
    forall i
      ensures Touched(i, lo, k + one) <==> Touched(i, lo, k) || Touched(i, lo + k, one)
    {
    }
  }

  lemma SlotsKept(mem0: seq<Block>, mem: seq<Block>, mem': seq<Block>, d: int, lo: int, k: int)
    requires SlotsAre(mem0, mem, d, lo, k) && SameSlots(mem, mem', d)
    ensures SlotsAre(mem0, mem', d, lo, k)
  {
    hide At, Touched;
  }

  /** A page that was mapped had its page table. */
  lemma SlotsBack(mem0: seq<Block>, mem: seq<Block>, d: int, lo: int, k: int)
    requires SlotsAre(mem0, mem, d, lo, k + 1) && k >= 0 && Lookup(mem0, d, lo + k) != 0
    ensures SlotsAre(mem0, mem, d, lo, k)
  {
    hide At;
    forall i
      ensures Touched(i, lo, k + 1) <==> Touched(i, lo, k) || i == (lo + k) / NPT
    {
    }
  }

  /** No page below KERNBASE has a page table. */
  ghost predicate NoUserTables(mem: seq<Block>, d: int) {
    forall i {:trigger At(mem, d, i)} :: 0 <= i < USER / NPT ==> !Present(At(mem, d, i))
  }

  lemma KernelTables(mem: seq<Block>, mem': seq<Block>, d: int, first: int, k: int)
    requires NoUserTables(mem, d) && SlotsAre(mem, mem', d, first, k) && first >= USER
    ensures NoUserTables(mem', d)
  {
    hide At;
  }

  lemma BlankTables(mem: seq<Block>, d: int)
    requires 0 <= d < |mem| && mem[d] == ZEROPAGE
    ensures NoUserTables(mem, d)
  {
    ZeroPageBlank(mem, d);
  }

  /** A page table of such a directory belongs to a slot of the upper half, and to that one only. */
  lemma TableSlot(mem: seq<Block>, use: map<int, Use>, d: int, f: int)
    requires Tables(mem, use) && NoUserTables(mem, d) && f in use && use[f].Table? && use[f].d == d
    ensures USER / NPT <= use[f].i < NPT && FrameOf(At(mem, d, use[f].i)) == f
  {
    hide At, Lookup;
    assert Present(At(mem, d, use[f].i));
  }

  /** So there are at most as many as slots in the upper half. */
  lemma FewTables(mem: seq<Block>, use: map<int, Use>, d: int, tables: set<int>)
    requires Tables(mem, use) && NoUserTables(mem, d)
    requires forall f :: f in tables ==> f in use && use[f].Table? && use[f].d == d
    ensures |tables| <= NPT - USER / NPT
  {
    hide Tables, NoUserTables, At;
    var slot: map<int, int> := map f | f in tables :: use[f].i;
    forall f | f in slot
      ensures USER / NPT <= slot[f] < NPT && FrameOf(At(mem, d, slot[f])) == f
    {
      TableSlot(mem, use, d, f);
    }
    forall i
      ensures i in Image(slot) ==> USER / NPT <= i < NPT
      ensures i in Image(slot) <==> exists f :: f in slot && slot[f] == i
    {
      ImageIs(slot, i);
    }
    InjectiveCount(slot, Image(slot));
    Between(USER / NPT, NPT, Image(slot));
    assert slot.Keys == tables;
  }

  lemma AddedCount(use0: map<int, Use>, use: map<int, Use>, d: int, tables: set<int>)
    requires TablesAdded(use0[d := Dir], use, d) && d !in use0 && tables == use.Keys - (use0.Keys + {d})
    ensures |use| <= |use0| + 1 + |tables|
    ensures forall f :: f in tables ==> f in use && use[f].Table? && use[f].d == d
  {
    var before := use0[d := Dir];
    assert before.Keys == use0.Keys + {d};
    forall f
      ensures f in use.Keys <==> f in before.Keys + tables
    {
      assert f in before ==> f in use;
    }
    assert use.Keys == before.Keys + tables;
  }

  /** So setupkvm finds enough memory while that many frames are free. */
  lemma EnoughFrames(mem0: seq<Block>, head0: int, free0: seq<int>, use0: map<int, Use>, mem: seq<Block>, head: int, use: map<int, Use>, lo: int, d: int)
    requires VmOk(mem0, head0, free0, use0, lo) && VmOk(mem, head, [], use, lo)
    requires TablesAdded(use0[d := Dir], use, d) && NoUserTables(mem, d) && d !in use0
    ensures |free0| <= 1 + (NPT - USER / NPT)
  {
    hide Frames, Tables, NoUserTables, TablesAdded;
    FramesConserved(mem0, head0, free0, use0, lo);
    FramesConserved(mem, head, [], use, lo);
    var tables := use.Keys - (use0.Keys + {d});
    AddedCount(use0, use, d, tables);
    FewTables(mem, use, d, tables);
  }

  /** A copy that stops in the page it starts in has copied nothing. */
  lemma StopsAtOnce(va: int, k: int)
    requires 0 <= va && 0 <= k && (k == 0 || (va + k) % PGSIZE == 0) && (va + k) / PGSIZE == va / PGSIZE
    ensures k == 0
  {
  }

  /** So every copy of at least a byte to a user address is a null read. */
  lemma FreshFaults(mem: seq<Block>, d: int, first: int, last: int)
    requires NoUserTables(mem, d) && 0 <= first < USER && first <= last
    ensures NullRead(mem, d, first, last) && forall v :: StopsAt(mem, d, first, last, v) ==> v == first
  {
    hide At;
    NoTable(mem, d, first, first, first + 1);
    NoUser();
    assert !Present(At(mem, d, first / NPT));
    assert StopsAt(mem, d, first, last, first) && !HasTable(mem, d, first);
  }

  predicate IsTable(use: map<int, Use>, t: int) {
    t in use && use[t].Table?
  }

  /** deallocuvm frees the page first and clears its entry afterwards. */
  lemma FreePageOk(mem: seq<Block>, head: int, free: seq<int>, use: map<int, Use>, lo: int, d: int, v: int, t: int)
    requires VmOk(mem, head, free, use, lo) && IsDir(use, d) && 0 <= v < USER && Lookup(mem, d, v) != 0
    requires Present(At(mem, d, v / NPT)) && FrameOf(At(mem, d, v / NPT)) == t
    ensures 0 <= t < |mem| && 0 <= head < UINT_RANGE && IsTable(use, t)
    ensures
      var f := FrameOf(Lookup(mem, d, v));
      && f in use && use[f] == Page(d, v) && 0 < f < |mem| && f != t
      && var mem1 := mem[f := Junk(head)];
      && |mem1[t]| == PGSIZE
      && var mem2 := mem1[t := SetWord(mem1[t], v % NPT, 0)];
      && VmOk(mem2, Kva(f), [f] + free, use - {f}, lo) && LookPut(mem, use, mem2, d, v, 0)
  {
    hide Chain, Tables, LookPut, At, Word, SetWord, Lookup, Junk, WordsKept, LooksKept;
    TableIs(mem, head, free, use, lo, d, v);
    KvaRange(mem, head, free, use, lo);
    var memX := mem[t := SetWord(mem[t], v % NPT, 0)];
    PutWord(mem, t, v % NPT, 0);
    ErasePte(mem, use, memX, d, v, t);
    var f := FrameOf(Lookup(mem, d, v));
    KfreeFrames(mem, head, free, use, lo, f);
    var mem1 := mem[f := Junk(head)];
    var mem2 := mem1[t := SetWord(mem1[t], v % NPT, 0)];
    assert mem2 == memX[f := Junk(head)];
    PutShaped(mem1, t, SetWord(mem1[t], v % NPT, 0));
    WriteUsed(mem1, Kva(f), [f] + free, use - {f}, lo, t, mem2);
    PutFrame(memX, f, Junk(head));
    DataWrite(memX, use[f := Loose], mem2, f);
    DropLoose(mem2, use[f := Loose], f);
    assert use[f := Loose] - {f} == use - {f};
    LookPutKept(mem, use, memX, use[f := Loose], mem2, d, v, 0);
  }

  lemma LookPutKept(mem: seq<Block>, use: map<int, Use>, mem1: seq<Block>, use1: map<int, Use>, mem2: seq<Block>, d: int, v: int, w: int)
    requires LookPut(mem, use, mem1, d, v, w) && LooksKept(mem1, use1, mem2)
    requires forall e :: IsDir(use, e) ==> IsDir(use1, e)
    ensures LookPut(mem, use, mem2, d, v, w)
  {
    hide Lookup;
  }

  lemma DataRefl(mem: seq<Block>, use: map<int, Use>)
    ensures DataKept(mem, use, mem) && LooksKept(mem, use, mem)
  {
  }

  lemma DataTrans(mem0: seq<Block>, use0: map<int, Use>, mem1: seq<Block>, use1: map<int, Use>, mem2: seq<Block>)
    requires DataKept(mem0, use0, mem1) && DataKept(mem1, use1, mem2) && |mem0| == |mem1| == |mem2|
    requires forall f :: IsData(use0, f) ==> IsData(use1, f)
    ensures DataKept(mem0, use0, mem2)
  {
    forall f | IsData(use0, f) && 0 <= f < |mem0|
      ensures mem2[f] == mem0[f]
    {
      assert mem1[f] == mem0[f];
    }
  }

  lemma DataPut(mem: seq<Block>, use: map<int, Use>, f: int, b: Block)
    requires 0 <= f < |mem| && !IsData(use, f)
    ensures DataKept(mem, use, mem[f := b])
  {
  }

  lemma LooksTrans(mem0: seq<Block>, use0: map<int, Use>, mem1: seq<Block>, use1: map<int, Use>, mem2: seq<Block>)
    requires LooksKept(mem0, use0, mem1) && LooksKept(mem1, use1, mem2)
    requires forall e :: IsDir(use0, e) ==> IsDir(use1, e)
    ensures LooksKept(mem0, use0, mem2)
  {
    hide Lookup;
  }

  lemma MapStart(mem: seq<Block>, use: map<int, Use>, d: int, lo: int, f0: int, perm: int)
    requires 0 <= perm < PGSIZE
    ensures MapLook(mem, use, mem, d, lo, 0, f0, perm) && MapUse(use, use, d, lo, 0, f0)
  {
    hide Lookup;
  }

  /** What mappages relies on after walkpgdir: the page it is about to map is still unmapped, its frame loose. */
  lemma MapReady(mem0: seq<Block>, use0: map<int, Use>, mem: seq<Block>, use: map<int, Use>, mem': seq<Block>, use': map<int, Use>,
                 d: int, lo: int, n: int, k: int, f0: int, perm: int)
    requires 0 <= perm < PGSIZE && 0 <= k < n && LooseRange(use0, lo, n, f0) && IsDir(use0, d)
    requires MapLook(mem0, use0, mem, d, lo, k, f0, perm) && MapUse(use0, use, d, lo, k, f0)
    requires LooksKept(mem, use, mem') && TablesAdded(use, use', d)
    ensures IsDir(use', d) && Lookup(mem', d, lo + k) == Lookup(mem0, d, lo + k)
    ensures lo + k < USER ==> f0 + k in use' && use'[f0 + k].Loose?
    ensures MapLook(mem0, use0, mem', d, lo, k, f0, perm) && MapUse(use0, use', d, lo, k, f0)
    ensures forall f :: IsData(use, f) ==> IsData(use', f)
    ensures forall f :: IsData(use0, f) ==> IsData(use', f)
  {
    hide Lookup;
    assert IsDir(use, d);
    assert forall e :: IsDir(use0, e) ==> IsDir(use, e);
    assert lo + k < USER ==> f0 + k in use0 && use0[f0 + k].Loose?;
    assert forall f :: IsData(use0, f) ==> IsData(use, f);
  }

  lemma MapNext(mem0: seq<Block>, use0: map<int, Use>, mem: seq<Block>, use: map<int, Use>, mem': seq<Block>,
                d: int, lo: int, n: int, k: int, f0: int, perm: int)
    requires 0 <= perm < PGSIZE && 0 <= k < n && LooseRange(use0, lo, n, f0) && IsDir(use0, d)
    requires MapLook(mem0, use0, mem, d, lo, k, f0, perm) && MapUse(use0, use, d, lo, k, f0)
    requires LookPut(mem, use, mem', d, lo + k, Entry(f0 + k, perm))
    ensures MapLook(mem0, use0, mem', d, lo, k + 1, f0, perm)
    ensures MapUse(use0, Mapped(use, d, lo + k, f0 + k), d, lo, k + 1, f0)
    ensures IsDir(Mapped(use, d, lo + k, f0 + k), d)
    ensures forall f :: IsData(use0, f) ==> IsData(Mapped(use, d, lo + k, f0 + k), f)
  {
    hide Lookup, Entry;
    assert forall e :: IsDir(use0, e) ==> IsDir(use, e);
    assert lo + k < USER ==> f0 + k in use0 && use0[f0 + k].Loose?;
  }

  lemma ZeroSize()
    ensures |ZEROPAGE| == PGSIZE
  {
  }

  lemma LookupOf(mem: seq<Block>, d: int, v: int)
    requires 0 <= v < VPNS
    ensures Lookup(mem, d, v) == (if Present(Pte(mem, d, v)) then Pte(mem, d, v) else 0)
    ensures Lookup(mem, d, v) == 0 <==> !Present(Pte(mem, d, v))
  {
  }

  lemma FramesSize(mem: seq<Block>, head: int, free: seq<int>, use: map<int, Use>, lo: int)
    requires Frames(mem, head, free, use, lo)
    ensures |mem| == NFRAMES && (forall f :: 0 <= f < |mem| ==> |mem[f]| == PGSIZE) && forall f :: f in use ==> 0 < f < NFRAMES
  {
  }

  lemma VmSize(mem: seq<Block>, head: int, free: seq<int>, use: map<int, Use>, lo: int)
    requires VmOk(mem, head, free, use, lo)
    ensures |mem| == NFRAMES && (forall f :: 0 <= f < |mem| ==> |mem[f]| == PGSIZE) && forall f :: f in use ==> 0 < f < NFRAMES
  {
  }

  // ---------------------------------------------------------------------------------------------
  // Unmapping
  // ---------------------------------------------------------------------------------------------

  /** Pages first .. last - 1 of `d` are no longer mapped; every other translation is unchanged. */
  ghost predicate Unmapped(mem: seq<Block>, use: map<int, Use>, mem': seq<Block>, d: int, first: int, last: int) {
    forall e, u {:trigger Lookup(mem', e, u)} :: IsDir(use, e) ==>
      Lookup(mem', e, u) == if e == d && first <= u < last then 0 else Lookup(mem, e, u)
  }

  /** The frames that pages first .. last - 1 of `d` occupy. */
  ghost function PagesIn(use: map<int, Use>, d: int, first: int, last: int): set<int> {
    set f | f in use && use[f].Page? && use[f].d == d && first <= use[f].v < last
  }

  /** A page that is not mapped occupies no frame. */
  lemma NoFrame(mem: seq<Block>, use: map<int, Use>, d: int, u: int)
    requires Tables(mem, use) && Lookup(mem, d, u) == 0
    ensures forall f :: f in use && use[f].Page? && use[f].d == d ==> use[f].v != u
  {
    hide Lookup, At;
  }

  /** Without a page table no page of the directory slot is mapped. */
  lemma NoTable(mem: seq<Block>, d: int, v: int, first: int, last: int)
    requires !Present(At(mem, d, v / NPT)) && v / NPT * NPT <= first && last <= (v / NPT + 1) * NPT
    ensures forall u :: first <= u < last ==> Lookup(mem, d, u) == 0
  {
    hide At;
    forall u | first <= u < last
      ensures Lookup(mem, d, u) == 0
    {
      assert u / NPT == v / NPT;
    }
  }

  /** Passing over pages that are not mapped. */
  lemma UnmapSkip(mem0: seq<Block>, use0: map<int, Use>, mem: seq<Block>, d: int, first: int, c: int, c': int)
    requires Tables(mem0, use0) && IsDir(use0, d) && Unmapped(mem0, use0, mem, d, first, c) && first <= c <= c'
    requires forall u :: c <= u < c' ==> Lookup(mem, d, u) == 0
    ensures Unmapped(mem0, use0, mem, d, first, c') && PagesIn(use0, d, first, c') == PagesIn(use0, d, first, c)
  {
    hide Lookup, Tables;
    forall u | c <= u < c'
      ensures Lookup(mem0, d, u) == 0
    {
      assert Lookup(mem, d, u) == Lookup(mem0, d, u);
    }
    forall f | f in use0 && use0[f].Page? && use0[f].d == d
      ensures !(c <= use0[f].v < c')
    {
      if c <= use0[f].v < c' {
        NoFrame(mem0, use0, d, use0[f].v);
      }
    }
  }

  /** Unmapping one page takes its frame out of use. */
  lemma UnmapPage(mem0: seq<Block>, use0: map<int, Use>, mem: seq<Block>, use: map<int, Use>, mem': seq<Block>, d: int, first: int, c: int, f: int)
    requires Tables(mem0, use0) && Tables(mem, use) && IsDir(use0, d) && first <= c
    requires Unmapped(mem0, use0, mem, d, first, c) && use == use0 - PagesIn(use0, d, first, c)
    requires LookPut(mem, use, mem', d, c, 0) && Lookup(mem, d, c) != 0 && FrameOf(Lookup(mem, d, c)) == f
    requires f in use && use[f] == Page(d, c)
    ensures Unmapped(mem0, use0, mem', d, first, c + 1) && use - {f} == use0 - PagesIn(use0, d, first, c + 1)
  {
    hide Lookup, At;
    forall g | g in use0 && use0[g] == Page(d, c)
      ensures g == f
    {
      assert g in use && use[g] == use0[g];
    }
    assert forall g :: g in PagesIn(use0, d, first, c + 1) <==> g == f || g in PagesIn(use0, d, first, c);
    forall e | IsDir(use0, e)
      ensures IsDir(use, e)
    {
      assert e !in PagesIn(use0, d, first, c);
    }
  }

  lemma UnmapStart(mem: seq<Block>, use: map<int, Use>, d: int, first: int)
    ensures Unmapped(mem, use, mem, d, first, first) && use - PagesIn(use, d, first, first) == use
  {
    hide Lookup;
  }

  lemma DirsKept(use: map<int, Use>, d: int, first: int, last: int)
    ensures forall e :: IsDir(use, e) <==> IsDir(use - PagesIn(use, d, first, last), e)
  {
  }

  lemma DataLess(mem: seq<Block>, use: map<int, Use>, mem': seq<Block>, use': map<int, Use>)
    requires DataKept(mem, use, mem') && forall f :: IsData(use', f) ==> IsData(use, f)
    ensures DataKept(mem, use', mem')
  {
  }

  /** PGROUNDUP, in pages. */
  function PageUp(sz: int): int {
    (sz + PGSIZE - 1) / PGSIZE
  }

  lemma UnmapNone(mem: seq<Block>, use: map<int, Use>, d: int, first: int, last: int)
    requires last <= first
    ensures Unmapped(mem, use, mem, d, first, last) && use - PagesIn(use, d, first, last) == use
  {
    hide Lookup;
  }

  lemma VmTables(mem: seq<Block>, head: int, free: seq<int>, use: map<int, Use>, lo: int)
    requires VmOk(mem, head, free, use, lo)
    ensures Tables(mem, use)
  {
  }

  /** deallocuvm's jump to the next directory slot. */
  lemma NextDir(v: int, a: int, last: int)
    requires a == v * PGSIZE && 0 <= v < last
    ensures (a / (PGSIZE * NPT) + 1) * (PGSIZE * NPT) == (v / NPT + 1) * NPT * PGSIZE && v / NPT * NPT <= v < (v / NPT + 1) * NPT
  {
    assert a / (PGSIZE * NPT) == v / NPT;
  }

  lemma PageFrame(mem: seq<Block>, head: int, free: seq<int>, use: map<int, Use>, lo: int, d: int, v: int)
    requires VmOk(mem, head, free, use, lo) && IsDir(use, d) && v < USER && Lookup(mem, d, v) != 0
    ensures 0 < FrameOf(Lookup(mem, d, v)) < |mem| && FrameOf(Lookup(mem, d, v)) in use && use[FrameOf(Lookup(mem, d, v))] == Page(d, v)
  {
    hide Lookup, Chain;
  }

  // ---------------------------------------------------------------------------------------------
  // Taking a directory apart
  // ---------------------------------------------------------------------------------------------

  /** All frames of directory `d`: itself, its tables, its pages. */
  ghost function Owned(use: map<int, Use>, d: int): set<int> {
    set f | f in use && Belongs(use, d, f)
  }

  /** The tables of `d` in directory slots below `i`. */
  ghost function TablesBelow(use: map<int, Use>, d: int, i: int): set<int> {
    set f | f in use && use[f].Table? && use[f].d == d && use[f].i < i
  }

  lemma NoPagesLeft(mem: seq<Block>, use0: map<int, Use>, use: map<int, Use>, d: int)
    requires Tables(mem, use0) && use == use0 - PagesIn(use0, d, 0, USER)
    ensures NoPages(use, d)
  {
    hide Lookup, At;
  }

  /** freevm's loop at slot `i`: the table there, if any, is a loose frame that is still in use. */
  lemma DropTable(mem: seq<Block>, use0: map<int, Use>, use: map<int, Use>, d: int, i: int)
    requires Tables(mem, use0) && IsDir(use0, d) && 0 <= i < NPT && use == Dismantled(use0, d) - TablesBelow(use0, d, i)
    ensures
      var e := At(mem, d, i);
      var t := FrameOf(e);
      if Present(e) then
        t in use && use[t].Loose? && t != d && use - {t} == Dismantled(use0, d) - TablesBelow(use0, d, i + 1)
      else
        use == Dismantled(use0, d) - TablesBelow(use0, d, i + 1)
  {
    hide Lookup, At;
    var e := At(mem, d, i);
    var t := FrameOf(e);
    forall f | f in use0 && use0[f].Table? && use0[f].d == d && use0[f].i == i
      ensures Present(e) && f == t
    {
    }
    if Present(e) {
      assert use0[t] == Table(d, i);
      var a, b := TablesBelow(use0, d, i + 1), TablesBelow(use0, d, i);
      assert forall f :: f in a <==> f == t || f in b;
    }
  }

  /** Pages, tables and directory together are what the directory owned. */
  lemma AllDropped(mem: seq<Block>, use0: map<int, Use>, use1: map<int, Use>, d: int)
    requires Tables(mem, use0) && IsDir(use0, d) && use1 == use0 - PagesIn(use0, d, 0, USER) && IsDir(use1, d)
    ensures Dismantled(use1, d) - TablesBelow(use1, d, NPT) - {d} == use0 - Owned(use0, d)
  {
    hide Lookup, At;
    var l, r := Dismantled(use1, d) - TablesBelow(use1, d, NPT) - {d}, use0 - Owned(use0, d);
    forall f
      ensures f in l <==> f in r
    {
    }
  }

  lemma DropStart(mem: seq<Block>, use: map<int, Use>, d: int)
    requires Tables(mem, use)
    ensures Dismantled(use, d) - TablesBelow(use, d, 0) == Dismantled(use, d)
  {
    hide Lookup, At;
  }

  lemma DismantleOk(mem: seq<Block>, head: int, free: seq<int>, use: map<int, Use>, lo: int, d: int)
    requires VmOk(mem, head, free, use, lo) && IsDir(use, d) && NoPages(use, d)
    ensures VmOk(mem, head, free, Dismantled(use, d), lo) && 0 < d < |mem|
  {
    hide Tables, Chain, NoPages;
    Dismantle(mem, use, d);
    UseOnly(mem, head, free, use, lo, Dismantled(use, d));
  }

  /** What remains at the end is in use throughout. */
  lemma LastIn(use0: map<int, Use>, use1: map<int, Use>, use: map<int, Use>, d: int, k: int)
    requires IsDir(use0, d) && use1 == use0 - PagesIn(use0, d, 0, USER) && use == Dismantled(use1, d) - TablesBelow(use1, d, k)
    ensures d in use && use[d].Loose?
    ensures forall e :: IsDir(use0 - Owned(use0, d), e) ==> IsDir(use, e) && IsDir(use - {d}, e)
    ensures forall f :: IsData(use0 - Owned(use0, d), f) ==> IsData(use, f) && IsData(use - {d}, f)
  {
  }

  lemma UnmappedOthers(mem: seq<Block>, use: map<int, Use>, mem': seq<Block>, d: int, first: int, last: int, use': map<int, Use>)
    requires Unmapped(mem, use, mem', d, first, last) && !IsDir(use', d) && forall e :: IsDir(use', e) ==> IsDir(use, e)
    ensures LooksKept(mem, use', mem')
  {
    hide Lookup;
  }

  lemma OwnedKinds(use0: map<int, Use>, use1: map<int, Use>, d: int)
    requires use1 == use0 - PagesIn(use0, d, 0, USER) && IsDir(use0, d)
    ensures !IsDir(use0 - Owned(use0, d), d)
    ensures forall e :: IsDir(use0 - Owned(use0, d), e) ==> IsDir(use0, e)
    ensures forall f :: IsData(use0 - Owned(use0, d), f) ==> IsData(use1, f)
  {
  }

  lemma SameFrame(mem: seq<Block>, mem': seq<Block>, d: int, i: int)
    requires 0 <= d < |mem| == |mem'| && mem'[d] == mem[d]
    ensures At(mem', d, i) == At(mem, d, i)
  {
  }

  // ---------------------------------------------------------------------------------------------
  // The kernel part
  // ---------------------------------------------------------------------------------------------

  /** A kmap entry; `end` is exclusive and wraps to 0 at the top of the address space. */
  datatype Kmap = Kmap(virt: int, start: int, end: int, perm: int)

  const EXTMEM := 0x10_0000
  const PHYSTOP := 0xE00_0000
  const DEVSPACE := 0xFE00_0000

  function Kmaps(data: int): (m: seq<Kmap>)
    ensures |m| == 4
  {
    [Kmap(KERNBASE, 0, EXTMEM, PTE_W),
     Kmap(KERNBASE + EXTMEM, EXTMEM, data - KERNBASE, 0),
     Kmap(data, data - KERNBASE, PHYSTOP, PTE_W),
     Kmap(DEVSPACE, DEVSPACE, 0, PTE_W)]
  }

  /** The linker puts `data` on a page boundary above the kernel's text. */
  predicate DataPlaced(data: int) {
    data % PGSIZE == 0 && KERNBASE + EXTMEM < data < KERNBASE + PHYSTOP
  }

  /** phys_end - phys_start in unsigned arithmetic. */
  function KmapSize(m: Kmap): int {
    (m.end - m.start) % UINT_RANGE
  }

  predicate InKmap(m: Kmap, v: int) {
    m.virt / PGSIZE <= v <= (m.virt + KmapSize(m) - 1) / PGSIZE
  }

  /** The translation of page `v` given by the first `k` entries. */
  function KernelEntry(data: int, k: int, v: int): int
    requires 0 <= k <= 4
    decreases k
  {
    if k == 0 then 0
    else
      var m := Kmaps(data)[k - 1];
      if InKmap(m, v) then Entry(m.start / PGSIZE + v - m.virt / PGSIZE, if m.perm == PTE_W then PTE_W else 0) else KernelEntry(data, k - 1, v)
  }

  /** The four ranges lie above KERNBASE, are page aligned, do not meet, and fit. */
  lemma KmapRange(data: int, k: int)
    requires DataPlaced(data) && 0 <= k < 4
    ensures
      var m := Kmaps(data)[k];
      && m.virt >= KERNBASE && 0 < KmapSize(m) && m.virt + KmapSize(m) <= UINT_RANGE
      && 0 <= m.start && m.start % PGSIZE == 0 && (m.perm == PTE_W || m.perm == 0)
      && m.start / PGSIZE + (m.virt + KmapSize(m) - 1) / PGSIZE - m.virt / PGSIZE < VPNS && m.virt / PGSIZE >= USER
  {
  }

  lemma KmapApart(data: int, j: int, k: int, v: int)
    requires DataPlaced(data) && 0 <= j < k < 4 && InKmap(Kmaps(data)[k], v)
    ensures !InKmap(Kmaps(data)[j], v)
  {
  }

  lemma {:induction false} KernelClear(data: int, j: int, k: int, v: int)
    requires DataPlaced(data) && 0 <= j <= k < 4 && InKmap(Kmaps(data)[k], v)
    ensures KernelEntry(data, j, v) == 0
    decreases j
  {
    hide InKmap, Kmaps;
    if j > 0 {
      KmapApart(data, j - 1, k, v);
      KernelClear(data, j - 1, k, v);
    }
  }

  /** `d` translates just as the first `k` kmap entries say. */
  ghost predicate KernelLooks(mem: seq<Block>, d: int, data: int, k: int)
    requires 0 <= k <= 4
  {
    forall v {:trigger Lookup(mem, d, v)} :: 0 <= v < VPNS ==> Lookup(mem, d, v) == KernelEntry(data, k, v)
  }

  /** Entry `e` translates its page to frame `f`, for the kernel only. */
  ghost predicate KernelTo(e: int, f: int, writable: bool) {
    Present(e) && FrameOf(e) == f && !UserBit(e) && (e / PTE_W % 2 == 1 <==> writable)
  }

  /** The address space above page `from` as the kernel wants it: physical memory from KERNBASE on, where only the kernel's
      text and read-only data cannot be written, and the devices at their own addresses. */
  ghost predicate KernelMap(mem: seq<Block>, d: int, data: int, from: int) {
    forall v {:trigger Lookup(mem, d, v)} :: from <= v < VPNS ==>
      if KERNBASE <= v * PGSIZE < KERNBASE + PHYSTOP then
        KernelTo(Lookup(mem, d, v), v - KERNBASE / PGSIZE, !(KERNBASE + EXTMEM <= v * PGSIZE < data))
      else if DEVSPACE <= v * PGSIZE then KernelTo(Lookup(mem, d, v), v, true)
      else Lookup(mem, d, v) == 0
  }

  lemma EntryTo(f: int, perm: int)
    requires f >= 0 && (perm == PTE_W || perm == 0)
    ensures KernelTo(Entry(f, perm), f, perm == PTE_W)
  {
    EntryNotUser(f, perm);
    assert Entry(f, perm) / PTE_W == f * 2048 + (if perm == PTE_W then 1 else 0);
  }

  /** Which entry of kmap covers a page. */
  lemma KmapCovers(data: int, v: int)
    requires DataPlaced(data) && 0 <= v < VPNS
    ensures InKmap(Kmaps(data)[0], v) <==> KERNBASE <= v * PGSIZE < KERNBASE + EXTMEM
    ensures InKmap(Kmaps(data)[1], v) <==> KERNBASE + EXTMEM <= v * PGSIZE < data
    ensures InKmap(Kmaps(data)[2], v) <==> data <= v * PGSIZE < KERNBASE + PHYSTOP
    ensures InKmap(Kmaps(data)[3], v) <==> DEVSPACE <= v * PGSIZE
  {
  }

  lemma EntryFrom(data: int, v: int)
    ensures
      KernelEntry(data, 4, v) ==
      if InKmap(Kmaps(data)[3], v) then Entry(v, PTE_W)
      else if InKmap(Kmaps(data)[2], v) then Entry((data - KERNBASE) / PGSIZE + v - data / PGSIZE, PTE_W)
      else if InKmap(Kmaps(data)[1], v) then Entry(v - KERNBASE / PGSIZE, 0)
      else if InKmap(Kmaps(data)[0], v) then Entry(v - KERNBASE / PGSIZE, PTE_W)
      else 0
  {
    hide InKmap, Entry;
    assert KernelEntry(data, 1, v) == if InKmap(Kmaps(data)[0], v) then Entry(v - KERNBASE / PGSIZE, PTE_W) else KernelEntry(data, 0, v);
    assert KernelEntry(data, 2, v) == if InKmap(Kmaps(data)[1], v) then Entry(v - KERNBASE / PGSIZE, 0) else KernelEntry(data, 1, v);
  }

  /** The four entries together make that address space. */
  lemma KernelMapped(mem: seq<Block>, d: int, data: int)
    requires DataPlaced(data) && KernelLooks(mem, d, data, 4)
    ensures KernelMap(mem, d, data, 0)
  {
    hide Lookup, Entry, KernelEntry, Kmaps, InKmap, KernelTo;
    forall v | 0 <= v < VPNS
      ensures
        if KERNBASE <= v * PGSIZE < KERNBASE + PHYSTOP then
          KernelTo(Lookup(mem, d, v), v - KERNBASE / PGSIZE, !(KERNBASE + EXTMEM <= v * PGSIZE < data))
        else if DEVSPACE <= v * PGSIZE then KernelTo(Lookup(mem, d, v), v, true)
        else Lookup(mem, d, v) == 0
    {
      KmapCovers(data, v);
      EntryFrom(data, v);
      EntryTo(v, PTE_W);
      if v >= KERNBASE / PGSIZE {
        EntryTo(v - KERNBASE / PGSIZE, PTE_W);
        EntryTo(v - KERNBASE / PGSIZE, 0);
      }
    }
  }

  /** setupkvm's loop body. */
  lemma KernelNext(mem: seq<Block>, use: map<int, Use>, mem': seq<Block>, d: int, data: int, k: int, n: int)
    requires DataPlaced(data) && 0 <= k < 4 && IsDir(use, d) && KernelLooks(mem, d, data, k)
    requires
      var m := Kmaps(data)[k];
      && (m.perm == PTE_W || m.perm == 0) && n == (m.virt + KmapSize(m) - 1) / PGSIZE - m.virt / PGSIZE + 1
      && MapLook(mem, use, mem', d, m.virt / PGSIZE, n, m.start / PGSIZE, m.perm)
    ensures KernelLooks(mem', d, data, k + 1)
  {
    hide Lookup, Entry, Kmaps, KmapSize;
  }

  /** The panic "remap" cannot happen in setupkvm. */
  lemma KernelNoRemap(mem: seq<Block>, d: int, data: int, k: int, v: int)
    requires DataPlaced(data) && 0 <= k < 4 && KernelLooks(mem, d, data, k)
    requires Lookup(mem, d, v) != 0
    ensures !InKmap(Kmaps(data)[k], v)
  {
    hide InKmap, Kmaps, KernelEntry;
    if InKmap(Kmaps(data)[k], v) {
      KernelClear(data, k, k, v);
    }
    assert 0 <= v < VPNS;
  }

  /** Mapping kernel pages leaves the frames' uses alone, but for new tables. */
  lemma KernelUse(use0: map<int, Use>, use: map<int, Use>, use': map<int, Use>, d: int, first: int, k: int, f0: int)
    requires TablesAdded(use0, use, d) && MapUse(use, use', d, first, k, f0) && first >= USER && d in use0
    ensures TablesAdded(use0, use', d)
  {
  }

  lemma KernelLook(mem0: seq<Block>, use0: map<int, Use>, mem: seq<Block>, use: map<int, Use>, mem': seq<Block>, d: int, first: int, k: int, f0: int, perm: int)
    requires LooksKept(mem0, use0, mem) && TablesAdded(use0[d := Dir], use, d) && d !in use0 && 0 <= perm < PGSIZE
    requires MapLook(mem, use, mem', d, first, k, f0, perm)
    ensures LooksKept(mem0, use0, mem')
    ensures forall f :: IsData(use0, f) ==> IsData(use, f)
  {
    hide Lookup, Entry;
    forall e, v | IsDir(use0, e)
      ensures Lookup(mem', e, v) == Lookup(mem0, e, v)
    {
      assert use0[d := Dir][e] == use[e];
    }
  }

  /** Every frame in use keeps its use; the new ones belong to `d`. */
  ghost predicate Grown(use: map<int, Use>, use': map<int, Use>, d: int) {
    && (forall f :: f in use ==> f in use' && use'[f] == use[f])
    && (forall f :: f in use' && f !in use ==> Belongs(use', d, f))
  }

  /** A fresh directory owns just what was added for it. */
  lemma GivenBack(mem0: seq<Block>, use0: map<int, Use>, use: map<int, Use>, d: int)
    requires Tables(mem0, use0) && d !in use0 && Grown(use0, use, d)
    ensures use - Owned(use, d) == use0
    ensures forall f :: IsData(use0, f) ==> IsData(use, f)
  {
    hide Lookup, At;
    forall f | f in use0
      ensures !Belongs(use0, d, f)
    {
    }
    var l := use - Owned(use, d);
    forall f
      ensures f in l <==> f in use0
      ensures f in use0 ==> l[f] == use0[f]
    {
    }
  }

  lemma TablesGrown(use0: map<int, Use>, use: map<int, Use>, d: int)
    requires TablesAdded(use0[d := Dir], use, d) && d !in use0
    ensures Grown(use0, use, d)
  {
    forall f | f in use0
      ensures f in use && use[f] == use0[f]
    {
      assert use0[d := Dir][f] == use[f];
    }
  }

  /** A zeroed frame becomes a directory that maps nothing. */
  lemma NewDir(mem: seq<Block>, head: int, free: seq<int>, use: map<int, Use>, lo: int, d: int, data: int)
    requires VmOk(mem, head, free, use, lo) && d in use && use[d].Loose? && 0 <= d < |mem| && mem[d] == ZEROPAGE
    ensures VmOk(mem, head, free, use[d := Dir], lo) && KernelLooks(mem, d, data, 0)
  {
    hide Tables, Chain, Lookup, ZEROPAGE;
    ZeroPageBlank(mem, d);
    MakeDir(mem, use, d);
    UseOnly(mem, head, free, use, lo, use[d := Dir]);
    forall v
      ensures Lookup(mem, d, v) == 0
    {
      BlankLook(mem, d, v);
    }
  }

  lemma AddedRefl(use: map<int, Use>, d: int)
    ensures TablesAdded(use, use, d)
  {
  }

  lemma LooseKernel(use: map<int, Use>, first: int, n: int, f0: int)
    requires first >= USER
    ensures LooseRange(use, first, n, f0)
  {
  }

  lemma KmapIn(m: Kmap, v: int)
    requires m.virt / PGSIZE <= v < m.virt / PGSIZE + ((m.virt + KmapSize(m) - 1) / PGSIZE - m.virt / PGSIZE + 1)
    ensures InKmap(m, v)
  {
  }

  // ---------------------------------------------------------------------------------------------
  // New pages
  // ---------------------------------------------------------------------------------------------

  /** A page to be made: the permissions mappages is given and the bytes of the page. */
  datatype Want = Want(perm: int, bytes: Block)

  /** Page `v` of `d` is mapped to a frame of its own, taken from the free list, with the wanted bytes. */
  ghost predicate NewPage(use0: map<int, Use>, mem: seq<Block>, use: map<int, Use>, d: int, v: int, w: Want) {
    var f := FrameOf(Lookup(mem, d, v));
    && 0 <= w.perm < PGSIZE && Lookup(mem, d, v) == Entry(f, w.perm)
    && f !in use0 && f in use && use[f] == Page(d, v) && 0 <= f < |mem| && mem[f] == w.bytes
  }

  /** Pages first .. first + |want| - 1 of `d` are new; `x` are loose new frames; the rest is as before,
      but for new tables. */
  ghost predicate Fresh(mem0: seq<Block>, use0: map<int, Use>, mem: seq<Block>, use: map<int, Use>, d: int, first: int, want: seq<Want>, x: set<int>) {
    && (forall e, u {:trigger Lookup(mem, e, u)} :: IsDir(use0, e) && !(e == d && first <= u < first + |want|) ==>
          Lookup(mem, e, u) == Lookup(mem0, e, u))
    && (forall k :: 0 <= k < |want| ==> NewPage(use0, mem, use, d, first + k, want[k]))
    && (forall f :: f in use0 ==> f in use && use[f] == use0[f])
    && (forall f :: f in x ==> f in use && f !in use0 && use[f].Loose?)
    && (forall f :: f in use && f !in use0 ==> f in x || IsNew(use[f], d, first, first + |want|))
  }

  predicate IsNew(u: Use, d: int, first: int, last: int) {
    (u.Table? && u.d == d) || (u.Page? && u.d == d && first <= u.v < last)
  }

  lemma FreshStart(mem: seq<Block>, use: map<int, Use>, d: int, first: int)
    ensures Fresh(mem, use, mem, use, d, first, [], {})
  {
    hide Lookup, NewPage;
  }

  lemma LooseOne(use: map<int, Use>, v: int, f: int)
    requires f in use && use[f].Loose?
    ensures LooseRange(use, v, 1, f)
  {
  }

  /** A frame from kalloc has been filled and mapped. */
  lemma FreshStep(mem0: seq<Block>, use0: map<int, Use>, mem: seq<Block>, use: map<int, Use>, mem': seq<Block>, use': map<int, Use>,
                  d: int, first: int, want: seq<Want>, f: int, w: Want)
    requires Fresh(mem0, use0, mem, use, d, first, want, {}) && IsDir(use0, d) && 0 <= w.perm < PGSIZE
    requires f !in use && 0 <= f < |mem| == |mem'| && first + |want| < USER
    requires
      var mem1, use1 := mem[f := w.bytes], use[f := Loose];
      && LooksKept(mem, use1, mem1) && MapLook(mem1, use1, mem', d, first + |want|, 1, f, w.perm)
      && MapUse(use1, use', d, first + |want|, 1, f) && DataKept(mem1, use1, mem')
    ensures Fresh(mem0, use0, mem', use', d, first, want + [w], {})
  {
    hide Lookup, Entry;
    var mem1, use1, c := mem[f := w.bytes], use[f := Loose], first + |want|;
    forall e, u | IsDir(use0, e)
      ensures Lookup(mem', e, u) == if e == d && u == c then Entry(f, w.perm) else Lookup(mem, e, u)
    {
      assert IsDir(use1, e);
      assert Lookup(mem1, e, u) == Lookup(mem, e, u);
    }
    forall g | g in use
      ensures g in use' && use'[g] == use[g]
    {
      assert use1[g] == use[g];
    }
    forall k | 0 <= k < |want|
      ensures NewPage(use0, mem', use', d, first + k, want[k])
    {
      var g := FrameOf(Lookup(mem, d, first + k));
      assert NewPage(use0, mem, use, d, first + k, want[k]);
      assert IsData(use1, g) && mem1[g] == mem[g];
    }
    assert NewPage(use0, mem', use', d, c, w) by {
      assert IsData(use1, f);
      assert FrameOf(Entry(f, w.perm)) == f;
    }
  }

  /** A frame from kalloc has been filled but could not be mapped. */
  lemma FreshFail(mem0: seq<Block>, use0: map<int, Use>, mem: seq<Block>, use: map<int, Use>, mem': seq<Block>, use': map<int, Use>,
                  d: int, first: int, want: seq<Want>, f: int, w: Want)
    requires Fresh(mem0, use0, mem, use, d, first, want, {}) && IsDir(use0, d) && 0 <= w.perm < PGSIZE
    requires f !in use && 0 <= f < |mem| == |mem'|
    requires
      var mem1, use1 := mem[f := w.bytes], use[f := Loose];
      && LooksKept(mem, use1, mem1) && MapLook(mem1, use1, mem', d, first + |want|, 0, f, w.perm)
      && MapUse(use1, use', d, first + |want|, 0, f) && DataKept(mem1, use1, mem')
    ensures Fresh(mem0, use0, mem', use', d, first, want, {f}) && f in use' && use'[f].Loose?
  {
    hide Lookup, Entry;
    var mem1, use1 := mem[f := w.bytes], use[f := Loose];
    forall e, u | IsDir(use0, e)
      ensures Lookup(mem', e, u) == Lookup(mem, e, u)
    {
      assert IsDir(use1, e);
      assert Lookup(mem1, e, u) == Lookup(mem, e, u);
    }
    forall g | g in use
      ensures g in use' && use'[g] == use[g]
    {
      assert use1[g] == use[g];
    }
    forall k | 0 <= k < |want|
      ensures NewPage(use0, mem', use', d, first + k, want[k])
    {
      var g := FrameOf(Lookup(mem, d, first + k));
      assert NewPage(use0, mem, use, d, first + k, want[k]);
      assert IsData(use1, g) && mem1[g] == mem[g];
    }
  }

  /** The unmapped frame has been freed again. */
  lemma FreshDrop(mem0: seq<Block>, use0: map<int, Use>, mem: seq<Block>, use: map<int, Use>, mem': seq<Block>, d: int, first: int, want: seq<Want>, f: int)
    requires Fresh(mem0, use0, mem, use, d, first, want, {f}) && |mem| == |mem'| && IsDir(use0, d)
    requires LooksKept(mem, use, mem') && DataKept(mem, use - {f}, mem')
    ensures Fresh(mem0, use0, mem', use - {f}, d, first, want, {})
  {
    hide Lookup, Entry;
    var use' := use - {f};
    forall k | 0 <= k < |want|
      ensures NewPage(use0, mem', use', d, first + k, want[k])
    {
      assert NewPage(use0, mem, use, d, first + k, want[k]);
      assert Lookup(mem', d, first + k) == Lookup(mem, d, first + k);
      assert IsData(use', FrameOf(Lookup(mem, d, first + k)));
    }
    forall e | IsDir(use0, e)
      ensures IsDir(use, e)
    {
    }
  }

  /** Unmapping what allocuvm had mapped so far. */
  lemma FreshUndo(mem0: seq<Block>, use0: map<int, Use>, mem: seq<Block>, use: map<int, Use>, mem': seq<Block>, d: int, first: int, last: int,
                  want: seq<Want>, x: set<int>)
    requires Fresh(mem0, use0, mem, use, d, first, want, x) && first + |want| <= last
    requires Unmapped(mem, use, mem', d, first, last)
    ensures Unmapped(mem0, use0, mem', d, first, last)
    ensures TablesAdded(use0 - PagesIn(use0, d, first, last), use - PagesIn(use, d, first, last) - x, d)
    ensures forall f :: f in x ==> f in use - PagesIn(use, d, first, last) && use[f].Loose?
    ensures forall f :: IsData(use0 - PagesIn(use0, d, first, last), f) ==> IsData(use, f) && IsData(use - PagesIn(use, d, first, last), f)
    ensures forall f :: IsData(use0 - PagesIn(use0, d, first, last), f) ==> IsData(use - PagesIn(use, d, first, last) - x, f)
  {
    hide Lookup, NewPage;
    forall e, u | IsDir(use0, e)
      ensures Lookup(mem', e, u) == if e == d && first <= u < last then 0 else Lookup(mem0, e, u)
    {
      assert IsDir(use, e);
    }
  }

  lemma UnmappedThenKept(mem0: seq<Block>, use0: map<int, Use>, mem: seq<Block>, use: map<int, Use>, mem': seq<Block>, d: int, first: int, last: int)
    requires Unmapped(mem0, use0, mem, d, first, last) && LooksKept(mem, use, mem') && forall e :: IsDir(use0, e) ==> IsDir(use, e)
    ensures Unmapped(mem0, use0, mem', d, first, last)
  {
    hide Lookup;
  }

  /** What allocuvm asks for. */
  function Zeroed(n: int): seq<Want> {
    seq(if n >= 0 then n else 0, _ => Want(PTE_W + PTE_U, ZEROPAGE))
  }

  lemma ZeroedNext(n: int)
    requires n >= 0
    ensures Zeroed(n) + [Want(PTE_W + PTE_U, ZEROPAGE)] == Zeroed(n + 1) && |Zeroed(n)| == n
  {
  }

  lemma FreshDirs(mem0: seq<Block>, use0: map<int, Use>, mem: seq<Block>, use: map<int, Use>, d: int, first: int, want: seq<Want>, x: set<int>)
    requires Fresh(mem0, use0, mem, use, d, first, want, x)
    ensures forall e :: IsDir(use0, e) ==> IsDir(use, e)
    ensures forall f :: IsData(use0, f) ==> IsData(use, f)
    ensures forall e, u :: IsDir(use0, e) && !(e == d && first <= u < first + |want|) ==> Lookup(mem, e, u) == Lookup(mem0, e, u)
  {
    hide Lookup, NewPage;
  }

  lemma AfterKalloc(use0: map<int, Use>, use: map<int, Use>, f: int)
    requires f !in use && forall g :: IsData(use0, g) ==> IsData(use, g)
    ensures forall g :: IsData(use0, g) ==> IsData(use[f := Loose], g) && g != f
  {
  }

  datatype AllocResult = Grew(sz: int) | Failed | Panicked

  lemma ZeroedNone()
    ensures Zeroed(0) == []
  {
  }

  lemma DropNone(use: map<int, Use>)
    ensures use - {} == use
  {
  }

  lemma StillLoose(use: map<int, Use>, d: int, first: int, last: int, f: int)
    requires f in use && use[f].Loose?
    ensures f in use - PagesIn(use, d, first, last) && (use - PagesIn(use, d, first, last))[f].Loose?
  {
  }

  lemma DropNoDir(use: map<int, Use>, d: int, f: int)
    requires IsDir(use, d) && f in use && use[f].Loose?
    ensures IsDir(use - {f}, d)
  {
  }

  lemma RemapSeen(mem: seq<Block>, use: map<int, Use>, mem1: seq<Block>, use1: map<int, Use>, d: int, v: int)
    requires LooksKept(mem, use1, mem1) && IsDir(use1, d)
    ensures Lookup(mem1, d, v) == Lookup(mem, d, v)
  {
  }

  // ---------------------------------------------------------------------------------------------
  // Copying an address space
  // ---------------------------------------------------------------------------------------------

  datatype CopyResult = Copied(d: int) | NoSpace | NotMapped

  /** Page `v` of directory `d`: its permissions and its bytes. */
  function PageOf(mem: seq<Block>, d: int, v: int): Want {
    var f := FrameOf(Lookup(mem, d, v));
    Want(Flags(Lookup(mem, d, v)), if 0 <= f < |mem| then mem[f] else [])
  }

  /** What copyuvm asks for: the first `n` pages of the parent. */
  ghost function PagesOf(mem: seq<Block>, d: int, n: int): seq<Want> {
    seq(if n >= 0 then n else 0, k requires 0 <= k => PageOf(mem, d, k))
  }

  lemma PagesOfNext(mem: seq<Block>, d: int, n: int)
    requires n >= 0
    ensures PagesOf(mem, d, n) + [PageOf(mem, d, n)] == PagesOf(mem, d, n + 1) && |PagesOf(mem, d, n)| == n
  {
  }

  lemma PagesOfNone(mem: seq<Block>, d: int)
    ensures PagesOf(mem, d, 0) == []
  {
  }

  /** The bytes and flags copyuvm reads for page `v` are the parent's. */
  lemma ParentPage(mem0: seq<Block>, use0: map<int, Use>, mem: seq<Block>, d0: int, v: int)
    requires Tables(mem0, use0) && IsDir(use0, d0) && 0 <= v < USER && |mem| == |mem0|
    requires Lookup(mem, d0, v) == Lookup(mem0, d0, v) != 0 && DataKept(mem0, use0, mem)
    requires forall f :: f in use0 ==> 0 < f < |mem0| && |mem[f]| == PGSIZE
    ensures
      var w := Lookup(mem, d0, v);
      && 0 <= FrameOf(w) < |mem| && 0 <= Flags(w) < PGSIZE
      && PageOf(mem0, d0, v) == Want(Flags(w), mem[FrameOf(w)]) && |mem[FrameOf(w)]| == PGSIZE
  {
    hide Lookup, At;
    assert IsData(use0, FrameOf(Lookup(mem0, d0, v)));
  }

  lemma FreshGrown(mem1: seq<Block>, use0: map<int, Use>, use1: map<int, Use>, mem: seq<Block>, use: map<int, Use>, d: int, want: seq<Want>)
    requires d !in use0 && TablesAdded(use0[d := Dir], use1, d) && Fresh(mem1, use1, mem, use, d, 0, want, {})
    ensures Grown(use0, use, d)
  {
    hide Lookup, NewPage;
    TablesGrown(use0, use1, d);
  }

  /** The child `d` has copies of the parent's first `n` pages, each in a frame of its own, nothing else
      below KERNBASE, and the kernel's mappings. */
  ghost predicate IsCopy(mem0: seq<Block>, use0: map<int, Use>, d0: int, mem: seq<Block>, use: map<int, Use>, d: int, n: int, data: int) {
    && d !in use0 && IsDir(use, d) && Grown(use0, use, d)
    && (forall v {:trigger Lookup(mem, d, v)} :: 0 <= v < n ==>
          PageOf(mem, d, v) == PageOf(mem0, d0, v) && Lookup(mem, d, v) != 0 && FrameOf(Lookup(mem, d, v)) !in use0)
    && KernelMap(mem, d, data, n)
  }

  lemma CopyDone(mem0: seq<Block>, use0: map<int, Use>, d0: int, mem1: seq<Block>, use1: map<int, Use>, mem: seq<Block>, use: map<int, Use>,
                 d: int, n: int, data: int)
    requires d !in use0 && TablesAdded(use0[d := Dir], use1, d) && IsDir(use1, d) && IsDir(use, d) && 0 <= n
    requires KernelMap(mem1, d, data, 0) && Fresh(mem1, use1, mem, use, d, 0, PagesOf(mem0, d0, n), {})
    requires forall v :: 0 <= v < n ==> 0 <= PageOf(mem0, d0, v).perm && PageOf(mem0, d0, v).perm % 2 == 1
    ensures IsCopy(mem0, use0, d0, mem, use, d, n, data)
  {
    hide Lookup, Entry, KernelTo, PageOf;
    FreshGrown(mem1, use0, use1, mem, use, d, PagesOf(mem0, d0, n));
    forall v | 0 <= v < n
      ensures PageOf(mem, d, v) == PageOf(mem0, d0, v) && Lookup(mem, d, v) != 0 && FrameOf(Lookup(mem, d, v)) !in use0
    {
      var w := PageOf(mem0, d0, v);
      assert PagesOf(mem0, d0, n)[v] == w;
      assert NewPage(use1, mem, use, d, 0 + v, w);
      CopiedPage(use1, mem, use, d, v, w);
      TablesGrown(use0, use1, d);
    }
  }

  lemma CopiedPage(use0: map<int, Use>, mem: seq<Block>, use: map<int, Use>, d: int, v: int, w: Want)
    requires NewPage(use0, mem, use, d, v, w) && w.perm % 2 == 1
    ensures PageOf(mem, d, v) == w && Lookup(mem, d, v) != 0
  {
    hide Lookup;
  }

  lemma OddFlags(e: int)
    requires e % 2 == 1
    ensures Flags(e) % 2 == 1 && Flags(e) >= 0
  {
    var k := e / 2 - 2048 * (e / PGSIZE);
    assert Flags(e) == 2 * k + 1;
  }

  lemma PermOdd(mem: seq<Block>, d: int, v: int)
    requires Lookup(mem, d, v) != 0
    ensures PageOf(mem, d, v).perm % 2 == 1 && PageOf(mem, d, v).perm >= 0
  {
    hide Flags, Pte;
    OddFlags(Lookup(mem, d, v));
  }

  lemma AddedIn(use0: map<int, Use>, use: map<int, Use>, d: int)
    requires TablesAdded(use0[d := Dir], use, d) && d !in use0
    ensures forall f :: f in use0 ==> f in use && use[f] == use0[f]
    ensures forall f :: IsData(use0, f) ==> IsData(use, f)
    ensures forall e :: IsDir(use0, e) ==> IsDir(use, e) && e != d
  {
    TablesGrown(use0, use, d);
  }

  lemma LookIs(mem: seq<Block>, use: map<int, Use>, mem': seq<Block>, d: int, v: int)
    requires LooksKept(mem, use, mem') && IsDir(use, d)
    ensures Lookup(mem', d, v) == Lookup(mem, d, v)
  {
  }

  lemma KernelIs(mem: seq<Block>, d: int, data: int, v: int)
    requires KernelMap(mem, d, data, 0) && 0 <= v < USER
    ensures Lookup(mem, d, v) == 0
  {
    hide Lookup, KernelTo;
    assert Lookup(mem, d, v) == 0;
  }

  /** Mapping pages of the child changes no other directory. */
  lemma ChildMapped(mem0: seq<Block>, use0: map<int, Use>, mem: seq<Block>, use: map<int, Use>, mem': seq<Block>, d: int, v: int, k: int, f: int, perm: int)
    requires LooksKept(mem0, use0, mem) && 0 <= perm < PGSIZE && MapLook(mem, use, mem', d, v, k, f, perm)
    requires forall e :: IsDir(use0, e) ==> IsDir(use, e) && e != d
    ensures LooksKept(mem0, use0, mem')
  {
    hide Lookup, Entry;
  }

  // ---------------------------------------------------------------------------------------------
  // Writing through a page table
  // ---------------------------------------------------------------------------------------------

  /** copyout returns 0, -1, or reads the entry of a page that has no page table (uva2ka does not check). */
  datatype OutResult = Written | Refused | Fault

  predicate UserBit(e: int) {
    e / PTE_U % 2 == 1
  }

  /** The byte that user address `x` names under directory `d`. */
  function UserByte(mem: seq<Block>, d: int, x: int): int {
    var f := FrameOf(Lookup(mem, d, x / PGSIZE));
    if Lookup(mem, d, x / PGSIZE) != 0 && 0 <= f < |mem| && |mem[f]| == PGSIZE then mem[f][x % PGSIZE] else 0
  }

  /** The only user bytes of any address space that differ are those at va .. va + |src| - 1 of `d`. */
  ghost predicate Poked(mem: seq<Block>, use: map<int, Use>, mem': seq<Block>, d: int, va: int, src: seq<int>) {
    forall e, x {:trigger UserByte(mem', e, x)} :: IsDir(use, e) && 0 <= x < KERNBASE && Lookup(mem, e, x / PGSIZE) != 0 ==>
      UserByte(mem', e, x) == if e == d && va <= x < va + |src| then src[x - va] else UserByte(mem, e, x)
  }

  function Patch(b: Block, at: int, src: seq<int>): (r: Block)
    requires 0 <= at && at + |src| <= |b|
    ensures |r| == |b|
  {
    b[..at] + src + b[at + |src|..]
  }

  /** Page `v` has a page table. */
  predicate HasTable(mem: seq<Block>, d: int, v: int) {
    Present(At(mem, d, v / NPT))
  }

  ghost predicate UserPages(mem: seq<Block>, d: int, first: int, v: int) {
    forall u :: first <= u < v ==> UserBit(Lookup(mem, d, u))
  }

  /** Page `v` is the first of first .. last that is not a user page. */
  ghost predicate StopsAt(mem: seq<Block>, d: int, first: int, last: int, v: int) {
    first <= v <= last && UserPages(mem, d, first, v) && !UserBit(Lookup(mem, d, v))
  }

  /** copyout comes to a page without page table. */
  ghost predicate NullRead(mem: seq<Block>, d: int, first: int, last: int) {
    exists v :: StopsAt(mem, d, first, last, v) && !HasTable(mem, d, v)
  }

  lemma StopIff(mem: seq<Block>, d: int, first: int, last: int, v: int)
    requires StopsAt(mem, d, first, last, v)
    ensures NullRead(mem, d, first, last) <==> !HasTable(mem, d, v)
    ensures !UserPages(mem, d, first, last + 1)
  {
    hide Lookup, HasTable;
    forall u | StopsAt(mem, d, first, last, u)
      ensures u == v
    {
    }
  }

  lemma NoStop(mem: seq<Block>, d: int, first: int, last: int)
    requires UserPages(mem, d, first, last + 1)
    ensures !NullRead(mem, d, first, last)
  {
    hide Lookup, HasTable;
  }

  lemma CopyStart(mem: seq<Block>, d: int, first: int)
    ensures UserPages(mem, d, first, first) && SameSlots(mem, mem, d)
  {
  }

  lemma SlotIs(mem: seq<Block>, mem': seq<Block>, d: int, v: int)
    requires SameSlots(mem, mem', d)
    ensures At(mem', d, v / NPT) == At(mem, d, v / NPT)
  {
  }

  lemma SlotsTrans(mem0: seq<Block>, mem: seq<Block>, mem': seq<Block>, d: int)
    requires SameSlots(mem0, mem, d) && SameSlots(mem, mem', d)
    ensures SameSlots(mem0, mem', d)
  {
    hide At;
  }

  /** The bytes va .. va + n - 1 lie in the page of `va`. */
  lemma InPage(va: int, n: int)
    requires 0 <= va && 0 < n <= PGSIZE - va % PGSIZE
    ensures (va + n - 1) / PGSIZE == va / PGSIZE && (n == PGSIZE - va % PGSIZE ==> (va + n) % PGSIZE == 0)
  {
  }

  lemma UserPagesNext(mem: seq<Block>, d: int, first: int, v: int)
    requires UserPages(mem, d, first, v) && UserBit(Lookup(mem, d, v))
    ensures UserPages(mem, d, first, v + 1)
  {
    hide Lookup;
  }

  /** memmove into one page. */
  lemma PokeStep(mem: seq<Block>, head: int, free: seq<int>, use: map<int, Use>, lo: int, d: int, va: int, src: seq<int>)
    requires VmOk(mem, head, free, use, lo) && IsDir(use, d) && 0 <= va < KERNBASE
    requires Lookup(mem, d, va / PGSIZE) != 0 && va % PGSIZE + |src| <= PGSIZE
    ensures
      var f := FrameOf(Lookup(mem, d, va / PGSIZE));
      && 0 <= f < |mem| && |mem[f]| == PGSIZE
      && var mem' := mem[f := Patch(mem[f], va % PGSIZE, src)];
      && VmOk(mem', head, free, use, lo) && LooksKept(mem, use, mem') && Poked(mem, use, mem', d, va, src) && SameSlots(mem, mem', d)
  {
    hide Lookup, At, Chain, Tables, Patch;
    PageFrame(mem, head, free, use, lo, d, va / PGSIZE);
    var f := FrameOf(Lookup(mem, d, va / PGSIZE));
    WriteData(mem, head, free, use, lo, f, Patch(mem[f], va % PGSIZE, src));
    var mem' := mem[f := Patch(mem[f], va % PGSIZE, src)];
    assert SameSlots(mem, mem', d) by {
      PutFrame(mem, f, Patch(mem[f], va % PGSIZE, src));
    }
    forall e, x | IsDir(use, e) && 0 <= x < KERNBASE && Lookup(mem, e, x / PGSIZE) != 0
      ensures UserByte(mem', e, x) == if e == d && va <= x < va + |src| then src[x - va] else UserByte(mem, e, x)
    {
      PageFrame(mem, head, free, use, lo, e, x / PGSIZE);
      assert Lookup(mem', e, x / PGSIZE) == Lookup(mem, e, x / PGSIZE);
      PatchAt(mem[f], va % PGSIZE, src, x % PGSIZE);
      SamePage(va, x, |src|);
    }
  }

  lemma PatchAt(b: Block, at: int, src: seq<int>, k: int)
    requires 0 <= at && at + |src| <= |b| && 0 <= k < |b|
    ensures Patch(b, at, src)[k] == if at <= k < at + |src| then src[k - at] else b[k]
  {
  }

  lemma SamePage(va: int, x: int, m: int)
    requires 0 <= va && 0 <= x && va % PGSIZE + m <= PGSIZE && m >= 0
    ensures va / PGSIZE == x / PGSIZE ==> x - va == x % PGSIZE - va % PGSIZE
    ensures va <= x < va + m ==> va / PGSIZE == x / PGSIZE
  {
  }

  lemma PokeNext(mem0: seq<Block>, use: map<int, Use>, mem: seq<Block>, mem': seq<Block>, d: int, va: int, src: seq<int>, k: int, m: int)
    requires 0 <= k && 0 <= m && k + m <= |src|
    requires Poked(mem0, use, mem, d, va, src[..k]) && LooksKept(mem0, use, mem) && Poked(mem, use, mem', d, va + k, src[k..k + m])
    ensures Poked(mem0, use, mem', d, va, src[..k + m])
  {
    hide Lookup, UserByte;
    forall e, x | IsDir(use, e) && 0 <= x < KERNBASE && Lookup(mem0, e, x / PGSIZE) != 0
      ensures UserByte(mem', e, x) == if e == d && va <= x < va + k + m then src[..k + m][x - va] else UserByte(mem0, e, x)
    {
      assert Lookup(mem, e, x / PGSIZE) == Lookup(mem0, e, x / PGSIZE);
      assert UserByte(mem, e, x) == if e == d && va <= x < va + k then src[..k][x - va] else UserByte(mem0, e, x);
    }
  }

  lemma PokeStart(mem: seq<Block>, use: map<int, Use>, d: int, va: int)
    ensures Poked(mem, use, mem, d, va, []) && LooksKept(mem, use, mem)
  {
    hide UserByte, Lookup;
  }

  /** No page above KERNBASE is a user page. */
  ghost predicate KernelOnly(mem: seq<Block>, d: int) {
    forall v :: v >= USER ==> !UserBit(Lookup(mem, d, v))
  }

  lemma KernelNotUser(mem: seq<Block>, d: int, data: int)
    requires KernelMap(mem, d, data, 0)
    ensures KernelOnly(mem, d)
  {
    hide Lookup;
    forall v | v >= USER
      ensures !UserBit(Lookup(mem, d, v))
    {
      if v < VPNS {
        NoUser();
        assert Lookup(mem, d, v) == Lookup(mem, d, v);
      } else {
        BeyondTable(mem, d, v);
      }
    }
  }

  lemma BeyondTable(mem: seq<Block>, d: int, v: int)
    requires v >= VPNS
    ensures Lookup(mem, d, v) == 0
  {
  }

  lemma EntryNotUser(f: int, perm: int)
    requires perm == PTE_W || perm == 0
    ensures !UserBit(Entry(f, perm))
  {
    assert Entry(f, perm) / PTE_U == f * 1024;
  }

  lemma EntryIsUser(f: int)
    ensures UserBit(Entry(f, PTE_W + PTE_U))
  {
    assert Entry(f, PTE_W + PTE_U) / PTE_U == f * 1024 + 1;
  }

  /** What allocuvm maps are user pages, which copyout can write. */
  lemma NewAreUser(mem0: seq<Block>, use0: map<int, Use>, mem: seq<Block>, use: map<int, Use>, d: int, first: int, n: int)
    requires 0 <= n && Fresh(mem0, use0, mem, use, d, first, Zeroed(n), {})
    ensures UserPages(mem, d, first, first + n)
  {
    hide Lookup, Entry, UserBit;
    forall v | first <= v < first + n
      ensures UserBit(Lookup(mem, d, v))
    {
      assert NewPage(use0, mem, use, d, first + (v - first), Zeroed(n)[v - first]);
      EntryIsUser(FrameOf(Lookup(mem, d, v)));
    }
  }

  lemma NoUser()
    ensures !UserBit(0)
  {
  }

  lemma UserBelow(mem: seq<Block>, d: int, v: int)
    requires KernelOnly(mem, d) && UserBit(Lookup(mem, d, v))
    ensures v < USER && Lookup(mem, d, v) != 0
  {
    NoUser();
  }

  /** The frames first .. last - 1 are no longer in use; the others are as before. */
  ghost predicate Released(use: map<int, Use>, use': map<int, Use>, first: int, last: int) {
    && (forall f :: f in use' <==> f in use && !(first <= f < last))
    && (forall f :: f in use' ==> use'[f] == use[f])
  }

  lemma ReleasedNext(use: map<int, Use>, use': map<int, Use>, first: int, n: int)
    requires Released(use, use', first, n) && first <= n && n in use && use[n].Loose?
    ensures n in use' && use'[n].Loose? && Released(use, use' - {n}, first, n + 1)
    ensures forall e :: IsDir(use, e) && !(first <= e < n) ==> IsDir(use', e)
  {
  }

  /** The uses before kinit. */
  ghost function AllLoose(lo: int, hi: int): (use: map<int, Use>)
    ensures forall f :: f in use <==> lo <= f < hi
    ensures forall f :: f in use ==> use[f].Loose?
    decreases hi - lo
  {
    if hi <= lo then map[] else AllLoose(lo, hi - 1)[hi - 1 := Loose]
  }

  /** If the range was not mapped before, a failed allocuvm has restored every translation. */
  lemma FailedRestores(mem: seq<Block>, use: map<int, Use>, mem': seq<Block>, use': map<int, Use>, d: int, first: int, last: int)
    requires Tables(mem, use) && Unmapped(mem, use, mem', d, first, last)
    requires TablesAdded(use - PagesIn(use, d, first, last), use', d)
    requires forall v :: first <= v < last ==> Lookup(mem, d, v) == 0
    ensures LooksKept(mem, use, mem') && TablesAdded(use, use', d)
  {
    hide Lookup, At;
    forall f | f in use && use[f].Page? && use[f].d == d
      ensures !(first <= use[f].v < last)
    {
      assert Lookup(mem, use[f].d, use[f].v) != 0;
    }
    assert PagesIn(use, d, first, last) == {} by {
      NoPagesIn(use, d, first, last);
    }
    assert use - {} == use;
  }

  lemma NoPagesIn(use: map<int, Use>, d: int, first: int, last: int)
    requires forall f :: f in use && use[f].Page? && use[f].d == d ==> !(first <= use[f].v < last)
    ensures PagesIn(use, d, first, last) == {}
  {
    var s := PagesIn(use, d, first, last);
    if s != {} {
      var f := Pick(s);
    }
  }
}
