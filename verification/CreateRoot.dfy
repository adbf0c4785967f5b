/** `create_pml4` (paging.rs): building a new root from the active one. */
module CreateRoot {
  import opened Prelude
  import opened PageTables
  import opened Paging
  import opened Teardown
  import opened Cloning

  /** Away from `{child}` and the scratch PTE, which is set and cleared again, copying changes nothing. */
  lemma ScratchCopy(mem: Memory, src: nat, sown: map<nat, Node>, i: Idx, j: Idx, k: Idx, child: nat)
    requires ScratchReady(mem, src, sown) && child !in sown
    requires LiveLeaf(mem, src, i, j, k) && (i != 1 || j != 0 || k != 0)
    ensures var t := FrameOf(mem, src, Pt(1, 0));
      var m1 := Store(mem, t, 0, Entry(child, PAGE_KERNEL));
      var from := PtEntry(mem, src, i, j, k).frame;
      && Lookup(m1, src, SCRATCH_PATH) == Some(Mapping(child, PAGE_KERNEL))
      && Lookup(m1, src, Path(0, i, j, k)) == MappingOf(PtEntry(mem, src, i, j, k))
      && var m3 := Store(m1[child := Get(m1, from)], t, 0, ZERO_ENTRY);
         AgreeExcept(mem, m3, {child}) && Get(m3, child) == Get(mem, from)
  {
    var t := FrameOf(mem, src, Pt(1, 0));
    var x := Entry(child, PAGE_KERNEL);
    var m1 := Store(mem, t, 0, x);
    assert Live(mem, src, Pt(1, 0)) && Live(mem, src, Pt(i, j)) && Live(mem, src, Leaf(i, j, k));
    assert sown[t] == Pt(1, 0) && sown[PtEntry(mem, src, i, j, k).frame] == Leaf(i, j, k);
    StoreReads(mem, src, sown, Pt(1, 0), 0, x);
    StoreFrame(mem, src, sown, Pt(1, 0), 0, x, Leaf(i, j, k));
    StoreFrame(mem, src, sown, Pt(1, 0), 0, x, Pt(i, j));
    var es := Entries(mem, t);
    assert es[0] == ZERO_ENTRY;
    assert es[0 := x][0 := ZERO_ENTRY] == es;
  }

  /** The source's scratch walk is untouched while the pool changes. */
  lemma StillReady(m0: Memory, mem: Memory, src: nat, sown: map<nat, Node>, pool: set<nat>)
    requires ScratchReady(m0, src, sown) && sown.Keys !! pool && AgreeExcept(m0, mem, pool)
    ensures ScratchReady(mem, src, sown)
  {
    forall n: Node ensures SamePlace(m0, mem, src, n) {
      Untouched(m0, mem, src, sown, n);
    }
    SamePlaces(m0, mem, src, sown);
    Untouched(m0, mem, src, sown, Leaf(1, 0, 0));
    Untouched(m0, mem, src, sown, Pt(1, 0));
    assert Live(m0, src, Pt(1, 0));
  }

  /**
    Copy the page at `p` of the active root into frame `child` through the scratch
    mapping: source and destination are both found by walking the active root.
   */
  method CopyUserPageThroughScratch(m: Machine, p: Path, child: nat, ghost sown: map<nat, Node>)
    requires m.Valid() && ScratchReady(m.mem, m.cr3, sown) && child !in sown
    requires p.l4 == 0 && LiveLeaf(m.mem, m.cr3, p.l3, p.l2, p.l1) && p != SCRATCH_PATH
    modifies m`mem
    ensures m.Valid() && AgreeExcept(old(m.mem), m.mem, {child})
    ensures Get(m.mem, child) == Get(old(m.mem), PtEntry(old(m.mem), m.cr3, p.l3, p.l2, p.l1).frame)
  {
    hide ScratchReady, Lookup, Store, AgreeExcept, FrameOf, LiveLeaf, PtEntry;
    assert p == Path(0, p.l3, p.l2, p.l1);
    ScratchCopy(m.mem, m.cr3, sown, p.l3, p.l2, p.l1, child);
    LeafMapped(m.mem, m.cr3, p);
    var pte := KernelScratchPte(m, sown);
    m.mem := Store(m.mem, pte, SCRATCH_PATH.l1, Entry(child, PAGE_KERNEL));
    var from := Lookup(m.mem, m.cr3, p).value.frame;
    var to := Lookup(m.mem, m.cr3, SCRATCH_PATH).value.frame;
    m.mem := m.mem[to := Get(m.mem, from)];
    m.mem := Store(m.mem, pte, SCRATCH_PATH.l1, ZERO_ENTRY);
  }

  lemma LeafMapped(mem: Memory, r: nat, p: Path)
    requires LiveLeaf(mem, r, p.l3, p.l2, p.l1)
    ensures MappingOf(PtEntry(mem, r, p.l3, p.l2, p.l1)) ==
      Some(Mapping(PtEntry(mem, r, p.l3, p.l2, p.l1).frame, PtEntry(mem, r, p.l3, p.l2, p.l1).flags))
  {
  }

  /** The PT that holds the scratch PTE; a missing table or a busy PTE cannot occur here. */
  method KernelScratchPte(m: Machine, ghost sown: map<nat, Node>) returns (pt: nat)
    requires m.Valid() && ScratchReady(m.mem, m.cr3, sown)
    ensures pt == FrameOf(m.mem, m.cr3, Pt(1, 0)) && !Entries(m.mem, pt)[SCRATCH_PATH.l1].flags.present
  {
    var e4 := Entries(m.mem, m.cr3)[SCRATCH_PATH.l4];
    var e3 := Entries(m.mem, e4.frame)[SCRATCH_PATH.l3];
    var e2 := Entries(m.mem, e3.frame)[SCRATCH_PATH.l2];
    assert e4.flags.present && e3.flags.present && e2.flags.present && !e3.flags.huge && !e2.flags.huge;
    pt := e2.frame;
  }

  /** One PTE of a user-range PT. */
  method CloneLeaf(m: Machine, i: Idx, j: Idx, k: Idx, srcPt: nat, newPt: nat, ghost c: Ctx, ghost own: map<nat, Node>)
    returns (ok: bool, ghost own': map<nat, Node>)
    requires m.Valid() && m.cr3 == c.src && Mid(c, m.S(own)) && c.copy && !ScratchSlot(i)
    requires LivePt(c.m0, c.src, i, j) && srcPt == FrameOf(c.m0, c.src, Pt(i, j))
    requires LivePt(m.mem, c.r, i, j) && newPt == FrameOf(m.mem, c.r, Pt(i, j))
    requires PtEntry(m.mem, c.r, i, j, k) == ZERO_ENTRY
    modifies m`mem, m.pmm
    ensures m.Valid() && m.pmm.Tail() == old(m.pmm.Tail())
    ensures Mid(c, m.S(own')) && Progress(old(m.S(own)), m.S(own'), c.r, Pt(i, j), k)
    ensures ok ==> ClonedLeaf(c.m0, c.src, m.mem, c.r, c.pool, i, j, k)
    ensures !ok ==> TooFewFrames(c)
  {
    hide Mid, Progress, ClonedLeaf, FrameOf, TooFewFrames, ScratchReady, LivePt, Store, ScratchSlot;
    ghost var s := m.S(own);
    own' := own;
    LeafSource(c, s, i, j, k);
    var e := Entries(m.mem, srcPt)[k];
    if !e.flags.present || !e.flags.user {
      LeafShared(c, s, i, j, k);
      m.mem := Store(m.mem, newPt, k, e);
      return true, own;
    }
    var child := m.pmm.Alloc();
    if child.None? {
      ProgressRefl(s, c.r, Pt(i, j), k);
      LeafRanOut(c, s, i, j, k);
      return false, own;
    }
    LeafHandFresh(c, s, child.value);
    assert s.mem == m.mem;
    CopyUserPageThroughScratch(m, Path(0, i, j, k), child.value, c.sown);
    LeafCopied(c, s, m.mem, i, j, k, child.value);
    m.mem := Store(m.mem, newPt, k, Entry(child.value, e.flags));
    return true, own[child.value := Leaf(i, j, k)];
  }

  /** The source PTE as read now is the one at the start, and its scratch walk is ready. */
  lemma LeafSource(c: Ctx, s: Sys, i: Idx, j: Idx, k: Idx)
    requires Mid(c, s) && c.copy && LivePt(c.m0, c.src, i, j) && !ScratchSlot(i)
    ensures Entries(s.mem, FrameOf(c.m0, c.src, Pt(i, j)))[k] == PtEntry(c.m0, c.src, i, j, k)
    ensures ScratchReady(s.mem, c.src, c.sown) && PtEntry(s.mem, c.src, i, j, k) == PtEntry(c.m0, c.src, i, j, k)
    ensures LiveLeaf(s.mem, c.src, i, j, k) == LiveLeaf(c.m0, c.src, i, j, k)
    ensures LiveLeaf(c.m0, c.src, i, j, k) <==>
      PtEntry(c.m0, c.src, i, j, k).flags.present && PtEntry(c.m0, c.src, i, j, k).flags.user
    ensures Path(0, i, j, k) != SCRATCH_PATH
  {
    hide Space, HugeUser;
    StillReady(c.m0, s.mem, c.src, c.sown, c.pool);
    SrcRead(c.m0, s.mem, c.src, c.pool, i, j, k);
    Untouched(c.m0, s.mem, c.src, c.sown, Pt(i, j));
    Untouched(c.m0, s.mem, c.src, c.sown, Leaf(i, j, k));
    assert SealedAt(c.m0, c.src, map[], c.pool, Path(0, i, j, k));
  }

  lemma LeafRanOut(c: Ctx, s: Sys, i: Idx, j: Idx, k: Idx)
    requires Mid(c, s) && c.copy && !ScratchSlot(i) && s.free == {}
    requires LiveLeaf(c.m0, c.src, i, j, k) && PtEntry(s.mem, c.r, i, j, k) == ZERO_ENTRY
    ensures TooFewFrames(c)
  {
    hide Mid, TooFewFrames;
    RanOut(c, s, Leaf(i, j, k));
  }

  lemma LeafHandFresh(c: Ctx, s: Sys, child: nat)
    requires Mid(c, s) && c.copy && child in s.free
    ensures child !in c.sown
  {
    hide Space, HugeUser;
  }

  /** PTEs below `k` are cloned, the others still zero. */
  ghost predicate PtUpTo(c: Ctx, mem: Memory, i: Idx, j: Idx, k: nat) {
    && LivePt(mem, c.r, i, j)
    && (forall a: Idx :: a < k ==> ClonedLeaf(c.m0, c.src, mem, c.r, c.pool, i, j, a))
    && (forall a: Idx :: k <= a ==> PtEntry(mem, c.r, i, j, a) == ZERO_ENTRY)
  }

  lemma PtAdvance(c: Ctx, s: Sys, s': Sys, i: Idx, j: Idx, k: Idx)
    requires Mid(c, s) && Progress(s, s', c.r, Pt(i, j), k) && PtUpTo(c, s.mem, i, j, k)
    ensures LivePt(s'.mem, c.r, i, j) && PdEntry(s'.mem, c.r, i, j) == PdEntry(s.mem, c.r, i, j)
    ensures ClonedLeaf(c.m0, c.src, s'.mem, c.r, c.pool, i, j, k) ==> PtUpTo(c, s'.mem, i, j, k + 1)
  {
    hide Mid, ClonedLeaf;
    assert SameNode(s.mem, s'.mem, c.r, Pt(i, j));
    forall a: Idx | a < k ensures ClonedLeaf(c.m0, c.src, s'.mem, c.r, c.pool, i, j, a) {
      LeafStable(c, s, s', Pt(i, j), k, i, j, a);
    }
    forall a: Idx | k < a ensures PtEntry(s'.mem, c.r, i, j, a) == ZERO_ENTRY {
      assert SameNode(s.mem, s'.mem, c.r, Leaf(i, j, a));
    }
  }

  /** All PTEs of one user-range PT. */
  method ClonePt(m: Machine, i: Idx, j: Idx, srcPt: nat, newPt: nat, ghost c: Ctx, ghost own: map<nat, Node>)
    returns (ok: bool, ghost own': map<nat, Node>)
    requires m.Valid() && m.cr3 == c.src && Mid(c, m.S(own)) && c.copy && !ScratchSlot(i)
    requires LivePt(c.m0, c.src, i, j) && srcPt == FrameOf(c.m0, c.src, Pt(i, j))
    requires PtUpTo(c, m.mem, i, j, 0) && newPt == FrameOf(m.mem, c.r, Pt(i, j))
    modifies m`mem, m.pmm
    ensures m.Valid() && m.pmm.Tail() == old(m.pmm.Tail())
    ensures Mid(c, m.S(own')) && Progress(old(m.S(own)), m.S(own'), c.r, Pd(i), j)
    ensures ok ==> PtUpTo(c, m.mem, i, j, 512) && PdEntry(m.mem, c.r, i, j) == PdEntry(old(m.mem), c.r, i, j)
    ensures !ok ==> TooFewFrames(c)
  {
    hide Mid, Progress, PtUpTo, FrameOf, TooFewFrames, LivePt, PdEntry, PtEntry, ScratchSlot;
    ghost var s0 := m.S(own);
    ProgressRefl(s0, c.r, Pd(i), j);
    own' := own;
    PtFrame(m.mem, c.r, i, j);
    var k := 0;
    while k < 512
      invariant 0 <= k <= 512 && m.Valid() && m.pmm.Tail() == old(m.pmm.Tail())
      invariant Mid(c, m.S(own')) && Progress(s0, m.S(own'), c.r, Pd(i), j)
      invariant PtUpTo(c, m.mem, i, j, k) && PdEntry(m.mem, c.r, i, j) == PdEntry(s0.mem, c.r, i, j)
    {
      ghost var s := m.S(own');
      PtFrame(m.mem, c.r, i, j);
      PtNext(c, s.mem, i, j, k);
      ok, own' := CloneLeaf(m, i, j, k, srcPt, newPt, c, own');
      ProgressTrans(s0, s, m.S(own'), c.r, Pd(i), j, Pt(i, j), k);
      if !ok {
        return false, own';
      }
      PtAdvance(c, s, m.S(own'), i, j, k);
      k := k + 1;
    }
    ok := true;
  }

  lemma PtFrame(mem: Memory, r: nat, i: Idx, j: Idx)
    ensures FrameOf(mem, r, Pt(i, j)) == PdEntry(mem, r, i, j).frame
  {
  }

  lemma PtNext(c: Ctx, mem: Memory, i: Idx, j: Idx, k: Idx)
    requires PtUpTo(c, mem, i, j, k)
    ensures LivePt(mem, c.r, i, j) && PtEntry(mem, c.r, i, j, k) == ZERO_ENTRY
  {
  }

  // ----- One PD slot ------------------------------------------------------------

  /** A user huge page, 1 GiB or 2 MiB, that an eager clone would have to copy. */
  ghost predicate UserHugePage(c: Ctx) {
    c.copy && LivePdpt(c.m0, c.src) && exists i: Idx :: UserHugeAt(c, i)
  }

  ghost predicate UserHugeAt(c: Ctx, i: Idx) {
    && !ScratchSlot(i)
    && ((Giant(c.m0, c.src, i) && PdptEntry(c.m0, c.src, i).flags.user) || exists j: Idx :: HugeUser(c.m0, c.src, i, j))
  }

  /** The only reasons for the construction to fail. */
  ghost predicate Refused(c: Ctx) {
    TooFewFrames(c) || UserHugePage(c)
  }

  /** A finished clone met no user huge page. */
  lemma NoHugePage(c: Ctx, mem: Memory, r: nat, pool: set<nat>)
    requires ClonedRoot(c.m0, c.src, mem, r, pool, c.copy)
    ensures !UserHugePage(c)
  {
    if c.copy && LivePdpt(c.m0, c.src) {
      forall i: Idx ensures !UserHugeAt(c, i) {
        assert ClonedPd(c.m0, c.src, mem, r, pool, true, i);
        if !ScratchSlot(i) && LivePd(c.m0, c.src, i) {
          forall j: Idx ensures !HugeUser(c.m0, c.src, i, j) {
            assert ClonedSlot(c.m0, c.src, mem, r, pool, true, i, j);
          }
        }
      }
    }
  }

  lemma SlotSource(c: Ctx, s: Sys, i: Idx, j: Idx)
    requires Mid(c, s) && LivePd(c.m0, c.src, i)
    ensures Entries(s.mem, FrameOf(c.m0, c.src, Pd(i)))[j] == PdEntry(c.m0, c.src, i, j)
  {
    hide Space, HugeUser;
    SrcRead(c.m0, s.mem, c.src, c.pool, i, j, 0);
    assert SealedAt(c.m0, c.src, map[], c.pool, Path(0, i, j, 0));
  }

  lemma SlotShared(c: Ctx, s: Sys, i: Idx, j: Idx)
    requires Mid(c, s) && LivePd(s.mem, c.r, i) && PdEntry(s.mem, c.r, i, j) == ZERO_ENTRY && LivePd(c.m0, c.src, i)
    requires var x := PdEntry(c.m0, c.src, i, j);
      x.flags.present && (InUser(i, j) ==> c.copy && x.flags.huge && !x.flags.user)
    ensures var s' := s.(mem := Store(s.mem, FrameOf(s.mem, c.r, Pd(i)), j, PdEntry(c.m0, c.src, i, j)));
      Mid(c, s') && Progress(s, s', c.r, Pd(i), j) && ClonedSlot(c.m0, c.src, s'.mem, c.r, c.pool, c.copy, i, j)
  {
    hide Needs, ScratchReady;
    SharePde(c.m0, s, c.src, c.r, c.pool, i, j);
    assert Live(s.mem, c.r, Pd(i));
    NotRoot(s.mem, c.r, s.own, Pd(i));
  }

  /** Creating the private PT of a slot. */
  lemma SlotTable(c: Ctx, s: Sys, i: Idx, j: Idx, g: nat)
    requires Mid(c, s) && c.copy && !ScratchSlot(i) && g in s.free
    requires LivePd(s.mem, c.r, i) && PdEntry(s.mem, c.r, i, j) == ZERO_ENTRY && LivePt(c.m0, c.src, i, j)
    ensures var e := PdEntry(c.m0, c.src, i, j);
      var s' := Sys(WithTable(s.mem, FrameOf(s.mem, c.r, Pd(i)), j, g, e.flags), s.own[g := Pt(i, j)], s.free - {g});
      && Mid(c, s') && Progress(s, s', c.r, Pd(i), j)
      && PtUpTo(c, s'.mem, i, j, 0) && PdEntry(s'.mem, c.r, i, j) == Entry(g, e.flags)
  {
    hide Building, CtxOk, WithTable, Needs, KeepsData, SameElsewhere, PtUpTo, Progress, AllZero;
    var e := PdEntry(c.m0, c.src, i, j);
    var s' := Sys(WithTable(s.mem, FrameOf(s.mem, c.r, Pd(i)), j, g, e.flags), s.own[g := Pt(i, j)], s.free - {g});
    assert Live(s.mem, c.r, Pd(i));
    NeedsPt(c, i, j);
    TableBuilding(c.m0, s, c.r, c.pool, Pd(i), j, g, e.flags, Pt(i, j));
    MidRoot(c, s, Pd(i));
    RootKept(c, s, FrameOf(s.mem, c.r, Pd(i)), j, g, e.flags);
    NodeMid(c, s, s', Pt(i, j), g);
    TableProgress(c, s, s', Pd(i), j, g, Pt(i, j));
    EmptyPt(c, s'.mem, i, j, g);
  }

  lemma MidRoot(c: Ctx, s: Sys, n: Node)
    requires Mid(c, s) && Live(s.mem, c.r, n) && n != Root
    ensures FrameOf(s.mem, c.r, n) != c.r
  {
    hide CtxOk, Needs, Live, FrameOf, HugeUser, AgreeExcept, SealedAt, Stored;
    NotRoot(s.mem, c.r, s.own, n);
  }

  /** A new table, as a step of the construction. */
  lemma TableProgress(c: Ctx, s: Sys, s': Sys, n: Node, idx: Idx, g: nat, t: Node)
    requires Mid(c, s) && g in s.free && s'.own == s.own[g := t] && s'.free == s.free - {g}
    requires SameElsewhere(s.mem, s'.mem, c.r, n, idx) && Entries(s'.mem, c.r) == Entries(s.mem, c.r)
    requires KeepsData(s.mem, s'.mem, s.own, s.free)
    ensures Progress(s, s', c.r, n, idx)
  {
    hide CtxOk, Needs, Space, HugeUser, AgreeExcept, SameElsewhere, KeepsData;
  }

  lemma EmptyPt(c: Ctx, mem: Memory, i: Idx, j: Idx, g: nat)
    requires LivePt(mem, c.r, i, j) && PdEntry(mem, c.r, i, j).frame == g && AllZero(Entries(mem, g))
    ensures PtUpTo(c, mem, i, j, 0)
  {
  }

  lemma NeedsPt(c: Ctx, i: Idx, j: Idx)
    requires c.copy && !ScratchSlot(i) && LivePt(c.m0, c.src, i, j)
    ensures Needs(c, Pt(i, j))
  {
  }

  lemma RootKept(c: Ctx, s: Sys, f: nat, idx: Idx, g: nat, flags: Flags)
    requires Mid(c, s) && g in s.free && f != c.r
    ensures Entries(WithTable(s.mem, f, idx, g, flags), c.r) == Entries(s.mem, c.r)
  {
    assert Live(s.mem, c.r, Root);
  }

  /** Owning one more needed node keeps the construction going. */
  lemma NodeMid(c: Ctx, s: Sys, s': Sys, n: Node, g: nat)
    requires Mid(c, s) && Building(c.m0, s', c.r, c.pool, {}) && s'.own == s.own[g := n] && Needs(c, n)
    ensures Mid(c, s')
  {
    hide CtxOk, Building, Needs;
  }

  lemma SlotDone(c: Ctx, mem: Memory, i: Idx, j: Idx)
    requires PtUpTo(c, mem, i, j, 512) && c.copy && LivePt(c.m0, c.src, i, j)
    requires PdEntry(mem, c.r, i, j).flags == PdEntry(c.m0, c.src, i, j).flags
    ensures ClonedSlot(c.m0, c.src, mem, c.r, c.pool, c.copy, i, j)
  {
    hide ClonedLeaf;
  }

  lemma SlotRanOut(c: Ctx, s: Sys, i: Idx, j: Idx)
    requires Mid(c, s) && c.copy && !ScratchSlot(i) && s.free == {}
    requires LivePt(c.m0, c.src, i, j) && PdEntry(s.mem, c.r, i, j) == ZERO_ENTRY
    ensures Refused(c)
  {
    RanOut(c, s, Pt(i, j));
  }

  lemma SlotHuge(c: Ctx, i: Idx, j: Idx)
    requires c.copy && !ScratchSlot(i) && LivePd(c.m0, c.src, i)
    requires var e := PdEntry(c.m0, c.src, i, j); InUser(i, j) && e.flags.present && e.flags.huge && e.flags.user
    ensures Refused(c)
  {
    assert HugeUser(c.m0, c.src, i, j);
    assert UserHugeAt(c, i);
  }

  /** A skipped slot stays empty. */
  lemma SlotSkipped(c: Ctx, mem: Memory, i: Idx, j: Idx)
    requires PdEntry(mem, c.r, i, j) == ZERO_ENTRY
    requires !PdEntry(c.m0, c.src, i, j).flags.present || (InUser(i, j) && !c.copy)
    ensures ClonedSlot(c.m0, c.src, mem, c.r, c.pool, c.copy, i, j)
  {
  }

  /** One PDE. */
  method CloneSlot(m: Machine, copyUser: bool, i: Idx, j: Idx, srcPd: nat, newPd: nat, ghost c: Ctx, ghost own: map<nat,
                   Node>)
    returns (ok: bool, ghost own': map<nat, Node>)
    requires m.Valid() && m.cr3 == c.src && Mid(c, m.S(own)) && copyUser == c.copy && !ScratchSlot(i)
    requires LivePd(c.m0, c.src, i) && srcPd == FrameOf(c.m0, c.src, Pd(i))
    requires LivePd(m.mem, c.r, i) && newPd == FrameOf(m.mem, c.r, Pd(i)) && PdEntry(m.mem, c.r, i, j) == ZERO_ENTRY
    modifies m`mem, m.pmm
    ensures m.Valid() && m.pmm.Tail() == old(m.pmm.Tail())
    ensures Mid(c, m.S(own')) && Progress(old(m.S(own)), m.S(own'), c.r, Pd(i), j)
    ensures ok ==> ClonedSlot(c.m0, c.src, m.mem, c.r, c.pool, c.copy, i, j)
    ensures !ok ==> Refused(c)
  {
    hide Mid, Progress, ClonedSlot, PtUpTo, FrameOf, LivePd, PdEntry, ScratchSlot, TooFewFrames, UserHugePage;
    ghost var s := m.S(own);
    own' := own;
    SlotSource(c, s, i, j);
    ProgressRefl(s, c.r, Pd(i), j);
    var e := Entries(m.mem, srcPd)[j];
    if !e.flags.present {
      SlotSkipped(c, m.mem, i, j);
      return true, own;
    }
    var vaddr := i * 0x4000_0000 + j * 0x20_0000;
    if copyUser && e.flags.huge && e.flags.user && vaddr + 0x20_0000 > USER_CODE_ADDR {
      SlotHuge(c, i, j);
      return false, own;
    }
    if vaddr >= USER_CODE_ADDR && !copyUser {
      SlotSkipped(c, m.mem, i, j);
      return true, own;
    }
    if copyUser && vaddr >= USER_CODE_ADDR && !e.flags.huge {
      var pt := m.pmm.Alloc();
      if pt.None? {
        SlotRanOut(c, s, i, j);
        return false, own;
      }
      SlotTable(c, s, i, j, pt.value);
      m.mem := WithTable(m.mem, newPd, j, pt.value, e.flags);
      own' := own[pt.value := Pt(i, j)];
      ghost var s1 := m.S(own');
      PtFrame(m.mem, c.r, i, j);
      PtFrame(c.m0, c.src, i, j);
      ok, own' := ClonePt(m, i, j, e.frame, pt.value, c, own');
      ProgressTrans(s, s1, m.S(own'), c.r, Pd(i), j, Pd(i), j);
      if ok {
        SlotDone(c, m.mem, i, j);
      }
      return ok, own';
    }
    SlotShared(c, s, i, j);
    m.mem := Store(m.mem, newPd, j, e);
    return true, own;
  }

  // ----- One PDPT slot ----------------------------------------------------------

  /** PDEs below `j` are cloned, the others still zero. */
  ghost predicate PdUpTo(c: Ctx, mem: Memory, i: Idx, j: nat) {
    && LivePd(mem, c.r, i)
    && (forall b: Idx :: b < j ==> ClonedSlot(c.m0, c.src, mem, c.r, c.pool, c.copy, i, b))
    && (forall b: Idx :: j <= b ==> PdEntry(mem, c.r, i, b) == ZERO_ENTRY)
  }

  lemma PdAdvance(c: Ctx, s: Sys, s': Sys, i: Idx, j: Idx)
    requires Mid(c, s) && Progress(s, s', c.r, Pd(i), j) && PdUpTo(c, s.mem, i, j)
    ensures LivePd(s'.mem, c.r, i) && PdptEntry(s'.mem, c.r, i) == PdptEntry(s.mem, c.r, i)
    ensures ClonedSlot(c.m0, c.src, s'.mem, c.r, c.pool, c.copy, i, j) ==> PdUpTo(c, s'.mem, i, j + 1)
  {
    hide Mid, ClonedSlot;
    assert SameNode(s.mem, s'.mem, c.r, Pd(i));
    forall b: Idx | b < j ensures ClonedSlot(c.m0, c.src, s'.mem, c.r, c.pool, c.copy, i, b) {
      SlotStable(c, s, s', Pd(i), j, i, b);
    }
    forall b: Idx | j < b ensures PdEntry(s'.mem, c.r, i, b) == ZERO_ENTRY {
      assert SameNode(s.mem, s'.mem, c.r, Pt(i, b));
    }
  }

  lemma PdNext(c: Ctx, mem: Memory, i: Idx, j: Idx)
    requires PdUpTo(c, mem, i, j)
    ensures LivePd(mem, c.r, i) && PdEntry(mem, c.r, i, j) == ZERO_ENTRY
  {
  }

  lemma PdFrame(mem: Memory, r: nat, i: Idx)
    ensures FrameOf(mem, r, Pd(i)) == PdptEntry(mem, r, i).frame
  {
  }

  /** All PDEs of one PD. */
  method ClonePdEntries(m: Machine, copyUser: bool, i: Idx, srcPd: nat, newPd: nat, ghost c: Ctx, ghost own: map<nat,
                        Node>)
    returns (ok: bool, ghost own': map<nat, Node>)
    requires m.Valid() && m.cr3 == c.src && Mid(c, m.S(own)) && copyUser == c.copy && !ScratchSlot(i)
    requires LivePd(c.m0, c.src, i) && srcPd == FrameOf(c.m0, c.src, Pd(i))
    requires PdUpTo(c, m.mem, i, 0) && newPd == FrameOf(m.mem, c.r, Pd(i))
    modifies m`mem, m.pmm
    ensures m.Valid() && m.pmm.Tail() == old(m.pmm.Tail())
    ensures Mid(c, m.S(own')) && Progress(old(m.S(own)), m.S(own'), c.r, Pdpt, i)
    ensures ok ==> PdUpTo(c, m.mem, i, 512) && PdptEntry(m.mem, c.r, i) == PdptEntry(old(m.mem), c.r, i)
    ensures !ok ==> Refused(c)
  {
    hide Mid, Progress, PdUpTo, FrameOf, Refused, LivePd, PdptEntry, PdEntry, ScratchSlot;
    ghost var s0 := m.S(own);
    ProgressRefl(s0, c.r, Pdpt, i);
    own' := own;
    PdFrame(m.mem, c.r, i);
    var j := 0;
    while j < 512
      invariant 0 <= j <= 512 && m.Valid() && m.pmm.Tail() == old(m.pmm.Tail())
      invariant Mid(c, m.S(own')) && Progress(s0, m.S(own'), c.r, Pdpt, i)
      invariant PdUpTo(c, m.mem, i, j) && PdptEntry(m.mem, c.r, i) == PdptEntry(s0.mem, c.r, i)
    {
      ghost var s := m.S(own');
      PdFrame(m.mem, c.r, i);
      PdNext(c, s.mem, i, j);
      ok, own' := CloneSlot(m, copyUser, i, j, srcPd, newPd, c, own');
      ProgressTrans(s0, s, m.S(own'), c.r, Pdpt, i, Pd(i), j);
      if !ok {
        return false, own';
      }
      PdAdvance(c, s, m.S(own'), i, j);
      j := j + 1;
    }
    ok := true;
  }

  lemma PdSource(c: Ctx, s: Sys, i: Idx)
    requires Mid(c, s) && LivePdpt(c.m0, c.src)
    ensures Entries(s.mem, FrameOf(c.m0, c.src, Pdpt))[i] == PdptEntry(c.m0, c.src, i)
    ensures PdptEntry(c.m0, c.src, i).flags.present && !PdptEntry(c.m0, c.src, i).flags.huge ==> LivePd(c.m0, c.src, i)
  {
    hide Space, HugeUser;
    SrcRead(c.m0, s.mem, c.src, c.pool, i, 0, 0);
    assert SealedAt(c.m0, c.src, map[], c.pool, Path(0, i, 0, 0));
  }

  lemma PdGiant(c: Ctx, s: Sys, i: Idx)
    requires Mid(c, s) && LivePdpt(s.mem, c.r) && PdptEntry(s.mem, c.r, i) == ZERO_ENTRY && Giant(c.m0, c.src, i)
    requires !ScratchSlot(i) && (c.copy ==> !PdptEntry(c.m0, c.src, i).flags.user)
    requires !(i * 0x4000_0000 >= USER_CODE_ADDR && !c.copy)
    ensures var s' := s.(mem := Store(s.mem, FrameOf(s.mem, c.r, Pdpt), i, Unaccessed(PdptEntry(c.m0, c.src, i))));
      Mid(c, s') && Progress(s, s', c.r, Pdpt, i) && ClonedPd(c.m0, c.src, s'.mem, c.r, c.pool, c.copy, i)
  {
    hide Needs, ScratchReady, ScratchSlot;
    ShareGiant(c.m0, s, c.src, c.r, c.pool, i);
    assert Live(s.mem, c.r, Pdpt);
    NotRoot(s.mem, c.r, s.own, Pdpt);
  }

  /** Creating the private PD of a slot. */
  lemma PdTable(c: Ctx, s: Sys, i: Idx, g: nat)
    requires Mid(c, s) && !ScratchSlot(i) && g in s.free
    requires LivePdpt(s.mem, c.r) && PdptEntry(s.mem, c.r, i) == ZERO_ENTRY && LivePd(c.m0, c.src, i)
    ensures var e := PdptEntry(c.m0, c.src, i);
      var s' := Sys(WithTable(s.mem, FrameOf(s.mem, c.r, Pdpt), i, g, TableFlags(e.flags)), s.own[g := Pd(i)],
                    s.free - {g});
      && Mid(c, s') && Progress(s, s', c.r, Pdpt, i)
      && PdUpTo(c, s'.mem, i, 0) && PdptEntry(s'.mem, c.r, i) == Entry(g, TableFlags(e.flags))
  {
    var e := PdptEntry(c.m0, c.src, i);
    var s' := Sys(WithTable(s.mem, FrameOf(s.mem, c.r, Pdpt), i, g, TableFlags(e.flags)), s.own[g := Pd(i)],
                  s.free - {g});
    assert Live(s.mem, c.r, Pdpt);
    TableBuilding(c.m0, s, c.r, c.pool, Pdpt, i, g, TableFlags(e.flags), Pd(i));
    NotRoot(s.mem, c.r, s.own, Pdpt);
    RootKept(c, s, FrameOf(s.mem, c.r, Pdpt), i, g, TableFlags(e.flags));
    assert Needs(c, Pd(i));
    NodeMid(c, s, s', Pd(i), g);
  }

  lemma PdDone(c: Ctx, mem: Memory, i: Idx)
    requires PdUpTo(c, mem, i, 512) && LivePd(c.m0, c.src, i) && !ScratchSlot(i)
    requires PdptEntry(mem, c.r, i).flags == TableFlags(PdptEntry(c.m0, c.src, i).flags)
    ensures ClonedPd(c.m0, c.src, mem, c.r, c.pool, c.copy, i)
  {
    hide ClonedSlot, ScratchSlot;
  }

  lemma PdRanOut(c: Ctx, s: Sys, i: Idx)
    requires Mid(c, s) && !ScratchSlot(i) && s.free == {}
    requires LivePd(c.m0, c.src, i) && PdptEntry(s.mem, c.r, i) == ZERO_ENTRY
    ensures Refused(c)
  {
    RanOut(c, s, Pd(i));
  }

  lemma PdHuge(c: Ctx, i: Idx)
    requires c.copy && !ScratchSlot(i) && LivePdpt(c.m0, c.src)
    requires var e := PdptEntry(c.m0, c.src, i); e.flags.present && e.flags.huge && e.flags.user
    ensures Refused(c)
  {
    assert Giant(c.m0, c.src, i);
    assert UserHugeAt(c, i);
  }

  lemma PdSkipped(c: Ctx, mem: Memory, i: Idx)
    requires PdptEntry(mem, c.r, i) == ZERO_ENTRY
    requires var e := PdptEntry(c.m0, c.src, i);
      !e.flags.present || ScratchSlot(i) || (e.flags.huge && i * 0x4000_0000 >= USER_CODE_ADDR && !c.copy)
    ensures ClonedPd(c.m0, c.src, mem, c.r, c.pool, c.copy, i)
  {
    hide ScratchSlot;
  }

  /** One PDPTE. */
  method ClonePd(m: Machine, copyUser: bool, i: Idx, srcPdpt: nat, newPdpt: nat, ghost c: Ctx, ghost own: map<nat,
                 Node>)
    returns (ok: bool, ghost own': map<nat, Node>)
    requires m.Valid() && m.cr3 == c.src && Mid(c, m.S(own)) && copyUser == c.copy
    requires LivePdpt(c.m0, c.src) && srcPdpt == FrameOf(c.m0, c.src, Pdpt)
    requires LivePdpt(m.mem, c.r) && newPdpt == FrameOf(m.mem, c.r, Pdpt) && PdptEntry(m.mem, c.r, i) == ZERO_ENTRY
    modifies m`mem, m.pmm
    ensures m.Valid() && m.pmm.Tail() == old(m.pmm.Tail())
    ensures Mid(c, m.S(own')) && Progress(old(m.S(own)), m.S(own'), c.r, Pdpt, i)
    ensures ok ==> ClonedPd(c.m0, c.src, m.mem, c.r, c.pool, c.copy, i)
    ensures !ok ==> Refused(c)
  {
    hide Mid, Progress, ClonedPd, PdUpTo, FrameOf, PdptEntry, LivePdpt, LivePd, Refused;
    ghost var s := m.S(own);
    own' := own;
    PdSource(c, s, i);
    PdFrame(c.m0, c.src, i);
    ProgressRefl(s, c.r, Pdpt, i);
    var e := Entries(m.mem, srcPdpt)[i];
    if !e.flags.present {
      PdSkipped(c, m.mem, i);
      return true, own;
    }
    var base := i * 0x4000_0000;
    if OverlapsKernelScratch(base, base + 0x4000_0000) {
      PdSkipped(c, m.mem, i);
      return true, own;
    }
    if e.flags.huge {
      if copyUser && e.flags.user && base + 0x4000_0000 > USER_CODE_ADDR {
        PdHuge(c, i);
        return false, own;
      }
      if base >= USER_CODE_ADDR && !copyUser {
        PdSkipped(c, m.mem, i);
        return true, own;
      }
      PdGiant(c, s, i);
      m.mem := Store(m.mem, newPdpt, i, Unaccessed(e));
      return true, own;
    }
    var pd := m.pmm.Alloc();
    if pd.None? {
      PdRanOut(c, s, i);
      return false, own;
    }
    PdTable(c, s, i, pd.value);
    m.mem := WithTable(m.mem, newPdpt, i, pd.value, TableFlags(e.flags));
    own' := own[pd.value := Pd(i)];
    ghost var s1 := m.S(own');
    PdFrame(m.mem, c.r, i);
    ok, own' := ClonePdEntries(m, copyUser, i, e.frame, pd.value, c, own');
    ProgressTrans(s, s1, m.S(own'), c.r, Pdpt, i, Pdpt, i);
    if ok {
      PdDone(c, m.mem, i);
    }
  }

  // ----- The whole root ---------------------------------------------------------

  /** PDPTEs below `i` are cloned, the others still zero. */
  ghost predicate PdptUpTo(c: Ctx, mem: Memory, i: nat) {
    && LivePdpt(mem, c.r) && TopEntry(mem, c.r).flags == TableFlags(TopEntry(c.m0, c.src).flags)
    && (forall a: Idx :: a != 0 ==> Entries(mem, c.r)[a] == Entries(c.m0, c.src)[a])
    && (forall a: Idx :: a < i ==> ClonedPd(c.m0, c.src, mem, c.r, c.pool, c.copy, a))
    && (forall a: Idx :: i <= a ==> PdptEntry(mem, c.r, a) == ZERO_ENTRY)
  }

  lemma PdptAdvance(c: Ctx, s: Sys, s': Sys, i: Idx)
    requires Mid(c, s) && Progress(s, s', c.r, Pdpt, i) && PdptUpTo(c, s.mem, i)
    ensures ClonedPd(c.m0, c.src, s'.mem, c.r, c.pool, c.copy, i) ==> PdptUpTo(c, s'.mem, i + 1)
    ensures FrameOf(s'.mem, c.r, Pdpt) == FrameOf(s.mem, c.r, Pdpt)
  {
    hide Mid, ClonedPd;
    assert SameNode(s.mem, s'.mem, c.r, Pdpt);
    forall a: Idx | a < i ensures ClonedPd(c.m0, c.src, s'.mem, c.r, c.pool, c.copy, a) {
      PdStable(c, s, s', Pdpt, i, a);
    }
    forall a: Idx | i < a ensures PdptEntry(s'.mem, c.r, a) == ZERO_ENTRY {
      assert SameNode(s.mem, s'.mem, c.r, Pd(a));
    }
  }

  lemma PdptNext(c: Ctx, mem: Memory, i: Idx)
    requires PdptUpTo(c, mem, i)
    ensures LivePdpt(mem, c.r) && PdptEntry(mem, c.r, i) == ZERO_ENTRY
  {
  }

  /** The fresh root is the first state of the construction. */
  lemma RootMid(c: Ctx, free: set<nat>)
    requires CtxOk(c) && c.r in c.pool && free == c.pool - {c.r}
    ensures var mem := c.m0[c.r := TableFrame([ZERO_ENTRY] + Entries(c.m0, c.src)[1..])];
      && Mid(c, Sys(mem, map[c.r := Root], free))
      && (!LivePdpt(c.m0, c.src) ==> ClonedRoot(c.m0, c.src, mem, c.r, c.pool, c.copy))
  {
    hide ScratchReady;
    RootBuilding(c.m0, c.src, c.pool, c.r);
    assert Needs(c, Root);
  }

  /** Creating the private PDPT. */
  lemma PdptTable(c: Ctx, s: Sys, g: nat)
    requires Mid(c, s) && LivePdpt(c.m0, c.src) && !LivePdpt(s.mem, c.r) && g in s.free
    requires forall a: Idx :: a != 0 ==> Entries(s.mem, c.r)[a] == Entries(c.m0, c.src)[a]
    ensures var e := TopEntry(c.m0, c.src);
      var s' := Sys(WithTable(s.mem, c.r, 0, g, TableFlags(e.flags)), s.own[g := Pdpt], s.free - {g});
      Mid(c, s') && PdptUpTo(c, s'.mem, 0) && FrameOf(s'.mem, c.r, Pdpt) == g
  {
    var flags := TableFlags(TopEntry(c.m0, c.src).flags);
    var s' := Sys(WithTable(s.mem, c.r, 0, g, flags), s.own[g := Pdpt], s.free - {g});
    assert Live(s.mem, c.r, Root);
    TableBuilding(c.m0, s, c.r, c.pool, Root, 0, g, flags, Pdpt);
    assert Needs(c, Pdpt);
    NodeMid(c, s, s', Pdpt, g);
    assert g != c.r;
  }

  lemma PdptRanOut(c: Ctx, s: Sys)
    requires Mid(c, s) && LivePdpt(c.m0, c.src) && !LivePdpt(s.mem, c.r) && s.free == {}
    ensures Refused(c)
  {
    RanOut(c, s, Pdpt);
  }

  lemma NoFrames(c: Ctx)
    requires c.pool == {}
    ensures Refused(c)
  {
    assert NeedsAll(c, {Root});
  }

  lemma RootDone(c: Ctx, mem: Memory)
    requires PdptUpTo(c, mem, 512) && LivePdpt(c.m0, c.src)
    ensures ClonedRoot(c.m0, c.src, mem, c.r, c.pool, c.copy)
  {
    hide ClonedPd;
  }

  /** A root under construction can be torn down, which returns exactly what it owns. */
  lemma BuildingTearsDown(m0: Memory, s: Sys, r: nat, pool: set<nat>, m: Machine)
    requires Building(m0, s, r, pool, {}) && m.pmm.Manages(pool)
    ensures var h := Pml4Handle(r, true);
      && Destroyable(s.mem, h, s.own, m.pmm, s.free) && TailSafe(s.mem, r, m.pmm)
      && s.free + Returned(s.mem, h, s.own, m.pmm) == pool
  {
    assert DoneHuge(s.mem, r, true, m.pmm, 512, 0) == {};
    assert (set f | f in s.own && (s.own[f].Leaf? ==> true)) == s.own.Keys;
  }

  lemma MidTearsDown(c: Ctx, s: Sys, m: Machine)
    requires Mid(c, s) && m.pmm.Manages(c.pool)
    ensures var h := Pml4Handle(c.r, true);
      && Destroyable(s.mem, h, s.own, m.pmm, s.free) && TailSafe(s.mem, c.r, m.pmm)
      && s.free + Returned(s.mem, h, s.own, m.pmm) == c.pool
      && AgreeExcept(c.m0, s.mem, c.pool)
  {
    BuildingTearsDown(c.m0, s, c.r, c.pool, m);
  }

  /** The PDPT loop of `create_pml4`. */
  method CloneSlots(m: Machine, copyUser: bool, srcPdpt: nat, newPdpt: nat, ghost c: Ctx, ghost own: map<nat, Node>)
    returns (ok: bool, ghost own': map<nat, Node>)
    requires m.Valid() && m.cr3 == c.src && Mid(c, m.S(own)) && copyUser == c.copy
    requires LivePdpt(c.m0, c.src) && srcPdpt == FrameOf(c.m0, c.src, Pdpt)
    requires PdptUpTo(c, m.mem, 0) && newPdpt == FrameOf(m.mem, c.r, Pdpt)
    modifies m`mem, m.pmm
    ensures m.Valid() && m.pmm.Tail() == old(m.pmm.Tail())
    ensures Mid(c, m.S(own'))
    ensures ok ==> PdptUpTo(c, m.mem, 512)
    ensures !ok ==> Refused(c)
  {
    hide Mid, Progress, PdptUpTo, FrameOf, Refused, LivePdpt, PdptEntry;
    own' := own;
    var i := 0;
    while i < 512
      invariant 0 <= i <= 512 && m.Valid() && m.pmm.Tail() == old(m.pmm.Tail())
      invariant Mid(c, m.S(own')) && PdptUpTo(c, m.mem, i) && newPdpt == FrameOf(m.mem, c.r, Pdpt)
    {
      ghost var s := m.S(own');
      PdptNext(c, m.mem, i);
      ok, own' := ClonePd(m, copyUser, i, srcPdpt, newPdpt, c, own');
      if !ok {
        return false, own';
      }
      PdptAdvance(c, s, m.S(own'), i);
      i := i + 1;
    }
    ok := true;
  }

  /** Construction proper, between scratch set-up and clean-up; all or nothing. */
  method BuildRoot(m: Machine, copyUser: bool, ghost pool: set<nat>, ghost sown: map<nat, Node>)
    returns (res: Option<Pml4Handle>, ghost c: Ctx, ghost own: map<nat, Node>)
    requires m.Valid() && m.pmm.Free() == pool && m.pmm.Manages(pool) && Closed(m.mem, m.cr3, pool)
    requires copyUser ==> ScratchReady(m.mem, m.cr3, sown) && sown.Keys !! pool
    modifies m`mem, m.pmm
    ensures m.Valid() && m.pmm.Tail() == old(m.pmm.Tail()) && AgreeExcept(old(m.mem), m.mem, pool)
    ensures c.m0 == old(m.mem) && c.src == m.cr3 && c.pool == pool && c.copy == copyUser
    ensures res.None? ==> m.pmm.Free() == pool && Refused(c)
    ensures res.Some? ==>
      && res.value == Pml4Handle(c.r, true) && Mid(c, m.S(own))
      && ClonedRoot(c.m0, c.src, m.mem, c.r, pool, copyUser)
  {
    hide Mid, PdptUpTo, ClonedRoot, Refused, Closed, ScratchReady, Destroyable, Returned, TailSafe;
    own := map[];
    var root := m.pmm.Alloc();
    c := Ctx(m.mem, m.cr3, if root.Some? then root.value else 0, pool, copyUser, sown);
    if root.None? {
      NoFrames(c);
      return None, c, own;
    }
    var r := root.value;
    RootMid(c, m.pmm.Free());
    var e := Entries(m.mem, m.cr3)[0];
    m.mem := m.mem[r := TableFrame([ZERO_ENTRY] + Entries(m.mem, m.cr3)[1..])];
    own := map[r := Root];
    if !e.flags.present {
      MidTearsDown(c, m.S(own), m);
      return Some(Pml4Handle(r, true)), c, own;
    }
    ghost var s1 := m.S(own);
    var pdpt := m.pmm.Alloc();
    if pdpt.None? {
      PdptRanOut(c, s1);
      MidTearsDown(c, m.S(own), m);
      DestroyUncommittedPml4(m, Pml4Handle(r, true), own);
      return None, c, own;
    }
    PdptTable(c, s1, pdpt.value);
    m.mem := WithTable(m.mem, r, 0, pdpt.value, TableFlags(e.flags));
    own := own[pdpt.value := Pdpt];
    var ok;
    ok, own := CloneSlots(m, copyUser, e.frame, pdpt.value, c, own);
    MidTearsDown(c, m.S(own), m);
    if !ok {
      DestroyUncommittedPml4(m, Pml4Handle(r, true), own);
      return None, c, own;
    }
    RootDone(c, m.mem);
    return Some(Pml4Handle(r, true)), c, own;
  }
}
