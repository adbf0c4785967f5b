/**
  What address-space construction guarantees, page by page, and what tearing down undoes.
 */
module Isolation {
  import opened Prelude
  import opened Pmm
  import opened PageTables
  import opened Paging
  import opened Teardown
  import opened Cloning
  import opened CreateRoot
  import opened Fork

  /** How a child page relates to the parent's: private copy of a user page, shared kernel page, or both absent. */
  predicate SameOrPrivate(m0: Memory, a: Option<Mapping>, mem: Memory, b: Option<Mapping>, pool: set<nat>) {
    match (a, b)
    case (None, None) => true
    case (Some(x), Some(y)) =>
      && y.flags == x.flags
      && (if x.flags.user then y.frame in pool && Get(mem, y.frame) == Get(m0, x.frame) else y.frame == x.frame)
    case (_, _) => false
  }

  /** In a forked root every user-range page outside the scratch slot is the parent's page or a private copy of it. */
  lemma ChildPage(m0: Memory, src: nat, mem: Memory, r: nat, pool: set<nat>, p: Path)
    requires ClonedRoot(m0, src, mem, r, pool, true) && UserPage(p) && !ScratchSlot(p.l3) && !Giant(m0, src, p.l3)
    ensures SameOrPrivate(m0, Lookup(m0, src, p), mem, Lookup(mem, r, p), pool)
    ensures RightsOf(mem, r, p) == RightsOf(m0, src, p)
  {
    var i, j, k := p.l3, p.l2, p.l1;
    if LivePdpt(m0, src) {
      assert ClonedPd(m0, src, mem, r, pool, true, i);
      if LivePd(m0, src, i) {
        assert ClonedSlot(m0, src, mem, r, pool, true, i, j);
        if LivePt(m0, src, i, j) {
          assert ClonedLeaf(m0, src, mem, r, pool, i, j, k);
        }
      }
    }
  }

  /** Without `copy_user` the user range of the new root is empty. */
  lemma ImageRootEmpty(m0: Memory, src: nat, mem: Memory, r: nat, pool: set<nat>, p: Path)
    requires ClonedRoot(m0, src, mem, r, pool, false) && UserPage(p) && !Giant(m0, src, p.l3)
    ensures Lookup(mem, r, p) == None
  {
    var i, j := p.l3, p.l2;
    if LivePdpt(m0, src) {
      assert ClonedPd(m0, src, mem, r, pool, false, i);
      if LivePd(m0, src, i) && !ScratchSlot(i) {
        assert ClonedSlot(m0, src, mem, r, pool, false, i, j);
      }
    }
  }

  /** Kernel pages (other PML4 slots, and the range below USER_CODE_ADDR) resolve and are protected as in the source. */
  lemma KernelPage(m0: Memory, src: nat, mem: Memory, r: nat, pool: set<nat>, copy: bool, p: Path)
    requires ClonedRoot(m0, src, mem, r, pool, copy) && Closed(m0, src, pool) && AgreeExcept(m0, mem, pool)
    requires !UserPage(p) && (p.l4 == 0 ==> !Giant(m0, src, p.l3))
    ensures Lookup(mem, r, p) == Lookup(m0, src, p) && RightsOf(mem, r, p) == RightsOf(m0, src, p)
  {
    assert SealedAt(m0, src, map[], pool, p);
    if p.l4 == 0 {
      LowKernelPage(m0, src, mem, r, pool, copy, p);
    } else {
      var e4 := Entries(m0, src)[p.l4];
      assert Entries(mem, r)[p.l4] == e4;
      if e4.flags.present {
        assert Entries(mem, e4.frame) == Entries(m0, e4.frame);
        var e3 := Entries(m0, e4.frame)[p.l3];
        if e3.flags.present {
          assert Entries(mem, e3.frame) == Entries(m0, e3.frame);
          var e2 := Entries(m0, e3.frame)[p.l2];
          if e2.flags.present && !e2.flags.huge {
            assert Entries(mem, e2.frame) == Entries(m0, e2.frame);
          }
        }
      }
    }
  }

  lemma LowKernelPage(m0: Memory, src: nat, mem: Memory, r: nat, pool: set<nat>, copy: bool, p: Path)
    requires ClonedRoot(m0, src, mem, r, pool, copy) && SealedAt(m0, src, map[], pool, p) && AgreeExcept(m0, mem, pool)
    requires p.l4 == 0 && !InUser(p.l3, p.l2) && !Giant(m0, src, p.l3)
    ensures Lookup(mem, r, p) == Lookup(m0, src, p) && RightsOf(mem, r, p) == RightsOf(m0, src, p)
  {
    var i, j := p.l3, p.l2;
    assert i == 0 && !ScratchSlot(i);
    if LivePdpt(m0, src) {
      assert ClonedPd(m0, src, mem, r, pool, copy, i);
      if LivePd(m0, src, i) {
        assert ClonedSlot(m0, src, mem, r, pool, copy, i, j);
        var e2 := PdEntry(m0, src, i, j);
        if e2.flags.present && !e2.flags.huge {
          assert Entries(mem, e2.frame) == Entries(m0, e2.frame);
        }
      }
    }
  }

  /** A user page of a root under construction is a leaf it owns. */
  lemma OwnedPage(m0: Memory, s: Sys, r: nat, pool: set<nat>, hand: set<nat>, p: Path)
    requires Building(m0, s, r, pool, hand) && UserPage(p) && !Giant(s.mem, r, p.l3)
    requires Lookup(s.mem, r, p).Some? && Lookup(s.mem, r, p).value.flags.user
    ensures var f := Lookup(s.mem, r, p).value.frame;
      f in s.own && s.own[f] == Leaf(p.l3, p.l2, p.l1) && f in pool && f !in s.free
  {
    assert !HugeUser(s.mem, r, p.l3, p.l2);
    assert Live(s.mem, r, Leaf(p.l3, p.l2, p.l1));
  }

  /** The clone has 1 GiB pages only where its source has. */
  lemma GiantsFrom(m0: Memory, src: nat, mem: Memory, r: nat, pool: set<nat>, copy: bool, i: Idx)
    requires ClonedRoot(m0, src, mem, r, pool, copy) && !Giant(m0, src, i)
    ensures !Giant(mem, r, i)
  {
    if LivePdpt(m0, src) {
      assert ClonedPd(m0, src, mem, r, pool, copy, i);
    }
  }

  /**
    Fork isolation. `s` is the child's side and `m0` memory before the fork. For user
    pages p and q of the child: the parent's own mapping and its bytes are as before,
    the child's page is a private copy with the same flags and access rights, its frame was free,
    differs from the parent's and from that of every other page, and kernel pages are shared.
   */
  lemma ForkIsolation(m0: Memory, src: nat, sown: map<nat, Node>, s: Sys, r: nat, free0: set<nat>, p: Path, q: Path)
    requires Building(m0, s, r, free0, {}) && ClonedRoot(m0, src, s.mem, r, free0, true) && Closed(m0, src, free0)
    requires WellFormed(m0, src, sown) && sown.Keys !! free0
    requires UserPage(p) && !ScratchSlot(p.l3) && !Giant(m0, src, p.l3)
    requires UserPage(q) && !ScratchSlot(q.l3) && !Giant(m0, src, q.l3)
    ensures Lookup(s.mem, src, p) == Lookup(m0, src, p)
    ensures RightsOf(s.mem, src, p) == RightsOf(m0, src, p) == RightsOf(s.mem, r, p)
    ensures Lookup(m0, src, p).Some? && Lookup(m0, src, p).value.flags.user ==>
      var f := Lookup(m0, src, p).value.frame; f !in free0 && Get(s.mem, f) == Get(m0, f)
    ensures SameOrPrivate(m0, Lookup(m0, src, p), s.mem, Lookup(s.mem, r, p), free0)
    ensures Lookup(s.mem, r, p).Some? && Lookup(s.mem, r, p).value.flags.user ==>
      var f := Lookup(s.mem, r, p).value.frame;
      && f in free0 && f !in s.free
      && (Lookup(s.mem, r, q).Some? && Lookup(s.mem, r, q).value.flags.user && p != q ==>
            Lookup(s.mem, r, q).value.frame != f)
  {
    hide ClonedRoot, WellFormed, RightsOf;
    ParentPage(m0, src, sown, s.mem, r, free0, p);
    ChildPage(m0, src, s.mem, r, free0, p);
    ClosedWalk(m0, src, free0, p);
    WalkAgree(m0, s.mem, src, free0, p);
    RightsAgree(m0, s.mem, src, free0, p);
    GiantsFrom(m0, src, s.mem, r, free0, true, p.l3);
    GiantsFrom(m0, src, s.mem, r, free0, true, q.l3);
    if Lookup(s.mem, r, p).Some? && Lookup(s.mem, r, p).value.flags.user {
      OwnedPage(m0, s, r, free0, {}, p);
      if Lookup(s.mem, r, q).Some? && Lookup(s.mem, r, q).value.flags.user {
        OwnedPage(m0, s, r, free0, {}, q);
      }
    }
  }

  /** A user page of the parent lives in a frame the parent owns. */
  lemma ParentPage(m0: Memory, src: nat, sown: map<nat, Node>, mem: Memory, r: nat, pool: set<nat>, p: Path)
    requires WellFormed(m0, src, sown) && ClonedRoot(m0, src, mem, r, pool, true)
    requires UserPage(p) && !ScratchSlot(p.l3) && !Giant(m0, src, p.l3)
    ensures Lookup(m0, src, p).Some? && Lookup(m0, src, p).value.flags.user ==> Lookup(m0, src, p).value.frame in sown
  {
    var i, j, k := p.l3, p.l2, p.l1;
    if Lookup(m0, src, p).Some? && Lookup(m0, src, p).value.flags.user {
      assert ClonedPd(m0, src, mem, r, pool, true, i);
      assert ClonedSlot(m0, src, mem, r, pool, true, i, j);
      assert Live(m0, src, Leaf(i, j, k));
    }
  }

  lemma ClosedWalk(mem: Memory, src: nat, pool: set<nat>, p: Path)
    requires Closed(mem, src, pool)
    ensures WalkFrames(mem, src, p) !! pool
  {
    assert SealedAt(mem, src, map[], pool, p);
  }

  /** Contents outside the free frames fix the translations of every root that reads none of them. */
  lemma RootsUndisturbed(m0: Memory, mem: Memory, other: nat, free0: set<nat>, p: Path)
    requires AgreeExcept(m0, mem, free0) && Closed(m0, other, free0)
    ensures Lookup(mem, other, p) == Lookup(m0, other, p) && RightsOf(mem, other, p) == RightsOf(m0, other, p)
  {
    ClosedWalk(m0, other, free0, p);
    WalkAgree(m0, mem, other, free0, p);
    RightsAgree(m0, mem, other, free0, p);
  }

  // ----- Mapping into a root under construction, and undoing all of it -----------

  /** A frame in hand may be mapped at any user page. */
  lemma HandMappable(m0: Memory, s: Sys, r: nat, pool: set<nat>, p: Path, paddr: nat, flags: Flags)
    requires Building(m0, s, r, pool, {paddr}) && UserPage(p) && !Giant(s.mem, r, p.l3) && flags.present
    ensures Mappable(s, r, pool, p, paddr, flags)
  {
    hide Space, HugeUser;
  }

  /** Mapping keeps the construction invariant: on success the frame is owned, on failure still in hand. */
  lemma MapBuilding(m0: Memory, s: Sys, s': Sys, r: nat, pool: set<nat>, p: Path, paddr: nat, flags: Flags, ok: bool)
    requires Building(m0, s, r, pool, {paddr}) && flags.present && flags.user
    requires MapStep(s, s', r, pool, p, paddr, flags, ok)
    ensures Building(m0, s', r, pool, if ok then {} else {paddr})
  {
    hide Space, HugeUser, Lookup, Missing, IsScratch, Giant, KeepsData, AgreeExcept, SameLookups;
    KeptOutside(m0, s, s', pool);
    assert paddr !in s.free + s.own.Keys;
  }

  /** Frames outside the pool are not touched. */
  lemma KeptOutside(m0: Memory, s: Sys, s': Sys, pool: set<nat>)
    requires AgreeExcept(m0, s.mem, pool) && KeepsData(s.mem, s'.mem, s.own, s.free) && s.own.Keys <= pool
    requires s.free <= pool
    ensures AgreeExcept(m0, s'.mem, pool)
  {
  }

  /** Taking one more frame, or giving it back. */
  lemma HandFree(m0: Memory, s: Sys, r: nat, pool: set<nat>, g: nat)
    requires Building(m0, s, r, pool, {g})
    ensures Building(m0, s.(free := s.free + {g}), r, pool, {})
  {
    hide Space, HugeUser;
  }

  /**
    Destroying inverts construction: create a root in either mode, make any sequence of
    mapping attempts with freshly allocated frames, tear the root down, and the allocator's
    bitmap is bit for bit what it was, as are the contents of every frame then in use.
   */
  method CreateMapDestroy(m: Machine, copyUser: bool, pages: seq<Path>, ghost sown: map<nat, Node>)
    requires m.Valid() && m.pmm.Manages(m.pmm.Free()) && Closed(m.mem, m.cr3, m.pmm.Free())
    requires copyUser ==> ForkSource(m.S(sown), m.cr3)
    requires forall i: Idx :: !Giant(m.mem, m.cr3, i)
    requires forall k :: 0 <= k < |pages| ==> UserPage(pages[k])
    modifies m, m.pmm
    ensures m.Valid() && m.cr3 == old(m.cr3) && m.pmm.bits == old(m.pmm.bits)
    ensures AgreeExcept(old(m.mem), m.mem, old(m.pmm.Free()))
  {
    hide Closed, ForkSource, Building, ClonedRoot, CreateRefused, Space, Mappable, MapStep, Destroyable, Returned,
         TailSafe;
    ghost var m0, free0, bits0 := m.mem, m.pmm.Free(), m.pmm.bits;
    var res, own := CreatePml4(m, copyUser, sown);
    if res.None? {
      SameBitmap(bits0, m.pmm.bits, m.pmm.memoryStart, m.pmm.totalPages);
      return;
    }
    var r := res.value.phys;
    forall i: Idx ensures !Giant(m.mem, r, i) {
      GiantsFrom(m0, m.cr3, m.mem, r, free0, copyUser, i);
    }
    var k := 0;
    while k < |pages|
      invariant 0 <= k <= |pages| && m.Valid() && m.cr3 == old(m.cr3) && m.pmm.Tail() == old(m.pmm.Tail())
      invariant Building(m0, m.S(own), r, free0, {})
      invariant forall i: Idx :: !Giant(m.mem, r, i)
    {
      own := MapFresh(m, r, pages[k], m0, free0, own);
      k := k + 1;
    }
    BuildingTearsDown(m0, m.S(own), r, free0, m);
    DestroyUncommittedPml4(m, res.value, own);
    BuildingAgrees(m0, m.mem, own, r, free0);
    SameBitmap(bits0, m.pmm.bits, m.pmm.memoryStart, m.pmm.totalPages);
  }

  ghost predicate Built(m0: Memory, mem: Memory, own: map<nat, Node>, r: nat, pool: set<nat>) {
    exists free: set<nat>, hand: set<nat> :: Building(m0, Sys(mem, own, free), r, pool, hand)
  }

  lemma BuildingAgrees(m0: Memory, mem: Memory, own: map<nat, Node>, r: nat, pool: set<nat>)
    requires Built(m0, mem, own, r, pool)
    ensures AgreeExcept(m0, mem, pool)
  {
  }

  /** One attempt to back a page with a fresh frame; the frame is returned when it fails. */
  method MapFresh(m: Machine, r: nat, p: Path, ghost m0: Memory, ghost pool: set<nat>, ghost own: map<nat, Node>)
    returns (ghost own': map<nat, Node>)
    requires m.Valid() && m.pmm.Manages(pool) && Building(m0, m.S(own), r, pool, {}) && UserPage(p)
    requires forall i: Idx :: !Giant(m.mem, r, i)
    modifies m, m.pmm
    ensures m.Valid() && m.cr3 == old(m.cr3) && m.pmm.Tail() == old(m.pmm.Tail())
    ensures Building(m0, m.S(own'), r, pool, {}) && forall i: Idx :: !Giant(m.mem, r, i)
  {
    hide Building, Mappable, MapStep;
    own' := own;
    ghost var s := m.S(own);
    var page := m.pmm.Alloc();
    if page.None? {
      return;
    }
    TakeHand(m0, s, r, pool, page.value);
    HandMappable(m0, m.S(own), r, pool, p, page.value, PAGE_USER_RW);
    ghost var s1 := m.S(own);
    var ok;
    ok, own' := m.TryMap4KTarget(p, page.value, PAGE_USER_RW, r, pool, own);
    MapBuilding(m0, s1, m.S(own'), r, pool, p, page.value, PAGE_USER_RW, ok);
    MapGiants(s1, m.S(own'), r, pool, p, page.value, PAGE_USER_RW, ok);
    if !ok {
      HandFree(m0, m.S(own'), r, pool, page.value);
      HandInPool(m0, m.S(own'), r, pool, page.value);
      m.Release(page.value, pool);
    }
  }

  lemma MapGiants(s: Sys, s': Sys, r: nat, pool: set<nat>, p: Path, paddr: nat, flags: Flags, ok: bool)
    requires MapStep(s, s', r, pool, p, paddr, flags, ok)
    ensures forall i: Idx :: Giant(s'.mem, r, i) == Giant(s.mem, r, i)
  {
    hide Space, Giant, Lookup;
  }

  lemma HandInPool(m0: Memory, s: Sys, r: nat, pool: set<nat>, g: nat)
    requires Building(m0, s, r, pool, {g})
    ensures g in pool && g !in s.free
  {
    hide Space;
  }
}
