/**
  `destroy_uncommitted_pml4` (paging.rs): the walk that returns every frame a root
  owns, each exactly once, and no table shared with another root.
 */
module Teardown {
  import opened Prelude
  import opened Pmm
  import opened PageTables
  import opened Paging

  /** A root and whether the user leaves below it are its own. */
  datatype Pml4Handle = Pml4Handle(phys: nat, ownsUserLeaves: bool)

  /** Node `n` is returned before the walk reaches slot (i, j). */
  predicate Before(n: Node, i: nat, j: nat) {
    match n
    case Root => false
    case Pdpt => false
    case Pd(a) => a < i
    case Pt(a, b) => a < i || (a == i && b < j)
    case Leaf(a, b, _) => a < i || (a == i && b < j)
  }

  /** Owned frames returned before slot (i, j). */
  ghost function DoneOwn(own: map<nat, Node>, owns: bool, i: nat, j: nat): set<nat> {
    set f | f in own && Before(own[f], i, j) && (own[f].Leaf? ==> owns)
  }

  /** First frames of the user 2 MiB pages met before slot (i, j). */
  ghost function DoneHuge(mem: Memory, r: nat, owns: bool, pmm: PmmAllocator, i: nat, j: nat): set<nat> {
    set a: Idx, b: Idx | owns && (a < i || (a == i && b < j)) && HugeUser(mem, r, a, b)
      && Managed(pmm, PdEntry(mem, r, a, b).frame)
      :: PdEntry(mem, r, a, b).frame
  }

  predicate Managed(pmm: PmmAllocator, f: nat) {
    pmm.memoryStart <= f < pmm.memoryStart + pmm.totalPages
  }

  /** Leaves of PT (i, j) below index `k`. */
  ghost function Leaves(own: map<nat, Node>, i: nat, j: nat, k: nat): set<nat> {
    set f | f in own && own[f].Leaf? && own[f].i == i && own[f].j == j && own[f].k < k
  }

  /** Everything `destroy_uncommitted_pml4` returns for `h`. */
  ghost function Returned(mem: Memory, h: Pml4Handle, own: map<nat, Node>, pmm: PmmAllocator): set<nat> {
    (set f | f in own && (own[f].Leaf? ==> h.ownsUserLeaves)) + DoneHuge(mem, h.phys, h.ownsUserLeaves, pmm, 512, 0)
  }

  lemma LeavesStep(mem: Memory, r: nat, own: map<nat, Node>, i: Idx, j: Idx, k: Idx)
    requires WellFormed(mem, r, own) && LivePt(mem, r, i, j)
    ensures Leaves(own, i, j, k + 1) ==
      Leaves(own, i, j, k) + if LiveLeaf(mem, r, i, j, k) then {PtEntry(mem, r, i, j, k).frame} else {}
    ensures LiveLeaf(mem, r, i, j, k) ==>
      PtEntry(mem, r, i, j, k).frame in own && own[PtEntry(mem, r, i, j, k).frame] == Leaf(i, j, k)
  {
    assert LiveLeaf(mem, r, i, j, k) == Live(mem, r, Leaf(i, j, k));
  }

  /** Passing a live PT slot returns the PT and its leaves. */
  lemma SlotStep(mem: Memory, r: nat, own: map<nat, Node>, owns: bool, i: Idx, j: Idx)
    requires WellFormed(mem, r, own)
    ensures DoneOwn(own, owns, i, j + 1) == DoneOwn(own, owns, i, j) +
      if LivePt(mem, r, i, j) then {FrameOf(mem, r, Pt(i, j))} + (if owns then Leaves(own, i, j, 512) else {}) else {}
    ensures LivePt(mem, r, i, j) ==> FrameOf(mem, r, Pt(i, j)) in own && own[FrameOf(mem, r, Pt(i, j))] == Pt(i, j)
  {
    assert LivePt(mem, r, i, j) == Live(mem, r, Pt(i, j));
    if LivePt(mem, r, i, j) {
      assert own[FrameOf(mem, r, Pt(i, j))] == Pt(i, j);
    }
  }

  /** Passing a PDPT slot returns its PD. */
  lemma PdStep(mem: Memory, r: nat, own: map<nat, Node>, owns: bool, i: Idx)
    requires WellFormed(mem, r, own)
    ensures DoneOwn(own, owns, i + 1, 0) ==
      DoneOwn(own, owns, i, 512) + if LivePd(mem, r, i) then {FrameOf(mem, r, Pd(i))} else {}
    ensures LivePd(mem, r, i) ==> FrameOf(mem, r, Pd(i)) in own && own[FrameOf(mem, r, Pd(i))] == Pd(i)
    ensures !LivePd(mem, r, i) ==> DoneOwn(own, owns, i, 512) == DoneOwn(own, owns, i, 0)
  {
    assert LivePd(mem, r, i) == Live(mem, r, Pd(i));
  }

  lemma HugeStep(mem: Memory, r: nat, owns: bool, pmm: PmmAllocator, i: Idx, j: Idx)
    ensures DoneHuge(mem, r, owns, pmm, i, j + 1) == DoneHuge(mem, r, owns, pmm, i, j) +
      if owns && HugeUser(mem, r, i, j) && Managed(pmm, PdEntry(mem, r, i, j).frame) then {PdEntry(mem, r, i, j).frame}
      else {}
  {
  }

  lemma HugePdStep(mem: Memory, r: nat, owns: bool, pmm: PmmAllocator, i: Idx)
    ensures DoneHuge(mem, r, owns, pmm, i + 1, 0) == DoneHuge(mem, r, owns, pmm, i, 512)
    ensures !LivePd(mem, r, i) ==> DoneHuge(mem, r, owns, pmm, i, 512) == DoneHuge(mem, r, owns, pmm, i, 0)
  {
  }

  /** All that is returned before slot (i, j). */
  ghost function Done(mem: Memory, h: Pml4Handle, own: map<nat, Node>, pmm: PmmAllocator, i: nat, j: nat): set<nat> {
    DoneOwn(own, h.ownsUserLeaves, i, j) + DoneHuge(mem, h.phys, h.ownsUserLeaves, pmm, i, j)
  }

  lemma DoneSlot(mem: Memory, h: Pml4Handle, own: map<nat, Node>, pmm: PmmAllocator, i: Idx, j: Idx)
    requires WellFormed(mem, h.phys, own) && LivePd(mem, h.phys, i)
    ensures var e := PdEntry(mem, h.phys, i, j);
      Done(mem, h, own, pmm, i, j + 1) == Done(mem, h, own, pmm, i, j) +
      if !e.flags.present || !InUser(i, j) then {}
      else if e.flags.huge then (if h.ownsUserLeaves && e.flags.user && Managed(pmm, e.frame) then {e.frame} else {})
      else {e.frame} + (if h.ownsUserLeaves then Leaves(own, i, j, 512) else {})
  {
    SlotStep(mem, h.phys, own, h.ownsUserLeaves, i, j);
    HugeStep(mem, h.phys, h.ownsUserLeaves, pmm, i, j);
  }

  lemma DonePd(mem: Memory, h: Pml4Handle, own: map<nat, Node>, pmm: PmmAllocator, i: Idx)
    requires WellFormed(mem, h.phys, own)
    ensures Done(mem, h, own, pmm, i + 1, 0) ==
      if LivePd(mem, h.phys, i) then Done(mem, h, own, pmm, i, 512) + {FrameOf(mem, h.phys, Pd(i))}
      else Done(mem, h, own, pmm, i, 0)
  {
    PdStep(mem, h.phys, own, h.ownsUserLeaves, i);
    HugePdStep(mem, h.phys, h.ownsUserLeaves, pmm, i);
  }

  /** No user 2 MiB page lies in the part of the bitmap above `totalPages`. */
  ghost predicate TailSafe(mem: Memory, r: nat, pmm: PmmAllocator) {
    forall i: Idx, j: Idx :: HugeUser(mem, r, i, j) ==>
      !(pmm.memoryStart + pmm.totalPages <= PdEntry(mem, r, i, j).frame < pmm.memoryStart + PMM_MAX_PAGES)
  }

  /** `h` can be torn down: its frames are allocated, and distinct from any 2 MiB page it maps. */
  ghost predicate Destroyable(mem: Memory, h: Pml4Handle, own: map<nat, Node>, pmm: PmmAllocator, free: set<nat>) {
    && WellFormed(mem, h.phys, own) && pmm.Manages(own.Keys) && free !! own.Keys
    && DoneHuge(mem, h.phys, h.ownsUserLeaves, pmm, 512, 0) !! own.Keys
  }

  /** Frames of slots not reached yet are still allocated. */
  lemma NotDone(mem: Memory, h: Pml4Handle, own: map<nat, Node>, pmm: PmmAllocator, free: set<nat>, i: nat, j: nat,
                f: nat)
    requires Destroyable(mem, h, own, pmm, free) && i <= 512 && (i == 512 ==> j == 0)
    requires f in own && !Before(own[f], i, j)
    ensures f !in free + Done(mem, h, own, pmm, i, j)
  {
  }

  /** Return the user leaves of one PT. */
  method FreeLeaves(m: Machine, pt: nat, owns: bool, ghost r: nat, ghost own: map<nat, Node>, i: Idx, j: Idx)
    requires m.Valid() && m.pmm.Manages(own.Keys) && WellFormed(m.mem, r, own)
    requires LivePt(m.mem, r, i, j) && pt == FrameOf(m.mem, r, Pt(i, j))
    requires m.pmm.Free() !! Leaves(own, i, j, 512)
    modifies m.pmm
    ensures m.Valid() && m.pmm.Tail() == old(m.pmm.Tail())
    ensures m.pmm.Free() == old(m.pmm.Free()) + if owns then Leaves(own, i, j, 512) else {}
  {
    var k := 0;
    while k < 512
      invariant 0 <= k <= 512 && m.Valid() && m.pmm.Tail() == old(m.pmm.Tail())
      invariant m.pmm.Free() == old(m.pmm.Free()) + if owns then Leaves(own, i, j, k) else {}
    {
      var e := Entries(m.mem, pt)[k];
      LeavesStep(m.mem, r, own, i, j, k);
      if owns && e.flags.present && e.flags.user {
        m.Release(e.frame, own.Keys);
      }
      k := k + 1;
    }
  }

  /** Return what hangs below slot (i, j). */
  method FreeSlot(m: Machine, h: Pml4Handle, pde: Entry, i: Idx, j: Idx, ghost own: map<nat, Node>,
                  ghost free0: set<nat>)
    requires m.Valid() && Destroyable(m.mem, h, own, m.pmm, free0) && LivePd(m.mem, h.phys, i)
    requires pde == PdEntry(m.mem, h.phys, i, j)
    requires m.pmm.Free() == free0 + Done(m.mem, h, own, m.pmm, i, j)
    modifies m.pmm
    ensures m.Valid() && (TailSafe(m.mem, h.phys, m.pmm) ==> m.pmm.Tail() == old(m.pmm.Tail()))
    ensures m.pmm.Free() == free0 + Done(m.mem, h, own, m.pmm, i, j + 1)
  {
    hide Done;
    DoneSlot(m.mem, h, own, m.pmm, i, j);
    if !pde.flags.present {
      return;
    }
    if !InUser(i, j) {
      return;
    }
    if pde.flags.huge {
      if h.ownsUserLeaves && pde.flags.user {
        m.pmm.FreePage(pde.frame);
      }
      return;
    }
    assert Live(m.mem, h.phys, Pt(i, j));
    forall f | f in own && (own[f] == Pt(i, j) || (own[f].Leaf? && own[f].i == i && own[f].j == j))
      ensures f !in m.pmm.Free()
    {
      NotDone(m.mem, h, own, m.pmm, free0, i, j, f);
    }
    FreeLeaves(m, pde.frame, h.ownsUserLeaves, h.phys, own, i, j);
    m.Release(pde.frame, own.Keys);
  }

  /** Return what hangs below PDPT slot `i`, then its PD. */
  method FreePd(m: Machine, h: Pml4Handle, pd: nat, i: Idx, ghost own: map<nat, Node>, ghost free0: set<nat>)
    requires m.Valid() && Destroyable(m.mem, h, own, m.pmm, free0) && LivePd(m.mem, h.phys, i)
    requires pd == FrameOf(m.mem, h.phys, Pd(i))
    requires m.pmm.Free() == free0 + Done(m.mem, h, own, m.pmm, i, 0)
    modifies m.pmm
    ensures m.Valid() && (TailSafe(m.mem, h.phys, m.pmm) ==> m.pmm.Tail() == old(m.pmm.Tail()))
    ensures m.pmm.Free() == free0 + Done(m.mem, h, own, m.pmm, i + 1, 0)
  {
    hide Done, Destroyable, TailSafe;
    var j := 0;
    while j < 512
      invariant 0 <= j <= 512 && m.Valid() && (TailSafe(m.mem, h.phys, m.pmm) ==> m.pmm.Tail() == old(m.pmm.Tail()))
      invariant m.pmm.Free() == free0 + Done(m.mem, h, own, m.pmm, i, j)
    {
      FreeSlot(m, h, Entries(m.mem, pd)[j], i, j, own, free0);
      j := j + 1;
    }
    PdPending(m.mem, h, own, m.pmm, free0, i);
    m.Release(pd, own.Keys);
  }

  lemma PdPending(mem: Memory, h: Pml4Handle, own: map<nat, Node>, pmm: PmmAllocator, free: set<nat>, i: Idx)
    requires Destroyable(mem, h, own, pmm, free) && LivePd(mem, h.phys, i)
    ensures var f := FrameOf(mem, h.phys, Pd(i));
      && f in own && f !in free + Done(mem, h, own, pmm, i, 512) && pmm.Manages(own.Keys)
      && Done(mem, h, own, pmm, i + 1, 0) == Done(mem, h, own, pmm, i, 512) + {f}
  {
    assert Live(mem, h.phys, Pd(i));
    NotDone(mem, h, own, pmm, free, i, 512, FrameOf(mem, h.phys, Pd(i)));
    DonePd(mem, h, own, pmm, i);
  }

  /** At the end only the PDPT and the root are left. */
  lemma Remaining(mem: Memory, h: Pml4Handle, own: map<nat, Node>, pmm: PmmAllocator, free: set<nat>)
    requires Destroyable(mem, h, own, pmm, free)
    ensures var d := FrameOf(mem, h.phys, Pdpt);
      && h.phys in own && h.phys !in free + Done(mem, h, own, pmm, 512, 0)
      && (LivePdpt(mem, h.phys) ==>
            && d in own && d != h.phys && d !in free + Done(mem, h, own, pmm, 512, 0)
            && Returned(mem, h, own, pmm) == Done(mem, h, own, pmm, 512, 0) + {d, h.phys})
      && (!LivePdpt(mem, h.phys) ==> Returned(mem, h, own, pmm) == {h.phys} && Done(mem, h, own, pmm, 0, 0) == {})
  {
    assert Live(mem, h.phys, Root);
    NotDone(mem, h, own, pmm, free, 512, 0, h.phys);
    if LivePdpt(mem, h.phys) {
      assert Live(mem, h.phys, Pdpt);
      NotDone(mem, h, own, pmm, free, 512, 0, FrameOf(mem, h.phys, Pdpt));
      RemainingSet(mem, h, own, pmm);
    } else {
      forall f | f in own ensures own[f] == Root {
        assert Live(mem, h.phys, own[f]);
      }
    }
  }

  lemma RemainingSet(mem: Memory, h: Pml4Handle, own: map<nat, Node>, pmm: PmmAllocator)
    requires WellFormed(mem, h.phys, own) && LivePdpt(mem, h.phys)
    ensures Returned(mem, h, own, pmm) == Done(mem, h, own, pmm, 512, 0) + {FrameOf(mem, h.phys, Pdpt), h.phys}
  {
    assert Live(mem, h.phys, Root) && Live(mem, h.phys, Pdpt);
  }

  /**
    Tear a root down. Exactly the frames in `Returned` become free; `Release` is only
    ever called on an allocated frame, so none is returned twice. Memory is untouched.
   */
  method DestroyUncommittedPml4(m: Machine, h: Pml4Handle, ghost own: map<nat, Node>)
    requires m.Valid() && Destroyable(m.mem, h, own, m.pmm, m.pmm.Free())
    modifies m.pmm
    ensures m.Valid() && (TailSafe(m.mem, h.phys, m.pmm) ==> m.pmm.Tail() == old(m.pmm.Tail()))
    ensures m.pmm.Free() == old(m.pmm.Free()) + Returned(m.mem, h, own, m.pmm)
  {
    hide Done, Destroyable, Returned, FrameOf, TailSafe;
    ghost var free0 := m.pmm.Free();
    Remaining(m.mem, h, own, m.pmm, free0);
    ManagesOwn(m.mem, h, own, m.pmm, free0);
    if !Entries(m.mem, h.phys)[0].flags.present {
      m.Release(h.phys, own.Keys);
      return;
    }
    var pdpt := Entries(m.mem, h.phys)[0].frame;
    var i := 0;
    while i < 512
      invariant 0 <= i <= 512 && m.Valid() && (TailSafe(m.mem, h.phys, m.pmm) ==> m.pmm.Tail() == old(m.pmm.Tail()))
      invariant m.pmm.Free() == free0 + Done(m.mem, h, own, m.pmm, i, 0)
    {
      var pdpte := Entries(m.mem, pdpt)[i];
      PdFrame(m.mem, h, own, m.pmm, free0, i);
      if pdpte.flags.present && !pdpte.flags.huge {
        FreePd(m, h, pdpte.frame, i, own, free0);
      }
      i := i + 1;
    }
    m.Release(pdpt, own.Keys);
    m.Release(h.phys, own.Keys);
  }

  lemma PdFrame(mem: Memory, h: Pml4Handle, own: map<nat, Node>, pmm: PmmAllocator, free: set<nat>, i: Idx)
    requires Destroyable(mem, h, own, pmm, free) && LivePdpt(mem, h.phys)
    ensures FrameOf(mem, h.phys, Pd(i)) == PdptEntry(mem, h.phys, i).frame
    ensures !LivePd(mem, h.phys, i) ==> Done(mem, h, own, pmm, i + 1, 0) == Done(mem, h, own, pmm, i, 0)
  {
    DonePd(mem, h, own, pmm, i);
  }

  lemma ManagesOwn(mem: Memory, h: Pml4Handle, own: map<nat, Node>, pmm: PmmAllocator, free: set<nat>)
    requires Destroyable(mem, h, own, pmm, free)
    ensures pmm.Manages(own.Keys) && Done(mem, h, own, pmm, 0, 0) == {}
    ensures FrameOf(mem, h.phys, Pdpt) == TopEntry(mem, h.phys).frame
  {
  }
}
