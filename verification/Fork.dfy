/**
  The scratch mapping of a fork and the complete `create_pml4` (paging.rs). A fork
  temporarily extends the parent's tables so that child pages can be filled; the
  extension is gone again, bit for bit, when the call returns.
 */
module Fork {
  import opened Prelude
  import opened PageTables
  import opened Paging
  import opened Teardown
  import opened Cloning
  import opened CreateRoot

  /** PD and PT frames created for the scratch walk; None means the branch was there before. */
  datatype ScratchProvision = ScratchProvision(newPd: Option<nat>, newPt: Option<nat>)

  /** Everything the root could ever touch: what it owns and what is free. */
  ghost function Reachable(s: Sys): set<nat> {
    s.own.Keys + s.free
  }

  /** The active root of a fork: a sound tree. */
  ghost predicate ForkSource(s: Sys, src: nat) {
    Ok(s, src, Reachable(s))
  }

  /** `s` with a kernel-only table `t` hung below entry `idx` of `n`, if `t` is a frame at all. */
  ghost function AddTable(s: Sys, r: nat, n: Node, idx: Idx, c: Node, t: Option<nat>): Sys {
    match t
    case None => s
    case Some(g) => Sys(WithTable(s.mem, FrameOf(s.mem, r, n), idx, g, PAGE_KERNEL), s.own[g := c], s.free - {g})
  }

  ghost function WithPd(s: Sys, src: nat, v: ScratchProvision): Sys {
    AddTable(s, src, Pdpt, 1, Pd(1), v.newPd)
  }

  /** The parent's side of a fork while it runs. */
  ghost function WithScratch(s: Sys, src: nat, v: ScratchProvision): Sys {
    AddTable(WithPd(s, src, v), src, Pd(1), 0, Pt(1, 0), v.newPt)
  }

  /** `v` records exactly the missing tables, taken from distinct free frames. */
  ghost predicate Provides(s: Sys, src: nat, v: ScratchProvision) {
    && LivePdpt(s.mem, src) && !TopEntry(s.mem, src).flags.huge
    && v.newPd.Some? == !PdptEntry(s.mem, src, 1).flags.present
    && (v.newPd.Some? ==> v.newPd.value in s.free && v.newPt.Some?)
    && (v.newPd.None? ==> LivePd(s.mem, src, 1) && v.newPt.Some? == !PdEntry(s.mem, src, 1, 0).flags.present)
    && (v.newPt.Some? ==> v.newPt.value in s.free && v.newPt != v.newPd)
    && (v.newPt.None? ==> LivePt(s.mem, src, 1, 0) && PtEntry(s.mem, src, 1, 0, 0) == ZERO_ENTRY)
  }

  /** The first table of the scratch walk. */
  lemma PdProvided(s: Sys, src: nat, pd: Option<nat>)
    requires ForkSource(s, src) && LivePdpt(s.mem, src)
    requires pd.Some? == !PdptEntry(s.mem, src, 1).flags.present && (pd.Some? ==> pd.value in s.free)
    requires pd.None? ==> LivePd(s.mem, src, 1)
    ensures var s1 := AddTable(s, src, Pdpt, 1, Pd(1), pd);
      && Ok(s1, src, Reachable(s)) && LivePd(s1.mem, src, 1) && LivePdpt(s1.mem, src)
      && FrameOf(s1.mem, src, Pdpt) == FrameOf(s.mem, src, Pdpt)
      && (pd.Some? ==> FrameOf(s1.mem, src, Pd(1)) == pd.value && AllZero(Entries(s1.mem, pd.value)))
      && SameElsewhere(s.mem, s1.mem, src, Pdpt, 1)
  {
    assert Live(s.mem, src, Pdpt);
    if pd.Some? {
      NewTable(s.mem, src, s.own, Reachable(s), Pdpt, 1, pd.value, PAGE_KERNEL, Pd(1));
      assert SameNode(s.mem, AddTable(s, src, Pdpt, 1, Pd(1), pd).mem, src, Pdpt);
    } else {
      assert forall m: Node :: SameNode(s.mem, s.mem, src, m);
    }
  }

  /** The second table: with it the scratch PTE is reachable and empty. */
  lemma PtProvided(s: Sys, s1: Sys, src: nat, pt: Option<nat>)
    requires Ok(s1, src, Reachable(s)) && LivePd(s1.mem, src, 1)
    requires pt.Some? == !PdEntry(s1.mem, src, 1, 0).flags.present && (pt.Some? ==> pt.value in s1.free)
    requires pt.None? ==> LivePt(s1.mem, src, 1, 0) && PtEntry(s1.mem, src, 1, 0, 0) == ZERO_ENTRY
    ensures var s2 := AddTable(s1, src, Pd(1), 0, Pt(1, 0), pt);
      && Ok(s2, src, Reachable(s)) && LivePt(s2.mem, src, 1, 0) && PtEntry(s2.mem, src, 1, 0, 0) == ZERO_ENTRY
      && FrameOf(s2.mem, src, Pdpt) == FrameOf(s1.mem, src, Pdpt)
      && FrameOf(s2.mem, src, Pd(1)) == FrameOf(s1.mem, src, Pd(1))
      && (pt.Some? ==> FrameOf(s2.mem, src, Pt(1, 0)) == pt.value && AllZero(Entries(s2.mem, pt.value)))
      && SameElsewhere(s1.mem, s2.mem, src, Pd(1), 0)
  {
    var s2 := AddTable(s1, src, Pd(1), 0, Pt(1, 0), pt);
    assert Live(s1.mem, src, Pd(1)) && Live(s1.mem, src, Pdpt);
    if pt.Some? {
      assert InUser(1, 0);
      NewTable(s1.mem, src, s1.own, Reachable(s), Pd(1), 0, pt.value, PAGE_KERNEL, Pt(1, 0));
      assert SameNode(s1.mem, s2.mem, src, Pdpt) && SameNode(s1.mem, s2.mem, src, Pd(1));
    } else {
      assert forall m: Node :: SameNode(s1.mem, s1.mem, src, m);
    }
  }

  /** With the scratch walk in place the parent is ready to copy through it. */
  lemma Provisioned(s: Sys, src: nat, v: ScratchProvision)
    requires ForkSource(s, src) && Provides(s, src, v)
    ensures var s2 := WithScratch(s, src, v);
      && Ok(s2, src, Reachable(s)) && ScratchReady(s2.mem, src, s2.own) && Closed(s2.mem, src, s2.free)
      && s2.free <= s.free && s2.free + s2.own.Keys == Reachable(s)
      && FrameOf(s2.mem, src, Pdpt) == FrameOf(s.mem, src, Pdpt)
      && (v.newPd.Some? ==> FrameOf(s2.mem, src, Pd(1)) == v.newPd.value)
      && (v.newPd.None? ==> FrameOf(s2.mem, src, Pd(1)) == FrameOf(s.mem, src, Pd(1)))
      && (v.newPt.Some? ==> FrameOf(s2.mem, src, Pt(1, 0)) == v.newPt.value && AllZero(Entries(s2.mem, v.newPt.value)))
  {
    var s1, s2 := WithPd(s, src, v), WithScratch(s, src, v);
    PdProvided(s, src, v.newPd);
    PtProvided(s, s1, src, v.newPt);
    SourceClosed(s, s2, src);
    ScratchTable(s, src, v);
    ProvisionSets(s, src, v);
  }

  /** A sound root never reads a free frame. */
  lemma SourceClosed(s: Sys, s2: Sys, src: nat)
    requires Ok(s2, src, Reachable(s))
    ensures Closed(s2.mem, src, s2.free)
  {
    assert Live(s2.mem, src, Root);
    forall p: Path ensures SealedAt(s2.mem, src, map[], s2.free, p) {
      assert SealedAt(s2.mem, src, s2.own, Reachable(s), p);
    }
  }

  lemma ScratchTable(s: Sys, src: nat, v: ScratchProvision)
    requires ForkSource(s, src) && Provides(s, src, v)
    requires v.newPt.Some? ==> FrameOf(WithScratch(s, src, v).mem, src, Pt(1, 0)) == v.newPt.value
    ensures Get(WithScratch(s, src, v).mem, FrameOf(WithScratch(s, src, v).mem, src, Pt(1, 0))).TableFrame?
  {
    if v.newPt.None? {
      assert Live(s.mem, src, Pt(1, 0));
    }
  }

  lemma ProvisionSets(s: Sys, src: nat, v: ScratchProvision)
    requires Provides(s, src, v)
    ensures var s2 := WithScratch(s, src, v); s2.free <= s.free && s2.free + s2.own.Keys == s.own.Keys + s.free
  {
    hide LivePdpt, LivePd, LivePt, PdptEntry, PdEntry, PtEntry, WithTable;
  }

  /** Taking the scratch walk down again. */
  function Undo(mem: Memory, pdpt: nat, pd: nat, v: ScratchProvision): Memory {
    var m1 := if v.newPt.Some? then Store(mem, pd, 0, ZERO_ENTRY) else mem;
    if v.newPd.Some? then Store(m1, pdpt, 1, ZERO_ENTRY) else m1
  }

  /** Whatever happened to the free frames meanwhile, undoing restores every other frame exactly. */
  lemma UndoRestores(s: Sys, src: nat, v: ScratchProvision, mem: Memory)
    requires ForkSource(s, src) && Provides(s, src, v)
    requires var s2 := WithScratch(s, src, v); AgreeExcept(s2.mem, mem, s2.free)
    ensures var s2 := WithScratch(s, src, v);
      AgreeExcept(s.mem, Undo(mem, FrameOf(s.mem, src, Pdpt), FrameOf(s2.mem, src, Pd(1)), v), s.free)
  {
    hide Closed, ScratchReady, Space;
    var s2 := WithScratch(s, src, v);
    var pdpt, pd := FrameOf(s.mem, src, Pdpt), FrameOf(s2.mem, src, Pd(1));
    UndoFacts(s, src, v);
    forall f: nat | f !in s.free ensures Get(Undo(mem, pdpt, pd, v), f) == Get(s.mem, f) {
      UndoFrame(s.mem, s2.mem, mem, pdpt, pd, v, s.free, f);
    }
  }

  /** What the undo relies on: the two tables were stored as tables, with zero where the new entries went. */
  lemma UndoFacts(s: Sys, src: nat, v: ScratchProvision)
    requires ForkSource(s, src) && Provides(s, src, v)
    ensures var s2 := WithScratch(s, src, v);
      var pdpt, pd := FrameOf(s.mem, src, Pdpt), FrameOf(s2.mem, src, Pd(1));
      && pdpt !in s.free && s2.mem == Scratched(s.mem, pdpt, pd, v) && s2.free <= s.free
      && (v.newPd.Some? ==>
            pd == v.newPd.value && Get(s.mem, pdpt).TableFrame? && Entries(s.mem, pdpt)[1] == ZERO_ENTRY)
      && (v.newPd.None? ==> pd !in s.free && pd != pdpt)
      && (v.newPd.None? && v.newPt.Some? ==> Get(s.mem, pd).TableFrame? && Entries(s.mem, pd)[0] == ZERO_ENTRY)
  {
    hide Stored, SealedAt, Closed, ScratchReady, AgreeExcept, SameElsewhere;
    ScratchBranch(s, src);
    Provisioned(s, src, v);
    assert Live(s.mem, src, Pdpt);
    PdProvided(s, src, v.newPd);
    if v.newPd.None? {
      assert Live(s.mem, src, Pd(1));
    }
  }

  /** The tables of the scratch branch are stored as tables, with zero where an entry is not present. */
  lemma ScratchBranch(s: Sys, src: nat)
    requires ForkSource(s, src)
    ensures LivePdpt(s.mem, src) ==>
      Get(s.mem, FrameOf(s.mem, src, Pdpt)).TableFrame? && Clean(PdptEntry(s.mem, src, 1))
    ensures LivePd(s.mem, src, 1) ==>
      Get(s.mem, FrameOf(s.mem, src, Pd(1))).TableFrame? && Clean(PdEntry(s.mem, src, 1, 0))
  {
    assert Live(s.mem, src, Pdpt) ==> StoredAs(Get(s.mem, FrameOf(s.mem, src, Pdpt)), Pdpt);
    assert Live(s.mem, src, Pd(1)) ==> StoredAs(Get(s.mem, FrameOf(s.mem, src, Pd(1))), Pd(1));
  }

  function Scratched(mem: Memory, pdpt: nat, pd: nat, v: ScratchProvision): Memory {
    var m1 := if v.newPd.Some? then WithTable(mem, pdpt, 1, v.newPd.value, PAGE_KERNEL) else mem;
    if v.newPt.Some? then WithTable(m1, pd, 0, v.newPt.value, PAGE_KERNEL) else m1
  }

  lemma UndoFrame(mem0: Memory, mem2: Memory, mem: Memory, pdpt: nat, pd: nat, v: ScratchProvision, free: set<nat>,
                  f: nat)
    requires mem2 == Scratched(mem0, pdpt, pd, v) && Get(mem, f) == Get(mem2, f)
    requires f !in free && pdpt !in free
    requires v.newPd.Some? ==> v.newPd.value in free && pd == v.newPd.value && v.newPt.Some?
    requires v.newPt.Some? ==> v.newPt.value in free && v.newPt != v.newPd
    requires v.newPd.Some? ==> Get(mem0, pdpt).TableFrame? && Entries(mem0, pdpt)[1] == ZERO_ENTRY
    requires v.newPd.None? ==> pd !in free && pd != pdpt
    requires v.newPd.None? && v.newPt.Some? ==> Get(mem0, pd).TableFrame? && Entries(mem0, pd)[0] == ZERO_ENTRY
    ensures Get(Undo(mem, pdpt, pd, v), f) == Get(mem0, f)
  {
    if v.newPd.Some? && f == pdpt {
      RestoredEntry(Entries(mem0, f), 1, Entry(v.newPd.value, PAGE_KERNEL));
    } else if v.newPd.None? && v.newPt.Some? && f == pd {
      RestoredEntry(Entries(mem0, f), 0, Entry(v.newPt.value, PAGE_KERNEL));
    }
  }

  lemma RestoredEntry(t: Table, idx: Idx, x: Entry)
    requires t[idx] == ZERO_ENTRY
    ensures t[idx := x][idx := ZERO_ENTRY] == t
  {
  }

  // ----- provision_kernel_scratch and cleanup_kernel_scratch ---------------------

  /** The scratch page cannot be used: no PDPT, a huge page in the way, or the PTE is taken. */
  ghost predicate ScratchBlocked(mem: Memory, src: nat) {
    || !LivePdpt(mem, src) || TopEntry(mem, src).flags.huge || Giant(mem, src, 1)
    || (LivePd(mem, src, 1) && PdEntry(mem, src, 1, 0).flags.present &&
        (PdEntry(mem, src, 1, 0).flags.huge || PtEntry(mem, src, 1, 0, 0) != ZERO_ENTRY))
  }

  /** Tables the scratch walk is missing. */
  function ScratchTables(mem: Memory, src: nat): nat {
    if !PdptEntry(mem, src, 1).flags.present then 2
    else if !PdEntry(mem, src, 1, 0).flags.present then 1
    else 0
  }

  /** Undoing a lone new PD. */
  lemma UndoPd(s: Sys, src: nat, pd: nat)
    requires ForkSource(s, src) && LivePdpt(s.mem, src) && !PdptEntry(s.mem, src, 1).flags.present && pd in s.free
    ensures var pdpt := FrameOf(s.mem, src, Pdpt);
      AgreeExcept(s.mem, Store(WithTable(s.mem, pdpt, 1, pd, PAGE_KERNEL), pdpt, 1, ZERO_ENTRY), s.free)
  {
    assert Live(s.mem, src, Pdpt);
    RestoredEntry(Entries(s.mem, FrameOf(s.mem, src, Pdpt)), 1, Entry(pd, PAGE_KERNEL));
  }

  /** The new PD is empty, so the PT below it is missing too. */
  lemma FreshPd(s: Sys, src: nat, pd: nat)
    requires ForkSource(s, src) && LivePdpt(s.mem, src) && !PdptEntry(s.mem, src, 1).flags.present && pd in s.free
    ensures var mem1 := WithTable(s.mem, FrameOf(s.mem, src, Pdpt), 1, pd, PAGE_KERNEL);
      && Entries(mem1, FrameOf(s.mem, src, Pdpt))[1].frame == pd
      && AllZero(Entries(mem1, pd)) && pd != FrameOf(s.mem, src, Pdpt)
      && FrameOf(mem1, src, Pd(1)) == pd
  {
    assert Live(s.mem, src, Pdpt);
    PdProvided(s, src, Some(pd));
  }

  lemma ProvisionFits(s: Sys, src: nat, v: ScratchProvision, mem: Memory, free: set<nat>)
    requires Provides(s, src, v) && (v.newPd.None? ==> mem == AddTable(s, src, Pd(1), 0, Pt(1, 0), v.newPt).mem)
    requires v.newPd.Some? ==> mem == AddTable(WithPd(s, src, v), src, Pd(1), 0, Pt(1, 0), v.newPt).mem
    requires free ==
      s.free - (if v.newPd.Some? then {v.newPd.value} else {}) - (if v.newPt.Some? then {v.newPt.value} else {})
    ensures WithScratch(s, src, v).mem == mem && WithScratch(s, src, v).free == free
  {
  }

  /** Make the scratch PTE reachable in the active root, or change nothing. */
  method ProvisionKernelScratch(m: Machine, ghost sown: map<nat, Node>) returns (res: Option<ScratchProvision>)
    requires m.Valid() && ForkSource(m.S(sown), m.cr3) && m.pmm.Manages(m.pmm.Free())
    modifies m`mem, m.pmm
    ensures m.Valid() && m.pmm.Tail() == old(m.pmm.Tail())
    ensures res.Some? ==>
      && Provides(old(m.S(sown)), m.cr3, res.value)
      && m.mem == WithScratch(old(m.S(sown)), m.cr3, res.value).mem
      && m.pmm.Free() == WithScratch(old(m.S(sown)), m.cr3, res.value).free
    ensures res.None? ==>
      && m.pmm.Free() == old(m.pmm.Free()) && AgreeExcept(old(m.mem), m.mem, old(m.pmm.Free()))
      && (ScratchBlocked(old(m.mem), m.cr3) || |old(m.pmm.Free())| < ScratchTables(old(m.mem), m.cr3))
  {
    hide ForkSource;
    ghost var s := m.S(sown);
    var e4 := Entries(m.mem, m.cr3)[0];
    if !e4.flags.present || e4.flags.huge {
      return None;
    }
    var l3 := e4.frame;
    if !Entries(m.mem, l3)[1].flags.present {
      var pd := m.pmm.Alloc();
      if pd.None? {
        return None;
      }
      FreshPd(s, m.cr3, pd.value);
      m.mem := WithTable(m.mem, l3, 1, pd.value, PAGE_KERNEL);
      // The new PD holds no entry, so a PT must be created as well.
      assert !Entries(m.mem, pd.value)[0].flags.present;
      var pt := m.pmm.Alloc();
      if pt.None? {
        UndoPd(s, m.cr3, pd.value);
        m.mem := Store(m.mem, l3, 1, ZERO_ENTRY);
        m.Release(pd.value, s.free);
        return None;
      }
      m.mem := WithTable(m.mem, pd.value, 0, pt.value, PAGE_KERNEL);
      ProvisionFits(s, m.cr3, ScratchProvision(pd, pt), m.mem, m.pmm.Free());
      return Some(ScratchProvision(pd, pt));
    }
    if Entries(m.mem, l3)[1].flags.huge {
      return None;
    }
    var l2 := Entries(m.mem, l3)[1].frame;
    if !Entries(m.mem, l2)[0].flags.present {
      var pt := m.pmm.Alloc();
      if pt.None? {
        return None;
      }
      m.mem := WithTable(m.mem, l2, 0, pt.value, PAGE_KERNEL);
      ProvisionFits(s, m.cr3, ScratchProvision(None, pt), m.mem, m.pmm.Free());
      return Some(ScratchProvision(None, pt));
    }
    if Entries(m.mem, l2)[0].flags.huge {
      return None;
    }
    if Entries(m.mem, Entries(m.mem, l2)[0].frame)[0] != ZERO_ENTRY {
      return None;
    }
    assert InUser(1, 0);
    return Some(ScratchProvision(None, None));
  }

  /** The reserve is exactly the scratch tables that were missing. */
  ghost function Reserve(v: ScratchProvision): set<nat> {
    (if v.newPd.Some? then {v.newPd.value} else {}) + (if v.newPt.Some? then {v.newPt.value} else {})
  }

  /** The parent's scratch walk reads the same after any change to the frames that were free. */
  lemma CleanupFacts(s: Sys, src: nat, v: ScratchProvision, mem: Memory)
    requires ForkSource(s, src) && Provides(s, src, v)
    requires var s2 := WithScratch(s, src, v); AgreeExcept(s2.mem, mem, s2.free)
    ensures var s2 := WithScratch(s, src, v);
      var pdpt, pd := FrameOf(s.mem, src, Pdpt), FrameOf(s2.mem, src, Pd(1));
      && TopEntry(mem, src) == TopEntry(s2.mem, src) && LivePd(mem, src, 1) && TopEntry(mem, src).frame == pdpt
      && Entries(mem, pdpt)[1].frame == pd && (v.newPd.Some? ==> pd == v.newPd.value)
      && (v.newPt.Some? ==>
            && Entries(mem, pd)[0] == Entry(v.newPt.value, PAGE_KERNEL) && AllZero(Entries(mem, v.newPt.value))
            && v.newPt.value != pd && v.newPt.value != pdpt)
      && (v.newPd.Some? ==> AllZero(Entries(Store(mem, pd, 0, ZERO_ENTRY), pd)) && pd != pdpt)
  {
    hide Closed, ScratchReady, Stored;
    var s1, s2 := WithPd(s, src, v), WithScratch(s, src, v);
    Provisioned(s, src, v);
    assert Live(s2.mem, src, Root) && Live(s2.mem, src, Pdpt) && Live(s2.mem, src, Pd(1)) by {
      ScratchWalk(s2, src);
    }
    ScratchWalk(s2, src);
    if v.newPd.Some? {
      PdProvided(s, src, v.newPd);
      FreshPdEntries(s1.mem, v.newPd.value, v.newPt.value);
    }
  }

  lemma ScratchWalk(s2: Sys, src: nat)
    requires ScratchReady(s2.mem, src, s2.own)
    ensures Live(s2.mem, src, Root) && Live(s2.mem, src, Pdpt) && Live(s2.mem, src, Pd(1))
    ensures Live(s2.mem, src, Pt(1, 0))
  {
  }

  /** A fresh PD whose only entry is cleared again is all zero. */
  lemma FreshPdEntries(mem: Memory, pd: nat, pt: nat)
    requires AllZero(Entries(mem, pd)) && pd != pt
    ensures forall mem' :: Get(mem', pd) == Get(WithTable(mem, pd, 0, pt, PAGE_KERNEL), pd) ==>
      AllZero(Entries(Store(mem', pd, 0, ZERO_ENTRY), pd))
  {
  }

  /** Remove the scratch tables this fork created. The checks of the walk cannot fail here. */
  method CleanupKernelScratch(m: Machine, v: ScratchProvision, ghost s: Sys)
    requires m.Valid() && ForkSource(s, m.cr3) && Provides(s, m.cr3, v) && m.pmm.Manages(s.free)
    requires var s2 := WithScratch(s, m.cr3, v); AgreeExcept(s2.mem, m.mem, s2.free)
    requires Reserve(v) !! m.pmm.Free()
    modifies m`mem, m.pmm
    ensures m.Valid() && m.pmm.Tail() == old(m.pmm.Tail())
    ensures m.mem ==
      Undo(old(m.mem), FrameOf(s.mem, m.cr3, Pdpt), FrameOf(WithScratch(s, m.cr3, v).mem, m.cr3, Pd(1)), v)
    ensures m.pmm.Free() == old(m.pmm.Free()) + Reserve(v)
  {
    hide ForkSource, AgreeExcept, WithScratch, FrameOf;
    if v.newPd.None? && v.newPt.None? {
      return;
    }
    CleanupFacts(s, m.cr3, v, m.mem);
    var e4 := Entries(m.mem, m.cr3)[0];
    var l3 := e4.frame;
    var l2 := Entries(m.mem, l3)[1].frame;
    if v.newPt.Some? {
      assert Entries(m.mem, l2)[0].frame == v.newPt.value && !Entries(m.mem, l2)[0].flags.huge;
      assert AllZero(Entries(m.mem, v.newPt.value));
      m.mem := Store(m.mem, l2, 0, ZERO_ENTRY);
      m.Release(v.newPt.value, s.free);
    }
    if v.newPd.Some? {
      assert AllZero(Entries(m.mem, v.newPd.value));
      m.mem := Store(m.mem, l3, 1, ZERO_ENTRY);
      m.Release(v.newPd.value, s.free);
    }
  }

  // ----- The child reads none of the parent's private frames ---------------------

  /** At every level the child's walk uses its own table, or the very frame the parent shares there. */
  lemma ChildSealedAt(c: Ctx, s: Sys, sown: map<nat, Node>, poolS: set<nat>, p: Path)
    requires Mid(c, s) && ClonedRoot(c.m0, c.src, s.mem, c.r, c.pool, c.copy)
    requires WellFormed(c.m0, c.src, sown) && SealedAt(c.m0, c.src, sown, poolS, p) && c.pool <= poolS
    ensures SealedAt(s.mem, c.r, s.own, poolS, p)
  {
    assert SealedAt(s.mem, c.r, s.own, c.pool, p);
    if p.l4 != 0 {
      ChildSealedKernel(c, s, sown, poolS, p);
    } else if LivePdpt(s.mem, c.r) {
      ChildSealedUser(c, s, sown, poolS, p);
    }
  }

  lemma ChildSealedKernel(c: Ctx, s: Sys, sown: map<nat, Node>, poolS: set<nat>, p: Path)
    requires ClonedRoot(c.m0, c.src, s.mem, c.r, c.pool, c.copy) && AgreeExcept(c.m0, s.mem, c.pool)
    requires SealedAt(c.m0, c.src, sown, poolS, p) && c.pool <= poolS && p.l4 != 0
    ensures SealedAt(s.mem, c.r, s.own, poolS, p)
  {
    var e4 := Entries(c.m0, c.src)[p.l4];
    assert Entries(s.mem, c.r)[p.l4] == e4;
    if e4.flags.present {
      assert Entries(s.mem, e4.frame) == Entries(c.m0, e4.frame);
      var e3 := Entries(c.m0, e4.frame)[p.l3];
      if e3.flags.present {
        assert Entries(s.mem, e3.frame) == Entries(c.m0, e3.frame);
      }
    }
  }

  lemma ChildSealedUser(c: Ctx, s: Sys, sown: map<nat, Node>, poolS: set<nat>, p: Path)
    requires Mid(c, s) && ClonedRoot(c.m0, c.src, s.mem, c.r, c.pool, c.copy) && LivePdpt(s.mem, c.r)
    requires WellFormed(c.m0, c.src, sown) && SealedAt(c.m0, c.src, sown, poolS, p) && c.pool <= poolS && p.l4 == 0
    ensures SealedAt(s.mem, c.r, s.own, poolS, p)
  {
    hide CtxOk, ClonedSlot, Needs;
    assert Live(s.mem, c.r, Pdpt);
    var i, j := p.l3, p.l2;
    assert ClonedPd(c.m0, c.src, s.mem, c.r, c.pool, c.copy, i);
    var e, e' := PdptEntry(c.m0, c.src, i), PdptEntry(s.mem, c.r, i);
    if e'.flags.present {
      if e.flags.huge {
        assert !Live(c.m0, c.src, Pd(i)) && !Live(c.m0, c.src, Pt(i, j));
        assert e'.frame == e.frame && e.frame !in poolS;
        assert Entries(s.mem, e.frame) == Entries(c.m0, e.frame);
      } else {
        assert Live(s.mem, c.r, Pd(i));
        assert ClonedSlot(c.m0, c.src, s.mem, c.r, c.pool, c.copy, i, j);
        ChildSealedSlot(c, s, sown, poolS, i, j, p);
      }
    }
  }

  lemma ChildSealedSlot(c: Ctx, s: Sys, sown: map<nat, Node>, poolS: set<nat>, i: Idx, j: Idx, p: Path)
    requires WellFormed(s.mem, c.r, s.own) && ClonedSlot(c.m0, c.src, s.mem, c.r, c.pool, c.copy, i, j)
    requires LivePd(s.mem, c.r, i) && LivePdpt(c.m0, c.src) && PdptEntry(c.m0, c.src, i).flags.present && p.l4 == 0
    requires p.l3 == i && p.l2 == j
    requires WellFormed(c.m0, c.src, sown) && SealedAt(c.m0, c.src, sown, poolS, p)
    ensures var e2 := PdEntry(s.mem, c.r, i, j);
      e2.flags.present && !e2.flags.huge && e2.frame in poolS ==> e2.frame in s.own && s.own[e2.frame] == Pt(i, j)
  {
    var e, e2 := PdEntry(c.m0, c.src, i, j), PdEntry(s.mem, c.r, i, j);
    if e2.flags.present && !e2.flags.huge {
      if LivePt(s.mem, c.r, i, j) {
        assert Live(s.mem, c.r, Pt(i, j));
      } else {
        assert e2 == e && !InUser(i, j);
        assert !Live(c.m0, c.src, Pt(i, j));
      }
    }
  }

  /** The child's tree is private even against everything the parent owns. */
  lemma ChildSpace(c: Ctx, s: Sys, sown: map<nat, Node>, poolS: set<nat>)
    requires Mid(c, s) && ClonedRoot(c.m0, c.src, s.mem, c.r, c.pool, c.copy)
    requires Space(c.m0, c.src, sown, poolS) && c.pool <= poolS
    ensures Space(s.mem, c.r, s.own, poolS)
  {
    hide ClonedRoot, CtxOk, Needs;
    forall p: Path ensures SealedAt(s.mem, c.r, s.own, poolS, p) {
      assert SealedAt(c.m0, c.src, sown, poolS, p);
      ChildSealedAt(c, s, sown, poolS, p);
    }
  }

  // ----- The clone, seen from the state before the fork --------------------------

  /** PDPT slot `i` of root `r` and the leaves below it read the same in `mem` and `mem'`. */
  ghost predicate SameSlot(mem: Memory, mem': Memory, r: nat, own: map<nat, Node>, i: Idx) {
    && WellFormed(mem, r, own)
    && (forall n: Node :: (n.Pd? || n.Pt? || n.Leaf?) && n.i == i ==> SameNode(mem, mem', r, n))
    && (forall f :: f in own && own[f].Leaf? ==> Get(mem', f) == Get(mem, f))
  }

  lemma LeafMoves(c: Ctx, mem: Memory, m0': Memory, mem': Memory, sown: map<nat, Node>, own: map<nat, Node>,
                  pool': set<nat>,
                  i: Idx, j: Idx, k: Idx)
    requires SameSlot(c.m0, m0', c.src, sown, i) && SameSlot(mem, mem', c.r, own, i) && c.pool <= pool'
    requires LivePt(c.m0, c.src, i, j) && LivePt(mem, c.r, i, j) && ClonedLeaf(c.m0, c.src, mem, c.r, c.pool, i, j, k)
    ensures ClonedLeaf(m0', c.src, mem', c.r, pool', i, j, k)
  {
    assert SameNode(c.m0, m0', c.src, Leaf(i, j, k)) && SameNode(mem, mem', c.r, Leaf(i, j, k));
    if PtEntry(c.m0, c.src, i, j, k).flags.present && PtEntry(c.m0, c.src, i, j, k).flags.user {
      assert Live(c.m0, c.src, Leaf(i, j, k)) && Live(mem, c.r, Leaf(i, j, k));
    }
  }

  lemma SlotMoves(c: Ctx, mem: Memory, m0': Memory, mem': Memory, sown: map<nat, Node>, own: map<nat, Node>,
                  pool': set<nat>, i: Idx, j: Idx)
    requires SameSlot(c.m0, m0', c.src, sown, i) && SameSlot(mem, mem', c.r, own, i) && c.pool <= pool'
    requires LivePd(c.m0, c.src, i) && LivePd(mem, c.r, i) && ClonedSlot(c.m0, c.src, mem, c.r, c.pool, c.copy, i, j)
    ensures ClonedSlot(m0', c.src, mem', c.r, pool', c.copy, i, j)
  {
    hide ClonedLeaf;
    assert SameNode(c.m0, m0', c.src, Pt(i, j)) && SameNode(mem, mem', c.r, Pt(i, j));
    if LivePt(c.m0, c.src, i, j) && LivePt(mem, c.r, i, j) {
      forall k: Idx | ClonedLeaf(c.m0, c.src, mem, c.r, c.pool, i, j, k)
        ensures ClonedLeaf(m0', c.src, mem', c.r, pool', i, j, k)
      {
        LeafMoves(c, mem, m0', mem', sown, own, pool', i, j, k);
      }
    }
  }

  lemma PdMoves(c: Ctx, mem: Memory, m0': Memory, mem': Memory, sown: map<nat, Node>, own: map<nat, Node>,
                pool': set<nat>, i: Idx)
    requires SameSlot(c.m0, m0', c.src, sown, i) && SameSlot(mem, mem', c.r, own, i) && c.pool <= pool'
    requires LivePdpt(c.m0, c.src) && LivePdpt(mem, c.r) && ClonedPd(c.m0, c.src, mem, c.r, c.pool, c.copy, i)
    ensures ClonedPd(m0', c.src, mem', c.r, pool', c.copy, i)
  {
    hide ClonedSlot, ScratchSlot;
    assert SameNode(c.m0, m0', c.src, Pd(i)) && SameNode(mem, mem', c.r, Pd(i));
    if LivePd(c.m0, c.src, i) && LivePd(mem, c.r, i) {
      forall j: Idx | ClonedSlot(c.m0, c.src, mem, c.r, c.pool, c.copy, i, j)
        ensures ClonedSlot(m0', c.src, mem', c.r, pool', c.copy, i, j)
      {
        SlotMoves(c, mem, m0', mem', sown, own, pool', i, j);
      }
    }
  }

  /** The scratch slot is empty in the child whatever the parent has there. */
  lemma ScratchPdMoves(c: Ctx, mem: Memory, m0': Memory, mem': Memory, pool': set<nat>)
    requires ClonedPd(c.m0, c.src, mem, c.r, c.pool, c.copy, 1) && SameNode(mem, mem', c.r, Pd(1)) && LivePdpt(mem, c.r)
    ensures ClonedPd(m0', c.src, mem', c.r, pool', c.copy, 1)
  {
  }

  lemma RootMoves(c: Ctx, mem: Memory, m0': Memory, mem': Memory, sown: map<nat, Node>, own: map<nat, Node>,
                  pool': set<nat>)
    requires ClonedRoot(c.m0, c.src, mem, c.r, c.pool, c.copy) && c.pool <= pool'
    requires forall i: Idx :: i != 1 ==> SameSlot(c.m0, m0', c.src, sown, i)
    requires forall i: Idx :: SameSlot(mem, mem', c.r, own, i)
    requires Entries(m0', c.src) == Entries(c.m0, c.src) && Entries(mem', c.r) == Entries(mem, c.r)
    ensures ClonedRoot(m0', c.src, mem', c.r, pool', c.copy)
  {
    hide ClonedPd, SameSlot;
    if LivePdpt(c.m0, c.src) {
      forall i: Idx ensures ClonedPd(m0', c.src, mem', c.r, pool', c.copy, i) {
        assert ClonedPd(c.m0, c.src, mem, c.r, c.pool, c.copy, i);
        if i == 1 {
          SlotPd(mem, mem', c.r, own, 1);
          ScratchPdMoves(c, mem, m0', mem', pool');
        } else {
          PdMoves(c, mem, m0', mem', sown, own, pool', i);
        }
      }
    }
  }

  lemma SlotPd(mem: Memory, mem': Memory, r: nat, own: map<nat, Node>, i: Idx)
    requires SameSlot(mem, mem', r, own, i)
    ensures SameNode(mem, mem', r, Pd(i))
  {
  }

  lemma SameNodeSym(m0: Memory, m1: Memory, r: nat, n: Node)
    requires SameNode(m0, m1, r, n)
    ensures SameNode(m1, m0, r, n)
  {
  }

  /** Outside the scratch slot the provisioned parent reads like the original one. */
  lemma ParentSlots(s: Sys, src: nat, v: ScratchProvision, i: Idx)
    requires ForkSource(s, src) && Provides(s, src, v) && i != 1
    ensures SameSlot(WithScratch(s, src, v).mem, s.mem, src, WithScratch(s, src, v).own, i)
  {
    hide Stored, SealedAt, Closed, ScratchReady;
    var s1, s2 := WithPd(s, src, v), WithScratch(s, src, v);
    Provisioned(s, src, v);
    PdProvided(s, src, v.newPd);
    PtProvided(s, s1, src, v.newPt);
    forall n: Node | (n.Pd? || n.Pt? || n.Leaf?) && n.i == i ensures SameNode(s2.mem, s.mem, src, n) {
      SameNodeTrans(s.mem, s1.mem, s2.mem, src, n);
      SameNodeSym(s.mem, s2.mem, src, n);
    }
    ParentLeaves(s, src, v);
  }

  lemma ParentLeaves(s: Sys, src: nat, v: ScratchProvision)
    requires ForkSource(s, src) && Provides(s, src, v)
    ensures var s2 := WithScratch(s, src, v);
      && (forall f :: f in s2.own && s2.own[f].Leaf? ==> Get(s.mem, f) == Get(s2.mem, f))
      && Entries(s.mem, src) == Entries(s2.mem, src)
  {
    var s2 := WithScratch(s, src, v);
    UndoFacts(s, src, v);
    assert Live(s.mem, src, Pdpt) && Live(s.mem, src, Root);
    if v.newPd.None? {
      assert Live(s.mem, src, Pd(1));
    }
    forall f | f in s2.own && s2.own[f].Leaf? ensures Get(s.mem, f) == Get(s2.mem, f) {
      assert f in s.own && s.own[f].Leaf?;
      PdKept(s, src, v);
    }
    PdKept(s, src, v);
  }

  /** The table that takes the new PT is one the root owned as Pd(1), or the new PD. */
  lemma PdKept(s: Sys, src: nat, v: ScratchProvision)
    requires ForkSource(s, src) && Provides(s, src, v)
    ensures var pd := FrameOf(WithScratch(s, src, v).mem, src, Pd(1));
      if v.newPd.Some? then pd == v.newPd.value else pd in s.own && s.own[pd] == Pd(1)
  {
    Provisioned(s, src, v);
    if v.newPd.None? {
      assert Live(s.mem, src, Pd(1));
    }
  }

  /** Undoing the scratch walk touches only tables of the parent. */
  lemma UndoElsewhere(s: Sys, src: nat, v: ScratchProvision, mem: Memory)
    requires ForkSource(s, src) && Provides(s, src, v)
    ensures var s2 := WithScratch(s, src, v);
      var pdpt, pd := FrameOf(s.mem, src, Pdpt), FrameOf(s2.mem, src, Pd(1));
      && AgreeExcept(mem, Undo(mem, pdpt, pd, v), {pdpt, pd})
      && pdpt in s2.own && pd in s2.own && s2.own.Keys !! s2.free
  {
    var s2 := WithScratch(s, src, v);
    Provisioned(s, src, v);
    ScratchWalk(s2, src);
  }

  /** The child after clean-up, measured against the state before the fork. */
  lemma ForkResult(s0: Sys, src: nat, v: ScratchProvision, c: Ctx, s: Sys)
    requires ForkSource(s0, src) && Provides(s0, src, v)
    requires c.src == src && c.m0 == WithScratch(s0, src, v).mem && c.pool == WithScratch(s0, src, v).free
    requires Mid(c, s) && ClonedRoot(c.m0, src, s.mem, c.r, c.pool, c.copy)
    ensures var mem' := Undo(s.mem, FrameOf(s0.mem, src, Pdpt), FrameOf(WithScratch(s0, src, v).mem, src, Pd(1)), v);
      && Building(s0.mem, Sys(mem', s.own, s0.free - s.own.Keys), c.r, s0.free, {})
      && ClonedRoot(s0.mem, src, mem', c.r, s0.free, c.copy)
      && Space(mem', c.r, s.own, Reachable(s0))
  {
    hide Provides, ClonedRoot, WithScratch, Mid, ScratchReady, Closed, Undo, Space, SameSlot, ForkSource;
    var s2 := WithScratch(s0, src, v);
    var pdpt, pd := FrameOf(s0.mem, src, Pdpt), FrameOf(s2.mem, src, Pd(1));
    var mem' := Undo(s.mem, pdpt, pd, v);
    Provisioned(s0, src, v);
    ChildSpace(c, s, s2.own, Reachable(s0));
    UndoElsewhere(s0, src, v, s.mem);
    MidFacts(c, s);
    OutsideChange(s.mem, mem', c.r, s.own, Reachable(s0), {pdpt, pd});
    forall i: Idx ensures SameSlot(s.mem, mem', c.r, s.own, i) {
      ChildSlot(s.mem, mem', c.r, s.own, Reachable(s0), pdpt, pd, i);
    }
    forall i: Idx | i != 1 ensures SameSlot(c.m0, s0.mem, src, s2.own, i) {
      ParentSlots(s0, src, v, i);
    }
    ParentLeaves(s0, src, v);
    assert Entries(mem', c.r) == Entries(s.mem, c.r);
    RootMoves(c, s.mem, s0.mem, mem', s2.own, s.own, s0.free);
    UndoRestores(s0, src, v, s.mem);
    ForkBuilding(s0, c, s, mem');
  }

  lemma MidFacts(c: Ctx, s: Sys)
    requires Mid(c, s)
    ensures s.own.Keys <= c.pool && c.r in s.own && AgreeExcept(c.m0, s.mem, c.pool)
    ensures forall i: Idx, j: Idx :: !HugeUser(s.mem, c.r, i, j)
  {
    assert Live(s.mem, c.r, Root);
  }

  lemma ChildSlot(mem: Memory, mem': Memory, r: nat, own: map<nat, Node>, pool: set<nat>, pdpt: nat, pd: nat, i: Idx)
    requires Space(mem, r, own, pool) && AgreeExcept(mem, mem', {pdpt, pd}) && pdpt !in own && pd !in own
    requires forall m: Node :: SameNode(mem, mem', r, m)
    ensures SameSlot(mem, mem', r, own, i)
  {
  }

  lemma ForkBuilding(s0: Sys, c: Ctx, s: Sys, mem': Memory)
    requires Space(mem', c.r, s.own, Reachable(s0)) && s.own.Keys <= s0.free
    requires AgreeExcept(s0.mem, mem', s0.free)
    requires forall m: Node :: SameNode(s.mem, mem', c.r, m)
    requires forall i: Idx, j: Idx :: !HugeUser(s.mem, c.r, i, j)
    ensures Building(s0.mem, Sys(mem', s.own, s0.free - s.own.Keys), c.r, s0.free, {})
  {
    forall p: Path ensures SealedAt(mem', c.r, s.own, s0.free, p) {
      assert SealedAt(mem', c.r, s.own, Reachable(s0), p);
    }
    forall i: Idx, j: Idx ensures !HugeUser(mem', c.r, i, j) {
      assert !HugeUser(s.mem, c.r, i, j) && SameNode(s.mem, mem', c.r, Pt(i, j));
    }
  }

  // ----- create_pml4 --------------------------------------------------------------

  /** A construction refused on the provisioned parent is refused on the original one. */
  lemma RefusedOriginal(s: Sys, src: nat, v: ScratchProvision, c: Ctx)
    requires ForkSource(s, src) && Provides(s, src, v)
    requires c.src == src && c.m0 == WithScratch(s, src, v).mem && Refused(c)
    ensures Refused(c.(m0 := s.mem))
  {
    var c' := c.(m0 := s.mem);
    hide ForkSource, Provides, WithScratch;
    if TooFewFrames(c) {
      var ns: set<Node> :| |ns| > |c.pool| && NeedsAll(c, ns);
      forall m: Node | m in ns ensures Needs(c', m) {
        NeedsOriginal(s, src, v, c, m);
      }
      assert NeedsAll(c', ns);
    } else {
      var i :| UserHugeAt(c, i);
      HugeOriginal(s, src, v, c, i);
    }
  }

  lemma NeedsOriginal(s: Sys, src: nat, v: ScratchProvision, c: Ctx, n: Node)
    requires ForkSource(s, src) && Provides(s, src, v)
    requires c.src == src && c.m0 == WithScratch(s, src, v).mem && Needs(c, n)
    ensures Needs(c.(m0 := s.mem), n)
  {
    if n.Pd? || n.Pt? || n.Leaf? {
      assert ScratchSlot(1);
      ParentSlots(s, src, v, n.i);
      assert SameNode(c.m0, s.mem, src, n);
    }
  }

  lemma HugeOriginal(s: Sys, src: nat, v: ScratchProvision, c: Ctx, i: Idx)
    requires ForkSource(s, src) && Provides(s, src, v)
    requires c.src == src && c.m0 == WithScratch(s, src, v).mem && c.copy && UserHugeAt(c, i)
    ensures UserHugePage(c.(m0 := s.mem))
  {
    hide ForkSource, Provides, WithScratch;
    var c' := c.(m0 := s.mem);
    assert ScratchSlot(1);
    ParentSlots(s, src, v, i);
    ParentTop(s, src, v);
    SameHuge(c.m0, s.mem, src, WithScratch(s, src, v).own, i);
    assert UserHugeAt(c', i);
  }

  lemma ParentTop(s: Sys, src: nat, v: ScratchProvision)
    requires ForkSource(s, src) && Provides(s, src, v)
    ensures LivePdpt(s.mem, src) && LivePdpt(WithScratch(s, src, v).mem, src)
  {
    Provisioned(s, src, v);
    ScratchWalk(WithScratch(s, src, v), src);
  }

  /** The same slot holds the same huge pages. */
  lemma SameHuge(mem: Memory, mem': Memory, r: nat, own: map<nat, Node>, i: Idx)
    requires SameSlot(mem, mem', r, own, i) && LivePdpt(mem, r) && LivePdpt(mem', r)
    ensures Giant(mem', r, i) == Giant(mem, r, i) && PdptEntry(mem', r, i) == PdptEntry(mem, r, i)
    ensures forall j: Idx :: HugeUser(mem', r, i, j) == HugeUser(mem, r, i, j)
  {
    assert SameNode(mem, mem', r, Pd(i));
    forall j: Idx ensures HugeUser(mem', r, i, j) == HugeUser(mem, r, i, j) {
      assert SameNode(mem, mem', r, Pt(i, j));
    }
  }

  /**
    When `create_pml4` returns None: the free frames, less those a fork sets aside for the scratch tables,
    do not suffice, a user huge page would have to be cloned, or (fork only) the scratch page is unusable.
   */
  ghost predicate CreateRefused(s: Sys, src: nat, copy: bool) {
    var c := Ctx(s.mem, src, 0, s.free, copy, s.own);
    || UserHugePage(c) || NeedsMore(c, |s.free| - if copy then ScratchTables(s.mem, src) else 0)
    || (copy && ScratchBlocked(s.mem, src))
  }

  lemma ReserveFacts(s: Sys, src: nat, v: ScratchProvision)
    requires Provides(s, src, v)
    ensures WithScratch(s, src, v).free == s.free - Reserve(v) && Reserve(v) <= s.free
    ensures |s.free - Reserve(v)| == |s.free| - ScratchTables(s.mem, src)
  {
    ReserveSize(v, s.free, ScratchTables(s.mem, src));
  }

  lemma ReserveSize(v: ScratchProvision, free: set<nat>, n: nat)
    requires Reserve(v) <= free && (v.newPd.Some? ==> v.newPt.Some? && v.newPt != v.newPd)
    requires n == (if v.newPd.Some? then 1 else 0) + (if v.newPt.Some? then 1 else 0)
    ensures |free - Reserve(v)| == |free| - n
  {
    assert free == (free - Reserve(v)) + Reserve(v);
    if v.newPd.Some? {
      assert Reserve(v) == {v.newPd.value, v.newPt.value};
    } else if v.newPt.Some? {
      assert Reserve(v) == {v.newPt.value};
    } else {
      assert Reserve(v) == {};
    }
  }

  lemma GiveBack(free0: set<nat>, reserve: set<nat>, own: set<nat>, free: set<nat>)
    requires reserve <= free0 && free + own == free0 - reserve && free !! own
    ensures free + reserve == free0 - own && reserve !! free
  {
  }

  lemma RefusedAnyRoot(c: Ctx, r: nat, pool: set<nat>, sown: map<nat, Node>)
    requires Refused(c)
    ensures var c' := c.(r := r, pool := pool, sown := sown); UserHugePage(c') || NeedsMore(c', |c.pool|)
  {
    var c' := c.(r := r, pool := pool, sown := sown);
    if TooFewFrames(c) {
      var ns: set<Node> :| |ns| > |c.pool| && NeedsAll(c, ns);
      forall n | n in ns ensures Needs(c', n) {
        assert Needs(c, n);
      }
      assert NeedsAll(c', ns);
    } else {
      var i :| UserHugeAt(c, i);
      assert UserHugeAt(c', i);
    }
  }

  /** A root that was created was not refused. */
  lemma NotRefused(s: Sys, src: nat, copy: bool, mem: Memory, r: nat, own: map<nat, Node>, pool: set<nat>,
                   reserve: set<nat>)
    requires ClonedRoot(s.mem, src, mem, r, pool, copy) && WellFormed(mem, r, own) && own.Keys <= s.free - reserve
    requires |s.free - reserve| == |s.free| - (if copy then ScratchTables(s.mem, src) else 0)
    requires copy ==> !ScratchBlocked(s.mem, src)
    ensures !CreateRefused(s, src, copy)
  {
    hide ClonedRoot, WellFormed, ScratchTables, ScratchBlocked, UserHugePage, NeedsMore;
    var c := Ctx(s.mem, src, 0, s.free, copy, s.own);
    NoHugePage(c, mem, r, pool);
    Enough(c, mem, r, own, pool, s.free - reserve);
  }

  lemma BuildingOwns(m0: Memory, s: Sys, r: nat, pool: set<nat>)
    requires Building(m0, s, r, pool, {})
    ensures WellFormed(s.mem, r, s.own) && s.own.Keys <= pool
  {
  }

  /** The scratch walk was provided, so nothing was in its way. */
  lemma NotBlocked(s: Sys, src: nat, v: ScratchProvision)
    requires Provides(s, src, v)
    ensures !ScratchBlocked(s.mem, src)
  {
  }

  /** The construction proper, when no user mapping is copied. */
  method CreateImageRoot(m: Machine, ghost sown: map<nat,
                         Node>) returns (res: Option<Pml4Handle>, ghost own: map<nat, Node>)
    requires m.Valid() && m.pmm.Manages(m.pmm.Free()) && Closed(m.mem, m.cr3, m.pmm.Free())
    modifies m`mem, m.pmm
    ensures m.Valid() && m.pmm.Tail() == old(m.pmm.Tail())
    ensures AgreeExcept(old(m.mem), m.mem, old(m.pmm.Free()))
    ensures res.None? <==> CreateRefused(old(m.S(sown)), m.cr3, false)
    ensures res.None? ==> m.pmm.Free() == old(m.pmm.Free())
    ensures res.Some? ==>
      && res.value.ownsUserLeaves
      && Building(old(m.mem), m.S(own), res.value.phys, old(m.pmm.Free()), {})
      && ClonedRoot(old(m.mem), m.cr3, m.mem, res.value.phys, old(m.pmm.Free()), false)
  {
    hide Building, ClonedRoot, Mid, Closed, ScratchReady, Refused, UserHugePage, NeedsMore;
    ghost var s0 := m.S(sown);
    ghost var c: Ctx;
    res, c, own := BuildRoot(m, false, s0.free, sown);
    if res.None? {
      RefusedAnyRoot(c, 0, s0.free, sown);
    } else {
      MidBuilding(c, m.S(own));
      BuildingOwns(c.m0, m.S(own), c.r, s0.free);
      assert s0.free - {} == s0.free;
      NotRefused(s0, m.cr3, false, m.mem, c.r, own, s0.free, {});
    }
  }

  /** Memory once the scratch walk of this fork is taken down. */
  ghost function CleanedUp(s0: Sys, src: nat, v: ScratchProvision, mem: Memory): Memory {
    Undo(mem, FrameOf(s0.mem, src, Pdpt), FrameOf(WithScratch(s0, src, v).mem, src, Pd(1)), v)
  }

  /** The outcome of a fork's construction, with the scratch walk taken down. */
  ghost predicate ForkDone(s0: Sys, src: nat, v: ScratchProvision, mem: Memory, res: Option<Pml4Handle>, own: map<nat,
                           Node>) {
    match res
    case None => own == map[] && CreateRefused(s0, src, true)
    case Some(h) =>
      && h.ownsUserLeaves && !CreateRefused(s0, src, true)
      && Building(s0.mem, Sys(mem, own, s0.free - own.Keys), h.phys, s0.free, {})
      && ClonedRoot(s0.mem, src, mem, h.phys, s0.free, true)
      && Space(mem, h.phys, own, Reachable(s0))
  }

  lemma ReadyToBuild(s: Sys, src: nat, v: ScratchProvision)
    requires ForkSource(s, src) && Provides(s, src, v)
    ensures var s2 := WithScratch(s, src, v);
      ScratchReady(s2.mem, src, s2.own) && Closed(s2.mem, src, s2.free) && s2.own.Keys !! s2.free && s2.free <= s.free
  {
    hide ForkSource, Provides, WithScratch, ScratchReady, Closed, Space;
    Provisioned(s, src, v);
  }

  lemma ForkRefused(s: Sys, src: nat, v: ScratchProvision, c: Ctx, mem: Memory)
    requires ForkSource(s, src) && Provides(s, src, v) && Refused(c)
    requires c.src == src && c.m0 == WithScratch(s, src, v).mem && c.pool == WithScratch(s, src, v).free && c.copy
    ensures ForkDone(s, src, v, mem, None, map[])
  {
    hide ForkSource, Provides, WithScratch, Refused, WithPd, ScratchBlocked, ScratchTables, UserHugePage, NeedsMore,
         Reserve;
    ReserveFacts(s, src, v);
    RefusedOriginal(s, src, v, c);
    RefusedAnyRoot(c.(m0 := s.mem), 0, s.free, s.own);
  }

  lemma ForkAccepted(s: Sys, src: nat, v: ScratchProvision, mem: Memory, r: nat, own: map<nat, Node>, free: set<nat>)
    requires Provides(s, src, v) && free + own.Keys == WithScratch(s, src, v).free
    requires Building(s.mem, Sys(mem, own, s.free - own.Keys), r, s.free, {})
    requires ClonedRoot(s.mem, src, mem, r, s.free, true)
    requires Space(mem, r, own, Reachable(s))
    ensures ForkDone(s, src, v, mem, Some(Pml4Handle(r, true)), own)
  {
    hide Provides, Building, ClonedRoot, ScratchBlocked, ScratchTables, Reserve, CreateRefused, WellFormed, WithScratch,
         Space;
    ReserveFacts(s, src, v);
    NotBlocked(s, src, v);
    BuildingOwns(s.mem, Sys(mem, own, s.free - own.Keys), r, s.free);
    NotRefused(s, src, true, mem, r, own, s.free, Reserve(v));
  }

  lemma ForkCleaned(s0: Sys, src: nat, v: ScratchProvision, c: Ctx, s: Sys)
    requires ForkSource(s0, src) && Provides(s0, src, v)
    requires c.src == src && c.m0 == WithScratch(s0, src, v).mem && c.pool == WithScratch(s0, src, v).free
    requires Mid(c, s) && ClonedRoot(c.m0, src, s.mem, c.r, c.pool, c.copy)
    ensures var mem' := CleanedUp(s0, src, v, s.mem);
      && Building(s0.mem, Sys(mem', s.own, s0.free - s.own.Keys), c.r, s0.free, {})
      && ClonedRoot(s0.mem, src, mem', c.r, s0.free, c.copy)
      && Space(mem', c.r, s.own, Reachable(s0))
  {
    hide ForkSource, Provides, Mid, ClonedRoot, WithScratch, Building, Space, Reachable, Undo, FrameOf;
    ForkResult(s0, src, v, c, s);
  }

  /** The construction between scratch set-up and clean-up. */
  method ForkBody(m: Machine, v: ScratchProvision,
                  ghost s0: Sys) returns (res: Option<Pml4Handle>, ghost own: map<nat, Node>)
    requires m.Valid() && m.pmm.Manages(s0.free) && ForkSource(s0, m.cr3) && Provides(s0, m.cr3, v)
    requires m.mem == WithScratch(s0, m.cr3, v).mem && m.pmm.Free() == WithScratch(s0, m.cr3, v).free
    modifies m`mem, m.pmm
    ensures m.Valid() && m.pmm.Tail() == old(m.pmm.Tail())
    ensures AgreeExcept(old(m.mem), m.mem, old(m.pmm.Free()))
    ensures m.pmm.Free() + own.Keys == old(m.pmm.Free()) && m.pmm.Free() !! own.Keys
    ensures ForkDone(s0, m.cr3, v, CleanedUp(s0, m.cr3, v, m.mem), res, own)
  {
    hide ForkSource, Building, ClonedRoot, Mid, Closed, ScratchReady, WithScratch, Undo, Refused, ScratchBlocked,
         Provides,
         Space, FrameOf, Reserve, CreateRefused, Reachable, ForkDone, CleanedUp, AgreeExcept;
    ghost var s2 := WithScratch(s0, m.cr3, v);
    ReadyToBuild(s0, m.cr3, v);
    ghost var c: Ctx;
    res, c, own := BuildRoot(m, true, s2.free, s2.own);
    if res.None? {
      ForkRefused(s0, m.cr3, v, c, CleanedUp(s0, m.cr3, v, m.mem));
      own := map[];
    } else {
      ForkCleaned(s0, m.cr3, v, c, m.S(own));
      MidSets(c, m.S(own));
      ForkAccepted(s0, m.cr3, v, CleanedUp(s0, m.cr3, v, m.mem), c.r, own, m.pmm.Free());
    }
  }

  /** `create_pml4` in fork mode, once the scratch walk is in place. */
  method CreateForkRoot(m: Machine, v: ScratchProvision,
                        ghost s0: Sys) returns (res: Option<Pml4Handle>, ghost own: map<nat, Node>)
    requires m.Valid() && m.pmm.Manages(s0.free) && ForkSource(s0, m.cr3) && Provides(s0, m.cr3, v)
    requires m.mem == WithScratch(s0, m.cr3, v).mem && m.pmm.Free() == WithScratch(s0, m.cr3, v).free
    modifies m`mem, m.pmm
    ensures m.Valid() && m.pmm.Tail() == old(m.pmm.Tail())
    ensures AgreeExcept(s0.mem, m.mem, s0.free)
    ensures m.pmm.Free() == s0.free - own.Keys
    ensures ForkDone(s0, m.cr3, v, m.mem, res, own)
  {
    hide ForkSource, WithScratch, Provides, FrameOf, Reserve, ForkDone, Undo;
    ReserveFacts(s0, m.cr3, v);
    res, own := ForkBody(m, v, s0);
    UndoRestores(s0, m.cr3, v, m.mem);
    ghost var free := m.pmm.Free();
    GiveBack(s0.free, Reserve(v), own.Keys, free);
    CleanupKernelScratch(m, v, s0);
  }

  /**
    Create a root from the active one. Whatever the outcome, every frame that was in use
    keeps its contents. On failure the free frames are exactly as before; on success
    the new root owns precisely the frames that left the free set, and is a clone.
   */
  method CreatePml4(m: Machine, copyUser: bool, ghost sown: map<nat, Node>)
    returns (res: Option<Pml4Handle>, ghost own: map<nat, Node>)
    requires m.Valid() && m.pmm.Manages(m.pmm.Free()) && Closed(m.mem, m.cr3, m.pmm.Free())
    requires copyUser ==> ForkSource(m.S(sown), m.cr3)
    modifies m`mem, m.pmm
    ensures m.Valid() && m.pmm.Tail() == old(m.pmm.Tail())
    ensures AgreeExcept(old(m.mem), m.mem, old(m.pmm.Free()))
    ensures res.None? <==> CreateRefused(old(m.S(sown)), m.cr3, copyUser)
    ensures res.None? ==> m.pmm.Free() == old(m.pmm.Free())
    ensures res.Some? ==>
      && res.value.ownsUserLeaves
      && Building(old(m.mem), m.S(own), res.value.phys, old(m.pmm.Free()), {})
      && ClonedRoot(old(m.mem), m.cr3, m.mem, res.value.phys, old(m.pmm.Free()), copyUser)
      && (copyUser ==> Space(m.mem, res.value.phys, own, Reachable(old(m.S(sown)))))
  {
    hide ForkSource, Building, ClonedRoot, Closed, WithScratch, CreateRefused, ScratchBlocked, Provides, Space,
         ScratchTables, AgreeExcept;
    if !copyUser {
      res, own := CreateImageRoot(m, sown);
      return;
    }
    ghost var s0 := m.S(sown);
    var v := ProvisionKernelScratch(m, sown);
    if v.None? {
      NoScratch(s0, m.cr3);
      return None, map[];
    }
    res, own := CreateForkRoot(m, v.value, s0);
    assert res.None? ==> s0.free - own.Keys == s0.free;
  }

  lemma NoScratch(s: Sys, src: nat)
    requires ScratchBlocked(s.mem, src) || |s.free| < ScratchTables(s.mem, src)
    ensures CreateRefused(s, src, true)
  {
    var c := Ctx(s.mem, src, 0, s.free, true, s.own);
    assert NeedsAll(c, {});
  }

  lemma MidBuilding(c: Ctx, s: Sys)
    requires Mid(c, s)
    ensures Building(c.m0, s, c.r, c.pool, {})
  {
  }

  lemma MidSets(c: Ctx, s: Sys)
    requires Mid(c, s)
    ensures s.free + s.own.Keys == c.pool && s.free !! s.own.Keys
  {
  }
}
