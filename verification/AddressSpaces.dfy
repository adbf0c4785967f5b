/**
  All address spaces of the machine together: any run of creating, forking, mapping, unmapping,
  switching and destroying roots (paging.rs, process.rs) keeps their frames apart and loses none.
 */
module AddressSpaces {
  import opened Prelude
  import opened Pmm
  import opened PageTables
  import opened Paging
  import opened Teardown
  import opened Cloning
  import opened CreateRoot
  import opened Fork
  import opened Isolation
  import opened Loading

  /** The live roots, each with the frames it owns. */
  type Roots = map<nat, map<nat, Node>>

  ghost function Owned(roots: Roots): set<nat> {
    set r, f | r in roots && f in roots[r] :: f
  }

  /** Every frame that processes use or may be given. */
  ghost function Frames(roots: Roots, free: set<nat>): set<nat> {
    Owned(roots) + free
  }

  /** One root: a sound tree that reads no frame of another root nor a free one, without user huge pages. */
  ghost predicate RootOk(mem: Memory, r: nat, own: map<nat, Node>, free: set<nat>, all: set<nat>) {
    Ok(Sys(mem, own, free), r, all) && NoGiants(mem, r) && forall i: Idx, j: Idx :: !HugeUser(mem, r, i, j)
  }

  ghost predicate Apart(roots: Roots) {
    forall r, t :: r in roots && t in roots && r != t ==> roots[r].Keys !! roots[t].Keys
  }

  /** All roots are sound, and no frame belongs to two of them or is free and owned. */
  ghost predicate WorldOk(mem: Memory, roots: Roots, free: set<nat>) {
    && Apart(roots)
    && forall r :: r in roots ==> RootOk(mem, r, roots[r], free, Frames(roots, free))
  }

  lemma InOwned(roots: Roots, f: nat)
    ensures f in Owned(roots) <==> exists r :: r in roots && f in roots[r]
  {
  }

  /** Replacing or adding one root keeps the frames if what it gains it takes from the free ones. */
  lemma FramesKept(roots: Roots, free: set<nat>, r: nat, own: map<nat, Node>, free': set<nat>)
    requires Apart(roots)
    requires free' + own.Keys == free + (if r in roots then roots[r].Keys else {}) && free !! Owned(roots)
    requires free' !! own.Keys
    ensures Frames(roots[r := own], free') == Frames(roots, free) && Apart(roots[r := own])
    ensures free' !! Owned(roots[r := own])
  {
    var roots' := roots[r := own];
    forall f ensures f in Frames(roots', free') <==> f in Frames(roots, free) {
      OwnedUpdate(roots, r, own, f);
    }
    forall t | t in roots && t != r ensures roots[t].Keys !! own.Keys && free' !! roots[t].Keys {
      forall f | f in roots[t] ensures f !in own && f !in free' {
        InOwned(roots, f);
        assert f !in free;
        assert f !in free + (if r in roots then roots[r].Keys else {});
      }
    }
    forall f | f in free' ensures f !in Owned(roots') {
      OwnedUpdate(roots, r, own, f);
    }
  }

  lemma OwnedUpdate(roots: Roots, r: nat, own: map<nat, Node>, f: nat)
    ensures f in Owned(roots[r := own]) <==> f in own || exists t :: t in roots && t != r && f in roots[t]
    ensures f in Owned(roots) <==> (r in roots && f in roots[r]) || exists t :: t in roots && t != r && f in roots[t]
  {
    var roots' := roots[r := own];
    InOwned(roots', f);
    InOwned(roots, f);
    if t :| t in roots && t != r && f in roots[t] {
      assert t in roots' && f in roots'[t];
    }
    assert r in roots' && roots'[r] == own;
  }

  lemma FreeApart(mem: Memory, roots: Roots, free: set<nat>)
    requires WorldOk(mem, roots, free)
    ensures free !! Owned(roots)
  {
    forall f | f in free ensures f !in Owned(roots) {
      InOwned(roots, f);
      forall r | r in roots ensures f !in roots[r] {
        assert RootOk(mem, r, roots[r], free, Frames(roots, free));
      }
    }
  }

  /**
    A root that owns none of the changed frames is as it was; the free frames may differ as long as they are not
    its own.
   */
  lemma OtherRoot(mem: Memory, mem': Memory, r: nat, own: map<nat, Node>, free: set<nat>, free': set<nat>,
                  all: set<nat>, changed: set<nat>)
    requires RootOk(mem, r, own, free, all) && AgreeExcept(mem, mem', changed) && changed <= all && changed !! own.Keys
    requires free' <= all && free' !! own.Keys
    ensures RootOk(mem', r, own, free', all)
  {
    hide Space, SealedAt, HugeUser, Giant, SameNode;
    OutsideChange(mem, mem', r, own, all, changed);
    WriteGiants(mem, mem', r);
  }

  /** The same for all roots but one. */
  lemma OtherRoots(mem: Memory, mem': Memory, roots: Roots, free: set<nat>, free': set<nat>, skip: Option<nat>,
                   changed: set<nat>)
    requires WorldOk(mem, roots, free) && AgreeExcept(mem, mem', changed) && changed <= Frames(roots, free)
    requires free' <= Frames(roots, free)
    requires forall t :: t in roots && Some(t) != skip ==> changed !! roots[t].Keys && free' !! roots[t].Keys
    ensures forall t :: t in roots && Some(t) != skip ==> RootOk(mem', t, roots[t], free', Frames(roots, free))
  {
    hide RootOk, Frames;
    forall t | t in roots && Some(t) != skip ensures RootOk(mem', t, roots[t], free', Frames(roots, free)) {
      OtherRoot(mem, mem', t, roots[t], free, free', Frames(roots, free), changed);
    }
  }

  // ----- Creating a root -------------------------------------------------------------

  /** What the construction needs of the active root follows from the invariant. */
  lemma SourceReady(mem: Memory, roots: Roots, free: set<nat>, src: nat)
    requires WorldOk(mem, roots, free) && src in roots
    ensures Closed(mem, src, free) && ForkSource(Sys(mem, roots[src], free), src) && NoGiants(mem, src)
  {
    var s := Sys(mem, roots[src], free);
    assert RootOk(mem, src, roots[src], free, Frames(roots, free));
    forall f | f in roots[src] ensures f in Frames(roots, free) {
      InOwned(roots, f);
    }
    SmallerPool(mem, src, roots[src], Frames(roots, free), Reachable(s));
    SourceClosed(s, s, src);
  }

  lemma SmallerPool(mem: Memory, r: nat, own: map<nat, Node>, pool: set<nat>, pool': set<nat>)
    requires Space(mem, r, own, pool) && own.Keys <= pool' <= pool
    ensures Space(mem, r, own, pool')
  {
    forall p: Path ensures SealedAt(mem, r, own, pool', p) {
      assert SealedAt(mem, r, own, pool, p);
    }
  }

  /** What a clone shares with its source, no live root owns: it reads none of their frames. */
  lemma CloneSealed(m0: Memory, src: nat, sown: map<nat, Node>, mem: Memory, r: nat, own: map<nat, Node>,
                    free: set<nat>, all: set<nat>, copy: bool)
    requires Space(m0, src, sown, all) && free <= all && NoGiants(m0, src)
    requires Space(mem, r, own, free) && AgreeExcept(m0, mem, free) && ClonedRoot(m0, src, mem, r, free, copy)
    ensures Space(mem, r, own, all)
  {
    hide ClonedRoot, NoGiants, Stored;
    forall p: Path ensures SealedAt(mem, r, own, all, p) {
      assert SealedAt(m0, src, sown, all, p);
      if p.l4 == 0 {
        CloneSealedLow(m0, src, sown, mem, r, own, free, all, copy, p);
      } else {
        CloneSealedHigh(m0, src, sown, mem, r, own, free, all, copy, p);
      }
    }
  }

  lemma CloneSealedHigh(m0: Memory, src: nat, sown: map<nat, Node>, mem: Memory, r: nat, own: map<nat, Node>,
                        free: set<nat>, all: set<nat>, copy: bool, p: Path)
    requires SealedAt(m0, src, sown, all, p) && free <= all && p.l4 != 0
    requires AgreeExcept(m0, mem, free) && ClonedRoot(m0, src, mem, r, free, copy)
    ensures SealedAt(mem, r, own, all, p)
  {
    var e4 := Entries(m0, src)[p.l4];
    assert Entries(mem, r)[p.l4] == e4;
    if e4.flags.present {
      assert Entries(mem, e4.frame) == Entries(m0, e4.frame);
      var e3 := Entries(m0, e4.frame)[p.l3];
      if e3.flags.present {
        assert Entries(mem, e3.frame) == Entries(m0, e3.frame);
      }
    }
  }

  lemma CloneSealedLow(m0: Memory, src: nat, sown: map<nat, Node>, mem: Memory, r: nat, own: map<nat, Node>,
                       free: set<nat>, all: set<nat>, copy: bool, p: Path)
    requires WellFormed(m0, src, sown) && SealedAt(m0, src, sown, all, p) && NoGiants(m0, src) && p.l4 == 0
    requires WellFormed(mem, r, own) && ClonedRoot(m0, src, mem, r, free, copy)
    ensures SealedAt(mem, r, own, all, p)
  {
    var i, j := p.l3, p.l2;
    if LivePdpt(mem, r) {
      assert Live(mem, r, Pdpt) && own[FrameOf(mem, r, Pdpt)] == Pdpt;
      assert ClonedPd(m0, src, mem, r, free, copy, i) && !Giant(m0, src, i);
      if PdptEntry(mem, r, i).flags.present {
        assert Live(mem, r, Pd(i)) && own[FrameOf(mem, r, Pd(i))] == Pd(i);
        assert ClonedSlot(m0, src, mem, r, free, copy, i, j);
        var c := PdEntry(mem, r, i, j);
        if c.flags.present && !c.flags.huge {
          if InUser(i, j) {
            assert Live(mem, r, Pt(i, j)) && own[FrameOf(mem, r, Pt(i, j))] == Pt(i, j);
          }
        }
      }
    }
  }

  /** The new root among all others. */
  lemma RootAdded(m0: Memory, roots: Roots, free: set<nat>, src: nat, s: Sys, r: nat, copy: bool)
    requires WorldOk(m0, roots, free) && src in roots
    requires Building(m0, s, r, free, {}) && ClonedRoot(m0, src, s.mem, r, free, copy)
    ensures WorldOk(s.mem, roots[r := s.own], s.free) && Frames(roots[r := s.own], s.free) == Frames(roots, free)
    ensures r !in roots
  {
    hide ClonedRoot, Space, HugeUser;
    var all := Frames(roots, free);
    assert RootOk(m0, src, roots[src], free, all);
    FreeApart(m0, roots, free);
    FreshRoot(m0, roots, free, s, r);
    FramesKept(roots, free, r, s.own, s.free);
    CloneSealed(m0, src, roots[src], s.mem, r, s.own, free, all, copy);
    forall i: Idx ensures !Giant(s.mem, r, i) {
      GiantsFrom(m0, src, s.mem, r, free, copy, i);
    }
    forall t | t in roots ensures free !! roots[t].Keys {
      assert RootOk(m0, t, roots[t], free, all);
    }
    OtherRoots(m0, s.mem, roots, free, s.free, None, free);
  }

  /** A new root sits in a frame that was free. */
  lemma FreshRoot(m0: Memory, roots: Roots, free: set<nat>, s: Sys, r: nat)
    requires WorldOk(m0, roots, free) && Building(m0, s, r, free, {})
    ensures r in free && r !in roots
  {
    assert Live(s.mem, r, Root);
    if r in roots {
      assert RootOk(m0, r, roots[r], free, Frames(roots, free));
      assert Live(m0, r, Root);
    }
  }

  /** The attempt failed: only free frames have changed. */
  lemma NoneAdded(m0: Memory, mem: Memory, roots: Roots, free: set<nat>)
    requires WorldOk(m0, roots, free) && AgreeExcept(m0, mem, free)
    ensures WorldOk(mem, roots, free)
  {
    hide RootOk;
    FreeApart(m0, roots, free);
    forall t | t in roots ensures free !! roots[t].Keys {
      forall f | f in roots[t] ensures f !in free {
        InOwned(roots, f);
      }
    }
    OtherRoots(m0, mem, roots, free, free, None, free);
  }

  // ----- Changing a root -------------------------------------------------------------

  /** Root `r` went from `s` to `s'` within the frames it owned and those free; the others did not notice. */
  lemma RootChanged(roots: Roots, s: Sys, s': Sys, r: nat)
    requires WorldOk(s.mem, roots, s.free) && r in roots && roots[r] == s.own
    requires RootOk(s'.mem, r, s'.own, s'.free, Frames(roots, s.free)) && s'.free + s'.own.Keys == s.free + s.own.Keys
    requires KeepsData(s.mem, s'.mem, s.own, s.free)
    ensures WorldOk(s'.mem, roots[r := s'.own], s'.free) && Frames(roots[r := s'.own], s'.free) == Frames(roots, s.free)
  {
    hide Space, HugeUser, NoGiants;
    FreeApart(s.mem, roots, s.free);
    FramesKept(roots, s.free, r, s'.own, s'.free);
    var changed := s.free + s.own.Keys;
    forall f | f in changed ensures f in Frames(roots, s.free) {
      InOwned(roots, f);
    }
    forall t | t in roots && t != r ensures changed !! roots[t].Keys {
      assert RootOk(s.mem, t, roots[t], s.free, Frames(roots, s.free));
    }
    OtherRoots(s.mem, s'.mem, roots, s.free, s'.free, Some(r), changed);
  }

  lemma HandOut(mem: Memory, r: nat, own: map<nat, Node>, free: set<nat>, all: set<nat>, g: nat, p: Path)
    requires RootOk(mem, r, own, free, all) && g in free && UserPage(p)
    ensures Mappable(Sys(mem, own, free - {g}), r, all, p, g, PAGE_USER_RW)
  {
    hide Space, HugeUser;
  }

  /** A mapping attempt, the frame given back when it fails. */
  lemma MapRoot(s: Sys, s1: Sys, r: nat, all: set<nat>, p: Path, g: nat, ok: bool)
    requires RootOk(s.mem, r, s.own, s.free, all) && g in s.free
    requires MapStep(Sys(s.mem, s.own, s.free - {g}), s1, r, all, p, g, PAGE_USER_RW, ok)
    ensures var s' := if ok then s1 else s1.(free := s1.free + {g});
      && RootOk(s'.mem, r, s'.own, s'.free, all) && s'.free + s'.own.Keys == s.free + s.own.Keys
      && KeepsData(s.mem, s'.mem, s.own, s.free) && (!ok ==> g in all && g !in s1.free)
  {
    hide Space, HugeUser, Giant, KeepsData, MapStep, SameGiants;
    MapParts(Sys(s.mem, s.own, s.free - {g}), s1, r, all, p, g, ok);
    SameHugeless(s.mem, s1.mem, r);
    KeepsLess(s.mem, s1.mem, s.own, s.free - {g}, s.free);
    MapSets(s.free, s.own.Keys, s1.free, s1.own.Keys, g, ok);
  }

  lemma MapParts(s: Sys, s1: Sys, r: nat, all: set<nat>, p: Path, g: nat, ok: bool)
    requires MapStep(s, s1, r, all, p, g, PAGE_USER_RW, ok)
    ensures Ok(s1, r, all) && s1.free + s1.own.Keys == s.free + s.own.Keys + (if ok then {g} else {})
    ensures SameGiants(s.mem, s1.mem, r) && KeepsData(s.mem, s1.mem, s.own, s.free)
  {
    hide Ok, SameGiants, KeepsData, SameLookups, Lookup, Missing, IsScratch;
  }

  lemma SameHugeless(mem: Memory, mem': Memory, r: nat)
    requires SameGiants(mem, mem', r) && NoGiants(mem, r) && forall i: Idx, j: Idx :: !HugeUser(mem, r, i, j)
    ensures NoGiants(mem', r) && forall i: Idx, j: Idx :: !HugeUser(mem', r, i, j)
  {
    hide Giant, HugeUser;
  }

  lemma MapSets(free: set<nat>, own: set<nat>, free1: set<nat>, own1: set<nat>, g: nat, ok: bool)
    requires g in free && g !in own && free1 + own1 == free - {g} + own + (if ok then {g} else {})
    ensures (if ok then free1 else free1 + {g}) + own1 == free + own && (!ok ==> g !in free1 && g !in own1)
  {
    assert !ok ==> g !in free1 + own1;
  }

  lemma KeepsLess(mem: Memory, mem': Memory, own: map<nat, Node>, free: set<nat>, free': set<nat>)
    requires KeepsData(mem, mem', own, free) && free <= free'
    ensures KeepsData(mem, mem', own, free')
  {
  }

  /** An unmapping, the frame of a user page given back. */
  lemma UnmapRoot(s: Sys, s1: Sys, r: nat, all: set<nat>, p: Path, res: Option<Entry>)
    requires RootOk(s.mem, r, s.own, s.free, all) && UserPage(p) && UnmapStep(s, s1, r, all, p, res)
    requires res.Some? ==> Lookup(s.mem, r, p).Some? && Lookup(s.mem, r, p).value.flags.user
    ensures var s' := if res.Some? then s1.(free := s1.free + {res.value.frame}) else s1;
      && RootOk(s'.mem, r, s'.own, s'.free, all) && s'.free + s'.own.Keys == s.free + s.own.Keys
      && KeepsData(s.mem, s'.mem, s.own, s.free)
      && (res.Some? ==> res.value.frame in all && res.value.frame !in s1.free)
  {
    hide Space, Lookup, Giant, SameLookups, NoEmptyWalk, FreedOnWalk, AllZero;
    if res.Some? {
      OwnWithin(s, r, all);
      UserNotBig(s.mem, r, p);
      KeepsLess(s.mem, s1.mem, s.own, {}, s.free);
    } else {
      assert forall f: nat :: Get(s.mem, f) == Get(s.mem, f);
    }
  }

  lemma OwnWithin(s: Sys, r: nat, all: set<nat>)
    requires Ok(s, r, all)
    ensures s.own.Keys <= all
  {
  }

  lemma UserNotBig(mem: Memory, r: nat, p: Path)
    requires UserPage(p) && Lookup(mem, r, p).Some? && Lookup(mem, r, p).value.flags.user
    requires !Giant(mem, r, p.l3) && !HugeUser(mem, r, p.l3, p.l2)
    ensures !Big(mem, r, p)
  {
  }

  // ----- Destroying a root -----------------------------------------------------------

  lemma Disposable(mem: Memory, r: nat, own: map<nat, Node>, free: set<nat>, all: set<nat>, pmm: PmmAllocator)
    requires RootOk(mem, r, own, free, all) && pmm.Manages(all)
    ensures var h := Pml4Handle(r, true);
      Destroyable(mem, h, own, pmm, free) && TailSafe(mem, r, pmm) && Returned(mem, h, own, pmm) == own.Keys
  {
    assert DoneHuge(mem, r, true, pmm, 512, 0) == {};
    assert (set f | f in own && (own[f].Leaf? ==> true)) == own.Keys;
  }

  lemma RootGone(mem: Memory, roots: Roots, free: set<nat>, r: nat)
    requires WorldOk(mem, roots, free) && r in roots
    ensures WorldOk(mem, roots - {r}, free + roots[r].Keys)
    ensures Frames(roots - {r}, free + roots[r].Keys) == Frames(roots, free)
  {
    hide RootOk;
    var roots', free' := roots - {r}, free + roots[r].Keys;
    FreeApart(mem, roots, free);
    forall f ensures f in Frames(roots', free') <==> f in Frames(roots, free) {
      InOwned(roots, f);
      InOwned(roots', f);
      if t :| t in roots && f in roots[t] && t != r {
        assert t in roots' && f in roots'[t];
      }
    }
    assert Frames(roots', free') == Frames(roots, free);
    forall t | t in roots && t != r ensures free' !! roots[t].Keys {
      forall f | f in roots[t] ensures f !in free' {
        InOwned(roots, f);
      }
    }
    forall t | t in roots' ensures RootOk(mem, t, roots'[t], free', Frames(roots', free')) {
      assert AgreeExcept(mem, mem, {});
      OtherRoot(mem, mem, t, roots[t], free, free', Frames(roots, free), {});
    }
  }

  // ----- Any run ---------------------------------------------------------------------

  /** What happens to address spaces; a fork copies the active root. */
  datatype Op = Create | Fork | Map(root: nat, page: Path) | Unmap(page: Path) | Destroy(root: nat) | Switch(root: nat)

  /** Make a root from the active one; `roots` is unchanged when it is refused. */
  method Create(m: Machine, copyUser: bool, ghost roots: Roots) returns (res: Option<nat>, ghost roots': Roots)
    requires m.Valid() && WorldOk(m.mem, roots, m.pmm.Free()) && m.pmm.Manages(Frames(roots, m.pmm.Free()))
    requires m.cr3 in roots
    modifies m`mem, m.pmm
    ensures m.Valid() && m.pmm.Tail() == old(m.pmm.Tail()) && WorldOk(m.mem, roots', m.pmm.Free())
    ensures Frames(roots', m.pmm.Free()) == Frames(roots, old(m.pmm.Free()))
    ensures res.None? ==> roots' == roots && m.pmm.Free() == old(m.pmm.Free())
    ensures res.Some? ==> res.value !in roots && res.value in roots' && roots' == roots[res.value := roots'[res.value]]
    ensures res.Some? ==> ClonedRoot(old(m.mem), m.cr3, m.mem, res.value, old(m.pmm.Free()), copyUser)
  {
    hide WorldOk, Frames, Closed, ForkSource, Building, ClonedRoot, CreateRefused, Space, NoGiants;
    ghost var m0, free0 := m.mem, m.pmm.Free();
    SourceReady(m0, roots, free0, m.cr3);
    assert m.pmm.Manages(free0) by {
      FreeManaged(roots, free0);
    }
    var h, own := CreatePml4(m, copyUser, roots[m.cr3]);
    roots' := roots;
    if h.None? {
      NoneAdded(m0, m.mem, roots, free0);
      return None, roots;
    }
    RootAdded(m0, roots, free0, m.cr3, m.S(own), h.value.phys, copyUser);
    roots' := roots[h.value.phys := own];
    res := Some(h.value.phys);
  }

  lemma FreeManaged(roots: Roots, free: set<nat>)
    ensures free <= Frames(roots, free)
  {
  }

  lemma OneRoot(mem: Memory, roots: Roots, free: set<nat>, r: nat)
    requires WorldOk(mem, roots, free) && r in roots
    ensures RootOk(mem, r, roots[r], free, Frames(roots, free)) && !exists i: Idx :: Giant(mem, r, i)
  {
    assert RootOk(mem, r, roots[r], free, Frames(roots, free));
  }

  /** Back page `p` of root `r` with a fresh frame. */
  method MapPage(m: Machine, r: nat, p: Path, ghost roots: Roots) returns (ok: bool, ghost roots': Roots)
    requires m.Valid() && WorldOk(m.mem, roots, m.pmm.Free()) && m.pmm.Manages(Frames(roots, m.pmm.Free()))
    requires r in roots && UserPage(p)
    modifies m, m.pmm
    ensures m.Valid() && m.cr3 == old(m.cr3) && m.pmm.Tail() == old(m.pmm.Tail())
    ensures WorldOk(m.mem, roots', m.pmm.Free())
    ensures Frames(roots', m.pmm.Free()) == Frames(roots, old(m.pmm.Free())) && roots'.Keys == roots.Keys
    ensures forall t :: t in roots && t != r ==> roots'[t] == roots[t]
    ensures ok ==> Lookup(m.mem, r, p).Some? && Lookup(m.mem, r, p).value.frame in old(m.pmm.Free())
  {
    hide WorldOk, RootOk, Frames, Mappable, MapStep, Lookup, KeepsData;
    ghost var s, all := m.S(roots[r]), Frames(roots, m.pmm.Free());
    OneRoot(m.mem, roots, s.free, r);
    var page := m.pmm.Alloc();
    if page.None? {
      return false, roots;
    }
    HandOut(s.mem, r, s.own, s.free, all, page.value, p);
    ghost var own';
    ok, own' := m.TryMap4KTarget(p, page.value, PAGE_USER_RW, r, all, roots[r]);
    MapRoot(s, m.S(own'), r, all, p, page.value, ok);
    MapFound(Sys(s.mem, s.own, s.free - {page.value}), m.S(own'), r, all, p, page.value, ok);
    if !ok {
      m.Release(page.value, all);
    }
    RootChanged(roots, s, m.S(own'), r);
    roots' := roots[r := own'];
  }

  lemma MapFound(s: Sys, s': Sys, r: nat, all: set<nat>, p: Path, g: nat, ok: bool)
    requires MapStep(s, s', r, all, p, g, PAGE_USER_RW, ok)
    ensures ok ==> Lookup(s'.mem, r, p) == Some(Mapping(g, PAGE_USER_RW))
  {
  }

  /** Unmap page `p` of the active root and free its frame, if it is a user page. */
  method UnmapPage(m: Machine, p: Path, ghost roots: Roots) returns (ghost roots': Roots)
    requires m.Valid() && WorldOk(m.mem, roots, m.pmm.Free()) && m.pmm.Manages(Frames(roots, m.pmm.Free()))
    requires m.cr3 in roots && UserPage(p)
    modifies m`mem, m.pmm
    ensures m.Valid() && m.pmm.Tail() == old(m.pmm.Tail()) && WorldOk(m.mem, roots', m.pmm.Free())
    ensures Frames(roots', m.pmm.Free()) == Frames(roots, old(m.pmm.Free())) && roots'.Keys == roots.Keys
    ensures forall t :: t in roots && t != m.cr3 ==> roots'[t] == roots[t]
  {
    hide WorldOk, RootOk, Frames, UnmapStep, Lookup, KeepsData, Ok;
    var r := m.cr3;
    ghost var s, all := m.S(roots[r]), Frames(roots, m.pmm.Free());
    OneRoot(m.mem, roots, s.free, r);
    var found := Lookup(m.mem, r, p);
    if found.None? || !found.value.flags.user {
      return roots;
    }
    RootIsOk(s.mem, r, s.own, s.free, all);
    var entry;
    ghost var own';
    entry, own' := m.UnmapAndFreeEmpty(p, all, roots[r]);
    UnmapRoot(s, m.S(own'), r, all, p, entry);
    if entry.Some? {
      m.Release(entry.value.frame, all);
    }
    RootChanged(roots, s, m.S(own'), r);
    roots' := roots[r := own'];
  }

  lemma RootIsOk(mem: Memory, r: nat, own: map<nat, Node>, free: set<nat>, all: set<nat>)
    requires RootOk(mem, r, own, free, all)
    ensures Ok(Sys(mem, own, free), r, all)
  {
  }

  /** Destroy a root that is not active: all its frames are free again. */
  method Destroy(m: Machine, r: nat, ghost roots: Roots) returns (ghost roots': Roots)
    requires m.Valid() && WorldOk(m.mem, roots, m.pmm.Free()) && m.pmm.Manages(Frames(roots, m.pmm.Free()))
    requires r in roots
    modifies m.pmm
    ensures m.Valid() && m.pmm.Tail() == old(m.pmm.Tail()) && WorldOk(m.mem, roots', m.pmm.Free())
    ensures Frames(roots', m.pmm.Free()) == Frames(roots, old(m.pmm.Free()))
    ensures roots' == roots - {r} && m.pmm.Free() == old(m.pmm.Free()) + roots[r].Keys
  {
    hide WorldOk, RootOk, Frames, Destroyable, Returned, TailSafe;
    ghost var free0 := m.pmm.Free();
    OneRoot(m.mem, roots, free0, r);
    Disposable(m.mem, r, roots[r], free0, Frames(roots, free0), m.pmm);
    DestroyUncommittedPml4(m, Pml4Handle(r, true), roots[r]);
    RootGone(m.mem, roots, free0, r);
    roots' := roots - {r};
  }

  /**
    Any run. The roots' frames stay apart from each other and from the free ones, and together they are
    always the same frames: none is lost and none is handed out twice.
   */
  method Run(m: Machine, ops: seq<Op>, ghost roots: Roots) returns (ghost roots': Roots)
    requires m.Valid() && WorldOk(m.mem, roots, m.pmm.Free()) && m.pmm.Manages(Frames(roots, m.pmm.Free()))
    requires m.cr3 in roots
    modifies m, m.pmm
    ensures m.Valid() && WorldOk(m.mem, roots', m.pmm.Free()) && m.cr3 in roots'
    ensures Frames(roots', m.pmm.Free()) == Frames(roots, old(m.pmm.Free())) && m.pmm.Tail() == old(m.pmm.Tail())
  {
    hide WorldOk, Frames, ClonedRoot, Lookup;
    roots' := roots;
    // The roots as the kernel knows them, in its process table.
    var live := {m.cr3};
    var i := 0;
    while i < |ops|
      invariant 0 <= i <= |ops| && m.Valid() && WorldOk(m.mem, roots', m.pmm.Free()) && m.cr3 in live
      invariant live <= roots'.Keys
      invariant Frames(roots', m.pmm.Free()) == Frames(roots, old(m.pmm.Free())) && m.pmm.Tail() == old(m.pmm.Tail())
    {
      match ops[i] {
        case Create =>
          var r;
          r, roots' := Create(m, false, roots');
          live := if r.Some? then live + {r.value} else live;
        case Fork =>
          var r;
          r, roots' := Create(m, true, roots');
          live := if r.Some? then live + {r.value} else live;
        case Map(r, p) =>
          if r in live && UserPage(p) {
            var ok;
            ok, roots' := MapPage(m, r, p, roots');
          }
        case Unmap(p) =>
          if UserPage(p) {
            roots' := UnmapPage(m, p, roots');
          }
        case Destroy(r) =>
          if r in live && r != m.cr3 {
            roots' := Destroy(m, r, roots');
            live := live - {r};
          }
        case Switch(r) =>
          if r in live {
            m.cr3 := r;
          }
      }
      i := i + 1;
    }
  }

  /**
    In every such state two pages of live roots are backed by one frame only if they are the same page, and no
    page by a free frame.
   */
  lemma PagesApart(mem: Memory, roots: Roots, free: set<nat>, r: nat, p: Path, t: nat, q: Path)
    requires WorldOk(mem, roots, free) && r in roots && t in roots && UserPage(p) && UserPage(q)
    requires Lookup(mem, r, p).Some? && Lookup(mem, r, p).value.flags.user && Lookup(mem, t, q).Some?
    requires Lookup(mem, t, q).value.flags.user
    ensures Lookup(mem, r, p).value.frame == Lookup(mem, t, q).value.frame ==> r == t && p == q
    ensures Lookup(mem, r, p).value.frame !in free
  {
    hide Lookup;
    PageOwned(mem, roots, free, r, p);
    PageOwned(mem, roots, free, t, q);
  }

  lemma PageOwned(mem: Memory, roots: Roots, free: set<nat>, r: nat, p: Path)
    requires WorldOk(mem, roots, free) && r in roots && UserPage(p) && Lookup(mem, r, p).Some?
    requires Lookup(mem, r, p).value.flags.user
    ensures var f := Lookup(mem, r, p).value.frame; f in roots[r] && roots[r][f] == Leaf(p.l3, p.l2, p.l1) && f !in free
  {
    assert RootOk(mem, r, roots[r], free, Frames(roots, free));
    assert !HugeUser(mem, r, p.l3, p.l2) && !Giant(mem, r, p.l3);
    assert Live(mem, r, Leaf(p.l3, p.l2, p.l1));
  }
}
