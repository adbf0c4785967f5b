/**
  What loading pages into a root takes, and what taking them out again leaves. `b` is memory when
  loading begins and `ps` the index paths of the pages loaded so far.
 */
module Footprint {
  import opened Prelude
  import opened PageTables
  import opened Trees
  import opened Paging
  import opened Cloning

  /** Place `m` is on the way to one of the pages. */
  ghost predicate OnPaths(m: Node, ps: set<Path>) {
    exists p :: p in ps && m in PathNodes(p)
  }

  /** The places the pages need a frame for: their leaves, and the tables the root does not have yet. */
  ghost function Need(b: Memory, r: nat, ps: set<Path>): set<Node> {
    set p, m | p in ps && m in PathNodes(p) && !Live(b, r, m) :: m
  }

  lemma InNeed(b: Memory, r: nat, ps: set<Path>, m: Node)
    ensures m in Need(b, r, ps) <==> OnPaths(m, ps) && !Live(b, r, m)
  {
  }

  lemma NoRoot(m: Node, ps: set<Path>)
    requires OnPaths(m, ps)
    ensures !m.Root?
  {
  }

  // ----- While pages are added ------------------------------------------------------

  /** Place `m`, on the way to a page: it is in use now, and if anything was there before it was this table. */
  ghost predicate Filled(b: Memory, mem: Memory, r: nat, m: Node)
    requires !m.Root?
  {
    && Makes(m, SlotOf(mem, r, m)) && SlotOf(mem, r, m).flags.user
    && (SlotOf(b, r, m).flags.present ==> !m.Leaf? && Live(b, r, m) && SlotOf(mem, r, m).frame == SlotOf(b, r, m).frame)
  }

  /** The root is as at the beginning except that the pages and the tables on the way to them are there. */
  ghost predicate Grown(b: Memory, mem: Memory, r: nat, ps: set<Path>) {
    && (forall m: Node :: !m.Root? && !OnPaths(m, ps) ==> SlotOf(mem, r, m) == SlotOf(b, r, m))
    && (forall m: Node :: !m.Root? && OnPaths(m, ps) ==> Filled(b, mem, r, m))
  }

  lemma GrownStart(b: Memory, r: nat)
    ensures Grown(b, b, r, {})
  {
  }

  lemma GrownWrite(b: Memory, mem: Memory, mem': Memory, r: nat, ps: set<Path>)
    requires Grown(b, mem, r, ps) && SlotsExcept(mem, mem', r, {})
    ensures Grown(b, mem', r, ps)
  {
    hide SlotOf, OnPaths, Live;
    forall m: Node | !m.Root? ensures SlotOf(mem', r, m) == SlotOf(mem, r, m) {
    }
    forall m: Node | !m.Root? && OnPaths(m, ps) ensures Filled(b, mem', r, m) {
      assert Filled(b, mem, r, m);
    }
  }

  /** What is live is what was, and the places on the way to the pages. */
  lemma GrownLive(b: Memory, mem: Memory, r: nat, ps: set<Path>, m: Node)
    requires Grown(b, mem, r, ps) && !m.Root?
    ensures Live(mem, r, m) <==> Live(b, r, m) || OnPaths(m, ps)
    ensures Live(b, r, m) ==> FrameOf(mem, r, m) == FrameOf(b, r, m)
  {
    hide SlotOf, OnPaths, Live, FrameOf;
    LiveSlot(mem, r, m);
    LiveSlot(b, r, m);
    if OnPaths(m, ps) {
      assert Filled(b, mem, r, m);
    }
  }

  /** A mapped page leads to a leaf that is there. */
  lemma PageLeaf(mem: Memory, r: nat, p: Path)
    requires UserPage(p) && Makes(Leaf(p.l3, p.l2, p.l1), SlotOf(mem, r, Leaf(p.l3, p.l2, p.l1)))
    ensures Lookup(mem, r, p).Some?
  {
  }

  /** The leaf's place of an unmapped page holds no page. */
  lemma NoLeaf(mem: Memory, r: nat, p: Path)
    requires UserPage(p) && Lookup(mem, r, p) == None
    ensures !SlotOf(mem, r, Leaf(p.l3, p.l2, p.l1)).flags.present
  {
  }

  /** Only one page has a given leaf. */
  lemma OwnLeaf(p: Path, q: Path)
    requires UserPage(p) && UserPage(q) && Leaf(p.l3, p.l2, p.l1) in PathNodes(q)
    ensures p == q
  {
  }

  ghost predicate UserPages(ps: set<Path>) {
    forall p :: p in ps ==> UserPage(p)
  }

  /** A page that is not mapped has its leaf's place to itself. */
  lemma FreshLeaf(b: Memory, mem: Memory, r: nat, ps: set<Path>, p: Path)
    requires Grown(b, mem, r, ps) && UserPages(ps) && UserPage(p) && Lookup(mem, r, p) == None
    ensures !OnPaths(Leaf(p.l3, p.l2, p.l1), ps)
  {
    hide Lookup, SlotOf, PathNodes;
    var leaf := Leaf(p.l3, p.l2, p.l1);
    if OnPaths(leaf, ps) {
      var q :| q in ps && leaf in PathNodes(q);
      OwnLeaf(p, q);
      assert Filled(b, mem, r, leaf);
      PageLeaf(mem, r, p);
      assert false;
    }
  }

  lemma OnOneMore(m: Node, ps: set<Path>, p: Path)
    ensures OnPaths(m, ps + {p}) <==> OnPaths(m, ps) || m in PathNodes(p)
  {
    hide PathNodes;
    if OnPaths(m, ps) {
      var q :| q in ps && m in PathNodes(q);
      assert q in ps + {p};
    }
    assert p in ps + {p};
  }

  /** One more page. */
  lemma GrownMap(b: Memory, mem: Memory, mem': Memory, r: nat, ps: set<Path>, p: Path, x: Entry)
    requires Grown(b, mem, r, ps) && UserPages(ps) && UserPage(p) && Lookup(mem, r, p) == None
    requires MapSlots(mem, mem', r, p) && Mapped(mem', r, p, x) && x.flags.present && x.flags.user
    requires UserReaches(mem', r, p)
    ensures Grown(b, mem', r, ps + {p})
  {
    hide Lookup, SlotOf, OnPaths, Live, PathNodes, Mapped, UserReaches;
    FreshLeaf(b, mem, r, ps, p);
    NoLeaf(mem, r, p);
    forall m: Node | !m.Root? ensures
        if OnPaths(m, ps + {p}) then Filled(b, mem', r, m) else SlotOf(mem', r, m) == SlotOf(b, r, m) {
      OnOneMore(m, ps, p);
      if OnPaths(m, ps) {
        assert Filled(b, mem, r, m);
        if m in PathNodes(p) {
          assert Firm(m, SlotOf(mem, r, m), SlotOf(mem', r, m));
          LeafOnly(m, p);
        }
      } else if m in PathNodes(p) {
        PathFilled(mem', r, p, x, m);
        assert Firm(m, SlotOf(mem, r, m), SlotOf(mem', r, m));
        LeafOnly(m, p);
        LiveSlot(b, r, m);
      }
    }
  }

  lemma LeafOnly(m: Node, p: Path)
    requires m in PathNodes(p)
    ensures !m.Root? && (m.Leaf? ==> m == Leaf(p.l3, p.l2, p.l1))
  {
  }

  lemma PathFilled(mem: Memory, r: nat, p: Path, x: Entry, m: Node)
    requires Mapped(mem, r, p, x) && x.flags.present && x.flags.user && m in PathNodes(p)
    requires UserReaches(mem, r, p) && p.l4 == 0
    ensures !m.Root? && Makes(m, SlotOf(mem, r, m)) && SlotOf(mem, r, m).flags.user
  {
    LiveSlot(mem, r, m);
  }

  /** Programs reach every page that was added. */
  lemma GrownReaches(b: Memory, mem: Memory, r: nat, ps: set<Path>, p: Path)
    requires Grown(b, mem, r, ps) && p in ps && UserPage(p)
    ensures UserReaches(mem, r, p)
  {
    hide SlotOf, Live;
    forall m: Node | m in PathNodes(p) ensures !m.Root? && ForUsers(SlotOf(mem, r, m)) && Makes(m, SlotOf(mem, r, m)) {
      assert OnPaths(m, ps);
      assert Filled(b, mem, r, m);
    }
    AllForUsers(mem, r, p);
  }

  lemma AllForUsers(mem: Memory, r: nat, p: Path)
    requires UserPage(p) && forall m: Node :: m in PathNodes(p) ==> !m.Root? && ForUsers(SlotOf(mem, r, m))
    requires Makes(Pd(p.l3), SlotOf(mem, r, Pd(p.l3)))
    ensures UserReaches(mem, r, p)
  {
    assert Pdpt in PathNodes(p) && Pd(p.l3) in PathNodes(p) && Pt(p.l3, p.l2) in PathNodes(p);
    assert Leaf(p.l3, p.l2, p.l1) in PathNodes(p);
  }

  // ----- Counting frames ------------------------------------------------------------

  /** Ownership grows by exactly the places needed. */
  lemma GrownOwn(b: Memory, mem: Memory, r: nat, ps: set<Path>, own0: map<nat, Node>, own: map<nat, Node>)
    requires Grown(b, mem, r, ps) && WellFormed(b, r, own0) && WellFormed(mem, r, own)
    ensures forall f :: f in own0 ==> f in own && own[f] == own0[f]
    ensures |own| == |own0| + |Need(b, r, ps)|
  {
    hide Grown, Need, OnPaths, Live, FrameOf;
    forall f | f in own0 ensures f in own && own[f] == own0[f] {
      if own0[f].Root? {
        RootOwned(b, r, own0, f);
        RootOwned(mem, r, own, f);
      } else {
        GrownLive(b, mem, r, ps, own0[f]);
      }
    }
    forall n ensures n in own.Values <==> n in own0.Values + Need(b, r, ps) {
      Owned(b, r, own0, n);
      Owned(mem, r, own, n);
      InNeed(b, r, ps, n);
      if n.Root? {
        RootLive(b, r);
        RootLive(mem, r);
      } else {
        GrownLive(b, mem, r, ps, n);
      }
    }
    assert own.Values == own0.Values + Need(b, r, ps);
    forall n | n in own0.Values ensures n !in Need(b, r, ps) {
      Owned(b, r, own0, n);
      InNeed(b, r, ps, n);
    }
    NodesOwned(own0);
    NodesOwned(own);
  }

  lemma RootLive(mem: Memory, r: nat)
    ensures Live(mem, r, Root) && FrameOf(mem, r, Root) == r
  {
  }

  lemma RootOwned(mem: Memory, r: nat, own: map<nat, Node>, f: nat)
    requires WellFormed(mem, r, own)
    ensures r in own && own[r] == Root && (f in own && own[f] == Root ==> f == r)
  {
    assert Live(mem, r, Root);
  }

  /** The nodes an exact ownership map names are the live ones. */
  lemma Owned(mem: Memory, r: nat, own: map<nat, Node>, n: Node)
    requires WellFormed(mem, r, own)
    ensures n in own.Values <==> Live(mem, r, n)
  {
    if Live(mem, r, n) {
      assert own[FrameOf(mem, r, n)] == n;
    }
  }

  /** Exact ownership: the frame of a node is owned exactly when it is that of a live node. */
  lemma OwnedFrame(mem: Memory, r: nat, own: map<nat, Node>, n: Node)
    requires WellFormed(mem, r, own) && Live(mem, r, n)
    ensures FrameOf(mem, r, n) in own && own[FrameOf(mem, r, n)] == n
  {
  }

  /** So many frames are left. */
  lemma FramesLeft(b: Memory, mem: Memory, r: nat, ps: set<Path>, own0: map<nat, Node>, own: map<nat, Node>,
                   free0: set<nat>, free: set<nat>)
    requires Grown(b, mem, r, ps) && WellFormed(b, r, own0) && WellFormed(mem, r, own)
    requires free0 + own0.Keys == free + own.Keys && free0 !! own0.Keys && free !! own.Keys
    ensures free <= free0 && |free| == |free0| - |Need(b, r, ps)|
  {
    hide Grown, Need, WellFormed;
    GrownOwn(b, mem, r, ps, own0, own);
    assert |free0 + own0.Keys| == |free0| + |own0.Keys| && |free + own.Keys| == |free| + |own.Keys|;
  }

  /** The places of `p` that are still missing. */
  ghost function Absent(mem: Memory, r: nat, p: Path): set<Node> {
    set m | m in PathNodes(p) && !Live(mem, r, m)
  }

  lemma AbsentCount(mem: Memory, r: nat, p: Path)
    requires UserPage(p) && Lookup(mem, r, p) == None && !Giant(mem, r, p.l3)
    ensures |Absent(mem, r, p)| == 1 + Missing(mem, r, p)
  {
    var pd, pt, leaf := Pd(p.l3), Pt(p.l3, p.l2), Leaf(p.l3, p.l2, p.l1);
    if !LivePdpt(mem, r) {
      assert Absent(mem, r, p) == {Pdpt, pd, pt, leaf};
    } else if !PdptEntry(mem, r, p.l3).flags.present {
      assert Absent(mem, r, p) == {pd, pt, leaf};
    } else if !PdEntry(mem, r, p.l3, p.l2).flags.present {
      assert Absent(mem, r, p) == {pt, leaf};
    } else {
      assert Absent(mem, r, p) == {leaf};
    }
  }

  /** One more page needs its leaf and the tables missing now. */
  lemma NeedMore(b: Memory, mem: Memory, r: nat, ps: set<Path>, p: Path)
    requires Grown(b, mem, r, ps) && UserPage(p) && Lookup(mem, r, p) == None && !Giant(mem, r, p.l3)
    ensures |Need(b, r, ps + {p})| == |Need(b, r, ps)| + 1 + Missing(mem, r, p)
  {
    hide Grown, Need, OnPaths, Live, PathNodes, Lookup, Missing, Giant;
    AbsentCount(mem, r, p);
    forall m ensures m in Need(b, r, ps + {p}) <==> m in Need(b, r, ps) + Absent(mem, r, p) {
      InNeed(b, r, ps + {p}, m);
      InNeed(b, r, ps, m);
      OnOneMore(m, ps, p);
      if m.Root? {
        RootLive(b, r);
        RootLive(mem, r);
      } else {
        GrownLive(b, mem, r, ps, m);
      }
    }
    assert Need(b, r, ps + {p}) == Need(b, r, ps) + Absent(mem, r, p);
    forall m | m in Need(b, r, ps) ensures m !in Absent(mem, r, p) {
      InNeed(b, r, ps, m);
      NoRoot(m, ps);
      GrownLive(b, mem, r, ps, m);
    }
  }

  // ----- While pages are taken out ----------------------------------------------------

  /** The pages are all there. */
  ghost predicate Rooted(t: Memory, r: nat, ps: set<Path>) {
    forall m: Node :: !m.Root? && OnPaths(m, ps) ==> Makes(m, SlotOf(t, r, m))
  }

  lemma MakesThere(t: Memory, r: nat, ps: set<Path>, m: Node)
    requires Rooted(t, r, ps) && OnPaths(m, ps) && !m.Root?
    ensures Makes(m, SlotOf(t, r, m))
  {
  }

  /** Place `m`, on the way to pages taken out again: the table is gone exactly when there is nothing in it. */
  ghost predicate Swept(t: Memory, mem: Memory, r: nat, m: Node)
    requires !m.Root?
  {
    if m.Leaf? || Vacant(mem, r, m) then SlotOf(mem, r, m) == ZERO_ENTRY else SlotOf(mem, r, m) == SlotOf(t, r, m)
  }

  /** From `t`, of the pages `ps` all but `qs` have been taken out. */
  ghost predicate Undone(t: Memory, mem: Memory, r: nat, ps: set<Path>, qs: set<Path>) {
    && qs <= ps
    && (forall m: Node :: !m.Root? && (!OnPaths(m, ps) || OnPaths(m, qs)) ==> SlotOf(mem, r, m) == SlotOf(t, r, m))
    && (forall m: Node :: !m.Root? && OnPaths(m, ps) && !OnPaths(m, qs) ==> Swept(t, mem, r, m))
  }

  lemma UndoneStart(t: Memory, r: nat, ps: set<Path>)
    ensures Undone(t, t, r, ps, ps)
  {
  }

  lemma OnFewer(m: Node, qs: set<Path>, p: Path)
    requires p in qs
    ensures OnPaths(m, qs) <==> OnPaths(m, qs - {p}) || m in PathNodes(p)
  {
    assert qs == (qs - {p}) + {p};
    OnOneMore(m, qs - {p}, p);
  }

  lemma OnMore(m: Node, qs: set<Path>, ps: set<Path>)
    requires qs <= ps && OnPaths(m, qs)
    ensures OnPaths(m, ps)
  {
    var q :| q in qs && m in PathNodes(q);
    assert q in ps;
  }

  /** A page not taken out yet is all there. */
  lemma StillThere(t: Memory, mem: Memory, r: nat, ps: set<Path>, qs: set<Path>, q: Path, m: Node)
    requires Undone(t, mem, r, ps, qs) && Rooted(t, r, ps) && q in qs && m in PathNodes(q)
    ensures !m.Root? && SlotOf(mem, r, m) == SlotOf(t, r, m) != ZERO_ENTRY
  {
    hide SlotOf, PathNodes, Swept;
    OnMore(m, qs, ps);
    LeafOnly(m, q);
    assert OnPaths(m, qs);
    assert Makes(m, SlotOf(t, r, m));
  }

  /** Taking one page out leaves the whole way to another. */
  lemma OtherKept(mem: Memory, mem': Memory, r: nat, p: Path, q: Path, m: Node)
    requires UnmapSlots(mem, mem', r, p) && UserPage(p) && UserPage(q) && p != q && m in PathNodes(q)
    requires forall n: Node :: n in PathNodes(q) ==> !n.Root? && SlotOf(mem, r, n) != ZERO_ENTRY
    ensures !m.Root? && SlotOf(mem', r, m) == SlotOf(mem, r, m)
  {
    hide SlotOf, UnmapSlots;
    var leaf, pt, pd := Leaf(q.l3, q.l2, q.l1), Pt(q.l3, q.l2), Pd(q.l3);
    OffPath(mem, mem', r, p, leaf);
    Holds(mem, mem', r, p, pt, leaf);
    Holds(mem, mem', r, p, pd, pt);
    Holds(mem, mem', r, p, Pdpt, pd);
  }

  /** A table with something in it is not dropped. */
  lemma Holds(mem: Memory, mem': Memory, r: nat, p: Path, m: Node, c: Node)
    requires UnmapSlots(mem, mem', r, p) && IsChild(c, m) && !m.Leaf? && !m.Root? && !c.Root?
    requires SlotOf(mem', r, c) != ZERO_ENTRY
    ensures SlotOf(mem', r, m) == SlotOf(mem, r, m)
  {
    if m in PathNodes(p) {
      assert Dropped(mem, mem', r, m);
    }
  }

  /** One page less. */
  lemma UndoneStep(t: Memory, mem: Memory, mem': Memory, r: nat, ps: set<Path>, qs: set<Path>, p: Path)
    requires Undone(t, mem, r, ps, qs) && Rooted(t, r, ps) && UserPages(ps) && p in qs
    requires UnmapSlots(mem, mem', r, p) && NoEmptyWalk(mem', r, p)
    ensures Undone(t, mem', r, ps, qs - {p})
  {
    hide SlotOf, OnPaths, PathNodes, UnmapSlots, Swept, NoEmptyWalk, Rooted, IsChild;
    var qs' := qs - {p};
    forall m: Node | !m.Root? && (!OnPaths(m, ps) || OnPaths(m, qs')) ensures SlotOf(mem', r, m) == SlotOf(t, r, m) {
      OnFewer(m, qs, p);
      if OnPaths(m, qs') {
        KeptOnOther(t, mem, mem', r, ps, qs, p, m);
      } else {
        if m in PathNodes(p) {
          OnMore(m, qs, ps);
          assert false;
        }
        OffPath(mem, mem', r, p, m);
      }
    }
    forall m: Node | !m.Root? && OnPaths(m, ps) && !OnPaths(m, qs') ensures Swept(t, mem', r, m) {
      OnFewer(m, qs, p);
      if m in PathNodes(p) {
        StillThere(t, mem, r, ps, qs, p, m);
        MakesThere(t, r, ps, m);
        SweptNow(t, mem, mem', r, p, m);
      } else {
        SweptBefore(t, mem, mem', r, p, m);
      }
    }
  }

  lemma KeptOnOther(t: Memory, mem: Memory, mem': Memory, r: nat, ps: set<Path>, qs: set<Path>, p: Path, m: Node)
    requires Undone(t, mem, r, ps, qs) && Rooted(t, r, ps) && UserPages(ps) && p in qs && UnmapSlots(mem, mem', r, p)
    requires !m.Root? && OnPaths(m, qs - {p})
    ensures SlotOf(mem', r, m) == SlotOf(t, r, m)
  {
    hide SlotOf, PathNodes, UnmapSlots, Swept, Rooted;
    var q :| q in qs - {p} && m in PathNodes(q);
    forall n: Node | n in PathNodes(q) ensures !n.Root? && SlotOf(mem, r, n) == SlotOf(t, r, n) != ZERO_ENTRY {
      StillThere(t, mem, r, ps, qs, q, n);
    }
    OtherKept(mem, mem', r, p, q, m);
  }

  lemma OffPath(mem: Memory, mem': Memory, r: nat, p: Path, m: Node)
    requires UnmapSlots(mem, mem', r, p) && !m.Root? && m !in PathNodes(p)
    ensures SlotOf(mem', r, m) == SlotOf(mem, r, m)
  {
  }

  /** A table of the page just taken out. */
  lemma SweptNow(t: Memory, mem: Memory, mem': Memory, r: nat, p: Path, m: Node)
    requires UnmapSlots(mem, mem', r, p) && NoEmptyWalk(mem', r, p) && m in PathNodes(p) && !m.Root?
    requires SlotOf(mem, r, m) == SlotOf(t, r, m) && Makes(m, SlotOf(t, r, m))
    ensures Swept(t, mem', r, m)
  {
    hide SlotOf, IsChild;
    if !m.Leaf? {
      assert Dropped(mem, mem', r, m);
      LiveSlot(mem', r, m);
      if Live(mem', r, m) {
        VacantTable(mem', r, m);
        assert OnWalk(m, p);
      }
    }
  }

  /** Nothing in another table has changed. */
  lemma SweptBefore(t: Memory, mem: Memory, mem': Memory, r: nat, p: Path, m: Node)
    requires UnmapSlots(mem, mem', r, p) && m !in PathNodes(p) && !m.Root? && Swept(t, mem, r, m)
    ensures Swept(t, mem', r, m)
  {
    forall c: Node | IsChild(c, m) && !c.Root? ensures SlotOf(mem', r, c) == SlotOf(mem, r, c) {
      assert c !in PathNodes(p);
    }
  }

  // ----- What is left --------------------------------------------------------------

  /** The table of `m` held something before the pages came that they did not replace. */
  ghost predicate Anchored(b: Memory, r: nat, ps: set<Path>, m: Node) {
    exists c: Node :: IsChild(c, m) && !c.Root? && SlotOf(b, r, c) != ZERO_ENTRY
                      && (SlotOf(b, r, c).flags.present || !OnPaths(c, ps))
  }

  /** Every table on the way to the pages that was there before held something else. */
  ghost predicate NothingDropped(b: Memory, r: nat, ps: set<Path>) {
    forall m: Node :: !m.Root? && !m.Leaf? && OnPaths(m, ps) && Live(b, r, m) ==> Anchored(b, r, ps, m)
  }

  /** Every table of the root has a present entry. */
  ghost predicate Stocked(b: Memory, r: nat) {
    forall m: Node :: !m.Root? && !m.Leaf? && Live(b, r, m) ==>
      exists c: Node :: IsChild(c, m) && !c.Root? && SlotOf(b, r, c).flags.present
  }

  lemma StockedKeeps(b: Memory, r: nat, ps: set<Path>)
    requires Stocked(b, r)
    ensures NothingDropped(b, r, ps)
  {
    hide SlotOf, Live, IsChild, OnPaths;
    forall m: Node | !m.Root? && !m.Leaf? && OnPaths(m, ps) && Live(b, r, m) ensures Anchored(b, r, ps, m) {
      var c: Node :| IsChild(c, m) && !c.Root? && SlotOf(b, r, c).flags.present;
      assert SlotOf(b, r, c) != ZERO_ENTRY;
    }
  }

  /** Adding the pages and taking them all out again: place `m` is as before, or a table that has gone. */
  lemma BackAt(b: Memory, t: Memory, mem: Memory, r: nat, ps: set<Path>, m: Node)
    requires Grown(b, t, r, ps) && Undone(t, mem, r, ps, {}) && !m.Root?
    ensures Live(mem, r, m) ==> Live(b, r, m) || (OnPaths(m, ps) && !m.Leaf? && !Vacant(mem, r, m))
    ensures Live(mem, r, m) && Live(b, r, m) ==> FrameOf(mem, r, m) == FrameOf(b, r, m)
    ensures Live(b, r, m) && !Live(mem, r, m) ==> OnPaths(m, ps) && !m.Leaf? && Vacant(mem, r, m)
  {
    hide SlotOf, OnPaths, Live, FrameOf, Vacant;
    LiveSlot(b, r, m);
    LiveSlot(mem, r, m);
    NoneOn(m);
    if OnPaths(m, ps) {
      assert Filled(b, t, r, m) && Swept(t, mem, r, m);
    }
  }

  lemma NoneOn(m: Node)
    ensures !OnPaths(m, {})
  {
  }

  /** A table that is not vacant at the end has a place in use at the end. */
  lemma InUse(t: Memory, mem: Memory, r: nat, ps: set<Path>, m: Node) returns (c: Node)
    requires Undone(t, mem, r, ps, {}) && !m.Root? && !m.Leaf? && !Vacant(mem, r, m)
    ensures IsChild(c, m) && !c.Root? && SlotOf(mem, r, c) == SlotOf(t, r, c) != ZERO_ENTRY
    ensures OnPaths(c, ps) ==> !c.Leaf? && !Vacant(mem, r, c)
  {
    hide SlotOf, OnPaths;
    c :| IsChild(c, m) && !c.Root? && SlotOf(mem, r, c) != ZERO_ENTRY;
    NoneOn(c);
    if OnPaths(c, ps) {
      assert Swept(t, mem, r, c);
    }
  }

  /** Such a table was there before. */
  lemma UsedBefore(b: Memory, t: Memory, mem: Memory, r: nat, ps: set<Path>, m: Node)
    requires Grown(b, t, r, ps) && Undone(t, mem, r, ps, {}) && !m.Root? && !m.Leaf? && OnPaths(m, ps)
    requires !Vacant(mem, r, m)
    ensures Live(b, r, m) && Anchored(b, r, ps, m)
    decreases Depth(m)
  {
    hide SlotOf, OnPaths, Live, Vacant, Undone;
    var c := InUse(t, mem, r, ps, m);
    if OnPaths(c, ps) {
      UsedBefore(b, t, mem, r, ps, c);
      LiveSlot(b, r, c);
    }
    HolderLive(b, r, c, m);
  }

  /** How many levels lie below. */
  function Depth(m: Node): nat {
    match m
    case Root => 4
    case Pdpt => 3
    case Pd(_) => 2
    case Pt(_, _) => 1
    case Leaf(_, _, _) => 0
  }

  /** Only a live table has places that hold something. */
  lemma HolderLive(b: Memory, r: nat, c: Node, m: Node)
    requires IsChild(c, m) && !c.Root? && !m.Root? && SlotOf(b, r, c) != ZERO_ENTRY
    ensures Live(b, r, m)
  {
  }

  /** A table that held something of its own is still there. */
  lemma StillUsed(b: Memory, t: Memory, mem: Memory, r: nat, ps: set<Path>, m: Node)
    requires Grown(b, t, r, ps) && Undone(t, mem, r, ps, {}) && NothingDropped(b, r, ps)
    requires !m.Root? && !m.Leaf? && OnPaths(m, ps) && Live(b, r, m)
    ensures !Vacant(mem, r, m)
    decreases Depth(m)
  {
    hide SlotOf, OnPaths, Live, Undone;
    assert Anchored(b, r, ps, m);
    var c: Node :| IsChild(c, m) && !c.Root? && SlotOf(b, r, c) != ZERO_ENTRY
                   && (SlotOf(b, r, c).flags.present || !OnPaths(c, ps));
    if OnPaths(c, ps) {
      assert Filled(b, t, r, c);
      StillUsed(b, t, mem, r, ps, c);
      SweptThere(t, mem, r, ps, c);
    } else {
      KeptAway(t, mem, r, ps, c);
    }
  }

  lemma SweptThere(t: Memory, mem: Memory, r: nat, ps: set<Path>, c: Node)
    requires Undone(t, mem, r, ps, {}) && !c.Root? && !c.Leaf? && OnPaths(c, ps) && !Vacant(mem, r, c)
    ensures SlotOf(mem, r, c) == SlotOf(t, r, c)
  {
    hide SlotOf, OnPaths, Vacant;
    NoneOn(c);
    assert Swept(t, mem, r, c);
  }

  lemma KeptAway(t: Memory, mem: Memory, r: nat, ps: set<Path>, c: Node)
    requires Undone(t, mem, r, ps, {}) && !c.Root? && !OnPaths(c, ps)
    ensures SlotOf(mem, r, c) == SlotOf(t, r, c)
  {
    hide SlotOf, OnPaths, Swept;
  }

  /** Exactly then is the same live as before, in the same frames. */
  lemma SameTree(b: Memory, t: Memory, mem: Memory, r: nat, ps: set<Path>)
    requires Grown(b, t, r, ps) && Undone(t, mem, r, ps, {})
    ensures (forall m: Node :: !m.Root? ==> (Live(mem, r, m) <==> Live(b, r, m))) <==> NothingDropped(b, r, ps)
    ensures forall m: Node :: !m.Root? && Live(mem, r, m) ==> Live(b, r, m) && FrameOf(mem, r, m) == FrameOf(b, r, m)
  {
    hide SlotOf, OnPaths, Live, FrameOf, Vacant, Undone, Grown, Anchored;
    forall m: Node | !m.Root? && Live(mem, r, m) ensures Live(b, r, m) && FrameOf(mem, r, m) == FrameOf(b, r, m) {
      BackAt(b, t, mem, r, ps, m);
      if OnPaths(m, ps) && !m.Leaf? && !Vacant(mem, r, m) {
        UsedBefore(b, t, mem, r, ps, m);
      }
    }
    if NothingDropped(b, r, ps) {
      forall m: Node | !m.Root? && Live(b, r, m) ensures Live(mem, r, m) {
        BackAt(b, t, mem, r, ps, m);
        if !Live(mem, r, m) {
          StillUsed(b, t, mem, r, ps, m);
          assert false;
        }
      }
    }
    if forall m: Node :: !m.Root? ==> (Live(mem, r, m) <==> Live(b, r, m)) {
      forall m: Node | !m.Root? && !m.Leaf? && OnPaths(m, ps) && Live(b, r, m) ensures Anchored(b, r, ps, m) {
        assert Live(mem, r, m);
        LiveSwept(t, mem, r, ps, m);
        UsedBefore(b, t, mem, r, ps, m);
      }
    }
  }

  lemma LiveSwept(t: Memory, mem: Memory, r: nat, ps: set<Path>, m: Node)
    requires Undone(t, mem, r, ps, {}) && !m.Root? && !m.Leaf? && OnPaths(m, ps) && Live(mem, r, m)
    ensures !Vacant(mem, r, m)
  {
    hide SlotOf, OnPaths, Vacant;
    LiveSlot(mem, r, m);
    NoneOn(m);
    assert Swept(t, mem, r, m);
  }

  // ----- Free frames -----------------------------------------------------------------

  /** Exact ownership: the frames not free are those of the live places. */
  ghost predicate Books(s: Sys, r: nat, pool: set<nat>) {
    WellFormed(s.mem, r, s.own) && s.free !! s.own.Keys && s.free + s.own.Keys == pool
  }

  /** Taking all pages out again restores the free frames exactly when no table is dropped with them. */
  lemma FreeAgain(s0: Sys, t: Memory, s: Sys, r: nat, pool: set<nat>, ps: set<Path>)
    requires Books(s0, r, pool) && Books(s, r, pool) && Grown(s0.mem, t, r, ps) && Undone(t, s.mem, r, ps, {})
    ensures s.free == s0.free <==> NothingDropped(s0.mem, r, ps)
  {
    hide Grown, Undone, NothingDropped, Live, FrameOf;
    SameTree(s0.mem, t, s.mem, r, ps);
    assert s.free == s0.free <==> s.own.Keys == s0.own.Keys;
    forall f | f in s.own ensures f in s0.own && s0.own[f] == s.own[f] {
      if s.own[f].Root? {
        RootOwned(s.mem, r, s.own, f);
        RootOwned(s0.mem, r, s0.own, f);
      }
    }
    if s.own.Keys == s0.own.Keys {
      forall m: Node | !m.Root? ensures Live(s.mem, r, m) <==> Live(s0.mem, r, m) {
        Owned(s.mem, r, s.own, m);
        Owned(s0.mem, r, s0.own, m);
        if m in s0.own.Values {
          var f :| f in s0.own && s0.own[f] == m;
          assert f in s.own && s.own[f] == m;
        }
      }
    }
    if NothingDropped(s0.mem, r, ps) {
      forall f | f in s0.own ensures f in s.own {
        if s0.own[f].Root? {
          RootOwned(s.mem, r, s.own, f);
          RootOwned(s0.mem, r, s0.own, f);
        } else {
          assert Live(s0.mem, r, s0.own[f]) && FrameOf(s0.mem, r, s0.own[f]) == f;
          assert Live(s.mem, r, s0.own[f]);
        }
      }
    }
  }

  /** A frame that was free holds a table away from the pages. */
  ghost predicate Leaked(s0: Sys, t: Memory, r: nat, ps: set<Path>) {
    exists m: Node :: !m.Root? && !OnPaths(m, ps) && Live(t, r, m) && FrameOf(t, r, m) in s0.free
  }

  /** Taking the pages out does not bring it back. */
  lemma LeakStays(s0: Sys, t: Memory, s: Sys, r: nat, pool: set<nat>, ps: set<Path>)
    requires Books(s, r, pool) && Leaked(s0, t, r, ps) && Undone(t, s.mem, r, ps, {})
    ensures s.free != s0.free
  {
    hide OnPaths, Live, FrameOf, SlotOf, Undone;
    var m: Node :| !m.Root? && !OnPaths(m, ps) && Live(t, r, m) && FrameOf(t, r, m) in s0.free;
    KeptAway(t, s.mem, r, ps, m);
    LiveSlot(t, r, m);
    LiveSlot(s.mem, r, m);
    OwnedFrame(s.mem, r, s.own, m);
  }

  /** A failed attempt to map `p` that took a frame for a table. */
  lemma AttemptLeaks(s0: Sys, s: Sys, t: Sys, r: nat, pool: set<nat>, ps: set<Path>, p: Path, f: nat)
    requires Books(s, r, pool) && Books(t, r, pool) && Grown(s0.mem, s.mem, r, ps) && MapSlots(s.mem, t.mem, r, p)
    requires s.free <= s0.free && f in t.own && f !in s.own
    ensures Leaked(s0, t.mem, r, ps)
  {
    hide OnPaths, Live, FrameOf, SlotOf, PathNodes;
    var m := t.own[f];
    assert f in s.free;
    if m.Root? {
      RootOwned(t.mem, r, t.own, f);
      RootOwned(s.mem, r, s.own, f);
      assert false;
    }
    if OnPaths(m, ps) {
      assert Filled(s0.mem, s.mem, r, m);
      LiveSlot(s.mem, r, m);
      LiveSlot(t.mem, r, m);
      FirmAt(s.mem, t.mem, r, p, m);
      OwnedFrame(s.mem, r, s.own, m);
      assert false;
    }
  }

  lemma FirmAt(mem: Memory, mem': Memory, r: nat, p: Path, m: Node)
    requires MapSlots(mem, mem', r, p) && !m.Root? && SlotOf(mem, r, m).flags.present
    ensures SlotOf(mem', r, m).frame == SlotOf(mem, r, m).frame
  {
    hide SlotOf, PathNodes;
    if m in PathNodes(p) {
      assert Firm(m, SlotOf(mem, r, m), SlotOf(mem', r, m));
    }
  }

  /** A failed attempt leaves the pages there. */
  lemma RootedAfter(b: Memory, mem: Memory, t: Memory, r: nat, ps: set<Path>, p: Path)
    requires Grown(b, mem, r, ps) && UserPages(ps) && UserPage(p) && Lookup(mem, r, p) == None
    requires MapSlots(mem, t, r, p)
    ensures Rooted(t, r, ps)
  {
    hide Lookup, SlotOf, OnPaths, Live, PathNodes;
    FreshLeaf(b, mem, r, ps, p);
    forall m: Node | !m.Root? && OnPaths(m, ps) ensures Makes(m, SlotOf(t, r, m)) {
      assert Filled(b, mem, r, m);
      if m in PathNodes(p) {
        assert Firm(m, SlotOf(mem, r, m), SlotOf(t, r, m));
        LeafOnly(m, p);
      }
    }
  }

  lemma RootedNow(b: Memory, mem: Memory, r: nat, ps: set<Path>)
    requires Grown(b, mem, r, ps)
    ensures Rooted(mem, r, ps)
  {
    hide SlotOf, OnPaths, Live;
    forall m: Node | !m.Root? && OnPaths(m, ps) ensures Makes(m, SlotOf(mem, r, m)) {
      assert Filled(b, mem, r, m);
    }
  }
}
