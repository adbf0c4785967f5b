/**
  The tables and leaves a root owns as one function from places to entries, and how mapping and
  unmapping change it.
 */
module Trees {
  import opened Prelude
  import opened PageTables

  /** The entry for node `m`; zero while there is no table to hold one. */
  function SlotOf(mem: Memory, r: nat, m: Node): Entry
    requires !m.Root?
  {
    if Reached(mem, r, m) then EntryOf(mem, r, m) else ZERO_ENTRY
  }

  /** The slots determine what is live, and where. */
  lemma LiveSlot(mem: Memory, r: nat, m: Node)
    requires !m.Root?
    ensures Live(mem, r, m) <==> Makes(m, SlotOf(mem, r, m))
    ensures Live(mem, r, m) ==> FrameOf(mem, r, m) == SlotOf(mem, r, m).frame
  {
  }

  /** The places on the way to the leaf of `p`, and the leaf. */
  function PathNodes(p: Path): set<Node> {
    {Pdpt, Pd(p.l3), Pt(p.l3, p.l2), Leaf(p.l3, p.l2, p.l1)}
  }

  /** `c` is a place in the table of `m`. */
  predicate IsChild(c: Node, m: Node) {
    match m
    case Root => c.Pdpt?
    case Pdpt => c.Pd?
    case Pd(i) => c.Pt? && c.i == i
    case Pt(i, j) => c.Leaf? && c.i == i && c.j == j
    case Leaf(_, _, _) => false
  }

  ghost predicate SlotsExcept(mem: Memory, mem': Memory, r: nat, ms: set<Node>) {
    forall m: Node :: !m.Root? && m !in ms ==> SlotOf(mem', r, m) == SlotOf(mem, r, m)
  }

  /** No place in the table of `m` holds anything. */
  ghost predicate Vacant(mem: Memory, r: nat, m: Node) {
    forall c: Node :: IsChild(c, m) && !c.Root? ==> SlotOf(mem, r, c) == ZERO_ENTRY
  }

  lemma SlotsSame(mem: Memory, mem': Memory, r: nat)
    requires forall m: Node :: SameNode(mem, mem', r, m)
    ensures SlotsExcept(mem, mem', r, {})
  {
    forall m: Node | !m.Root? ensures SlotOf(mem', r, m) == SlotOf(mem, r, m) {
      assert SameNode(mem, mem', r, m);
    }
  }

  /** Below a table that is absent or all zero there is nothing. */
  lemma NothingBelow(mem: Memory, r: nat, n: Node, idx: Idx, c: Node, m: Node)
    requires Child(n, idx) == Some(c) && Under(n, idx, m) && m != c && !m.Root?
    requires !Live(mem, r, c) || AllZero(Entries(mem, FrameOf(mem, r, c)))
    ensures SlotOf(mem, r, m) == ZERO_ENTRY
  {
  }

  /** A store in one place, with nothing below it before or after, changes that place only. */
  lemma OneSlot(mem: Memory, mem': Memory, r: nat, n: Node, idx: Idx, c: Node)
    requires SameElsewhere(mem, mem', r, n, idx) && Child(n, idx) == Some(c)
    requires c.Leaf? || !Live(mem, r, c) || AllZero(Entries(mem, FrameOf(mem, r, c)))
    requires c.Leaf? || !Live(mem', r, c) || AllZero(Entries(mem', FrameOf(mem', r, c)))
    ensures SlotsExcept(mem, mem', r, {c})
  {
    hide SlotOf;
    forall m: Node | !m.Root? && m != c ensures SlotOf(mem', r, m) == SlotOf(mem, r, m) {
      if Under(n, idx, m) {
        assert !c.Leaf?;
        NothingBelow(mem, r, n, idx, c, m);
        NothingBelow(mem', r, n, idx, c, m);
      } else {
        SlotKept(mem, mem', r, m);
      }
    }
  }

  lemma SlotKept(mem: Memory, mem': Memory, r: nat, m: Node)
    requires SameNode(mem, mem', r, m) && !m.Root?
    ensures SlotOf(mem', r, m) == SlotOf(mem, r, m)
  {
  }

  // ----- Mapping --------------------------------------------------------------

  /**
    At `m` a present entry stays as it is, except that it may get the user bit; an absent one stays or becomes a
    table for programs, or a page.
   */
  predicate Firm(m: Node, e: Entry, e': Entry) {
    if e.flags.present then e' == e || e' == e.(flags := e.flags.(user := true))
    else e' == e || (e'.flags.present && (!m.Leaf? ==> e'.flags == PAGE_USER_RW))
  }

  /** Entries 1 to 511 of the root's own table are as they were. */
  ghost predicate TopKept(mem: Memory, mem': Memory, r: nat) {
    forall i: Idx :: i > 0 ==> Entries(mem', r)[i] == Entries(mem, r)[i]
  }

  /** What mapping does to the entries, succeed or not: only those on the way to `p` change, and present ones stay. */
  ghost predicate MapSlots(mem: Memory, mem': Memory, r: nat, p: Path) {
    && SlotsExcept(mem, mem', r, PathNodes(p)) && TopKept(mem, mem', r)
    && forall m: Node :: m in PathNodes(p) ==> Firm(m, SlotOf(mem, r, m), SlotOf(mem', r, m))
  }

  /** Programs reach a page exactly when the places on the way to it say so. */
  lemma ReachSlots(mem: Memory, r: nat, p: Path)
    requires p.l4 == 0 && InUser(p.l3, p.l2) && !Giant(mem, r, p.l3)
    ensures UserReaches(mem, r, p) <==>
      && ForUsers(SlotOf(mem, r, Pdpt)) && ForUsers(SlotOf(mem, r, Pd(p.l3)))
      && ForUsers(SlotOf(mem, r, Pt(p.l3, p.l2)))
      && (SlotOf(mem, r, Pt(p.l3, p.l2)).flags.huge || ForUsers(SlotOf(mem, r, Leaf(p.l3, p.l2, p.l1))))
  {
  }

  predicate ForUsers(e: Entry) {
    e.flags.present && e.flags.user
  }

  /** A page that programs reach stays so when another is mapped. */
  lemma ReachKept(mem: Memory, mem': Memory, r: nat, p: Path, q: Path)
    requires p.l4 == 0 && InUser(p.l3, p.l2) && !Giant(mem, r, p.l3) && !Giant(mem', r, p.l3)
    requires UserReaches(mem, r, p) && MapSlots(mem, mem', r, q)
    ensures UserReaches(mem', r, p)
  {
    hide SlotOf, UserReaches, Giant, InUser, TopKept;
    ReachSlots(mem, r, p);
    ReachSlots(mem', r, p);
    UsersKept(mem, mem', r, q, Pdpt);
    UsersKept(mem, mem', r, q, Pd(p.l3));
    UsersKept(mem, mem', r, q, Pt(p.l3, p.l2));
    UsersKept(mem, mem', r, q, Leaf(p.l3, p.l2, p.l1));
  }

  lemma ReachSame(mem: Memory, mem': Memory, r: nat, p: Path)
    requires p.l4 == 0 && InUser(p.l3, p.l2) && !Giant(mem, r, p.l3) && !Giant(mem', r, p.l3)
    requires UserReaches(mem, r, p) && SlotsExcept(mem, mem', r, {})
    ensures UserReaches(mem', r, p)
  {
    hide SlotOf, UserReaches, Giant, InUser;
    ReachSlots(mem, r, p);
    ReachSlots(mem', r, p);
  }

  lemma UsersKept(mem: Memory, mem': Memory, r: nat, q: Path, m: Node)
    requires MapSlots(mem, mem', r, q) && !m.Root?
    ensures ForUsers(SlotOf(mem, r, m)) ==>
      ForUsers(SlotOf(mem', r, m)) && SlotOf(mem', r, m).flags.huge == SlotOf(mem, r, m).flags.huge
  {
    hide SlotOf, PathNodes, TopKept;
    if m in PathNodes(q) {
      assert Firm(m, SlotOf(mem, r, m), SlotOf(mem', r, m));
    }
  }

  /** Page `p` has its page table and its entry. */
  predicate Mapped(mem: Memory, r: nat, p: Path, x: Entry) {
    LivePt(mem, r, p.l3, p.l2) && PtEntry(mem, r, p.l3, p.l2, p.l1) == x
  }

  lemma MapSlotsRefl(mem: Memory, r: nat, p: Path)
    ensures MapSlots(mem, mem, r, p)
  {
  }

  lemma MapSlotsTrans(m0: Memory, m1: Memory, m2: Memory, r: nat, p: Path)
    requires MapSlots(m0, m1, r, p) && MapSlots(m1, m2, r, p)
    ensures MapSlots(m0, m2, r, p)
  {
    hide SlotOf, PathNodes;
    forall m: Node | !m.Root? && m !in PathNodes(p) ensures SlotOf(m2, r, m) == SlotOf(m0, r, m) {
      assert SlotOf(m1, r, m) == SlotOf(m0, r, m);
    }
    forall m: Node | m in PathNodes(p) ensures !m.Root? && Firm(m, SlotOf(m0, r, m), SlotOf(m2, r, m)) {
      PathNode(m, p);
      assert Firm(m, SlotOf(m0, r, m), SlotOf(m1, r, m)) && Firm(m, SlotOf(m1, r, m), SlotOf(m2, r, m));
    }
  }

  lemma PathNode(m: Node, p: Path)
    requires m in PathNodes(p)
    ensures !m.Root?
  {
  }

  /** One place on the way changed, firmly. */
  lemma MapOneSlot(mem: Memory, mem': Memory, r: nat, p: Path, c: Node)
    requires c in PathNodes(p) && SlotsExcept(mem, mem', r, {c}) && Firm(c, SlotOf(mem, r, c), SlotOf(mem', r, c))
    requires TopKept(mem, mem', r)
    ensures MapSlots(mem, mem', r, p)
  {
    hide SlotOf;
  }

  // ----- Unmapping ------------------------------------------------------------

  /** What pruning does: tables on the way to `p` may go, each only when there is nothing left in it. */
  ghost predicate PruneSlots(mem: Memory, mem': Memory, r: nat, p: Path) {
    && SlotsExcept(mem, mem', r, PathNodes(p))
    && forall m: Node :: m in PathNodes(p) ==> Dropped(mem, mem', r, m)
  }

  ghost predicate Dropped(mem: Memory, mem': Memory, r: nat, m: Node)
    requires !m.Root?
  {
    SlotOf(mem', r, m) == SlotOf(mem, r, m) || (SlotOf(mem', r, m) == ZERO_ENTRY && !m.Leaf? && Vacant(mem', r, m))
  }

  /** What unmapping does: the leaf's slot is cleared, then tables are pruned. */
  ghost predicate UnmapSlots(mem: Memory, mem': Memory, r: nat, p: Path) {
    && SlotsExcept(mem, mem', r, PathNodes(p))
    && SlotOf(mem', r, Leaf(p.l3, p.l2, p.l1)) == ZERO_ENTRY
    && forall m: Node :: m in PathNodes(p) && !m.Leaf? ==> Dropped(mem, mem', r, m)
  }

  lemma PruneSlotsRefl(mem: Memory, r: nat, p: Path)
    ensures PruneSlots(mem, mem, r, p)
  {
  }

  lemma PruneSlotsTrans(m0: Memory, m1: Memory, m2: Memory, r: nat, p: Path)
    requires PruneSlots(m0, m1, r, p) && PruneSlots(m1, m2, r, p)
    ensures PruneSlots(m0, m2, r, p)
  {
    hide SlotOf, PathNodes, IsChild;
    forall m: Node | !m.Root? && m !in PathNodes(p) ensures SlotOf(m2, r, m) == SlotOf(m0, r, m) {
      assert SlotOf(m1, r, m) == SlotOf(m0, r, m);
    }
    forall m: Node | !m.Root? ensures SlotOf(m1, r, m) == ZERO_ENTRY ==> SlotOf(m2, r, m) == ZERO_ENTRY {
      assert m in PathNodes(p) ==> Dropped(m1, m2, r, m);
    }
    forall m: Node | m in PathNodes(p) ensures !m.Root? && Dropped(m0, m2, r, m) {
      PathNode(m, p);
      assert Dropped(m0, m1, r, m) && Dropped(m1, m2, r, m);
    }
  }

  lemma PruneOneSlot(mem: Memory, mem': Memory, r: nat, p: Path, c: Node)
    requires c in PathNodes(p) && SlotsExcept(mem, mem', r, {c}) && Dropped(mem, mem', r, c)
    ensures PruneSlots(mem, mem', r, p)
  {
    hide SlotOf;
  }

  /** Clearing the leaf and then pruning. */
  lemma ClearThenPrune(mem: Memory, m1: Memory, mem': Memory, r: nat, p: Path)
    requires SlotsExcept(mem, m1, r, {Leaf(p.l3, p.l2, p.l1)}) && SlotOf(m1, r, Leaf(p.l3, p.l2, p.l1)) == ZERO_ENTRY
    requires PruneSlots(m1, mem', r, p)
    ensures UnmapSlots(mem, mem', r, p)
  {
    hide SlotOf, IsChild;
    var leaf := Leaf(p.l3, p.l2, p.l1);
    assert leaf in PathNodes(p);
    assert Dropped(m1, mem', r, leaf);
    forall m: Node | m in PathNodes(p) && !m.Leaf? ensures Dropped(mem, mem', r, m) {
      assert Dropped(m1, mem', r, m);
    }
  }

  /** A live table that is not all zero has something in it, and conversely. */
  lemma VacantTable(mem: Memory, r: nat, m: Node)
    requires Live(mem, r, m) && !m.Leaf? && !m.Root?
    ensures AllZero(Entries(mem, FrameOf(mem, r, m))) <==> Vacant(mem, r, m)
  {
    if Vacant(mem, r, m) {
      forall k: Idx ensures Entries(mem, FrameOf(mem, r, m))[k] == ZERO_ENTRY {
        var c := match m case Pdpt => Pd(k) case Pd(i) => Pt(i, k) case Pt(i, j) => Leaf(i, j, k);
        assert IsChild(c, m) && SlotOf(mem, r, c) == Entries(mem, FrameOf(mem, r, m))[k];
      }
    }
  }
}
