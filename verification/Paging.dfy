/**
  The page-table operations of paging.rs over one machine: physical memory, the
  frame allocator and CR3. Ghost parameter `own` is the ownership map of the root
  being changed and `pool` a set of frames no other root can reach.
 */
module Paging {
  import opened Prelude
  import opened Pmm
  import opened PageTables
  import opened Trees

  /** Memory, ownership map of one root, and free frames. */
  datatype Sys = Sys(mem: Memory, own: map<nat, Node>, free: set<nat>)

  /** The root's tree is sound and disjoint from the free frames. */
  ghost predicate Ok(s: Sys, r: nat, pool: set<nat>) {
    Space(s.mem, r, s.own, pool) && s.free <= pool && s.free !! s.own.Keys
  }

  /** The per-process part of the address space: PML4[0] from USER_CODE_ADDR up. */
  predicate UserPage(p: Path) {
    p.l4 == 0 && InUser(p.l3, p.l2)
  }

  /**
    From `s` to `s'` ownership grew out of the free frames alone, with no change to
    any translation or to the contents of any frame in use.
   */
  ghost predicate Grows(s: Sys, s': Sys, r: nat) {
    && (forall f :: f in s.own ==> f in s'.own && s'.own[f] == s.own[f])
    && s'.free + s'.own.Keys == s.free + s.own.Keys && s'.free <= s.free
    && SameLookups(s.mem, s'.mem, r, {})
    && SameGiants(s.mem, s'.mem, r)
    && KeepsData(s.mem, s'.mem, s.own, s.free)
  }

  lemma GrowsTrans(s0: Sys, s1: Sys, s2: Sys, r: nat)
    requires Grows(s0, s1, r) && Grows(s1, s2, r) && s1.free !! s1.own.Keys
    ensures Grows(s0, s2, r)
  {
    forall f: nat | f !in s0.free && (f in s0.own ==> s0.own[f].Leaf?) ensures Get(s2.mem, f) == Get(s0.mem, f) {
      assert f in s1.free + s1.own.Keys ==> f in s0.free + s0.own.Keys;
      assert Get(s1.mem, f) == Get(s0.mem, f);
    }
    forall p: Path ensures Lookup(s2.mem, r, p) == Lookup(s0.mem, r, p) {
      assert Lookup(s1.mem, r, p) == Lookup(s0.mem, r, p);
    }
    GiantsTrans(s0.mem, s1.mem, s2.mem, r);
  }

  lemma GiantsTrans(m0: Memory, m1: Memory, m2: Memory, r: nat)
    requires SameGiants(m0, m1, r) && SameGiants(m1, m2, r)
    ensures SameGiants(m0, m2, r)
  {
    forall i: Idx ensures Giant(m2, r, i) == Giant(m0, r, i) {
      assert Giant(m1, r, i) == Giant(m0, r, i);
    }
    forall i: Idx, j: Idx ensures HugeUser(m2, r, i, j) == HugeUser(m0, r, i, j) {
      assert HugeUser(m1, r, i, j) == HugeUser(m0, r, i, j);
    }
  }

  // ----- try_get_or_create_table ----------------------------------------------

  /** Entry `idx` of node `n`'s table, where table `c` belongs, is live or absent. */
  ghost predicate Ready(s: Sys, r: nat, pool: set<nat>, n: Node, idx: Idx, c: Node) {
    && Ok(s, r, pool) && Live(s.mem, r, n) && Child(n, idx) == Some(c) && !c.Leaf?
    && (EntryOf(s.mem, r, c).flags.present ==> Live(s.mem, r, c))
  }

  /** Outcome `t` of finding or creating table `c`. */
  ghost predicate TableStep(s: Sys, s': Sys, r: nat, n: Node, idx: Idx, c: Node, flags: Flags, t: Option<nat>)
    requires !c.Root?
  {
    if EntryOf(s.mem, r, c).flags.present then
      s' == s && t == Some(FrameOf(s.mem, r, c))
    else if t.None? then
      s' == s && s.free == {}
    else
      && t.value in s.free
      && s' == Sys(WithTable(s.mem, FrameOf(s.mem, r, n), idx, t.value, flags), s.own[t.value := c], s.free - {t.value})
  }

  lemma TableStepGrows(s: Sys, s': Sys, r: nat, pool: set<nat>, n: Node, idx: Idx, c: Node, flags: Flags,
                       t: Option<nat>)
    requires Ready(s, r, pool, n, idx, c) && TableStep(s, s', r, n, idx, c, flags, t) && flags.present && !flags.huge
    ensures Ok(s', r, pool) && Grows(s, s', r)
    ensures t.Some? ==> Live(s'.mem, r, c) && FrameOf(s'.mem, r, c) == t.value
    ensures SameElsewhere(s.mem, s'.mem, r, n, idx)
    ensures t.Some? && !EntryOf(s.mem, r, c).flags.present ==> AllZero(Entries(s'.mem, t.value))
  {
    hide Stored, SealedAt;
    if !EntryOf(s.mem, r, c).flags.present && t.Some? {
      NewTable(s.mem, r, s.own, pool, n, idx, t.value, flags, c);
    } else {
      assert forall m: Node :: SameNode(s.mem, s.mem, r, m);
    }
  }

  // ----- try_map_4k -----------------------------------------------------------

  /** How many tables are missing on the way to the leaf of `p`. */
  function Missing(mem: Memory, r: nat, p: Path): nat {
    if !LivePdpt(mem, r) then 3
    else if !PdptEntry(mem, r, p.l3).flags.present then 2
    else if !PdEntry(mem, r, p.l3, p.l2).flags.present then 1
    else 0
  }

  predicate IsScratch(p: Path) {
    OverlapsKernelScratch(PathAddr(p), PathAddr(p) + 0x1000)
  }

  /** The scratch page is the one page at 0x40000000, and the user range begins at 0x2000000. */
  lemma ReservedPages(p: Path)
    ensures IsScratch(p) <==> p == Path(0, 1, 0, 0)
    ensures UserPage(p) <==> p.l4 == 0 && PathAddr(p) >= 0x200_0000
  {
  }

  /** The mapping request of `try_map_4k` meets its caller's side of the bargain. */
  ghost predicate Mappable(s: Sys, r: nat, pool: set<nat>, p: Path, paddr: nat, flags: Flags) {
    && Ok(s, r, pool) && UserPage(p) && !Giant(s.mem, r, p.l3) && flags.present
    && (flags.user ==> paddr in pool && paddr !in s.own && paddr !in s.free)
  }

  /**
    What `try_map_4k` does: on success exactly one binding is added, on failure none,
    and in both cases every other page of the whole address space translates as before,
    no data frame changes and each frame taken is owned. It fails exactly on the scratch
    page, on a page already mapped, or when too few frames are left for the tables; in the
    first two cases nothing changes, in the last every free frame has become a table.
   */
  ghost predicate MapStep(s: Sys, s': Sys, r: nat, pool: set<nat>, p: Path, paddr: nat, flags: Flags, ok: bool) {
    && Ok(s', r, pool)
    && (forall f :: f in s.own ==> f in s'.own && s'.own[f] == s.own[f])
    && s'.free + s'.own.Keys == s.free + s.own.Keys + (if ok && flags.user then {paddr} else {})
    && s'.free <= s.free
    && SameGiants(s.mem, s'.mem, r)
    && KeepsData(s.mem, s'.mem, s.own, s.free)
    && SameLookups(s.mem, s'.mem, r, if ok then {p} else {})
    && (ok ==> Lookup(s'.mem, r, p) == Some(Mapping(paddr, flags)))
    && (ok && flags.user ==> paddr in s'.own && s'.own[paddr] == Leaf(p.l3, p.l2, p.l1))
    && (ok <==> !(flags.user && IsScratch(p)) && Lookup(s.mem, r, p) == None && Missing(s.mem, r, p) <= |s.free|)
    && (!ok ==> if (flags.user && IsScratch(p)) || Lookup(s.mem, r, p).Some? then s' == s else s'.free == {})
  }

  /**
    A failed mapping leaves the free frames alone exactly when the page is the scratch page, was mapped, or none
    was free.
   */
  lemma FailedMap(s: Sys, s': Sys, r: nat, pool: set<nat>, p: Path, paddr: nat, flags: Flags)
    requires MapStep(s, s', r, pool, p, paddr, flags, false)
    ensures s'.free == s.free <==> (flags.user && IsScratch(p)) || Lookup(s.mem, r, p).Some? || s.free == {}
    ensures s'.free != s.free ==> s'.free == {} && s'.own.Keys == s.own.Keys + s.free
  {
    hide Ok, Lookup, IsScratch, Missing, SameLookups, SameGiants, KeepsData;
  }

  lemma RootReady(s: Sys, r: nat, pool: set<nat>)
    requires Ok(s, r, pool)
    ensures Ready(s, r, pool, Root, 0, Pdpt) && FrameOf(s.mem, r, Root) == r
  {
  }

  /** After the first table: the PDPT is live and its slot for `p` is ready. */
  lemma PdReady(s: Sys, s': Sys, r: nat, pool: set<nat>, p: Path, t: nat)
    requires Ready(s, r, pool, Root, 0, Pdpt) && TableStep(s, s', r, Root, 0, Pdpt, PAGE_USER_RW, Some(t))
    requires UserPage(p) && !Giant(s.mem, r, p.l3)
    ensures Ready(s', r, pool, Pdpt, p.l3, Pd(p.l3)) && t == FrameOf(s'.mem, r, Pdpt)
    ensures Lookup(s'.mem, r, p) == Lookup(s.mem, r, p)
  {
    TableStepGrows(s, s', r, pool, Root, 0, Pdpt, PAGE_USER_RW, Some(t));
    assert Giant(s'.mem, r, p.l3) == Giant(s.mem, r, p.l3);
  }

  /** After the second: the PD is live and its slot for `p` is ready. */
  lemma PtReady(s: Sys, s': Sys, r: nat, pool: set<nat>, p: Path, t: nat)
    requires Ready(s, r, pool, Pdpt, p.l3, Pd(p.l3)) && TableStep(s, s', r, Pdpt, p.l3, Pd(p.l3), PAGE_USER_RW, Some(t))
    requires UserPage(p) && Lookup(s.mem, r, p) == None
    ensures Ready(s', r, pool, Pd(p.l3), p.l2, Pt(p.l3, p.l2)) && t == FrameOf(s'.mem, r, Pd(p.l3))
    ensures FrameOf(s'.mem, r, Pdpt) == FrameOf(s.mem, r, Pdpt)
    ensures Lookup(s'.mem, r, p) == None
  {
    TableStepGrows(s, s', r, pool, Pdpt, p.l3, Pd(p.l3), PAGE_USER_RW, Some(t));
    assert SameNode(s.mem, s'.mem, r, Pdpt);
    assert Lookup(s'.mem, r, p) == None;
  }

  /** After the third: the PT is live and its slot for `p` is empty. */
  lemma LeafReady(s: Sys, s': Sys, r: nat, pool: set<nat>, p: Path, t: nat)
    requires Ready(s, r, pool, Pd(p.l3), p.l2, Pt(p.l3, p.l2))
    requires TableStep(s, s', r, Pd(p.l3), p.l2, Pt(p.l3, p.l2), PAGE_USER_RW, Some(t))
    requires UserPage(p) && Lookup(s.mem, r, p) == None
    ensures LivePt(s'.mem, r, p.l3, p.l2) && t == FrameOf(s'.mem, r, Pt(p.l3, p.l2))
    ensures !PtEntry(s'.mem, r, p.l3, p.l2, p.l1).flags.present && Missing(s'.mem, r, p) == 0
    ensures FrameOf(s'.mem, r, Pdpt) == FrameOf(s.mem, r, Pdpt)
    ensures FrameOf(s'.mem, r, Pd(p.l3)) == FrameOf(s.mem, r, Pd(p.l3))
  {
    TableStepGrows(s, s', r, pool, Pd(p.l3), p.l2, Pt(p.l3, p.l2), PAGE_USER_RW, Some(t));
    assert SameNode(s.mem, s'.mem, r, Pdpt) && SameNode(s.mem, s'.mem, r, Pd(p.l3));
    assert Lookup(s'.mem, r, p) == None;
  }

  /** `table[idx] |= PAGE_USER`. */
  function MarkUser(mem: Memory, f: nat, idx: Idx): Memory {
    var e := Entries(mem, f)[idx];
    Store(mem, f, idx, e.(flags := e.flags.(user := true)))
  }

  /** The last stores of `try_map_4k`: the leaf, then the user bit on the way to it. */
  function MapLeaf(mem: Memory, l4: nat, l3: nat, l2: nat, l1: nat, p: Path, x: Entry): Memory {
    var m := Store(mem, l1, p.l1, x);
    if x.flags.user then MarkUser(MarkUser(MarkUser(m, l4, p.l4), l3, p.l3), l2, p.l2) else m
  }

  /** Setting the user bit on the entry of one live table moves nothing. */
  lemma MarkOne(mem: Memory, r: nat, own: map<nat, Node>, pool: set<nat>, n: Node, idx: Idx, c: Node, p: Path)
    requires Space(mem, r, own, pool) && Live(mem, r, n) && Live(mem, r, c) && Child(n, idx) == Some(c) && !c.Leaf?
    requires c in PathNodes(p)
    ensures var mem' := MarkUser(mem, FrameOf(mem, r, n), idx);
      && Space(mem', r, own, pool) && SameLookups(mem, mem', r, {}) && SameGiants(mem, mem', r)
      && MapSlots(mem, mem', r, p)
      && Live(mem', r, c) && FrameOf(mem', r, c) == FrameOf(mem, r, c) && EntryOf(mem', r, c).flags.user
      && (forall m: Node :: m != c ==> SameNode(mem, mem', r, m))
      && AgreeExcept(mem, mem', {FrameOf(mem, r, n)})
  {
    hide Stored, SealedAt, Lookup, Firm;
    NotTop(mem, r, own, n);
    var mem' := MarkUser(mem, FrameOf(mem, r, n), idx);
    var x := Entries(mem', FrameOf(mem, r, n))[idx];
    assert x == EntryOf(mem, r, c).(flags := EntryOf(mem, r, c).flags.(user := true));
    FlagTable(mem, r, own, pool, n, idx, x, c);
    FlagGiants(mem, mem', r, c);
    FlagSlots(mem, mem', r, c, x, p);
  }

  /** Only the root is in the root's frame. */
  lemma NotTop(mem: Memory, r: nat, own: map<nat, Node>, n: Node)
    requires WellFormed(mem, r, own) && Live(mem, r, n)
    ensures n != Root ==> FrameOf(mem, r, n) != r
  {
    assert Live(mem, r, Root);
  }

  lemma FlagSlots(mem: Memory, mem': Memory, r: nat, c: Node, x: Entry, p: Path)
    requires c in PathNodes(p) && !c.Leaf? && Live(mem, r, c) && Live(mem', r, c) && EntryOf(mem', r, c) == x
    requires x == EntryOf(mem, r, c).(flags := EntryOf(mem, r, c).flags.(user := true)) && TopKept(mem, mem', r)
    requires forall m: Node :: m != c ==> SameNode(mem, mem', r, m)
    ensures MapSlots(mem, mem', r, p)
  {
    forall m: Node | !m.Root? && m != c ensures SlotOf(mem', r, m) == SlotOf(mem, r, m) {
      SlotKept(mem, mem', r, m);
    }
    MapOneSlot(mem, mem', r, p, c);
  }

  /** Setting the user bit on the tables of a live walk moves nothing. */
  lemma MarkUsers(mem: Memory, r: nat, own: map<nat, Node>, pool: set<nat>, p: Path)
    requires Space(mem, r, own, pool) && p.l4 == 0 && LivePt(mem, r, p.l3, p.l2)
    ensures var l3, l2 := FrameOf(mem, r, Pdpt), FrameOf(mem, r, Pd(p.l3));
      var mem' := MarkUser(MarkUser(MarkUser(mem, r, 0), l3, p.l3), l2, p.l2);
      && Space(mem', r, own, pool) && SameLookups(mem, mem', r, {}) && SameGiants(mem, mem', r)
      && MapSlots(mem, mem', r, p)
      && LivePt(mem', r, p.l3, p.l2) && FrameOf(mem', r, Pt(p.l3, p.l2)) == FrameOf(mem, r, Pt(p.l3, p.l2))
      && UserTables(mem', r, p)
      && forall f: nat :: f != r && f != l3 && f != l2 ==> Get(mem', f) == Get(mem, f)
  {
    hide Space, MapSlots, MarkUser, SameLookups, SameGiants, Lookup, Live, FrameOf, PathNodes, LivePt, EntryOf,
         UserTables, Reached;
    var i, j := p.l3, p.l2;
    WalkLive(mem, r, p);
    var l3, l2 := FrameOf(mem, r, Pdpt), FrameOf(mem, r, Pd(i));
    var m1 := MarkUser(mem, r, 0);
    MarkOne(mem, r, own, pool, Root, 0, Pdpt, p);
    assert SameNode(mem, m1, r, Pd(i)) && SameNode(mem, m1, r, Pt(i, j));
    var m2 := MarkUser(m1, l3, i);
    MarkOne(m1, r, own, pool, Pdpt, i, Pd(i), p);
    assert SameNode(m1, m2, r, Pt(i, j)) && SameNode(m1, m2, r, Pdpt);
    var m3 := MarkUser(m2, l2, j);
    MarkOne(m2, r, own, pool, Pd(i), j, Pt(i, j), p);
    LookupsTrans(mem, m1, m2, r);
    LookupsTrans(mem, m2, m3, r);
    GiantsTrans(mem, m1, m2, r);
    GiantsTrans(mem, m2, m3, r);
    MapSlotsTrans(mem, m1, m2, r, p);
    MapSlotsTrans(mem, m2, m3, r, p);
    LivePtIs(m3, r, i, j);
    EntryStays(m1, m2, r, Pdpt);
    EntryStays(m2, m3, r, Pdpt);
    EntryStays(m2, m3, r, Pd(i));
    UserTablesIs(m3, r, p);
  }

  lemma EntryStays(mem: Memory, mem': Memory, r: nat, m: Node)
    requires SameNode(mem, mem', r, m) && Live(mem, r, m) && !m.Root?
    ensures EntryOf(mem', r, m) == EntryOf(mem, r, m)
  {
  }

  /** The three tables on the way to `p` have the user bit. */
  predicate UserTables(mem: Memory, r: nat, p: Path) {
    TopEntry(mem, r).flags.user && PdptEntry(mem, r, p.l3).flags.user && PdEntry(mem, r, p.l3, p.l2).flags.user
  }

  lemma UserTablesIs(mem: Memory, r: nat, p: Path)
    requires EntryOf(mem, r, Pdpt).flags.user && EntryOf(mem, r, Pd(p.l3)).flags.user
    requires EntryOf(mem, r, Pt(p.l3, p.l2)).flags.user
    ensures UserTables(mem, r, p)
  {
  }

  /** With those and its own user bit, programs reach the page. */
  lemma MappedReaches(mem: Memory, r: nat, p: Path, x: Entry)
    requires Mapped(mem, r, p, x) && UserTables(mem, r, p) && x.flags.present && x.flags.user && p.l4 == 0
    ensures UserReaches(mem, r, p)
  {
  }

  lemma WalkLive(mem: Memory, r: nat, p: Path)
    requires LivePt(mem, r, p.l3, p.l2)
    ensures Live(mem, r, Root) && Live(mem, r, Pdpt) && Live(mem, r, Pd(p.l3)) && Live(mem, r, Pt(p.l3, p.l2))
    ensures FrameOf(mem, r, Root) == r
    ensures InUser(p.l3, p.l2) && PathNodes(p) >= {Pdpt, Pd(p.l3), Pt(p.l3, p.l2)}
  {
  }

  lemma LivePtIs(mem: Memory, r: nat, i: Idx, j: Idx)
    requires Live(mem, r, Pt(i, j))
    ensures LivePt(mem, r, i, j)
  {
  }

  lemma LookupsTrans(m0: Memory, m1: Memory, m2: Memory, r: nat)
    requires SameLookups(m0, m1, r, {}) && SameLookups(m1, m2, r, {})
    ensures SameLookups(m0, m2, r, {})
  {
    hide Lookup;
    forall q: Path ensures Lookup(m2, r, q) == Lookup(m0, r, q) {
      assert Lookup(m1, r, q) == Lookup(m0, r, q);
    }
  }

  lemma FlagGiants(mem: Memory, mem': Memory, r: nat, c: Node)
    requires Live(mem, r, c) && Live(mem', r, c) && FrameOf(mem', r, c) == FrameOf(mem, r, c) && !c.Leaf?
    requires forall m: Node :: m != c ==> SameNode(mem, mem', r, m)
    ensures SameGiants(mem, mem', r)
  {
    forall i: Idx ensures Giant(mem', r, i) == Giant(mem, r, i) {
      assert Pd(i) != c ==> SameNode(mem, mem', r, Pd(i));
    }
    forall i: Idx, j: Idx ensures HugeUser(mem', r, i, j) == HugeUser(mem, r, i, j) {
      assert Pt(i, j) != c ==> SameNode(mem, mem', r, Pt(i, j));
    }
  }

  /** The final stores add the one binding. */
  lemma FinishLeaf(mem: Memory, r: nat, own: map<nat, Node>, pool: set<nat>, p: Path, x: Entry)
    requires Space(mem, r, own, pool) && p.l4 == 0 && LivePt(mem, r, p.l3, p.l2)
    requires !PtEntry(mem, r, p.l3, p.l2, p.l1).flags.present
    requires x.flags.present && (x.flags.user ==> x.frame in pool && x.frame !in own)
    ensures var mem' := MapLeaf(mem, r, FrameOf(mem, r, Pdpt), FrameOf(mem, r, Pd(p.l3)),
                                FrameOf(mem, r, Pt(p.l3, p.l2)), p, x);
      && Space(mem', r, if x.flags.user then own[x.frame := Leaf(p.l3, p.l2, p.l1)] else own, pool)
      && SameLookups(mem, mem', r, {p}) && SameGiants(mem, mem', r)
      && Lookup(mem', r, p) == Some(Mapping(x.frame, x.flags))
      && MapSlots(mem, mem', r, p) && Mapped(mem', r, p, x) && (x.flags.user ==> UserReaches(mem', r, p))
  {
    hide MapSlots, MarkUser, Space, SameLookups, SameGiants, Mapped, UserReaches, UserTables;
    LeafStored(mem, r, own, pool, p, x);
    var own' := if x.flags.user then own[x.frame := Leaf(p.l3, p.l2, p.l1)] else own;
    var m1 := Store(mem, FrameOf(mem, r, Pt(p.l3, p.l2)), p.l1, x);
    if x.flags.user {
      FinishUser(mem, m1, r, own', pool, p);
      var m2 := MarkUser(MarkUser(MarkUser(m1, r, 0), FrameOf(m1, r, Pdpt), p.l3), FrameOf(m1, r, Pd(p.l3)), p.l2);
      MappedEntry(m1, r, p, x);
      MappedReaches(m2, r, p, x);
    }
  }

  lemma MappedEntry(mem: Memory, r: nat, p: Path, x: Entry)
    requires Mapped(mem, r, p, x)
    ensures PtEntry(mem, r, p.l3, p.l2, p.l1) == x
  {
  }

  /** The store of the leaf itself. */
  lemma LeafStored(mem: Memory, r: nat, own: map<nat, Node>, pool: set<nat>, p: Path, x: Entry)
    requires Space(mem, r, own, pool) && p.l4 == 0 && LivePt(mem, r, p.l3, p.l2)
    requires !PtEntry(mem, r, p.l3, p.l2, p.l1).flags.present
    requires x.flags.present && (x.flags.user ==> x.frame in pool && x.frame !in own)
    ensures var m1 := Store(mem, FrameOf(mem, r, Pt(p.l3, p.l2)), p.l1, x);
      && Space(m1, r, if x.flags.user then own[x.frame := Leaf(p.l3, p.l2, p.l1)] else own, pool)
      && SameLookups(mem, m1, r, {p}) && SameGiants(mem, m1, r) && Lookup(m1, r, p) == Some(Mapping(x.frame, x.flags))
      && MapSlots(mem, m1, r, p) && Mapped(m1, r, p, x)
      && FrameOf(m1, r, Pdpt) == FrameOf(mem, r, Pdpt) && FrameOf(m1, r, Pd(p.l3)) == FrameOf(mem, r, Pd(p.l3))
  {
    hide MapSlots, Stored, SealedAt, SameGiants, Store, Lookup;
    var i, j, k := p.l3, p.l2, p.l1;
    SetLeaf(mem, r, own, pool, i, j, k, x);
    var m1 := Store(mem, FrameOf(mem, r, Pt(i, j)), k, x);
    assert SameNode(mem, m1, r, Pt(i, j)) && SameNode(mem, m1, r, Pd(i)) && SameNode(mem, m1, r, Pdpt);
    LeafGiants(mem, m1, r, i, j, k);
    UserTable(mem, r, own, p);
    assert TopKept(mem, m1, r) by {
      StoreApart(mem, FrameOf(mem, r, Pt(i, j)), k, x, r);
    }
    LeafSlots(mem, m1, r, p, x);
    assert p == Path(0, i, j, k);
  }

  lemma StoreApart(mem: Memory, f: nat, idx: Idx, x: Entry, r: nat)
    requires f != r
    ensures Entries(Store(mem, f, idx, x), r) == Entries(mem, r)
  {
  }

  /** Storing the leaf over an absent one. */
  lemma LeafSlots(mem: Memory, mem': Memory, r: nat, p: Path, x: Entry)
    requires SameElsewhere(mem, mem', r, Pt(p.l3, p.l2), p.l1) && LivePt(mem, r, p.l3, p.l2)
    requires !PtEntry(mem, r, p.l3, p.l2, p.l1).flags.present && PtEntry(mem', r, p.l3, p.l2, p.l1) == x
    requires x.flags.present && TopKept(mem, mem', r)
    ensures MapSlots(mem, mem', r, p) && Mapped(mem', r, p, x)
  {
    var leaf := Leaf(p.l3, p.l2, p.l1);
    assert SameNode(mem, mem', r, Pt(p.l3, p.l2));
    OneSlot(mem, mem', r, Pt(p.l3, p.l2), p.l1, leaf);
    MapOneSlot(mem, mem', r, p, leaf);
  }

  lemma LeafGiants(mem: Memory, mem': Memory, r: nat, i: Idx, j: Idx, k: Idx)
    requires SameElsewhere(mem, mem', r, Pt(i, j), k)
    ensures SameGiants(mem, mem', r)
  {
    forall a: Idx ensures Giant(mem', r, a) == Giant(mem, r, a) {
      assert SameNode(mem, mem', r, Pd(a));
    }
    forall a: Idx, b: Idx ensures HugeUser(mem', r, a, b) == HugeUser(mem, r, a, b) {
      assert SameNode(mem, mem', r, Pt(a, b));
    }
  }

  lemma FinishUser(mem: Memory, m1: Memory, r: nat, own: map<nat, Node>, pool: set<nat>, p: Path)
    requires Space(m1, r, own, pool) && p.l4 == 0 && LivePt(m1, r, p.l3, p.l2) && MapSlots(mem, m1, r, p)
    requires SameLookups(mem, m1, r, {p}) && SameGiants(mem, m1, r)
    ensures var m2 := MarkUser(MarkUser(MarkUser(m1, r, 0), FrameOf(m1, r, Pdpt), p.l3), FrameOf(m1, r, Pd(p.l3)),
                             p.l2);
      && Space(m2, r, own, pool) && MapSlots(mem, m2, r, p) && Mapped(m2, r, p, PtEntry(m1, r, p.l3, p.l2, p.l1))
      && SameLookups(mem, m2, r, {p}) && SameGiants(mem, m2, r) && Lookup(m2, r, p) == Lookup(m1, r, p)
      && UserTables(m2, r, p)
  {
    hide WellFormed, MapSlots, UserTables, MarkUser, SameGiants, Lookup, FrameOf, LivePt, Stored, SealedAt;
    MarkUsers(m1, r, own, pool, p);
    UserTable(m1, r, own, p);
    var m2 := MarkUser(MarkUser(MarkUser(m1, r, 0), FrameOf(m1, r, Pdpt), p.l3), FrameOf(m1, r, Pd(p.l3)), p.l2);
    forall q: Path | q != p ensures Lookup(m2, r, q) == Lookup(mem, r, q) {
      assert Lookup(m1, r, q) == Lookup(mem, r, q);
      assert Lookup(m2, r, q) == Lookup(m1, r, q);
    }
    GiantsTrans(mem, m1, m2, r);
    MapSlotsTrans(mem, m1, m2, r, p);
    PtUntouched(m1, m2, r, p);
  }

  lemma PtUntouched(mem: Memory, mem': Memory, r: nat, p: Path)
    requires FrameOf(mem', r, Pt(p.l3, p.l2)) == FrameOf(mem, r, Pt(p.l3, p.l2))
    requires Get(mem', FrameOf(mem, r, Pt(p.l3, p.l2))) == Get(mem, FrameOf(mem, r, Pt(p.l3, p.l2)))
    ensures PtEntry(mem', r, p.l3, p.l2, p.l1) == PtEntry(mem, r, p.l3, p.l2, p.l1)
  {
  }

  /** The page table is none of the tables above it. */
  lemma UserTable(mem: Memory, r: nat, own: map<nat, Node>, p: Path)
    requires WellFormed(mem, r, own) && LivePt(mem, r, p.l3, p.l2)
    ensures var l1 := FrameOf(mem, r, Pt(p.l3, p.l2));
      l1 != r && l1 != FrameOf(mem, r, Pdpt) && l1 != FrameOf(mem, r, Pd(p.l3))
  {
    assert Live(mem, r, Root) && Live(mem, r, Pdpt) && Live(mem, r, Pd(p.l3)) && Live(mem, r, Pt(p.l3, p.l2));
  }

  /** The final stores complete the step. */
  lemma FinishMap(s: Sys, s1: Sys, r: nat, pool: set<nat>, p: Path, paddr: nat, flags: Flags)
    requires Mappable(s, r, pool, p, paddr, flags) && Ok(s1, r, pool) && Grows(s, s1, r)
    requires LivePt(s1.mem, r, p.l3, p.l2) && !PtEntry(s1.mem, r, p.l3, p.l2, p.l1).flags.present
    requires !(flags.user && IsScratch(p)) && Lookup(s.mem, r, p) == None && Missing(s.mem, r, p) <= |s.free|
    ensures var mem' := MapLeaf(s1.mem, r, FrameOf(s1.mem, r, Pdpt), FrameOf(s1.mem, r, Pd(p.l3)),
                                FrameOf(s1.mem, r, Pt(p.l3, p.l2)), p, Entry(paddr, flags));
      var own' := if flags.user then s1.own[paddr := Leaf(p.l3, p.l2, p.l1)] else s1.own;
      && MapStep(s, Sys(mem', own', s1.free), r, pool, p, paddr, flags, true)
      && MapSlots(s1.mem, mem', r, p) && Mapped(mem', r, p, Entry(paddr, flags))
      && (flags.user ==> UserReaches(mem', r, p))
  {
    hide KeepsData, Lookup, Missing, LivePt, PtEntry, Giant, MapLeaf, FrameOf, IsScratch, MapStep, MapSlots, Mapped,
         UserReaches;
    var x := Entry(paddr, flags);
    assert paddr in s1.free + s1.own.Keys ==> paddr in s.free + s.own.Keys;
    FinishLeaf(s1.mem, r, s1.own, pool, p, x);
    FinishData(s, s1, r, pool, p, x);
    var mem' := MapLeaf(s1.mem, r, FrameOf(s1.mem, r, Pdpt), FrameOf(s1.mem, r, Pd(p.l3)),
                        FrameOf(s1.mem, r, Pt(p.l3, p.l2)), p, x);
    var s' := Sys(mem', if flags.user then s1.own[paddr := Leaf(p.l3, p.l2, p.l1)] else s1.own, s1.free);
    AssembleMap(s, s1, s', r, pool, p, paddr, flags);
  }

  lemma AssembleMap(s: Sys, s1: Sys, s': Sys, r: nat, pool: set<nat>, p: Path, paddr: nat, flags: Flags)
    requires Mappable(s, r, pool, p, paddr, flags) && Ok(s1, r, pool) && Grows(s, s1, r)
    requires Space(s'.mem, r, s'.own, pool) && KeepsData(s.mem, s'.mem, s.own, s.free)
    requires SameLookups(s1.mem, s'.mem, r, {p}) && SameGiants(s1.mem, s'.mem, r)
    requires Lookup(s'.mem, r, p) == Some(Mapping(paddr, flags))
    requires s'.free == s1.free && s'.own == if flags.user then s1.own[paddr := Leaf(p.l3, p.l2, p.l1)] else s1.own
    requires !(flags.user && IsScratch(p)) && Lookup(s.mem, r, p) == None && Missing(s.mem, r, p) <= |s.free|
    ensures MapStep(s, s', r, pool, p, paddr, flags, true)
  {
    hide Space, KeepsData, Lookup, Missing, Giant, IsScratch;
    FinishSets(s, s1, s', r, pool, paddr, flags.user, Leaf(p.l3, p.l2, p.l1));
    forall q: Path | q != p ensures Lookup(s'.mem, r, q) == Lookup(s.mem, r, q) {
      assert Lookup(s1.mem, r, q) == Lookup(s.mem, r, q);
    }
    GiantsTrans(s.mem, s1.mem, s'.mem, r);
  }

  /** Set bookkeeping of the last step. */
  lemma FinishSets(s: Sys, s1: Sys, s': Sys, r: nat, pool: set<nat>, paddr: nat, user: bool, n: Node)
    requires Ok(s, r, pool) && Ok(s1, r, pool) && Grows(s, s1, r) && Space(s'.mem, r, s'.own, pool)
    requires user ==> paddr !in s.own && paddr !in s.free
    requires s'.free == s1.free && s'.own == if user then s1.own[paddr := n] else s1.own
    ensures Ok(s', r, pool)
    ensures forall f :: f in s.own ==> f in s'.own && s'.own[f] == s.own[f]
    ensures s'.free + s'.own.Keys == s.free + s.own.Keys + (if user then {paddr} else {}) && s'.free <= s.free
  {
    hide Space, KeepsData, SameLookups, SameGiants;
    assert paddr in s1.free + s1.own.Keys ==> paddr in s.free + s.own.Keys;
    assert s'.own.Keys == s1.own.Keys + (if user then {paddr} else {});
  }

  /** The final stores only touch tables the root already owned or just took. */
  lemma FinishData(s: Sys, s1: Sys, r: nat, pool: set<nat>, p: Path, x: Entry)
    requires Ok(s, r, pool) && Ok(s1, r, pool) && Grows(s, s1, r) && LivePt(s1.mem, r, p.l3, p.l2)
    ensures var mem' := MapLeaf(s1.mem, r, FrameOf(s1.mem, r, Pdpt), FrameOf(s1.mem, r, Pd(p.l3)),
                                FrameOf(s1.mem, r, Pt(p.l3, p.l2)), p, x);
      KeepsData(s.mem, mem', s.own, s.free)
  {
    var l3, l2, l1 := FrameOf(s1.mem, r, Pdpt), FrameOf(s1.mem, r, Pd(p.l3)), FrameOf(s1.mem, r, Pt(p.l3, p.l2));
    assert Live(s1.mem, r, Root) && Live(s1.mem, r, Pdpt) && Live(s1.mem, r, Pd(p.l3));
    assert Live(s1.mem, r, Pt(p.l3, p.l2));
    assert s1.own[r] == Root && s1.own[l3] == Pdpt && s1.own[l2] == Pd(p.l3) && s1.own[l1] == Pt(p.l3, p.l2);
    var mem' := MapLeaf(s1.mem, r, l3, l2, l1, p, x);
    forall f: nat | f !in s.free && (f in s.own ==> s.own[f].Leaf?) ensures Get(mem', f) == Get(s.mem, f) {
      assert Get(s1.mem, f) == Get(s.mem, f);
      assert f in s1.free + s1.own.Keys ==> f in s.free + s.own.Keys;
      assert f != r && f != l3 && f != l2 && f != l1;
      MapLeafElsewhere(s1.mem, r, l3, l2, l1, p, x, f);
    }
  }

  lemma MapLeafElsewhere(mem: Memory, l4: nat, l3: nat, l2: nat, l1: nat, p: Path, x: Entry, f: nat)
    requires f != l4 && f != l3 && f != l2 && f != l1
    ensures Get(MapLeaf(mem, l4, l3, l2, l1, p, x), f) == Get(mem, f)
  {
  }

  /** A failed request that created `s1`'s tables and then ran out. */
  lemma FailMap(s: Sys, s1: Sys, r: nat, pool: set<nat>, p: Path, paddr: nat, flags: Flags)
    requires Ok(s1, r, pool) && Grows(s, s1, r)
    requires if (flags.user && IsScratch(p)) || Lookup(s.mem, r, p).Some? then s1 == s
      else Missing(s.mem, r, p) > |s.free| && s1.free == {}
    ensures MapStep(s, s1, r, pool, p, paddr, flags, false)
  {
    hide Space, KeepsData, Lookup, Missing, Giant, IsScratch;
  }

  lemma GrowsRefl(s: Sys, r: nat)
    ensures Grows(s, s, r)
  {
  }

  /** Tables still missing for `p` beyond the frames left. */
  function Deficit(s: Sys, r: nat, p: Path): int {
    Missing(s.mem, r, p) - |s.free|
  }

  /** `c` below entry `idx` of `n` is a table the walk of `p` needs. */
  predicate TableFor(n: Node, idx: Idx, c: Node, p: Path) {
    || (n == Root && idx == 0 && c == Pdpt)
    || (n == Pdpt && idx == p.l3 && c == Pd(p.l3))
    || (n == Pd(p.l3) && idx == p.l2 && c == Pt(p.l3, p.l2))
  }

  /** One table step keeps the deficit, and fails only when there is one. */
  lemma StepDeficit(s1: Sys, s2: Sys, r: nat, pool: set<nat>, p: Path, n: Node, idx: Idx, c: Node, t: Option<nat>)
    requires Ready(s1, r, pool, n, idx, c) && TableStep(s1, s2, r, n, idx, c, PAGE_USER_RW, t)
    requires TableFor(n, idx, c, p)
    requires t.Some? ==> Live(s2.mem, r, c) && FrameOf(s2.mem, r, c) == t.value
    requires t.Some? && !EntryOf(s1.mem, r, c).flags.present ==> AllZero(Entries(s2.mem, t.value))
    requires n != Root ==> SameNode(s1.mem, s2.mem, r, n)
    ensures t.None? ==> Deficit(s1, r, p) > 0 && s2.free == {}
    ensures t.Some? ==> Deficit(s2, r, p) == Deficit(s1, r, p)
  {
    hide Space, WithTable;
  }

  /** One table step of a chain that started at `s`. */
  lemma StepTrans(s: Sys, s1: Sys, s2: Sys, r: nat, pool: set<nat>, p: Path, n: Node, idx: Idx, c: Node, t: Option<nat>)
    requires Grows(s, s1, r) && Ready(s1, r, pool, n, idx, c) && TableStep(s1, s2, r, n, idx, c, PAGE_USER_RW, t)
    requires TableFor(n, idx, c, p)
    ensures Ok(s2, r, pool) && Grows(s, s2, r)
    ensures t.None? ==> Deficit(s1, r, p) > 0 && s2.free == {}
    ensures t.Some? ==> Deficit(s2, r, p) == Deficit(s1, r, p)
  {
    hide Space, Deficit, TableStep, Live, EntryOf, FrameOf, SameNode, KeepsData, SameLookups, SameGiants;
    TableStepGrows(s1, s2, r, pool, n, idx, c, PAGE_USER_RW, t);
    GrowsTrans(s, s1, s2, r);
    assert SameNode(s1.mem, s2.mem, r, n) by {
      assert !Under(n, idx, n);
    }
    StepDeficit(s1, s2, r, pool, p, n, idx, c, t);
  }

  /** One table step changes at most the slot of its table, and nothing when no frame is free. */
  lemma StepSlots(s: Sys, s1: Sys, s2: Sys, r: nat, pool: set<nat>, p: Path, n: Node, idx: Idx, c: Node, t: Option<nat>)
    requires MapSlots(s.mem, s1.mem, r, p) && Ready(s1, r, pool, n, idx, c)
    requires TableStep(s1, s2, r, n, idx, c, PAGE_USER_RW, t)
    requires TableFor(n, idx, c, p)
    ensures MapSlots(s.mem, s2.mem, r, p) && (s1.free == {} ==> s2 == s1)
  {
    hide Space, MapSlots, FrameOf, WithTable;
    if s2 != s1 {
      TableStepGrows(s1, s2, r, pool, n, idx, c, PAGE_USER_RW, t);
      StepTop(s1, s2, r, pool, n, idx, c, t);
      NewSlot(s1.mem, s2.mem, r, p, n, idx, c, t.value);
      MapSlotsTrans(s.mem, s1.mem, s2.mem, r, p);
    }
  }

  /** The new table hangs below one entry, marked for programs, and no other entry of the root's own table changes. */
  lemma StepTop(s: Sys, s': Sys, r: nat, pool: set<nat>, n: Node, idx: Idx, c: Node, t: Option<nat>)
    requires Ready(s, r, pool, n, idx, c) && TableStep(s, s', r, n, idx, c, PAGE_USER_RW, t) && s' != s
    ensures t.Some? && TopKept(s.mem, s'.mem, r) && EntryOf(s'.mem, r, c) == Entry(t.value, PAGE_USER_RW)
  {
    hide Stored, SealedAt, KeepsData, SameLookups, SameGiants, SameElsewhere, TopKept;
    NewTable(s.mem, r, s.own, pool, n, idx, t.value, PAGE_USER_RW, c);
    NotTop(s.mem, r, s.own, n);
    RootOwnedHere(s.mem, r, s.own);
    TableTop(s.mem, r, FrameOf(s.mem, r, n), idx, t.value);
  }

  lemma RootOwnedHere(mem: Memory, r: nat, own: map<nat, Node>)
    requires WellFormed(mem, r, own)
    ensures r in own
  {
    assert Live(mem, r, Root);
  }

  lemma TableTop(mem: Memory, r: nat, f: nat, idx: Idx, g: nat)
    requires g != r && (f == r ==> idx == 0)
    ensures TopKept(mem, WithTable(mem, f, idx, g, PAGE_USER_RW), r)
  {
  }

  lemma NewSlot(mem: Memory, mem': Memory, r: nat, p: Path, n: Node, idx: Idx, c: Node, t: nat)
    requires SameElsewhere(mem, mem', r, n, idx) && TableFor(n, idx, c, p) && Child(n, idx) == Some(c)
    requires !EntryOf(mem, r, c).flags.present && Live(mem', r, c) && EntryOf(mem', r, c) == Entry(t, PAGE_USER_RW)
    requires AllZero(Entries(mem', t)) && TopKept(mem, mem', r)
    ensures MapSlots(mem, mem', r, p)
  {
    LiveSlot(mem, r, c);
    LiveSlot(mem', r, c);
    OneSlot(mem, mem', r, n, idx, c);
    hide SlotOf;
    MapOneSlot(mem, mem', r, p, c);
  }

  // ----- unmap_and_free_empty -------------------------------------------------

  /** Drop table `c` below entry `idx` of `n` if every entry of it is zero. */
  ghost function Prune(s: Sys, r: nat, n: Node, idx: Idx, c: Node): Sys {
    var g := FrameOf(s.mem, r, c);
    if AllZero(Entries(s.mem, g)) then
      Sys(Store(s.mem, FrameOf(s.mem, r, n), idx, ZERO_ENTRY), s.own - {g}, s.free + {g})
    else s
  }

  /** From `s` to `s'` only empty tables were dropped, each going back to the free frames. */
  ghost predicate Shrinks(s: Sys, s': Sys, r: nat) {
    && s'.own.Keys <= s.own.Keys && (forall f :: f in s'.own ==> s'.own[f] == s.own[f])
    && s'.free + s'.own.Keys == s.free + s.own.Keys && s.free <= s'.free
    && (forall f :: f in s'.free && f !in s.free ==> AllZero(Entries(s'.mem, f)))
    && SameLookups(s.mem, s'.mem, r, {})
    && SameGiants(s.mem, s'.mem, r)
    && KeepsData(s.mem, s'.mem, s.own, {})
  }

  lemma PruneShrinks(s: Sys, r: nat, pool: set<nat>, n: Node, idx: Idx, c: Node)
    requires Ok(s, r, pool) && Live(s.mem, r, n) && Live(s.mem, r, c) && Child(n, idx) == Some(c) && !c.Leaf?
    ensures var s' := Prune(s, r, n, idx, c);
      && Ok(s', r, pool) && Shrinks(s, s', r) && SameElsewhere(s.mem, s'.mem, r, n, idx)
      && Live(s'.mem, r, n) && FrameOf(s'.mem, r, n) == FrameOf(s.mem, r, n)
      && (AllZero(Entries(s.mem, FrameOf(s.mem, r, c))) ==> !Live(s'.mem, r, c))
  {
    hide Stored, SealedAt;
    var s' := Prune(s, r, n, idx, c);
    var g := FrameOf(s.mem, r, c);
    if AllZero(Entries(s.mem, g)) {
      UnlinkTable(s.mem, r, s.own, pool, n, idx, c);
      StoreReads(s.mem, r, s.own, n, idx, ZERO_ENTRY);
      PruneGiants(s.mem, s'.mem, r, n, idx, c);
      StoreTable(s.mem, r, s.own, n, idx, ZERO_ENTRY, c);
    } else {
      assert forall m: Node :: SameNode(s.mem, s.mem, r, m);
    }
  }

  /** Pruning a table clears its slot, and there was nothing in it. */
  lemma PrunedSlots(s: Sys, r: nat, pool: set<nat>, n: Node, idx: Idx, c: Node, p: Path)
    requires Ok(s, r, pool) && Live(s.mem, r, n) && Live(s.mem, r, c) && Child(n, idx) == Some(c) && !c.Leaf?
    requires c in PathNodes(p)
    ensures PruneSlots(s.mem, Prune(s, r, n, idx, c).mem, r, p)
  {
    hide Stored, SealedAt, SlotOf, PruneSlots, Live, FrameOf, Space, Store;
    var mem' := Prune(s, r, n, idx, c).mem;
    if AllZero(Entries(s.mem, FrameOf(s.mem, r, c))) {
      PruneShrinks(s, r, pool, n, idx, c);
      OneSlot(s.mem, mem', r, n, idx, c);
      VacantTable(s.mem, r, c);
      SpaceReads(s, r, pool, n, idx, c);
      VacantStays(s.mem, mem', r, c);
      PruneOneSlot(s.mem, mem', r, p, c);
    } else {
      PruneSlotsRefl(s.mem, r, p);
    }
  }

  lemma SpaceReads(s: Sys, r: nat, pool: set<nat>, n: Node, idx: Idx, c: Node)
    requires Ok(s, r, pool) && Live(s.mem, r, n) && Child(n, idx) == Some(c) && !n.Leaf?
    ensures SlotOf(Store(s.mem, FrameOf(s.mem, r, n), idx, ZERO_ENTRY), r, c) == ZERO_ENTRY
  {
    hide Stored, SealedAt;
    StoreReads(s.mem, r, s.own, n, idx, ZERO_ENTRY);
  }

  lemma VacantStays(mem: Memory, mem': Memory, r: nat, c: Node)
    requires SlotsExcept(mem, mem', r, {c}) && Vacant(mem, r, c) && !c.Root?
    ensures Vacant(mem', r, c)
  {
    hide SlotOf;
    forall m: Node | IsChild(m, c) && !m.Root? ensures SlotOf(mem', r, m) == ZERO_ENTRY {
      assert m != c;
      assert SlotOf(mem', r, m) == SlotOf(mem, r, m);
    }
  }

  lemma ClearedSlots(mem: Memory, mem': Memory, r: nat, p: Path)
    requires SameElsewhere(mem, mem', r, Pt(p.l3, p.l2), p.l1) && Lookup(mem', r, p) == None && p.l4 == 0
    requires LivePt(mem', r, p.l3, p.l2)
    requires PtEntry(mem', r, p.l3, p.l2, p.l1) == ZERO_ENTRY
    ensures SlotsExcept(mem, mem', r, {Leaf(p.l3, p.l2, p.l1)}) && SlotOf(mem', r, Leaf(p.l3, p.l2, p.l1)) == ZERO_ENTRY
  {
    OneSlot(mem, mem', r, Pt(p.l3, p.l2), p.l1, Leaf(p.l3, p.l2, p.l1));
  }

  lemma PruneKeeps(s: Sys, r: nat, n: Node, idx: Idx, c: Node)
    requires !AllZero(Entries(s.mem, FrameOf(s.mem, r, c)))
    ensures Prune(s, r, n, idx, c) == s
  {
  }

  lemma PruneGiants(mem: Memory, mem': Memory, r: nat, n: Node, idx: Idx, c: Node)
    requires SameElsewhere(mem, mem', r, n, idx) && Child(n, idx) == Some(c) && !c.Leaf?
    requires Live(mem, r, c) && AllZero(Entries(mem, FrameOf(mem, r, c))) && EntryOf(mem', r, c) == ZERO_ENTRY
    ensures SameGiants(mem, mem', r)
  {
    forall i: Idx ensures Giant(mem', r, i) == Giant(mem, r, i) {
      assert Under(n, idx, Pd(i)) || SameNode(mem, mem', r, Pd(i));
    }
    forall i: Idx, j: Idx ensures HugeUser(mem', r, i, j) == HugeUser(mem, r, i, j) {
      assert Under(n, idx, Pt(i, j)) || SameNode(mem, mem', r, Pt(i, j));
    }
  }

  lemma ShrinksTrans(s0: Sys, s1: Sys, s2: Sys, r: nat)
    requires Shrinks(s0, s1, r) && Shrinks(s1, s2, r) && s1.free !! s1.own.Keys
    ensures Shrinks(s0, s2, r)
  {
    forall f: nat | f in s0.own ==> s0.own[f].Leaf? ensures Get(s2.mem, f) == Get(s0.mem, f) {
      assert Get(s1.mem, f) == Get(s0.mem, f);
      assert f in s1.own ==> f in s0.own;
    }
    forall f | f in s2.free && f !in s0.free ensures AllZero(Entries(s2.mem, f)) {
      if f in s1.free {
        assert f !in s1.own;
        assert Get(s2.mem, f) == Get(s1.mem, f);
      }
    }
    forall p: Path ensures Lookup(s2.mem, r, p) == Lookup(s0.mem, r, p) {
      assert Lookup(s1.mem, r, p) == Lookup(s0.mem, r, p);
    }
    GiantsTrans(s0.mem, s1.mem, s2.mem, r);
  }

  /** Node `n` is a table on the way to the leaf of `p`. */
  predicate OnWalk(n: Node, p: Path) {
    n == Pdpt || n == Pd(p.l3) || n == Pt(p.l3, p.l2)
  }

  /** No table on the way to the leaf of `p` is empty. */
  ghost predicate NoEmptyWalk(mem: Memory, r: nat, p: Path) {
    forall n: Node :: OnWalk(n, p) && Live(mem, r, n) ==> !AllZero(Entries(mem, FrameOf(mem, r, n)))
  }

  /** The frames freed from `s` to `s'` were tables on the way to the leaf of `p`. */
  ghost predicate FreedOnWalk(s: Sys, s': Sys, p: Path) {
    forall f :: f in s'.free && f !in s.free ==> f in s.own && OnWalk(s.own[f], p)
  }

  lemma FreedTrans(s0: Sys, s1: Sys, s2: Sys, r: nat, p: Path)
    requires Shrinks(s0, s1, r) && FreedOnWalk(s0, s1, p) && FreedOnWalk(s1, s2, p)
    ensures FreedOnWalk(s0, s2, p)
  {
    hide SameLookups, SameGiants, KeepsData;
  }

  lemma PruneFrees(s: Sys, r: nat, pool: set<nat>, n: Node, idx: Idx, c: Node, p: Path)
    requires Ok(s, r, pool) && Live(s.mem, r, c) && OnWalk(c, p)
    ensures FreedOnWalk(s, Prune(s, r, n, idx, c), p)
  {
  }

  /** With table `c` not empty, the tables above it hold its entry, and those below were dropped. */
  lemma WalkFull(mem: Memory, r: nat, p: Path, c: Node)
    requires OnWalk(c, p) && UserPage(p) && Live(mem, r, c) && !AllZero(Entries(mem, FrameOf(mem, r, c)))
    requires c != Pt(p.l3, p.l2) ==> !LivePt(mem, r, p.l3, p.l2)
    requires c == Pdpt ==> !LivePd(mem, r, p.l3)
    ensures NoEmptyWalk(mem, r, p)
  {
    forall n: Node | OnWalk(n, p) && Live(mem, r, n) ensures !AllZero(Entries(mem, FrameOf(mem, r, n))) {
      if n == Pdpt && c != Pdpt {
        assert Entries(mem, FrameOf(mem, r, n))[p.l3].flags.present;
      } else if n == Pd(p.l3) && c == Pt(p.l3, p.l2) {
        assert Entries(mem, FrameOf(mem, r, n))[p.l2].flags.present;
      }
    }
  }

  lemma WalkGone(mem: Memory, r: nat, p: Path)
    requires !LivePdpt(mem, r)
    ensures NoEmptyWalk(mem, r, p)
  {
  }

  /** The user-range slot of `p` holds a 2 MiB page. */
  predicate Big(mem: Memory, r: nat, p: Path) {
    LivePd(mem, r, p.l3) && PdEntry(mem, r, p.l3, p.l2).flags.present && PdEntry(mem, r, p.l3, p.l2).flags.huge
  }

  /** Pages outside the 2 MiB slot of `p` translate as before. */
  ghost predicate SameOutsideSlot(mem: Memory, mem': Memory, r: nat, p: Path) {
    forall q: Path :: q.(l1 := p.l1) != p ==> Lookup(mem', r, q) == Lookup(mem, r, q)
  }

  /**
    What `unmap_and_free_empty` does: it removes the binding of `p` and no other
    (a whole 2 MiB slot when one is mapped there), reports None exactly when there was
    none, and gives back exactly the tables of the walk that were left empty. The leaf frame
    itself is left to the caller.
   */
  ghost predicate UnmapStep(s: Sys, s': Sys, r: nat, pool: set<nat>, p: Path, res: Option<Entry>) {
    && Ok(s', r, pool)
    && (res.None? <==> Lookup(s.mem, r, p) == None)
    && (res.None? ==> s' == s)
    && (res.Some? ==> Lookup(s'.mem, r, p) == None && KeepsData(s.mem, s'.mem, s.own, {}))
    && (res.Some? && Big(s.mem, r, p) ==>
        && s'.own == s.own && s'.free == s.free
        && SameOutsideSlot(s.mem, s'.mem, r, p))
    && (res.Some? && !Big(s.mem, r, p) ==>
        && Lookup(s.mem, r, p) == Some(Mapping(res.value.frame, res.value.flags))
        && SameLookups(s.mem, s'.mem, r, {p}) && SameGiants(s.mem, s'.mem, r)
        && s'.own.Keys <= s.own.Keys && (forall f :: f in s'.own ==> s'.own[f] == s.own[f])
        && s.free <= s'.free
        && (forall f :: f in s'.free && f !in s.free ==> AllZero(Entries(s'.mem, f)))
        && FreedOnWalk(s, s', p) && NoEmptyWalk(s'.mem, r, p)
        && s.free + s.own.Keys == s'.free + s'.own.Keys + (if res.value.flags.user then {res.value.frame} else {})
        && (res.value.flags.user ==>
              res.value.frame in s.own && res.value.frame !in s'.own && res.value.frame !in s'.free))
  }

  /** Clearing the leaf, then pruning. */
  ghost function Cleared(s: Sys, r: nat, p: Path): Sys {
    var e := PtEntry(s.mem, r, p.l3, p.l2, p.l1);
    Sys(Store(s.mem, FrameOf(s.mem, r, Pt(p.l3, p.l2)), p.l1, ZERO_ENTRY),
        if e.flags.user then s.own - {e.frame} else s.own, s.free)
  }

  lemma ClearedOk(s: Sys, r: nat, pool: set<nat>, p: Path)
    requires Ok(s, r, pool) && p.l4 == 0 && LivePt(s.mem, r, p.l3, p.l2)
    requires PtEntry(s.mem, r, p.l3, p.l2, p.l1).flags.present
    ensures var s1 := Cleared(s, r, p);
      && Ok(s1, r, pool)
      && SameElsewhere(s.mem, s1.mem, r, Pt(p.l3, p.l2), p.l1)
      && SameLookups(s.mem, s1.mem, r, {p}) && SameGiants(s.mem, s1.mem, r)
      && Lookup(s1.mem, r, p) == None && KeepsData(s.mem, s1.mem, s.own, {})
      && LivePt(s1.mem, r, p.l3, p.l2) && PtEntry(s1.mem, r, p.l3, p.l2, p.l1) == ZERO_ENTRY
      && (forall c: Node :: c == Pdpt || c == Pd(p.l3) || c == Pt(p.l3, p.l2) ==>
            FrameOf(s1.mem, r, c) == FrameOf(s.mem, r, c))
  {
    hide Stored, SealedAt;
    var s1 := Cleared(s, r, p);
    assert p == Path(0, p.l3, p.l2, p.l1);
    ClearLeaf(s.mem, r, s.own, pool, p.l3, p.l2, p.l1);
    LeafGiants(s.mem, s1.mem, r, p.l3, p.l2, p.l1);
    assert Live(s.mem, r, Pt(p.l3, p.l2)) && Live(s.mem, r, Pd(p.l3)) && Live(s.mem, r, Pdpt);
    assert SameNode(s.mem, s1.mem, r, Pt(p.l3, p.l2)) && SameNode(s.mem, s1.mem, r, Pd(p.l3));
    assert SameNode(s.mem, s1.mem, r, Pdpt);
  }

  /** Clearing followed by pruning is one unmap step. */
  lemma ClearedUnmap(s: Sys, s': Sys, r: nat, pool: set<nat>, p: Path)
    requires Ok(s, r, pool) && p.l4 == 0 && LivePt(s.mem, r, p.l3, p.l2)
    requires PtEntry(s.mem, r, p.l3, p.l2, p.l1).flags.present
    requires Ok(s', r, pool) && Shrinks(Cleared(s, r, p), s', r) && FreedOnWalk(Cleared(s, r, p), s', p)
    requires NoEmptyWalk(s'.mem, r, p)
    ensures UnmapStep(s, s', r, pool, p, Some(PtEntry(s.mem, r, p.l3, p.l2, p.l1)))
  {
    var s1 := Cleared(s, r, p);
    var e := PtEntry(s.mem, r, p.l3, p.l2, p.l1);
    ClearedOk(s, r, pool, p);
    assert e.flags.user ==> Live(s.mem, r, Leaf(p.l3, p.l2, p.l1));
    ClearedUnmapParts(s, s1, s', r, pool, p, e);
  }

  lemma ClearedUnmapParts(s: Sys, s1: Sys, s': Sys, r: nat, pool: set<nat>, p: Path, e: Entry)
    requires s.free !! s.own.Keys && Ok(s1, r, pool) && Ok(s', r, pool) && Shrinks(s1, s', r) && FreedOnWalk(s1, s', p)
    requires NoEmptyWalk(s'.mem, r, p)
    requires SameLookups(s.mem, s1.mem, r, {p}) && SameGiants(s.mem, s1.mem, r) && KeepsData(s.mem, s1.mem, s.own, {})
    requires Lookup(s1.mem, r, p) == None && Lookup(s.mem, r, p) == Some(Mapping(e.frame, e.flags)) && !Big(s.mem, r, p)
    requires s1.free == s.free && s1.own == if e.flags.user then s.own - {e.frame} else s.own
    requires e.flags.user ==> e.frame in s.own
    ensures UnmapStep(s, s', r, pool, p, Some(e))
  {
    hide Space, Lookup, Big, Giant, HugeUser, Entries, NoEmptyWalk, OnWalk;
    forall q: Path | q != p ensures Lookup(s'.mem, r, q) == Lookup(s.mem, r, q) {
      assert Lookup(s1.mem, r, q) == Lookup(s.mem, r, q);
    }
    GiantsTrans(s.mem, s1.mem, s'.mem, r);
    forall f: nat | f in s.own ==> s.own[f].Leaf? ensures Get(s'.mem, f) == Get(s.mem, f) {
      assert Get(s1.mem, f) == Get(s.mem, f);
    }
    assert s1.own.Keys == if e.flags.user then s.own.Keys - {e.frame} else s.own.Keys;
    assert e.flags.user ==> e.frame !in s1.free + s1.own.Keys;
  }

  /** Clearing a 2 MiB entry unmaps its slot and nothing else. */
  lemma BigCleared(s: Sys, r: nat, pool: set<nat>, p: Path)
    requires Ok(s, r, pool) && UserPage(p) && Big(s.mem, r, p)
    ensures var mem' := Store(s.mem, FrameOf(s.mem, r, Pd(p.l3)), p.l2, ZERO_ENTRY);
      && Space(mem', r, s.own, pool) && SameOutsideSlot(s.mem, mem', r, p) && Lookup(mem', r, p) == None
      && KeepsData(s.mem, mem', s.own, {})
  {
    hide Stored;
    var n := Pd(p.l3);
    var mem' := Store(s.mem, FrameOf(s.mem, r, n), p.l2, ZERO_ENTRY);
    assert Live(s.mem, r, n) && Live(s.mem, r, Pdpt);
    StoreStored(s.mem, s.own, FrameOf(s.mem, r, n), p.l2, ZERO_ENTRY);
    InertNode(s.mem, r, s.own, n, p.l2, ZERO_ENTRY);
    StoreReads(s.mem, r, s.own, n, p.l2, ZERO_ENTRY);
    assert SameNode(s.mem, mem', r, Pdpt) && SameNode(s.mem, mem', r, n);
    forall q: Path
      ensures SealedAt(mem', r, s.own, pool, q)
      ensures q.(l1 := p.l1) != p ==> Lookup(mem', r, q) == Lookup(s.mem, r, q)
      ensures q == p ==> Lookup(mem', r, q) == None
    {
      assert SealedAt(s.mem, r, s.own, pool, q);
      if !Hits(n, p.l2, q) {
        WalkStore(s.mem, r, s.own, pool, n, p.l2, ZERO_ENTRY, q);
      } else {
        assert q == Path(0, p.l3, p.l2, q.l1);
      }
    }
  }

  lemma UnmapBig(s: Sys, r: nat, pool: set<nat>, p: Path)
    requires Ok(s, r, pool) && UserPage(p) && Big(s.mem, r, p)
    ensures UnmapStep(s, s.(mem := Store(s.mem, FrameOf(s.mem, r, Pd(p.l3)), p.l2, ZERO_ENTRY)), r, pool, p,
                      Some(PdEntry(s.mem, r, p.l3, p.l2)))
  {
    hide Space, SameLookups, KeepsData, SameOutsideSlot, Store;
    BigCleared(s, r, pool, p);
    assert Lookup(s.mem, r, p).Some?;
  }

  lemma UnmapNone(s: Sys, r: nat, pool: set<nat>, p: Path)
    requires Ok(s, r, pool) && Lookup(s.mem, r, p) == None
    ensures UnmapStep(s, s, r, pool, p, None)
  {
  }

  lemma PruneTrans(s0: Sys, s1: Sys, s2: Sys, r: nat, pool: set<nat>)
    requires Shrinks(s0, s1, r) && Shrinks(s1, s2, r) && Ok(s1, r, pool)
    ensures Shrinks(s0, s2, r)
  {
    hide Space;
    ShrinksTrans(s0, s1, s2, r);
  }

  lemma RootFrame(s: Sys, r: nat)
    ensures Live(s.mem, r, Root) && FrameOf(s.mem, r, Root) == r
  {
  }

  class Machine {
    const pmm: PmmAllocator
    var mem: Memory
    var cr3: nat

    constructor (pmm: PmmAllocator, mem: Memory, cr3: nat)
      requires pmm.Valid()
      ensures Valid() && this.pmm == pmm && this.mem == mem && this.cr3 == cr3
    {
      this.pmm, this.mem, this.cr3 := pmm, mem, cr3;
    }

    ghost predicate Valid()
      reads this, pmm
    {
      pmm.Valid()
    }

    ghost function S(own: map<nat, Node>): Sys
      requires Valid()
      reads this, pmm
    {
      Sys(mem, own, pmm.Free())
    }

    /** The next-level table below entry `idx` of table `f`, created zeroed when absent. */
    method TryGetOrCreateTable(f: nat, idx: Idx, ghost r: nat, ghost pool: set<nat>, ghost n: Node, ghost c: Node,
                               ghost own: map<nat, Node>)
      returns (t: Option<nat>, ghost own': map<nat, Node>)
      requires Valid() && Ready(S(own), r, pool, n, idx, c) && f == FrameOf(mem, r, n)
      modifies this`mem, pmm
      ensures Valid() && pmm.Tail() == old(pmm.Tail()) && TableStep(old(S(own)), S(own'), r, n, idx, c, PAGE_USER_RW, t)
    {
      hide Space;
      assert Entries(mem, f)[idx] == EntryOf(mem, r, c);
      if Entries(mem, f)[idx].flags.present {
        return Some(Entries(mem, f)[idx].frame), own;
      }
      var page := pmm.Alloc();
      if page.None? {
        return None, own;
      }
      mem := WithTable(mem, f, idx, page.value, PAGE_USER_RW);
      return page, own[page.value := c];
    }

    /** Fallible mapping in the active root. */
    method TryMap4K(p: Path, paddr: nat, flags: Flags, ghost pool: set<nat>, ghost own: map<nat, Node>)
      returns (ok: bool, ghost own': map<nat, Node>)
      requires Valid() && Mappable(S(own), cr3, pool, p, paddr, flags)
      modifies this`mem, pmm
      ensures Valid() && pmm.Tail() == old(pmm.Tail()) && MapStep(old(S(own)), S(own'), cr3, pool, p, paddr, flags, ok)
      ensures MapSlots(old(mem), mem, cr3, p) && (ok ==> Mapped(mem, cr3, p, Entry(paddr, flags)))
      ensures ok && flags.user ==> UserReaches(mem, cr3, p)
      ensures !ok && old(pmm.Free()) == {} ==> S(own') == old(S(own))
    {
      hide Ok, Grows, Ready, TableStep, MapStep, Missing, Lookup, Live, LivePt, LivePd, FrameOf, EntryOf, PtEntry,
           IsScratch, MapSlots, Mapped, UserReaches;
      ghost var s := S(own);
      assert Ok(s, cr3, pool);
      GrowsRefl(s, cr3);
      MapSlotsRefl(mem, cr3, p);
      if flags.user && IsScratch(p) {
        FailMap(s, s, cr3, pool, p, paddr, flags);
        return false, own;
      }
      if Lookup(mem, cr3, p).Some? {
        FailMap(s, s, cr3, pool, p, paddr, flags);
        return false, own;
      }
      RootReady(s, cr3, pool);
      var t3, own3 := TryGetOrCreateTable(cr3, p.l4, cr3, pool, Root, Pdpt, own);
      ghost var s3 := S(own3);
      StepTrans(s, s, s3, cr3, pool, p, Root, 0, Pdpt, t3);
      StepSlots(s, s, s3, cr3, pool, p, Root, 0, Pdpt, t3);
      if t3.None? {
        FailMap(s, s3, cr3, pool, p, paddr, flags);
        return false, own3;
      }
      PdReady(s, s3, cr3, pool, p, t3.value);
      var t2, own2 := TryGetOrCreateTable(t3.value, p.l3, cr3, pool, Pdpt, Pd(p.l3), own3);
      ghost var s2 := S(own2);
      StepTrans(s, s3, s2, cr3, pool, p, Pdpt, p.l3, Pd(p.l3), t2);
      StepSlots(s, s3, s2, cr3, pool, p, Pdpt, p.l3, Pd(p.l3), t2);
      if t2.None? {
        FailMap(s, s2, cr3, pool, p, paddr, flags);
        return false, own2;
      }
      PtReady(s3, s2, cr3, pool, p, t2.value);
      var t1, own1 := TryGetOrCreateTable(t2.value, p.l2, cr3, pool, Pd(p.l3), Pt(p.l3, p.l2), own2);
      ghost var s1 := S(own1);
      StepTrans(s, s2, s1, cr3, pool, p, Pd(p.l3), p.l2, Pt(p.l3, p.l2), t1);
      StepSlots(s, s2, s1, cr3, pool, p, Pd(p.l3), p.l2, Pt(p.l3, p.l2), t1);
      if t1.None? {
        FailMap(s, s1, cr3, pool, p, paddr, flags);
        return false, own1;
      }
      LeafReady(s2, s1, cr3, pool, p, t1.value);
      FinishMap(s, s1, cr3, pool, p, paddr, flags);
      MapSlotsTrans(s.mem, s1.mem, MapLeaf(mem, cr3, t3.value, t2.value, t1.value, p, Entry(paddr, flags)), cr3, p);
      mem := MapLeaf(mem, cr3, t3.value, t2.value, t1.value, p, Entry(paddr, flags));
      return true, if flags.user then own1[paddr := Leaf(p.l3, p.l2, p.l1)] else own1;
    }

    /** Fallible mapping in another root: CR3 is switched over and back. */
    method TryMap4KTarget(p: Path, paddr: nat, flags: Flags, target: nat, ghost pool: set<nat>, ghost own: map<nat,
                          Node>)
      returns (ok: bool, ghost own': map<nat, Node>)
      requires Valid() && Mappable(S(own), target, pool, p, paddr, flags)
      modifies this, pmm
      ensures Valid() && pmm.Tail() == old(pmm.Tail()) && cr3 == old(cr3)
      ensures MapStep(old(S(own)), S(own'), target, pool, p, paddr, flags, ok)
      ensures MapSlots(old(mem), mem, target, p) && (ok ==> Mapped(mem, target, p, Entry(paddr, flags)))
      ensures ok && flags.user ==> UserReaches(mem, target, p)
      ensures !ok && old(pmm.Free()) == {} ==> S(own') == old(S(own))
    {
      hide Mappable, MapStep, MapSlots, Mapped, UserReaches;
      var savedCr3 := cr3;
      cr3 := target;
      ok, own' := TryMap4K(p, paddr, flags, pool, own);
      cr3 := savedCr3;
    }

    /** Return an allocated frame; calling it on a free frame would be a double free. */
    method Release(f: nat, ghost pool: set<nat>)
      requires Valid() && pmm.Manages(pool) && f in pool && f !in pmm.Free()
      modifies pmm
      ensures Valid() && pmm.Tail() == old(pmm.Tail()) && pmm.Free() == old(pmm.Free()) + {f}
    {
      pmm.FreePage(f);
    }

    /** Drop table `g` below entry `idx` of table `f` if it is empty. */
    method PruneTable(f: nat, idx: Idx, g: nat, ghost r: nat, ghost pool: set<nat>, ghost n: Node, ghost c: Node,
                      ghost own: map<nat, Node>)
      returns (pruned: bool, ghost own': map<nat, Node>)
      requires Valid() && pmm.Manages(pool) && Ok(S(own), r, pool)
      requires Live(mem, r, n) && Live(mem, r, c) && Child(n, idx) == Some(c) && !c.Leaf?
      requires f == FrameOf(mem, r, n) && g == FrameOf(mem, r, c)
      modifies this`mem, pmm
      ensures Valid() && pmm.Tail() == old(pmm.Tail()) && S(own') == Prune(old(S(own)), r, n, idx, c)
      ensures pruned == AllZero(Entries(old(mem), g))
    {
      pruned, own' := AllZero(Entries(mem, g)), own;
      if pruned {
        mem := Store(mem, f, idx, ZERO_ENTRY);
        Release(g, pool);
        own' := own - {g};
      }
    }

    /** Unmap `p` in the active root and reclaim the tables that became empty. */
    method UnmapAndFreeEmpty(p: Path, ghost pool: set<nat>, ghost own: map<nat, Node>)
      returns (res: Option<Entry>, ghost own': map<nat, Node>)
      requires Valid() && pmm.Manages(pool) && Ok(S(own), cr3, pool) && UserPage(p) && !Giant(mem, cr3, p.l3)
      modifies this`mem, pmm
      ensures Valid() && pmm.Tail() == old(pmm.Tail()) && UnmapStep(old(S(own)), S(own'), cr3, pool, p, res)
      ensures res.Some? && !Big(old(mem), cr3, p) ==> UnmapSlots(old(mem), mem, cr3, p)
    {
      hide Ok, Shrinks, Prune, UnmapStep, UnmapSlots, PruneSlots, SlotOf;
      own' := own;
      ghost var s := S(own);
      var e4 := Entries(mem, cr3)[p.l4];
      if !e4.flags.present {
        UnmapNone(s, cr3, pool, p);
        return None, own;
      }
      var e3 := Entries(mem, e4.frame)[p.l3];
      if !e3.flags.present {
        UnmapNone(s, cr3, pool, p);
        return None, own;
      }
      var e2 := Entries(mem, e3.frame)[p.l2];
      if !e2.flags.present || e2.flags.huge {
        // unmap(vaddr)
        if !e2.flags.present {
          UnmapNone(s, cr3, pool, p);
          return None, own;
        }
        UnmapBig(s, cr3, pool, p);
        mem := Store(mem, e3.frame, p.l2, ZERO_ENTRY);
        return Some(e2), own;
      }
      var e1 := Entries(mem, e2.frame)[p.l1];
      if !e1.flags.present {
        UnmapNone(s, cr3, pool, p);
        return None, own;
      }
      mem := Store(mem, e2.frame, p.l1, ZERO_ENTRY);
      own' := if e1.flags.user then own - {e1.frame} else own;
      ghost var s1 := S(own');
      assert s1 == Cleared(s, cr3, p);
      ClearedOk(s, cr3, pool, p);
      own' := PruneWalk(p, e4.frame, e3.frame, e2.frame, pool, own');
      ClearedSlots(s.mem, s1.mem, cr3, p);
      ClearThenPrune(s.mem, s1.mem, mem, cr3, p);
      ClearedUnmap(s, S(own'), cr3, pool, p);
      res := Some(e1);
    }

    /** Drop the tables of the walk of `p` that hold only zero entries, innermost first. */
    method PruneWalk(p: Path, l3: nat, l2: nat, l1: nat, ghost pool: set<nat>, ghost own: map<nat, Node>)
      returns (ghost own': map<nat, Node>)
      requires Valid() && pmm.Manages(pool) && Ok(S(own), cr3, pool) && UserPage(p) && LivePt(mem, cr3, p.l3, p.l2)
      requires l3 == FrameOf(mem, cr3, Pdpt) && l2 == FrameOf(mem, cr3, Pd(p.l3))
      requires l1 == FrameOf(mem, cr3, Pt(p.l3, p.l2))
      modifies this`mem, pmm
      ensures Valid() && pmm.Tail() == old(pmm.Tail()) && Ok(S(own'), cr3, pool) && Shrinks(old(S(own)), S(own'), cr3)
      ensures FreedOnWalk(old(S(own)), S(own'), p) && NoEmptyWalk(mem, cr3, p) && PruneSlots(old(mem), mem, cr3, p)
    {
      hide Ok, Shrinks, Prune, FrameOf, FreedOnWalk, NoEmptyWalk, AllZero, PruneSlots;
      var i, j := p.l3, p.l2;
      ghost var s := S(own);
      assert Live(mem, cr3, Pt(i, j)) && Live(mem, cr3, Pd(i)) && Live(mem, cr3, Pdpt) && Live(mem, cr3, Root);
      PruneShrinks(s, cr3, pool, Pd(i), j, Pt(i, j));
      PruneFrees(s, cr3, pool, Pd(i), j, Pt(i, j), p);
      PrunedSlots(s, cr3, pool, Pd(i), j, Pt(i, j), p);
      var pruned;
      pruned, own' := PruneTable(l2, j, l1, cr3, pool, Pd(i), Pt(i, j), own);
      ghost var s1 := S(own');
      if !pruned {
        PruneKeeps(s, cr3, Pd(i), j, Pt(i, j));
        WalkFull(mem, cr3, p, Pt(i, j));
        return;
      }
      assert SameNode(s.mem, s1.mem, cr3, Pdpt);
      PruneShrinks(s1, cr3, pool, Pdpt, i, Pd(i));
      PruneFrees(s1, cr3, pool, Pdpt, i, Pd(i), p);
      PrunedSlots(s1, cr3, pool, Pdpt, i, Pd(i), p);
      pruned, own' := PruneTable(l3, i, l2, cr3, pool, Pdpt, Pd(i), own');
      ghost var s2 := S(own');
      PruneTrans(s, s1, s2, cr3, pool);
      FreedTrans(s, s1, s2, cr3, p);
      PruneSlotsTrans(s.mem, s1.mem, s2.mem, cr3, p);
      if !pruned {
        PruneKeeps(s1, cr3, Pdpt, i, Pd(i));
        WalkFull(mem, cr3, p, Pd(i));
        return;
      }
      RootFrame(s2, cr3);
      PruneShrinks(s2, cr3, pool, Root, 0, Pdpt);
      PruneFrees(s2, cr3, pool, Root, 0, Pdpt, p);
      PrunedSlots(s2, cr3, pool, Root, 0, Pdpt, p);
      pruned, own' := PruneTable(cr3, p.l4, l3, cr3, pool, Root, Pdpt, own');
      PruneTrans(s, s2, S(own'), cr3, pool);
      FreedTrans(s, s2, S(own'), cr3, p);
      PruneSlotsTrans(s.mem, s2.mem, mem, cr3, p);
      if pruned {
        WalkGone(mem, cr3, p);
      } else {
        PruneKeeps(s2, cr3, Root, 0, Pdpt);
        WalkFull(mem, cr3, p, Pdpt);
      }
    }
  }
}
