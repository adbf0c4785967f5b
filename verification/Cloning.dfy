/**
  What `create_pml4` (paging.rs) builds: the relation between the active root and the
  new one, and the invariant of a root under construction. `m0` is memory when
  construction starts, `src` the active root, `r` the new root and `pool` the frames
  that were free at that moment.
 */
module Cloning {
  import opened Prelude
  import opened PageTables
  import opened Paging

  /** No walk from `src` reads a frame of `pool`. */
  ghost predicate Closed(mem: Memory, src: nat, pool: set<nat>) {
    src !in pool && forall p: Path :: SealedAt(mem, src, map[], pool, p)
  }

  /**
    A root under construction: its tree is sound, every frame of the pool is free, owned
    by it or in `hand` (allocated, not yet linked), nothing outside the pool has changed,
    and it maps no user 2 MiB page.
   */
  ghost predicate Building(m0: Memory, s: Sys, r: nat, pool: set<nat>, hand: set<nat>) {
    && Ok(s, r, pool) && s.free + s.own.Keys + hand == pool && hand !! s.free && hand !! s.own.Keys
    && AgreeExcept(m0, s.mem, pool)
    && forall i: Idx, j: Idx :: !HugeUser(s.mem, r, i, j)
  }

  // ----- What a clone is ------------------------------------------------------

  /** Flags kept on a copied table entry: the named bits, less accessed, dirty and huge. */
  function TableFlags(f: Flags): Flags {
    f.(accessed := false, dirty := false, huge := false, other := 0)
  }

  function Unaccessed(e: Entry): Entry {
    e.(flags := e.flags.(accessed := false, dirty := false))
  }

  /** The 1 GiB slot that holds the scratch page is never copied. */
  predicate ScratchSlot(i: Idx) {
    OverlapsKernelScratch(i * 0x4000_0000, i * 0x4000_0000 + 0x4000_0000)
  }

  /**
    One PTE of the user range: a user leaf is a private copy (a pool frame with the
    same bytes and flags), anything else is carried over unchanged.
   */
  predicate ClonedLeaf(m0: Memory, src: nat, mem: Memory, r: nat, pool: set<nat>, i: Idx, j: Idx, k: Idx) {
    var e, c := PtEntry(m0, src, i, j, k), PtEntry(mem, r, i, j, k);
    if e.flags.present && e.flags.user
    then c.flags == e.flags && c.frame in pool && Get(mem, c.frame) == Get(m0, e.frame)
    else c == e
  }

  /** One PDE: user-range tables are cloned (or dropped when `copy` is off), the rest is shared. */
  predicate ClonedSlot(m0: Memory, src: nat, mem: Memory, r: nat, pool: set<nat>, copy: bool, i: Idx, j: Idx) {
    var e, c := PdEntry(m0, src, i, j), PdEntry(mem, r, i, j);
    if !e.flags.present || (InUser(i, j) && !copy) then c == ZERO_ENTRY
    else if InUser(i, j) && !e.flags.huge then
      LivePt(mem, r, i, j) && c.flags == e.flags && forall k: Idx :: ClonedLeaf(m0, src, mem, r, pool, i, j, k)
    else c == e && (InUser(i, j) ==> !e.flags.user)
  }

  /** One PDPTE. */
  predicate ClonedPd(m0: Memory, src: nat, mem: Memory, r: nat, pool: set<nat>, copy: bool, i: Idx) {
    var e, c := PdptEntry(m0, src, i), PdptEntry(mem, r, i);
    if !e.flags.present || ScratchSlot(i) then c == ZERO_ENTRY
    else if e.flags.huge then
      if i * 0x4000_0000 >= USER_CODE_ADDR && !copy then c == ZERO_ENTRY
      else c == e.(flags := e.flags.(accessed := false, dirty := false)) && (copy ==> !e.flags.user)
    else
      && LivePd(mem, r, i) && c.flags == TableFlags(e.flags)
      && forall j: Idx :: ClonedSlot(m0, src, mem, r, pool, copy, i, j)
  }

  /** The whole root: kernel PML4 entries shared, PML4[0] rebuilt slot by slot. */
  ghost predicate ClonedRoot(m0: Memory, src: nat, mem: Memory, r: nat, pool: set<nat>, copy: bool) {
    && (forall a: Idx :: a != 0 ==> Entries(mem, r)[a] == Entries(m0, src)[a])
    && LivePdpt(mem, r) == LivePdpt(m0, src)
    && (LivePdpt(m0, src) ==>
        && TopEntry(mem, r).flags == TableFlags(TopEntry(m0, src).flags)
        && forall i: Idx :: ClonedPd(m0, src, mem, r, pool, copy, i))
  }

  // ----- Reading the source ---------------------------------------------------

  /** The source's tables still read as they did at the start. */
  lemma SrcRead(m0: Memory, mem: Memory, src: nat, pool: set<nat>, i: Idx, j: Idx, k: Idx)
    requires Closed(m0, src, pool) && AgreeExcept(m0, mem, pool)
    ensures Entries(mem, src) == Entries(m0, src)
    ensures LivePdpt(m0, src) ==> PdptEntry(mem, src, i) == PdptEntry(m0, src, i)
    ensures LivePd(m0, src, i) ==> PdEntry(mem, src, i, j) == PdEntry(m0, src, i, j)
    ensures LivePt(m0, src, i, j) ==> PtEntry(mem, src, i, j, k) == PtEntry(m0, src, i, j, k)
  {
    assert SealedAt(m0, src, map[], pool, Path(0, i, j, k));
    if LivePdpt(m0, src) {
      assert Entries(mem, TopEntry(m0, src).frame) == Entries(m0, TopEntry(m0, src).frame);
      if LivePd(m0, src, i) {
        assert Entries(mem, PdptEntry(m0, src, i).frame) == Entries(m0, PdptEntry(m0, src, i).frame);
      }
    }
  }

  // ----- Steps of the construction --------------------------------------------

  /** A fresh root that shares PML4[1..511] with the source is under construction. */
  lemma RootBuilding(m0: Memory, src: nat, pool: set<nat>, r: nat)
    requires Closed(m0, src, pool) && r in pool
    ensures var mem := m0[r := TableFrame([ZERO_ENTRY] + Entries(m0, src)[1..])];
      && Building(m0, Sys(mem, map[r := Root], pool - {r}), r, pool, {})
      && !LivePdpt(mem, r) && (forall a: Idx :: a != 0 ==> Entries(mem, r)[a] == Entries(m0, src)[a])
  {
    var mem := m0[r := TableFrame([ZERO_ENTRY] + Entries(m0, src)[1..])];
    assert AgreeExcept(m0, mem, {r});
    forall p: Path ensures SealedAt(mem, r, map[r := Root], pool, p) {
      assert SealedAt(m0, src, map[], pool, p);
      RootSealed(m0, src, pool, r, p);
    }
  }

  lemma RootSealed(m0: Memory, src: nat, pool: set<nat>, r: nat, p: Path)
    requires src !in pool && SealedAt(m0, src, map[], pool, p) && r in pool
    ensures var mem := m0[r := TableFrame([ZERO_ENTRY] + Entries(m0, src)[1..])];
      SealedAt(mem, r, map[r := Root], pool, p)
  {
    var mem := m0[r := TableFrame([ZERO_ENTRY] + Entries(m0, src)[1..])];
    if p.l4 != 0 {
      var e4 := Entries(m0, src)[p.l4];
      assert Entries(mem, r)[p.l4] == e4;
      if e4.flags.present {
        assert Entries(mem, e4.frame) == Entries(m0, e4.frame);
        var e3 := Entries(m0, e4.frame)[p.l3];
        if e3.flags.present {
          assert Entries(mem, e3.frame) == Entries(m0, e3.frame);
        }
      }
    }
  }

  /** Creating a table keeps the construction invariant. */
  lemma TableBuilding(m0: Memory, s: Sys, r: nat, pool: set<nat>, n: Node, idx: Idx, g: nat, flags: Flags, c: Node)
    requires Building(m0, s, r, pool, {}) && Live(s.mem, r, n) && Child(n, idx) == Some(c) && !c.Leaf?
    requires !EntryOf(s.mem, r, c).flags.present && flags.present && !flags.huge && g in s.free
    ensures var s' := Sys(WithTable(s.mem, FrameOf(s.mem, r, n), idx, g, flags), s.own[g := c], s.free - {g});
      && Building(m0, s', r, pool, {})
      && SameElsewhere(s.mem, s'.mem, r, n, idx)
      && KeepsData(s.mem, s'.mem, s.own, s.free)
      && Live(s'.mem, r, c) && EntryOf(s'.mem, r, c) == Entry(g, flags) && AllZero(Entries(s'.mem, g))
  {
    var s' := Sys(WithTable(s.mem, FrameOf(s.mem, r, n), idx, g, flags), s.own[g := c], s.free - {g});
    NewTable(s.mem, r, s.own, pool, n, idx, g, flags, c);
    TableAgree(m0, s, s', r, pool, g);
  }

  lemma TableAgree(m0: Memory, s: Sys, s': Sys, r: nat, pool: set<nat>, g: nat)
    requires Building(m0, s, r, pool, {}) && g in s.free && KeepsData(s.mem, s'.mem, s.own, {g})
    requires SameGiants(s.mem, s'.mem, r)
    ensures AgreeExcept(m0, s'.mem, pool) && KeepsData(s.mem, s'.mem, s.own, s.free)
    ensures forall i: Idx, j: Idx :: !HugeUser(s'.mem, r, i, j)
  {
    hide Space, HugeUser;
    forall f: nat | f !in pool ensures Get(s'.mem, f) == Get(m0, f) {
      assert f !in s.own.Keys;
      assert Get(s.mem, f) == Get(m0, f);
    }
  }

  /** A store into the root's own tables that keeps ownership keeps the invariant. */
  lemma StoreBuilding(m0: Memory, s: Sys, mem': Memory, r: nat, pool: set<nat>, f: nat)
    requires Building(m0, s, r, pool, {}) && f in s.own && !s.own[f].Leaf?
    requires AgreeExcept(s.mem, mem', {f}) && Space(mem', r, s.own, pool)
    requires forall i: Idx, j: Idx :: !HugeUser(mem', r, i, j)
    ensures Building(m0, s.(mem := mem'), r, pool, {}) && KeepsData(s.mem, mem', s.own, s.free)
  {
    hide Space, HugeUser;
  }

  /** Sharing a PDE: a kernel-range entry, or a kernel 2 MiB page. */
  lemma SharePde(m0: Memory, s: Sys, src: nat, r: nat, pool: set<nat>, i: Idx, j: Idx)
    requires Building(m0, s, r, pool, {}) && Closed(m0, src, pool)
    requires LivePd(s.mem, r, i) && PdEntry(s.mem, r, i, j) == ZERO_ENTRY && LivePd(m0, src, i)
    requires var x := PdEntry(m0, src, i, j); x.flags.present && (InUser(i, j) ==> x.flags.huge && !x.flags.user)
    ensures var s' := s.(mem := Store(s.mem, FrameOf(s.mem, r, Pd(i)), j, PdEntry(m0, src, i, j)));
      && Building(m0, s', r, pool, {})
      && SameElsewhere(s.mem, s'.mem, r, Pd(i), j) && KeepsData(s.mem, s'.mem, s.own, s.free)
      && PdEntry(s'.mem, r, i, j) == PdEntry(m0, src, i, j)
  {
    hide Stored, SealedAt;
    var x := PdEntry(m0, src, i, j);
    var mem' := Store(s.mem, FrameOf(s.mem, r, Pd(i)), j, x);
    assert Live(s.mem, r, Pd(i));
    StoreStored(s.mem, s.own, FrameOf(s.mem, r, Pd(i)), j, x);
    InertNode(s.mem, r, s.own, Pd(i), j, x);
    PdStored(s.mem, r, s.own, i, j, x);
    forall p: Path ensures SealedAt(mem', r, s.own, pool, p) {
      assert SealedAt(s.mem, r, s.own, pool, p);
      if Hits(Pd(i), j, p) {
        assert SealedAt(m0, src, map[], pool, p);
        SharedPdeSealed(m0, s.mem, src, r, s.own, pool, i, j, p);
      } else {
        WalkStore(s.mem, r, s.own, pool, Pd(i), j, x, p);
      }
    }
    forall a: Idx, b: Idx ensures !HugeUser(mem', r, a, b) {
      assert !HugeUser(s.mem, r, a, b);
      assert (a == i && b == j) || SameNode(s.mem, mem', r, Pt(a, b));
    }
    StoreBuilding(m0, s, mem', r, pool, FrameOf(s.mem, r, Pd(i)));
  }

  /** After a store in PD `i` the walk still gets there and reads it back. */
  lemma PdStored(mem: Memory, r: nat, own: map<nat, Node>, i: Idx, j: Idx, x: Entry)
    requires WellFormed(mem, r, own) && LivePd(mem, r, i)
    ensures var mem' := Store(mem, FrameOf(mem, r, Pd(i)), j, x);
      && LivePd(mem', r, i) && PdEntry(mem', r, i, j) == x
      && FrameOf(mem', r, Pdpt) == FrameOf(mem, r, Pdpt) && FrameOf(mem', r, Pd(i)) == FrameOf(mem, r, Pd(i))
      && own[FrameOf(mem, r, Pdpt)] == Pdpt && own[FrameOf(mem, r, Pd(i))] == Pd(i)
  {
    assert Live(mem, r, Pd(i)) && Live(mem, r, Pdpt);
    StoreReads(mem, r, own, Pd(i), j, x);
    StoreFrame(mem, r, own, Pd(i), j, x, Pdpt);
    StoreFrame(mem, r, own, Pd(i), j, x, Pd(i));
  }

  lemma SharedPdeSealed(m0: Memory, mem: Memory, src: nat, r: nat, own: map<nat, Node>, pool: set<nat>, i: Idx, j: Idx,
                        p: Path)
    requires WellFormed(mem, r, own) && LivePd(mem, r, i) && LivePd(m0, src, i)
    requires SealedAt(m0, src, map[], pool, p) && Hits(Pd(i), j, p)
    ensures SealedAt(Store(mem, FrameOf(mem, r, Pd(i)), j, PdEntry(m0, src, i, j)), r, own, pool, p)
  {
    var x := PdEntry(m0, src, i, j);
    PdStored(mem, r, own, i, j, x);
    assert Live(mem, r, Pd(i)) && Live(mem, r, Pdpt);
  }

  /** Sharing a 1 GiB kernel page. */
  lemma ShareGiant(m0: Memory, s: Sys, src: nat, r: nat, pool: set<nat>, i: Idx)
    requires Building(m0, s, r, pool, {}) && Closed(m0, src, pool)
    requires LivePdpt(s.mem, r) && PdptEntry(s.mem, r, i) == ZERO_ENTRY && LivePdpt(m0, src)
    requires PdptEntry(m0, src, i).flags.present && PdptEntry(m0, src, i).flags.huge
    ensures var s' := s.(mem := Store(s.mem, FrameOf(s.mem, r, Pdpt), i, Unaccessed(PdptEntry(m0, src, i))));
      && Building(m0, s', r, pool, {})
      && SameElsewhere(s.mem, s'.mem, r, Pdpt, i) && KeepsData(s.mem, s'.mem, s.own, s.free)
      && PdptEntry(s'.mem, r, i) == Unaccessed(PdptEntry(m0, src, i))
  {
    hide Stored, SealedAt;
    var x := Unaccessed(PdptEntry(m0, src, i));
    var mem' := Store(s.mem, FrameOf(s.mem, r, Pdpt), i, x);
    assert Live(s.mem, r, Pdpt);
    StoreStored(s.mem, s.own, FrameOf(s.mem, r, Pdpt), i, x);
    InertNode(s.mem, r, s.own, Pdpt, i, x);
    StoreReads(s.mem, r, s.own, Pdpt, i, x);
    forall p: Path ensures SealedAt(mem', r, s.own, pool, p) {
      assert SealedAt(s.mem, r, s.own, pool, p);
      if Hits(Pdpt, i, p) {
        assert SealedAt(m0, src, map[], pool, p);
        SharedGiantSealed(m0, s.mem, src, r, s.own, pool, i, p);
      } else {
        WalkStore(s.mem, r, s.own, pool, Pdpt, i, x, p);
      }
    }
    forall a: Idx, b: Idx ensures !HugeUser(mem', r, a, b) {
      assert !HugeUser(s.mem, r, a, b);
      assert a == i || SameNode(s.mem, mem', r, Pt(a, b));
    }
    StoreBuilding(m0, s, mem', r, pool, FrameOf(s.mem, r, Pdpt));
  }

  lemma SharedGiantSealed(m0: Memory, mem: Memory, src: nat, r: nat, own: map<nat, Node>, pool: set<nat>, i: Idx,
                          p: Path)
    requires WellFormed(mem, r, own) && own.Keys <= pool && LivePdpt(mem, r) && LivePdpt(m0, src)
    requires AgreeExcept(m0, mem, pool)
    requires PdptEntry(m0, src, i).flags.present && SealedAt(m0, src, map[], pool, p) && Hits(Pdpt, i, p)
    ensures SealedAt(Store(mem, FrameOf(mem, r, Pdpt), i, Unaccessed(PdptEntry(m0, src, i))), r, own, pool, p)
  {
    var x := Unaccessed(PdptEntry(m0, src, i));
    var mem' := Store(mem, FrameOf(mem, r, Pdpt), i, x);
    assert Live(mem, r, Pdpt);
    StoreReads(mem, r, own, Pdpt, i, x);
    assert own[FrameOf(mem, r, Pdpt)] == Pdpt;
    assert x.frame !in pool;
    assert Entries(mem', x.frame) == Entries(m0, x.frame);
  }

  /** Carrying over a PTE that is not a present user leaf. */
  lemma ShareLeaf(m0: Memory, s: Sys, r: nat, pool: set<nat>, i: Idx, j: Idx, k: Idx, x: Entry)
    requires Building(m0, s, r, pool, {}) && LivePt(s.mem, r, i, j) && PtEntry(s.mem, r, i, j, k) == ZERO_ENTRY
    requires !(x.flags.present && x.flags.user)
    ensures var s' := s.(mem := Store(s.mem, FrameOf(s.mem, r, Pt(i, j)), k, x));
      && Building(m0, s', r, pool, {})
      && SameElsewhere(s.mem, s'.mem, r, Pt(i, j), k) && KeepsData(s.mem, s'.mem, s.own, s.free)
      && PtEntry(s'.mem, r, i, j, k) == x
  {
    hide Stored;
    var mem' := Store(s.mem, FrameOf(s.mem, r, Pt(i, j)), k, x);
    assert Live(s.mem, r, Pt(i, j));
    StoreStored(s.mem, s.own, FrameOf(s.mem, r, Pt(i, j)), k, x);
    InertNode(s.mem, r, s.own, Pt(i, j), k, x);
    StoreReads(s.mem, r, s.own, Pt(i, j), k, x);
    forall p: Path ensures SealedAt(mem', r, s.own, pool, p) {
      assert SealedAt(s.mem, r, s.own, pool, p);
      if Hits(Pt(i, j), k, p) {
        LeafWalk(s.mem, r, s.own, pool, i, j, k, x);
      } else {
        WalkStore(s.mem, r, s.own, pool, Pt(i, j), k, x, p);
      }
    }
    LeafGiants(s.mem, mem', r, i, j, k);
    StoreBuilding(m0, s, mem', r, pool, FrameOf(s.mem, r, Pt(i, j)));
  }

  /** Filling a frame in hand changes nothing about the root. */
  lemma FillHand(m0: Memory, s: Sys, mem': Memory, r: nat, pool: set<nat>, g: nat)
    requires Building(m0, s, r, pool, {g}) && AgreeExcept(s.mem, mem', {g})
    ensures Building(m0, s.(mem := mem'), r, pool, {g})
    ensures forall m: Node :: SameNode(s.mem, mem', r, m)
    ensures KeepsData(s.mem, mem', s.own, s.free + {g}) && SameLookups(s.mem, mem', r, {}) && SameGiants(s.mem, mem', r)
  {
    OutsideChange(s.mem, mem', r, s.own, pool, {g});
    forall i: Idx ensures Giant(mem', r, i) == Giant(s.mem, r, i) {
      assert SameNode(s.mem, mem', r, Pd(i));
    }
    forall a: Idx, b: Idx ensures HugeUser(mem', r, a, b) == HugeUser(s.mem, r, a, b) {
      assert SameNode(s.mem, mem', r, Pt(a, b));
    }
  }

  /** Linking the frame in hand as a user leaf. */
  lemma LinkHand(m0: Memory, s: Sys, r: nat, pool: set<nat>, i: Idx, j: Idx, k: Idx, x: Entry)
    requires Building(m0, s, r, pool, {x.frame}) && LivePt(s.mem, r, i, j) && !PtEntry(s.mem, r, i, j, k).flags.present
    requires x.flags.present && x.flags.user
    ensures var s' := Sys(Store(s.mem, FrameOf(s.mem, r, Pt(i, j)), k, x), s.own[x.frame := Leaf(i, j, k)], s.free);
      && Building(m0, s', r, pool, {})
      && SameElsewhere(s.mem, s'.mem, r, Pt(i, j), k) && KeepsData(s.mem, s'.mem, s.own, s.free)
      && PtEntry(s'.mem, r, i, j, k) == x
  {
    var f := FrameOf(s.mem, r, Pt(i, j));
    var mem' := Store(s.mem, f, k, x);
    assert Live(s.mem, r, Pt(i, j));
    assert f in s.own && s.own[f] == Pt(i, j);
    SetLeaf(s.mem, r, s.own, pool, i, j, k, x);
    LeafGiants(s.mem, mem', r, i, j, k);
    LinkHandSets(m0, s, mem', r, pool, f, x.frame, Leaf(i, j, k));
  }

  lemma LinkHandSets(m0: Memory, s: Sys, mem': Memory, r: nat, pool: set<nat>, f: nat, g: nat, n: Node)
    requires Building(m0, s, r, pool, {g}) && f in s.own && !s.own[f].Leaf? && AgreeExcept(s.mem, mem', {f})
    requires Space(mem', r, s.own[g := n], pool) && SameGiants(s.mem, mem', r)
    ensures Building(m0, Sys(mem', s.own[g := n], s.free), r, pool, {}) && KeepsData(s.mem, mem', s.own, s.free)
  {
    hide Space, HugeUser, Giant;
    assert s.own[g := n].Keys == s.own.Keys + {g};
  }

  // ----- One construction ------------------------------------------------------

  /** The fixed surroundings of one construction; `sown` is what the source owns. */
  datatype Ctx = Ctx(m0: Memory, src: nat, r: nat, pool: set<nat>, copy: bool, sown: map<nat, Node>)

  const SCRATCH_PATH := Path(0, 1, 0, 0)

  /** The scratch PTE of `src` is reachable through its own tables and empty. */
  ghost predicate ScratchReady(mem: Memory, src: nat, sown: map<nat, Node>) {
    && WellFormed(mem, src, sown) && LivePt(mem, src, 1, 0) && PtEntry(mem, src, 1, 0, 0) == ZERO_ENTRY
    && Get(mem, FrameOf(mem, src, Pt(1, 0))).TableFrame?
  }

  ghost predicate CtxOk(c: Ctx) {
    Closed(c.m0, c.src, c.pool) && (c.copy ==> ScratchReady(c.m0, c.src, c.sown) && c.sown.Keys !! c.pool)
  }

  /** The clone needs a frame for node `n`. */
  ghost predicate Needs(c: Ctx, n: Node) {
    && Live(c.m0, c.src, n)
    && (n.Pd? || n.Pt? || n.Leaf? ==> !ScratchSlot(n.i))
    && (n.Pt? || n.Leaf? ==> c.copy)
  }

  /** State between two steps of the construction. */
  ghost predicate Mid(c: Ctx, s: Sys) {
    && CtxOk(c) && Building(c.m0, s, c.r, c.pool, {})
    && forall f :: f in s.own ==> Needs(c, s.own[f])
  }

  ghost predicate NeedsAll(c: Ctx, ns: set<Node>) {
    forall n :: n in ns ==> Needs(c, n)
  }

  /** The clone needs frames for more than `k` nodes. */
  ghost predicate NeedsMore(c: Ctx, k: int) {
    exists ns: set<Node> :: |ns| > k && NeedsAll(c, ns)
  }

  /** The pool is too small for the clone. */
  ghost predicate TooFewFrames(c: Ctx) {
    NeedsMore(c, |c.pool|)
  }

  /** An ownership map names as many nodes as frames. */
  lemma {:induction false} NodesOwned(own: map<nat, Node>)
    requires forall f, g :: f in own && g in own && own[f] == own[g] ==> f == g
    ensures |own.Values| == |own|
  {
    if f :| f in own {
      var rest := own - {f};
      OneNodeLess(own, f);
      NodesOwned(rest);
      assert own.Keys == rest.Keys + {f};
    } else {
      assert own == map[];
    }
  }

  lemma OneNodeLess(own: map<nat, Node>, f: nat)
    requires f in own && forall g :: g in own && own[g] == own[f] ==> g == f
    ensures |own.Values| == |(own - {f}).Values| + 1
  {
    var rest := own - {f};
    forall n | n in rest.Values ensures n in own.Values && n != own[f] {
      var g :| g in rest && rest[g] == n;
      assert g in own && own[g] == n;
    }
    forall n | n in own.Values && n != own[f] ensures n in rest.Values {
      var g :| g in own && own[g] == n;
      assert g in rest && rest[g] == n;
    }
    assert own[f] in own.Values;
    assert own.Values == rest.Values + {own[f]};
  }

  /** Running out while node `n` is needed means the pool was too small. */
  lemma RanOut(c: Ctx, s: Sys, n: Node)
    requires Mid(c, s) && s.free == {} && Needs(c, n) && !Live(s.mem, c.r, n)
    ensures TooFewFrames(c)
  {
    hide SealedAt, Stored, HugeUser, CtxOk, AgreeExcept;
    assert s.own.Keys == c.pool;
    NodesOwned(s.own);
    forall m | m in s.own.Values ensures Needs(c, m) && m != n {
      var f :| f in s.own && s.own[f] == m;
      assert Live(s.mem, c.r, s.own[f]);
    }
    assert NeedsAll(c, s.own.Values + {n});
  }

  /** A finished clone has every node it needs. */
  lemma NeededLive(c: Ctx, mem: Memory, r: nat, pool: set<nat>, n: Node)
    requires ClonedRoot(c.m0, c.src, mem, r, pool, c.copy) && Needs(c, n)
    ensures Live(mem, r, n)
  {
    if n.Pd? || n.Pt? || n.Leaf? {
      assert ClonedPd(c.m0, c.src, mem, r, pool, c.copy, n.i);
      if n.Pt? || n.Leaf? {
        assert ClonedSlot(c.m0, c.src, mem, r, pool, c.copy, n.i, n.j);
        if n.Leaf? {
          assert ClonedLeaf(c.m0, c.src, mem, r, pool, n.i, n.j, n.k);
        }
      }
    }
  }

  /** A clone on frames of `avail` shows that they were enough. */
  lemma Enough(c: Ctx, mem: Memory, r: nat, own: map<nat, Node>, pool: set<nat>, avail: set<nat>)
    requires ClonedRoot(c.m0, c.src, mem, r, pool, c.copy) && WellFormed(mem, r, own) && own.Keys <= avail
    ensures !NeedsMore(c, |avail|)
  {
    hide ClonedRoot, Needs;
    NodesOwned(own);
    Smaller(own.Keys, avail);
    forall ns: set<Node> | NeedsAll(c, ns) ensures |ns| <= |avail| {
      forall n | n in ns ensures n in own.Values {
        NeededLive(c, mem, r, pool, n);
        assert own[FrameOf(mem, r, n)] == n;
      }
      Smaller(ns, own.Values);
    }
  }

  lemma {:induction false} Smaller<T>(a: set<T>, b: set<T>)
    requires a <= b
    ensures |a| <= |b|
  {
    assert b == a + (b - a);
  }

  /** From `s` to `s'` only nodes at or below entry `idx` of `n` changed, paid from the free frames. */
  ghost predicate Progress(s: Sys, s': Sys, r: nat, n: Node, idx: Idx) {
    && SameElsewhere(s.mem, s'.mem, r, n, idx)
    && Entries(s'.mem, r) == Entries(s.mem, r)
    && KeepsData(s.mem, s'.mem, s.own, s.free)
    && s'.free <= s.free
    && (forall f :: f in s'.own ==> f in s.own || f in s.free)
    && (forall f :: f in s.own ==> f in s'.own && s'.own[f] == s.own[f])
  }

  /** Tables other than the PML4 are not the PML4. */
  lemma NotRoot(mem: Memory, r: nat, own: map<nat, Node>, n: Node)
    requires WellFormed(mem, r, own) && Live(mem, r, n) && n != Root
    ensures FrameOf(mem, r, n) != r
  {
    assert Live(mem, r, Root);
  }

  lemma SameNodeTrans(m0: Memory, m1: Memory, m2: Memory, r: nat, m: Node)
    requires SameNode(m0, m1, r, m) && SameNode(m1, m2, r, m)
    ensures SameNode(m0, m2, r, m)
  {
  }

  lemma ProgressTrans(s0: Sys, s1: Sys, s2: Sys, r: nat, n: Node, idx: Idx, n2: Node, idx2: Idx)
    requires Progress(s0, s1, r, n, idx) && Progress(s1, s2, r, n2, idx2)
    requires forall m: Node :: Under(n2, idx2, m) ==> Under(n, idx, m)
    ensures Progress(s0, s2, r, n, idx)
  {
    hide SameNode;
    forall m: Node | !Under(n, idx, m) ensures SameNode(s0.mem, s2.mem, r, m) {
      SameNodeTrans(s0.mem, s1.mem, s2.mem, r, m);
    }
    forall f: nat | f !in s0.free && (f in s0.own ==> s0.own[f].Leaf?) ensures Get(s2.mem, f) == Get(s0.mem, f) {
      assert Get(s1.mem, f) == Get(s0.mem, f);
    }
  }

  lemma ProgressRefl(s: Sys, r: nat, n: Node, idx: Idx)
    ensures Progress(s, s, r, n, idx)
  {
    forall m: Node ensures SameNode(s.mem, s.mem, r, m) {}
  }

  // ----- Cloned parts stay cloned ---------------------------------------------

  lemma LeafStable(c: Ctx, s: Sys, s': Sys, n: Node, idx: Idx, i: Idx, j: Idx, k: Idx)
    requires Mid(c, s) && Progress(s, s', c.r, n, idx) && LivePt(s.mem, c.r, i, j) && !Under(n, idx, Leaf(i, j, k))
    requires ClonedLeaf(c.m0, c.src, s.mem, c.r, c.pool, i, j, k)
    ensures ClonedLeaf(c.m0, c.src, s'.mem, c.r, c.pool, i, j, k)
  {
    assert SameNode(s.mem, s'.mem, c.r, Leaf(i, j, k));
    var e := PtEntry(s.mem, c.r, i, j, k);
    if e.flags.present && e.flags.user {
      assert Live(s.mem, c.r, Leaf(i, j, k));
      assert e.frame in s.own && s.own[e.frame] == Leaf(i, j, k);
    }
  }

  lemma SlotStable(c: Ctx, s: Sys, s': Sys, n: Node, idx: Idx, i: Idx, j: Idx)
    requires Mid(c, s) && Progress(s, s', c.r, n, idx) && LivePd(s.mem, c.r, i)
    requires !Under(n, idx, Pt(i, j)) && forall k: Idx :: !Under(n, idx, Leaf(i, j, k))
    requires ClonedSlot(c.m0, c.src, s.mem, c.r, c.pool, c.copy, i, j)
    ensures ClonedSlot(c.m0, c.src, s'.mem, c.r, c.pool, c.copy, i, j)
  {
    hide Building, ClonedLeaf;
    assert SameNode(s.mem, s'.mem, c.r, Pt(i, j));
    if LivePt(s.mem, c.r, i, j) {
      forall k: Idx | ClonedLeaf(c.m0, c.src, s.mem, c.r, c.pool, i, j, k)
        ensures ClonedLeaf(c.m0, c.src, s'.mem, c.r, c.pool, i, j, k)
      {
        LeafStable(c, s, s', n, idx, i, j, k);
      }
    }
  }

  lemma PdStable(c: Ctx, s: Sys, s': Sys, n: Node, idx: Idx, i: Idx)
    requires Mid(c, s) && Progress(s, s', c.r, n, idx) && LivePdpt(s.mem, c.r)
    requires forall m: Node :: (m.Pd? || m.Pt? || m.Leaf?) && m.i == i ==> !Under(n, idx, m)
    requires ClonedPd(c.m0, c.src, s.mem, c.r, c.pool, c.copy, i)
    ensures ClonedPd(c.m0, c.src, s'.mem, c.r, c.pool, c.copy, i)
  {
    hide Building, ClonedSlot;
    assert SameNode(s.mem, s'.mem, c.r, Pd(i));
    if LivePd(s.mem, c.r, i) {
      forall j: Idx | ClonedSlot(c.m0, c.src, s.mem, c.r, c.pool, c.copy, i, j)
        ensures ClonedSlot(c.m0, c.src, s'.mem, c.r, c.pool, c.copy, i, j)
      {
        SlotStable(c, s, s', n, idx, i, j);
      }
    }
  }

  // ----- One leaf ---------------------------------------------------------------

  lemma LeafShared(c: Ctx, s: Sys, i: Idx, j: Idx, k: Idx)
    requires Mid(c, s) && LivePt(s.mem, c.r, i, j) && PtEntry(s.mem, c.r, i, j, k) == ZERO_ENTRY
    requires var x := PtEntry(c.m0, c.src, i, j, k); !(x.flags.present && x.flags.user)
    ensures var s' := s.(mem := Store(s.mem, FrameOf(s.mem, c.r, Pt(i, j)), k, PtEntry(c.m0, c.src, i, j, k)));
      Mid(c, s') && Progress(s, s', c.r, Pt(i, j), k) && ClonedLeaf(c.m0, c.src, s'.mem, c.r, c.pool, i, j, k)
  {
    hide CtxOk, Needs;
    ShareLeaf(c.m0, s, c.r, c.pool, i, j, k, PtEntry(c.m0, c.src, i, j, k));
    assert Live(s.mem, c.r, Pt(i, j));
    NotRoot(s.mem, c.r, s.own, Pt(i, j));
  }

  /** The private copy of a user leaf, from allocation to publication. */
  lemma LeafCopied(c: Ctx, s: Sys, mem1: Memory, i: Idx, j: Idx, k: Idx, child: nat)
    requires Mid(c, s) && c.copy && !ScratchSlot(i) && child in s.free
    requires LivePt(s.mem, c.r, i, j) && PtEntry(s.mem, c.r, i, j, k) == ZERO_ENTRY && LiveLeaf(c.m0, c.src, i, j, k)
    requires AgreeExcept(s.mem, mem1, {child}) && Get(mem1, child) == Get(s.mem, PtEntry(c.m0, c.src, i, j, k).frame)
    ensures var x := Entry(child, PtEntry(c.m0, c.src, i, j, k).flags);
      var s' := Sys(Store(mem1, FrameOf(s.mem, c.r, Pt(i, j)), k, x), s.own[child := Leaf(i, j, k)], s.free - {child});
      Mid(c, s') && Progress(s, s', c.r, Pt(i, j), k) && ClonedLeaf(c.m0, c.src, s'.mem, c.r, c.pool, i, j, k)
  {
    hide Building, CtxOk, Progress, SameNode, LivePt, LiveLeaf, PtEntry, FrameOf;
    var x := Entry(child, PtEntry(c.m0, c.src, i, j, k).flags);
    LeafFlags(c.m0, c.src, i, j, k);
    var s1 := s.(free := s.free - {child});
    var s2 := s1.(mem := mem1);
    var pt := FrameOf(s.mem, c.r, Pt(i, j));
    var s' := Sys(Store(mem1, pt, k, x), s.own[child := Leaf(i, j, k)], s.free - {child});
    HandFilled(c, s, mem1, i, j, k, child);
    LinkHand(c.m0, s2, c.r, c.pool, i, j, k, x);
    SourceLeaf(c, s, i, j, k);
    LeafFrames(c, s, i, j, child);
    assert Entries(s'.mem, c.r) == Entries(s.mem, c.r);
    LeafProgress(s, s2, s', c.r, i, j, k, child);
    LeafMid(c, s, s', i, j, k, child);
  }

  lemma LeafFlags(mem: Memory, r: nat, i: Idx, j: Idx, k: Idx)
    requires LiveLeaf(mem, r, i, j, k)
    ensures PtEntry(mem, r, i, j, k).flags.present && PtEntry(mem, r, i, j, k).flags.user
  {
  }

  /** Taking and filling a frame leaves the slot for it as it was. */
  lemma HandFilled(c: Ctx, s: Sys, mem1: Memory, i: Idx, j: Idx, k: Idx, child: nat)
    requires Mid(c, s) && child in s.free && AgreeExcept(s.mem, mem1, {child})
    requires LivePt(s.mem, c.r, i, j) && PtEntry(s.mem, c.r, i, j, k) == ZERO_ENTRY
    ensures Building(c.m0, Sys(mem1, s.own, s.free - {child}), c.r, c.pool, {child})
    ensures forall m: Node :: SameNode(s.mem, mem1, c.r, m)
    ensures LivePt(mem1, c.r, i, j) && !PtEntry(mem1, c.r, i, j, k).flags.present
    ensures FrameOf(mem1, c.r, Pt(i, j)) == FrameOf(s.mem, c.r, Pt(i, j))
  {
    hide Building, CtxOk;
    TakeHand(c.m0, s, c.r, c.pool, child);
    FillHand(c.m0, s.(free := s.free - {child}), mem1, c.r, c.pool, child);
    assert SameNode(s.mem, mem1, c.r, Pt(i, j)) && SameNode(s.mem, mem1, c.r, Leaf(i, j, k));
  }

  lemma LeafFrames(c: Ctx, s: Sys, i: Idx, j: Idx, child: nat)
    requires Mid(c, s) && child in s.free && LivePt(s.mem, c.r, i, j)
    ensures var pt := FrameOf(s.mem, c.r, Pt(i, j)); child != pt && child != c.r && pt != c.r && child !in s.own
  {
    assert Live(s.mem, c.r, Pt(i, j)) && Live(s.mem, c.r, Root);
  }

  lemma LeafMid(c: Ctx, s: Sys, s': Sys, i: Idx, j: Idx, k: Idx, child: nat)
    requires Mid(c, s) && Building(c.m0, s', c.r, c.pool, {}) && s'.own == s.own[child := Leaf(i, j, k)]
    requires c.copy && !ScratchSlot(i) && LiveLeaf(c.m0, c.src, i, j, k)
    ensures Mid(c, s')
  {
    hide CtxOk, Building;
    assert Needs(c, Leaf(i, j, k));
  }

  /** Allocating moves a frame from the free set into the hand. */
  lemma TakeHand(m0: Memory, s: Sys, r: nat, pool: set<nat>, g: nat)
    requires Building(m0, s, r, pool, {}) && g in s.free
    ensures Building(m0, s.(free := s.free - {g}), r, pool, {g})
  {
    hide Space, HugeUser;
  }

  /** A user leaf of the source lies outside the pool and reads as at the start. */
  lemma SourceLeaf(c: Ctx, s: Sys, i: Idx, j: Idx, k: Idx)
    requires Mid(c, s) && c.copy && LiveLeaf(c.m0, c.src, i, j, k)
    ensures Get(s.mem, PtEntry(c.m0, c.src, i, j, k).frame) == Get(c.m0, PtEntry(c.m0, c.src, i, j, k).frame)
    ensures PtEntry(c.m0, c.src, i, j, k).frame in c.sown
  {
    hide Space, HugeUser;
    assert Live(c.m0, c.src, Leaf(i, j, k));
  }

  lemma LeafProgress(s: Sys, s2: Sys, s': Sys, r: nat, i: Idx, j: Idx, k: Idx, child: nat)
    requires child in s.free && s2.own == s.own && s2.free == s.free - {child}
    requires forall m: Node :: SameNode(s.mem, s2.mem, r, m)
    requires AgreeExcept(s.mem, s2.mem, {child})
    requires SameElsewhere(s2.mem, s'.mem, r, Pt(i, j), k) && KeepsData(s2.mem, s'.mem, s2.own, s2.free)
    requires s'.own == s.own[child := Leaf(i, j, k)] && s'.free == s2.free && child !in s.own
    requires Entries(s'.mem, r) == Entries(s.mem, r)
    ensures Progress(s, s', r, Pt(i, j), k)
  {
    hide SameNode;
    forall m: Node | !Under(Pt(i, j), k, m) ensures SameNode(s.mem, s'.mem, r, m) {
      SameNodeTrans(s.mem, s2.mem, s'.mem, r, m);
    }
    forall f: nat | f !in s.free && (f in s.own ==> s.own[f].Leaf?) ensures Get(s'.mem, f) == Get(s.mem, f) {
      assert Get(s2.mem, f) == Get(s.mem, f);
    }
  }
}
