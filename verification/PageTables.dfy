/**
  Four-level page tables stored in physical frames (paging.rs), as values.

  A frame holds either a table of 512 entries or 4096 data bytes. The tables and
  user leaves a root owns are named by `Node`; `WellFormed(mem, r, own)` says that
  `own` maps exactly the owned frames of root `r` to their nodes, one node each.
 */
module PageTables {
  import opened Prelude

  // ----- Entries and frames ---------------------------------------------------

  type Idx = i: nat | i < 512

  /** The bits of an entry outside ADDR_MASK; `other` collects the unnamed ones. */
  datatype Flags = Flags(present: bool, writable: bool, user: bool, accessed: bool,
                         dirty: bool, huge: bool, global: bool, noExec: bool, other: nat)

  datatype Entry = Entry(frame: nat, flags: Flags)

  const NO_FLAGS := Flags(false, false, false, false, false, false, false, false, 0)
  const PAGE_KERNEL := Flags(true, true, false, false, false, false, false, false, 0)
  const PAGE_USER_RW := Flags(true, true, true, false, false, false, false, false, 0)
  const ZERO_ENTRY := Entry(0, NO_FLAGS)

  type Table = t: seq<Entry> | |t| == 512 witness seq(512, _ => ZERO_ENTRY)
  type PageBytes = b: seq<byte> | |b| == 4096 witness seq(4096, _ => 0)

  datatype Frame = TableFrame(entries: Table) | DataFrame(bytes: PageBytes)

  type Memory = map<nat, Frame>

  function ZeroTable(): (t: Table)
    ensures AllZero(t)
  {
    seq(512, _ => ZERO_ENTRY)
  }

  function ZeroPage(): (b: PageBytes)
    ensures forall o :: 0 <= o < 4096 ==> b[o] == 0
  {
    seq(4096, _ => 0)
  }

  /** Contents of a frame. */
  function Get(mem: Memory, f: nat): Frame {
    if f in mem then mem[f] else DataFrame(ZeroPage())
  }

  /** A frame seen as a page table. */
  function Entries(mem: Memory, f: nat): Table {
    match Get(mem, f)
    case TableFrame(es) => es
    case DataFrame(_) => ZeroTable()
  }

  /** Memory after `table[idx] = x` on the table in frame `f`. */
  function Store(mem: Memory, f: nat, idx: Idx, x: Entry): Memory {
    mem[f := TableFrame(Entries(mem, f)[idx := x])]
  }

  predicate AllZero(t: Table) {
    forall i: Idx :: t[i] == ZERO_ENTRY
  }

  // ----- Virtual pages --------------------------------------------------------

  const USER_CODE_ADDR: nat := 0x2000000
  const KERNEL_SCRATCH_VA: nat := 0x4000_0000

  predicate OverlapsKernelScratch(start: nat, end: nat) {
    start < KERNEL_SCRATCH_VA + 0x1000 && end > KERNEL_SCRATCH_VA
  }

  /** The four table indices of a virtual address. */
  datatype Path = Path(l4: Idx, l3: Idx, l2: Idx, l1: Idx)

  function Indices(vaddr: nat): Path {
    Path(vaddr / 0x80_0000_0000 % 512, vaddr / 0x4000_0000 % 512, vaddr / 0x20_0000 % 512, vaddr / 0x1000 % 512)
  }

  /** Lowest virtual address reached through `p`. */
  function PathAddr(p: Path): nat {
    p.l4 * 0x80_0000_0000 + p.l3 * 0x4000_0000 + p.l2 * 0x20_0000 + p.l1 * 0x1000
  }

  /** The 2 MiB slot (i, j) under PML4[0] lies in the per-process user range. */
  predicate InUser(i: Idx, j: Idx) {
    i * 0x4000_0000 + j * 0x20_0000 >= USER_CODE_ADDR
  }

  // ----- Translation ----------------------------------------------------------

  datatype Mapping = Mapping(frame: nat, flags: Flags)

  /** What a present 4 KiB entry maps. */
  function MappingOf(e: Entry): Option<Mapping> {
    if e.flags.present then Some(Mapping(e.frame, e.flags)) else None
  }

  /**
    The walk of `translate_in_pml4`: the frame and leaf flags a page resolves to.
    As in the source, the huge bit is honoured at the second level only.
   */
  function Lookup(mem: Memory, r: nat, p: Path): Option<Mapping> {
    var e4 := Entries(mem, r)[p.l4];
    if !e4.flags.present then None else
    var e3 := Entries(mem, e4.frame)[p.l3];
    if !e3.flags.present then None else
    var e2 := Entries(mem, e3.frame)[p.l2];
    if !e2.flags.present then None else
    if e2.flags.huge then Some(Mapping(e2.frame + p.l1, e2.flags)) else
    var e1 := Entries(mem, e2.frame)[p.l1];
    MappingOf(e1)
  }

  /** What the entries on the way to a page allow together (Intel SDM volume 3A, section 4.6.1). */
  datatype Rights = Rights(user: bool, write: bool, execute: bool)

  function Allowed(f: Flags, below: Rights): Rights {
    Rights(f.user && below.user, f.writable && below.write, !f.noExec && below.execute)
  }

  /** The access rights of a page, None when it is not mapped. */
  function RightsOf(mem: Memory, r: nat, p: Path): Option<Rights> {
    var e4 := Entries(mem, r)[p.l4];
    if !e4.flags.present then None else
    var e3 := Entries(mem, e4.frame)[p.l3];
    if !e3.flags.present then None else
    var e2 := Entries(mem, e3.frame)[p.l2];
    if !e2.flags.present then None else
    var all := Rights(true, true, true);
    if e2.flags.huge then Some(Allowed(e4.flags, Allowed(e3.flags, Allowed(e2.flags, all)))) else
    var e1 := Entries(mem, e2.frame)[p.l1];
    if !e1.flags.present then None
    else Some(Allowed(e4.flags, Allowed(e3.flags, Allowed(e2.flags, Allowed(e1.flags, all)))))
  }

  /** Programs can reach the page: it is mapped, and every entry on the way to it has the user bit. */
  predicate UserReaches(mem: Memory, r: nat, p: Path) {
    RightsOf(mem, r, p).Some? && RightsOf(mem, r, p).value.user
  }

  /** The table frames that walk reads. */
  ghost function WalkFrames(mem: Memory, r: nat, p: Path): set<nat> {
    var e4 := Entries(mem, r)[p.l4];
    if !e4.flags.present then {r} else
    var e3 := Entries(mem, e4.frame)[p.l3];
    if !e3.flags.present then {r, e4.frame} else
    var e2 := Entries(mem, e3.frame)[p.l2];
    if !e2.flags.present || e2.flags.huge then {r, e4.frame, e3.frame} else
    {r, e4.frame, e3.frame, e2.frame}
  }

  /** The two memories agree on every frame outside `changed`. */
  ghost predicate AgreeExcept(mem: Memory, mem': Memory, changed: set<nat>) {
    forall f: nat :: f !in changed ==> Get(mem', f) == Get(mem, f)
  }

  // ----- Owned nodes ----------------------------------------------------------

  /**
    What a root owns: the PML4 itself, the PDPT under PML4[0], every PD under it,
    every PT of the user range, and every user leaf of those PTs.
   */
  datatype Node = Root | Pdpt | Pd(i: Idx) | Pt(i: Idx, j: Idx) | Leaf(i: Idx, j: Idx, k: Idx)

  function TopEntry(mem: Memory, r: nat): Entry { Entries(mem, r)[0] }

  function PdptEntry(mem: Memory, r: nat, i: Idx): Entry { Entries(mem, TopEntry(mem, r).frame)[i] }

  function PdEntry(mem: Memory, r: nat, i: Idx, j: Idx): Entry { Entries(mem, PdptEntry(mem, r, i).frame)[j] }

  function PtEntry(mem: Memory, r: nat, i: Idx, j: Idx, k: Idx): Entry { Entries(mem, PdEntry(mem, r, i, j).frame)[k] }

  /** The entry whose frame is node `n` (for Root: `r` itself). */
  function FrameOf(mem: Memory, r: nat, n: Node): nat {
    match n
    case Root => r
    case Pdpt => TopEntry(mem, r).frame
    case Pd(i) => PdptEntry(mem, r, i).frame
    case Pt(i, j) => PdEntry(mem, r, i, j).frame
    case Leaf(i, j, k) => PtEntry(mem, r, i, j, k).frame
  }

  predicate LivePdpt(mem: Memory, r: nat) {
    TopEntry(mem, r).flags.present
  }

  predicate LivePd(mem: Memory, r: nat, i: Idx) {
    LivePdpt(mem, r) && PdptEntry(mem, r, i).flags.present && !PdptEntry(mem, r, i).flags.huge
  }

  predicate LivePt(mem: Memory, r: nat, i: Idx, j: Idx) {
    LivePd(mem, r, i) && InUser(i, j) && PdEntry(mem, r, i, j).flags.present && !PdEntry(mem, r, i, j).flags.huge
  }

  predicate LiveLeaf(mem: Memory, r: nat, i: Idx, j: Idx, k: Idx) {
    LivePt(mem, r, i, j) && PtEntry(mem, r, i, j, k).flags.present && PtEntry(mem, r, i, j, k).flags.user
  }

  predicate Live(mem: Memory, r: nat, n: Node) {
    match n
    case Root => true
    case Pdpt => LivePdpt(mem, r)
    case Pd(i) => LivePd(mem, r, i)
    case Pt(i, j) => LivePt(mem, r, i, j)
    case Leaf(i, j, k) => LiveLeaf(mem, r, i, j, k)
  }

  /** `own` records exactly the owned frames of `r`: no frame plays two roles. */
  ghost predicate WellFormed(mem: Memory, r: nat, own: map<nat, Node>) {
    && (forall f :: f in own ==> Live(mem, r, own[f]) && FrameOf(mem, r, own[f]) == f)
    && (forall n: Node :: Live(mem, r, n) ==> FrameOf(mem, r, n) in own && own[FrameOf(mem, r, n)] == n)
  }

  /** `m` is the child of `n` at index `idx`, or lies below it. */
  predicate Under(n: Node, idx: Idx, m: Node) {
    match n
    case Root => idx == 0 && !m.Root?
    case Pdpt => (m.Pd? || m.Pt? || m.Leaf?) && m.i == idx
    case Pd(i) => (m.Pt? || m.Leaf?) && m.i == i && m.j == idx
    case Pt(i, j) => m.Leaf? && m.i == i && m.j == j && m.k == idx
    case Leaf(_, _, _) => false
  }

  /** The entry that points at `m`. */
  function EntryOf(mem: Memory, r: nat, m: Node): Entry
    requires !m.Root?
  {
    match m
    case Pdpt => TopEntry(mem, r)
    case Pd(i) => PdptEntry(mem, r, i)
    case Pt(i, j) => PdEntry(mem, r, i, j)
    case Leaf(i, j, k) => PtEntry(mem, r, i, j, k)
  }

  /** The tables on the way to `m`'s entry are all live. */
  predicate Reached(mem: Memory, r: nat, m: Node) {
    match m
    case Root => true
    case Pdpt => true
    case Pd(i) => LivePdpt(mem, r)
    case Pt(i, j) => LivePd(mem, r, i)
    case Leaf(i, j, k) => LivePt(mem, r, i, j)
  }

  /** After `Store` on node `n`'s table, node `t`'s table reads as before except for that one entry. */
  lemma StoreTable(mem: Memory, r: nat, own: map<nat, Node>, n: Node, idx: Idx, x: Entry, t: Node)
    requires WellFormed(mem, r, own) && Live(mem, r, n) && Live(mem, r, t)
    ensures var mem' := Store(mem, FrameOf(mem, r, n), idx, x);
      Entries(mem', FrameOf(mem, r, t)) ==
        if t == n then Entries(mem, FrameOf(mem, r, n))[idx := x] else Entries(mem, FrameOf(mem, r, t))
  {
    assert t != n ==> FrameOf(mem, r, n) != FrameOf(mem, r, t);
  }

  /** Node `m` is where it was: same entry, same liveness, same frame. */
  predicate SameNode(mem: Memory, mem': Memory, r: nat, m: Node) {
    && Reached(mem', r, m) == Reached(mem, r, m)
    && (Reached(mem, r, m) && !m.Root? ==> EntryOf(mem', r, m) == EntryOf(mem, r, m))
    && Live(mem', r, m) == Live(mem, r, m)
    && (Live(mem, r, m) ==> FrameOf(mem', r, m) == FrameOf(mem, r, m))
  }

  /** Writing one entry of an owned table touches only the nodes at or below that entry. */
  lemma StoreFrame(mem: Memory, r: nat, own: map<nat, Node>, n: Node, idx: Idx, x: Entry, m: Node)
    requires WellFormed(mem, r, own) && Live(mem, r, n) && !n.Leaf? && !Under(n, idx, m)
    ensures SameNode(mem, Store(mem, FrameOf(mem, r, n), idx, x), r, m)
  {
    var mem' := Store(mem, FrameOf(mem, r, n), idx, x);
    if !m.Root? {
      StoreTable(mem, r, own, n, idx, x, Root);
      assert TopEntry(mem', r) == TopEntry(mem, r);
      if !m.Pdpt? && LivePdpt(mem, r) {
        StoreTable(mem, r, own, n, idx, x, Pdpt);
        assert PdptEntry(mem', r, m.i) == PdptEntry(mem, r, m.i);
        if !m.Pd? && LivePd(mem, r, m.i) {
          StoreTable(mem, r, own, n, idx, x, Pd(m.i));
          assert PdEntry(mem', r, m.i, m.j) == PdEntry(mem, r, m.i, m.j);
          if !m.Pt? && LivePt(mem, r, m.i, m.j) {
            StoreTable(mem, r, own, n, idx, x, Pt(m.i, m.j));
          }
        }
      }
    }
  }

  // ----- Private frames stay private ------------------------------------------

  /**
    Every table frame the walk of `p` reads is either outside `pool` (shared with
    other roots) or an owned table in exactly that position.
   */
  predicate SealedAt(mem: Memory, r: nat, own: map<nat, Node>, pool: set<nat>, p: Path) {
    var e4 := Entries(mem, r)[p.l4];
    e4.flags.present ==>
      && (e4.frame in pool ==> e4.frame in own && own[e4.frame] == Pdpt && p.l4 == 0)
      && var e3 := Entries(mem, e4.frame)[p.l3];
         e3.flags.present ==>
         && (e3.frame in pool ==> e3.frame in own && own[e3.frame] == Pd(p.l3) && p.l4 == 0)
         && var e2 := Entries(mem, e3.frame)[p.l2];
            e2.flags.present && !e2.flags.huge && e2.frame in pool ==>
              e2.frame in own && own[e2.frame] == Pt(p.l3, p.l2) && p.l4 == 0
  }

  /** An entry is present or zero. */
  predicate Clean(e: Entry) {
    e.flags.present || e == ZERO_ENTRY
  }

  /** A table is stored as one, with clean entries in the branch of the scratch page. */
  predicate StoredAs(fr: Frame, n: Node) {
    fr.TableFrame? && (n == Pdpt ==> Clean(fr.entries[1])) && (n == Pd(1) ==> Clean(fr.entries[0]))
  }

  /** Owned tables are stored as tables. */
  ghost predicate Stored(mem: Memory, own: map<nat, Node>) {
    forall f :: f in own && !own[f].Leaf? ==> StoredAs(Get(mem, f), own[f])
  }

  /** A store into an owned table. */
  lemma StoreStored(mem: Memory, own: map<nat, Node>, f: nat, idx: Idx, x: Entry)
    requires Stored(mem, own) && (Clean(x) || (f in own && own[f].Pt?))
    ensures Stored(Store(mem, f, idx, x), own)
  {
  }

  /** One more node, or one less. */
  lemma NodeStored(mem: Memory, own: map<nat, Node>, f: nat, n: Node)
    requires Stored(mem, own) && (n.Leaf? || StoredAs(Get(mem, f), n))
    ensures Stored(mem, own[f := n]) && Stored(mem, own - {f})
  {
  }

  /** Root `r` owns `own`, all of it in `pool`, and reads no other frame of `pool`. */
  ghost predicate Space(mem: Memory, r: nat, own: map<nat, Node>, pool: set<nat>) {
    && WellFormed(mem, r, own) && Stored(mem, own)
    && own.Keys <= pool
    && forall p: Path :: SealedAt(mem, r, own, pool, p)
  }

  /** The walk of `p` reads entry `idx` of node `n`'s table. */
  predicate Hits(n: Node, idx: Idx, p: Path) {
    match n
    case Root => p.l4 == idx
    case Pdpt => p.l4 == 0 && p.l3 == idx
    case Pd(i) => p.l4 == 0 && p.l3 == i && p.l2 == idx
    case Pt(i, j) => p.l4 == 0 && p.l3 == i && p.l2 == j && p.l1 == idx
    case Leaf(_, _, _) => false
  }

  function Child(n: Node, idx: Idx): Option<Node> {
    match n
    case Root => if idx == 0 then Some(Pdpt) else None
    case Pdpt => Some(Pd(idx))
    case Pd(i) => if InUser(i, idx) then Some(Pt(i, idx)) else None
    case Pt(i, j) => Some(Leaf(i, j, idx))
    case Leaf(_, _, _) => None
  }

  /** A store off the path of `p` changes neither its translation nor its privacy. */
  lemma WalkStore(mem: Memory, r: nat, own: map<nat, Node>, pool: set<nat>, n: Node, idx: Idx, x: Entry, p: Path)
    requires WellFormed(mem, r, own) && own.Keys <= pool && SealedAt(mem, r, own, pool, p)
    requires Live(mem, r, n) && !n.Leaf? && !Hits(n, idx, p)
    ensures var mem' := Store(mem, FrameOf(mem, r, n), idx, x);
      && Lookup(mem', r, p) == Lookup(mem, r, p)
      && SealedAt(mem', r, own, pool, p)
      && WalkFrames(mem', r, p) == WalkFrames(mem, r, p)
  {
    hide Store, WellFormed, Live, FrameOf;
    EntryKept(mem, r, own, pool, n, idx, x, r, Root, p.l4);
    var e4 := Entries(mem, r)[p.l4];
    if e4.flags.present {
      EntryKept(mem, r, own, pool, n, idx, x, e4.frame, Pdpt, p.l3);
      var e3 := Entries(mem, e4.frame)[p.l3];
      if e3.flags.present {
        EntryKept(mem, r, own, pool, n, idx, x, e3.frame, Pd(p.l3), p.l2);
        var e2 := Entries(mem, e3.frame)[p.l2];
        if e2.flags.present && !e2.flags.huge {
          EntryKept(mem, r, own, pool, n, idx, x, e2.frame, Pt(p.l3, p.l2), p.l1);
        }
      }
    }
  }

  /** A frame that is shared, or owned as node `m`, keeps every entry but the one stored. */
  lemma EntryKept(mem: Memory, r: nat, own: map<nat, Node>, pool: set<nat>, n: Node, idx: Idx, x: Entry, g: nat,
                  m: Node, k: Idx)
    requires WellFormed(mem, r, own) && own.Keys <= pool && Live(mem, r, n) && (m == Root ==> g == r)
    requires g in pool && m != Root ==> g in own && own[g] == m
    requires g in pool && n == m ==> k != idx
    ensures Entries(Store(mem, FrameOf(mem, r, n), idx, x), g)[k] == Entries(mem, g)[k]
  {
    assert Live(mem, r, Root);
  }

  // ----- How a store changes what a root owns ---------------------------------

  /** Entry `x` in the slot of node `c` makes `c` live. */
  predicate Makes(c: Node, x: Entry) {
    && x.flags.present
    && (c.Pd? || c.Pt? ==> !x.flags.huge)
    && (c.Pt? ==> InUser(c.i, c.j))
    && (c.Leaf? ==> x.flags.user)
  }

  /** All nodes away from the stored entry are as they were. */
  ghost predicate SameElsewhere(mem: Memory, mem': Memory, r: nat, n: Node, idx: Idx) {
    forall m: Node :: !Under(n, idx, m) ==> SameNode(mem, mem', r, m)
  }

  lemma StoreElsewhere(mem: Memory, r: nat, own: map<nat, Node>, n: Node, idx: Idx, x: Entry)
    requires WellFormed(mem, r, own) && Live(mem, r, n) && !n.Leaf?
    ensures SameElsewhere(mem, Store(mem, FrameOf(mem, r, n), idx, x), r, n, idx)
  {
    forall m: Node | !Under(n, idx, m) ensures SameNode(mem, Store(mem, FrameOf(mem, r, n), idx, x), r, m) {
      StoreFrame(mem, r, own, n, idx, x, m);
    }
  }

  /** After the store the slot's own entry reads back. */
  lemma StoreReads(mem: Memory, r: nat, own: map<nat, Node>, n: Node, idx: Idx, x: Entry)
    requires WellFormed(mem, r, own) && Live(mem, r, n) && !n.Leaf?
    ensures var mem' := Store(mem, FrameOf(mem, r, n), idx, x);
      && Live(mem', r, n) && FrameOf(mem', r, n) == FrameOf(mem, r, n)
      && (Child(n, idx).Some? ==>
           && Reached(mem', r, Child(n, idx).value)
           && EntryOf(mem', r, Child(n, idx).value) == x
           && Live(mem', r, Child(n, idx).value) == Makes(Child(n, idx).value, x))
  {
    StoreFrame(mem, r, own, n, idx, x, n);
  }

  /** Hanging a fresh frame (an all-zero table, or a user leaf) below `n` adds one node. */
  lemma LinkNode(mem: Memory, r: nat, own: map<nat, Node>, n: Node, idx: Idx, x: Entry, c: Node)
    requires WellFormed(mem, r, own) && Live(mem, r, n) && Child(n, idx) == Some(c)
    requires !Live(mem, r, c) && Makes(c, x) && x.frame !in own
    requires !c.Leaf? ==> AllZero(Entries(mem, x.frame))
    ensures var mem' := Store(mem, FrameOf(mem, r, n), idx, x);
      && WellFormed(mem', r, own[x.frame := c])
      && SameElsewhere(mem, mem', r, n, idx)
      && Live(mem', r, c) && EntryOf(mem', r, c) == x
  {
    var mem' := Store(mem, FrameOf(mem, r, n), idx, x);
    StoreElsewhere(mem, r, own, n, idx, x);
    StoreReads(mem, r, own, n, idx, x);
    assert x.frame != FrameOf(mem, r, n);
    var own' := own[x.frame := c];
    LinkReads(mem, r, own, n, idx, x, c);
    hide Store, SameNode, EntryOf, FrameOf, Live, Under, SameElsewhere, AllZero;
    forall m: Node | Live(mem', r, m) ensures FrameOf(mem', r, m) in own' && own'[FrameOf(mem', r, m)] == m {
      NodesLive(mem, mem', r, own, n, idx, x, c, m);
    }
    forall f | f in own && f != x.frame ensures Live(mem', r, own[f]) && FrameOf(mem', r, own[f]) == f {
      OthersLive(mem, mem', r, own, n, idx, c, f);
    }
  }

  lemma LinkReads(mem: Memory, r: nat, own: map<nat, Node>, n: Node, idx: Idx, x: Entry, c: Node)
    requires WellFormed(mem, r, own) && Live(mem, r, n) && Child(n, idx) == Some(c) && Makes(c, x) && x.frame !in own
    ensures var mem' := Store(mem, FrameOf(mem, r, n), idx, x);
      && Live(mem', r, c) && EntryOf(mem', r, c) == x && FrameOf(mem', r, c) == x.frame
      && Entries(mem', x.frame) == Entries(mem, x.frame)
  {
    StoreReads(mem, r, own, n, idx, x);
  }

  /** Every live node is the new one or was live before. */
  lemma NodesLive(mem: Memory, mem': Memory, r: nat, own: map<nat, Node>, n: Node, idx: Idx, x: Entry, c: Node, m: Node)
    requires WellFormed(mem, r, own) && Child(n, idx) == Some(c) && SameElsewhere(mem, mem', r, n, idx)
    requires x.frame !in own
    requires Live(mem', r, c) && FrameOf(mem', r, c) == x.frame && (!c.Leaf? ==> AllZero(Entries(mem', x.frame)))
    requires Live(mem', r, m)
    ensures var own' := own[x.frame := c]; FrameOf(mem', r, m) in own' && own'[FrameOf(mem', r, m)] == m
  {
    if m != c {
      if Under(n, idx, m) {
        NoneBelow(mem', r, c, m);
        assert false;
      }
      assert SameNode(mem, mem', r, m);
    }
  }

  /** What was owned before is owned as before. */
  lemma OthersLive(mem: Memory, mem': Memory, r: nat, own: map<nat, Node>, n: Node, idx: Idx, c: Node, f: nat)
    requires WellFormed(mem, r, own) && Child(n, idx) == Some(c) && !Live(mem, r, c)
    requires SameElsewhere(mem, mem', r, n, idx) && f in own
    ensures Live(mem', r, own[f]) && FrameOf(mem', r, own[f]) == f
  {
    assert Live(mem, r, own[f]);
    if Under(n, idx, own[f]) {
      LiveAbove(mem, r, n, idx, c, own[f]);
      assert false;
    }
    assert SameNode(mem, mem', r, own[f]);
  }

  /** An all-zero table has no live nodes below it. */
  lemma NoneBelow(mem: Memory, r: nat, c: Node, m: Node)
    requires Live(mem, r, c) && !c.Leaf? && !c.Root?
    requires AllZero(Entries(mem, FrameOf(mem, r, c)))
    requires exists k: Idx :: Under(c, k, m)
    ensures !Live(mem, r, m)
  {
  }

  /** A live node has live nodes above it. */
  lemma LiveAbove(mem: Memory, r: nat, n: Node, idx: Idx, c: Node, m: Node)
    requires Child(n, idx) == Some(c) && Under(n, idx, m) && Live(mem, r, m)
    ensures Live(mem, r, c)
  {
  }

  /** Clearing the entry of an empty table, or of a leaf, removes that one node. */
  lemma UnlinkNode(mem: Memory, r: nat, own: map<nat, Node>, n: Node, idx: Idx, c: Node)
    requires WellFormed(mem, r, own) && Live(mem, r, n) && Child(n, idx) == Some(c)
    requires Live(mem, r, c)
    requires !c.Leaf? ==> AllZero(Entries(mem, FrameOf(mem, r, c)))
    ensures var mem' := Store(mem, FrameOf(mem, r, n), idx, ZERO_ENTRY);
      && WellFormed(mem', r, own - {FrameOf(mem, r, c)})
      && SameElsewhere(mem, mem', r, n, idx)
  {
    var mem' := Store(mem, FrameOf(mem, r, n), idx, ZERO_ENTRY);
    StoreElsewhere(mem, r, own, n, idx, ZERO_ENTRY);
    StoreReads(mem, r, own, n, idx, ZERO_ENTRY);
    var own' := own - {FrameOf(mem, r, c)};
    forall m: Node | Live(mem', r, m) ensures FrameOf(mem', r, m) in own' && own'[FrameOf(mem', r, m)] == m {
      if Under(n, idx, m) {
        LiveAbove(mem', r, n, idx, c, m);
        assert false;
      }
    }
    forall f | f in own' ensures Live(mem', r, own'[f]) && FrameOf(mem', r, own'[f]) == f {
      if Under(n, idx, own[f]) {
        assert false;
      }
    }
  }

  /** Same liveness, same frame. */
  predicate SamePlace(mem: Memory, mem': Memory, r: nat, m: Node) {
    Live(mem', r, m) == Live(mem, r, m) && (Live(mem, r, m) ==> FrameOf(mem', r, m) == FrameOf(mem, r, m))
  }

  lemma SamePlaces(mem: Memory, mem': Memory, r: nat, own: map<nat, Node>)
    requires WellFormed(mem, r, own) && forall m: Node :: SamePlace(mem, mem', r, m)
    ensures WellFormed(mem', r, own)
  {
    forall f | f in own ensures Live(mem', r, own[f]) && FrameOf(mem', r, own[f]) == f {
      assert SamePlace(mem, mem', r, own[f]);
    }
    forall m: Node | Live(mem', r, m) ensures FrameOf(mem', r, m) in own && own[FrameOf(mem', r, m)] == m {
      assert SamePlace(mem, mem', r, m);
    }
  }

  /** Rewriting the flags of a live entry, keeping it live and on its frame, moves no node. */
  lemma FlagNode(mem: Memory, r: nat, own: map<nat, Node>, n: Node, idx: Idx, x: Entry, c: Node)
    requires WellFormed(mem, r, own) && Live(mem, r, n) && Child(n, idx) == Some(c)
    requires Live(mem, r, c) && Makes(c, x) && x.frame == FrameOf(mem, r, c)
    ensures var mem' := Store(mem, FrameOf(mem, r, n), idx, x);
      && WellFormed(mem', r, own)
      && EntryOf(mem', r, c) == x
      && forall m: Node :: m != c ==> SameNode(mem, mem', r, m)
  {
    var mem' := Store(mem, FrameOf(mem, r, n), idx, x);
    StoreElsewhere(mem, r, own, n, idx, x);
    StoreReads(mem, r, own, n, idx, x);
    forall m: Node ensures SamePlace(mem, mem', r, m) && (m != c ==> SameNode(mem, mem', r, m)) {
      if Under(n, idx, m) && m != c {
        FlagBelow(mem, r, own, n, idx, x, c, m);
      }
    }
    SamePlaces(mem, mem', r, own);
  }

  lemma FlagBelow(mem: Memory, r: nat, own: map<nat, Node>, n: Node, idx: Idx, x: Entry, c: Node, m: Node)
    requires WellFormed(mem, r, own) && Live(mem, r, n) && Child(n, idx) == Some(c)
    requires Live(mem, r, c) && Makes(c, x) && x.frame == FrameOf(mem, r, c)
    requires Under(n, idx, m) && m != c
    ensures SameNode(mem, Store(mem, FrameOf(mem, r, n), idx, x), r, m)
  {
    var mem' := Store(mem, FrameOf(mem, r, n), idx, x);
    StoreReads(mem, r, own, n, idx, x);
    StoreFrame(mem, r, own, n, idx, x, n);
    StoreTable(mem, r, own, n, idx, x, c);
    if c.Pdpt? {
      assert PdptEntry(mem', r, m.i) == PdptEntry(mem, r, m.i);
    }
    if !m.Pd? && LivePd(mem, r, m.i) {
      StoreTable(mem, r, own, n, idx, x, Pd(m.i));
      assert PdEntry(mem', r, m.i, m.j) == PdEntry(mem, r, m.i, m.j) || c == Pt(m.i, m.j);
      if m.Leaf? && LivePt(mem, r, m.i, m.j) {
        StoreTable(mem, r, own, n, idx, x, Pt(m.i, m.j));
      }
    }
  }

  /** A store that makes nothing live, over an entry that was not live, changes no ownership. */
  lemma InertNode(mem: Memory, r: nat, own: map<nat, Node>, n: Node, idx: Idx, x: Entry)
    requires WellFormed(mem, r, own) && Live(mem, r, n) && !n.Leaf?
    requires Child(n, idx).Some? ==> !Live(mem, r, Child(n, idx).value) && !Makes(Child(n, idx).value, x)
    ensures var mem' := Store(mem, FrameOf(mem, r, n), idx, x);
      && WellFormed(mem', r, own)
      && SameElsewhere(mem, mem', r, n, idx)
  {
    var mem' := Store(mem, FrameOf(mem, r, n), idx, x);
    StoreElsewhere(mem, r, own, n, idx, x);
    StoreReads(mem, r, own, n, idx, x);
    forall m: Node | Under(n, idx, m) ensures !Live(mem, r, m) && !Live(mem', r, m) {
      if Child(n, idx).Some? {
        if Live(mem, r, m) { LiveAbove(mem, r, n, idx, Child(n, idx).value, m); }
        if Live(mem', r, m) { LiveAbove(mem', r, n, idx, Child(n, idx).value, m); }
      }
    }
  }

  /** Changing frames that hold none of the root's tables moves no node and no translation. */
  lemma Untouched(mem: Memory, mem': Memory, r: nat, own: map<nat, Node>, m: Node)
    requires WellFormed(mem, r, own)
    requires forall f :: f in own && !own[f].Leaf? ==> Entries(mem', f) == Entries(mem, f)
    ensures SameNode(mem, mem', r, m)
  {
    assert Live(mem, r, Root);
    assert TopEntry(mem', r) == TopEntry(mem, r);
    if !m.Root? && !m.Pdpt? && LivePdpt(mem, r) {
      assert Live(mem, r, Pdpt);
      assert PdptEntry(mem', r, m.i) == PdptEntry(mem, r, m.i);
      if !m.Pd? && LivePd(mem, r, m.i) {
        assert Live(mem, r, Pd(m.i));
        assert PdEntry(mem', r, m.i, m.j) == PdEntry(mem, r, m.i, m.j);
        if !m.Pt? && LivePt(mem, r, m.i, m.j) {
          assert Live(mem, r, Pt(m.i, m.j));
        }
      }
    }
  }

  // ----- The same steps at the level of translations --------------------------

  /** Same translation for every page outside `except`. */
  ghost predicate SameLookups(mem: Memory, mem': Memory, r: nat, except: set<Path>) {
    forall p: Path :: p !in except ==> Lookup(mem', r, p) == Lookup(mem, r, p)
  }

  /** Linking a fresh zeroed table below `n` changes no translation. */
  lemma LinkTable(mem: Memory, r: nat, own: map<nat, Node>, pool: set<nat>, n: Node, idx: Idx, x: Entry, c: Node)
    requires Space(mem, r, own, pool) && Live(mem, r, n) && Child(n, idx) == Some(c) && !c.Leaf?
    requires !EntryOf(mem, r, c).flags.present && Makes(c, x) && !x.flags.huge
    requires x.frame in pool && x.frame !in own && AllZero(Entries(mem, x.frame)) && Get(mem, x.frame).TableFrame?
    ensures var mem' := Store(mem, FrameOf(mem, r, n), idx, x);
      && Space(mem', r, own[x.frame := c], pool)
      && SameElsewhere(mem, mem', r, n, idx)
      && Live(mem', r, c) && EntryOf(mem', r, c) == x
      && SameLookups(mem, mem', r, {})
  {
    hide Stored;
    var mem' := Store(mem, FrameOf(mem, r, n), idx, x);
    LinkNode(mem, r, own, n, idx, x, c);
    var own' := own[x.frame := c];
    NodeStored(mem, own, x.frame, c);
    StoreStored(mem, own', FrameOf(mem, r, n), idx, x);
    forall p: Path
      ensures SealedAt(mem', r, own', pool, p) && Lookup(mem', r, p) == Lookup(mem, r, p)
    {
      assert SealedAt(mem, r, own, pool, p);
      if Hits(n, idx, p) {
        LinkWalk(mem, r, own, pool, n, idx, x, c, p);
      } else {
        WalkStore(mem, r, own, pool, n, idx, x, p);
      }
    }
    assert own'.Keys == own.Keys + {x.frame};
    assert WellFormed(mem', r, own');
  }

  lemma LinkWalk(mem: Memory, r: nat, own: map<nat, Node>, pool: set<nat>, n: Node, idx: Idx, x: Entry, c: Node,
                 p: Path)
    requires WellFormed(mem, r, own) && Live(mem, r, n) && Child(n, idx) == Some(c) && !c.Leaf?
    requires !EntryOf(mem, r, c).flags.present && Makes(c, x) && !x.flags.huge
    requires x.frame !in own && AllZero(Entries(mem, x.frame))
    requires SealedAt(mem, r, own, pool, p) && Hits(n, idx, p)
    ensures var mem' := Store(mem, FrameOf(mem, r, n), idx, x);
      SealedAt(mem', r, own[x.frame := c], pool, p) && Lookup(mem', r, p) == Lookup(mem, r, p) == None
  {
    var mem' := Store(mem, FrameOf(mem, r, n), idx, x);
    StoreReads(mem, r, own, n, idx, x);
    StoreFrame(mem, r, own, n, idx, x, n);
    assert Entries(mem', x.frame) == Entries(mem, x.frame);
  }

  /** Storing a user leaf over a non-present entry adds exactly one binding. */
  lemma SetLeaf(mem: Memory, r: nat, own: map<nat, Node>, pool: set<nat>, i: Idx, j: Idx, k: Idx, x: Entry)
    requires Space(mem, r, own, pool) && LivePt(mem, r, i, j)
    requires !PtEntry(mem, r, i, j, k).flags.present
    requires x.flags.present && (x.flags.user ==> x.frame in pool && x.frame !in own)
    ensures var mem' := Store(mem, FrameOf(mem, r, Pt(i, j)), k, x);
      && Space(mem', r, if x.flags.user then own[x.frame := Leaf(i, j, k)] else own, pool)
      && SameElsewhere(mem, mem', r, Pt(i, j), k)
      && PtEntry(mem', r, i, j, k) == x
      && SameLookups(mem, mem', r, {Path(0, i, j, k)})
      && Lookup(mem, r, Path(0, i, j, k)) == None
      && Lookup(mem', r, Path(0, i, j, k)) == Some(Mapping(x.frame, x.flags))
  {
    hide Stored, SealedAt, Lookup;
    var n := Pt(i, j);
    var mem' := Store(mem, FrameOf(mem, r, n), k, x);
    assert Live(mem, r, n);
    var own' := if x.flags.user then own[x.frame := Leaf(i, j, k)] else own;
    NodeStored(mem, own, x.frame, Leaf(i, j, k));
    StoreStored(mem, own', FrameOf(mem, r, n), k, x);
    if x.flags.user {
      LinkNode(mem, r, own, n, k, x, Leaf(i, j, k));
    } else {
      InertNode(mem, r, own, n, k, x);
    }
    StoreReads(mem, r, own, n, k, x);
    forall p: Path
      ensures SealedAt(mem', r, own', pool, p)
      ensures p != Path(0, i, j, k) ==> Lookup(mem', r, p) == Lookup(mem, r, p)
    {
      assert SealedAt(mem, r, own, pool, p);
      if !Hits(n, k, p) {
        WalkStore(mem, r, own, pool, n, k, x, p);
      } else {
        assert p == Path(0, i, j, k);
        LeafWalk(mem, r, own, pool, i, j, k, x);
      }
      if x.flags.user {
        SealedGrow(mem', r, own, pool, x.frame, Leaf(i, j, k), p);
      }
    }
    assert SealedAt(mem, r, own, pool, Path(0, i, j, k));
    LeafWalk(mem, r, own, pool, i, j, k, x);
  }

  lemma SealedGrow(mem: Memory, r: nat, own: map<nat, Node>, pool: set<nat>, g: nat, n: Node, p: Path)
    requires SealedAt(mem, r, own, pool, p) && g !in own
    ensures SealedAt(mem, r, own[g := n], pool, p)
  {
  }

  /** A store in a PT only changes what its own page resolves to. */
  lemma LeafWalk(mem: Memory, r: nat, own: map<nat, Node>, pool: set<nat>, i: Idx, j: Idx, k: Idx, x: Entry)
    requires WellFormed(mem, r, own) && own.Keys <= pool && LivePt(mem, r, i, j)
    requires SealedAt(mem, r, own, pool, Path(0, i, j, k))
    ensures var mem' := Store(mem, FrameOf(mem, r, Pt(i, j)), k, x);
      && SealedAt(mem', r, own, pool, Path(0, i, j, k))
      && Lookup(mem', r, Path(0, i, j, k)) == MappingOf(x)
      && Lookup(mem, r, Path(0, i, j, k)) == MappingOf(PtEntry(mem, r, i, j, k))
  {
    assert Live(mem, r, Pt(i, j)) && Live(mem, r, Pd(i)) && Live(mem, r, Pdpt);
    StoreReads(mem, r, own, Pt(i, j), k, x);
    StoreFrame(mem, r, own, Pt(i, j), k, x, Pt(i, j));
    StoreFrame(mem, r, own, Pt(i, j), k, x, Pd(i));
    StoreFrame(mem, r, own, Pt(i, j), k, x, Pdpt);
  }

  /** Rewriting the flags of a live table entry changes no translation. */
  lemma FlagTable(mem: Memory, r: nat, own: map<nat, Node>, pool: set<nat>, n: Node, idx: Idx, x: Entry, c: Node)
    requires Space(mem, r, own, pool) && Live(mem, r, n) && Child(n, idx) == Some(c) && !c.Leaf?
    requires Live(mem, r, c) && Makes(c, x) && x.frame == FrameOf(mem, r, c)
    ensures var mem' := Store(mem, FrameOf(mem, r, n), idx, x);
      && Space(mem', r, own, pool)
      && EntryOf(mem', r, c) == x
      && (forall m: Node :: m != c ==> SameNode(mem, mem', r, m))
      && SameLookups(mem, mem', r, {})
  {
    hide Stored;
    var mem' := Store(mem, FrameOf(mem, r, n), idx, x);
    StoreStored(mem, own, FrameOf(mem, r, n), idx, x);
    FlagNode(mem, r, own, n, idx, x, c);
    forall p: Path ensures SealedAt(mem', r, own, pool, p) && Lookup(mem', r, p) == Lookup(mem, r, p) {
      assert SealedAt(mem, r, own, pool, p);
      if Hits(n, idx, p) {
        FlagWalk(mem, r, own, pool, n, idx, x, c, p);
      } else {
        WalkStore(mem, r, own, pool, n, idx, x, p);
      }
    }
  }

  lemma FlagWalk(mem: Memory, r: nat, own: map<nat, Node>, pool: set<nat>, n: Node, idx: Idx, x: Entry, c: Node,
                 p: Path)
    requires WellFormed(mem, r, own) && Live(mem, r, n) && Child(n, idx) == Some(c) && !c.Leaf?
    requires Live(mem, r, c) && Makes(c, x) && x.frame == FrameOf(mem, r, c)
    requires SealedAt(mem, r, own, pool, p) && Hits(n, idx, p) && own.Keys <= pool
    ensures var mem' := Store(mem, FrameOf(mem, r, n), idx, x);
      SealedAt(mem', r, own, pool, p) && Lookup(mem', r, p) == Lookup(mem, r, p)
  {
    var f := FrameOf(mem, r, n);
    var mem' := Store(mem, f, idx, x);
    assert Live(mem, r, Root);
    FlagNode(mem, r, own, n, idx, x, c);
    var e4, e4' := Entries(mem, r)[p.l4], Entries(mem', r)[p.l4];
    assert e4'.flags.present == e4.flags.present && e4'.frame == e4.frame;
    if e4.flags.present {
      var e3, e3' := Entries(mem, e4.frame)[p.l3], Entries(mem', e4.frame)[p.l3];
      assert e3'.flags.present == e3.flags.present && e3'.frame == e3.frame;
      if e3.flags.present {
        var e2, e2' := Entries(mem, e3.frame)[p.l2], Entries(mem', e3.frame)[p.l2];
        assert e2' == e2 || (c.Pt? && e2' == x && e2 == EntryOf(mem, r, c));
        if e2.flags.present && !e2.flags.huge {
          assert Entries(mem', e2.frame)[p.l1] == Entries(mem, e2.frame)[p.l1];
        }
      }
    }
  }

  /** Unlinking an empty table changes no translation and gives its frame up. */
  lemma UnlinkTable(mem: Memory, r: nat, own: map<nat, Node>, pool: set<nat>, n: Node, idx: Idx, c: Node)
    requires Space(mem, r, own, pool) && Live(mem, r, n) && Child(n, idx) == Some(c) && !c.Leaf?
    requires Live(mem, r, c) && AllZero(Entries(mem, FrameOf(mem, r, c)))
    ensures var mem' := Store(mem, FrameOf(mem, r, n), idx, ZERO_ENTRY);
      && Space(mem', r, own - {FrameOf(mem, r, c)}, pool)
      && SameElsewhere(mem, mem', r, n, idx)
      && SameLookups(mem, mem', r, {})
  {
    hide Stored;
    var mem' := Store(mem, FrameOf(mem, r, n), idx, ZERO_ENTRY);
    UnlinkNode(mem, r, own, n, idx, c);
    var own' := own - {FrameOf(mem, r, c)};
    NodeStored(mem, own, FrameOf(mem, r, c), Leaf(0, 0, 0));
    StoreStored(mem, own', FrameOf(mem, r, n), idx, ZERO_ENTRY);
    forall p: Path ensures SealedAt(mem', r, own', pool, p) && Lookup(mem', r, p) == Lookup(mem, r, p) {
      assert SealedAt(mem, r, own, pool, p);
      if Hits(n, idx, p) {
        UnlinkWalk(mem, r, own, pool, n, idx, c, p);
      } else {
        WalkStore(mem, r, own, pool, n, idx, ZERO_ENTRY, p);
        SealedShrink(mem', r, own, pool, FrameOf(mem, r, c), p);
      }
    }
    assert WellFormed(mem', r, own');
  }

  lemma UnlinkWalk(mem: Memory, r: nat, own: map<nat, Node>, pool: set<nat>, n: Node, idx: Idx, c: Node, p: Path)
    requires WellFormed(mem, r, own) && Live(mem, r, n) && Child(n, idx) == Some(c) && !c.Leaf?
    requires Live(mem, r, c) && AllZero(Entries(mem, FrameOf(mem, r, c)))
    requires SealedAt(mem, r, own, pool, p) && Hits(n, idx, p)
    ensures var mem' := Store(mem, FrameOf(mem, r, n), idx, ZERO_ENTRY);
      SealedAt(mem', r, own - {FrameOf(mem, r, c)}, pool, p) && Lookup(mem', r, p) == Lookup(mem, r, p) == None
  {
    StoreReads(mem, r, own, n, idx, ZERO_ENTRY);
    StoreFrame(mem, r, own, n, idx, ZERO_ENTRY, n);
  }

  /** The walk of `p` may pass through table node `c`. */
  predicate OnPath(c: Node, p: Path) {
    match c
    case Root => true
    case Pdpt => p.l4 == 0
    case Pd(i) => p.l4 == 0 && p.l3 == i
    case Pt(i, j) => p.l4 == 0 && p.l3 == i && p.l2 == j
    case Leaf(_, _, _) => false
  }

  /** Giving up a frame that the walk of `p` does not use keeps `p` private. */
  lemma SealedShrink(mem: Memory, r: nat, own: map<nat, Node>, pool: set<nat>, g: nat, p: Path)
    requires SealedAt(mem, r, own, pool, p)
    requires g in own && !OnPath(own[g], p)
    ensures SealedAt(mem, r, own - {g}, pool, p)
  {
  }

  /** Clearing a present leaf removes exactly that binding. */
  lemma ClearLeaf(mem: Memory, r: nat, own: map<nat, Node>, pool: set<nat>, i: Idx, j: Idx, k: Idx)
    requires Space(mem, r, own, pool) && LivePt(mem, r, i, j) && PtEntry(mem, r, i, j, k).flags.present
    ensures var mem' := Store(mem, FrameOf(mem, r, Pt(i, j)), k, ZERO_ENTRY);
      var e := PtEntry(mem, r, i, j, k);
      && Space(mem', r, if e.flags.user then own - {e.frame} else own, pool)
      && SameElsewhere(mem, mem', r, Pt(i, j), k)
      && PtEntry(mem', r, i, j, k) == ZERO_ENTRY
      && SameLookups(mem, mem', r, {Path(0, i, j, k)})
      && Lookup(mem, r, Path(0, i, j, k)) == Some(Mapping(e.frame, e.flags))
      && Lookup(mem', r, Path(0, i, j, k)) == None
  {
    hide Stored;
    var n := Pt(i, j);
    var mem' := Store(mem, FrameOf(mem, r, n), k, ZERO_ENTRY);
    var e := PtEntry(mem, r, i, j, k);
    assert Live(mem, r, n);
    var own' := if e.flags.user then own - {e.frame} else own;
    NodeStored(mem, own, e.frame, Leaf(0, 0, 0));
    StoreStored(mem, own', FrameOf(mem, r, n), k, ZERO_ENTRY);
    if e.flags.user {
      assert Live(mem, r, Leaf(i, j, k));
      UnlinkNode(mem, r, own, n, k, Leaf(i, j, k));
    } else {
      InertNode(mem, r, own, n, k, ZERO_ENTRY);
    }
    StoreReads(mem, r, own, n, k, ZERO_ENTRY);
    assert SealedAt(mem, r, own, pool, Path(0, i, j, k));
    LeafWalk(mem, r, own, pool, i, j, k, ZERO_ENTRY);
    forall p: Path
      ensures SealedAt(mem', r, own', pool, p)
      ensures p != Path(0, i, j, k) ==> Lookup(mem', r, p) == Lookup(mem, r, p)
    {
      assert SealedAt(mem, r, own, pool, p);
      if !Hits(n, k, p) {
        WalkStore(mem, r, own, pool, n, k, ZERO_ENTRY, p);
      }
      if e.flags.user {
        SealedShrink(mem', r, own, pool, e.frame, p);
      }
    }
  }

  /** Rewriting private frames that hold no owned table changes nothing about the root. */
  lemma OutsideChange(mem: Memory, mem': Memory, r: nat, own: map<nat, Node>, pool: set<nat>, changed: set<nat>)
    requires Space(mem, r, own, pool) && AgreeExcept(mem, mem', changed) && changed <= pool
    requires forall f :: f in changed && f in own ==> own[f].Leaf?
    ensures Space(mem', r, own, pool)
    ensures forall m: Node :: SameNode(mem, mem', r, m)
    ensures SameLookups(mem, mem', r, {})
  {
    forall m: Node ensures SameNode(mem, mem', r, m) && SamePlace(mem, mem', r, m) {
      Untouched(mem, mem', r, own, m);
    }
    SamePlaces(mem, mem', r, own);
    forall p: Path ensures SealedAt(mem', r, own, pool, p) && Lookup(mem', r, p) == Lookup(mem, r, p) {
      assert SealedAt(mem, r, own, pool, p);
      OutsideWalk(mem, mem', r, own, pool, changed, p);
    }
  }

  lemma OutsideWalk(mem: Memory, mem': Memory, r: nat, own: map<nat, Node>, pool: set<nat>, changed: set<nat>, p: Path)
    requires WellFormed(mem, r, own) && SealedAt(mem, r, own, pool, p) && AgreeExcept(mem, mem', changed)
    requires changed <= pool
    requires forall f :: f in changed && f in own ==> own[f].Leaf?
    ensures SealedAt(mem', r, own, pool, p) && Lookup(mem', r, p) == Lookup(mem, r, p)
  {
    assert Live(mem, r, Root);
    var e4 := Entries(mem, r)[p.l4];
    assert Entries(mem', r) == Entries(mem, r);
    if e4.flags.present {
      assert Entries(mem', e4.frame) == Entries(mem, e4.frame);
      var e3 := Entries(mem, e4.frame)[p.l3];
      if e3.flags.present {
        assert Entries(mem', e3.frame) == Entries(mem, e3.frame);
        var e2 := Entries(mem, e3.frame)[p.l2];
        if e2.flags.present && !e2.flags.huge {
          assert Entries(mem', e2.frame) == Entries(mem, e2.frame);
        }
      }
    }
  }

  /** A walk that reads no changed frame translates as before, whatever root it starts from. */
  lemma WalkAgree(mem: Memory, mem': Memory, r: nat, changed: set<nat>, p: Path)
    requires AgreeExcept(mem, mem', changed) && WalkFrames(mem, r, p) !! changed
    ensures Lookup(mem', r, p) == Lookup(mem, r, p) && WalkFrames(mem', r, p) == WalkFrames(mem, r, p)
  {
    var e4 := Entries(mem, r)[p.l4];
    assert r in WalkFrames(mem, r, p);
    assert Entries(mem', r) == Entries(mem, r);
    if e4.flags.present {
      assert e4.frame in WalkFrames(mem, r, p);
      assert Entries(mem', e4.frame) == Entries(mem, e4.frame);
      var e3 := Entries(mem, e4.frame)[p.l3];
      if e3.flags.present {
        assert e3.frame in WalkFrames(mem, r, p);
        assert Entries(mem', e3.frame) == Entries(mem, e3.frame);
        var e2 := Entries(mem, e3.frame)[p.l2];
        if e2.flags.present && !e2.flags.huge {
          assert e2.frame in WalkFrames(mem, r, p);
          assert Entries(mem', e2.frame) == Entries(mem, e2.frame);
        }
      }
    }
  }

  /** And is protected as before. */
  lemma RightsAgree(mem: Memory, mem': Memory, r: nat, changed: set<nat>, p: Path)
    requires AgreeExcept(mem, mem', changed) && WalkFrames(mem, r, p) !! changed
    ensures RightsOf(mem', r, p) == RightsOf(mem, r, p)
  {
    var e4 := Entries(mem, r)[p.l4];
    assert r in WalkFrames(mem, r, p);
    assert Entries(mem', r) == Entries(mem, r);
    if e4.flags.present {
      assert e4.frame in WalkFrames(mem, r, p);
      assert Entries(mem', e4.frame) == Entries(mem, e4.frame);
      var e3 := Entries(mem, e4.frame)[p.l3];
      if e3.flags.present {
        assert e3.frame in WalkFrames(mem, r, p);
        assert Entries(mem', e3.frame) == Entries(mem, e3.frame);
        var e2 := Entries(mem, e3.frame)[p.l2];
        if e2.flags.present && !e2.flags.huge {
          assert e2.frame in WalkFrames(mem, r, p);
          assert Entries(mem', e2.frame) == Entries(mem, e2.frame);
        }
      }
    }
  }

  /** A 1 GiB page sits in PDPT slot `i`. */
  predicate Giant(mem: Memory, r: nat, i: Idx) {
    LivePdpt(mem, r) && PdptEntry(mem, r, i).flags.present && PdptEntry(mem, r, i).flags.huge
  }

  /** A user 2 MiB page sits in the user-range slot (i, j). */
  predicate HugeUser(mem: Memory, r: nat, i: Idx, j: Idx) {
    LivePd(mem, r, i) && InUser(i, j) && PdEntry(mem, r, i, j).flags.present
    && PdEntry(mem, r, i, j).flags.huge && PdEntry(mem, r, i, j).flags.user
  }

  /** The same slots hold 1 GiB pages and user 2 MiB pages. */
  ghost predicate SameGiants(mem: Memory, mem': Memory, r: nat) {
    && (forall i: Idx :: Giant(mem', r, i) == Giant(mem, r, i))
    && (forall i: Idx, j: Idx :: HugeUser(mem', r, i, j) == HugeUser(mem, r, i, j))
  }

  /** Memory after zeroing frame `g` as a table and hanging it below entry `idx` of table `f`. */
  function WithTable(mem: Memory, f: nat, idx: Idx, g: nat, flags: Flags): Memory {
    Store(mem[g := TableFrame(ZeroTable())], f, idx, Entry(g, flags))
  }

  /** Contents survive everywhere but in free frames and owned tables. */
  ghost predicate KeepsData(mem: Memory, mem': Memory, own: map<nat, Node>, free: set<nat>) {
    forall f: nat :: f !in free && (f in own ==> own[f].Leaf?) ==> Get(mem', f) == Get(mem, f)
  }

  /** Creating a table: one more node, no change to any translation or data. */
  lemma NewTable(mem: Memory, r: nat, own: map<nat, Node>, pool: set<nat>, n: Node, idx: Idx, g: nat, flags: Flags,
                 c: Node)
    requires Space(mem, r, own, pool) && Live(mem, r, n) && Child(n, idx) == Some(c) && !c.Leaf?
    requires !EntryOf(mem, r, c).flags.present && flags.present && !flags.huge
    requires g in pool && g !in own
    ensures var mem' := WithTable(mem, FrameOf(mem, r, n), idx, g, flags);
      && Space(mem', r, own[g := c], pool)
      && SameElsewhere(mem, mem', r, n, idx)
      && Live(mem', r, c) && EntryOf(mem', r, c) == Entry(g, flags)
      && AllZero(Entries(mem', g))
      && SameLookups(mem, mem', r, {})
      && SameGiants(mem, mem', r)
      && KeepsData(mem, mem', own, {g})
  {
    var mem1 := mem[g := TableFrame(ZeroTable())];
    var mem' := WithTable(mem, FrameOf(mem, r, n), idx, g, flags);
    assert AgreeExcept(mem, mem1, {g});
    OutsideChange(mem, mem1, r, own, pool, {g});
    assert SameNode(mem, mem1, r, n) && SameNode(mem, mem1, r, c);
    LinkTable(mem1, r, own, pool, n, idx, Entry(g, flags), c);
    forall m: Node | !Under(n, idx, m) ensures SameNode(mem, mem', r, m) {
      assert SameNode(mem, mem1, r, m) && SameNode(mem1, mem', r, m);
    }
    NewTableGiants(mem, mem', r, n, idx, g, c);
  }

  lemma NewTableGiants(mem: Memory, mem': Memory, r: nat, n: Node, idx: Idx, g: nat, c: Node)
    requires SameElsewhere(mem, mem', r, n, idx) && Child(n, idx) == Some(c) && !c.Leaf?
    requires !EntryOf(mem, r, c).flags.present && Live(mem, r, n)
    requires Live(mem', r, c) && !EntryOf(mem', r, c).flags.huge && EntryOf(mem', r, c).frame == g
    requires AllZero(Entries(mem', g))
    ensures SameGiants(mem, mem', r)
  {
    forall i: Idx ensures Giant(mem', r, i) == Giant(mem, r, i) {
      assert Under(n, idx, Pd(i)) || SameNode(mem, mem', r, Pd(i));
    }
    forall i: Idx, j: Idx ensures HugeUser(mem', r, i, j) == HugeUser(mem, r, i, j) {
      assert Under(n, idx, Pt(i, j)) || SameNode(mem, mem', r, Pt(i, j));
    }
  }

  // ----- Paths and addresses --------------------------------------------------

  lemma DivDiv(v: nat)
    ensures v / 0x20_0000 == v / 0x1000 / 512
    ensures v / 0x4000_0000 == v / 0x20_0000 / 512
  {
  }

  lemma DivDivTop(v: nat)
    ensures v / 0x80_0000_0000 == v / 0x4000_0000 / 512
  {
  }

  /** Below 2^48 a page-aligned address and its index path determine each other. */
  lemma IndicesInverse(vaddr: nat)
    requires vaddr < 0x1_0000_0000_0000 && vaddr % 0x1000 == 0
    ensures PathAddr(Indices(vaddr)) == vaddr
  {
    DivDiv(vaddr);
    DivDivTop(vaddr);
    var d, c, b, a := vaddr / 0x1000, vaddr / 0x20_0000, vaddr / 0x4000_0000, vaddr / 0x80_0000_0000;
    assert d == 512 * c + d % 512 && c == 512 * b + c % 512 && b == 512 * a + b % 512;
    assert vaddr == 0x1000 * d && a < 512;
    assert a % 512 == a;
  }

  lemma PathInverse(p: Path)
    ensures Indices(PathAddr(p)) == p
  {
    var a := PathAddr(p);
    DivDiv(a);
    DivDivTop(a);
    assert a / 0x1000 == ((p.l4 * 512 + p.l3) * 512 + p.l2) * 512 + p.l1;
    assert a / 0x20_0000 == (p.l4 * 512 + p.l3) * 512 + p.l2;
    assert a / 0x4000_0000 == p.l4 * 512 + p.l3;
    assert a / 0x80_0000_0000 == p.l4;
  }
}
