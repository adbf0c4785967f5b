/**
  The kernel heap (kmm.rs): a first-fit free list with splitting and coalescing.
  Block headers are kept in a map from address to header; every block is at least a
  header long and blocks do not overlap, so no header overlaps another.
 */
module Heap {
  import opened Prelude
  import opened Pmm

  const MAGIC: nat := 0x564B_4841
  const MIN_BLOCK_SIZE: nat := 64
  const HEADER_SIZE: nat := 24
  const INITIAL_HEAP_PAGES: nat := 256

  /** `next` is an address, 0 for null. */
  datatype Header = Header(magic: nat, size: nat, next: nat)

  datatype Block = Block(addr: nat, size: nat) {
    function End(): nat { addr + size }
  }

  /** Bytes a request takes from the heap; `usize` arithmetic wraps at 2^64. */
  function Needed(size: nat): nat {
    var aligned := (size + 7) % U64 / 8 * 8;
    (HEADER_SIZE + aligned) % U64
  }

  /** A request is given room for its header and all its bytes exactly when nothing wraps. */
  lemma NeededFits(size: nat)
    requires 0 < size < U64
    ensures Needed(size) >= 24 + size <==> size <= U64 - 32
    ensures size <= U64 - 32 ==> Needed(size) % 8 == 0 && Needed(size) < 24 + size + 8
  {
    if size <= U64 - 32 {
      assert (size + 7) % U64 == size + 7;
    }
  }

  /** The largest request wraps around to a bare header. */
  lemma NeededWraps()
    ensures Needed(U64 - 1) == 24
  {
  }

  // ----- Gaps between live blocks ---------------------------------------------

  predicate InFree(free: seq<Block>, x: nat) {
    exists i :: 0 <= i < |free| && free[i].addr <= x < free[i].End()
  }

  predicate InLive(live: map<nat, nat>, x: nat) {
    exists a :: a in live && a <= x < a + live[a]
  }

  /** Free blocks in address order, never touching one another. */
  ghost predicate Separated(free: seq<Block>) {
    forall i, j :: 0 <= i < j < |free| ==> free[i].End() < free[j].addr
  }

  ghost predicate Shaped(addr: nat, size: nat, lo: nat, hi: nat) {
    lo <= addr && addr + size <= hi && addr % 8 == 0 && size % 8 == 0 && 32 <= size
  }

  ghost predicate LiveOk(live: map<nat, nat>, lo: nat, hi: nat) {
    && (forall a :: a in live ==> Shaped(a, live[a], lo, hi))
    && (forall a, b :: a in live && b in live && a < b ==> a + live[a] <= b)
  }

  /**
    `free` is the address-sorted list of maximal gaps between the live blocks of [lo, hi):
    free and live bytes are complementary, and no two free blocks touch.
   */
  ghost predicate Gaps(free: seq<Block>, live: map<nat, nat>, lo: nat, hi: nat) {
    && LiveOk(live, lo, hi)
    && (forall i :: 0 <= i < |free| ==> Shaped(free[i].addr, free[i].size, lo, hi))
    && Separated(free)
    && forall x: nat :: lo <= x < hi ==> (InFree(free, x) <==> !InLive(live, x))
  }

  /** A free block is exactly one free block of any other list of gaps. */
  lemma GapFound(f: seq<Block>, g: seq<Block>, live: map<nat, nat>, lo: nat, hi: nat, i: nat) returns (j: nat)
    requires Gaps(f, live, lo, hi) && Gaps(g, live, lo, hi) && i < |f|
    ensures j < |g| && g[j] == f[i]
  {
    var a, e := f[i].addr, f[i].End();
    assert InFree(f, a);
    j :| 0 <= j < |g| && g[j].addr <= a < g[j].End();
    if g[j].addr < a {
      Bordered(f, g, live, lo, hi, i, j, a - 1);
    }
    Bordered(f, g, live, lo, hi, i, j, e);
    Bordered(g, f, live, lo, hi, j, i, g[j].End());
  }

  /** No free byte borders a free block. */
  lemma Bordered(f: seq<Block>, g: seq<Block>, live: map<nat, nat>, lo: nat, hi: nat, i: nat, j: nat, x: nat)
    requires Gaps(f, live, lo, hi) && Gaps(g, live, lo, hi) && i < |f| && j < |g|
    requires x == f[i].End() || x + 1 == f[i].addr
    ensures !(g[j].addr <= x < g[j].End())
  {
    if g[j].addr <= x < g[j].End() {
      assert InFree(g, x);
      var k :| 0 <= k < |f| && f[k].addr <= x < f[k].End();
      assert false;
    }
  }

  /** The live blocks determine the free list: it depends neither on history nor on the order of frees. */
  lemma {:induction false} GapsUnique(f: seq<Block>, g: seq<Block>, live: map<nat, nat>, lo: nat, hi: nat)
    requires Gaps(f, live, lo, hi) && Gaps(g, live, lo, hi)
    ensures f == g
  {
    GapsPrefix(f, g, live, lo, hi, |f|);
    GapsPrefix(g, f, live, lo, hi, |g|);
  }

  lemma {:induction false} GapsPrefix(f: seq<Block>, g: seq<Block>, live: map<nat, nat>, lo: nat, hi: nat, n: nat)
    requires Gaps(f, live, lo, hi) && Gaps(g, live, lo, hi) && n <= |f|
    ensures n <= |g| && f[..n] == g[..n]
  {
    if n > 0 {
      var i := n - 1;
      GapsPrefix(f, g, live, lo, hi, i);
      var j := GapFound(f, g, live, lo, hi, i);
      assert forall k :: 0 <= k < i ==> f[k] == f[..i][k] == g[..i][k] == g[k];
      if j > i {
        var k := GapFound(g, f, live, lo, hi, i);
        assert false;
      }
      assert f[..n] == f[..i] + [f[i]] && g[..n] == g[..i] + [g[i]];
    }
  }

  /** A stretch of non-live bytes lies in one free block. */
  lemma RunInOneBlock(free: seq<Block>, live: map<nat, nat>, lo: nat, hi: nat, a: nat, n: nat) returns (i: nat)
    requires Gaps(free, live, lo, hi) && n > 0 && lo <= a && a + n <= hi
    requires forall x: nat :: a <= x < a + n ==> !InLive(live, x)
    ensures i < |free| && free[i].addr <= a && a + n <= free[i].End()
  {
    assert InFree(free, a);
    i :| 0 <= i < |free| && free[i].addr <= a < free[i].End();
    var e := free[i].End();
    forall k | 0 <= k < |free| ensures !(free[k].addr <= e < free[k].End()) {
      Bordered(free, free, live, lo, hi, i, k, e);
    }
    assert !InFree(free, e);
  }

  /** Some stretch of `n` bytes of the heap is free of live blocks. */
  ghost predicate RoomFor(live: map<nat, nat>, lo: nat, hi: nat, n: nat) {
    exists a: nat :: FreeRun(live, lo, hi, a, n)
  }

  ghost predicate FreeRun(live: map<nat, nat>, lo: nat, hi: nat, a: nat, n: nat) {
    lo <= a && a + n <= hi && forall x: nat :: a <= x < a + n ==> !InLive(live, x)
  }

  /** First-fit misses nothing: a block is big enough exactly when there is room at all. */
  lemma RoomIsBlock(free: seq<Block>, live: map<nat, nat>, lo: nat, hi: nat, n: nat)
    requires Gaps(free, live, lo, hi) && n > 0
    ensures RoomFor(live, lo, hi, n) <==> exists i :: 0 <= i < |free| && free[i].size >= n
  {
    if RoomFor(live, lo, hi, n) {
      var a: nat :| FreeRun(live, lo, hi, a, n);
      var i := RunInOneBlock(free, live, lo, hi, a, n);
      assert free[i].size >= n;
    }
    if i :| 0 <= i < |free| && free[i].size >= n {
      forall x: nat | free[i].addr <= x < free[i].addr + n ensures !InLive(live, x) {
        assert InFree(free, x);
      }
      assert FreeRun(live, lo, hi, free[i].addr, n);
    }
  }

  // ----- Replacing part of the list -----------------------------------------------

  lemma InFreeConcat(f: seq<Block>, g: seq<Block>, x: nat)
    ensures InFree(f + g, x) <==> InFree(f, x) || InFree(g, x)
  {
    if InFree(f, x) {
      var k :| 0 <= k < |f| && f[k].addr <= x < f[k].End();
      assert (f + g)[k] == f[k];
    }
    if InFree(g, x) {
      var k :| 0 <= k < |g| && g[k].addr <= x < g[k].End();
      assert (f + g)[|f| + k] == g[k];
    }
  }

  /** `free` with entries [l, u) replaced by `mid`. */
  function Splice(free: seq<Block>, l: nat, u: nat, mid: seq<Block>): seq<Block>
    requires l <= u <= |free|
  {
    free[..l] + mid + free[u..]
  }

  lemma SpliceBytes(free: seq<Block>, l: nat, u: nat, mid: seq<Block>, x: nat)
    requires l <= u <= |free|
    ensures InFree(Splice(free, l, u, mid), x) <==> InFree(free[..l], x) || InFree(mid, x) || InFree(free[u..], x)
    ensures InFree(free, x) <==> InFree(free[..l], x) || InFree(free[l..u], x) || InFree(free[u..], x)
  {
    hide InFree;
    InFreeConcat(free[..l] + mid, free[u..], x);
    InFreeConcat(free[..l], mid, x);
    InFreeConcat(free[..l] + free[l..u], free[u..], x);
    InFreeConcat(free[..l], free[l..u], x);
    assert free[..l] + free[l..u] + free[u..] == free;
  }

  lemma SpliceShape(free: seq<Block>, l: nat, u: nat, mid: seq<Block>, lo: nat, hi: nat)
    requires l <= u <= |free| && |mid| <= 1 && Separated(free)
    requires forall k :: 0 <= k < |free| ==> Shaped(free[k].addr, free[k].size, lo, hi)
    requires mid != [] ==> Shaped(mid[0].addr, mid[0].size, lo, hi)
    requires mid != [] && l > 0 ==> free[l - 1].End() < mid[0].addr
    requires mid != [] && u < |free| ==> mid[0].End() < free[u].addr
    ensures var free' := Splice(free, l, u, mid);
      Separated(free') && forall k :: 0 <= k < |free'| ==> Shaped(free'[k].addr, free'[k].size, lo, hi)
  {
    hide Shaped;
    var free' := Splice(free, l, u, mid);
    forall k | 0 <= k < |free'| ensures Shaped(free'[k].addr, free'[k].size, lo, hi) {
      SpliceAt(free, l, u, mid, k);
    }
    forall j, k | 0 <= j < k < |free'| ensures free'[j].End() < free'[k].addr {
      SpliceAt(free, l, u, mid, j);
      SpliceAt(free, l, u, mid, k);
      if j < l == k && mid != [] {
        assert j == l - 1 || free[j].End() < free[l - 1].addr;
      }
      if j == l && mid != [] {
        assert k - |mid| - l + u == u || free[u].End() < free[k - |mid| - l + u].addr;
      }
    }
  }

  lemma SpliceAt(free: seq<Block>, l: nat, u: nat, mid: seq<Block>, k: nat)
    requires l <= u <= |free| && k < |Splice(free, l, u, mid)|
    ensures Splice(free, l, u, mid)[k] ==
      if k < l then free[k] else if k < l + |mid| then mid[k - l] else free[k - |mid| - l + u]
  {
  }

  lemma InFreeOne(b: Block, x: nat)
    ensures InFree([b], x) <==> b.addr <= x < b.End()
  {
    if b.addr <= x < b.End() {
      assert [b][0] == b;
    }
  }

  // ----- Taking a block ---------------------------------------------------------

  /** What the block at index `i` gives a request of `needed` bytes: all of it unless the rest is worth keeping. */
  function GivenSize(free: seq<Block>, i: nat, needed: nat): nat
    requires i < |free| && needed <= free[i].size
  {
    if free[i].size - needed >= MIN_BLOCK_SIZE then needed else free[i].size
  }

  /** What stays of that block. */
  function Rest(free: seq<Block>, i: nat, needed: nat): seq<Block>
    requires i < |free| && needed <= free[i].size
  {
    if free[i].size - needed >= MIN_BLOCK_SIZE then [Block(free[i].addr + needed, free[i].size - needed)] else []
  }

  function Taken(free: seq<Block>, i: nat, needed: nat): seq<Block>
    requires i < |free| && needed <= free[i].size
  {
    Splice(free, i, i + 1, Rest(free, i, needed))
  }

  lemma TakenBytes(free: seq<Block>, i: nat, needed: nat, x: nat)
    requires i < |free| && needed <= free[i].size && Separated(free)
    ensures InFree(Taken(free, i, needed), x) <==>
      InFree(free, x) && !(free[i].addr <= x < free[i].addr + GivenSize(free, i, needed))
  {
    SpliceBytes(free, i, i + 1, Rest(free, i, needed), x);
    assert free[i..i + 1] == [free[i]];
    InFreeOne(free[i], x);
    InFreeOne(Block(free[i].addr + needed, free[i].size - needed), x);
    if InFree(free[..i], x) || InFree(free[i + 1..], x) {
      Others(free, i, i + 1, x);
    }
  }

  /** Bytes of the blocks before `l` and from `u` on lie outside the blocks between. */
  lemma Others(free: seq<Block>, l: nat, u: nat, x: nat)
    requires l <= u <= |free| && Separated(free)
    requires InFree(free[..l], x) || InFree(free[u..], x)
    ensures forall k :: l <= k < u ==> !(free[k].addr <= x < free[k].End())
  {
    if InFree(free[..l], x) {
      var j :| 0 <= j < l && free[..l][j].addr <= x < free[..l][j].End();
      assert free[..l][j] == free[j];
    } else {
      var j :| 0 <= j < |free[u..]| && free[u..][j].addr <= x < free[u..][j].End();
      assert free[u..][j] == free[u + j];
    }
  }

  lemma TakenShape(free: seq<Block>, i: nat, needed: nat, lo: nat, hi: nat)
    requires i < |free| && 32 <= needed <= free[i].size && needed % 8 == 0 && Separated(free)
    requires forall k :: 0 <= k < |free| ==> Shaped(free[k].addr, free[k].size, lo, hi)
    ensures var free' := Taken(free, i, needed);
      Separated(free') && forall k :: 0 <= k < |free'| ==> Shaped(free'[k].addr, free'[k].size, lo, hi)
    ensures Shaped(free[i].addr, GivenSize(free, i, needed), lo, hi)
  {
    SpliceShape(free, i, i + 1, Rest(free, i, needed), lo, hi);
  }

  lemma LiveGrows(live: map<nat, nat>, a: nat, n: nat, x: nat)
    requires a !in live
    ensures InLive(live[a := n], x) <==> InLive(live, x) || a <= x < a + n
  {
    var live' := live[a := n];
    if InLive(live, x) {
      var b :| b in live && b <= x < b + live[b];
      assert b in live' && b <= x < b + live'[b];
    }
    if a <= x < a + n {
      assert a in live' && a <= x < a + live'[a];
    }
  }

  /** Free blocks and live blocks do not overlap. */
  lemma Disjoint(free: seq<Block>, live: map<nat, nat>, lo: nat, hi: nat, i: nat, a: nat)
    requires Gaps(free, live, lo, hi) && i < |free| && a in live
    ensures a + live[a] <= free[i].addr || free[i].End() <= a
  {
    var x := if a <= free[i].addr then free[i].addr else a;
    if x < a + live[a] && x < free[i].End() {
      assert InLive(live, x) && InFree(free, x);
      assert false;
    }
  }

  /** Allocating from the block at `i` leaves the maximal gaps around one more live block. */
  lemma TakenGaps(free: seq<Block>, live: map<nat, nat>, lo: nat, hi: nat, i: nat, needed: nat)
    requires Gaps(free, live, lo, hi) && i < |free| && 32 <= needed <= free[i].size && needed % 8 == 0
    ensures free[i].addr !in live
    ensures Gaps(Taken(free, i, needed), live[free[i].addr := GivenSize(free, i, needed)], lo, hi)
  {
    var a, n := free[i].addr, GivenSize(free, i, needed);
    var free', live' := Taken(free, i, needed), live[a := n];
    forall b | b in live ensures b + live[b] <= a || a + free[i].size <= b {
      Disjoint(free, live, lo, hi, i, b);
    }
    TakenShape(free, i, needed, lo, hi);
    forall x: nat | lo <= x < hi ensures InFree(free', x) <==> !InLive(live', x) {
      TakenBytes(free, i, needed, x);
      LiveGrows(live, a, n, x);
      assert InFree(free, x) <==> !InLive(live, x);
      assert a <= x < a + n ==> InFree(free, x);
    }
  }

  // ----- Returning a block --------------------------------------------------------

  predicate JoinsNext(free: seq<Block>, i: nat, b: Block) {
    i < |free| && b.End() == free[i].addr
  }

  predicate JoinsPrev(free: seq<Block>, i: nat, b: Block) {
    0 < i <= |free| && free[i - 1].End() == b.addr
  }

  /** Block `b` grown by the neighbours it touches. */
  function Merged(free: seq<Block>, i: nat, b: Block): Block
    requires i <= |free|
  {
    var b1 := if JoinsNext(free, i, b) then Block(b.addr, b.size + free[i].size) else b;
    if JoinsPrev(free, i, b) then Block(free[i - 1].addr, free[i - 1].size + b1.size) else b1
  }

  function Lower(free: seq<Block>, i: nat, b: Block): nat
    requires i <= |free|
  {
    if JoinsPrev(free, i, b) then i - 1 else i
  }

  function Upper(free: seq<Block>, i: nat, b: Block): nat
    requires i <= |free|
  {
    if JoinsNext(free, i, b) then i + 1 else i
  }

  function Inserted(free: seq<Block>, i: nat, b: Block): seq<Block>
    requires i <= |free|
  {
    Splice(free, Lower(free, i, b), Upper(free, i, b), [Merged(free, i, b)])
  }

  /** `i` is where `b` belongs: blocks below it end by its start, blocks above start by its end. */
  ghost predicate FitsAt(free: seq<Block>, i: nat, b: Block) {
    && i <= |free|
    && (forall k :: 0 <= k < i ==> free[k].End() <= b.addr)
    && (forall k :: i <= k < |free| ==> b.End() <= free[k].addr)
  }

  lemma InsertedShape(free: seq<Block>, i: nat, b: Block, lo: nat, hi: nat)
    requires Separated(free) && FitsAt(free, i, b) && Shaped(b.addr, b.size, lo, hi)
    requires forall k :: 0 <= k < |free| ==> Shaped(free[k].addr, free[k].size, lo, hi)
    ensures var free' := Inserted(free, i, b);
      Separated(free') && forall k :: 0 <= k < |free'| ==> Shaped(free'[k].addr, free'[k].size, lo, hi)
  {
    hide Shaped;
    MergedShape(free, i, b, lo, hi);
    SpliceShape(free, Lower(free, i, b), Upper(free, i, b), [Merged(free, i, b)], lo, hi);
  }

  /** Two blocks end to end make a block. */
  lemma ShapedJoin(b: Block, c: Block, lo: nat, hi: nat)
    requires Shaped(b.addr, b.size, lo, hi) && Shaped(c.addr, c.size, lo, hi) && b.End() == c.addr
    ensures Shaped(b.addr, b.size + c.size, lo, hi)
  {
  }

  lemma MergedShape(free: seq<Block>, i: nat, b: Block, lo: nat, hi: nat)
    requires Separated(free) && FitsAt(free, i, b) && Shaped(b.addr, b.size, lo, hi)
    requires forall k :: 0 <= k < |free| ==> Shaped(free[k].addr, free[k].size, lo, hi)
    ensures var m, l, u := Merged(free, i, b), Lower(free, i, b), Upper(free, i, b);
      && Shaped(m.addr, m.size, lo, hi)
      && (l > 0 ==> free[l - 1].End() < m.addr) && (u < |free| ==> m.End() < free[u].addr)
  {
    hide Shaped;
    if JoinsNext(free, i, b) {
      ShapedJoin(b, free[i], lo, hi);
    }
    var b1 := if JoinsNext(free, i, b) then Block(b.addr, b.size + free[i].size) else b;
    if JoinsPrev(free, i, b) {
      ShapedJoin(free[i - 1], b1, lo, hi);
    }
  }

  /** The merged block covers `b` and exactly the blocks it replaces. */
  lemma MergedBytes(free: seq<Block>, i: nat, b: Block, x: nat)
    requires FitsAt(free, i, b)
    ensures InFree([Merged(free, i, b)], x) <==>
      b.addr <= x < b.End() || InFree(free[Lower(free, i, b)..Upper(free, i, b)], x)
  {
    var l, u := Lower(free, i, b), Upper(free, i, b);
    InFreeOne(Merged(free, i, b), x);
    if JoinsPrev(free, i, b) {
      InFreeConcat([free[i - 1]], free[i..u], x);
      InFreeOne(free[i - 1], x);
      assert free[l..u] == [free[i - 1]] + free[i..u];
    }
    if JoinsNext(free, i, b) {
      InFreeOne(free[i], x);
      assert free[i..u] == [free[i]];
    } else {
      assert free[i..u] == [];
    }
  }

  lemma InsertedBytes(free: seq<Block>, i: nat, b: Block, x: nat)
    requires FitsAt(free, i, b)
    ensures InFree(Inserted(free, i, b), x) <==> InFree(free, x) || b.addr <= x < b.End()
  {
    hide InFree, Merged;
    SpliceBytes(free, Lower(free, i, b), Upper(free, i, b), [Merged(free, i, b)], x);
    MergedBytes(free, i, b, x);
  }

  lemma LiveShrinks(live: map<nat, nat>, lo: nat, hi: nat, a: nat, x: nat)
    requires LiveOk(live, lo, hi) && a in live
    ensures InLive(live - {a}, x) <==> InLive(live, x) && !(a <= x < a + live[a])
  {
    if InLive(live - {a}, x) {
      var b :| b in live - {a} && b <= x < b + live[b];
      assert b in live && b <= x < b + live[b];
      assert if a < b then a + live[a] <= b else b + live[b] <= a;
    }
    if InLive(live, x) && !(a <= x < a + live[a]) {
      var b :| b in live && b <= x < b + live[b];
      assert b in live - {a};
    }
  }

  /** Freeing a live block, with both coalescings, leaves the maximal gaps around the others. */
  lemma InsertedGaps(free: seq<Block>, live: map<nat, nat>, lo: nat, hi: nat, i: nat, a: nat)
    requires Gaps(free, live, lo, hi) && a in live && FitsAt(free, i, Block(a, live[a]))
    ensures Gaps(Inserted(free, i, Block(a, live[a])), live - {a}, lo, hi)
  {
    var b := Block(a, live[a]);
    var free', live' := Inserted(free, i, b), live - {a};
    assert Shaped(a, live[a], lo, hi);
    InsertedShape(free, i, b, lo, hi);
    forall x: nat | lo <= x < hi ensures InFree(free', x) <==> !InLive(live', x) {
      InsertedBytes(free, i, b, x);
      LiveShrinks(live, lo, hi, a, x);
      assert InFree(free, x) <==> !InLive(live, x);
      assert b.addr <= x < b.End() ==> InLive(live, x);
    }
  }

  /** Splitting the list by address finds where a live block fits. */
  lemma AddressFits(free: seq<Block>, live: map<nat, nat>, lo: nat, hi: nat, i: nat, a: nat)
    requires Gaps(free, live, lo, hi) && a in live && i <= |free|
    requires (forall k :: 0 <= k < i ==> free[k].addr < a) && (i < |free| ==> a <= free[i].addr)
    ensures FitsAt(free, i, Block(a, live[a]))
  {
    assert Shaped(a, live[a], lo, hi);
    forall k | 0 <= k < |free| ensures if k < i then free[k].End() <= a else a + live[a] <= free[k].addr {
      Disjoint(free, live, lo, hi, k, a);
      assert Shaped(free[k].addr, free[k].size, lo, hi);
      assert i < k ==> free[i].End() < free[k].addr;
    }
  }

  // ----- The linked list ----------------------------------------------------------

  function NextOf(free: seq<Block>, i: nat): nat {
    if i < |free| then free[i].addr else 0
  }

  /** Following `next` from `head` visits exactly the blocks of `free`. */
  ghost predicate ListAt(hdr: map<nat, Header>, head: nat, free: seq<Block>) {
    && head == NextOf(free, 0)
    && forall i :: 0 <= i < |free| ==>
         free[i].addr in hdr && hdr[free[i].addr] == Header(MAGIC, free[i].size, NextOf(free, i + 1))
  }

  ghost predicate LiveHeaders(hdr: map<nat, Header>, live: map<nat, nat>) {
    forall a :: a in live ==> a in hdr && hdr[a].magic == MAGIC && hdr[a].size == live[a]
  }

  /** Relinking around the replaced blocks. */
  lemma SpliceList(hdr: map<nat, Header>, hdr': map<nat, Header>, head: nat, head': nat, free: seq<Block>, l: nat,
                   u: nat, mid: seq<Block>)
    requires ListAt(hdr, head, free) && l <= u <= |free| && |mid| <= 1
    requires var first := if mid == [] then NextOf(free, u) else mid[0].addr;
      if l == 0 then head' == first
      else head' == head && free[l - 1].addr in hdr' && hdr'[free[l - 1].addr] == Header(MAGIC, free[l - 1].size, first)
    requires mid != [] ==> mid[0].addr in hdr' && hdr'[mid[0].addr] == Header(MAGIC, mid[0].size, NextOf(free, u))
    requires forall k :: (0 <= k < l - 1 || u <= k < |free|) ==>
      free[k].addr in hdr' && hdr'[free[k].addr] == hdr[free[k].addr]
    ensures ListAt(hdr', head', Splice(free, l, u, mid))
  {
    var free' := Splice(free, l, u, mid);
    forall i | 0 <= i < |free'|
      ensures free'[i].addr in hdr' && hdr'[free'[i].addr] == Header(MAGIC, free'[i].size, NextOf(free', i + 1))
    {
      SpliceAt(free, l, u, mid, i);
      if i + 1 < |free'| {
        SpliceAt(free, l, u, mid, i + 1);
      }
    }
    if |free'| > 0 {
      SpliceAt(free, l, u, mid, 0);
    }
  }

  /** A free block's address is not null, no other free block's and no live block's. */
  lemma Address(free: seq<Block>, live: map<nat, nat>, lo: nat, hi: nat, i: nat)
    requires Gaps(free, live, lo, hi) && (0 < lo || hi == 0) && i < |free|
    ensures free[i].addr != 0 && free[i].addr !in live
    ensures forall k :: 0 <= k < |free| && k != i ==> free[k].addr != free[i].addr
  {
    assert Shaped(free[i].addr, free[i].size, lo, hi);
    if free[i].addr in live {
      Disjoint(free, live, lo, hi, i, free[i].addr);
      assert false;
    }
    forall k | 0 <= k < |free| && k != i ensures free[k].addr != free[i].addr {
      assert if k < i then free[k].End() < free[i].addr else free[i].End() < free[k].addr;
    }
  }

  class KernelHeap {
    var freeList: nat
    var hdr: map<nat, Header>
    var lo: nat
    var hi: nat
    // The blocks on the list, and the size of every block handed out, by address.
    ghost var free: seq<Block>
    ghost var live: map<nat, nat>

    ghost predicate Valid()
      reads this
    {
      && ListAt(hdr, freeList, free) && LiveHeaders(hdr, live)
      && Gaps(free, live, lo, hi) && (0 < lo || hi == 0)
    }

    /** Before `init`: no heap at all. */
    constructor (hdr: map<nat, Header>)
      ensures Valid() && lo == hi == 0 && live == map[]
    {
      freeList, this.hdr, lo, hi := 0, hdr, 0, 0;
      free, live := [], map[];
    }

    /** Take 256 pages for the heap; without them it stays empty. */
    method Init(pmm: PmmAllocator)
      requires pmm.Valid() && Valid() && hi == 0
      modifies this, pmm
      ensures pmm.Valid() && Valid() && live == map[]
      ensures RunAtLowestFits(old(pmm.bits), pmm.totalPages, 256) ==>
        hi == lo + 0x10_0000 && free == [Block(lo, 0x10_0000)] && lo % 0x1000 == 0 && lo > 0
      ensures !RunAtLowestFits(old(pmm.bits), pmm.totalPages, 256) ==>
        hi == 0 && pmm.bits == old(pmm.bits)
    {
      var start := pmm.AllocPages(INITIAL_HEAP_PAGES);
      NoBlocks(free, live, lo);
      if start.None? {
        return;
      }
      var base := start.value * 0x1000;
      lo, hi := base, base + 0x10_0000;
      hdr := hdr[base := Header(MAGIC, 0x10_0000, 0)];
      freeList := base;
      free, live := [Block(base, 0x10_0000)], map[];
      PageStart(start.value);
      OneGap(base);
    }

    /** Unlink the block at `curr` after giving up `needed` bytes of it. */
    method TakeBlock(prev: nat, curr: nat, needed: nat, ghost i: nat)
      requires Valid() && i < |free| && curr == free[i].addr && prev == (if i == 0 then 0 else free[i - 1].addr)
      requires 32 <= needed <= free[i].size && needed % 8 == 0
      modifies this
      ensures Valid() && lo == old(lo) && hi == old(hi)
      ensures free == Taken(old(free), i, needed) && live == old(live)[curr := GivenSize(old(free), i, needed)]
    {
      hide Gaps, Separated, ListAt, LiveHeaders, Taken;
      HeaderAt(hdr, freeList, free, live, lo, hi, i);
      InsideApart(free, live, lo, hi, i, needed);
      TakenGaps(free, live, lo, hi, i, needed);
      ghost var hdr0, head0 := hdr, freeList;
      var remainder := hdr[curr].size - needed;
      if remainder >= MIN_BLOCK_SIZE {
        var newFree := curr + needed;
        var next := hdr[curr].next;
        hdr := hdr[curr := hdr[curr].(size := needed, next := newFree)][newFree := Header(MAGIC, remainder, next)];
        if prev == 0 {
          freeList := newFree;
        } else {
          hdr := hdr[prev := hdr[prev].(next := newFree)];
        }
      } else if prev == 0 {
        freeList := hdr[curr].next;
      } else {
        hdr := hdr[prev := hdr[prev].(next := hdr[curr].next)];
      }
      assert hdr == TakenHdr(hdr0, free, i, needed);
      TakenList(hdr0, head0, free, live, lo, hi, i, needed);
      assert hdr[curr := hdr[curr].(magic := MAGIC)] == hdr;
      hdr := hdr[curr := hdr[curr].(magic := MAGIC)];
      live := live[curr := GivenSize(free, i, needed)];
      free := Taken(free, i, needed);
    }

    /**
      First fit: null exactly for an empty request or when no stretch of the heap free of live
      blocks is long enough, and otherwise the lowest stretch there is.
     */
    method Kmalloc(size: nat) returns (p: nat)
      requires Valid() && size <= U64 - 32
      modifies this
      ensures Valid() && lo == old(lo) && hi == old(hi)
      ensures p == 0 <==> size == 0 || !RoomFor(old(live), lo, hi, Needed(size))
      ensures p == 0 ==> live == old(live) && free == old(free)
      ensures p != 0 ==>
        && p >= HEADER_SIZE && p % 8 == 0 && p - HEADER_SIZE !in old(live)
        && p - HEADER_SIZE in live && live[p - HEADER_SIZE] >= HEADER_SIZE + size
        && live == old(live)[p - HEADER_SIZE := live[p - HEADER_SIZE]]
        && FreeRun(old(live), lo, hi, p - HEADER_SIZE, Needed(size))
        && HandedOut(old(live), lo, hi, p - HEADER_SIZE, Needed(size), live[p - HEADER_SIZE])
        && (forall a: nat :: FreeRun(old(live), lo, hi, a, Needed(size)) ==> p - HEADER_SIZE <= a)
    {
      hide Gaps, Needed, RoomFor, FreeRun, LiveHeaders, ListAt, Taken, HandedOut;
      if size == 0 {
        return 0;
      }
      NeededFits(size);
      HeaderAt(hdr, freeList, free, live, lo, hi, 0);
      var needed := Needed(size);
      var prev, curr := 0, freeList;
      ghost var i := 0;
      while curr != 0
        invariant 0 <= i <= |free| && curr == NextOf(free, i) && prev == (if i == 0 then 0 else free[i - 1].addr)
        invariant Valid() && lo == old(lo) && hi == old(hi) && live == old(live) && free == old(free)
        invariant forall k :: 0 <= k < i ==> free[k].size < needed
        decreases |free| - i
      {
        HeaderAt(hdr, freeList, free, live, lo, hi, i);
        if hdr[curr].size >= needed {
          FirstFit(free, live, lo, hi, i, needed);
          TakenGaps(free, live, lo, hi, i, needed);
          GapAligned(free, live, lo, hi, i);
          GivenOut(free, live, lo, hi, i, needed);
          TakeBlock(prev, curr, needed, i);
          assert live == old(live)[curr := GivenSize(old(free), i, needed)];
          return curr + HEADER_SIZE;
        }
        prev := curr;
        curr := hdr[curr].next;
        i := i + 1;
      }
      HeaderAt(hdr, freeList, free, live, lo, hi, i);
      RoomIsBlock(free, live, lo, hi, needed);
      return 0;
    }

    /** Return a live block; null, and a pointer without a block's magic number before it, are ignored. */
    method Kfree(p: nat)
      requires Valid() && (p != 0 ==> p >= HEADER_SIZE && p - HEADER_SIZE in hdr)
      requires p != 0 && hdr[p - HEADER_SIZE].magic == MAGIC ==> p - HEADER_SIZE in live
      modifies this
      ensures Valid() && lo == old(lo) && hi == old(hi)
      ensures p != 0 && old(hdr[p - HEADER_SIZE].magic) == MAGIC ==> live == old(live) - {p - HEADER_SIZE}
      ensures p == 0 || old(hdr[p - HEADER_SIZE].magic) != MAGIC ==> live == old(live) && free == old(free)
    {
      hide Gaps, LiveHeaders, ListAt;
      if p == 0 {
        return;
      }
      var block := p - HEADER_SIZE;
      if hdr[block].magic != MAGIC {
        return;
      }
      HeaderAt(hdr, freeList, free, live, lo, hi, 0);
      var prev, curr := 0, freeList;
      ghost var i := 0;
      while curr != 0 && curr < block
        invariant 0 <= i <= |free| && curr == NextOf(free, i) && prev == (if i == 0 then 0 else free[i - 1].addr)
        invariant Valid() && lo == old(lo) && hi == old(hi) && live == old(live) && free == old(free)
        invariant forall k :: 0 <= k < i ==> free[k].addr < block
        decreases |free| - i
      {
        HeaderAt(hdr, freeList, free, live, lo, hi, i);
        prev := curr;
        curr := hdr[curr].next;
        i := i + 1;
      }
      HeaderAt(hdr, freeList, free, live, lo, hi, i);
      AddressFits(free, live, lo, hi, i, block);
      LinkBlock(block, prev, curr, i);
    }

    /** Allocating and freeing again restores the whole free list, header for header. */
    method MallocThenFree(size: nat)
      requires Valid() && size <= U64 - 32
      modifies this
      ensures Valid() && live == old(live) && free == old(free) && freeList == old(freeList)
      ensures forall i :: 0 <= i < |free| ==>
        free[i].addr in hdr && free[i].addr in old(hdr) && hdr[free[i].addr] == old(hdr)[free[i].addr]
    {
      hide Gaps, Needed, RoomFor, FreeRun;
      ghost var free0, live0 := free, live;
      var p := Kmalloc(size);
      Kfree(p);
      assert live == live0;
      GapsUnique(free, free0, live, lo, hi);
    }

    /** A second request succeeds when it fits in what the first, of which 64 bytes or more were left, has left. */
    method MallocTwice(size: nat, more: nat) returns (p: nat, q: nat)
      requires Valid() && size <= U64 - 32 && 0 < more <= U64 - 32
      modifies this
      ensures Valid() && (p != 0 ==> p >= HEADER_SIZE)
      ensures p != 0 && FreeRun(old(live), lo, hi, p - HEADER_SIZE, Needed(size) + 64)
              && FreeRun(old(live), lo, hi, p - HEADER_SIZE, Needed(size) + Needed(more)) ==>
        q != 0 && p - HEADER_SIZE in live && live[p - HEADER_SIZE] == Needed(size)
    {
      hide Gaps, Needed, FreeRun;
      p := Kmalloc(size);
      ghost var a, n, m := if p == 0 then 0 else p - HEADER_SIZE, Needed(size), Needed(more);
      if p != 0 && FreeRun(old(live), lo, hi, a, n + 64) && FreeRun(old(live), lo, hi, a, n + m) {
        RestFree(old(live), lo, hi, a, n, m);
        assert live == old(live)[a := n] && RoomFor(live, lo, hi, m);
      }
      q := Kmalloc(more);
    }

    /** A store anywhere in the data of a live block (bytes that read as header `h` at `x`) leaves the heap alone. */
    method StoreData(a: nat, x: nat, h: Header)
      requires Valid() && a in live && a + HEADER_SIZE <= x < a + live[a]
      modifies this`hdr
      ensures Valid()
    {
      hide Gaps;
      DataApart(free, live, lo, hi, a, x);
      hdr := hdr[x := h];
    }

    /** Link a block between `prev` and `curr`, joining it with those it touches. */
    method LinkBlock(block: nat, prev: nat, curr: nat, ghost i: nat)
      requires Valid() && block in live && FitsAt(free, i, Block(block, live[block]))
      requires curr == NextOf(free, i) && prev == (if i == 0 then 0 else free[i - 1].addr)
      modifies this
      ensures Valid() && lo == old(lo) && hi == old(hi)
      ensures live == old(live) - {block} && free == Inserted(old(free), i, Block(block, old(live)[block]))
    {
      hide Gaps, Separated, Inserted, ListAt, LiveHeaders, FitsAt;
      ghost var b := Block(block, live[block]);
      ListFits(free, i, b);
      HeaderAt(hdr, freeList, free, live, lo, hi, i);
      LiveHeader(hdr, live, block);
      InsertedGaps(free, live, lo, hi, i, block);
      InsertedList(hdr, freeList, free, live, lo, hi, i, b);
      Neighbours(free, live, lo, hi, i, block);
      ghost var hdr0 := hdr;
      if curr != 0 && block + hdr[block].size == curr {
        hdr := hdr[block := hdr[block].(size := hdr[block].size + hdr[curr].size, next := hdr[curr].next)];
      } else {
        hdr := hdr[block := hdr[block].(next := curr)];
      }
      if prev != 0 && prev + hdr[prev].size == block {
        hdr := hdr[prev := hdr[prev].(size := hdr[prev].size + hdr[block].size, next := hdr[block].next)];
      } else if prev == 0 {
        freeList := block;
      } else {
        hdr := hdr[prev := hdr[prev].(next := block)];
      }
      assert hdr == InsertedHdr(hdr0, free, i, b);
      live, free := live - {block}, Inserted(free, i, b);
    }
  }

  /** The data of a live block overlaps no header. */
  lemma DataApart(free: seq<Block>, live: map<nat, nat>, lo: nat, hi: nat, a: nat, x: nat)
    requires Gaps(free, live, lo, hi) && a in live && a + HEADER_SIZE <= x < a + live[a]
    ensures forall i :: 0 <= i < |free| ==> x < free[i].addr || free[i].addr + HEADER_SIZE <= x
    ensures forall b :: b in live ==> x < b || b + HEADER_SIZE <= x
  {
    forall i | 0 <= i < |free| ensures x < free[i].addr || free[i].addr + HEADER_SIZE <= x {
      Disjoint(free, live, lo, hi, i, a);
      assert Shaped(free[i].addr, free[i].size, lo, hi);
    }
    forall b | b in live ensures x < b || b + HEADER_SIZE <= x {
      assert Shaped(b, live[b], lo, hi);
      assert if a < b then a + live[a] <= b else a == b || b + live[b] <= a;
    }
  }

  lemma ListFits(free: seq<Block>, i: nat, b: Block)
    requires FitsAt(free, i, b)
    ensures i <= |free|
  {
  }

  /** A live block is no free block. */
  lemma Neighbours(free: seq<Block>, live: map<nat, nat>, lo: nat, hi: nat, i: nat, a: nat)
    requires Gaps(free, live, lo, hi) && (0 < lo || hi == 0) && a in live && i <= |free|
    ensures forall k :: 0 <= k < |free| ==> free[k].addr != a
  {
    hide Gaps;
    forall k | 0 <= k < |free| ensures free[k].addr != a {
      Address(free, live, lo, hi, k);
    }
  }

  /** Freeing two blocks in either order, on two heaps in the same state, ends in the same free list. */
  method FreeOrder(h: KernelHeap, g: KernelHeap, p: nat, q: nat)
    requires h != g && h.Valid() && g.Valid() && h.live == g.live && h.lo == g.lo && h.hi == g.hi
    requires HEADER_SIZE <= p && HEADER_SIZE <= q && p != q && p - HEADER_SIZE in h.live && q - HEADER_SIZE in h.live
    modifies h, g
    ensures h.Valid() && g.Valid() && h.live == g.live == old(h.live) - {p - HEADER_SIZE, q - HEADER_SIZE}
    ensures h.free == g.free && h.freeList == g.freeList
  {
    hide Gaps;
    h.Kfree(p);
    h.Kfree(q);
    g.Kfree(q);
    g.Kfree(p);
    assert h.live == g.live == old(h.live) - {p - HEADER_SIZE, q - HEADER_SIZE};
    GapsUnique(h.free, g.free, h.live, h.lo, h.hi);
  }

  /** The headers of the block at `i` and of its predecessor. */
  lemma HeaderAt(hdr: map<nat, Header>, head: nat, free: seq<Block>, live: map<nat, nat>, lo: nat, hi: nat, i: nat)
    requires ListAt(hdr, head, free) && Gaps(free, live, lo, hi) && (0 < lo || hi == 0) && i <= |free|
    ensures i < |free| ==>
      free[i].addr != 0 && free[i].addr in hdr && hdr[free[i].addr] == Header(MAGIC, free[i].size, NextOf(free, i + 1))
    ensures i > 0 ==> var q := free[i - 1].addr;
      && q != 0 && q in hdr && hdr[q] == Header(MAGIC, free[i - 1].size, NextOf(free, i))
      && (i < |free| ==> q != free[i].addr)
    ensures head == NextOf(free, 0)
  {
    hide Gaps;
    if i < |free| {
      Address(free, live, lo, hi, i);
    }
    if i > 0 {
      Address(free, live, lo, hi, i - 1);
    }
  }

  /** Where the predecessor of the block at `i` must point once `needed` bytes of it are taken. */
  function FirstAfter(free: seq<Block>, i: nat, needed: nat): nat
    requires i < |free| && needed <= free[i].size
  {
    if free[i].size - needed >= MIN_BLOCK_SIZE then free[i].addr + needed else NextOf(free, i + 1)
  }

  /** The headers after taking `needed` bytes of the block at `i`. */
  ghost function TakenHdr(hdr: map<nat, Header>, free: seq<Block>, i: nat, needed: nat): map<nat, Header>
    requires i < |free| && needed <= free[i].size
  {
    var next := NextOf(free, i + 1);
    var hdr1 := if free[i].size - needed >= MIN_BLOCK_SIZE
      then hdr[free[i].addr := Header(MAGIC, needed, free[i].addr + needed)]
              [free[i].addr + needed := Header(MAGIC, free[i].size - needed, next)]
      else hdr;
    if i == 0 then hdr1 else hdr1[free[i - 1].addr := Header(MAGIC, free[i - 1].size, FirstAfter(free, i, needed))]
  }

  /** Other headers are untouched. */
  lemma TakenElsewhere(hdr: map<nat, Header>, free: seq<Block>, i: nat, needed: nat, y: nat)
    requires i < |free| && needed <= free[i].size && y in hdr && (i > 0 ==> y != free[i - 1].addr)
    requires free[i].size - needed >= MIN_BLOCK_SIZE ==> y != free[i].addr && y != free[i].addr + needed
    ensures var hdr' := TakenHdr(hdr, free, i, needed); y in hdr' && hdr'[y] == hdr[y]
  {
  }

  lemma TakenList(hdr: map<nat, Header>, head: nat, free: seq<Block>, live: map<nat, nat>, lo: nat, hi: nat, i: nat,
                  needed: nat)
    requires ListAt(hdr, head, free) && LiveHeaders(hdr, live) && Gaps(free, live, lo, hi) && (0 < lo || hi == 0)
    requires i < |free| && 32 <= needed <= free[i].size
    ensures var hdr' := TakenHdr(hdr, free, i, needed);
      && ListAt(hdr', if i == 0 then FirstAfter(free, i, needed) else head, Taken(free, i, needed))
      && LiveHeaders(hdr', live[free[i].addr := GivenSize(free, i, needed)])
      && free[i].addr in hdr' && hdr'[free[i].addr].magic == MAGIC
  {
    hide Gaps, Splice;
    Address(free, live, lo, hi, i);
    if i > 0 {
      Address(free, live, lo, hi, i - 1);
    }
    InsideApart(free, live, lo, hi, i, needed);
    TakenLinks(hdr, head, free, i, needed);
    TakenLive(hdr, head, free, live, i, needed);
  }

  lemma TakenLinks(hdr: map<nat, Header>, head: nat, free: seq<Block>, i: nat, needed: nat)
    requires ListAt(hdr, head, free) && i < |free| && 32 <= needed <= free[i].size
    requires forall k :: 0 <= k < |free| ==>
      free[k].addr != free[i].addr + needed && (k != i ==> free[k].addr != free[i].addr)
    requires i > 0 ==> forall k :: 0 <= k < |free| && k != i - 1 ==> free[k].addr != free[i - 1].addr
    ensures ListAt(TakenHdr(hdr, free, i, needed), if i == 0 then FirstAfter(free, i, needed) else head,
                   Taken(free, i, needed))
  {
    var hdr' := TakenHdr(hdr, free, i, needed);
    forall k | (0 <= k < i - 1 || i + 1 <= k < |free|)
      ensures free[k].addr in hdr' && hdr'[free[k].addr] == hdr[free[k].addr]
    {
      TakenElsewhere(hdr, free, i, needed, free[k].addr);
    }
    SpliceList(hdr, hdr', head, if i == 0 then FirstAfter(free, i, needed) else head, free, i, i + 1,
               Rest(free, i, needed));
  }

  lemma TakenLive(hdr: map<nat, Header>, head: nat, free: seq<Block>, live: map<nat, nat>, i: nat, needed: nat)
    requires ListAt(hdr, head, free) && LiveHeaders(hdr, live) && i < |free| && 32 <= needed <= free[i].size
    requires free[i].addr !in live && (i > 0 ==> free[i - 1].addr !in live && free[i - 1].addr != free[i].addr)
    requires needed < free[i].size ==> free[i].addr + needed !in live
    requires i > 0 ==> free[i - 1].addr != free[i].addr + needed
    ensures var hdr' := TakenHdr(hdr, free, i, needed);
      && LiveHeaders(hdr', live[free[i].addr := GivenSize(free, i, needed)])
      && free[i].addr in hdr' && hdr'[free[i].addr].magic == MAGIC
  {
    var hdr' := TakenHdr(hdr, free, i, needed);
    forall a | a in live ensures a in hdr' && hdr'[a] == hdr[a] {
      TakenElsewhere(hdr, free, i, needed, a);
    }
  }

  /** An address inside a free block is no block's. */
  lemma InsideApart(free: seq<Block>, live: map<nat, nat>, lo: nat, hi: nat, i: nat, needed: nat)
    requires Gaps(free, live, lo, hi) && i < |free| && 0 < needed <= free[i].size
    ensures forall k :: 0 <= k < |free| ==> free[k].addr != free[i].addr + needed
    ensures needed < free[i].size ==> free[i].addr + needed !in live
  {
    var x := free[i].addr + needed;
    if needed < free[i].size {
      assert InFree(free, x);
      assert !InLive(live, x);
    }
    forall k | 0 <= k < |free| ensures free[k].addr != x {
      assert k < i ==> free[k].End() < free[i].addr;
      assert i < k ==> free[i].End() < free[k].addr;
    }
  }

  lemma GapRoom(free: seq<Block>, live: map<nat, nat>, lo: nat, hi: nat, i: nat)
    requires Gaps(free, live, lo, hi) && i < |free|
    ensures lo + 32 <= hi
  {
    assert Shaped(free[i].addr, free[i].size, lo, hi);
  }

  lemma NoBlocks(free: seq<Block>, live: map<nat, nat>, lo: nat)
    requires Gaps(free, live, lo, 0)
    ensures free == [] && live == map[]
  {
    if |free| > 0 {
      GapRoom(free, live, lo, 0, 0);
      assert false;
    }
    assert live.Keys == {};
  }

  lemma OneGap(base: nat)
    requires base % 8 == 0
    ensures Gaps([Block(base, 0x10_0000)], map[], base, base + 0x10_0000)
  {
    var b := Block(base, 0x10_0000);
    forall x: nat | base <= x < b.End() ensures InFree([b], x) && !InLive(map[], x) {
      InFreeOne(b, x);
    }
    assert Shaped(b.addr, b.size, base, base + 0x10_0000);
  }

  lemma PageStart(n: nat)
    ensures n * 0x1000 % 8 == 0 && n * 0x1000 % 0x1000 == 0
  {
  }

  lemma LiveHeader(hdr: map<nat, Header>, live: map<nat, nat>, a: nat)
    requires LiveHeaders(hdr, live) && a in live
    ensures a in hdr && hdr[a].magic == MAGIC && hdr[a].size == live[a]
  {
  }

  lemma GapAligned(free: seq<Block>, live: map<nat, nat>, lo: nat, hi: nat, i: nat)
    requires Gaps(free, live, lo, hi) && i < |free|
    ensures (free[i].addr + HEADER_SIZE) % 8 == 0
  {
  }

  /** A free block is all that is free from its start on. */
  lemma GapExtent(free: seq<Block>, live: map<nat, nat>, lo: nat, hi: nat, i: nat, n: nat)
    requires Gaps(free, live, lo, hi) && i < |free|
    ensures FreeRun(live, lo, hi, free[i].addr, n) <==> n <= free[i].size
  {
    var a, e := free[i].addr, free[i].End();
    assert Shaped(a, free[i].size, lo, hi);
    if n <= free[i].size {
      forall x: nat | a <= x < a + n ensures !InLive(live, x) {
        assert InFree(free, x);
      }
    } else {
      assert !InFree(free, e);
    }
  }

  /** What a block of `n` bytes leaves of a free stretch is free. */
  lemma RestFree(live: map<nat, nat>, lo: nat, hi: nat, a: nat, n: nat, m: nat)
    requires FreeRun(live, lo, hi, a, n + m) && a !in live
    ensures FreeRun(live[a := n], lo, hi, a + n, m)
  {
    var live' := live[a := n];
    forall x: nat | a + n <= x < a + n + m ensures !InLive(live', x) {
      LiveGrows(live, a, n, x);
    }
  }

  /**
    How much is handed out at `a`: the bytes needed when 64 or more would be left of what is free there, otherwise all
    that is free, which is less than 64 bytes more.
   */
  ghost predicate HandedOut(live: map<nat, nat>, lo: nat, hi: nat, a: nat, needed: nat, given: nat) {
    && FreeRun(live, lo, hi, a, given)
    && if FreeRun(live, lo, hi, a, needed + 64) then given == needed
       else needed <= given < needed + 64 && !FreeRun(live, lo, hi, a, given + 1)
  }

  lemma GivenOut(free: seq<Block>, live: map<nat, nat>, lo: nat, hi: nat, i: nat, needed: nat)
    requires Gaps(free, live, lo, hi) && i < |free| && needed <= free[i].size
    ensures HandedOut(live, lo, hi, free[i].addr, needed, GivenSize(free, i, needed))
  {
    hide Gaps, FreeRun;
    var given := GivenSize(free, i, needed);
    GapExtent(free, live, lo, hi, i, given);
    GapExtent(free, live, lo, hi, i, given + 1);
    GapExtent(free, live, lo, hi, i, needed + 64);
  }

  /** The first block that fits is the lowest free stretch that does. */
  lemma FirstFit(free: seq<Block>, live: map<nat, nat>, lo: nat, hi: nat, i: nat, n: nat)
    requires Gaps(free, live, lo, hi) && i < |free| && 0 < n <= free[i].size
    requires forall k :: 0 <= k < i ==> free[k].size < n
    ensures RoomFor(live, lo, hi, n) && FreeRun(live, lo, hi, free[i].addr, n)
    ensures forall a: nat :: FreeRun(live, lo, hi, a, n) ==> free[i].addr <= a
  {
    forall x: nat | free[i].addr <= x < free[i].addr + n ensures !InLive(live, x) {
      assert InFree(free, x);
    }
    assert Shaped(free[i].addr, free[i].size, lo, hi);
    assert FreeRun(live, lo, hi, free[i].addr, n);
    forall a: nat | FreeRun(live, lo, hi, a, n) ensures free[i].addr <= a {
      var k := RunInOneBlock(free, live, lo, hi, a, n);
      assert i < k ==> free[i].End() < free[k].addr;
    }
  }

  /** The headers after returning block `b` at position `i`. */
  ghost function InsertedHdr(hdr: map<nat, Header>, free: seq<Block>, i: nat, b: Block): map<nat, Header>
    requires i <= |free|
  {
    var h := if JoinsNext(free, i, b) then Header(MAGIC, b.size + free[i].size, NextOf(free, i + 1))
             else Header(MAGIC, b.size, NextOf(free, i));
    var hdr1 := hdr[b.addr := h];
    if JoinsPrev(free, i, b) then hdr1[free[i - 1].addr := Header(MAGIC, free[i - 1].size + h.size, h.next)]
    else if i == 0 then hdr1
    else hdr1[free[i - 1].addr := Header(MAGIC, free[i - 1].size, b.addr)]
  }

  lemma InsertedElsewhere(hdr: map<nat, Header>, free: seq<Block>, i: nat, b: Block, y: nat)
    requires i <= |free| && y in hdr && y != b.addr && (i > 0 ==> y != free[i - 1].addr)
    ensures var hdr' := InsertedHdr(hdr, free, i, b); y in hdr' && hdr'[y] == hdr[y]
  {
  }

  lemma InsertedList(hdr: map<nat, Header>, head: nat, free: seq<Block>, live: map<nat, nat>, lo: nat, hi: nat, i: nat,
                     b: Block)
    requires ListAt(hdr, head, free) && LiveHeaders(hdr, live) && Gaps(free, live, lo, hi) && (0 < lo || hi == 0)
    requires i <= |free| && b.addr in live && b.size == live[b.addr]
    ensures var hdr' := InsertedHdr(hdr, free, i, b);
      && ListAt(hdr', if i == 0 then b.addr else head, Inserted(free, i, b))
      && LiveHeaders(hdr', live - {b.addr})
  {
    hide Gaps, ListAt, Inserted, InsertedHdr;
    Neighbours(free, live, lo, hi, i, b.addr);
    if i > 0 {
      Address(free, live, lo, hi, i - 1);
    }
    InsertedLinks(hdr, head, free, i, b);
    var hdr' := InsertedHdr(hdr, free, i, b);
    forall a | a in live - {b.addr} ensures a in hdr' && hdr'[a] == hdr[a] {
      InsertedElsewhere(hdr, free, i, b, a);
    }
  }

  lemma InsertedLinks(hdr: map<nat, Header>, head: nat, free: seq<Block>, i: nat, b: Block)
    requires ListAt(hdr, head, free) && i <= |free| && forall k :: 0 <= k < |free| ==> free[k].addr != b.addr
    requires i > 0 ==> forall k :: 0 <= k < |free| && k != i - 1 ==> free[k].addr != free[i - 1].addr
    ensures ListAt(InsertedHdr(hdr, free, i, b), if i == 0 then b.addr else head, Inserted(free, i, b))
  {
    var hdr' := InsertedHdr(hdr, free, i, b);
    forall k | (0 <= k < i - 1 || i <= k < |free|)
      ensures free[k].addr in hdr' && hdr'[free[k].addr] == hdr[free[k].addr]
    {
      InsertedElsewhere(hdr, free, i, b, free[k].addr);
    }
    SpliceList(hdr, hdr', head, if i == 0 then b.addr else head, free, Lower(free, i, b), Upper(free, i, b),
               [Merged(free, i, b)]);
  }
}
