/**
  The descriptor system calls (vfs/mod.rs, syscall.rs, pipe.rs) and the descriptor parts of
  fork, exec and reaping (process.rs), over one open file table and the kernel heap.
 */
module Files {
  import opened Prelude
  import opened Heap
  import opened FileTables

  const EBADF: int := 9
  const ENOMEM: int := 12
  const EINVAL: int := 22
  const ENFILE: int := 23
  const EMFILE: int := 24
  const PIPE_BUF_BYTES: nat := 4120
  const VNODE_BYTES: nat := 56

  /** Pointers handed out by the heap. */
  ghost function Ptrs(live: map<nat, nat>): set<nat> {
    set a | a in live :: a + HEADER_SIZE
  }

  lemma InPtrs(live: map<nat, nat>, p: nat)
    ensures p in Ptrs(live) <==> p >= HEADER_SIZE && p - HEADER_SIZE in live
  {
    if p >= HEADER_SIZE && p - HEADER_SIZE in live {
      var a := p - HEADER_SIZE;
      assert a in live && a + HEADER_SIZE == p;
    }
  }

  lemma PtrsAdd(live: map<nat, nat>, a: nat, n: nat)
    ensures Ptrs(live[a := n]) == Ptrs(live) + {a + HEADER_SIZE}
    ensures a + HEADER_SIZE in Ptrs(live) <==> a in live
  {
    hide Ptrs;
    InPtrs(live, a + HEADER_SIZE);
    var live' := live[a := n];
    forall p ensures p in Ptrs(live') <==> p in Ptrs(live) + {a + HEADER_SIZE} {
      InPtrs(live, p);
      InPtrs(live', p);
    }
  }

  lemma PtrsRemove(live: map<nat, nat>, a: nat)
    ensures Ptrs(live - {a}) == Ptrs(live) - {a + HEADER_SIZE}
  {
    hide Ptrs;
    var live' := live - {a};
    forall p ensures p in Ptrs(live') <==> p in Ptrs(live) - {a + HEADER_SIZE} {
      InPtrs(live, p);
      InPtrs(live', p);
    }
  }

  function SaturatingAdd(n: nat): nat {
    if n + 1 < U32 then n + 1 else U32 - 1
  }

  /** State after `oft_decref(idx)`. */
  function Decref(s: State, idx: nat): State
    requires idx < |s.oft| && s.oft[idx].Some? && s.oft[idx].value.refcount > 0
    requires s.oft[idx].value.vnode.PipeEnd? ==>
      s.oft[idx].value.vnode.buf in s.pipes && s.pipes[s.oft[idx].value.vnode.buf] > 0
  {
    var e := s.oft[idx].value;
    if e.refcount > 1 then SetEntry(s, idx, Some(e.(refcount := e.refcount - 1))) else Closing(s, idx)
  }

  /** Keys of the heap blocks that closing `v` gives back. */
  ghost function FreedKeys(v: Vnode, pipes: map<nat, nat>): set<nat> {
    match v
    case Plain(_) => {}
    case PipeEnd(addr, buf) =>
      (if addr >= HEADER_SIZE then {addr - HEADER_SIZE} else {}) +
      (if buf >= HEADER_SIZE && buf in pipes && pipes[buf] == 1 then {buf - HEADER_SIZE} else {})
  }

  /** The effect of `oft_decref(idx)` on the file state and the heap. */
  ghost predicate Dropped(s: State, live: map<nat, nat>, s': State, live': map<nat, nat>, idx: nat) {
    && idx < |s.oft| && s.oft[idx].Some? && s.oft[idx].value.refcount > 0
    && (s.oft[idx].value.vnode.PipeEnd? ==>
          s.oft[idx].value.vnode.buf in s.pipes && s.pipes[s.oft[idx].value.vnode.buf] > 0)
    && s' == Decref(s, idx)
    && live' == if s.oft[idx].value.refcount == 1 then live - FreedKeys(s.oft[idx].value.vnode, s.pipes) else live
  }

  /** Entry `i` is a pipe end whose node is at `p`. */
  predicate NodeAt(oft: Oft, i: nat, p: nat) {
    i < |oft| && oft[i].Some? && oft[i].value.vnode.PipeEnd? && oft[i].value.vnode.addr == p
  }

  /** Heap pointer `p` is in use by a pipe: its buffer, or the node of an open end. */
  ghost predicate OfPipe(oft: Oft, pipes: map<nat, nat>, p: nat) {
    p in pipes || exists i :: NodeAt(oft, i, p)
  }

  /** Live heap blocks that belong to no pipe, with their sizes. */
  ghost function Elsewhere(live: map<nat, nat>, oft: Oft, pipes: map<nat, nat>): map<nat, nat> {
    map a | a in live && !OfPipe(oft, pipes, a + HEADER_SIZE) :: live[a]
  }

  /** Entries open in `oft'` are the same openings of the same files as in `oft`; some may have been closed. */
  ghost predicate Survive(oft: Oft, oft': Oft) {
    && |oft'| == |oft|
    && forall i :: 0 <= i < |oft| && oft'[i].Some? ==>
         oft[i].Some? && oft'[i].value.vnode == oft[i].value.vnode && oft'[i].value.serial == oft[i].value.serial
  }

  /** Only reference counts differ. */
  ghost predicate RefsOnly(oft: Oft, oft': Oft) {
    Survive(oft, oft') && forall i :: 0 <= i < |oft| ==> oft'[i].Some? == oft[i].Some?
  }

  class FileSystem {
    const heap: KernelHeap
    var oft: Oft
    var tables: FdTables
    var pipes: map<nat, nat>
    var openings: nat
    var closed: seq<nat>
    var current: nat

    ghost function S(): State
      reads this
    {
      State(oft, tables, pipes, openings, closed)
    }

    /** The file state with descriptor tables `view`, which run ahead of or behind the real ones inside a loop. */
    ghost function With(view: FdTables): State
      reads this
    {
      State(oft, view, pipes, openings, closed)
    }

    /** The invariant with references `hand` and pipe ends `spare` in transit. */
    ghost predicate Ok(view: FdTables, hand: multiset<nat>, spare: multiset<nat>)
      reads this, heap
    {
      heap.Valid() && Inv(With(view), hand, spare, Ptrs(heap.live)) && |view| <= MAX_PROCS
    }

    /** The heap apart from pipes: its bounds, and the live blocks that belong to none. */
    ghost function Apart(): (map<nat, nat>, nat, nat)
      reads this, heap
    {
      (Elsewhere(heap.live, oft, pipes), heap.lo, heap.hi)
    }

    /** Between system calls nothing is in transit. */
    ghost predicate Valid()
      reads this, heap
    {
      Ok(tables, multiset{}, multiset{}) && current in tables
    }

    /** As init is spawned: descriptors 0, 1 and 2 share the terminal, the idle process has none. */
    constructor (heap: KernelHeap, terminal: nat)
      requires heap.Valid()
      ensures Valid() && this.heap == heap && current == 1 && tables.Keys == {1, 2}
      ensures |oft| == 64 && oft[0] == Some(OpenFile(Plain(terminal), 3, 0))
      ensures forall i :: 0 < i < 64 ==> oft[i].None?
      ensures |tables[1]| == |tables[2]| == 16
      ensures forall fd :: 0 <= fd < 16 ==> tables[1][fd] == (if fd < 3 then 0 else -1) && tables[2][fd] == -1
    {
      this.heap := heap;
      oft := [Some(OpenFile(Plain(terminal), 3, 0))] + seq(OFT_SIZE - 1, _ => None);
      tables := map[1 := [0, 0, 0] + seq(MAX_FDS - 3, _ => -1), 2 := seq(MAX_FDS, _ => -1)];
      pipes, openings, closed, current := map[], 1, [], 1;
      new;
      InitialInv(S(), heap.live, terminal);
    }

    /** First free entry, with one reference in hand; ENFILE when there is none. */
    method OftAlloc(v: Vnode, ghost hand: multiset<nat>, ghost spare: multiset<nat>) returns (r: Option<nat>)
      requires Ok(tables, hand, spare) && Openable(S(), spare, Ptrs(heap.live), v)
      modifies this`oft, this`openings
      ensures r.None? ==> oft == old(oft) && openings == old(openings) && forall i :: 0 <= i < OFT_SIZE ==> oft[i].Some?
      ensures r.Some? ==>
        && r.value < OFT_SIZE && old(oft)[r.value].None? && (forall i :: 0 <= i < r.value ==> old(oft)[i].Some?)
        && S() == Opening(old(S()), r.value, v) && Ok(tables, hand + multiset{r.value}, SpareAfter(spare, v))
    {
      hide PipesOk, AddrsOk, ClosedOk, CountOk, TablesOk, Gaps, Openable, SpareAfter, ListAt, LiveHeaders;
      var i := 0;
      while i < OFT_SIZE
        invariant 0 <= i <= OFT_SIZE && oft == old(oft) && openings == old(openings)
        invariant forall k :: 0 <= k < i ==> oft[k].Some?
      {
        if oft[i].None? {
          OpenNew(S(), hand, spare, Ptrs(heap.live), i, v);
          oft := oft[i := Some(OpenFile(v, 1, openings))];
          openings := openings + 1;
          return Some(i);
        }
        i := i + 1;
      }
      return None;
    }

    /** One more reference, held in hand. The 32-bit count saturates, far above what can be reached. */
    method OftIncref(idx: nat, ghost view: FdTables)
      requires Ok(view, multiset{}, multiset{}) && idx < OFT_SIZE && |oft| == OFT_SIZE && oft[idx].Some?
      modifies this`oft
      ensures Ok(view, multiset{idx}, multiset{})
      ensures oft == old(oft)[idx := Some(old(oft)[idx].value.(refcount := old(oft)[idx].value.refcount + 1))]
    {
      hide Inv, Gaps, ListAt, LiveHeaders, Ptrs;
      TakeRef(With(view), multiset{}, multiset{}, Ptrs(heap.live), idx);
      assert multiset{} + multiset{idx} == multiset{idx};
      CountSmall(With(view), multiset{}, multiset{}, Ptrs(heap.live), idx);
      var of := oft[idx].value;
      oft := oft[idx := Some(of.(refcount := SaturatingAdd(of.refcount)))];
    }

    /** Return a heap block used by a pipe. */
    method FreeBlock(p: nat)
      requires heap.Valid() && p in Ptrs(heap.live)
      modifies heap
      ensures heap.Valid() && heap.lo == old(heap.lo) && heap.hi == old(heap.hi)
      ensures p >= HEADER_SIZE && heap.live == old(heap.live) - {p - HEADER_SIZE}
      ensures Ptrs(heap.live) == old(Ptrs(heap.live)) - {p}
    {
      hide Gaps, ListAt, Ptrs;
      InPtrs(heap.live, p);
      LiveHeader(heap.hdr, heap.live, p - HEADER_SIZE);
      PtrsRemove(heap.live, p - HEADER_SIZE);
      heap.Kfree(p);
    }

    /** The close operation of a pipe end. */
    method PipeClose(v: Vnode)
      requires heap.Valid() && v.PipeEnd? && v.buf in pipes && pipes[v.buf] > 0
      requires v.addr in Ptrs(heap.live) && v.buf in Ptrs(heap.live) && v.addr != v.buf
      modifies this`pipes, heap
      ensures heap.Valid() && heap.lo == old(heap.lo) && heap.hi == old(heap.hi)
      ensures pipes == PipeClosed(old(pipes), v.buf) && Ptrs(heap.live) == old(Ptrs(heap.live)) - Freed(v, old(pipes))
      ensures v.addr >= HEADER_SIZE && v.buf >= HEADER_SIZE && heap.live == old(heap.live) - FreedKeys(v, old(pipes))
    {
      hide Gaps, ListAt, LiveHeaders, Ptrs;
      InPtrs(heap.live, v.addr);
      InPtrs(heap.live, v.buf);
      var count := pipes[v.buf] - 1;
      FreeBlock(v.addr);
      if count == 0 {
        FreeBlock(v.buf);
        pipes := pipes - {v.buf};
      } else {
        pipes := pipes[v.buf := count];
      }
    }

    /** Give up the reference to `idx` in hand; the last one closes the file. */
    method OftDecref(idx: nat, ghost view: FdTables, ghost hand: multiset<nat>, ghost spare: multiset<nat>)
      requires Ok(view, hand, spare) && idx in hand
      modifies this`oft, this`pipes, this`closed, heap
      ensures Ok(view, hand - multiset{idx}, spare) && heap.lo == old(heap.lo) && heap.hi == old(heap.hi)
      ensures Dropped(old(With(view)), old(heap.live), With(view), heap.live, idx)
    {
      hide Inv, Gaps, ListAt, LiveHeaders, Ptrs, PipeClosed;
      ghost var s0 := With(view);
      HandNamesOpen(s0, hand, spare, Ptrs(heap.live), idx);
      var of := oft[idx].value;
      if of.refcount > 1 {
        DropRef(s0, hand, spare, Ptrs(heap.live), idx);
        PipeKnown(s0, hand, spare, Ptrs(heap.live), idx);
        oft := oft[idx := Some(of.(refcount := of.refcount - 1))];
      } else {
        CloseEntry(idx, view, hand, spare);
      }
    }

    /** The last reference: run the close operation and free the entry. */
    method CloseEntry(idx: nat, ghost view: FdTables, ghost hand: multiset<nat>, ghost spare: multiset<nat>)
      requires Ok(view, hand, spare) && idx in hand && idx < |oft| && oft[idx].Some? && oft[idx].value.refcount == 1
      modifies this`oft, this`pipes, this`closed, heap
      ensures Ok(view, hand - multiset{idx}, spare) && heap.lo == old(heap.lo) && heap.hi == old(heap.hi)
      ensures Dropped(old(With(view)), old(heap.live), With(view), heap.live, idx)
    {
      hide Inv, Gaps, ListAt, LiveHeaders, Ptrs, PipeClosed;
      ghost var s0 := With(view);
      HandNamesOpen(s0, hand, spare, Ptrs(heap.live), idx);
      EndKnown(s0, hand, spare, Ptrs(heap.live), idx);
      CloseLast(s0, hand, spare, Ptrs(heap.live), idx);
      var of := oft[idx].value;
      if of.vnode.PipeEnd? {
        PipeClose(of.vnode);
      } else {
        assert Ptrs(heap.live) - Freed(of.vnode, pipes) == Ptrs(heap.live);
      }
      closed := closed + [of.serial];
      oft := oft[idx := None];
    }

    /** First unused descriptor of the current process. */
    method FirstFree() returns (fd: Option<nat>)
      requires current in tables && |tables[current]| == MAX_FDS
      ensures fd.None? ==> forall k :: 0 <= k < MAX_FDS ==> tables[current][k] >= 0
      ensures fd.Some? ==>
        fd.value < MAX_FDS && tables[current][fd.value] < 0 && forall k :: 0 <= k < fd.value ==> tables[current][k] >= 0
    {
      var k := 0;
      while k < MAX_FDS
        invariant 0 <= k <= MAX_FDS && forall j :: 0 <= j < k ==> tables[current][j] >= 0
      {
        if tables[current][k] < 0 {
          return Some(k);
        }
        k := k + 1;
      }
      return None;
    }

    // ----- System calls -------------------------------------------------------------

    /** Close descriptor `fd` of process `p`, which must be open. */
    method CloseSlot(p: nat, fd: nat)
      requires Valid() && p in tables && fd < MAX_FDS && |tables[p]| == MAX_FDS && tables[p][fd] >= 0
      modifies this`oft, this`tables, this`pipes, this`closed, heap
      ensures Valid() && tables == SetFd(old(tables), p, fd, -1) && Survive(old(oft), oft) && Apart() == old(Apart())
    {
      hide Inv, Gaps, ListAt, LiveHeaders, Ptrs, Dropped, Survive, Elsewhere;
      var idx := tables[p][fd];
      SlotToHand(S(), multiset{}, multiset{}, Ptrs(heap.live), p, fd);
      tables := tables[p := tables[p][fd := -1]];
      assert multiset{} + multiset{idx as nat} == multiset{idx as nat};
      ghost var s0, live0 := S(), heap.live;
      OftDecref(idx, tables, multiset{idx as nat}, multiset{});
      assert multiset{idx as nat} - multiset{idx as nat} == multiset{};
      DropApart(s0, multiset{idx as nat}, multiset{}, live0, S(), heap.live, idx);
    }

    /** Open a resolved node whose own open operation returned `rc`. */
    method SysOpen(v: Vnode, rc: int) returns (r: int)
      requires Valid() && v.Plain?
      modifies this, heap
      ensures Valid() && current == old(current) && heap.live == old(heap.live) && Apart() == old(Apart())
      ensures rc != 0 ==> r == rc && S() == old(S())
      ensures r == -23 && rc == 0 ==> S() == old(S()) && forall i :: 0 <= i < OFT_SIZE ==> oft[i].Some?
      ensures rc == 0 && r < 0 ==> oft == old(oft) && tables == old(tables) && pipes == old(pipes)
      ensures rc == 0 && r < 0 ==>
        r == -23 || (r == -24 && forall k :: 0 <= k < MAX_FDS ==> tables[current][k] >= 0)
      ensures rc == 0 && r >= 0 ==> NewlyOpen(old(S()), S(), current, v, r)
    {
      hide Inv, Gaps, ListAt, LiveHeaders, Ptrs, Elsewhere;
      if rc != 0 {
        return rc;
      }
      PlainOpenable(S(), multiset{}, Ptrs(heap.live), v);
      TableShape(S(), multiset{}, multiset{}, Ptrs(heap.live), current);
      var e := OftAlloc(v, multiset{}, multiset{});
      if e.None? {
        return -ENFILE;
      }
      var idx := e.value;
      assert multiset{} + multiset{idx} == multiset{idx};
      TableShape(S(), multiset{idx}, multiset{}, Ptrs(heap.live), current);
      var fd := FirstFree();
      if fd.None? {
        OftDecref(idx, tables, multiset{idx}, multiset{});
        assert multiset{idx} - multiset{idx} == multiset{};
        OpenThenClose(old(S()), idx, v);
        return -EMFILE;
      }
      HandToSlot(S(), multiset{idx}, multiset{}, Ptrs(heap.live), current, fd.value, idx);
      assert multiset{idx} - multiset{idx} == multiset{};
      tables := tables[current := tables[current][fd.value := idx]];
      PlainApart(heap.live, old(oft), pipes, idx, oft[idx].value);
      return fd.value;
    }

    method SysClose(fd: nat) returns (r: int)
      requires Valid()
      modifies this`oft, this`tables, this`pipes, this`closed, heap
      ensures Valid()
      ensures r == -9 <==> fd >= MAX_FDS || old(tables)[current][fd] < 0
      ensures r == -9 ==> S() == old(S()) && heap.live == old(heap.live)
      ensures r != -9 ==> r == 0 && tables == SetFd(old(tables), current, fd, -1) && Survive(old(oft), oft)
      ensures Apart() == old(Apart())
    {
      hide Inv, Gaps, ListAt, LiveHeaders, Ptrs, Survive, Elsewhere;
      TableShape(S(), multiset{}, multiset{}, Ptrs(heap.live), current);
      if fd >= MAX_FDS || tables[current][fd] < 0 {
        return -EBADF;
      }
      CloseSlot(current, fd);
      return 0;
    }

    /** Make unused slot `fd` of process `p` a second name for entry `idx`. */
    method ShareSlot(p: nat, fd: nat, idx: nat)
      requires Valid() && p in tables && fd < MAX_FDS && |tables[p]| == MAX_FDS && tables[p][fd] == -1
      requires idx < OFT_SIZE && |oft| == OFT_SIZE && oft[idx].Some?
      modifies this`oft, this`tables
      ensures Valid() && tables == SetFd(old(tables), p, fd, idx)
      ensures RefsOnly(old(oft), oft) && Apart() == old(Apart())
    {
      hide Inv, Gaps, ListAt, LiveHeaders, Ptrs, Elsewhere;
      OftIncref(idx, tables);
      HandToSlot(S(), multiset{idx}, multiset{}, Ptrs(heap.live), p, fd, idx);
      assert multiset{idx} - multiset{idx} == multiset{};
      tables := tables[p := tables[p][fd := idx]];
      SameApart(heap.live, old(oft), oft, pipes);
    }

    method SysDup(oldFd: nat) returns (r: int)
      requires Valid()
      modifies this`oft, this`tables
      ensures Valid()
      ensures r < 0 ==> S() == old(S())
      ensures r == -9 <==> oldFd >= MAX_FDS || old(tables)[current][oldFd] < 0
      ensures r < 0 ==> r == -9 || (r == -24 && forall k :: 0 <= k < MAX_FDS ==> tables[current][k] >= 0)
      ensures r >= 0 ==>
        r < MAX_FDS && old(tables)[current][r] < 0 && forall k :: 0 <= k < r ==> old(tables)[current][k] >= 0
      ensures r >= 0 ==> tables == SetFd(old(tables), current, r, old(tables)[current][oldFd])
      ensures RefsOnly(old(oft), oft) && Apart() == old(Apart())
    {
      hide Inv, Gaps, ListAt, LiveHeaders, Ptrs, Elsewhere;
      TableShape(S(), multiset{}, multiset{}, Ptrs(heap.live), current);
      if oldFd >= MAX_FDS || tables[current][oldFd] < 0 {
        return -EBADF;
      }
      SlotNamesOpen(S(), multiset{}, multiset{}, Ptrs(heap.live), current, oldFd);
      var fd := FirstFree();
      if fd.None? {
        return -EMFILE;
      }
      ShareSlot(current, fd.value, tables[current][oldFd]);
      return fd.value;
    }

    method SysDup2(oldFd: nat, newFd: nat) returns (r: int)
      requires Valid()
      modifies this`oft, this`tables, this`pipes, this`closed, heap
      ensures Valid()
      ensures r == -9 <==> oldFd >= MAX_FDS || newFd >= MAX_FDS || old(tables)[current][oldFd] < 0
      ensures r == -9 || oldFd == newFd ==> S() == old(S())
      ensures r != -9 ==> r == newFd && tables == SetFd(old(tables), current, newFd, old(tables)[current][oldFd])
      ensures Survive(old(oft), oft) && Apart() == old(Apart())
    {
      hide Inv, Gaps, ListAt, LiveHeaders, Ptrs, Elsewhere;
      TableShape(S(), multiset{}, multiset{}, Ptrs(heap.live), current);
      if oldFd >= MAX_FDS || newFd >= MAX_FDS || tables[current][oldFd] < 0 {
        return -EBADF;
      }
      SlotNamesOpen(S(), multiset{}, multiset{}, Ptrs(heap.live), current, oldFd);
      var idx := tables[current][oldFd];
      if oldFd == newFd {
        SetSame(tables, current, newFd);
        return newFd;
      }
      if tables[current][newFd] >= 0 {
        CloseSlot(current, newFd);
      }
      TableShape(S(), multiset{}, multiset{}, Ptrs(heap.live), current);
      SlotNamesOpen(S(), multiset{}, multiset{}, Ptrs(heap.live), current, oldFd);
      ShareSlot(current, newFd, idx);
      SetTwice(old(tables), current, newFd, -1, idx);
      return newFd;
    }

    // ----- Pipes ----------------------------------------------------------------------

    /** A block for a pipe, used by nothing yet. */
    method Allocate(size: nat, ghost spare: multiset<nat>) returns (p: nat)
      requires Ok(tables, multiset{}, spare) && 0 < size <= 5000
      modifies heap
      ensures Ok(tables, multiset{}, spare) && heap.lo == old(heap.lo) && heap.hi == old(heap.hi)
      ensures p == 0 ==> heap.live == old(heap.live)
      ensures p != 0 ==> NewBlock(old(heap.live), heap.live, p) && p in Ptrs(heap.live) && Unused(S(), p)
    {
      hide Inv, Gaps, ListAt, LiveHeaders, Ptrs, Needed, RoomFor, FreeRun;
      ghost var heap0 := Ptrs(heap.live);
      p := heap.Kmalloc(size);
      if p != 0 {
        PtrsAdd(old(heap.live), p - HEADER_SIZE, heap.live[p - HEADER_SIZE]);
        FreshUnused(S(), multiset{}, spare, heap0, p);
        HeapChange(S(), multiset{}, spare, heap0, Ptrs(heap.live));
      }
    }

    /** Free a block no pipe uses. */
    method Release(p: nat, ghost hand: multiset<nat>, ghost spare: multiset<nat>)
      requires Ok(tables, hand, spare) && p in Ptrs(heap.live) && Unused(S(), p)
      modifies heap
      ensures Ok(tables, hand, spare) && heap.lo == old(heap.lo) && heap.hi == old(heap.hi)
      ensures p >= HEADER_SIZE && heap.live == old(heap.live) - {p - HEADER_SIZE}
    {
      hide Inv, Gaps, ListAt, LiveHeaders, Ptrs, Unused;
      ghost var heap0 := Ptrs(heap.live);
      InPtrs(heap.live, p);
      FreeBlock(p);
      HeapChange(S(), hand, spare, heap0, Ptrs(heap.live));
    }

    /** Free a pipe buffer none of whose ends is open. */
    method ForgetPipe(b: nat, ghost hand: multiset<nat>, ghost spare: multiset<nat>)
      requires Ok(tables, hand, spare) && b in pipes && pipes[b] == spare[b]
      modifies this`pipes, heap
      ensures Ok(tables, hand, spare[b := 0]) && heap.lo == old(heap.lo) && heap.hi == old(heap.hi)
      ensures pipes == old(pipes) - {b} && b >= HEADER_SIZE && heap.live == old(heap.live) - {b - HEADER_SIZE}
    {
      hide Inv, Gaps, ListAt, LiveHeaders, Ptrs, Unused;
      PipeInHeap(S(), hand, spare, Ptrs(heap.live), b);
      DropPipe(S(), hand, spare, Ptrs(heap.live), b);
      pipes := pipes - {b};
      Release(b, hand, spare[b := 0]);
    }

    /** The buffer and the two end nodes of a new pipe, or nothing with the heap as before. */
    method AllocatePipe() returns (blocks: Option<(nat, nat, nat)>)
      requires Valid()
      modifies this`pipes, heap
      ensures heap.lo == old(heap.lo) && heap.hi == old(heap.hi)
      ensures blocks.None? ==> Valid() && pipes == old(pipes) && heap.live == old(heap.live)
      ensures blocks.Some? ==>
        var (b, r, w) := blocks.value;
        && Ok(tables, multiset{}, multiset{b, b}) && b !in old(pipes) && pipes == old(pipes)[b := 2]
        && NewBlocks(old(heap.live), heap.live, b, r, w) && Unused(S(), r) && Unused(S(), w)
        && r in Ptrs(heap.live) && w in Ptrs(heap.live)
    {
      hide Inv, Gaps, ListAt, LiveHeaders, Ptrs;
      var b := Allocate(PIPE_BUF_BYTES, multiset{});
      if b == 0 {
        return None;
      }
      NewPipe(S(), multiset{}, multiset{}, Ptrs(heap.live), b);
      assert multiset{} + multiset{b, b} == multiset{b, b};
      assert multiset{b, b}[b := 0] == multiset{};
      pipes := pipes[b := 2];
      var r := Allocate(VNODE_BYTES, multiset{b, b});
      if r == 0 {
        ForgetPipe(b, multiset{}, multiset{b, b});
        assert pipes == old(pipes) && heap.live == old(heap.live);
        return None;
      }
      InPtrs(heap.live, r);
      var w := Allocate(VNODE_BYTES, multiset{b, b});
      InPtrs(heap.live, r);
      if w == 0 {
        ForgetPipe(b, multiset{}, multiset{b, b});
        InPtrs(heap.live, r);
        Release(r, multiset{}, multiset{});
        assert pipes == old(pipes) && heap.live == old(heap.live);
        return None;
      }
      return Some((b, r, w));
    }

    /** Free a pipe buffer none of whose ends is open, and a node no pipe uses. */
    method FreeTwo(b: nat, w: nat, ghost spare: multiset<nat>)
      requires Ok(tables, multiset{}, spare) && b in pipes && pipes[b] == spare[b] && spare[b := 0] == multiset{}
      requires w in Ptrs(heap.live) && b != w && Unused(S(), w)
      modifies this`pipes, heap
      ensures Ok(tables, multiset{}, multiset{}) && heap.lo == old(heap.lo) && heap.hi == old(heap.hi)
      ensures pipes == old(pipes) - {b} && b >= HEADER_SIZE && w >= HEADER_SIZE
      ensures heap.live == old(heap.live) - {b - HEADER_SIZE} - {w - HEADER_SIZE}
    {
      hide Inv, Gaps, ListAt, LiveHeaders, Ptrs, Unused;
      InPtrs(heap.live, w);
      FewerPipes(S(), b, w);
      ForgetPipe(b, multiset{}, spare);
      InPtrs(heap.live, w);
      Release(w, multiset{}, multiset{});
    }

    /** Open both ends of a pipe, or give its three blocks back. */
    method OpenEnds(b: nat, r: nat, w: nat) returns (ends: Option<(nat, nat)>)
      requires Ok(tables, multiset{}, multiset{b, b}) && b in pipes && pipes[b] == 2
      requires r in Ptrs(heap.live) && w in Ptrs(heap.live) && r != w && r != b && w != b && Unused(S(), r)
      requires Unused(S(), w)
      modifies this`oft, this`pipes, this`openings, this`closed, heap
      ensures heap.lo == old(heap.lo) && heap.hi == old(heap.hi)
      ensures ends.None? ==>
        && Ok(tables, multiset{}, multiset{}) && oft == old(oft) && pipes == old(pipes) - {b}
        && Gone(old(heap.live), heap.live, b, r, w)
      ensures ends.None? ==> AtMostOneFree(oft)
      ensures ends.Some? ==>
        var (i, j) := ends.value;
        && Ok(tables, multiset{i, j}, multiset{}) && pipes == old(pipes) && heap.live == old(heap.live)
        && EndsOpen(old(S()), S(), b, r, w, i, j)
    {
      hide Inv, Gaps, ListAt, LiveHeaders, Ptrs, Unused, Openable, Gone, EndsOpen, AtMostOneFree, Opening, FirstEnd;
      ghost var s0 := S();
      TablesLength(s0, multiset{}, multiset{b, b}, Ptrs(heap.live));
      EndOpenable(s0, multiset{b, b}, Ptrs(heap.live), r, b);
      var i := OftAlloc(PipeEnd(r, b), multiset{}, multiset{b, b});
      if i.None? {
        AllTaken(oft);
        FreeAll(b, r, w);
        return None;
      }
      var ri := i.value;
      assert multiset{} + multiset{ri} == multiset{ri} && multiset{b, b} - multiset{b} == multiset{b};
      UnusedAfterOpen(s0, ri, r, b, w);
      FirstOpened(s0, ri, r, b);
      var j := OpenSecond(b, r, w, ri);
      if j.None? {
        return None;
      }
      EndsAreOpen(s0, S(), b, r, w, ri, j.value);
      return Some((ri, j.value));
    }

    /** No end could be opened: free the buffer and both nodes. */
    method FreeAll(b: nat, r: nat, w: nat)
      requires Ok(tables, multiset{}, multiset{b, b}) && b in pipes && pipes[b] == 2
      requires r in Ptrs(heap.live) && w in Ptrs(heap.live) && r != w && r != b && w != b && Unused(S(), r)
      requires Unused(S(), w)
      modifies this`pipes, heap
      ensures Ok(tables, multiset{}, multiset{}) && heap.lo == old(heap.lo) && heap.hi == old(heap.hi)
      ensures pipes == old(pipes) - {b} && Gone(old(heap.live), heap.live, b, r, w)
    {
      hide Inv, Gaps, ListAt, LiveHeaders, Ptrs, Unused, Gone;
      InPtrs(heap.live, r);
      FewerPipes(S(), b, r);
      assert multiset{b, b}[b := 0] == multiset{};
      FreeTwo(b, w, multiset{b, b});
      InPtrs(heap.live, r);
      Release(r, multiset{}, multiset{});
      ThreeGone(old(heap.live), b, w, r);
    }

    /** Open the write end; if that fails, close the read end and free the rest. */
    method OpenSecond(b: nat, r: nat, w: nat, i: nat) returns (j: Option<nat>)
      requires Ok(tables, multiset{i}, multiset{b}) && FirstEnd(S(), b, r, i)
      requires w in Ptrs(heap.live) && r != w && r != b && w != b && Unused(S(), w)
      modifies this`oft, this`pipes, this`openings, this`closed, heap
      ensures heap.lo == old(heap.lo) && heap.hi == old(heap.hi)
      ensures j.None? ==>
        && Ok(tables, multiset{}, multiset{}) && oft == old(oft)[i := None] && pipes == old(pipes) - {b}
        && Gone(old(heap.live), heap.live, b, r, w)
      ensures j.None? ==> AtMostOneFree(oft)
      ensures j.Some? ==>
        && Ok(tables, multiset{i, j.value}, multiset{}) && pipes == old(pipes) && heap.live == old(heap.live)
        && j.value < OFT_SIZE == |old(oft)| && old(oft)[j.value].None?
        && oft == old(oft)[j.value := Some(OpenFile(PipeEnd(w, b), 1, old(openings)))]
    {
      hide Inv, Gaps, ListAt, LiveHeaders, Ptrs, Unused, Openable, Gone, AtMostOneFree;
      ghost var s0 := S();
      TablesLength(s0, multiset{i}, multiset{b}, Ptrs(heap.live));
      EndOpenable(s0, multiset{b}, Ptrs(heap.live), w, b);
      j := OftAlloc(PipeEnd(w, b), multiset{i}, multiset{b});
      if j.Some? {
        assert multiset{i} + multiset{j.value} == multiset{i, j.value} && multiset{b} - multiset{b} == multiset{};
        return;
      }
      OneFree(oft, i);
      CloseFirst(b, r, w, i);
    }

    /** The write end could not be opened: close the read end and free the buffer and the other node. */
    method CloseFirst(b: nat, r: nat, w: nat, i: nat)
      requires Ok(tables, multiset{i}, multiset{b}) && FirstEnd(S(), b, r, i)
      requires w in Ptrs(heap.live) && r != w && r != b && w != b && Unused(S(), w)
      modifies this`oft, this`pipes, this`closed, heap
      ensures Ok(tables, multiset{}, multiset{}) && heap.lo == old(heap.lo) && heap.hi == old(heap.hi)
      ensures oft == old(oft)[i := None] && pipes == old(pipes) - {b} && Gone(old(heap.live), heap.live, b, r, w)
    {
      hide Inv, Gaps, ListAt, LiveHeaders, Ptrs, Unused, Dropped, Gone;
      ghost var s0, live0 := S(), heap.live;
      TablesLength(s0, multiset{i}, multiset{b}, Ptrs(heap.live));
      EndKnown(s0, multiset{i}, multiset{b}, Ptrs(heap.live), i);
      InPtrs(heap.live, r);
      InPtrs(heap.live, w);
      OftDecref(i, tables, multiset{i}, multiset{b});
      assert multiset{i} - multiset{i} == multiset{} && multiset{b}[b := 0] == multiset{};
      FirstClosed(s0, live0, S(), heap.live, b, r, i);
      UnusedAfterClose(s0, i, b, w, S());
      InPtrs(heap.live, w);
      FreeTwo(b, w, multiset{b});
      SamePipes(s0.pipes, b);
      ThreeGone(live0, r, b, w);
    }

    /** Close both ends again, which frees all three blocks. */
    method CloseEnds(b: nat, r: nat, w: nat, i: nat, j: nat)
      requires Ok(tables, multiset{i, j}, multiset{}) && BothEnds(S(), b, r, w, i, j)
      modifies this`oft, this`pipes, this`closed, heap
      ensures Ok(tables, multiset{}, multiset{}) && heap.lo == old(heap.lo) && heap.hi == old(heap.hi)
      ensures oft == old(oft)[i := None][j := None] && pipes == old(pipes) - {b}
      ensures Gone(old(heap.live), heap.live, b, r, w)
    {
      hide Inv, Gaps, ListAt, LiveHeaders, Ptrs, Dropped, Gone;
      TablesLength(S(), multiset{i, j}, multiset{}, Ptrs(heap.live));
      EndKnown(S(), multiset{i, j}, multiset{}, Ptrs(heap.live), i);
      EndKnown(S(), multiset{i, j}, multiset{}, Ptrs(heap.live), j);
      InPtrs(heap.live, b);
      InPtrs(heap.live, r);
      InPtrs(heap.live, w);
      OftDecref(i, tables, multiset{i, j}, multiset{});
      assert multiset{i, j} - multiset{i} == multiset{j};
      ghost var s1, live1 := S(), heap.live;
      OftDecref(j, tables, multiset{j}, multiset{});
      assert multiset{j} - multiset{j} == multiset{};
      ClosedBoth(old(S()), old(heap.live), s1, live1, S(), heap.live, b, r, w, i, j);
    }

    /** Put both ends into the two lowest unused descriptors, or close them. */
    method InstallEnds(b: nat, r: nat, w: nat, i: nat, j: nat) returns (fds: Option<(nat, nat)>)
      requires Ok(tables, multiset{i, j}, multiset{}) && current in tables && BothEnds(S(), b, r, w, i, j)
      modifies this`oft, this`tables, this`pipes, this`closed, heap
      ensures Valid() && heap.lo == old(heap.lo) && heap.hi == old(heap.hi)
      ensures fds.None? ==>
        && oft == old(oft)[i := None][j := None] && tables == old(tables) && pipes == old(pipes) - {b}
        && Gone(old(heap.live), heap.live, b, r, w)
      ensures fds.None? ==> AtMostOneUnused(tables[current])
      ensures fds.Some? ==> oft == old(oft) && pipes == old(pipes) && heap.live == old(heap.live)
      ensures fds.Some? ==> Installed(old(tables), tables, current, fds.value.0, fds.value.1, i, j)
    {
      hide Inv, Gaps, ListAt, LiveHeaders, Ptrs, Gone, TwoLowest, AtMostOneUnused;
      TableShape(S(), multiset{i, j}, multiset{}, Ptrs(heap.live), current);
      var f := FirstFree();
      if f.None? {
        NoSlots(tables[current]);
        CloseEnds(b, r, w, i, j);
        return None;
      }
      HandToSlot(S(), multiset{i, j}, multiset{}, Ptrs(heap.live), current, f.value, i);
      assert multiset{i, j} - multiset{i} == multiset{j};
      tables := SetFd(tables, current, f.value, i);
      TableCount(old(tables), current, tables[current]);
      SameCount(old(tables), current, tables[current]);
      TableShape(S(), multiset{j}, multiset{}, Ptrs(heap.live), current);
      var g := FirstFree();
      if g.None? {
        OneSlot(old(tables)[current], tables[current], f.value, i);
        SlotToHand(S(), multiset{j}, multiset{}, Ptrs(heap.live), current, f.value);
        assert multiset{j} + multiset{i} == multiset{i, j};
        SetTwice(old(tables), current, f.value, i, -1);
        SetSame(old(tables), current, f.value);
        tables := SetFd(tables, current, f.value, -1);
        CloseEnds(b, r, w, i, j);
        return None;
      }
      TwoSlots(old(tables)[current], tables[current], f.value, i, g.value);
      HandToSlot(S(), multiset{j}, multiset{}, Ptrs(heap.live), current, g.value, j);
      assert multiset{j} - multiset{j} == multiset{};
      SameCount(tables, current, tables[current][g.value := j]);
      tables := SetFd(tables, current, g.value, j);
      return Some((f.value, g.value));
    }

    /**
      Create a pipe. Every failure leaves the open file table, the descriptors, the pipe buffers and
      the whole heap free list exactly as they were; success adds one buffer with two open ends.
     */
    method SysPipe(pipefd: nat) returns (rc: int, fds: Option<(nat, nat)>)
      requires Valid()
      modifies this`oft, this`tables, this`pipes, this`openings, this`closed, heap
      ensures Valid()
      ensures rc < 0 <==> fds.None?
      ensures rc < 0 ==> oft == old(oft) && tables == old(tables) && pipes == old(pipes)
      ensures rc < 0 ==>
        heap.live == old(heap.live) && heap.free == old(heap.free) && heap.freeList == old(heap.freeList)
      ensures rc < 0 ==> rc in {-22, -12, -23, -24} && (rc == -22 <==> pipefd == 0)
      ensures (rc == -23 ==> AtMostOneFree(oft)) && (rc == -24 ==> AtMostOneUnused(tables[current]))
      ensures rc >= 0 ==> rc == 0 && PipeMade(old(S()), S(), current, fds.value.0, fds.value.1)
      ensures Apart() == old(Apart())
    {
      hide Inv, Gaps, ListAt, LiveHeaders, Ptrs, Unused, NewBlocks, Gone, EndsOpen, BothEnds, PipeMade, AtMostOneFree,
           AtMostOneUnused, Elsewhere;
      if pipefd == 0 {
        return -EINVAL, None;
      }
      ghost var s0, live0 := S(), heap.live;
      var blocks := AllocatePipe();
      if blocks.None? {
        SameHeap(heap.free, old(heap.free), heap.live, heap.lo, heap.hi, heap.hdr, heap.freeList, old(heap.hdr),
                 old(heap.freeList));
        return -ENOMEM, None;
      }
      var (b, r, w) := blocks.value;
      BlocksApart(live0, heap.live, b, r, w);
      ghost var s1, live1 := S(), heap.live;
      assert s1.pipes - {b} == s0.pipes;
      var ends := OpenEnds(b, r, w);
      if ends.None? {
        AllBack(live0, live1, heap.live, b, r, w);
        SameHeap(heap.free, old(heap.free), heap.live, heap.lo, heap.hi, heap.hdr, heap.freeList, old(heap.hdr),
                 old(heap.freeList));
        return -ENFILE, None;
      }
      var (i, j) := ends.value;
      ghost var s2 := S();
      EndsUndone(s1, s2, b, r, w, i, j);
      var slots := InstallEnds(b, r, w, i, j);
      if slots.None? {
        AllBack(live0, live1, heap.live, b, r, w);
        SameHeap(heap.free, old(heap.free), heap.live, heap.lo, heap.hi, heap.hdr, heap.freeList, old(heap.hdr),
                 old(heap.freeList));
        return -EMFILE, None;
      }
      PipeIsMade(s0, s1, s2, S(), current, slots.value.0, slots.value.1, b, r, w, i, j);
      PipeApart(live0, heap.live, s1, s2, s0.pipes, b, r, w, i, j);
      return 0, slots;
    }

    // ----- Processes ----------------------------------------------------------------

    /** Fork: the child gets the parent's descriptors and a reference for each. */
    method ForkFds(child: nat)
      requires Valid() && child !in tables && |tables| < MAX_PROCS
      modifies this`oft, this`tables
      ensures Valid() && tables == old(tables)[child := old(tables)[current]] && RefsOnly(old(oft), oft)
      ensures Apart() == old(Apart())
    {
      hide Inv, Gaps, ListAt, LiveHeaders, Ptrs, Masked, Elsewhere;
      ghost var before := tables;
      var fds := tables[current];
      TableShape(S(), multiset{}, multiset{}, Ptrs(heap.live), current);
      tables := tables[child := fds];
      AllMasked(fds);
      EmptyTable(With(before), multiset{}, multiset{}, Ptrs(heap.live), child, Masked(fds, 0));
      TableCount(before, child, Masked(fds, 0));
      var k := 0;
      while k < MAX_FDS
        invariant 0 <= k <= MAX_FDS && tables == before[child := fds] && RefsOnly(old(oft), oft)
        invariant Ok(before[child := Masked(fds, k)], multiset{}, multiset{})
      {
        ghost var view := before[child := Masked(fds, k)];
        MaskedStep(before, child, fds, k);
        TableShape(With(view), multiset{}, multiset{}, Ptrs(heap.live), child);
        if fds[k] >= 0 {
          SlotNamesOpen(With(view), multiset{}, multiset{}, Ptrs(heap.live), current, k);
          OftIncref(fds[k], view);
          HandToSlot(With(view), multiset{fds[k] as nat}, multiset{}, Ptrs(heap.live), child, k, fds[k]);
          assert multiset{fds[k] as nat} - multiset{fds[k] as nat} == multiset{};
          TableCount(before, child, Masked(fds, k + 1));
        }
        k := k + 1;
      }
      MaskedAll(fds);
      SameApart(heap.live, old(oft), oft, pipes);
    }

    /** Exec: descriptors from 3 up are closed, the rest kept. */
    method ExecFds()
      requires Valid()
      modifies this`oft, this`tables, this`pipes, this`closed, heap
      ensures Valid() && tables.Keys == old(tables).Keys && Survive(old(oft), oft) && Apart() == old(Apart())
      ensures forall p :: p in tables && p != current ==> tables[p] == old(tables)[p]
      ensures |tables[current]| == MAX_FDS == |old(tables)[current]|
      ensures forall k :: 0 <= k < MAX_FDS ==> tables[current][k] == if k < 3 then old(tables)[current][k] else -1
    {
      hide Inv, Gaps, ListAt, LiveHeaders, Ptrs, Elsewhere;
      TableShape(S(), multiset{}, multiset{}, Ptrs(heap.live), current);
      var fd := 3;
      while fd < MAX_FDS
        invariant 3 <= fd <= MAX_FDS && Valid() && tables.Keys == old(tables).Keys && Survive(old(oft), oft)
        invariant Apart() == old(Apart())
        invariant forall p :: p in tables && p != current ==> tables[p] == old(tables)[p]
        invariant |tables[current]| == MAX_FDS
        invariant forall k :: 0 <= k < MAX_FDS ==>
          tables[current][k] == if 3 <= k < fd then -1 else old(tables)[current][k]
      {
        TableShape(S(), multiset{}, multiset{}, Ptrs(heap.live), current);
        if tables[current][fd] >= 0 {
          CloseSlot(current, fd);
        }
        fd := fd + 1;
      }
    }

    /** Reaping: the process leaves the table, then each of its descriptors is closed. */
    method ReapFds(pid: nat)
      requires Valid() && pid in tables && pid != current
      modifies this`oft, this`tables, this`pipes, this`closed, heap
      ensures Valid() && tables == old(tables) - {pid} && Survive(old(oft), oft) && Apart() == old(Apart())
    {
      hide Inv, Gaps, ListAt, LiveHeaders, Ptrs, Dropped, Elsewhere;
      ghost var view := tables;
      TableShape(S(), multiset{}, multiset{}, Ptrs(heap.live), pid);
      var fds := tables[pid];
      tables := tables - {pid};
      var fd := 0;
      while fd < MAX_FDS
        invariant 0 <= fd <= MAX_FDS && tables == old(tables) - {pid} && |fds| == MAX_FDS
        invariant Survive(old(oft), oft) && Apart() == old(Apart())
        invariant view == old(tables)[pid := fds] && |view| <= MAX_PROCS && Ok(view, multiset{}, multiset{})
        invariant forall k :: 0 <= k < fd ==> fds[k] == -1
      {
        TableShape(With(view), multiset{}, multiset{}, Ptrs(heap.live), pid);
        var idx := fds[fd];
        if idx >= 0 {
          SlotToHand(With(view), multiset{}, multiset{}, Ptrs(heap.live), pid, fd);
          assert multiset{} + multiset{idx as nat} == multiset{idx as nat};
          fds := fds[fd := -1];
          view := view[pid := fds];
          ghost var s0, live0 := With(view), heap.live;
          OftDecref(idx, view, multiset{idx as nat}, multiset{});
          DropApart(s0, multiset{idx as nat}, multiset{}, live0, With(view), heap.live, idx);
          assert multiset{idx as nat} - multiset{idx as nat} == multiset{};
        }
        fd := fd + 1;
      }
      DropTable(With(view), multiset{}, multiset{}, Ptrs(heap.live), pid);
      assert view - {pid} == tables;
      TableDropped(view, pid);
    }
  }

  ghost predicate AtMostOneFree(oft: Oft) {
    forall i, j :: 0 <= i < j < |oft| ==> oft[i].Some? || oft[j].Some?
  }

  /** `f` and `g` are the two lowest unused descriptors. */
  ghost predicate TwoLowest(fds: seq<int>, f: nat, g: nat) {
    f < g < |fds| && fds[f] == fds[g] == -1 && forall k :: 0 <= k < g && k != f ==> fds[k] >= 0
  }

  /** The two lowest unused descriptors of `p` now name entries `i` and `j`. */
  ghost predicate Installed(tables: FdTables, tables': FdTables, p: nat, f: nat, g: nat, i: nat, j: nat) {
    && p in tables && |tables[p]| == MAX_FDS && f < g < MAX_FDS && TwoLowest(tables[p], f, g)
    && tables' == SetFd(SetFd(tables, p, f, i), p, g, j)
  }

  /** Two searches, the second with the first slot found in use, find the two lowest. */
  lemma TwoSlots(fds: seq<int>, fds': seq<int>, f: nat, i: nat, g: nat)
    requires f < |fds| && fds[f] == -1 && forall k :: 0 <= k < f ==> fds[k] >= 0
    requires fds' == fds[f := i] && g < |fds'| && fds'[g] == -1 && forall k :: 0 <= k < g ==> fds'[k] >= 0
    ensures TwoLowest(fds, f, g)
  {
    forall k | 0 <= k < g && k != f ensures fds[k] >= 0 {
      assert fds'[k] >= 0;
    }
  }

  lemma OneSlot(fds: seq<int>, fds': seq<int>, f: nat, i: nat)
    requires f < |fds| && fds' == fds[f := i] && forall k :: 0 <= k < |fds'| ==> fds'[k] >= 0
    ensures AtMostOneUnused(fds)
  {
    forall k | 0 <= k < |fds| && k != f ensures fds[k] >= 0 {
      assert fds'[k] >= 0;
    }
  }

  lemma NoSlots(fds: seq<int>)
    requires forall k :: 0 <= k < |fds| ==> fds[k] >= 0
    ensures AtMostOneUnused(fds)
  {
  }

  lemma OneFree(oft: Oft, i: nat)
    requires i < |oft| && forall k :: 0 <= k < |oft| ==> oft[k].Some?
    ensures AtMostOneFree(oft[i := None])
  {
  }

  ghost predicate AtMostOneUnused(fds: seq<int>) {
    forall i, j :: 0 <= i < j < |fds| ==> fds[i] >= 0 || fds[j] >= 0
  }

  /** The same pipe blocks, so the same others. */
  lemma SameBlocks(live: map<nat, nat>, oft: Oft, oft': Oft, pipes: map<nat, nat>, pipes': map<nat, nat>)
    requires pipes'.Keys == pipes.Keys && forall i: nat, p: nat :: NodeAt(oft', i, p) == NodeAt(oft, i, p)
    ensures Elsewhere(live, oft', pipes') == Elsewhere(live, oft, pipes)
  {
    hide NodeAt;
    forall p: nat ensures OfPipe(oft', pipes', p) == OfPipe(oft, pipes, p) {
      if i :| NodeAt(oft, i, p) {
        assert NodeAt(oft', i, p);
      }
      if i :| NodeAt(oft', i, p) {
        assert NodeAt(oft, i, p);
      }
    }
  }

  lemma PlainApart(live: map<nat, nat>, oft: Oft, pipes: map<nat, nat>, idx: nat, e: OpenFile)
    requires idx < |oft| && oft[idx].None? && e.vnode.Plain?
    ensures Elsewhere(live, oft[idx := Some(e)], pipes) == Elsewhere(live, oft, pipes)
  {
    SameBlocks(live, oft, oft[idx := Some(e)], pipes, pipes);
  }

  lemma SameApart(live: map<nat, nat>, oft: Oft, oft': Oft, pipes: map<nat, nat>)
    requires RefsOnly(oft, oft')
    ensures Elsewhere(live, oft', pipes) == Elsewhere(live, oft, pipes)
  {
    SameBlocks(live, oft, oft', pipes, pipes);
  }

  /** Giving up a reference takes nothing from the heap but what belongs to pipes. */
  lemma DropApart(s: State, hand: multiset<nat>, spare: multiset<nat>, live: map<nat, nat>, s': State, live': map<nat,
                  nat>, idx: nat)
    requires Inv(s, hand, spare, Ptrs(live)) && Dropped(s, live, s', live', idx)
    ensures Survive(s.oft, s'.oft) && Elsewhere(live', s'.oft, s'.pipes) == Elsewhere(live, s.oft, s.pipes)
  {
    hide Inv, Ptrs, Elsewhere;
    var e := s.oft[idx].value;
    TablesLength(s, hand, spare, Ptrs(live));
    if e.refcount > 1 || e.vnode.Plain? {
      assert live' == live;
      SameBlocks(live, s.oft, s'.oft, s.pipes, s'.pipes);
    } else {
      ClosedApart(s, hand, spare, live, s', live', idx);
    }
  }

  /** Closing a pipe end gives back its node, and the buffer with the last end. */
  lemma ClosedApart(s: State, hand: multiset<nat>, spare: multiset<nat>, live: map<nat, nat>, s': State, live': map<nat,
                    nat>, idx: nat)
    requires Inv(s, hand, spare, Ptrs(live)) && idx < |s.oft| && s.oft[idx].Some? && s.oft[idx].value.vnode.PipeEnd?
    requires s.oft[idx].value.vnode.buf in s.pipes && s.pipes[s.oft[idx].value.vnode.buf] > 0 && s' == Closing(s, idx)
    requires live' == live - FreedKeys(s.oft[idx].value.vnode, s.pipes)
    ensures Elsewhere(live', s'.oft, s'.pipes) == Elsewhere(live, s.oft, s.pipes)
  {
    hide Ptrs, OfPipe, Inv;
    forall a | a in live
      ensures a in live' && !OfPipe(s'.oft, s'.pipes, a + HEADER_SIZE) <==> !OfPipe(s.oft, s.pipes, a + HEADER_SIZE)
    {
      ClosedBlock(s, hand, spare, Ptrs(live), s', idx, a + HEADER_SIZE);
    }
  }

  lemma ClosedBlock(s: State, hand: multiset<nat>, spare: multiset<nat>, heap: set<nat>, s': State, idx: nat, p: nat)
    requires Inv(s, hand, spare, heap) && idx < |s.oft| && s.oft[idx].Some? && s.oft[idx].value.vnode.PipeEnd?
    requires s.oft[idx].value.vnode.buf in s.pipes && s.pipes[s.oft[idx].value.vnode.buf] > 0 && s' == Closing(s, idx)
    ensures OfPipe(s.oft, s.pipes, p) <==> OfPipe(s'.oft, s'.pipes, p) || p in Freed(s.oft[idx].value.vnode, s.pipes)
    ensures p in Freed(s.oft[idx].value.vnode, s.pipes) ==> !OfPipe(s'.oft, s'.pipes, p)
  {
    hide CountOk, ClosedOk, TablesOk, PipesOk;
    assert NodeAt(s.oft, idx, s.oft[idx].value.vnode.addr);
    if i :| NodeAt(s'.oft, i, p) {
      assert NodeAt(s.oft, i, p);
    }
    if i :| NodeAt(s.oft, i, p) && i != idx {
      assert NodeAt(s'.oft, i, p);
    }
  }

  /** All that a new pipe takes from the heap belongs to it. */
  lemma PipeApart(live: map<nat, nat>, live': map<nat, nat>, s: State, s': State, pipes: map<nat, nat>, b: nat, r: nat,
                  w: nat, i: nat, j: nat)
    requires NewBlocks(live, live', b, r, w) && EndsOpen(s, s', b, r, w, i, j) && s'.pipes == pipes[b := 2]
    ensures Elsewhere(live', s'.oft, s'.pipes) == Elsewhere(live, s.oft, pipes)
  {
    hide OfPipe, EndsOpen;
    forall a | a in live'
      ensures OfPipe(s'.oft, s'.pipes, a + HEADER_SIZE) <==>
        OfPipe(s.oft, pipes, a + HEADER_SIZE) || a + HEADER_SIZE in {b, r, w}
    {
      MadeBlock(s, s', pipes, b, r, w, i, j, a + HEADER_SIZE);
    }
  }

  lemma MadeBlock(s: State, s': State, pipes: map<nat, nat>, b: nat, r: nat, w: nat, i: nat, j: nat, p: nat)
    requires EndsOpen(s, s', b, r, w, i, j) && s'.pipes == pipes[b := 2]
    ensures OfPipe(s'.oft, s'.pipes, p) <==> OfPipe(s.oft, pipes, p) || p in {b, r, w}
  {
    assert NodeAt(s'.oft, i, r) && NodeAt(s'.oft, j, w);
    if k :| NodeAt(s'.oft, k, p) && k != i && k != j {
      assert NodeAt(s.oft, k, p);
    }
    if k :| NodeAt(s.oft, k, p) {
      assert NodeAt(s'.oft, k, p);
    }
  }

  /** With no pipe left, nothing of the heap belongs to pipes. */
  lemma NoPipes(s: State, hand: multiset<nat>, spare: multiset<nat>, heap: set<nat>, live: map<nat, nat>)
    requires Inv(s, hand, spare, heap) && s.pipes == map[]
    ensures Elsewhere(live, s.oft, s.pipes) == live
  {
    hide CountOk, ClosedOk, TablesOk, AddrsOk;
    forall p: nat ensures !OfPipe(s.oft, s.pipes, p) {
    }
  }

  /** One more block than before. */
  ghost predicate NewBlock(live: map<nat, nat>, live': map<nat, nat>, p: nat) {
    && p >= HEADER_SIZE && p - HEADER_SIZE !in live && p - HEADER_SIZE in live'
    && live' == live[p - HEADER_SIZE := live'[p - HEADER_SIZE]]
  }

  /** Three more blocks than before: `b`, `r` and `w`. */
  ghost predicate NewBlocks(live: map<nat, nat>, live': map<nat, nat>, b: nat, r: nat, w: nat) {
    && b >= HEADER_SIZE && r >= HEADER_SIZE && w >= HEADER_SIZE && b != r && r != w && b != w
    && live'.Keys == live.Keys + {b - HEADER_SIZE, r - HEADER_SIZE, w - HEADER_SIZE}
    && live.Keys !! {b - HEADER_SIZE, r - HEADER_SIZE, w - HEADER_SIZE}
    && forall a :: a in live ==> live'[a] == live[a]
  }

  /** The three blocks are gone and nothing else. */
  ghost predicate Gone(live: map<nat, nat>, live': map<nat, nat>, b: nat, r: nat, w: nat) {
    && b >= HEADER_SIZE && r >= HEADER_SIZE && w >= HEADER_SIZE
    && live' == live - {b - HEADER_SIZE, r - HEADER_SIZE, w - HEADER_SIZE}
  }

  /** Freeing three blocks one by one, in any order. */
  lemma ThreeGone(live: map<nat, nat>, x: nat, y: nat, z: nat)
    requires x >= HEADER_SIZE && y >= HEADER_SIZE && z >= HEADER_SIZE
    ensures var live' := live - {x - HEADER_SIZE} - {y - HEADER_SIZE} - {z - HEADER_SIZE};
      && Gone(live, live', x, y, z) && Gone(live, live', x, z, y) && Gone(live, live', y, x, z)
      && Gone(live, live', y, z, x)
  {
    assert live - {x - HEADER_SIZE} - {y - HEADER_SIZE} - {z - HEADER_SIZE} ==
      live - {x - HEADER_SIZE, y - HEADER_SIZE, z - HEADER_SIZE};
    assert {x - HEADER_SIZE, z - HEADER_SIZE, y - HEADER_SIZE} == {x - HEADER_SIZE, y - HEADER_SIZE, z - HEADER_SIZE};
    assert {y - HEADER_SIZE, x - HEADER_SIZE, z - HEADER_SIZE} == {x - HEADER_SIZE, y - HEADER_SIZE, z - HEADER_SIZE};
    assert {y - HEADER_SIZE, z - HEADER_SIZE, x - HEADER_SIZE} == {x - HEADER_SIZE, y - HEADER_SIZE, z - HEADER_SIZE};
  }

  lemma SamePipes(pipes: map<nat, nat>, b: nat)
    ensures pipes[b := 1] - {b} == pipes - {b}
  {
  }

  lemma BlocksApart(live: map<nat, nat>, live': map<nat, nat>, b: nat, r: nat, w: nat)
    requires NewBlocks(live, live', b, r, w)
    ensures b != r && r != w && b != w
  {
  }

  lemma AllBack(live: map<nat, nat>, live1: map<nat, nat>, live2: map<nat, nat>, b: nat, r: nat, w: nat)
    requires NewBlocks(live, live1, b, r, w) && Gone(live1, live2, b, r, w)
    ensures live2 == live
  {
    assert live2.Keys == live.Keys;
  }

  /** The free list is a function of the live blocks. */
  lemma SameHeap(f: seq<Block>, g: seq<Block>, live: map<nat, nat>, lo: nat, hi: nat, hdr: map<nat, Header>, head: nat,
                 hdr': map<nat, Header>, head': nat)
    requires Gaps(f, live, lo, hi) && Gaps(g, live, lo, hi) && ListAt(hdr, head, f) && ListAt(hdr', head', g)
    ensures f == g && head == head'
  {
    GapsUnique(f, g, live, lo, hi);
  }

  /** Entries `i` and `j` are the two ends of the pipe with buffer `b`, with one reference each. */
  ghost predicate BothEnds(s: State, b: nat, r: nat, w: nat, i: nat, j: nat) {
    && i < |s.oft| && j < |s.oft| && i != j && r != w && r != b && w != b
    && s.oft[i].Some? && s.oft[i].value.vnode == PipeEnd(r, b) && s.oft[i].value.refcount == 1
    && s.oft[j].Some? && s.oft[j].value.vnode == PipeEnd(w, b) && s.oft[j].value.refcount == 1
    && b in s.pipes && s.pipes[b] == 2
  }

  /** From `s` to `s'` two free entries became the ends of the pipe. */
  ghost predicate EndsOpen(s: State, s': State, b: nat, r: nat, w: nat, i: nat, j: nat) {
    && BothEnds(s', b, r, w, i, j) && |s.oft| == |s'.oft| == OFT_SIZE && s.oft[i].None? && s.oft[j].None?
    && s'.oft == s.oft[i := s'.oft[i]][j := s'.oft[j]]
  }

  /** Opening the two ends one after the other. */
  lemma EndsAreOpen(s: State, s': State, b: nat, r: nat, w: nat, i: nat, j: nat)
    requires |s.oft| == OFT_SIZE && i < OFT_SIZE && j < OFT_SIZE && s.oft[i].None? && r != w && r != b && w != b
    requires Opening(s, i, PipeEnd(r, b)).oft[j].None? && b in s.pipes && s.pipes[b] == 2 && s'.pipes == s.pipes
    requires s'.oft == Opening(s, i, PipeEnd(r, b)).oft[j := Some(OpenFile(PipeEnd(w, b), 1, s.openings + 1))]
    ensures EndsOpen(s, s', b, r, w, i, j)
  {
  }

  lemma FirstOpened(s: State, i: nat, r: nat, b: nat)
    requires i < |s.oft| && s.oft[i].None? && b in s.pipes && s.pipes[b] == 2
    ensures var s' := Opening(s, i, PipeEnd(r, b));
      && FirstEnd(s', b, r, i) && s'.oft[i := None] == s.oft && s'.pipes == s.pipes && s'.openings == s.openings + 1
      && |s'.oft| == |s.oft|
  {
  }

  lemma AllTaken(oft: Oft)
    requires forall k :: 0 <= k < |oft| ==> oft[k].Some?
    ensures AtMostOneFree(oft)
  {
  }

  /** A new pipe: descriptor `f` reads and `g` writes a buffer that did not exist before. */
  ghost predicate PipeMade(s: State, s': State, p: nat, f: nat, g: nat) {
    && p in s.tables && |s.tables[p]| == MAX_FDS && TwoLowest(s.tables[p], f, g)
    && p in s'.tables && |s'.tables[p]| == MAX_FDS && 0 <= s'.tables[p][f] && 0 <= s'.tables[p][g]
    && (var i, j := s'.tables[p][f], s'.tables[p][g];
        && i < |s.oft| && j < |s.oft| && |s'.oft| == |s.oft| && s.oft[i].None? && s.oft[j].None?
        && s'.tables == SetFd(SetFd(s.tables, p, f, i), p, g, j)
        && s'.oft[i].Some? && s'.oft[j].Some? && s'.oft[i].value.vnode.PipeEnd?
        && (var b := s'.oft[i].value.vnode.buf;
            && b !in s.pipes && s'.pipes == s.pipes[b := 2]
            && BothEnds(s', b, s'.oft[i].value.vnode.addr,
                        if s'.oft[j].value.vnode.PipeEnd? then s'.oft[j].value.vnode.addr else 0, i, j)
            && s'.oft == s.oft[i := s'.oft[i]][j := s'.oft[j]]))
  }

  lemma FewerPipes(s: State, b: nat, a: nat)
    requires Unused(s, a)
    ensures Unused(s.(pipes := s.pipes - {b}), a)
  {
  }

  lemma EndOpenable(s: State, spare: multiset<nat>, heap: set<nat>, a: nat, b: nat)
    requires Unused(s, a) && a in heap && b in spare
    ensures Openable(s, spare, heap, PipeEnd(a, b))
  {
  }

  lemma UnusedAfterOpen(s: State, i: nat, r: nat, b: nat, a: nat)
    requires Unused(s, a) && a != r && i < |s.oft|
    ensures Unused(Opening(s, i, PipeEnd(r, b)), a)
  {
  }

  lemma EndsUndone(s: State, s': State, b: nat, r: nat, w: nat, i: nat, j: nat)
    requires EndsOpen(s, s', b, r, w, i, j)
    ensures BothEnds(s', b, r, w, i, j) && i < |s'.oft| && j < |s'.oft| && s'.oft[i := None][j := None] == s.oft
  {
  }

  lemma PipeIsMade(s0: State, s1: State, s2: State, s3: State, p: nat, f: nat, g: nat, b: nat, r: nat, w: nat, i: nat,
                   j: nat)
    requires s1.oft == s0.oft && s1.tables == s0.tables && b !in s0.pipes && s1.pipes == s0.pipes[b := 2]
    requires EndsOpen(s1, s2, b, r, w, i, j) && s2.tables == s1.tables && s2.pipes == s1.pipes
    requires s3.oft == s2.oft && s3.pipes == s2.pipes && Installed(s0.tables, s3.tables, p, f, g, i, j)
    ensures PipeMade(s0, s3, p, f, g)
  {
    assert s3.tables[p] == s0.tables[p][f := i][g := j];
    assert s3.tables[p][f] == i && s3.tables[p][g] == j;
  }

  lemma PipeKnown(s: State, hand: multiset<nat>, spare: multiset<nat>, heap: set<nat>, idx: nat)
    requires Inv(s, hand, spare, heap) && idx < OFT_SIZE && s.oft[idx].Some?
    ensures s.oft[idx].value.vnode.PipeEnd? ==>
      s.oft[idx].value.vnode.buf in s.pipes && s.pipes[s.oft[idx].value.vnode.buf] > 0
  {
    EndKnown(s, hand, spare, heap, idx);
  }

  /** Entry `i` is the read end of a pipe whose write end is not open yet. */
  ghost predicate FirstEnd(s: State, b: nat, r: nat, i: nat) {
    && i < |s.oft| && s.oft[i].Some? && s.oft[i].value.vnode == PipeEnd(r, b) && s.oft[i].value.refcount == 1
    && b in s.pipes && s.pipes[b] == 2
  }

  lemma FirstClosed(s: State, live: map<nat, nat>, s': State, live': map<nat, nat>, b: nat, r: nat, i: nat)
    requires FirstEnd(s, b, r, i) && Dropped(s, live, s', live', i) && r >= HEADER_SIZE
    ensures s'.oft == s.oft[i := None] && s'.tables == s.tables && s'.pipes == s.pipes[b := 1]
    ensures live' == live - {r - HEADER_SIZE}
  {
  }

  lemma UnusedAfterClose(s: State, i: nat, b: nat, a: nat, s': State)
    requires Unused(s, a) && i < |s.oft| && s'.oft == s.oft[i := None] && b in s.pipes && s'.pipes == s.pipes[b := 1]
    ensures Unused(s', a)
  {
  }

  /** Closing both ends of a pipe. */
  lemma ClosedBoth(s: State, live: map<nat, nat>, s1: State, live1: map<nat, nat>, s2: State, live2: map<nat, nat>,
                   b: nat, r: nat, w: nat, i: nat, j: nat)
    requires BothEnds(s, b, r, w, i, j) && b >= HEADER_SIZE && r >= HEADER_SIZE && w >= HEADER_SIZE
    requires Dropped(s, live, s1, live1, i) && Dropped(s1, live1, s2, live2, j)
    ensures s2.oft == s.oft[i := None][j := None] && s2.tables == s.tables && s2.pipes == s.pipes - {b}
    ensures Gone(live, live2, b, r, w)
  {
    assert s1.pipes == s.pipes[b := 1];
    assert s2.pipes == s.pipes[b := 1] - {b};
    assert live2 == live - {r - HEADER_SIZE} - {w - HEADER_SIZE, b - HEADER_SIZE};
  }

  lemma PipeInHeap(s: State, hand: multiset<nat>, spare: multiset<nat>, heap: set<nat>, b: nat)
    requires Inv(s, hand, spare, heap) && b in s.pipes
    ensures b in heap
  {
  }

  lemma TablesLength(s: State, hand: multiset<nat>, spare: multiset<nat>, heap: set<nat>)
    requires Inv(s, hand, spare, heap)
    ensures |s.oft| == OFT_SIZE
  {
  }

  lemma SameCount(tables: FdTables, p: nat, fds: seq<int>)
    requires p in tables
    ensures |tables[p := fds]| == |tables|
  {
    assert tables[p := fds].Keys == tables.Keys;
  }

  lemma AllMasked(fds: seq<int>)
    ensures forall k :: 0 <= k < |fds| ==> Masked(fds, 0)[k] == -1
  {
  }

  lemma MaskedAll(fds: seq<int>)
    ensures Masked(fds, |fds|) == fds
  {
  }

  lemma MaskedStep(before: FdTables, child: nat, fds: seq<int>, k: nat)
    requires k < |fds|
    ensures Masked(fds, k)[k] == -1 && Masked(fds, k)[k := fds[k]] == Masked(fds, k + 1)
    ensures SetFd(before[child := Masked(fds, k)], child, k, fds[k]) == before[child := Masked(fds, k + 1)]
    ensures fds[k] == -1 ==> Masked(fds, k + 1) == Masked(fds, k)
  {
    assert Masked(fds, k)[k := fds[k]] == Masked(fds, k + 1);
  }

  lemma TableCount(tables: FdTables, p: nat, fds: seq<int>)
    ensures |tables[p := fds]| <= |tables| + 1
  {
    assert tables[p := fds].Keys == tables.Keys + {p};
    assert |tables.Keys + {p}| <= |tables.Keys| + 1;
  }

  lemma TableDropped(tables: FdTables, p: nat)
    ensures |tables - {p}| <= |tables|
  {
    assert (tables - {p}).Keys == tables.Keys - {p};
    SubsetSize(tables.Keys - {p}, tables.Keys);
  }

  /** A free entry now holds `v` with one reference, from descriptor `fd`; nothing else changed. */
  ghost predicate NewlyOpen(s: State, s': State, p: nat, v: Vnode, fd: int) {
    && 0 <= fd < MAX_FDS && p in s.tables && |s.tables[p]| == MAX_FDS
    && (forall k :: 0 <= k < fd ==> s.tables[p][k] >= 0) && s.tables[p][fd] < 0
    && p in s'.tables && fd < |s'.tables[p]| && 0 <= s'.tables[p][fd] < |s.oft|
    && s.oft[s'.tables[p][fd]].None?
    && s'.tables == SetFd(s.tables, p, fd, s'.tables[p][fd])
    && s'.oft == s.oft[s'.tables[p][fd] := Some(OpenFile(v, 1, s.openings))] && s'.pipes == s.pipes
  }

  lemma OpenThenClose(s: State, idx: nat, v: Vnode)
    requires idx < |s.oft| && s.oft[idx].None? && v.Plain?
    ensures var s' := Decref(Opening(s, idx, v), idx); s'.oft == s.oft && s'.tables == s.tables && s'.pipes == s.pipes
  {
    assert s.oft[idx := Some(OpenFile(v, 1, s.openings))][idx := None] == s.oft;
  }

  lemma PlainOpenable(s: State, spare: multiset<nat>, heap: set<nat>, v: Vnode)
    requires v.Plain?
    ensures Openable(s, spare, heap, v) && SpareAfter(spare, v) == spare
  {
  }

  lemma TableShape(s: State, hand: multiset<nat>, spare: multiset<nat>, heap: set<nat>, p: nat)
    requires Inv(s, hand, spare, heap) && p in s.tables
    ensures |s.oft| == OFT_SIZE && |s.tables[p]| == MAX_FDS
    ensures forall k :: 0 <= k < MAX_FDS ==> -1 <= s.tables[p][k] < OFT_SIZE
  {
  }

  /** A reference in hand names an open entry. */
  lemma HandNamesOpen(s: State, hand: multiset<nat>, spare: multiset<nat>, heap: set<nat>, idx: nat)
    requires Inv(s, hand, spare, heap) && idx in hand
    ensures idx < OFT_SIZE == |s.oft| && s.oft[idx].Some? && s.oft[idx].value.refcount > 0
  {
    assert CountOk(s.oft, s.tables, hand, idx);
  }

  lemma CountSmall(s: State, hand: multiset<nat>, spare: multiset<nat>, heap: set<nat>, idx: nat)
    requires Inv(s, hand, spare, heap) && idx < OFT_SIZE && s.oft[idx].Some? && |s.tables| <= MAX_PROCS && |hand| < 2
    ensures s.oft[idx].value.refcount + 1 < U32
  {
    assert CountOk(s.oft, s.tables, hand, idx);
    RefsBounded(s.tables, idx);
    assert hand[idx] <= |hand| by {
      var one := multiset{}[idx := hand[idx]];
      assert hand == one + (hand - one);
    }
  }

  lemma InitialInv(s: State, live: map<nat, nat>, terminal: nat)
    requires s.oft == [Some(OpenFile(Plain(terminal), 3, 0))] + seq(OFT_SIZE - 1, _ => None)
    requires s.tables == map[1 := [0, 0, 0] + seq(MAX_FDS - 3, _ => -1), 2 := seq(MAX_FDS, _ => -1)]
    requires s.pipes == map[] && s.openings == 1 && s.closed == []
    ensures Inv(s, multiset{}, multiset{}, Ptrs(live)) && |s.tables| <= MAX_PROCS
  {
    hide Refs, ClosedOk, Ptrs;
    forall idx | 0 <= idx < OFT_SIZE ensures CountOk(s.oft, s.tables, multiset{}, idx) {
      InitialRefs(s.tables, idx);
    }
    InitialClosed(s.oft, terminal);
    assert s.tables.Keys == {1, 2};
  }

  lemma InitialRefs(tables: FdTables, idx: nat)
    requires tables == map[1 := [0, 0, 0] + seq(MAX_FDS - 3, _ => -1), 2 := seq(MAX_FDS, _ => -1)]
    ensures Refs(tables, idx) == if idx == 0 then {(1, 0), (1, 1), (1, 2)} else {}
  {
    assert forall fd :: 0 <= fd < MAX_FDS ==> tables[1][fd] == (if fd < 3 then 0 else -1) && tables[2][fd] == -1;
  }

  lemma InitialClosed(oft: Oft, terminal: nat)
    requires oft == [Some(OpenFile(Plain(terminal), 3, 0))] + seq(OFT_SIZE - 1, _ => None)
    ensures ClosedOk(oft, 1, [])
  {
    assert oft[0].Some? && oft[0].value.serial == 0;
    assert IsOpen(oft, 0);
  }

  // ----- Any sequence of operations ---------------------------------------------------

  /** The operations on descriptors, and a switch to another process. */
  datatype Op = Open(v: Vnode, rc: int) | Close(fd: nat) | Dup(fd: nat) | Dup2(fd: nat, to: nat) | Pipe(at: nat)
    | Fork(child: nat) | Exec | Reap(pid: nat) | Switch(pid: nat)

  /** Any run: operations whose precondition the rest of the kernel sees to are skipped when it fails. */
  method Run(fs: FileSystem, ops: seq<Op>)
    requires fs.Valid()
    modifies fs, fs.heap
    ensures fs.Valid() && fs.Apart() == old(fs.Apart())
    ensures old(fs.pipes) == fs.pipes == map[] ==>
      && fs.heap.live == old(fs.heap.live) && fs.heap.free == old(fs.heap.free)
      && fs.heap.freeList == old(fs.heap.freeList)
  {
    hide Inv, Gaps, ListAt, LiveHeaders, Ptrs, Elsewhere;
    ghost var s0, live0, gaps0, hdr0, list0 := fs.S(), fs.heap.live, fs.heap.free, fs.heap.hdr, fs.heap.freeList;
    var i := 0;
    while i < |ops|
      invariant 0 <= i <= |ops| && fs.Valid() && fs.Apart() == old(fs.Apart())
    {
      match ops[i] {
        case Open(v, rc) =>
          if v.Plain? {
            var r := fs.SysOpen(v, rc);
          }
        case Close(fd) =>
          var r := fs.SysClose(fd);
        case Dup(fd) =>
          var r := fs.SysDup(fd);
        case Dup2(fd, to) =>
          var r := fs.SysDup2(fd, to);
        case Pipe(at) =>
          var r, fds := fs.SysPipe(at);
        case Fork(child) =>
          if child !in fs.tables && |fs.tables| < MAX_PROCS {
            fs.ForkFds(child);
          }
        case Exec =>
          fs.ExecFds();
        case Reap(pid) =>
          if pid in fs.tables && pid != fs.current {
            fs.ReapFds(pid);
          }
        case Switch(pid) =>
          if pid in fs.tables {
            fs.current := pid;
          }
      }
      i := i + 1;
    }
    if s0.pipes == fs.pipes == map[] {
      NoPipes(s0, multiset{}, multiset{}, Ptrs(live0), live0);
      NoPipes(fs.S(), multiset{}, multiset{}, Ptrs(fs.heap.live), fs.heap.live);
      SameHeap(fs.heap.free, gaps0, live0, fs.heap.lo, fs.heap.hi, fs.heap.hdr, fs.heap.freeList, hdr0, list0);
    }
  }

  /**
    After any run: an open entry's count is the number of descriptors, over all processes, that name it; a
    free entry is named by none; and an opening's close operation has run once if no entry holds it, else not at all.
   */
  lemma CountsExact(fs: FileSystem, idx: nat, n: nat)
    requires fs.Valid() && idx < OFT_SIZE && n < fs.openings
    ensures |fs.oft| == OFT_SIZE
    ensures fs.oft[idx].Some? ==> fs.oft[idx].value.refcount == |Refs(fs.tables, idx)| > 0
    ensures fs.oft[idx].None? ==> Refs(fs.tables, idx) == {}
    ensures multiset(fs.closed)[n] == if IsOpen(fs.oft, n) then 0 else 1
  {
    assert CountOk(fs.oft, fs.tables, multiset{}, idx);
    Once(fs.closed, n);
  }

  lemma {:induction false} Once(s: seq<nat>, n: nat)
    requires forall i, j :: 0 <= i < j < |s| ==> s[i] != s[j]
    ensures multiset(s)[n] == if n in s then 1 else 0
  {
    if s != [] {
      Once(s[1..], n);
      assert s == [s[0]] + s[1..];
    }
  }
}
