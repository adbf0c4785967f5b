/**
  Reference counts of the open file table (open_file.rs) against the descriptor tables of
  all processes (vfs/mod.rs, process.rs) and the shared buffers of pipes (pipe.rs), as values.
 */
module FileTables {
  import opened Prelude

  const MAX_FDS: nat := 16
  const OFT_SIZE: nat := 64
  const MAX_PROCS: nat := 64

  /** A device or file node, or one end of a pipe: a node and a shared buffer on the kernel heap. */
  datatype Vnode = Plain(id: nat) | PipeEnd(addr: nat, buf: nat)

  /** An open file description; `serial` numbers the openings in the order they were made. */
  datatype OpenFile = OpenFile(vnode: Vnode, refcount: nat, serial: nat)

  type Oft = seq<Option<OpenFile>>

  /** Descriptor tables by process, zombies included; -1 marks an unused slot. */
  type FdTables = map<nat, seq<int>>

  /**
    The file state: open file table, descriptor tables, count in each pipe buffer, number of
    openings so far, and the openings whose close operation has run, in order.
   */
  datatype State = State(oft: Oft, tables: FdTables, pipes: map<nat, nat>, openings: nat, closed: seq<nat>)

  // ----- Counting references ------------------------------------------------------

  /** The descriptor slots that name entry `idx`. */
  ghost function Refs(tables: FdTables, idx: int): set<(nat, nat)> {
    set p, fd | p in tables && 0 <= fd < |tables[p]| && tables[p][fd] == idx :: (p, fd)
  }

  /** The open entries that are ends of the pipe with buffer `buf`. */
  ghost function Ends(oft: Oft, buf: nat): set<nat> {
    set i | 0 <= i < |oft| && oft[i].Some? && oft[i].value.vnode.PipeEnd? && oft[i].value.vnode.buf == buf
  }

  ghost predicate TablesOk(tables: FdTables) {
    forall p :: p in tables ==>
      && |tables[p]| == MAX_FDS
      && forall fd :: 0 <= fd < MAX_FDS ==> -1 <= tables[p][fd] < OFT_SIZE
  }

  /** Entry `idx` counts exactly the slots that name it and the references in hand. */
  ghost predicate CountOk(oft: Oft, tables: FdTables, hand: multiset<nat>, idx: nat)
    requires |oft| == OFT_SIZE && idx < OFT_SIZE
  {
    if oft[idx].Some? then 0 < oft[idx].value.refcount == |Refs(tables, idx)| + hand[idx]
    else Refs(tables, idx) == {} && hand[idx] == 0
  }

  /** A pipe buffer counts its open ends and the ends not yet opened. */
  ghost predicate PipesOk(oft: Oft, pipes: map<nat, nat>, spare: multiset<nat>) {
    && (forall b :: b in pipes ==> 0 < pipes[b] == |Ends(oft, b)| + spare[b])
    && (forall i :: 0 <= i < |oft| && oft[i].Some? && oft[i].value.vnode.PipeEnd? ==> oft[i].value.vnode.buf in pipes)
    && (forall b :: b in spare ==> b in pipes)
  }

  /** The heap addresses in use by pipes are all different and all allocated. */
  ghost predicate AddrsOk(oft: Oft, pipes: map<nat, nat>, heap: set<nat>) {
    && (forall b :: b in pipes ==> b in heap)
    && (forall i :: 0 <= i < |oft| && oft[i].Some? && oft[i].value.vnode.PipeEnd? ==>
          oft[i].value.vnode.addr in heap && oft[i].value.vnode.addr !in pipes)
    && (forall i, j ::
          0 <= i < j < |oft| && oft[i].Some? && oft[i].value.vnode.PipeEnd? && oft[j].Some?
          && oft[j].value.vnode.PipeEnd? ==>
          oft[i].value.vnode.addr != oft[j].value.vnode.addr)
  }

  /** Opening `n` is still open at some entry. */
  ghost predicate IsOpen(oft: Oft, n: nat) {
    exists i :: 0 <= i < |oft| && oft[i].Some? && oft[i].value.serial == n
  }

  /** The close operation has run exactly once for every opening no entry holds any more, and for no other. */
  ghost predicate ClosedOk(oft: Oft, openings: nat, closed: seq<nat>) {
    && (forall i, j :: 0 <= i < j < |oft| && oft[i].Some? && oft[j].Some? ==>
          oft[i].value.serial != oft[j].value.serial)
    && (forall i :: 0 <= i < |oft| && oft[i].Some? ==> oft[i].value.serial < openings)
    && (forall i, j :: 0 <= i < j < |closed| ==> closed[i] != closed[j])
    && (forall n :: n in closed <==> 0 <= n < openings && !IsOpen(oft, n))
  }

  /**
    The invariant. `hand` are references taken but not yet in a slot, `spare` pipe ends not yet
    opened; both are empty between system calls. `heap` are the live heap allocations.
   */
  ghost predicate Inv(s: State, hand: multiset<nat>, spare: multiset<nat>, heap: set<nat>) {
    && |s.oft| == OFT_SIZE && TablesOk(s.tables) && (forall n :: n in hand ==> n < OFT_SIZE)
    && (forall idx :: 0 <= idx < OFT_SIZE ==> CountOk(s.oft, s.tables, hand, idx))
    && PipesOk(s.oft, s.pipes, spare) && AddrsOk(s.oft, s.pipes, heap) && ClosedOk(s.oft, s.openings, s.closed)
  }

  /** No slot names a free entry. */
  lemma SlotNamesOpen(s: State, hand: multiset<nat>, spare: multiset<nat>, heap: set<nat>, p: nat, fd: nat)
    requires Inv(s, hand, spare, heap) && p in s.tables && fd < MAX_FDS && s.tables[p][fd] >= 0
    ensures s.tables[p][fd] < OFT_SIZE && s.oft[s.tables[p][fd]].Some?
  {
    var idx := s.tables[p][fd];
    assert (p, fd) in Refs(s.tables, idx);
    assert CountOk(s.oft, s.tables, hand, idx);
  }

  // ----- Moving a reference between a slot and the hand ---------------------------

  /** Memory after `fds[fd] = v` for process `p`. */
  function SetFd(tables: FdTables, p: nat, fd: nat, v: int): FdTables
    requires p in tables && fd < |tables[p]|
  {
    tables[p := tables[p][fd := v]]
  }

  lemma SetSame(tables: FdTables, p: nat, fd: nat)
    requires p in tables && fd < |tables[p]|
    ensures SetFd(tables, p, fd, tables[p][fd]) == tables
  {
    assert tables[p][fd := tables[p][fd]] == tables[p];
  }

  lemma SetTwice(tables: FdTables, p: nat, fd: nat, v: int, w: int)
    requires p in tables && fd < |tables[p]|
    ensures SetFd(SetFd(tables, p, fd, v), p, fd, w) == SetFd(tables, p, fd, w)
  {
    assert tables[p][fd := v][fd := w] == tables[p][fd := w];
  }

  lemma RefsSet(tables: FdTables, p: nat, fd: nat, v: int, idx: int)
    requires p in tables && fd < |tables[p]|
    ensures Refs(SetFd(tables, p, fd, v), idx) == (Refs(tables, idx) - {(p, fd)}) + (if v == idx then {(p, fd)} else {})
  {
    var tables' := SetFd(tables, p, fd, v);
    forall q, k
      ensures (q, k) in Refs(tables', idx) <==>
        (q, k) in (Refs(tables, idx) - {(p, fd)}) + (if v == idx then {(p, fd)} else {})
    {
      if q == p && k == fd {
        assert q in tables' && tables'[q][k] == v;
      } else if q in tables {
        assert |tables'[q]| == |tables[q]|;
        assert 0 <= k < |tables[q]| ==> tables'[q][k] == tables[q][k];
      }
    }
  }

  /** Clearing a slot leaves its reference in hand. */
  lemma SlotToHand(s: State, hand: multiset<nat>, spare: multiset<nat>, heap: set<nat>, p: nat, fd: nat)
    requires Inv(s, hand, spare, heap) && p in s.tables && fd < MAX_FDS && s.tables[p][fd] >= 0
    ensures Inv(s.(tables := SetFd(s.tables, p, fd, -1)), hand + multiset{s.tables[p][fd] as nat}, spare, heap)
  {
    hide PipesOk, AddrsOk, ClosedOk, Refs;
    var moved: nat := s.tables[p][fd];
    var tables', hand' := SetFd(s.tables, p, fd, -1), hand + multiset{moved};
    SlotNamesOpen(s, hand, spare, heap, p, fd);
    forall idx | 0 <= idx < OFT_SIZE ensures CountOk(s.oft, tables', hand', idx) {
      assert CountOk(s.oft, s.tables, hand, idx);
      RefsSet(s.tables, p, fd, -1, idx);
      InRefs(s.tables, p, fd, idx);
    }
  }

  lemma InRefs(tables: FdTables, p: nat, fd: nat, idx: int)
    requires p in tables && fd < |tables[p]|
    ensures (p, fd) in Refs(tables, idx) <==> tables[p][fd] == idx
  {
  }

  /** Storing a reference in hand into an unused slot. */
  lemma HandToSlot(s: State, hand: multiset<nat>, spare: multiset<nat>, heap: set<nat>, p: nat, fd: nat, idx: nat)
    requires Inv(s, hand, spare, heap) && p in s.tables && fd < MAX_FDS && s.tables[p][fd] == -1 && idx in hand
    ensures Inv(s.(tables := SetFd(s.tables, p, fd, idx)), hand - multiset{idx}, spare, heap)
  {
    hide PipesOk, AddrsOk, ClosedOk, Refs;
    var tables', hand' := SetFd(s.tables, p, fd, idx), hand - multiset{idx};
    forall i | 0 <= i < OFT_SIZE ensures CountOk(s.oft, tables', hand', i) {
      assert CountOk(s.oft, s.tables, hand, i);
      RefsSet(s.tables, p, fd, idx, i);
      InRefs(s.tables, p, fd, i);
    }
  }

  // ----- Changing an entry --------------------------------------------------------

  /** Entry `i` replaced. */
  function SetEntry(s: State, i: nat, e: Option<OpenFile>): State
    requires i < |s.oft|
  {
    s.(oft := s.oft[i := e])
  }

  /** Same vnode and serial at every entry, so nothing but counts changed. */
  lemma SameFiles(oft: Oft, oft': Oft, pipes: map<nat, nat>, spare: multiset<nat>, heap: set<nat>, openings: nat,
                  closed: seq<nat>)
    requires |oft'| == |oft| && PipesOk(oft, pipes, spare) && AddrsOk(oft, pipes, heap)
    requires ClosedOk(oft, openings, closed)
    requires forall i :: 0 <= i < |oft| ==> oft'[i].Some? == oft[i].Some?
    requires forall i :: 0 <= i < |oft| && oft[i].Some? ==>
      oft'[i].value.vnode == oft[i].value.vnode && oft'[i].value.serial == oft[i].value.serial
    ensures PipesOk(oft', pipes, spare) && AddrsOk(oft', pipes, heap) && ClosedOk(oft', openings, closed)
  {
    forall b | b in pipes ensures Ends(oft', b) == Ends(oft, b) {
    }
    forall n: nat ensures IsOpen(oft', n) == IsOpen(oft, n) {
      if IsOpen(oft, n) {
        var i :| 0 <= i < |oft| && oft[i].Some? && oft[i].value.serial == n;
        assert oft'[i].Some? && oft'[i].value.serial == n;
      }
    }
  }

  /** `oft_incref`: one more reference in hand. */
  lemma TakeRef(s: State, hand: multiset<nat>, spare: multiset<nat>, heap: set<nat>, idx: nat)
    requires Inv(s, hand, spare, heap) && idx < OFT_SIZE && s.oft[idx].Some?
    ensures var e := s.oft[idx].value;
      Inv(SetEntry(s, idx, Some(e.(refcount := e.refcount + 1))), hand + multiset{idx}, spare, heap)
  {
    hide PipesOk, AddrsOk, ClosedOk, Refs;
    var e := s.oft[idx].value;
    var s', hand' := SetEntry(s, idx, Some(e.(refcount := e.refcount + 1))), hand + multiset{idx};
    forall i | 0 <= i < OFT_SIZE ensures CountOk(s'.oft, s.tables, hand', i) {
      assert CountOk(s.oft, s.tables, hand, i);
    }
    SameFiles(s.oft, s'.oft, s.pipes, spare, heap, s.openings, s.closed);
  }

  /** `oft_decref` with other references left. */
  lemma DropRef(s: State, hand: multiset<nat>, spare: multiset<nat>, heap: set<nat>, idx: nat)
    requires Inv(s, hand, spare, heap) && idx in hand && s.oft[idx].Some? && s.oft[idx].value.refcount > 1
    ensures var e := s.oft[idx].value;
      Inv(SetEntry(s, idx, Some(e.(refcount := e.refcount - 1))), hand - multiset{idx}, spare, heap)
  {
    hide PipesOk, AddrsOk, ClosedOk, Refs;
    var e := s.oft[idx].value;
    var s', hand' := SetEntry(s, idx, Some(e.(refcount := e.refcount - 1))), hand - multiset{idx};
    forall i | 0 <= i < OFT_SIZE ensures CountOk(s'.oft, s.tables, hand', i) {
      assert CountOk(s.oft, s.tables, hand, i);
    }
    SameFiles(s.oft, s'.oft, s.pipes, spare, heap, s.openings, s.closed);
  }

  /** The pipe counts once an end of buffer `b` is closed. */
  function PipeClosed(pipes: map<nat, nat>, b: nat): map<nat, nat>
    requires b in pipes && pipes[b] > 0
  {
    if pipes[b] == 1 then pipes - {b} else pipes[b := pipes[b] - 1]
  }

  /** `oft_decref` of the last reference: the close operation runs and the entry is free. */
  function Closing(s: State, idx: nat): State
    requires idx < |s.oft| && s.oft[idx].Some?
    requires s.oft[idx].value.vnode.PipeEnd? ==>
      s.oft[idx].value.vnode.buf in s.pipes && s.pipes[s.oft[idx].value.vnode.buf] > 0
  {
    var e := s.oft[idx].value;
    State(s.oft[idx := None], s.tables, if e.vnode.PipeEnd? then PipeClosed(s.pipes, e.vnode.buf) else s.pipes,
          s.openings, s.closed + [e.serial])
  }

  /** Heap blocks that closing `v` gives back: the node, and the buffer when this was its last end. */
  function Freed(v: Vnode, pipes: map<nat, nat>): set<nat> {
    match v
    case Plain(_) => {}
    case PipeEnd(addr, buf) => {addr} + (if buf in pipes && pipes[buf] == 1 then {buf} else {})
  }

  lemma EndKnown(s: State, hand: multiset<nat>, spare: multiset<nat>, heap: set<nat>, idx: nat)
    requires Inv(s, hand, spare, heap) && idx < OFT_SIZE && s.oft[idx].Some?
    ensures s.oft[idx].value.vnode.PipeEnd? ==>
      var v := s.oft[idx].value.vnode;
      v.buf in s.pipes && s.pipes[v.buf] > 0 && v.addr in heap && v.buf in heap && v.addr != v.buf
  {
  }

  lemma EndsRemoved(oft: Oft, idx: nat, b: nat)
    requires idx < |oft| && oft[idx].Some?
    ensures var e := oft[idx].value;
      Ends(oft[idx := None], b) == Ends(oft, b) - {idx}
      && (idx in Ends(oft, b) <==> e.vnode.PipeEnd? && e.vnode.buf == b)
  {
  }

  lemma ClosingPipes(s: State, spare: multiset<nat>, idx: nat)
    requires idx < |s.oft| && s.oft[idx].Some? && PipesOk(s.oft, s.pipes, spare)
    requires s.oft[idx].value.vnode.PipeEnd? ==> s.oft[idx].value.vnode.buf in s.pipes
    ensures PipesOk(Closing(s, idx).oft, Closing(s, idx).pipes, spare)
  {
    hide Ends;
    var s', v := Closing(s, idx), s.oft[idx].value.vnode;
    forall b | b in s.pipes ensures b in s'.pipes ==> 0 < s'.pipes[b] == |Ends(s'.oft, b)| + spare[b] {
      EndsRemoved(s.oft, idx, b);
    }
    forall i | 0 <= i < |s'.oft| && s'.oft[i].Some? && s'.oft[i].value.vnode.PipeEnd?
      ensures s'.oft[i].value.vnode.buf in s'.pipes
    {
      if v.PipeEnd? && s.oft[i].value.vnode.buf == v.buf {
        EndsTwo(s.oft, i, idx, v.buf);
      }
    }
    forall b | b in spare ensures b in s'.pipes {
      if v.PipeEnd? && b == v.buf {
        EndsRemoved(s.oft, idx, b);
      }
    }
  }

  lemma EndsTwo(oft: Oft, i: nat, j: nat, b: nat)
    requires i < |oft| && j < |oft| && i != j && oft[i].Some? && oft[j].Some?
    requires oft[i].value.vnode.PipeEnd? && oft[i].value.vnode.buf == b && oft[j].value.vnode.PipeEnd?
    requires oft[j].value.vnode.buf == b
    ensures |Ends(oft, b)| >= 2
  {
    assert {i, j} <= Ends(oft, b);
    SubsetSize({i, j}, Ends(oft, b));
  }

  lemma {:induction false} SubsetSize<T>(a: set<T>, b: set<T>)
    requires a <= b
    ensures |a| <= |b|
  {
    if a != {} {
      var x :| x in a;
      SubsetSize(a - {x}, b - {x});
    }
  }

  lemma ClosingAddrs(s: State, heap: set<nat>, idx: nat)
    requires idx < |s.oft| && s.oft[idx].Some? && AddrsOk(s.oft, s.pipes, heap)
    requires s.oft[idx].value.vnode.PipeEnd? ==>
      s.oft[idx].value.vnode.buf in s.pipes && s.pipes[s.oft[idx].value.vnode.buf] > 0
    ensures AddrsOk(Closing(s, idx).oft, Closing(s, idx).pipes, heap - Freed(s.oft[idx].value.vnode, s.pipes))
  {
    var s', v := Closing(s, idx), s.oft[idx].value.vnode;
    assert s'.pipes.Keys <= s.pipes.Keys;
  }

  lemma ClosingClosed(s: State, idx: nat)
    requires idx < |s.oft| && s.oft[idx].Some? && ClosedOk(s.oft, s.openings, s.closed)
    ensures ClosedOk(s.oft[idx := None], s.openings, s.closed + [s.oft[idx].value.serial])
  {
    var oft', n0 := s.oft[idx := None], s.oft[idx].value.serial;
    assert IsOpen(s.oft, n0);
    forall n: nat ensures IsOpen(oft', n) <==> IsOpen(s.oft, n) && n != n0 {
      if IsOpen(s.oft, n) && n != n0 {
        var i :| 0 <= i < |s.oft| && s.oft[i].Some? && s.oft[i].value.serial == n;
        assert oft'[i].Some?;
      }
    }
  }

  /** Dropping the last reference keeps the invariant; what it frees leaves the heap. */
  lemma CloseLast(s: State, hand: multiset<nat>, spare: multiset<nat>, heap: set<nat>, idx: nat)
    requires Inv(s, hand, spare, heap) && idx in hand && s.oft[idx].Some? && s.oft[idx].value.refcount == 1
    requires s.oft[idx].value.vnode.PipeEnd? ==>
      s.oft[idx].value.vnode.buf in s.pipes && s.pipes[s.oft[idx].value.vnode.buf] > 0
    ensures Inv(Closing(s, idx), hand - multiset{idx}, spare, heap - Freed(s.oft[idx].value.vnode, s.pipes))
  {
    hide PipesOk, AddrsOk, ClosedOk, Refs, Freed;
    var s', hand' := Closing(s, idx), hand - multiset{idx};
    forall i | 0 <= i < OFT_SIZE ensures CountOk(s'.oft, s.tables, hand', i) {
      assert CountOk(s.oft, s.tables, hand, i);
    }
    ClosingPipes(s, spare, idx);
    ClosingAddrs(s, heap, idx);
    ClosingClosed(s, idx);
  }

  // ----- Opening --------------------------------------------------------------------

  /** `oft_alloc` at entry `idx`. */
  function Opening(s: State, idx: nat, v: Vnode): State
    requires idx < |s.oft|
  {
    s.(oft := s.oft[idx := Some(OpenFile(v, 1, s.openings))], openings := s.openings + 1)
  }

  /** Node `v` may be opened: a pipe end must be one not opened yet, at an address of its own. */
  ghost predicate Openable(s: State, spare: multiset<nat>, heap: set<nat>, v: Vnode) {
    v.PipeEnd? ==>
      && v.buf in spare && v.addr in heap && v.addr !in s.pipes
      && forall i :: 0 <= i < |s.oft| && s.oft[i].Some? && s.oft[i].value.vnode.PipeEnd? ==>
           s.oft[i].value.vnode.addr != v.addr
  }

  function SpareAfter(spare: multiset<nat>, v: Vnode): multiset<nat> {
    if v.PipeEnd? then spare - multiset{v.buf} else spare
  }

  lemma OpeningPipes(s: State, spare: multiset<nat>, heap: set<nat>, idx: nat, v: Vnode)
    requires idx < |s.oft| && s.oft[idx].None? && PipesOk(s.oft, s.pipes, spare) && Openable(s, spare, heap, v)
    ensures PipesOk(Opening(s, idx, v).oft, s.pipes, SpareAfter(spare, v))
  {
    hide Ends;
    var oft' := Opening(s, idx, v).oft;
    forall b | b in s.pipes ensures |Ends(oft', b)| + SpareAfter(spare, v)[b] == |Ends(s.oft, b)| + spare[b] {
      EndsAdded(s.oft, idx, OpenFile(v, 1, s.openings), b);
    }
  }

  lemma EndsAdded(oft: Oft, idx: nat, e: OpenFile, b: nat)
    requires idx < |oft| && oft[idx].None?
    ensures idx !in Ends(oft, b)
    ensures Ends(oft[idx := Some(e)], b) == Ends(oft, b) + (if e.vnode.PipeEnd? && e.vnode.buf == b then {idx} else {})
  {
  }

  lemma OpeningAddrs(s: State, spare: multiset<nat>, heap: set<nat>, idx: nat, v: Vnode)
    requires idx < |s.oft| && AddrsOk(s.oft, s.pipes, heap) && Openable(s, spare, heap, v)
    ensures AddrsOk(Opening(s, idx, v).oft, s.pipes, heap)
  {
  }

  lemma OpeningClosed(s: State, idx: nat, v: Vnode)
    requires idx < |s.oft| && s.oft[idx].None? && ClosedOk(s.oft, s.openings, s.closed)
    ensures ClosedOk(Opening(s, idx, v).oft, s.openings + 1, s.closed)
  {
    var oft' := Opening(s, idx, v).oft;
    assert oft'[idx].value.serial == s.openings;
    forall n: nat ensures IsOpen(oft', n) <==> IsOpen(s.oft, n) || n == s.openings {
      if IsOpen(s.oft, n) {
        var i :| 0 <= i < |s.oft| && s.oft[i].Some? && s.oft[i].value.serial == n;
        assert oft'[i].Some? && oft'[i].value.serial == n;
      }
    }
  }

  /** A new entry holds one reference in hand. */
  lemma OpenNew(s: State, hand: multiset<nat>, spare: multiset<nat>, heap: set<nat>, idx: nat, v: Vnode)
    requires Inv(s, hand, spare, heap) && idx < OFT_SIZE && s.oft[idx].None? && Openable(s, spare, heap, v)
    ensures Inv(Opening(s, idx, v), hand + multiset{idx}, SpareAfter(spare, v), heap)
  {
    hide PipesOk, AddrsOk, ClosedOk, Refs, Openable, SpareAfter;
    var s', hand' := Opening(s, idx, v), hand + multiset{idx};
    forall i | 0 <= i < OFT_SIZE ensures CountOk(s'.oft, s.tables, hand', i) {
      assert CountOk(s.oft, s.tables, hand, i);
    }
    OpeningPipes(s, spare, heap, idx, v);
    OpeningAddrs(s, spare, heap, idx, v);
    OpeningClosed(s, idx, v);
  }

  // ----- Pipe buffers and the heap ----------------------------------------------------

  /** No pipe uses heap block `a`. */
  ghost predicate Unused(s: State, a: nat) {
    && a !in s.pipes
    && forall i :: 0 <= i < |s.oft| && s.oft[i].Some? && s.oft[i].value.vnode.PipeEnd? ==>
         s.oft[i].value.vnode.addr != a
  }

  /** A block that was not allocated is used by no pipe. */
  lemma FreshUnused(s: State, hand: multiset<nat>, spare: multiset<nat>, heap: set<nat>, a: nat)
    requires Inv(s, hand, spare, heap) && a !in heap
    ensures Unused(s, a)
  {
  }

  /** More of the heap may be allocated, and blocks no pipe uses may be freed. */
  lemma HeapChange(s: State, hand: multiset<nat>, spare: multiset<nat>, heap: set<nat>, heap': set<nat>)
    requires Inv(s, hand, spare, heap) && forall a :: a in heap && a !in heap' ==> Unused(s, a)
    ensures Inv(s, hand, spare, heap')
  {
  }

  /** A new pipe buffer with two ends to be opened. */
  lemma NewPipe(s: State, hand: multiset<nat>, spare: multiset<nat>, heap: set<nat>, b: nat)
    requires Inv(s, hand, spare, heap) && Unused(s, b) && b in heap
    ensures Inv(s.(pipes := s.pipes[b := 2]), hand, spare + multiset{b, b}, heap)
  {
    assert Ends(s.oft, b) == {};
    assert b !in spare;
  }

  /** A pipe buffer none of whose ends is open may be dropped. */
  lemma DropPipe(s: State, hand: multiset<nat>, spare: multiset<nat>, heap: set<nat>, b: nat)
    requires Inv(s, hand, spare, heap) && b in s.pipes && s.pipes[b] == spare[b]
    ensures Inv(s.(pipes := s.pipes - {b}), hand, spare[b := 0], heap)
    ensures Unused(s.(pipes := s.pipes - {b}), b)
  {
    assert Ends(s.oft, b) == {};
    forall i | 0 <= i < |s.oft| && s.oft[i].Some? && s.oft[i].value.vnode.PipeEnd?
      ensures s.oft[i].value.vnode.buf != b
    {
      assert i in Ends(s.oft, b) <==> s.oft[i].value.vnode.buf == b;
    }
  }

  /** Between system calls a pipe buffer is allocated exactly as long as one of its ends is open. */
  lemma BufferLives(s: State, heap: set<nat>, b: nat)
    requires Inv(s, multiset{}, multiset{}, heap)
    ensures b in s.pipes <==> exists i :: i in Ends(s.oft, b)
    ensures b in s.pipes ==> b in heap && s.pipes[b] == |Ends(s.oft, b)|
  {
    if b in s.pipes {
      assert |Ends(s.oft, b)| > 0;
      assert Ends(s.oft, b) != {};
    }
  }

  /** Closing an end frees the buffer exactly when it was the last one open. */
  lemma BufferFreedLast(s: State, heap: set<nat>, hand: multiset<nat>, idx: nat)
    requires Inv(s, hand, multiset{}, heap) && idx < OFT_SIZE && s.oft[idx].Some? && s.oft[idx].value.vnode.PipeEnd?
    ensures var v := s.oft[idx].value.vnode; v.buf in Freed(v, s.pipes) <==> Ends(s.oft, v.buf) == {idx}
  {
    var v := s.oft[idx].value.vnode;
    assert idx in Ends(s.oft, v.buf);
    EndKnown(s, hand, multiset{}, heap, idx);
    if s.pipes[v.buf] == 1 {
      assert |Ends(s.oft, v.buf) - {idx}| == 0;
    }
  }

  // ----- Processes ------------------------------------------------------------------

  /** Descriptors from `k` on hidden. */
  function Masked(fds: seq<int>, k: nat): (r: seq<int>)
    requires k <= |fds|
    ensures |r| == |fds|
  {
    fds[..k] + seq(|fds| - k, _ => -1)
  }

  lemma EmptyTable(s: State, hand: multiset<nat>, spare: multiset<nat>, heap: set<nat>, p: nat, fds: seq<int>)
    requires Inv(s, hand, spare, heap) && p !in s.tables && |fds| == MAX_FDS
    requires forall k :: 0 <= k < MAX_FDS ==> fds[k] == -1
    ensures Inv(s.(tables := s.tables[p := fds]), hand, spare, heap)
  {
    hide PipesOk, AddrsOk, ClosedOk;
    var tables' := s.tables[p := fds];
    forall idx | 0 <= idx < OFT_SIZE ensures CountOk(s.oft, tables', hand, idx) {
      assert CountOk(s.oft, s.tables, hand, idx);
      assert Refs(tables', idx) == Refs(s.tables, idx);
    }
  }

  /** A process without open descriptors may leave the table. */
  lemma DropTable(s: State, hand: multiset<nat>, spare: multiset<nat>, heap: set<nat>, p: nat)
    requires Inv(s, hand, spare, heap) && p in s.tables && forall k :: 0 <= k < MAX_FDS ==> s.tables[p][k] == -1
    ensures Inv(s.(tables := s.tables - {p}), hand, spare, heap)
  {
    hide PipesOk, AddrsOk, ClosedOk;
    var tables' := s.tables - {p};
    forall idx | 0 <= idx < OFT_SIZE ensures CountOk(s.oft, tables', hand, idx) {
      assert CountOk(s.oft, s.tables, hand, idx);
      assert Refs(tables', idx) == Refs(s.tables, idx);
    }
  }

  /** With at most 64 processes no count comes near the 32-bit limit. */
  lemma {:induction false} RefsBounded(tables: FdTables, idx: int)
    requires forall p :: p in tables ==> |tables[p]| == MAX_FDS
    ensures |Refs(tables, idx)| <= |tables| * MAX_FDS
    decreases |tables|
  {
    if tables.Keys == {} {
      assert Refs(tables, idx) == {};
    } else {
      var p :| p in tables;
      var rest := tables - {p};
      RefsBounded(rest, idx);
      var mine := set fd: nat | fd < MAX_FDS :: (p, fd);
      Pairs(p, MAX_FDS);
      assert Refs(tables, idx) <= Refs(rest, idx) + mine;
      SubsetSize(Refs(tables, idx), Refs(rest, idx) + mine);
      assert rest.Keys == tables.Keys - {p};
      assert |tables| == |rest| + 1;
    }
  }

  lemma {:induction false} Pairs(p: nat, n: nat)
    ensures |set fd: nat | fd < n :: (p, fd)| == n
  {
    var s := set fd: nat | fd < n :: (p, fd);
    if n == 0 {
      assert s == {};
    } else {
      Pairs(p, n - 1);
      assert s == (set fd: nat | fd < n - 1 :: (p, fd)) + {(p, n - 1)};
    }
  }
}
