/**
  The loader's record of the pages it mapped (elf.rs, `LoadedPages`): a list of
  64-page chunks taken from a static arena of 64, linked in place.
 */
module Provenance {
  import opened Prelude

  const CHUNK_CAP: nat := 64
  const CHUNK_COUNT: nat := 64

  /** A page mapped by one load: virtual address and physical frame. */
  datatype LoadedPage = LoadedPage(vaddr: nat, frame: nat)

  datatype Chunk = Chunk(next: Option<nat>, used: nat, pages: seq<LoadedPage>)

  function Flat(rows: seq<seq<LoadedPage>>): seq<LoadedPage> {
    if rows == [] then [] else Flat(rows[..|rows| - 1]) + rows[|rows| - 1]
  }

  lemma FlatPrefix(rows: seq<seq<LoadedPage>>, a: nat)
    requires a < |rows|
    ensures Flat(rows[..a + 1]) == Flat(rows[..a]) + rows[a]
  {
    assert rows[..a + 1][..a] == rows[..a];
  }

  /** Entry `o` of row `a` sits after all earlier rows. */
  lemma {:induction false} FlatAt(rows: seq<seq<LoadedPage>>, a: nat, o: nat)
    requires a < |rows| && o < |rows[a]|
    ensures |Flat(rows[..a])| + o < |Flat(rows)| && Flat(rows)[|Flat(rows[..a])| + o] == rows[a][o]
  {
    var last := |rows| - 1;
    if a < last {
      FlatAt(rows[..last], a, o);
      assert rows[..last][..a] == rows[..a];
    }
  }

  lemma FlatUpdate(rows: seq<seq<LoadedPage>>, last: seq<LoadedPage>)
    requires rows != []
    ensures Flat(rows[|rows| - 1 := last]) == Flat(rows[..|rows| - 1]) + last
  {
    assert rows[|rows| - 1 := last][..|rows| - 1] == rows[..|rows| - 1];
  }

  lemma FlatExtend(rows: seq<seq<LoadedPage>>)
    ensures Flat(rows + [[]]) == Flat(rows)
  {
    assert (rows + [[]])[..|rows|] == rows;
  }

  // ----- The list as values -----------------------------------------------------

  /** Chunk `a` of the list holds row `a` and points at the next. */
  ghost predicate Linked(chunks: seq<Chunk>, chain: seq<nat>, rows: seq<seq<LoadedPage>>, a: nat)
    requires |chain| == |rows| && a < |chain|
  {
    && chain[a] < |chunks|
    && |rows[a]| <= CHUNK_CAP == |chunks[chain[a]].pages|
    && chunks[chain[a]].used == |rows[a]|
    && chunks[chain[a]].pages[..|rows[a]|] == rows[a]
    && chunks[chain[a]].next == (if a + 1 < |chain| then Some(chain[a + 1]) else None)
  }

  /** The chunks named by `chain`, all different, form a list holding `rows`. */
  ghost predicate ListOk(chunks: seq<Chunk>, chain: seq<nat>, rows: seq<seq<LoadedPage>>) {
    && |chain| == |rows| && |chunks| == CHUNK_COUNT
    && (forall i :: 0 <= i < CHUNK_COUNT ==> |chunks[i].pages| == CHUNK_CAP)
    && (forall a :: 0 <= a < |chain| ==> Linked(chunks, chain, rows, a))
    && (forall a, b :: 0 <= a < b < |chain| ==> chain[a] != chain[b])
  }

  /** Exactly the chunks of the list are taken from the arena. */
  ghost predicate MaskOk(mask: seq<bool>, mask0: seq<bool>, chain: seq<nat>) {
    && |mask| == |mask0| == CHUNK_COUNT
    && (forall a :: 0 <= a < |chain| ==> chain[a] < CHUNK_COUNT && mask0[chain[a]])
    && (forall i :: 0 <= i < CHUNK_COUNT ==> mask[i] == (mask0[i] && i !in chain))
  }

  /** Appending a fresh chunk `index`. */
  function Appended(chunks: seq<Chunk>, tail: Option<nat>, index: nat): seq<Chunk>
    requires index < |chunks| && (tail.Some? ==> tail.value < |chunks|)
  {
    var c1 := chunks[index := chunks[index].(next := None, used := 0)];
    if tail.None? then c1 else c1[tail.value := c1[tail.value].(next := Some(index))]
  }

  lemma AppendedOk(chunks: seq<Chunk>, chain: seq<nat>, rows: seq<seq<LoadedPage>>, tail: Option<nat>, index: nat)
    requires ListOk(chunks, chain, rows) && index < CHUNK_COUNT && index !in chain
    requires tail == if chain == [] then None else Some(chain[|chain| - 1])
    requires tail.Some? ==> tail.value < CHUNK_COUNT
    ensures ListOk(Appended(chunks, tail, index), chain + [index], rows + [[]])
  {
    var chunks', chain', rows' := Appended(chunks, tail, index), chain + [index], rows + [[]];
    forall a | 0 <= a < |chain'| ensures Linked(chunks', chain', rows', a) {
      if a < |chain| {
        assert Linked(chunks, chain, rows, a) && chain[a] != index;
        assert a < |chain| - 1 ==> chain[a] != chain[|chain| - 1];
      }
    }
  }

  /** Rewriting the last chunk, keeping its link. */
  lemma LastRow(chunks: seq<Chunk>, chain: seq<nat>, rows: seq<seq<LoadedPage>>, c: Chunk, row: seq<LoadedPage>)
    requires ListOk(chunks, chain, rows) && chain != []
    requires var t := chain[|chain| - 1]; t < |chunks| && c.next == chunks[t].next
    requires |row| <= CHUNK_CAP == |c.pages| && c.used == |row| && c.pages[..|row|] == row
    ensures ListOk(chunks[chain[|chain| - 1] := c], chain, rows[|rows| - 1 := row])
  {
    var t := chain[|chain| - 1];
    var chunks', rows' := chunks[t := c], rows[|rows| - 1 := row];
    forall a | 0 <= a < |chain| ensures Linked(chunks', chain, rows', a) {
      assert Linked(chunks, chain, rows, a);
      assert a < |chain| - 1 ==> chain[a] != t;
    }
  }

  lemma LastLinked(chunks: seq<Chunk>, chain: seq<nat>, rows: seq<seq<LoadedPage>>)
    requires ListOk(chunks, chain, rows) && chain != []
    ensures Linked(chunks, chain, rows, |chain| - 1)
  {
  }

  // ----- How much fits ------------------------------------------------------------

  /** Every chunk but the last is full. */
  ghost predicate Packed(rows: seq<seq<LoadedPage>>) {
    forall a :: 0 <= a < |rows| - 1 ==> |rows[a]| == CHUNK_CAP
  }

  lemma {:induction false} PackedLength(rows: seq<seq<LoadedPage>>)
    requires Packed(rows) && rows != []
    ensures |Flat(rows)| == CHUNK_CAP * (|rows| - 1) + |rows[|rows| - 1]|
  {
    if |rows| == 1 {
      assert rows[..0] == [];
    } else {
      PackedLength(rows[..|rows| - 1]);
    }
  }

  ghost function FreeChunks(mask: seq<bool>): set<nat> {
    set i | 0 <= i < |mask| && mask[i]
  }

  /** How many pages can be recorded in the chunks free in `mask`. */
  ghost function Capacity(mask: seq<bool>): nat {
    64 * |FreeChunks(mask)|
  }

  ghost function Members(chain: seq<nat>): set<nat> {
    set i | i in chain
  }

  lemma {:induction false} DistinctCount(chain: seq<nat>)
    requires forall a, b :: 0 <= a < b < |chain| ==> chain[a] != chain[b]
    ensures |Members(chain)| == |chain|
  {
    if chain != [] {
      var front, last := chain[..|chain| - 1], chain[|chain| - 1];
      DistinctCount(front);
      assert Members(chain) == Members(front) + {last};
    }
  }

  lemma ChunksLeft(chunks: seq<Chunk>, chain: seq<nat>, rows: seq<seq<LoadedPage>>, mask: seq<bool>, mask0: seq<bool>)
    requires ListOk(chunks, chain, rows) && MaskOk(mask, mask0, chain)
    ensures |FreeChunks(mask)| + |rows| == |FreeChunks(mask0)|
  {
    DistinctCount(chain);
    assert FreeChunks(mask0) == FreeChunks(mask) + Members(chain);
    assert FreeChunks(mask) !! Members(chain);
  }

  class LoadedPages {
    // The arena (static in the source).
    var freeMask: seq<bool>
    var chunks: seq<Chunk>
    // The list of one load.
    var head: Option<nat>
    var tail: Option<nat>
    var len: nat
    // Chunks of the list in order, the pages each holds, and the mask before the load.
    ghost var chain: seq<nat>
    ghost var rows: seq<seq<LoadedPage>>
    ghost const mask0: seq<bool>

    ghost predicate Valid()
      reads this
    {
      && ListOk(chunks, chain, rows) && MaskOk(freeMask, mask0, chain) && Packed(rows) && len == |Flat(rows)|
      && head == (if chain == [] then None else Some(chain[0]))
      && tail == (if chain == [] then None else Some(chain[|chain| - 1]))
    }

    /** The recorded pages, oldest first. */
    ghost function Pages(): seq<LoadedPage>
      reads this
    {
      Flat(rows)
    }

    /** The last chunk holds at least one page, the one reserved last. */
    ghost predicate Open()
      reads this
    {
      rows != [] && rows[|rows| - 1] != []
    }

    /** The last chunk has an unused entry. */
    ghost predicate Room()
      reads this
    {
      rows != [] && |rows[|rows| - 1]| < CHUNK_CAP
    }

    /** Some chunk of the arena is free. */
    ghost predicate Spare()
      reads this
    {
      exists i :: 0 <= i < |freeMask| && freeMask[i]
    }

    /** Another page can be recorded exactly while there are fewer than fit in the chunks free at the start. */
    lemma RoomLeft()
      requires Valid()
      ensures Room() || Spare() <==> |Pages()| < Capacity(mask0)
    {
      ChunksLeft(chunks, chain, rows, freeMask, mask0);
      if rows != [] {
        PackedLength(rows);
        LastLinked(chunks, chain, rows);
      }
      hide ListOk, MaskOk, Packed, Flat;
      if Spare() {
        var i :| 0 <= i < |freeMask| && freeMask[i];
        assert i in FreeChunks(freeMask);
      } else {
        assert FreeChunks(freeMask) == {};
      }
    }

    /** An empty record over an arena with the given mask. */
    constructor (mask: seq<bool>, arena: seq<Chunk>)
      requires |mask| == |arena| == CHUNK_COUNT && forall i :: 0 <= i < CHUNK_COUNT ==> |arena[i].pages| == CHUNK_CAP
      ensures Valid() && chain == [] && Pages() == [] && mask0 == mask == freeMask
    {
      freeMask, chunks, head, tail, len := mask, arena, None, None, 0;
      chain, rows, mask0 := [], [], mask;
    }

    /** Index of the lowest free chunk, as `trailing_zeros` of the mask. */
    method LowestFree() returns (r: Option<nat>)
      requires |freeMask| == CHUNK_COUNT
      ensures r.None? ==> forall i :: 0 <= i < CHUNK_COUNT ==> !freeMask[i]
      ensures r.Some? ==> r.value < CHUNK_COUNT && freeMask[r.value] && forall i :: 0 <= i < r.value ==> !freeMask[i]
    {
      var i := 0;
      while i < CHUNK_COUNT
        invariant 0 <= i <= CHUNK_COUNT && forall k :: 0 <= k < i ==> !freeMask[k]
      {
        if freeMask[i] {
          return Some(i);
        }
        i := i + 1;
      }
      return None;
    }

    /** Hang a fresh chunk on the list. */
    method AddChunk(index: nat)
      requires Valid() && index < CHUNK_COUNT && freeMask[index] && !Room()
      modifies this
      ensures Valid() && Room() && chain == old(chain) + [index] && rows == old(rows) + [[]] && Pages() == old(Pages())
      ensures tail == Some(index) && freeMask == old(freeMask)[index := false]
    {
      hide ListOk;
      ListBounds(chunks, chain, rows);
      AppendedOk(chunks, chain, rows, tail, index);
      if rows != [] {
        LastLinked(chunks, chain, rows);
      }
      FlatExtend(rows);
      freeMask := freeMask[index := false];
      chunks := Appended(chunks, tail, index);
      if tail.None? {
        head := Some(index);
      }
      tail := Some(index);
      chain, rows := chain + [index], rows + [[]];
    }

    /** Replace the last chunk's row. */
    ghost method SetLastRow(row: seq<LoadedPage>)
      requires rows != []
      modifies this`rows
      ensures rows == old(rows)[|old(rows)| - 1 := row]
      ensures Pages() == Flat(old(rows)[..|old(rows)| - 1]) + row
    {
      FlatUpdate(rows, row);
      rows := rows[|rows| - 1 := row];
    }

    /** Use the next entry of the last chunk. */
    method TakeEntry()
      requires Valid() && rows != [] && |rows[|rows| - 1]| < CHUNK_CAP
      modifies this
      ensures Valid() && Open()
      ensures |Pages()| == |old(Pages())| + 1 && Pages()[..|old(Pages())|] == old(Pages()) && chain == old(chain)
      ensures freeMask == old(freeMask)
    {
      LastLinked(chunks, chain, rows);
      hide ListOk;
      var c := chunks[tail.value];
      ghost var row := rows[|rows| - 1] + [c.pages[c.used]];
      LastRow(chunks, chain, rows, c.(used := c.used + 1), row);
      chunks := chunks[tail.value := c.(used := c.used + 1)];
      len := len + 1;
      SetLastRow(row);
      assert Pages() == old(Pages()) + [c.pages[c.used]];
    }

    /**
      Reserve one more entry: in the last chunk while it has room, else in the lowest free chunk, which is
      hung on the list. It fails, changing nothing, exactly when a new chunk is needed and none is free.
     */
    method Reserve() returns (ok: bool)
      requires Valid()
      modifies this
      ensures Valid() && (ok <==> old(Room()) || old(Spare()))
      ensures ok ==> Open() && |Pages()| == |old(Pages())| + 1 && Pages()[..|old(Pages())|] == old(Pages())
      ensures !ok || old(Room()) ==> chain == old(chain) && freeMask == old(freeMask)
      ensures !ok ==> Pages() == old(Pages())
      ensures ok && !old(Room()) ==>
        && chain != [] && chain[..|chain| - 1] == old(chain) && LowestOf(chain[|chain| - 1], old(freeMask))
        && freeMask == old(freeMask)[chain[|chain| - 1] := false]
    {
      if chain != [] {
        LastLinked(chunks, chain, rows);
      }
      ListBounds(chunks, chain, rows);
      if tail.None? || chunks[tail.value].used == CHUNK_CAP {
        var index := LowestFree();
        if index.None? {
          return false;
        }
        AddChunk(index.value);
      }
      TakeEntry();
      ok := true;
    }

    /** Give the last entry back. */
    method CancelReservation()
      requires Valid() && Open()
      modifies this
      ensures Valid() && Pages() == old(Pages())[..|old(Pages())| - 1]
    {
      LastLinked(chunks, chain, rows);
      hide ListOk;
      var c := chunks[tail.value];
      ghost var row := rows[|rows| - 1][..|rows[|rows| - 1]| - 1];
      LastRow(chunks, chain, rows, c.(used := c.used - 1), row);
      chunks := chunks[tail.value := c.(used := c.used - 1)];
      len := len - 1;
      SetLastRow(row);
    }

    /** Frame recorded for `vaddr`, or None when no recorded page has that address. */
    method Find(vaddr: nat) returns (r: Option<nat>)
      requires Valid()
      ensures r.Some? ==> LoadedPage(vaddr, r.value) in Pages()
      ensures r.None? ==> forall i :: 0 <= i < |Pages()| ==> Pages()[i].vaddr != vaddr
    {
      ListBounds(chunks, chain, rows);
      hide ListOk, MaskOk;
      var chunk := head;
      ghost var a := 0;
      while chunk.Some?
        invariant 0 <= a <= |chain| == |rows| && chunk == (if a < |chain| then Some(chain[a]) else None)
        invariant forall i :: 0 <= i < |Flat(rows[..a])| ==> Flat(rows[..a])[i].vaddr != vaddr
        decreases |chain| - a
      {
        RowLinked(chunks, chain, rows, a);
        var c := chunks[chunk.value];
        var o := 0;
        while o < c.used
          invariant 0 <= o <= c.used && forall i :: 0 <= i < o ==> rows[a][i].vaddr != vaddr
        {
          assert c.pages[o] == rows[a][o];
          if c.pages[o].vaddr == vaddr {
            FlatAt(rows, a, o);
            return Some(c.pages[o].frame);
          }
          o := o + 1;
        }
        FlatPrefix(rows, a);
        chunk := c.next;
        a := a + 1;
      }
      assert rows[..a] == rows;
      return None;
    }

    /** Give every chunk back to the arena. */
    method ReleaseMetadata()
      requires Valid()
      modifies this
      ensures Valid() && chain == [] && Pages() == [] && freeMask == mask0
    {
      ListBounds(chunks, chain, rows);
      hide ListOk, MaskOk;
      var chunk := head;
      ghost var a := 0;
      ghost var chunks0, mask := chunks, freeMask;
      while chunk.Some?
        invariant 0 <= a <= |chain| == |rows| && chunk == (if a < |chain| then Some(chain[a]) else None)
        invariant chain == old(chain) && rows == old(rows) && chunks0 == old(chunks) && ListOk(chunks0, chain, rows)
        invariant Freed(freeMask, mask, chain[..a]) && ClearedTo(chunks, chunks0, chain[..a])
        decreases |chain| - a
      {
        RowLinked(chunks0, chain, rows, a);
        Untouched(chunks, chunks0, chain, rows, a);
        var next := chunks[chunk.value].next;
        FreeOne(freeMask, mask, chunks, chunks0, chain, a);
        freeMask := freeMask[chunk.value := true];
        chunks := chunks[chunk.value := chunks[chunk.value].(next := None, used := 0)];
        chunk := next;
        a := a + 1;
      }
      assert chain[..a] == chain;
      AllFreed(freeMask, mask, mask0, chunks, chunks0, chain);
      head, tail, len := None, None, 0;
      chain, rows := [], [];
    }

    /** Record a page in the entry reserved last. */
    method Fill(page: LoadedPage)
      requires Valid() && Open()
      modifies this
      ensures Valid() && Pages() == old(Pages())[..|old(Pages())| - 1] + [page]
    {
      LastLinked(chunks, chain, rows);
      hide ListOk;
      var c := chunks[tail.value];
      ghost var row := rows[|rows| - 1];
      LastRow(chunks, chain, rows, c.(pages := c.pages[c.used - 1 := page]), row[|row| - 1 := page]);
      chunks := chunks[tail.value := c.(pages := c.pages[c.used - 1 := page])];
      SetLastRow(row[|row| - 1 := page]);
    }
  }

  /** `index` is the lowest free chunk. */
  ghost predicate LowestOf(index: nat, mask: seq<bool>) {
    index < |mask| && mask[index] && forall i :: 0 <= i < index ==> !mask[i]
  }

  lemma ListBounds(chunks: seq<Chunk>, chain: seq<nat>, rows: seq<seq<LoadedPage>>)
    requires ListOk(chunks, chain, rows)
    ensures |chunks| == CHUNK_COUNT && |chain| == |rows|
    ensures chain != [] ==> chain[0] < CHUNK_COUNT && chain[|chain| - 1] < CHUNK_COUNT
  {
    if chain != [] {
      assert Linked(chunks, chain, rows, 0) && Linked(chunks, chain, rows, |chain| - 1);
    }
  }

  lemma RowLinked(chunks: seq<Chunk>, chain: seq<nat>, rows: seq<seq<LoadedPage>>, a: nat)
    requires ListOk(chunks, chain, rows) && a < |chain|
    ensures |chain| == |rows| && Linked(chunks, chain, rows, a)
  {
  }

  /** The mask with the chunks in `done` set again. */
  ghost predicate Freed(now: seq<bool>, mask: seq<bool>, done: seq<nat>) {
    |now| == |mask| == CHUNK_COUNT && forall i :: 0 <= i < CHUNK_COUNT ==> now[i] == (mask[i] || i in done)
  }

  /** Only the chunks in `done` have been reset. */
  ghost predicate ClearedTo(now: seq<Chunk>, chunks: seq<Chunk>, done: seq<nat>) {
    && |now| == |chunks| == CHUNK_COUNT
    && forall i :: 0 <= i < CHUNK_COUNT ==> |now[i].pages| == CHUNK_CAP && (i !in done ==> now[i] == chunks[i])
  }

  lemma Untouched(now: seq<Chunk>, chunks: seq<Chunk>, chain: seq<nat>, rows: seq<seq<LoadedPage>>, a: nat)
    requires ListOk(chunks, chain, rows) && a < |chain| && ClearedTo(now, chunks, chain[..a])
    ensures chain[a] < CHUNK_COUNT == |now| && now[chain[a]] == chunks[chain[a]]
  {
    RowLinked(chunks, chain, rows, a);
  }

  lemma FreeOne(mask': seq<bool>, mask: seq<bool>, now: seq<Chunk>, chunks: seq<Chunk>, chain: seq<nat>, a: nat)
    requires a < |chain| && chain[a] < CHUNK_COUNT
    requires Freed(mask', mask, chain[..a]) && ClearedTo(now, chunks, chain[..a])
    ensures Freed(mask'[chain[a] := true], mask, chain[..a + 1])
    ensures ClearedTo(now[chain[a] := now[chain[a]].(next := None, used := 0)], chunks, chain[..a + 1])
  {
    assert chain[..a + 1] == chain[..a] + [chain[a]];
  }

  lemma AllFreed(now: seq<bool>, mask: seq<bool>, mask0: seq<bool>, chunks': seq<Chunk>, chunks: seq<Chunk>,
                 chain: seq<nat>)
    requires Freed(now, mask, chain) && MaskOk(mask, mask0, chain) && ClearedTo(chunks', chunks, chain)
    ensures now == mask0 && MaskOk(now, mask0, []) && ListOk(chunks', [], [])
  {
    forall i | 0 <= i < CHUNK_COUNT ensures now[i] == mask0[i] {
      if i in chain {
        var a :| 0 <= a < |chain| && chain[a] == i;
        assert mask0[chain[a]];
      }
    }
  }
}
