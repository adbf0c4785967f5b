/**
  The physical memory manager (pmm.rs): one bit per 4 KiB page, true = allocated.
  Pages are named by frame number (physical address / 4096); bit i of the bitmap
  is frame `memoryStart + i`.
 */
module Pmm {
  import opened Prelude

  const PMM_MAX_PAGES: nat := 0x10000

  /** Frame `f` is managed by the allocator and its bit is clear. */
  predicate IsFree(bits: seq<bool>, memoryStart: nat, totalPages: nat, f: nat)
    requires totalPages <= |bits|
  {
    memoryStart <= f < memoryStart + totalPages && !bits[f - memoryStart]
  }

  /** The frames the allocator may still hand out. */
  function FreeFrames(bits: seq<bool>, memoryStart: nat, totalPages: nat): set<nat>
    requires totalPages <= |bits|
  {
    set f: nat | memoryStart <= f < memoryStart + totalPages && IsFree(bits, memoryStart, totalPages, f)
  }

  /** `a` is the lowest free page below `total`. */
  predicate LowestFree(bits: seq<bool>, total: nat, a: nat)
    requires total <= |bits|
  {
    a < total && !bits[a] && forall i: nat :: i < a ==> bits[i]
  }

  /** All of [a, a + n) lies below `total` and is free. */
  predicate RunFree(bits: seq<bool>, total: nat, a: nat, n: nat)
    requires total <= |bits|
  {
    a + n <= total && forall i: nat :: a <= i < a + n ==> !bits[i]
  }

  /** The bitmap with [a, a + n) marked allocated. */
  function Mark(bits: seq<bool>, a: nat, n: nat): (r: seq<bool>)
    requires a + n <= |bits|
    ensures |r| == |bits|
    ensures forall i: nat :: i < |bits| ==> r[i] == (bits[i] || a <= i < a + n)
  {
    seq(|bits|, i requires 0 <= i < |bits| => bits[i] || a <= i < a + n)
  }

  /** When `alloc_pages(count)` must succeed: the run starting at the lowest free page is long enough. */
  ghost predicate RunAtLowestFits(bits: seq<bool>, total: nat, count: nat)
    requires total <= |bits|
  {
    count > 0 && exists a: nat :: LowestFree(bits, total, a) && RunFree(bits, total, a, count)
  }

  /** The free frames and the unused tail determine the whole bitmap. */
  lemma SameBitmap(bits: seq<bool>, bits': seq<bool>, start: nat, total: nat)
    requires total <= |bits| == |bits'|
    requires FreeFrames(bits, start, total) == FreeFrames(bits', start, total) && bits[total..] == bits'[total..]
    ensures bits == bits'
  {
    forall i | 0 <= i < |bits| ensures bits[i] == bits'[i] {
      if i < total {
        assert start + i in FreeFrames(bits, start, total) <==> start + i in FreeFrames(bits', start, total);
      } else {
        assert bits[i] == bits[total..][i - total];
        assert bits'[i] == bits'[total..][i - total];
      }
    }
  }

  lemma NoRun(bits: seq<bool>, total: nat, count: nat)
    requires total <= |bits| && (count == 0 || forall i: nat :: i < total ==> bits[i])
    ensures !RunAtLowestFits(bits, total, count)
  {
  }

  lemma RunStarts(bits: seq<bool>, total: nat, a: nat)
    requires total <= |bits| && LowestFree(bits, total, a)
    ensures a < total && !bits[a] && RunFree(bits, total, a, 1) && bits[a := true] == Mark(bits, a, 1)
  {
  }

  /** The lowest free page is the one right after the run. */
  lemma RunGrows(bits: seq<bool>, total: nat, a: nat, i: nat)
    requires total <= |bits| && RunFree(bits, total, a, i) && LowestFree(Mark(bits, a, i), total, a + i)
    ensures RunFree(bits, total, a, i + 1) && Mark(bits, a, i)[a + i := true] == Mark(bits, a, i + 1)
  {
  }

  lemma OneLowest(bits: seq<bool>, total: nat, a: nat, b: nat)
    requires total <= |bits| && LowestFree(bits, total, a) && LowestFree(bits, total, b)
    ensures a == b
  {
  }

  /** The run may be handed out. */
  lemma RunFits(bits: seq<bool>, total: nat, a: nat, count: nat)
    requires total <= |bits| && LowestFree(bits, total, a) && RunFree(bits, total, a, count) && count > 0
    ensures RunAtLowestFits(bits, total, count)
  {
  }

  /** The lowest free page is another one, so no run of `count` starts at `a`. */
  lemma RunStops(bits: seq<bool>, marked: seq<bool>, total: nat, a: nat, i: nat, count: nat, p: Option<nat>)
    requires total <= |bits| && LowestFree(bits, total, a) && RunFree(bits, total, a, i) && i < count
    requires marked == Mark(bits, a, i)
    requires if p.Some? then LowestFree(marked, total, p.value) && p.value != a + i else forall k: nat :: k < total ==>
      marked[k]
    ensures !RunAtLowestFits(bits, total, count) && (p.Some? ==> p.value < total && !marked[p.value])
  {
    assert a + i < total ==> marked[a + i];
    assert !RunFree(bits, total, a, count);
    forall b: nat | LowestFree(bits, total, b) ensures b == a {
      OneLowest(bits, total, a, b);
    }
  }

  /** Clearing a marked run that was free gives the bitmap back. */
  lemma Unmarked(bits: seq<bool>, marked: seq<bool>, cleared: seq<bool>, total: nat, a: nat, i: nat)
    requires total <= |bits| == |cleared| && RunFree(bits, total, a, i) && marked == Mark(bits, a, i)
    requires forall k: nat :: k < |cleared| ==> cleared[k] == (marked[k] && !(a <= k < a + i))
    ensures cleared == bits
  {
  }

  class PmmAllocator {
    const memoryStart: nat
    const totalPages: nat
    var bits: seq<bool>

    ghost predicate Valid()
      reads this
    {
      |bits| == PMM_MAX_PAGES && totalPages <= PMM_MAX_PAGES && 0 < memoryStart
    }

    /** A manager of `pages` frames from frame `start`, with an arbitrary bitmap. */
    constructor (start: nat, pages: nat, bitmap: seq<bool>)
      requires 0 < start && pages <= PMM_MAX_PAGES == |bitmap|
      ensures Valid() && memoryStart == start && totalPages == pages && bits == bitmap
    {
      memoryStart, totalPages, bits := start, pages, bitmap;
    }

    /** Frames still available. */
    ghost function Free(): set<nat>
      requires Valid()
      reads this
    {
      FreeFrames(bits, memoryStart, totalPages)
    }

    /** The bits above `totalPages`, which allocation never looks at. */
    ghost function Tail(): seq<bool>
      requires Valid()
      reads this
    {
      bits[totalPages..]
    }

    /** All of `pool` is managed by this allocator. */
    ghost predicate Manages(pool: set<nat>)
    {
      forall f :: f in pool ==> memoryStart <= f < memoryStart + totalPages
    }

    /** First-fit single page; None models the null pointer. */
    method Alloc() returns (r: Option<nat>)
      requires Valid()
      modifies this
      ensures Valid() && Tail() == old(Tail())
      ensures r.None? ==> bits == old(bits) && Free() == {} && forall i: nat :: i < totalPages ==> bits[i]
      ensures r.Some? ==>
        && memoryStart <= r.value
        && LowestFree(old(bits), totalPages, r.value - memoryStart)
        && bits == old(bits)[r.value - memoryStart := true]
        && r.value in old(Free()) && Free() == old(Free()) - {r.value}
        && (forall f :: f in old(Free()) ==> r.value <= f)
    {
      var i := 0;
      while i < totalPages
        invariant 0 <= i <= totalPages && bits == old(bits)
        invariant forall k: nat :: k < i ==> bits[k]
      {
        if !bits[i] {
          bits := bits[i := true];
          return Some(memoryStart + i);
        }
        i := i + 1;
      }
      return None;
    }

    /** Clear the bit of frame `f`; frames outside the bitmap are ignored. */
    method FreePage(f: nat)
      requires Valid()
      modifies this
      ensures Valid()
      ensures bits ==
        if memoryStart <= f < memoryStart + 0x1_0000 then old(bits)[f - memoryStart := false] else old(bits)
      ensures Free() == if memoryStart <= f < memoryStart + totalPages then old(Free()) + {f} else old(Free())
      ensures !(memoryStart + totalPages <= f < memoryStart + PMM_MAX_PAGES) ==> Tail() == old(Tail())
    {
      if f < memoryStart {
        return;
      }
      var page := f - memoryStart;
      if page >= PMM_MAX_PAGES {
        return;
      }
      bits := bits[page := false];
    }

    /** Release the run of `n` frames from `first`. */
    method FreeRun(first: nat, n: nat)
      requires Valid() && memoryStart <= first && first + n <= memoryStart + PMM_MAX_PAGES
      modifies this
      ensures Valid() && |bits| == |old(bits)|
      ensures forall k: nat :: k < |bits| ==>
        bits[k] == (old(bits)[k] && !(first - memoryStart <= k < first - memoryStart + n))
    {
      var j := 0;
      while j < n
        invariant Valid() && 0 <= j <= n
        invariant forall k: nat :: k < |bits| ==>
          bits[k] == (old(bits)[k] && !(first - memoryStart <= k < first - memoryStart + j))
      {
        FreePage(first + j);
        j := j + 1;
      }
    }

    /**
      `count` consecutive pages, or None with the bitmap exactly as before. It
      succeeds exactly when the run that starts at the lowest free page is long
      enough: a longer run further up is never tried.
     */
    method AllocPages(count: nat) returns (r: Option<nat>)
      requires Valid()
      modifies this
      ensures Valid()
      ensures r.Some? <==> RunAtLowestFits(old(bits), totalPages, count)
      ensures r.None? ==> bits == old(bits)
      ensures r.Some? ==>
        && memoryStart <= r.value
        && LowestFree(old(bits), totalPages, r.value - memoryStart)
        && RunFree(old(bits), totalPages, r.value - memoryStart, count)
        && bits == Mark(old(bits), r.value - memoryStart, count)
    {
      hide Mark, FreeFrames, IsFree, LowestFree, RunAtLowestFits;
      if count == 0 {
        NoRun(bits, totalPages, count);
        return None;
      }
      var first := Alloc();
      if first.None? {
        NoRun(bits, totalPages, count);
        return None;
      }
      ghost var a := first.value - memoryStart;
      RunStarts(old(bits), totalPages, a);
      var i := 1;
      while i < count
        invariant Valid() && 1 <= i <= count
        invariant LowestFree(old(bits), totalPages, a) && RunFree(old(bits), totalPages, a, i)
        invariant bits == Mark(old(bits), a, i)
      {
        ghost var before := bits;
        var p := Alloc();
        if p.None? || p.value != first.value + i {
          RunStops(old(bits), before, totalPages, a, i, count, if p.Some? then Some(p.value - memoryStart) else None);
          if p.Some? {
            FreePage(p.value);
          }
          assert bits == before;
          FreeRun(first.value, i);
          Unmarked(old(bits), before, bits, totalPages, a, i);
          return None;
        }
        RunGrows(old(bits), totalPages, a, i);
        i := i + 1;
      }
      RunFits(old(bits), totalPages, a, count);
      return first;
    }
  }
}
