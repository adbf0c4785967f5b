/**
  The flat-binary loader (process.rs, `build_flat_image_inner`): code pages from
  USER_CODE_ADDR up, at least two, then one stack page.
 */
module Flat {
  import opened Prelude
  import opened Pmm
  import opened PageTables
  import opened Trees
  import opened Paging
  import opened Teardown
  import opened Cloning
  import opened CreateRoot
  import opened Fork
  import opened Provenance
  import opened Loading

  const FLAT_USER_LIMIT: nat := 0x500_0000

  datatype FlatLoadError = InvalidSize | AddressOverflow | Oversize | Oom | MappingCollision

  datatype FlatImage = FlatImage(root: Pml4Handle, userRsp: nat, stackLow: nat)

  datatype Result<T> = Built(value: T) | Failed(error: FlatLoadError)

  /** Number of code pages. */
  function CodePages(size: nat): nat {
    var needed := (size + 0xfff) / 0x1000;
    if needed < 2 then 2 else needed
  }

  function StackAddr(size: nat): nat {
    USER_CODE_ADDR + CodePages(size) * 0x1000
  }

  /** The checks on the size, before anything is allocated; sums at or above 2^64 overflow. */
  function SizeError(size: nat): Option<FlatLoadError> {
    if size == 0 then Some(InvalidSize)
    else if size + 0xfff >= U64 || StackAddr(size) + 0x1000 >= U64 then Some(AddressOverflow)
    else if StackAddr(size) + 0x1000 > FLAT_USER_LIMIT then Some(Oversize)
    else if OverlapsKernelScratch(USER_CODE_ADDR, StackAddr(size) + 0x1000) then Some(Oversize)
    else None
  }

  /** The image byte `x` bytes above USER_CODE_ADDR. */
  function FlatByte(data: seq<byte>, x: nat): byte {
    if x < |data| then data[x] else 0
  }

  /** One page of the image as the loader composes it: what is left of the source over a zeroed page. */
  function PageOf(data: seq<byte>, offset: nat): (page: PageBytes)
    ensures forall o :: 0 <= o < 0x1000 ==> page[o] == FlatByte(data, offset + o)
  {
    var left := if offset < |data| then |data| - offset else 0;
    var len := if left < 0x1000 then left else 0x1000;
    if len == 0 then ZeroPage() else data[offset..offset + len] + ZeroPage()[len..]
  }

  /** Code pages loaded so far: consecutive, each holding its part of the image. */
  ghost predicate CodeLoaded(m0: Memory, b: Memory, s: Sys, r: nat, pool: set<nat>, data: seq<byte>,
                             ps: seq<LoadedPage>) {
    && LoadState(m0, b, s, r, pool, ps, {}) && AllReach(s.mem, r, ps)
    && forall i :: 0 <= i < |ps| ==>
         ps[i].vaddr == USER_CODE_ADDR + i * 0x1000 && Get(s.mem, ps[i].frame) == DataFrame(PageOf(data, i * 0x1000))
  }

  /** Writing a frame in hand. */
  lemma FillLoading(m0: Memory, b: Memory, s: Sys, mem': Memory, r: nat, pool: set<nat>, ps: seq<LoadedPage>, g: nat)
    requires LoadState(m0, b, s, r, pool, ps, {g}) && AgreeExcept(s.mem, mem', {g})
    ensures LoadState(m0, b, s.(mem := mem'), r, pool, ps, {g})
    ensures forall i :: 0 <= i < |ps| ==> Get(mem', ps[i].frame) == Get(s.mem, ps[i].frame)
    ensures SameLookups(s.mem, mem', r, {})
    ensures AllReach(s.mem, r, ps) ==> AllReach(mem', r, ps)
  {
    hide Building, Tracks, Giant, SameNode, Lookup, UserReaches, SlotsExcept, Indices;
    FillHand(m0, s, mem', r, pool, g);
    SlotsSame(s.mem, mem', r);
    if AllReach(s.mem, r, ps) {
      forall i | 0 <= i < |ps| ensures UserReaches(mem', r, Indices(ps[i].vaddr)) {
        StateUserPage(m0, b, s, r, pool, ps, {g}, i);
        ReachSame(s.mem, mem', r, Indices(ps[i].vaddr));
      }
    }
    SameTracks(b, s.mem, mem', r, ps);
    forall i | 0 <= i < |ps| ensures Get(mem', ps[i].frame) == Get(s.mem, ps[i].frame) {
      TrackedFrame(m0, b, s, r, pool, ps, {g}, i);
    }
  }

  /** Allocate a frame, give it `content` if there is any, and map it at `v`. */
  method MapPage(m: Machine, r: nat, v: nat, content: Option<PageBytes>, ghost m0: Memory, ghost b: Memory,
                 ghost pool: set<nat>,
                 ghost ps: seq<LoadedPage>, ghost own: map<nat, Node>)
    returns (err: Option<FlatLoadError>, ghost own': map<nat, Node>, ghost x: LoadedPage)
    requires m.Valid() && m.pmm.Manages(pool) && LoadState(m0, b, m.S(own), r, pool, ps, {}) && PageOk(v)
    requires Lookup(m.mem, r, Indices(v)) == None
    modifies m, m.pmm
    ensures m.Valid() && m.cr3 == old(m.cr3) && m.pmm.Tail() == old(m.pmm.Tail())
    ensures LoadState(m0, b, m.S(own'), r, pool, if err.None? then ps + [x] else ps, {})
    ensures forall i :: 0 <= i < |ps| ==> Get(m.mem, ps[i].frame) == Get(old(m.mem), ps[i].frame)
    ensures err.None? ==> x.vaddr == v && (content.Some? ==> Get(m.mem, x.frame) == DataFrame(content.value))
    ensures err.Some? ==> err.value in {Oom, MappingCollision}
    ensures err.None? && AllReach(old(m.mem), r, ps) ==> AllReach(m.mem, r, ps + [x])
  {
    hide LoadState, Mappable, MapStep, Lookup, Indices, AllReach, UserReaches, MapSlots, Mapped, NoGiants;
    own', x := own, LoadedPage(v, 0);
    ghost var mem0 := m.mem;
    var page := m.pmm.Alloc();
    if page.None? {
      return Some(Oom), own, x;
    }
    x := LoadedPage(v, page.value);
    HandReady(m0, b, old(m.S(own)), r, pool, ps, v, x.frame);
    if content.Some? {
      ghost var s := m.S(own);
      m.mem := m.mem[page.value := DataFrame(content.value)];
      FillLoading(m0, b, s, m.mem, r, pool, ps, x.frame);
      assert Lookup(m.mem, r, Indices(v)) == None;
    }
    ghost var s1 := m.S(own);
    HandMaps(m0, b, s1, r, pool, ps, v, x.frame);
    var ok;
    ok, own' := m.TryMap4KTarget(Indices(v), page.value, PAGE_USER_RW, r, pool, own);
    MapTracks(m0, b, s1, m.S(own'), r, pool, ps, x, ok);
    if !ok {
      HandReturned(m0, b, m.S(own'), r, pool, ps, x.frame);
      m.Release(page.value, pool);
      return Some(MappingCollision), own', x;
    }
    StateGiants(m0, b, m.S(own'), r, pool, ps + [x], {});
    if AllReach(s1.mem, r, ps) {
      ReachMore(m0, b, s1, m.S(own'), r, pool, ps, {x.frame}, x);
    }
    err := None;
  }

  lemma NextVaddr(b: Memory, mem: Memory, r: nat, ps: seq<LoadedPage>)
    requires Tracks(b, mem, r, ps) && UserEmpty(b, r) && PageOk(USER_CODE_ADDR + |ps| * 0x1000)
    requires forall i :: 0 <= i < |ps| ==> ps[i].vaddr == USER_CODE_ADDR + i * 0x1000
    ensures Lookup(mem, r, Indices(USER_CODE_ADDR + |ps| * 0x1000)) == None
  {
    hide Lookup, Indices;
    var v := USER_CODE_ADDR + |ps| * 0x1000;
    PagePath(v);
    forall i | 0 <= i < |ps| ensures Indices(ps[i].vaddr) != Indices(v) {
      assert Tracked(b, mem, r, ps[i]);
      PageDistinct(ps[i].vaddr, v);
    }
    assert Indices(v) !in Paths(ps);
  }

  lemma CodeStep(m0: Memory, b: Memory, s: Sys, s': Sys, r: nat, pool: set<nat>, data: seq<byte>, ps: seq<LoadedPage>,
                 x: LoadedPage)
    requires CodeLoaded(m0, b, s, r, pool, data, ps) && LoadState(m0, b, s', r, pool, ps + [x], {})
    requires forall i :: 0 <= i < |ps| ==> Get(s'.mem, ps[i].frame) == Get(s.mem, ps[i].frame)
    requires x.vaddr == USER_CODE_ADDR + |ps| * 0x1000 && Get(s'.mem, x.frame) == DataFrame(PageOf(data, |ps| * 0x1000))
    requires AllReach(s'.mem, r, ps + [x])
    ensures CodeLoaded(m0, b, s', r, pool, data, ps + [x])
  {
    hide LoadState, AllReach;
  }

  lemma NextFree(m0: Memory, b: Memory, s: Sys, r: nat, pool: set<nat>, data: seq<byte>, ps: seq<LoadedPage>, v: nat)
    requires CodeLoaded(m0, b, s, r, pool, data, ps) && UserEmpty(b, r) && v == USER_CODE_ADDR + |ps| * 0x1000
    requires v < FLAT_USER_LIMIT
    ensures PageOk(v) && Lookup(s.mem, r, Indices(v)) == None
  {
    hide Building, NoGiants, Lookup, Indices, UserEmpty, Tracks;
    NextVaddr(b, s.mem, r, ps);
  }

  /** A built flat image: `pages` code pages, then the stack page, and nothing else. */
  ghost predicate FlatBuilt(m0: Memory, b: Memory, s: Sys, pool: set<nat>, data: seq<byte>, img: FlatImage,
                            ps: seq<LoadedPage>) {
    && SizeError(|data|).None? && UserEmpty(b, img.root.phys) && img.root.ownsUserLeaves
    && img.stackLow == StackAddr(|data|) && img.userRsp == StackAddr(|data|) + 0x1000
    && |ps| == CodePages(|data|) + 1 && LoadState(m0, b, s, img.root.phys, pool, ps, {})
    && AllReach(s.mem, img.root.phys, ps)
    && (forall i :: 0 <= i < |ps| ==> ps[i].vaddr == USER_CODE_ADDR + i * 0x1000)
    && (forall i :: 0 <= i < |ps| - 1 ==> Get(s.mem, ps[i].frame) == DataFrame(PageOf(data, i * 0x1000)))
  }

  /** The loop over the code pages. */
  method LoadCode(m: Machine, r: nat, data: seq<byte>, ghost m0: Memory, ghost b: Memory, ghost pool: set<nat>,
                  ghost own: map<nat, Node>)
    returns (err: Option<FlatLoadError>, ghost own': map<nat, Node>, ghost ps: seq<LoadedPage>)
    requires m.Valid() && m.pmm.Manages(pool) && LoadState(m0, b, m.S(own), r, pool, [], {}) && UserEmpty(b, r)
    requires SizeError(|data|).None?
    modifies m, m.pmm
    ensures m.Valid() && m.cr3 == old(m.cr3) && m.pmm.Tail() == old(m.pmm.Tail())
    ensures LoadState(m0, b, m.S(own'), r, pool, ps, {})
    ensures err.None? ==> |ps| == CodePages(|data|) && CodeLoaded(m0, b, m.S(own'), r, pool, data, ps)
    ensures err.Some? ==> err.value in {Oom, MappingCollision}
  {
    hide LoadState, Lookup, Indices, UserEmpty, PageOf, UserReaches;
    own', ps := own, [];
    var k, offset, v := 0, 0, USER_CODE_ADDR;
    while k < CodePages(|data|)
      invariant 0 <= k <= CodePages(|data|) && offset == k * 0x1000 && v == USER_CODE_ADDR + k * 0x1000 && |ps| == k
      invariant m.Valid() && m.cr3 == old(m.cr3) && m.pmm.Tail() == old(m.pmm.Tail())
      invariant CodeLoaded(m0, b, m.S(own'), r, pool, data, ps)
    {
      NextFree(m0, b, m.S(own'), r, pool, data, ps, v);
      ghost var s := m.S(own');
      ghost var x;
      err, own', x := MapPage(m, r, v, Some(PageOf(data, offset)), m0, b, pool, ps, own');
      if err.Some? {
        return;
      }
      CodeStep(m0, b, s, m.S(own'), r, pool, data, ps, x);
      ps := ps + [x];
      k, offset, v := k + 1, offset + 0x1000, v + 0x1000;
    }
    err := None;
  }

  /**
    Build a flat image under a new root. `data` is None for a null pointer. On failure the
    bitmap, CR3 and every frame that was in use are exactly as before.
   */
  method BuildFlatImage(m: Machine, data: Option<seq<byte>>)
    returns (res: Result<FlatImage>, ghost own: map<nat, Node>, ghost b: Memory, ghost ps: seq<LoadedPage>)
    requires m.Valid() && m.pmm.Manages(m.pmm.Free())
    requires Closed(m.mem, m.cr3, m.pmm.Free()) && NoGiants(m.mem, m.cr3)
    modifies m, m.pmm
    ensures m.Valid() && m.cr3 == old(m.cr3) && AgreeExcept(old(m.mem), m.mem, old(m.pmm.Free()))
    ensures res.Failed? ==> m.pmm.bits == old(m.pmm.bits)
    ensures data.None? ==> res == Failed(InvalidSize)
    ensures data.Some? && SizeError(|data.value|).Some? ==> res == Failed(SizeError(|data.value|).value)
    ensures data.Some? && SizeError(|data.value|).None? && res.Failed? ==> res.error in {Oom, MappingCollision}
    ensures res.Built? ==>
      data.Some? && FlatBuilt(old(m.mem), b, m.S(own), old(m.pmm.Free()), data.value, res.value, ps)
  {
    hide Closed, Building, ClonedRoot, LoadState, UserEmpty, NoGiants, Space, CreateRefused, PageOf, SizeError,
         CodeLoaded, AllReach;
    ghost var m0, pool, bits0 := m.mem, m.pmm.Free(), m.pmm.bits;
    own, b, ps := map[], m.mem, [];
    if data.None? {
      return Failed(InvalidSize), own, b, ps;
    }
    var sizeError := SizeError(|data.value|);
    if sizeError.Some? {
      return Failed(sizeError.value), own, b, ps;
    }
    var handle;
    handle, own := CreatePml4(m, false, map[]);
    if handle.None? {
      SameBitmap(bits0, m.pmm.bits, m.pmm.memoryStart, m.pmm.totalPages);
      return Failed(Oom), own, b, ps;
    }
    b := m.mem;
    var r := handle.value.phys;
    RootReadyToLoad(m0, m.cr3, m.S(own), r, pool);
    var err;
    err, own, ps := LoadCode(m, r, data.value, m0, b, pool, own);
    if err.Some? {
      Discard(m, handle.value, m0, b, pool, ps, own, bits0);
      return Failed(err.value), own, b, ps;
    }
    var stackAddr := StackAddr(|data.value|);
    ghost var s, x := m.S(own), LoadedPage(0, 0);
    InLimit(|data.value|);
    CodeReaches(m0, b, s, r, pool, data.value, ps);
    NextFree(m0, b, m.S(own), r, pool, data.value, ps, stackAddr);
    err, own, x := MapPage(m, r, stackAddr, None, m0, b, pool, ps, own);
    if err.Some? {
      Discard(m, handle.value, m0, b, pool, ps, own, bits0);
      return Failed(err.value), own, b, ps;
    }
    Finished(m0, b, s, m.S(own), pool, data.value, FlatImage(handle.value, stackAddr + 0x1000, stackAddr), ps, x);
    ps := ps + [x];
    StateAgrees(m0, b, m.S(own), r, pool, ps);
    res := Built(FlatImage(handle.value, stackAddr + 0x1000, stackAddr));
  }

  lemma CodeReaches(m0: Memory, b: Memory, s: Sys, r: nat, pool: set<nat>, data: seq<byte>, ps: seq<LoadedPage>)
    requires CodeLoaded(m0, b, s, r, pool, data, ps)
    ensures AllReach(s.mem, r, ps)
  {
    hide LoadState, AllReach;
  }

  lemma InLimit(size: nat)
    requires SizeError(size).None?
    ensures StackAddr(size) < FLAT_USER_LIMIT
  {
  }

  lemma Finished(m0: Memory, b: Memory, s: Sys, s': Sys, pool: set<nat>, data: seq<byte>, img: FlatImage,
                 ps: seq<LoadedPage>, x: LoadedPage)
    requires SizeError(|data|).None? && UserEmpty(b, img.root.phys) && img.root.ownsUserLeaves
    requires img.stackLow == StackAddr(|data|) && img.userRsp == StackAddr(|data|) + 0x1000
    requires |ps| == CodePages(|data|) && CodeLoaded(m0, b, s, img.root.phys, pool, data, ps)
    requires LoadState(m0, b, s', img.root.phys, pool, ps + [x], {}) && x.vaddr == StackAddr(|data|)
    requires forall i :: 0 <= i < |ps| ==> Get(s'.mem, ps[i].frame) == Get(s.mem, ps[i].frame)
    requires AllReach(s'.mem, img.root.phys, ps + [x])
    ensures FlatBuilt(m0, b, s', pool, data, img, ps + [x])
  {
    hide LoadState, UserEmpty, SizeError, AllReach;
  }

  /**
    Flat image meaning, for any two user pages x and y of the new root: x is mapped exactly when it
    is a code page or the stack page; it is read-write, programs reach it, on a frame that was free and that no
    other page shares; and a code page holds the source bytes, zero beyond them.
   */
  lemma FlatImageMeaning(m0: Memory, b: Memory, s: Sys, pool: set<nat>, data: seq<byte>, img: FlatImage,
                         ps: seq<LoadedPage>,
                         x: nat, y: nat)
    requires FlatBuilt(m0, b, s, pool, data, img, ps) && PageOk(x) && PageOk(y)
    ensures var r := img.root.phys;
      && (Lookup(s.mem, r, Indices(x)).Some? <==> x <= img.stackLow)
      && (Lookup(s.mem, r, Indices(x)).Some? ==>
          var f := Lookup(s.mem, r, Indices(x)).value.frame;
          && Lookup(s.mem, r, Indices(x)).value.flags == PAGE_USER_RW
          && Lookup(s.mem, r, Indices(x)).value.flags.writable && UserReaches(s.mem, r, Indices(x))
          && f in pool && f !in s.free
          && (x != y && Lookup(s.mem, r, Indices(y)).Some? ==> Lookup(s.mem, r, Indices(y)).value.frame != f)
          && (x < img.stackLow ==>
                forall o :: 0 <= o < 0x1000 ==> Bytes(s.mem, f)[o] == FlatByte(data, x - USER_CODE_ADDR + o)))
  {
    hide LoadState, Lookup, Indices, UserEmpty, SizeError, CodePages, UserReaches;
    var r := img.root.phys;
    RecordedPage(m0, b, s, r, pool, ps, x);
    RecordedPage(m0, b, s, r, pool, ps, y);
    var i := PageIndex(x);
    if i < |ps| {
      assert ps[i].vaddr == x;
      assert i < |ps| - 1 ==> Bytes(s.mem, ps[i].frame) == PageOf(data, i * 0x1000);
    }
  }

  /** Every byte of the source is there for programs. */
  lemma FlatHoldsAll(m0: Memory, b: Memory, s: Sys, pool: set<nat>, data: seq<byte>, img: FlatImage,
                     ps: seq<LoadedPage>, o: nat)
    requires FlatBuilt(m0, b, s, pool, data, img, ps) && o < |data|
    ensures var at := Lookup(s.mem, img.root.phys, Indices(0x200_0000 + o));
      && at.Some? && UserReaches(s.mem, img.root.phys, Indices(0x200_0000 + o))
      && Bytes(s.mem, at.value.frame)[o % 0x1000] == data[o]
  {
    hide LoadState, Lookup, Indices, UserEmpty, SizeError, CodePages, UserReaches, AllReach, PageOf;
    var x := 0x200_0000 + o - o % 0x1000;
    Layout(|data|);
    FlatImageMeaning(m0, b, s, pool, data, img, ps, x, x);
    SamePage(x, o % 0x1000);
    assert x + o % 0x1000 == 0x200_0000 + o;
  }

  /** The stack page is the first page from 0x2002000 up that is past the source; sizes up to 0x2FFF000 are accepted. */
  lemma Layout(size: nat)
    ensures var top := StackAddr(size);
      && top % 0x1000 == 0 && 0x200_2000 <= top && 0x200_0000 + size <= top
      && (top == 0x200_2000 || top - 0x1000 < 0x200_0000 + size)
    ensures SizeError(size).None? <==> 0 < size <= 0x2FFF000
    ensures size == 0 ==> SizeError(size) == Some(InvalidSize)
    ensures 0x2FFF000 < size < U64 / 2 ==> SizeError(size) == Some(Oversize)
  {
  }

  lemma PageIndex(x: nat) returns (i: nat)
    requires PageOk(x)
    ensures x == USER_CODE_ADDR + i * 0x1000
  {
    i := (x - USER_CODE_ADDR) / 0x1000;
  }
}
