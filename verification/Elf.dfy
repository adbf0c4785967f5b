/**
  The ELF loader (elf.rs): mapping and filling the segments, rollback, and the whole
  image build with its stack.
 */
module Elf {
  import opened Prelude
  import opened Pmm
  import opened PageTables
  import opened Trees
  import opened Paging
  import opened Cloning
  import opened Teardown
  import opened CreateRoot
  import opened Fork
  import opened Isolation
  import opened Provenance
  import opened Loading
  import opened ElfFormat
  import opened Footprint
  import opened Accounting

  datatype Result<T> = Loaded(value: T) | Err(error: ElfError)

  // ----- Contents ---------------------------------------------------------------

  /** Memory after storing one byte of a data frame. */
  function Poke(mem: Memory, f: nat, o: nat, x: byte): Memory
    requires o < 0x1000
  {
    mem[f := DataFrame(Bytes(mem, f)[o := x])]
  }

  /** What the loader may rely on once the headers are accepted. */
  ghost predicate Sound(data: seq<byte>, phs: seq<Phdr>) {
    && FilesInside(phs, |data|)
    && (forall i :: 0 <= i < |phs| && phs[i].load ==> phs[i].filesz <= phs[i].memsz)
    && (forall i, x: nat :: 0 <= i < |phs| && SegPage(phs[i], x) ==> LowOrUser(x))
  }

  /** How far a load has come: `n` segments, and `c` file bytes of the next. */
  ghost predicate At(data: seq<byte>, phs: seq<Phdr>, n: nat, c: nat) {
    && Sound(data, phs) && n <= |phs| && (n == |phs| ==> c == 0)
    && (c > 0 ==> phs[n].load && c <= phs[n].filesz)
  }

  /** The frame of page `x` holds the image's bytes for that page. */
  ghost predicate Shows(data: seq<byte>, phs: seq<Phdr>, n: nat, c: nat, mem: Memory, x: LoadedPage)
    requires At(data, phs, n, c)
  {
    && Get(mem, x.frame).DataFrame?
    && forall o :: 0 <= o < 0x1000 ==> Bytes(mem, x.frame)[o] == WantPart(data, phs, n, c, x.vaddr + o)
  }

  ghost predicate Contents(data: seq<byte>, phs: seq<Phdr>, n: nat, c: nat, mem: Memory, ps: seq<LoadedPage>) {
    At(data, phs, n, c) && forall a :: 0 <= a < |ps| ==> Shows(data, phs, n, c, mem, ps[a])
  }

  /** Page `x` belongs to one of the first `n` segments, or to segment `n` below address `v`. */
  ghost predicate Reached(phs: seq<Phdr>, n: nat, v: nat, x: nat) {
    || (exists i :: 0 <= i < n && i < |phs| && SegPage(phs[i], x))
    || (n < |phs| && SegPage(phs[n], x) && x < v)
  }

  /** The recorded pages are exactly those reached. */
  ghost predicate PagesAre(phs: seq<Phdr>, n: nat, v: nat, ps: seq<LoadedPage>) {
    forall x: nat :: HasPage(ps, x) <==> Reached(phs, n, v, x)
  }

  // ----- One page ---------------------------------------------------------------

  lemma Kept(data: seq<byte>, phs: seq<Phdr>, n: nat, c: nat, mem: Memory, mem': Memory, ps: seq<LoadedPage>)
    requires Contents(data, phs, n, c, mem, ps)
    requires forall a :: 0 <= a < |ps| ==> Get(mem', ps[a].frame) == Get(mem, ps[a].frame)
    ensures Contents(data, phs, n, c, mem', ps)
  {
    forall a | 0 <= a < |ps| ensures Shows(data, phs, n, c, mem', ps[a]) {
      assert Shows(data, phs, n, c, mem, ps[a]);
      assert Bytes(mem', ps[a].frame) == Bytes(mem, ps[a].frame);
    }
  }

  /** A new zeroed page shows the image, since no earlier segment reaches it. */
  lemma ZeroShows(data: seq<byte>, phs: seq<Phdr>, n: nat, mem: Memory, ps: seq<LoadedPage>, x: LoadedPage)
    requires n < |phs| && Contents(data, phs, n, 0, mem, ps) && PagesAre(phs, n, x.vaddr, ps) && !HasPage(ps, x.vaddr)
    requires SegPage(phs[n], x.vaddr) && Get(mem, x.frame) == DataFrame(ZeroPage())
    ensures Contents(data, phs, n, 0, mem, ps + [x])
  {
    assert !Reached(phs, n, x.vaddr, x.vaddr);
    forall y: nat | x.vaddr <= y < x.vaddr + 0x1000 ensures WantPart(data, phs, n, 0, y) == 0 {
      WantUntouched(data, phs, n, x.vaddr, y);
    }
    ZeroShowsPage(data, phs, n, mem, x);
    var ps' := ps + [x];
    forall a | 0 <= a < |ps'| ensures Shows(data, phs, n, 0, mem, ps'[a]) {
      assert a < |ps| ==> Shows(data, phs, n, 0, mem, ps[a]);
    }
  }

  lemma ZeroShowsPage(data: seq<byte>, phs: seq<Phdr>, n: nat, mem: Memory, x: LoadedPage)
    requires At(data, phs, n, 0) && Get(mem, x.frame) == DataFrame(ZeroPage())
    requires forall y: nat :: x.vaddr <= y < x.vaddr + 0x1000 ==> WantPart(data, phs, n, 0, y) == 0
    ensures Shows(data, phs, n, 0, mem, x)
  {
    hide WantPart, Sound;
  }

  /** Recording page `v` of segment `n` moves the frontier on. */
  lemma NextPage(phs: seq<Phdr>, n: nat, v: nat, ps: seq<LoadedPage>, ps': seq<LoadedPage>)
    requires n < |phs| && SegPage(phs[n], v) && PagesAre(phs, n, v, ps)
    requires forall x: nat :: HasPage(ps', x) <==> HasPage(ps, x) || x == v
    ensures PagesAre(phs, n, v + 0x1000, ps')
  {
    forall x: nat ensures HasPage(ps', x) <==> Reached(phs, n, v + 0x1000, x) {
      assert HasPage(ps, x) <==> Reached(phs, n, v, x);
      if SegPage(phs[n], x) {
        Multiples(x, v);
      }
    }
  }

  /** Everything true while segment `n` is being mapped up to address `v`. */
  ghost predicate MappingSegment(m0: Memory, b: Memory, s: Sys, r: nat, pool: set<nat>, data: seq<byte>, phs: seq<Phdr>,
                                 n: nat, v: nat,
                                 ps: seq<LoadedPage>)
  {
    LoadState(m0, b, s, r, pool, ps, {}) && Contents(data, phs, n, 0, s.mem, ps) && PagesAre(phs, n, v, ps)
  }

  /** Zeroing a page just mapped and recorded. */
  lemma PageZeroed(m0: Memory, b: Memory, s: Sys, s': Sys, r: nat, pool: set<nat>, data: seq<byte>, phs: seq<Phdr>,
                   n: nat,
                   ps: seq<LoadedPage>, x: LoadedPage)
    requires MappingSegment(m0, b, s, r, pool, data, phs, n, x.vaddr, ps) && n < |phs| && SegPage(phs[n], x.vaddr)
    requires LoadState(m0, b, s', r, pool, ps + [x], {})
    requires forall a :: 0 <= a < |ps| ==> Get(s'.mem, ps[a].frame) == Get(s.mem, ps[a].frame)
    requires !HasPage(ps, x.vaddr)
    ensures MappingSegment(m0, b, s'.(mem := s'.mem[x.frame := DataFrame(ZeroPage())]), r, pool, data, phs, n,
                           x.vaddr + 0x1000, ps + [x])
    ensures SlotsExcept(s'.mem, s'.mem[x.frame := DataFrame(ZeroPage())], r, {})
  {
    hide LoadState, Contents, PagesAre, HasPage, SegPage, SlotsExcept;
    var mem' := s'.mem[x.frame := DataFrame(ZeroPage())];
    assert (ps + [x])[|ps|] == x;
    WriteTracks(m0, b, s', mem', r, pool, ps + [x], |ps|);
    forall a | 0 <= a < |ps| ensures Get(mem', ps[a].frame) == Get(s.mem, ps[a].frame) {
      TrackedFrame(m0, b, s', r, pool, ps + [x], {}, |ps|);
      assert (ps + [x])[a] == ps[a];
    }
    Kept(data, phs, n, 0, s.mem, mem', ps);
    ZeroShows(data, phs, n, mem', ps, x);
    forall y: nat ensures HasPage(ps + [x], y) <==> HasPage(ps, y) || y == x.vaddr {
      HasAppended(ps, x, y);
    }
    NextPage(phs, n, x.vaddr, ps, ps + [x]);
  }

  /** Map, record and zero page `v` of segment `n`, which no earlier segment has mapped. */
  method MapSegmentPage(m: Machine, lp: LoadedPages, r: nat, v: nat, ghost m0: Memory, ghost s0: Sys,
                        ghost pool: set<nat>, ghost data: seq<byte>, ghost phs: seq<Phdr>, ghost n: nat,
                        ghost own: map<nat, Node>)
    returns (err: Option<ElfError>, ghost own': map<nat, Node>)
    requires m.Valid() && m.pmm.Manages(pool) && lp.Valid() && LowOrUser(v) && n < |phs| && SegPage(phs[n], v)
    requires MappingSegment(m0, s0.mem, m.S(own), r, pool, data, phs, n, v, lp.Pages())
    requires !HasPage(lp.Pages(), v)
    requires Started(m0, s0, r, pool) && OnCourse(s0, m.mem, r, Capacity(lp.mask0), lp.Pages())
    modifies m, m.pmm, lp
    ensures m.Valid() && m.cr3 == old(m.cr3) && m.pmm.Tail() == old(m.pmm.Tail()) && lp.Valid()
    ensures LoadState(m0, s0.mem, m.S(own'), r, pool, lp.Pages(), {})
    ensures err == Fate(s0, r, Capacity(lp.mask0), Addrs(old(lp.Pages())), v)
    ensures err.None? ==> MappingSegment(m0, s0.mem, m.S(own'), r, pool, data, phs, n, v + 0x1000, lp.Pages())
    ensures err.None? ==> OnCourse(s0, m.mem, r, Capacity(lp.mask0), lp.Pages())
    ensures err.None? ==> Addrs(lp.Pages()) == Addrs(old(lp.Pages())) + [v]
    ensures err.Some? ==> lp.Pages() == old(lp.Pages())
    ensures err.Some? ==> Halted(s0, m.mem, r, Capacity(lp.mask0), Addrs(lp.Pages()) + [v], lp.Pages(), err.value)
  {
    hide LoadState, Lookup, Indices, Contents, PagesAre, HasPage, SegPage, LoadedPages.Valid, LoadedPages.Pages,
         LoadedPages.Open, Unmappable, Starved, LoadedPages.Spare, LoadedPages.Room, LowOrUser, Started, OnCourse,
         Addrs, Halted, MapSlots, Mapped, AttemptLeft, SlotsExcept, IsScratch, Left, PageOk, Paths, UserPages, Capacity,
         UserReaches;
    own' := own;
    ghost var ps, cap, s := lp.Pages(), Capacity(lp.mask0), m.S(own);
    Foresee(m0, s0, s, r, pool, cap, ps, v);
    AddrsLength(ps);
    if Lookup(m.mem, r, Indices(v)).Some? {
      HaltedClean(s0, m.mem, r, cap, ps, v, MappingCollision);
      return Some(MappingCollision), own;
    }
    lp.RoomLeft();
    var reserved := lp.Reserve();
    if !reserved {
      HaltedClean(s0, m.mem, r, cap, ps, v, MetadataOom);
      return Some(MetadataOom), own;
    }
    var page;
    page, own' := MapFreshPage(m, r, v, m0, s0.mem, pool, ps, own);
    if page.None? {
      lp.CancelReservation();
      assert lp.Pages() == ps;
      HaltedStarved(m0, s0, s, m.S(own'), r, pool, cap, ps, v);
      return Some(Oom), own';
    }
    ghost var x := LoadedPage(v, page.value);
    lp.Fill(LoadedPage(v, page.value));
    assert lp.Pages() == ps + [x];
    PageZeroed(m0, s0.mem, s, m.S(own'), r, pool, data, phs, n, ps, x);
    FrameFound(m0, s0.mem, m.S(own'), r, pool, ps, x);
    StateBooks(m0, s0.mem, s, r, pool, ps);
    CourseOn(s0, s.mem, m.mem, m.mem[x.frame := DataFrame(ZeroPage())], r, cap, ps, x);
    var target := Lookup(m.mem, r, Indices(v));
    m.mem := m.mem[target.value.frame := DataFrame(ZeroPage())];
    err := None;
  }

  lemma AddrsLength(ps: seq<LoadedPage>)
    ensures |Addrs(ps)| == |ps|
  {
  }

  lemma FrameFound(m0: Memory, b: Memory, s: Sys, r: nat, pool: set<nat>, ps: seq<LoadedPage>, x: LoadedPage)
    requires LoadState(m0, b, s, r, pool, ps + [x], {})
    ensures Lookup(s.mem, r, Indices(x.vaddr)) == Some(Mapping(x.frame, PAGE_USER_RW))
  {
    hide Building, Indices, Lookup, Tracks;
    assert (ps + [x])[|ps|] == x;
    PageMapped(b, s.mem, r, ps + [x], |ps|);
  }

  // ----- One segment ------------------------------------------------------------

  /** A page already recorded: the frontier passes it. */
  lemma PassPage(phs: seq<Phdr>, n: nat, v: nat, ps: seq<LoadedPage>)
    requires n < |phs| && SegPage(phs[n], v) && PagesAre(phs, n, v, ps) && HasPage(ps, v)
    ensures PagesAre(phs, n, v + 0x1000, ps)
  {
    NextPage(phs, n, v, ps, ps);
  }

  /** Before the first page of segment `n` nothing of it is reached; after the last, all of it. */
  lemma Frontier(phs: seq<Phdr>, n: nat, v: nat, w: nat, ps: seq<LoadedPage>)
    requires n < |phs| && PagesAre(phs, n, v, ps)
    requires forall x: nat :: SegPage(phs[n], x) ==> (x < v <==> x < w)
    ensures PagesAre(phs, n, w, ps)
  {
    forall x: nat ensures HasPage(ps, x) <==> Reached(phs, n, w, x) {
      assert HasPage(ps, x) <==> Reached(phs, n, v, x);
    }
  }

  lemma SegmentPage(data: seq<byte>, phs: seq<Phdr>, n: nat, v: nat)
    requires Sound(data, phs) && n < |phs| && SegPage(phs[n], v)
    ensures LowOrUser(v)
  {
  }

  lemma ContentsSound(data: seq<byte>, phs: seq<Phdr>, n: nat, c: nat, mem: Memory, ps: seq<LoadedPage>)
    requires Contents(data, phs, n, c, mem, ps)
    ensures Sound(data, phs) && n <= |phs|
  {
  }

  lemma InList(ps: seq<LoadedPage>, x: LoadedPage)
    requires x in ps
    ensures HasPage(ps, x.vaddr)
  {
  }

  lemma NotInList(ps: seq<LoadedPage>, v: nat)
    requires forall a :: 0 <= a < |ps| ==> ps[a].vaddr != v
    ensures !HasPage(ps, v)
  {
  }

  /** Map all pages of segment `n`, reusing those recorded for earlier segments. */
  method MapSegment(m: Machine, lp: LoadedPages, r: nat, ph: Phdr, ghost m0: Memory, ghost s0: Sys,
                    ghost pool: set<nat>, ghost data: seq<byte>, ghost phs: seq<Phdr>, ghost n: nat,
                    ghost own: map<nat, Node>)
    returns (err: Option<ElfError>, ghost own': map<nat, Node>)
    requires m.Valid() && m.pmm.Manages(pool) && lp.Valid() && n < |phs| && ph == phs[n] && ph.load
    requires MappingSegment(m0, s0.mem, m.S(own), r, pool, data, phs, n, 0, lp.Pages())
    requires Started(m0, s0, r, pool) && OnCourse(s0, m.mem, r, Capacity(lp.mask0), lp.Pages())
    requires Addrs(lp.Pages()) == Visits(phs, n)
    modifies m, m.pmm, lp
    ensures m.Valid() && m.cr3 == old(m.cr3) && m.pmm.Tail() == old(m.pmm.Tail()) && lp.Valid()
    ensures LoadState(m0, s0.mem, m.S(own'), r, pool, lp.Pages(), {})
    ensures err.None? ==>
      MappingSegment(m0, s0.mem, m.S(own'), r, pool, data, phs, n, Up(ph.vaddr + ph.memsz), lp.Pages())
    ensures err.None? ==>
      OnCourse(s0, m.mem, r, Capacity(lp.mask0), lp.Pages()) && Addrs(lp.Pages()) == Visits(phs, n + 1)
    ensures err.Some? ==> Halted(s0, m.mem, r, Capacity(lp.mask0), Visits(phs, n + 1), lp.Pages(), err.value)
  {
    hide LoadState, Contents, PagesAre, HasPage, LoadedPages.Valid, LoadedPages.Pages, Sound, Lookup, Indices,
         SegPage, Down, Up, Started, OnCourse, Addrs, Halted, Visit, Capacity, Fate, LowOrUser;
    own' := own;
    ContentsSound(data, phs, n, 0, m.mem, lp.Pages());
    var v, end := Down(ph.vaddr), Up(ph.vaddr + ph.memsz);
    AtStart(phs, n, lp.Pages());
    while v < end
      invariant v % 0x1000 == 0 && Down(ph.vaddr) <= v
      invariant m.Valid() && m.cr3 == old(m.cr3) && m.pmm.Tail() == old(m.pmm.Tail()) && lp.Valid()
      invariant MappingSegment(m0, s0.mem, m.S(own'), r, pool, data, phs, n, v, lp.Pages())
      invariant OnCourse(s0, m.mem, r, Capacity(lp.mask0), lp.Pages())
      invariant Visit(Addrs(lp.Pages()), v, end) == Visits(phs, n + 1)
    {
      NextAligned(ph, v);
      SegmentPage(data, phs, n, v);
      VisitStep(lp.Pages(), v, end);
      var tracked := lp.Find(v);
      if tracked.Some? {
        InList(lp.Pages(), LoadedPage(v, tracked.value));
        PassPage(phs, n, v, lp.Pages());
      } else {
        NotInList(lp.Pages(), v);
        err, own' := MapSegmentPage(m, lp, r, v, m0, s0, pool, data, phs, n, own');
        if err.Some? {
          HaltedLater(s0, m.mem, r, Capacity(lp.mask0), Addrs(lp.Pages()) + [v], Visits(phs, n + 1), lp.Pages(),
                      err.value);
          return;
        }
      }
      v := v + 0x1000;
    }
    VisitEnd(Addrs(lp.Pages()), v, end);
    AtEnd(phs, n, v, lp.Pages());
    err := None;
  }

  lemma VisitEnd(seen: seq<nat>, v: nat, end: nat)
    requires v >= end
    ensures Visit(seen, v, end) == seen
  {
  }

  /** Page `v` is passed when recorded, and is next otherwise. */
  lemma VisitStep(ps: seq<LoadedPage>, v: nat, end: nat)
    requires v < end
    ensures HasPage(ps, v) ==> Visit(Addrs(ps), v, end) == Visit(Addrs(ps), v + 0x1000, end)
    ensures !HasPage(ps, v) ==>
      Visit(Addrs(ps), v, end) == Visit(Addrs(ps) + [v], v + 0x1000, end) && Addrs(ps) + [v] <= Visit(Addrs(ps), v, end)
  {
    var vs := Addrs(ps);
    if HasPage(ps, v) {
      var a :| 0 <= a < |ps| && ps[a].vaddr == v;
      assert vs[a] == v;
    } else {
      assert v !in vs;
      VisitPrefix(vs + [v], v + 0x1000, end);
    }
  }

  lemma AtStart(phs: seq<Phdr>, n: nat, ps: seq<LoadedPage>)
    requires n < |phs| && PagesAre(phs, n, 0, ps)
    ensures PagesAre(phs, n, Down(phs[n].vaddr), ps)
  {
    Frontier(phs, n, 0, Down(phs[n].vaddr), ps);
  }

  lemma AtEnd(phs: seq<Phdr>, n: nat, v: nat, ps: seq<LoadedPage>)
    requires n < |phs| && PagesAre(phs, n, v, ps) && Up(phs[n].vaddr + phs[n].memsz) <= v
    ensures PagesAre(phs, n, Up(phs[n].vaddr + phs[n].memsz), ps)
  {
    Frontier(phs, n, v, Up(phs[n].vaddr + phs[n].memsz), ps);
  }

  lemma NextAligned(ph: Phdr, v: nat)
    requires ph.load && v % 0x1000 == 0 && Down(ph.vaddr) <= v < Up(ph.vaddr + ph.memsz)
    ensures SegPage(ph, v) && (v + 0x1000) % 0x1000 == 0
  {
  }

  /** A one-byte store to a mapped virtual address of root `r`. */
  function PokeVirtual(mem: Memory, r: nat, x: nat, value: byte): Memory
    requires Lookup(mem, r, Indices(x)).Some?
  {
    Poke(mem, Lookup(mem, r, Indices(x)).value.frame, x % 0x1000, value)
  }

  /** File byte `c` of segment `n` exists, its address is mapped, and storing it there goes one byte further. */
  ghost predicate CopyOk(m0: Memory, b: Memory, s: Sys, r: nat, pool: set<nat>, data: seq<byte>, phs: seq<Phdr>, n: nat,
                         c: nat,
                         ps: seq<LoadedPage>)
  {
    && n < |phs| && phs[n].offset + c < |data| && Lookup(s.mem, r, Indices(phs[n].vaddr + c)).Some?
    && var mem' := PokeVirtual(s.mem, r, phs[n].vaddr + c, data[phs[n].offset + c]);
       && LoadState(m0, b, s.(mem := mem'), r, pool, ps, {}) && Contents(data, phs, n, c + 1, mem', ps)
       && SlotsExcept(s.mem, mem', r, {})
  }

  /** Storing file byte `c` of segment `n` through the page tables. */
  lemma CopyStep(m0: Memory, b: Memory, s: Sys, r: nat, pool: set<nat>, data: seq<byte>, phs: seq<Phdr>, n: nat, c: nat,
                 ps: seq<LoadedPage>)
    requires n < |phs| && phs[n].load && c < phs[n].filesz
    requires LoadState(m0, b, s, r, pool, ps, {}) && Contents(data, phs, n, c, s.mem, ps)
    requires PagesAre(phs, n, Up(phs[n].vaddr + phs[n].memsz), ps)
    ensures CopyOk(m0, b, s, r, pool, data, phs, n, c, ps)
  {
    hide Building, Lookup, SameLookups, Indices, NoGiants, WantPart, Poke, Tracked, SlotsExcept;
    var ph := phs[n];
    var x := ph.vaddr + c;
    var v := Down(x);
    ContentsSound(data, phs, n, c, s.mem, ps);
    FilePage(ph, v, x);
    assert Reached(phs, n, Up(ph.vaddr + ph.memsz), v);
    var a :| 0 <= a < |ps| && ps[a].vaddr == v;
    SamePage(v, x - v);
    PageMapped(b, s.mem, r, ps, a);
    var mem' := Poke(s.mem, ps[a].frame, x % 0x1000, data[ph.offset + c]);
    PokeElsewhere(s.mem, ps[a].frame, x % 0x1000, data[ph.offset + c]);
    WriteTracks(m0, b, s, mem', r, pool, ps, a);
    TrackedFrame(m0, b, s, r, pool, ps, {}, a);
    forall k | 0 <= k < |ps| ensures Shows(data, phs, n, c + 1, mem', ps[k]) {
      assert Shows(data, phs, n, c, s.mem, ps[k]);
      if k == a {
        PokeShows(data, phs, n, c, s.mem, ps[a]);
      } else {
        Aligned(b, s.mem, r, ps, k);
        Multiples(ps[k].vaddr, v);
        Multiples(v, ps[k].vaddr);
        OtherShows(data, phs, n, c, s.mem, mem', ps[k]);
      }
    }
  }

  lemma Aligned(b: Memory, mem: Memory, r: nat, ps: seq<LoadedPage>, k: nat)
    requires Tracks(b, mem, r, ps) && k < |ps|
    ensures ps[k].vaddr % 0x1000 == 0 && forall a :: 0 <= a < |ps| && a != k ==> ps[a].vaddr != ps[k].vaddr
  {
    assert Tracked(b, mem, r, ps[k]);
  }

  lemma PokeElsewhere(mem: Memory, f: nat, o: nat, x: byte)
    requires o < 0x1000
    ensures AgreeExcept(mem, Poke(mem, f, o, x), {f})
  {
  }

  /** The page that holds the stored byte. */
  lemma PokeShows(data: seq<byte>, phs: seq<Phdr>, n: nat, c: nat, mem: Memory, y: LoadedPage)
    requires At(data, phs, n, c) && n < |phs| && phs[n].load && c < phs[n].filesz && phs[n].offset + c < |data|
    requires Shows(data, phs, n, c, mem, y) && y.vaddr == Down(phs[n].vaddr + c)
    ensures Shows(data, phs, n, c + 1, Poke(mem, y.frame, (phs[n].vaddr + c) % 0x1000, data[phs[n].offset + c]), y)
  {
    var x := phs[n].vaddr + c;
    var mem' := Poke(mem, y.frame, x % 0x1000, data[phs[n].offset + c]);
    forall o | 0 <= o < 0x1000 ensures Bytes(mem', y.frame)[o] == WantPart(data, phs, n, c + 1, y.vaddr + o) {
      PartStep(data, phs, n, c, y.vaddr + o);
    }
  }

  lemma PartStep(data: seq<byte>, phs: seq<Phdr>, n: nat, c: nat, x: nat)
    requires At(data, phs, n, c) && n < |phs| && phs[n].load && c < phs[n].filesz
    ensures At(data, phs, n, c + 1) && phs[n].offset + c < |data|
    ensures WantPart(data, phs, n, c + 1, x) ==
      if x == phs[n].vaddr + c then data[phs[n].offset + c] else WantPart(data, phs, n, c, x)
  {
  }

  /** Every other page. */
  lemma OtherShows(data: seq<byte>, phs: seq<Phdr>, n: nat, c: nat, mem: Memory, mem': Memory, y: LoadedPage)
    requires At(data, phs, n, c) && n < |phs| && phs[n].load && c < phs[n].filesz
    requires Shows(data, phs, n, c, mem, y) && Get(mem', y.frame) == Get(mem, y.frame)
    requires phs[n].vaddr + c < y.vaddr || y.vaddr + 0x1000 <= phs[n].vaddr + c
    ensures At(data, phs, n, c + 1) && Shows(data, phs, n, c + 1, mem', y)
  {
    assert Bytes(mem', y.frame) == Bytes(mem, y.frame);
    forall o | 0 <= o < 0x1000 ensures Bytes(mem', y.frame)[o] == WantPart(data, phs, n, c + 1, y.vaddr + o) {
      PartStep(data, phs, n, c, y.vaddr + o);
    }
  }

  /** With all its file bytes in, segment `n` is done. */
  lemma SegmentDone(m0: Memory, b: Memory, s: Sys, r: nat, pool: set<nat>, data: seq<byte>, phs: seq<Phdr>, n: nat,
                    c: nat,
                    ps: seq<LoadedPage>)
    requires n < |phs| && Contents(data, phs, n, c, s.mem, ps) && LoadState(m0, b, s, r, pool, ps, {})
    requires if phs[n].load then c == phs[n].filesz && PagesAre(phs, n, Up(phs[n].vaddr + phs[n].memsz), ps)
             else c == 0 && PagesAre(phs, n, 0, ps)
    ensures MappingSegment(m0, b, s, r, pool, data, phs, n + 1, 0, ps)
  {
    hide LoadState, PagesAre, Contents;
    DoneContents(data, phs, n, c, s.mem, ps);
    DonePages(phs, n, ps);
  }

  lemma DoneContents(data: seq<byte>, phs: seq<Phdr>, n: nat, c: nat, mem: Memory, ps: seq<LoadedPage>)
    requires n < |phs| && Contents(data, phs, n, c, mem, ps) && c == (if phs[n].load then phs[n].filesz else 0)
    ensures Contents(data, phs, n + 1, 0, mem, ps)
  {
    hide WantPart;
    forall a | 0 <= a < |ps| ensures Shows(data, phs, n + 1, 0, mem, ps[a]) {
      assert Shows(data, phs, n, c, mem, ps[a]);
      forall o | 0 <= o < 0x1000 ensures Bytes(mem, ps[a].frame)[o] == WantPart(data, phs, n + 1, 0, ps[a].vaddr + o) {
        DoneByte(data, phs, n, c, ps[a].vaddr + o);
      }
    }
  }

  lemma DoneByte(data: seq<byte>, phs: seq<Phdr>, n: nat, c: nat, x: nat)
    requires n < |phs| && At(data, phs, n, c) && c == (if phs[n].load then phs[n].filesz else 0)
    ensures WantPart(data, phs, n + 1, 0, x) == WantPart(data, phs, n, c, x)
  {
  }

  lemma DonePages(phs: seq<Phdr>, n: nat, ps: seq<LoadedPage>)
    requires n < |phs| && PagesAre(phs, n, if phs[n].load then Up(phs[n].vaddr + phs[n].memsz) else 0, ps)
    ensures PagesAre(phs, n + 1, 0, ps)
  {
    hide HasPage;
    var v := if phs[n].load then Up(phs[n].vaddr + phs[n].memsz) else 0;
    forall x: nat ensures HasPage(ps, x) <==> Reached(phs, n + 1, 0, x) {
      assert HasPage(ps, x) <==> Reached(phs, n, v, x);
      ReachedAll(phs, n, v, x);
    }
  }

  lemma ReachedAll(phs: seq<Phdr>, n: nat, v: nat, x: nat)
    requires n < |phs| && v == if phs[n].load then Up(phs[n].vaddr + phs[n].memsz) else 0
    ensures Reached(phs, n + 1, 0, x) <==> Reached(phs, n, v, x)
  {
    if SegPage(phs[n], x) {
      assert x < v;
    }
  }

  /** Copy the file bytes of segment `n` to its virtual address, with the target root active. */
  method CopySegment(m: Machine, r: nat, data: seq<byte>, ph: Phdr, ghost m0: Memory, ghost b: Memory,
                     ghost pool: set<nat>,
                     ghost phs: seq<Phdr>, ghost n: nat, ghost ps: seq<LoadedPage>, ghost own: map<nat, Node>)
    requires m.Valid() && n < |phs| && ph == phs[n] && ph.load
    requires MappingSegment(m0, b, m.S(own), r, pool, data, phs, n, Up(ph.vaddr + ph.memsz), ps)
    modifies m
    ensures m.Valid() && m.cr3 == old(m.cr3)
    ensures MappingSegment(m0, b, m.S(own), r, pool, data, phs, n + 1, 0, ps)
    ensures SlotsExcept(old(m.mem), m.mem, r, {})
  {
    hide LoadState, Contents, PagesAre, Lookup, Indices, SlotOf;
    var savedCr3 := m.cr3;
    m.cr3 := r;
    var c := 0;
    while c < ph.filesz
      invariant 0 <= c <= ph.filesz && m.Valid() && m.cr3 == r && m.pmm.bits == old(m.pmm.bits)
      invariant LoadState(m0, b, m.S(own), r, pool, ps, {}) && Contents(data, phs, n, c, m.mem, ps)
      invariant SlotsExcept(old(m.mem), m.mem, r, {})
    {
      CopyStep(m0, b, m.S(own), r, pool, data, phs, n, c, ps);
      m.mem := PokeVirtual(m.mem, m.cr3, ph.vaddr + c, data[ph.offset + c]);
      c := c + 1;
    }
    SegmentDone(m0, b, m.S(own), r, pool, data, phs, n, c, ps);
    m.cr3 := savedCr3;
  }

  // ----- Rollback ---------------------------------------------------------------

  /** Unmap one tracked page of the active root and free its frame. */
  method UndoPage(m: Machine, v: nat, ghost m0: Memory, ghost b: Memory, ghost pool: set<nat>,
                  ghost ps: seq<LoadedPage>, ghost own: map<nat, Node>, ghost t: Memory, ghost all: set<Path>)
    returns (ghost own': map<nat, Node>)
    requires m.Valid() && m.pmm.Manages(pool) && LoadState(m0, b, m.S(own), m.cr3, pool, ps, {})
    requires ps != [] && v == ps[0].vaddr
    requires Undoing(t, m.mem, m.cr3, all, ps)
    modifies m`mem, m.pmm
    ensures m.Valid() && m.pmm.Tail() == old(m.pmm.Tail())
    ensures LoadState(m0, b, m.S(own'), m.cr3, pool, ps[1..], {})
    ensures Undoing(t, m.mem, m.cr3, all, ps[1..])
  {
    hide LoadState, Indices, UnmapStep, Ok, Undoing, UnmapSlots, Big;
    ghost var s := m.S(own);
    UndoReady(m0, b, s, m.cr3, pool, ps);
    var entry;
    entry, own' := m.UnmapAndFreeEmpty(Indices(v), pool, own);
    UnmapTracks(m0, b, s, m.S(own'), m.cr3, pool, ps, entry);
    UndoingOn(m0, b, s, m.S(own'), m.cr3, pool, ps, entry, t, all);
    if entry.Some? {
      m.Release(entry.value.frame, pool);
    }
  }

  /** Since `t` the pages of `all` that are not in `ps` any more have been taken out. */
  ghost predicate Undoing(t: Memory, mem: Memory, r: nat, all: set<Path>, ps: seq<LoadedPage>) {
    Rooted(t, r, all) && UserPages(all) && Undone(t, mem, r, all, Paths(ps))
  }

  lemma UndoingOn(m0: Memory, b: Memory, s: Sys, s': Sys, r: nat, pool: set<nat>, ps: seq<LoadedPage>,
                  res: Option<Entry>, t: Memory, all: set<Path>)
    requires LoadState(m0, b, s, r, pool, ps, {}) && ps != [] && UnmapStep(s, s', r, pool, Indices(ps[0].vaddr), res)
    requires res.Some? && !Big(s.mem, r, Indices(ps[0].vaddr)) && UnmapSlots(s.mem, s'.mem, r, Indices(ps[0].vaddr))
    requires Undoing(t, s.mem, r, all, ps)
    ensures Undoing(t, s'.mem, r, all, ps[1..])
  {
    hide LoadState, Indices, Ok, Big, UnmapSlots, Rooted, UserPages, SlotOf, OnPaths, Swept, NoEmptyWalk;
    PathsTail(m0, b, s, r, pool, ps);
    UndoneStep(t, s.mem, s'.mem, r, all, Paths(ps), Indices(ps[0].vaddr));
  }

  lemma PathsTail(m0: Memory, b: Memory, s: Sys, r: nat, pool: set<nat>, ps: seq<LoadedPage>)
    requires LoadState(m0, b, s, r, pool, ps, {}) && ps != []
    ensures Indices(ps[0].vaddr) in Paths(ps) && Paths(ps[1..]) == Paths(ps) - {Indices(ps[0].vaddr)}
  {
    hide Indices, Building, NoGiants, Lookup, SameLookups, PageOk;
    var ps' := ps[1..];
    forall p: Path ensures p in Paths(ps') <==> p in Paths(ps) - {Indices(ps[0].vaddr)} {
      if p in Paths(ps) {
        PathsDrop(ps, p);
      }
      if p in Paths(ps') {
        var a :| 0 <= a < |ps'| && p == Indices(ps'[a].vaddr);
        assert ps'[a] == ps[a + 1];
        assert Tracked(b, s.mem, r, ps[0]) && Tracked(b, s.mem, r, ps[a + 1]);
        PageDistinct(ps[0].vaddr, ps[a + 1].vaddr);
      }
    }
  }

  lemma UndoReady(m0: Memory, b: Memory, s: Sys, r: nat, pool: set<nat>, ps: seq<LoadedPage>)
    requires LoadState(m0, b, s, r, pool, ps, {}) && ps != []
    ensures Ok(s, r, pool) && UserPage(Indices(ps[0].vaddr)) && NoGiants(s.mem, r)
    ensures !Big(s.mem, r, Indices(ps[0].vaddr))
  {
    hide Space, Indices, Big, HugeUser, Giant, Lookup;
    assert Tracked(b, s.mem, r, ps[0]);
    PagePath(ps[0].vaddr);
    NotBig(m0, s, r, pool, Indices(ps[0].vaddr));
  }

  /** Undo the pages of one chunk, the first of those still tracked. */
  method UndoChunk(m: Machine, c: Chunk, ghost m0: Memory, ghost b: Memory, ghost pool: set<nat>,
                   ghost ps: seq<LoadedPage>, ghost own: map<nat, Node>, ghost t: Memory, ghost all: set<Path>)
    returns (ghost own': map<nat, Node>)
    requires m.Valid() && m.pmm.Manages(pool) && LoadState(m0, b, m.S(own), m.cr3, pool, ps, {})
    requires c.used <= |c.pages| && c.used <= |ps| && c.pages[..c.used] == ps[..c.used]
    requires Undoing(t, m.mem, m.cr3, all, ps)
    modifies m`mem, m.pmm
    ensures m.Valid() && m.pmm.Tail() == old(m.pmm.Tail())
    ensures LoadState(m0, b, m.S(own'), m.cr3, pool, ps[c.used..], {})
    ensures Undoing(t, m.mem, m.cr3, all, ps[c.used..])
    ensures c.used == 0 ==> m.mem == old(m.mem) && m.pmm.bits == old(m.pmm.bits)
  {
    hide LoadState, Undoing;
    own' := own;
    var o := 0;
    assert ps[0..] == ps;
    while o < c.used
      invariant 0 <= o <= c.used && m.Valid() && m.pmm.Tail() == old(m.pmm.Tail())
      invariant LoadState(m0, b, m.S(own'), m.cr3, pool, ps[o..], {}) && Undoing(t, m.mem, m.cr3, all, ps[o..])
      invariant c.used == 0 ==> m.mem == old(m.mem) && m.pmm.bits == old(m.pmm.bits)
    {
      assert c.pages[o] == c.pages[..c.used][o] == ps[o] == ps[o..][0];
      assert ps[o..][1..] == ps[o + 1..];
      own' := UndoPage(m, c.pages[o].vaddr, m0, b, pool, ps[o..], own', t, all);
      o := o + 1;
    }
  }

  /** Undo everything recorded, chunk by chunk. */
  method Rollback(m: Machine, lp: LoadedPages, r: nat, ghost m0: Memory, ghost b: Memory, ghost pool: set<nat>,
                  ghost own: map<nat, Node>)
    returns (ghost own': map<nat, Node>)
    requires m.Valid() && m.pmm.Manages(pool) && lp.Valid() && LoadState(m0, b, m.S(own), r, pool, lp.Pages(), {})
    requires Rooted(m.mem, r, Paths(lp.Pages()))
    modifies m, m.pmm
    ensures m.Valid() && m.cr3 == old(m.cr3) && m.pmm.Tail() == old(m.pmm.Tail())
    ensures LoadState(m0, b, m.S(own'), r, pool, [], {})
    ensures Undone(old(m.mem), m.mem, r, Paths(lp.Pages()), {})
    ensures lp.Pages() == [] ==> m.mem == old(m.mem) && m.pmm.bits == old(m.pmm.bits)
  {
    hide LoadState, ListOk, MaskOk, Flat, Rooted, Undone, UserPages, Paths;
    ListBounds(lp.chunks, lp.chain, lp.rows);
    StateBooks(m0, b, m.S(own), r, pool, lp.Pages());
    ghost var t, all := m.mem, Paths(lp.Pages());
    UndoneStart(t, r, all);
    var savedCr3 := m.cr3;
    m.cr3 := r;
    own' := own;
    var chunk := lp.head;
    ghost var a := 0;
    ghost var rest := lp.Pages();
    RowsFrom(lp.rows);
    while chunk.Some?
      invariant 0 <= a <= |lp.chain| == |lp.rows| && chunk == (if a < |lp.chain| then Some(lp.chain[a]) else None)
      invariant m.Valid() && m.cr3 == r && m.pmm.Tail() == old(m.pmm.Tail())
      invariant rest == From(lp.rows, a) && LoadState(m0, b, m.S(own'), r, pool, rest, {})
      invariant Undoing(t, m.mem, r, all, rest)
      invariant lp.Pages() == [] ==> rest == [] && m.mem == old(m.mem) && m.pmm.bits == old(m.pmm.bits)
      decreases |lp.chain| - a
    {
      RowHead(lp.chunks, lp.chain, lp.rows, a);
      var c := lp.chunks[chunk.value];
      own' := UndoChunk(m, c, m0, b, pool, rest, own', t, all);
      rest := rest[c.used..];
      chunk := c.next;
      a := a + 1;
    }
    NoPaths();
    m.cr3 := savedCr3;
  }

  lemma NoPaths()
    ensures Paths([]) == {}
  {
  }

  /** The entries of rows `a` and up. */
  ghost function From(rows: seq<seq<LoadedPage>>, a: nat): seq<LoadedPage>
    decreases |rows| - a
  {
    if a >= |rows| then [] else rows[a] + From(rows, a + 1)
  }

  lemma RowHead(chunks: seq<Chunk>, chain: seq<nat>, rows: seq<seq<LoadedPage>>, a: nat)
    requires ListOk(chunks, chain, rows) && a < |chain|
    ensures |chain| == |rows| && chain[a] < |chunks|
    ensures var c := chunks[chain[a]];
      && c.used <= |c.pages| && c.used <= |From(rows, a)| && c.pages[..c.used] == From(rows, a)[..c.used]
      && From(rows, a)[c.used..] == From(rows, a + 1)
      && c.next == (if a + 1 < |chain| then Some(chain[a + 1]) else None)
  {
    RowLinked(chunks, chain, rows, a);
  }

  lemma RowsFrom(rows: seq<seq<LoadedPage>>)
    ensures From(rows, 0) == Flat(rows)
  {
    assert rows[..|rows|] == rows;
    RowsSplit(rows, |rows|);
    RowsSplit(rows, 0);
  }

  lemma {:induction false} RowsSplit(rows: seq<seq<LoadedPage>>, a: nat)
    requires a <= |rows|
    ensures Flat(rows[..a]) + From(rows, a) == Flat(rows)
    decreases |rows| - a
  {
    if a == |rows| {
      assert rows[..a] == rows;
    } else {
      RowsSplit(rows, a + 1);
      FlatPrefix(rows, a);
      assert Flat(rows[..a]) + (rows[a] + From(rows, a + 1)) == Flat(rows[..a]) + rows[a] + From(rows, a + 1);
    }
  }

  // ----- The whole load ---------------------------------------------------------

  /** A loaded image: all segments in, on exactly their pages. */
  ghost predicate ImageLoaded(m0: Memory, b: Memory, s: Sys, r: nat, pool: set<nat>, data: seq<byte>, phs: seq<Phdr>,
                              ps: seq<LoadedPage>) {
    MappingSegment(m0, b, s, r, pool, data, phs, |phs|, 0, ps)
  }

  /** Pages of every segment lie below 512 GiB. */
  ghost predicate InScope(phs: seq<Phdr>) {
    forall i, x: nat :: 0 <= i < |phs| && SegPage(phs[i], x) ==> x < 0x80_0000_0000
  }

  lemma AcceptedSound(data: seq<byte>, phs: seq<Phdr>, entry: nat)
    requires Loadable(phs, |data|, entry) && InScope(phs)
    ensures Sound(data, phs)
  {
  }

  lemma NothingYet(m0: Memory, b: Memory, s: Sys, r: nat, pool: set<nat>, data: seq<byte>, phs: seq<Phdr>)
    requires LoadState(m0, b, s, r, pool, [], {}) && Sound(data, phs)
    ensures MappingSegment(m0, b, s, r, pool, data, phs, 0, 0, [])
  {
    hide LoadState, Sound;
  }

  /** The loop over the program headers. */
  method LoadSegments(m: Machine, lp: LoadedPages, r: nat, data: seq<byte>, phs: seq<Phdr>, ghost m0: Memory,
                      ghost s0: Sys, ghost pool: set<nat>, ghost own: map<nat, Node>)
    returns (err: Option<ElfError>, ghost own': map<nat, Node>)
    requires m.Valid() && m.pmm.Manages(pool) && lp.Valid() && lp.Pages() == []
    requires MappingSegment(m0, s0.mem, m.S(own), r, pool, data, phs, 0, 0, [])
    requires Started(m0, s0, r, pool) && s0 == m.S(own)
    modifies m, m.pmm, lp
    ensures m.Valid() && m.cr3 == old(m.cr3) && m.pmm.Tail() == old(m.pmm.Tail()) && lp.Valid()
    ensures LoadState(m0, s0.mem, m.S(own'), r, pool, lp.Pages(), {})
    ensures err.None? ==> ImageLoaded(m0, s0.mem, m.S(own'), r, pool, data, phs, lp.Pages())
    ensures err.None? ==>
      OnCourse(s0, m.mem, r, Capacity(lp.mask0), lp.Pages()) && Addrs(lp.Pages()) == Visits(phs, |phs|)
    ensures err.Some? ==> Halted(s0, m.mem, r, Capacity(lp.mask0), Visits(phs, |phs|), lp.Pages(), err.value)
  {
    hide LoadState, Contents, PagesAre, LoadedPages.Valid, LoadedPages.Pages, Lookup, Indices, Started, OnCourse,
         Addrs, Halted, Visit, Capacity, SlotsExcept, Down, Up;
    own' := own;
    CourseStart(s0, r, Capacity(lp.mask0));
    var i := 0;
    while i < |phs|
      invariant 0 <= i <= |phs|
      invariant m.Valid() && m.cr3 == old(m.cr3) && m.pmm.Tail() == old(m.pmm.Tail()) && lp.Valid()
      invariant MappingSegment(m0, s0.mem, m.S(own'), r, pool, data, phs, i, 0, lp.Pages())
      invariant OnCourse(s0, m.mem, r, Capacity(lp.mask0), lp.Pages()) && Addrs(lp.Pages()) == Visits(phs, i)
    {
      if phs[i].load {
        err, own' := MapSegment(m, lp, r, phs[i], m0, s0, pool, data, phs, i, own');
        if err.Some? {
          VisitsPrefix(phs, i + 1, |phs|);
          HaltedLater(s0, m.mem, r, Capacity(lp.mask0), Visits(phs, i + 1), Visits(phs, |phs|), lp.Pages(), err.value);
          return;
        }
        ghost var mem := m.mem;
        CopySegment(m, r, data, phs[i], m0, s0.mem, pool, phs, i, lp.Pages(), own');
        CourseWrite(s0, mem, m.mem, r, Capacity(lp.mask0), lp.Pages());
      } else {
        SegmentDone(m0, s0.mem, m.S(own'), r, pool, data, phs, i, 0, lp.Pages());
      }
      i := i + 1;
    }
    err := None;
  }

  /** What a load comes to: an error with every translation of the root as before, or the whole image. */
  ghost predicate LoadOutcome(m0: Memory, b: Memory, s: Sys, r: nat, pool: set<nat>, data: seq<byte>, res: Result<nat>,
                              ps: seq<LoadedPage>) {
    match res
    case Err(e) =>
      && LoadState(m0, b, s, r, pool, [], {}) && ps == []
      && (HeaderError(data).Some? ==> HeaderError(data) == Some(e))
      && (HeaderError(data).None? ==>
          if Loadable(Phdrs(data), |data|, EntryPoint(data)) then e in {MappingCollision, MetadataOom, Oom}
          else FirstError(Phdrs(data), |data|, EntryPoint(data), e))
    case Loaded(entry) =>
      && HeaderError(data).None? && Loadable(Phdrs(data), |data|, EntryPoint(data)) && entry == EntryPoint(data)
      && ImageLoaded(m0, b, s, r, pool, data, Phdrs(data), ps) && AllReach(s.mem, r, ps)
  }

  /**
    A loadable image loads unless one of its pages fails; then the error is that page's, and the frames come
    back or not.
   */
  ghost predicate LoadFate(s0: Sys, free: set<nat>, r: nat, cap: nat, vs: seq<nat>, res: Result<nat>) {
    var k := StopAt(s0, r, cap, vs, 0);
    match res
    case Loaded(_) => k == |vs|
    case Err(e) =>
      && k < |vs| && Fate(s0, r, cap, vs[..k], vs[k]) == Some(e)
      && (free == s0.free <==> Restores(s0, r, cap, vs[..k], vs[k]))
  }

  /** Load an ELF executable into root `r`; the page records go back to the arena either way. */
  method Load(m: Machine, lp: LoadedPages, r: nat, data: seq<byte>, ghost m0: Memory, ghost pool: set<nat>,
              ghost own: map<nat, Node>)
    returns (res: Result<nat>, ghost own': map<nat, Node>, ghost ps: seq<LoadedPage>)
    requires m.Valid() && m.pmm.Manages(pool) && lp.Valid() && lp.chain == [] && Started(m0, m.S(own), r, pool)
    requires HeaderError(data).None? && Loadable(Phdrs(data), |data|, EntryPoint(data)) ==> InScope(Phdrs(data))
    modifies m, m.pmm, lp
    ensures m.Valid() && m.cr3 == old(m.cr3) && m.pmm.Tail() == old(m.pmm.Tail())
    ensures lp.Valid() && lp.chain == [] && lp.freeMask == old(lp.freeMask)
    ensures LoadOutcome(m0, old(m.mem), m.S(own'), r, pool, data, res, ps)
    ensures HeaderError(data).None? && Loadable(Phdrs(data), |data|, EntryPoint(data)) ==>
      LoadFate(old(m.S(own)), m.pmm.Free(), r, Capacity(old(lp.freeMask)), Visits(Phdrs(data), PhNum(data)), res)
  {
    hide LoadState, LowMapped, Loadable, FirstError, InScope, HeaderError, MappingSegment, ListOk, Phdrs, Capacity,
         Visits,
         Halted, OnCourse, Undone, Rooted, Addrs, Fate, Restores;
    own', ps := own, [];
    ghost var s0, b := m.S(own), m.mem;
    EmptyMask(lp.freeMask, lp.mask0);
    EmptyRows(lp.chunks, lp.rows);
    var headerError := HeaderError(data);
    if headerError.Some? {
      return Err(headerError.value), own, [];
    }
    HeaderLength(data);
    var phs, entry := Phdrs(data), EntryPoint(data);
    var imageError := Validate(phs, |data|, entry);
    if imageError.Some? {
      return Err(imageError.value), own, [];
    }
    AcceptedSound(data, phs, entry);
    NothingYet(m0, b, m.S(own), r, pool, data, phs);
    var err;
    err, own' := LoadSegments(m, lp, r, data, phs, m0, s0, pool, own);
    if err.Some? {
      HaltedError(s0, m.mem, r, Capacity(lp.mask0), Visits(phs, |phs|), lp.Pages(), err.value);
      ghost var t := m.mem;
      own' := Rollback(m, lp, r, m0, b, pool, own');
      RolledBack(m0, s0, t, m.S(own'), r, pool, Capacity(lp.mask0), Visits(phs, |phs|), lp.Pages(), err.value);
      res := Err(err.value);
    } else {
      Completed(s0, m.mem, r, Capacity(lp.mask0), Visits(phs, |phs|), lp.Pages());
      CourseReaches(m0, s0, m.S(own'), r, pool, Capacity(lp.mask0), lp.Pages());
      ps := lp.Pages();
      res := Loaded(entry);
    }
    lp.ReleaseMetadata();
  }

  lemma HaltedError(s0: Sys, t: Memory, r: nat, cap: nat, vs: seq<nat>, ps: seq<LoadedPage>, e: ElfError)
    requires Halted(s0, t, r, cap, vs, ps, e)
    ensures Rooted(t, r, Paths(ps)) && e in {MappingCollision, MetadataOom, Oom}
  {
    hide Clear, Rooted, Leaked, Grown, Left, Lookup, IsScratch, Indices;
  }

  lemma HeaderLength(data: seq<byte>)
    requires HeaderError(data).None?
    ensures |data| >= 64 && |Phdrs(data)| == PhNum(data)
  {
  }

  lemma EmptyMask(mask: seq<bool>, mask0: seq<bool>)
    requires MaskOk(mask, mask0, [])
    ensures mask == mask0
  {
  }

  lemma EmptyRows(chunks: seq<Chunk>, rows: seq<seq<LoadedPage>>)
    requires ListOk(chunks, [], rows)
    ensures rows == [] && Flat(rows) == []
  {
  }

  // ----- Two inputs ---------------------------------------------------------------

  /** The first 32 MiB mapped by 2 MiB kernel pages. */
  function LowDirectory(): Table {
    seq(512, j => if 0 <= j < 16 then Entry(j * 512, PAGE_KERNEL.(huge := true)) else ZERO_ENTRY)
  }

  /** A table with one entry, for the table in frame `f`. */
  function OneTable(f: nat): Table {
    ZeroTable()[0 := Entry(f, PAGE_KERNEL)]
  }

  /** A new root as the image loaders get it: the kernel's low map and nothing else, with two frames left. */
  function SmallRoot(): Sys {
    Sys(map[0x500 := TableFrame(OneTable(0x501)), 0x501 := TableFrame(OneTable(0x502)),
            0x502 := TableFrame(LowDirectory())],
        map[0x500 := Root, 0x501 := Pdpt, 0x502 := Pd(0)], {0x503, 0x504})
  }

  const SMALL_POOL: set<nat> := {0x500, 0x501, 0x502, 0x503, 0x504}

  lemma SmallRootReads()
    ensures var mem := SmallRoot().mem;
      && TopEntry(mem, 0x500) == Entry(0x501, PAGE_KERNEL) && PdptEntry(mem, 0x500, 0) == Entry(0x502, PAGE_KERNEL)
      && (forall i: Idx :: i > 0 ==> Entries(mem, 0x500)[i] == ZERO_ENTRY && PdptEntry(mem, 0x500, i) == ZERO_ENTRY)
      && (forall j: Idx :: PdEntry(mem, 0x500, 0, j) == LowDirectory()[j])
  {
  }

  lemma SmallRootLive(n: Node)
    ensures Live(SmallRoot().mem, 0x500, n) <==> n in {Root, Pdpt, Pd(0)}
  {
    SmallRootReads();
  }

  lemma SmallRootSpace()
    ensures Space(SmallRoot().mem, 0x500, SmallRoot().own, SMALL_POOL)
  {
    hide Live;
    var s := SmallRoot();
    SmallRootReads();
    forall n: Node ensures Live(s.mem, 0x500, n) <==> n in {Root, Pdpt, Pd(0)} {
      SmallRootLive(n);
    }
  }

  lemma SmallRootLookup(p: Path)
    requires p.l4 == 0
    ensures Lookup(SmallRoot().mem, 0x500, p).Some? <==> !InUser(p.l3, p.l2)
    ensures InUser(p.l3, p.l2) ==> Missing(SmallRoot().mem, 0x500, p) == if p.l3 == 0 then 1 else 2
  {
    SmallRootReads();
  }

  lemma SmallRootStarted()
    ensures Started(SmallRoot().mem, SmallRoot(), 0x500, SMALL_POOL) && |SmallRoot().free| == 2
  {
    hide Space, Lookup, SmallRoot;
    SmallRootSpace();
    SmallRootBuilding();
    forall p: Path | p.l4 == 0 && !InUser(p.l3, p.l2) ensures Lookup(SmallRoot().mem, 0x500, p).Some? {
      SmallRootLookup(p);
    }
    NoPaths();
  }

  lemma SmallRootBuilding()
    ensures var s := SmallRoot(); |s.free| == 2 && Building(s.mem, s, 0x500, SMALL_POOL, {}) && NoGiants(s.mem, 0x500)
  {
    hide Space, Giant, HugeUser, SmallRoot;
    SmallRootSpace();
    SmallRootFrames();
    var s := SmallRoot();
    assert s.free + s.own.Keys + {} == s.free + s.own.Keys;
    forall i: Idx ensures !Giant(s.mem, 0x500, i) {
      SmallRootHuge(i, 0);
    }
    forall i: Idx, j: Idx ensures !HugeUser(s.mem, 0x500, i, j) {
      SmallRootHuge(i, j);
    }
  }

  lemma SmallRootFrames()
    ensures var s := SmallRoot(); |s.free| == 2 && s.free !! s.own.Keys && s.free + s.own.Keys == SMALL_POOL
  {
  }

  lemma SmallRootHuge(i: Idx, j: Idx)
    ensures !Giant(SmallRoot().mem, 0x500, i) && !HugeUser(SmallRoot().mem, 0x500, i, j)
  {
    SmallRootReads();
  }

  /** An executable with pages of zeros from `lo` to `hi`, entered at the first, and an empty segment at `at`. */
  function TwoSegments(lo: nat, hi: nat, at: nat): seq<byte>
    requires lo <= hi
  {
    FileHeader(lo, 2) + SegmentHeader(lo, hi) + SegmentHeader(at, at)
  }

  lemma TwoSegmentsRead(lo: nat, hi: nat, at: nat)
    requires lo <= hi < U64 && at < U64
    ensures var data := TwoSegments(lo, hi, at);
      && HeaderError(data).None? && |data| == 176 && EntryPoint(data) == lo && PhNum(data) == 2
      && Phdrs(data) == [Phdr(true, true, 0, lo, 0, hi - lo), Phdr(true, true, 0, at, 0, 0)]
  {
    hide FileHeader, SegmentHeader, Read;
    var data := TwoSegments(lo, hi, at);
    var h, s1, s2 := FileHeader(lo, 2), SegmentHeader(lo, hi), SegmentHeader(at, at);
    assert data == h + (s1 + s2) == h + s1 + s2 == (h + s1) + s2 + [];
    FileHeaderReads(lo, 2, s1 + s2);
    SegmentHeaderReads(h, lo, hi, s2);
    SegmentHeaderReads(h + s1, at, at, []);
  }

  lemma OneSegmentPage(lo: nat, x: nat)
    requires lo % 0x1000 == 0
    ensures SegPage(Phdr(true, true, 0, lo, 0, 0x1000), x) <==> x == lo
  {
    if x % 0x1000 == 0 {
      Multiples(x, lo);
    }
  }

  lemma FirstAccepted(lo: nat)
    requires lo in {0x2000000, 0x8000_0000}
    ensures var ph := Phdr(true, true, 0, lo, 0, 0x1000);
      SegmentError(ph, 176).None? && EntryIn(ph, lo) && Down(lo) == lo && Up(lo + 0x1000) == lo + 0x1000
  {
  }

  lemma SecondAccepted(at: nat)
    requires at in {0x1001, 0x2000000, 0x8000_0000}
    ensures SegmentError(Phdr(true, true, 0, at, 0, 0), 176).None?
    ensures at == 0x1001 ==> Down(at) == 0x1000 && Up(at) == 0x2000
    ensures at != 0x1001 ==> Down(at) == at == Up(at)
  {
  }

  /** One page at `lo` and the empty segment: both accepted. */
  lemma TwoAccepted(phs: seq<Phdr>, lo: nat, at: nat)
    requires phs == [Phdr(true, true, 0, lo, 0, 0x1000), Phdr(true, true, 0, at, 0, 0)]
    requires lo in {0x2000000, 0x8000_0000} && at in {0x1001, lo}
    ensures Loadable(phs, 176, lo) && InScope(phs)
  {
    hide SegPage, SegmentError, EntryIn, Down, Up;
    FirstAccepted(lo);
    SecondAccepted(at);
    assert EntryIn(phs[0], lo);
    forall i, x: nat | 0 <= i < |phs| && SegPage(phs[i], x) ensures x < 0x80_0000_0000 {
      OneSegmentPage(lo, x);
      EmptySegmentPages(phs[1]);
    }
  }

  lemma TwoVisits(phs: seq<Phdr>, lo: nat, at: nat)
    requires phs == [Phdr(true, true, 0, lo, 0, 0x1000), Phdr(true, true, 0, at, 0, 0)]
    requires lo in {0x2000000, 0x8000_0000} && at in {0x1001, lo}
    ensures Visits(phs, 2) == if at == lo then [lo] else [lo, 0x1000]
  {
    hide Down, Up, Visit;
    FirstAccepted(lo);
    SecondAccepted(at);
    VisitOne([], lo);
    assert Visits(phs, 0) == [];
    assert Visits(phs, 1) == [lo];
    if at == 0x1001 {
      VisitOne([lo], 0x1000);
    } else {
      VisitEnd([lo], lo, lo);
    }
  }

  lemma VisitOne(seen: seq<nat>, v: nat)
    requires v !in seen
    ensures Visit(seen, v, v + 0x1000) == seen + [v]
  {
    VisitEnd(seen + [v], v + 0x1000, v + 0x1000);
  }

  /** `Load` may be called on image `data` and root `r`. */
  ghost predicate MayLoad(s: Sys, r: nat, pool: set<nat>, data: seq<byte>) {
    && Started(s.mem, s, r, pool) && HeaderError(data).None?
    && Loadable(Phdrs(data), |data|, EntryPoint(data)) && InScope(Phdrs(data))
  }

  lemma SmallMayLoad(lo: nat, at: nat)
    requires lo in {0x2000000, 0x8000_0000} && at in {0x1001, lo}
    ensures var data := TwoSegments(lo, lo + 0x1000, at);
      && MayLoad(SmallRoot(), 0x500, SMALL_POOL, data)
      && Visits(Phdrs(data), PhNum(data)) == if at == lo then [lo] else [lo, 0x1000]
  {
    hide Started, HeaderError, Loadable, InScope, Phdrs, SmallRoot, TwoSegments, EntryPoint, PhNum, Visits;
    TwoSegmentsRead(lo, lo + 0x1000, at);
    TwoAccepted(Phdrs(TwoSegments(lo, lo + 0x1000, at)), lo, at);
    TwoVisits(Phdrs(TwoSegments(lo, lo + 0x1000, at)), lo, at);
    SmallRootStarted();
  }

  /** The first page takes its frame and two tables at 0x80000000, or one at 0x2000000. */
  lemma SmallRootLeft(v: nat)
    requires v in {0x2000000, 0x8000_0000}
    ensures Left(SmallRoot(), 0x500, []) == 2 && Left(SmallRoot(), 0x500, [v]) == if v == 0x2000000 then 0 else -1
    ensures !IsScratch(Indices(v)) && Lookup(SmallRoot().mem, 0x500, Indices(v)) == None
  {
    hide SmallRoot, Lookup, Missing, Need, Grown, Building, NoGiants;
    var s := SmallRoot();
    SmallRootBuilding();
    PagePath(v);
    SmallRootLookup(Indices(v));
    CourseStart(s, 0x500, 1);
    LeftNext(s, s, 0x500, [], v);
    assert Addrs([]) + [v] == [v];
    NoNeed(s.mem, 0x500);
  }

  lemma NoNeed(b: Memory, r: nat)
    ensures Need(b, r, PathsOf([])) == {}
  {
  }

  /**
    An input on which rollback does not restore the bitmap: a page at 0x80000000 with two frames left. By its
    contract `Load` then fails for want of memory and leaves other frames free than before.
   */
  lemma FrameLost() returns (s: Sys, data: seq<byte>)
    ensures MayLoad(s, 0x500, SMALL_POOL, data)
    ensures forall free: set<nat>, cap: nat, res: Result<nat> ::
      cap > 0 && LoadFate(s, free, 0x500, cap, Visits(Phdrs(data), PhNum(data)), res) ==>
        res == Err(Oom) && free != s.free
  {
    hide MayLoad, Phdrs, SmallRoot, TwoSegments, PhNum, Visits, Left, Lookup, IsScratch, Indices, NothingDropped;
    s, data := SmallRoot(), TwoSegments(0x8000_0000, 0x8000_1000, 0x8000_0000);
    SmallMayLoad(0x8000_0000, 0x8000_0000);
    SmallRootLeft(0x8000_0000);
    var vs: seq<nat> := [0x8000_0000];
    assert vs[..0] == [] && vs[..0] + [vs[0]] == vs;
  }

  /**
    An accepted image whose empty second segment lies at 0x1001: by its contract `Load` fails there with a
    collision, and everything is as before.
   */
  lemma LowSegmentCollides() returns (s: Sys, data: seq<byte>)
    ensures MayLoad(s, 0x500, SMALL_POOL, data)
    ensures |Phdrs(data)| == 2 && Phdrs(data)[1] == Phdr(true, true, 0, 0x1001, 0, 0)
    ensures forall free: set<nat>, cap: nat, res: Result<nat> ::
      cap > 0 && LoadFate(s, free, 0x500, cap, Visits(Phdrs(data), PhNum(data)), res) ==>
        res == Err(MappingCollision) && free == s.free
  {
    hide MayLoad, Phdrs, SmallRoot, TwoSegments, PhNum, Visits, Fate, Restores, StopAt, HeaderError, EntryPoint;
    s, data := SmallRoot(), TwoSegments(0x2000000, 0x2001000, 0x1001);
    SmallMayLoad(0x2000000, 0x1001);
    TwoSegmentsRead(0x2000000, 0x2001000, 0x1001);
    forall free: set<nat>, cap: nat, res: Result<nat> |
      cap > 0 && LoadFate(s, free, 0x500, cap, Visits(Phdrs(data), PhNum(data)), res)
      ensures res == Err(MappingCollision) && free == s.free
    {
      LowStops(cap);
    }
  }

  lemma LowStops(cap: nat)
    requires cap > 0
    ensures var s, vs: seq<nat> := SmallRoot(), [0x2000000, 0x1000];
      && StopAt(s, 0x500, cap, vs, 0) == 1 && Fate(s, 0x500, cap, vs[..1], vs[1]) == Some(MappingCollision)
      && Restores(s, 0x500, cap, vs[..1], vs[1])
  {
    hide SmallRoot, Left, Lookup, IsScratch, Indices, NothingDropped, Stocked, InUser, PathsOf;
    var s, vs: seq<nat> := SmallRoot(), [0x2000000, 0x1000];
    SmallRootLeft(0x2000000);
    LowPath(0x1000);
    SmallRootLookup(Indices(0x1000));
    SmallRootStocked();
    assert vs[..0] == [] && vs[..0] + [vs[0]] == [0x2000000] == vs[..1];
    StockedKeeps(s.mem, 0x500, PathsOf(vs[..1]));
  }

  lemma SmallRootStocked()
    ensures Stocked(SmallRoot().mem, 0x500)
  {
    hide Live;
    var s := SmallRoot();
    SmallRootReads();
    forall m: Node | !m.Root? && !m.Leaf? && Live(s.mem, 0x500, m)
      ensures exists c: Node :: IsChild(c, m) && !c.Root? && SlotOf(s.mem, 0x500, c).flags.present
    {
      SmallRootLive(m);
      var c := if m == Pdpt then Pd(0) else Pt(0, 0);
      assert IsChild(c, m) && SlotOf(s.mem, 0x500, c).flags.present;
    }
  }

  // ----- The image with its stack -------------------------------------------------

  /** A fully built image that no process uses yet. */
  datatype ExecImage = ExecImage(root: Pml4Handle, entry: nat, userRsp: nat, stackLow: nat)

  /** One of the 16 stack pages below 0x2201000. */
  predicate StackPage(x: nat) {
    x % 0x1000 == 0 && 0x21F_1000 <= x <= 0x220_0000
  }

  /** Segment pages `ps` and `k` stack pages, the latter from the top down. */
  ghost predicate WithStack(m0: Memory, b: Memory, s: Sys, r: nat, pool: set<nat>, data: seq<byte>, phs: seq<Phdr>,
                            ps: seq<LoadedPage>, all: seq<LoadedPage>, k: nat)
  {
    && LoadState(m0, b, s, r, pool, all, {}) && Contents(data, phs, |phs|, 0, s.mem, ps) && PagesAre(phs, |phs|, 0, ps)
    && AllReach(s.mem, r, all) && |all| == |ps| + k && all[..|ps|] == ps
    && forall i :: 0 <= i < k ==> all[|ps| + i].vaddr == ELF_STACK_TOP_PAGE - i * 0x1000
  }

  lemma StackStep(m0: Memory, b: Memory, s: Sys, s': Sys, r: nat, pool: set<nat>, data: seq<byte>, phs: seq<Phdr>,
                  ps: seq<LoadedPage>, all: seq<LoadedPage>, k: nat, x: LoadedPage)
    requires WithStack(m0, b, s, r, pool, data, phs, ps, all, k) && k < 16 && x.vaddr == ELF_STACK_TOP_PAGE - k * 0x1000
    requires LoadState(m0, b, s', r, pool, all + [x], {})
    requires MapSlots(s.mem, s'.mem, r, Indices(x.vaddr)) && UserReaches(s'.mem, r, Indices(x.vaddr))
    requires forall a :: 0 <= a < |all| ==> Get(s'.mem, all[a].frame) == Get(s.mem, all[a].frame)
    ensures WithStack(m0, b, s', r, pool, data, phs, ps, all + [x], k + 1)
  {
    hide LoadState, Contents, PagesAre, AllReach, NoGiants, MapSlots, UserReaches, Indices;
    StateGiants(m0, b, s', r, pool, all + [x], {});
    ReachMore(m0, b, s, s', r, pool, all, {}, x);
    forall a | 0 <= a < |ps| ensures Get(s'.mem, ps[a].frame) == Get(s.mem, ps[a].frame) {
      assert all[..|ps|][a] == all[a];
    }
    Kept(data, phs, |phs|, 0, s.mem, s'.mem, ps);
  }

  /** The stack pages, from the top down; any failure is the caller's to clean up. */
  method MapStack(m: Machine, r: nat, ghost m0: Memory, ghost b: Memory, ghost pool: set<nat>, ghost data: seq<byte>,
                  ghost phs: seq<Phdr>, ghost ps: seq<LoadedPage>, ghost own: map<nat, Node>)
    returns (err: Option<ElfError>, ghost own': map<nat, Node>, ghost all: seq<LoadedPage>)
    requires m.Valid() && m.pmm.Manages(pool) && ImageLoaded(m0, b, m.S(own), r, pool, data, phs, ps)
    requires AllReach(m.mem, r, ps)
    modifies m, m.pmm
    ensures m.Valid() && m.cr3 == old(m.cr3) && m.pmm.Tail() == old(m.pmm.Tail())
    ensures LoadState(m0, b, m.S(own'), r, pool, all, {})
    ensures err.None? ==> WithStack(m0, b, m.S(own'), r, pool, data, phs, ps, all, 16)
    ensures err.Some? ==> err.value in {MappingCollision, Oom}
  {
    hide LoadState, Contents, PagesAre, Lookup, Indices, AllReach, MapSlots, UserReaches, Mapped, AttemptLeft;
    own', all := own, ps;
    var k := 0;
    var page := ELF_STACK_TOP_PAGE;
    while k < ELF_STACK_PAGES
      invariant 0 <= k <= 16 && page == ELF_STACK_TOP_PAGE - k * 0x1000
      invariant m.Valid() && m.cr3 == old(m.cr3) && m.pmm.Tail() == old(m.pmm.Tail())
      invariant WithStack(m0, b, m.S(own'), r, pool, data, phs, ps, all, k)
    {
      if Lookup(m.mem, r, Indices(page)).Some? {
        return Some(MappingCollision), own', all;
      }
      ghost var s := m.S(own');
      var frame;
      frame, own' := MapFreshPage(m, r, page, m0, b, pool, all, own');
      if frame.None? {
        return Some(Oom), own', all;
      }
      ghost var x := LoadedPage(page, frame.value);
      StackStep(m0, b, s, m.S(own'), r, pool, data, phs, ps, all, k, x);
      all := all + [x];
      page := page - 0x1000;
      k := k + 1;
    }
    err := None;
  }

  /**
    A built image: the new root's user range maps the segment pages and the stack pages, and
    nothing else; each segment page holds the bytes the program headers promise.
   */
  ghost predicate ImageBuilt(m0: Memory, b: Memory, s: Sys, pool: set<nat>, data: seq<byte>, img: ExecImage,
                             ps: seq<LoadedPage>, all: seq<LoadedPage>)
  {
    && HeaderError(data).None? && Loadable(Phdrs(data), |data|, EntryPoint(data)) && img.entry == EntryPoint(data)
    && img.userRsp == 0x2201000 && img.stackLow == 0x21F0000 && img.root.ownsUserLeaves
    && UserEmpty(b, img.root.phys)
    && WithStack(m0, b, s, img.root.phys, pool, data, Phdrs(data), ps, all, 16)
  }

  /**
    Build an ELF image and its stack under a new root. On failure the allocator's bitmap, the
    record arena and CR3 are exactly as before, and so is every frame that was in use.
   */
  method BuildExecImage(m: Machine, lp: LoadedPages, data: seq<byte>)
    returns (res: Result<ExecImage>, ghost own: map<nat, Node>, ghost b: Memory, ghost ps: seq<LoadedPage>,
             ghost all: seq<LoadedPage>)
    requires m.Valid() && m.pmm.Manages(m.pmm.Free()) && lp.Valid() && lp.chain == []
    requires Closed(m.mem, m.cr3, m.pmm.Free()) && NoGiants(m.mem, m.cr3) && LowMapped(m.mem, m.cr3)
    requires HeaderError(data).None? && Loadable(Phdrs(data), |data|, EntryPoint(data)) ==> InScope(Phdrs(data))
    modifies m, m.pmm, lp
    ensures m.Valid() && m.cr3 == old(m.cr3) && lp.Valid() && lp.chain == [] && lp.freeMask == old(lp.freeMask)
    ensures AgreeExcept(old(m.mem), m.mem, old(m.pmm.Free()))
    ensures res.Err? ==> m.pmm.bits == old(m.pmm.bits) && BuildError(data, res.error)
    ensures res.Loaded? ==> ImageBuilt(old(m.mem), b, m.S(own), old(m.pmm.Free()), data, res.value, ps, all)
  {
    hide Closed, Building, ClonedRoot, LoadState, Loadable, HeaderError, FirstError, Phdrs, InScope, LoadOutcome,
         WithStack, ImageLoaded, UserEmpty,
         NoGiants, Space, CreateRefused, LoadedPages.Valid, LowMapped, LoadFate;
    ghost var m0, pool, bits0 := m.mem, m.pmm.Free(), m.pmm.bits;
    var handle;
    handle, own := CreatePml4(m, false, map[]);
    b, ps, all := m.mem, [], [];
    if handle.None? {
      SameBitmap(bits0, m.pmm.bits, m.pmm.memoryStart, m.pmm.totalPages);
      return Err(Oom), own, b, ps, all;
    }
    var r := handle.value.phys;
    RootReadyToLoad(m0, m.cr3, m.S(own), r, pool);
    LowKept(m0, m.cr3, m.mem, r, pool);
    var entry;
    entry, own, ps := Load(m, lp, r, data, m0, pool, own);
    if entry.Err? {
      OutcomeState(m0, b, m.S(own), r, pool, data, entry, ps);
      Discard(m, handle.value, m0, b, pool, [], own, bits0);
      return Err(entry.error), own, b, ps, all;
    }
    OutcomeLoaded(m0, b, m.S(own), r, pool, data, entry, ps);
    var err;
    err, own, all := MapStack(m, r, m0, b, pool, data, Phdrs(data), ps, own);
    StateAgrees(m0, b, m.S(own), r, pool, all);
    if err.Some? {
      assert BuildError(data, err.value);
      Discard(m, handle.value, m0, b, pool, all, own, bits0);
      return Err(err.value), own, b, ps, all;
    }
    res := Loaded(ExecImage(handle.value, entry.value, ELF_STACK_TOP_PAGE + 0x1000, ELF_STACK_LOW));
  }

  /** A new root has the kernel's low map. */
  lemma LowKept(m0: Memory, src: nat, mem: Memory, r: nat, pool: set<nat>)
    requires ClonedRoot(m0, src, mem, r, pool, false) && Closed(m0, src, pool) && AgreeExcept(m0, mem, pool)
    requires LowMapped(m0, src) && NoGiants(m0, src)
    ensures LowMapped(mem, r)
  {
    hide ClonedRoot, Closed, AgreeExcept, Lookup, Giant, InUser;
    forall p: Path | p.l4 == 0 && !InUser(p.l3, p.l2) ensures Lookup(mem, r, p).Some? {
      KernelPage(m0, src, mem, r, pool, false, p);
    }
  }

  /**
    The errors a build may end in: what the checks say of the image, or, for a loadable one, a lack of memory or
    records or a collision.
   */
  ghost predicate BuildError(data: seq<byte>, e: ElfError) {
    || e == Oom
    || (if HeaderError(data).Some? then HeaderError(data) == Some(e)
        else if Loadable(Phdrs(data), |data|, EntryPoint(data)) then e in {MetadataOom, MappingCollision}
        else FirstError(Phdrs(data), |data|, EntryPoint(data), e))
  }

  lemma OutcomeState(m0: Memory, b: Memory, s: Sys, r: nat, pool: set<nat>, data: seq<byte>, res: Result<nat>,
                     ps: seq<LoadedPage>)
    requires LoadOutcome(m0, b, s, r, pool, data, res, ps) && res.Err?
    ensures LoadState(m0, b, s, r, pool, [], {}) && BuildError(data, res.error)
  {
    hide LoadState, Loadable, FirstError, Phdrs, HeaderError;
  }

  lemma OutcomeLoaded(m0: Memory, b: Memory, s: Sys, r: nat, pool: set<nat>, data: seq<byte>, res: Result<nat>,
                      ps: seq<LoadedPage>)
    requires LoadOutcome(m0, b, s, r, pool, data, res, ps) && res.Loaded?
    ensures HeaderError(data).None? && |data| >= 64 && Loadable(Phdrs(data), |data|, EntryPoint(data))
    ensures res.value == EntryPoint(data)
    ensures ImageLoaded(m0, b, s, r, pool, data, Phdrs(data), ps) && AllReach(s.mem, r, ps)
  {
    hide ImageLoaded, Loadable, Phdrs, AllReach;
  }

  // ----- What a built image means -------------------------------------------------

  ghost predicate SegmentPageOf(phs: seq<Phdr>, x: nat) {
    exists i :: 0 <= i < |phs| && SegPage(phs[i], x)
  }

  lemma StackIndex(x: nat) returns (i: nat)
    requires StackPage(x)
    ensures i < 16 && ELF_STACK_TOP_PAGE - i * 0x1000 == x
  {
    i := (ELF_STACK_TOP_PAGE - x) / 0x1000;
  }

  /** The pages recorded are the segments' and, after them, the stack's, with none in both. */
  lemma AllPages(m0: Memory, b: Memory, s: Sys, r: nat, pool: set<nat>, data: seq<byte>, phs: seq<Phdr>,
                 ps: seq<LoadedPage>, all: seq<LoadedPage>, x: nat)
    requires WithStack(m0, b, s, r, pool, data, phs, ps, all, 16)
    ensures HasPage(all, x) <==> SegmentPageOf(phs, x) || StackPage(x)
    ensures HasPage(ps, x) <==> SegmentPageOf(phs, x)
    ensures !(SegmentPageOf(phs, x) && StackPage(x))
  {
    hide LoadState, Contents, AllReach;
    assert HasPage(ps, x) <==> Reached(phs, |phs|, 0, x);
    StateDistinct(m0, b, s, r, pool, all);
    if HasPage(ps, x) {
      var a :| 0 <= a < |ps| && ps[a].vaddr == x;
      assert all[..|ps|][a] == all[a];
    }
    if StackPage(x) {
      var i := StackIndex(x);
      assert all[|ps| + i].vaddr == x;
    }
    if HasPage(all, x) {
      var a :| 0 <= a < |all| && all[a].vaddr == x;
      if a < |ps| {
        assert all[..|ps|][a] == ps[a];
      } else {
        assert all[|ps| + (a - |ps|)].vaddr == ELF_STACK_TOP_PAGE - (a - |ps|) * 0x1000;
      }
    }
  }

  /**
    ELF load meaning, for any two user pages x and y of the new root: x is mapped exactly when a
    segment rounds out to it or it is one of the 16 stack pages, never both; it is read-write, programs reach
    it, on a frame that was free and that no other page shares; and every byte of a segment page is the
    file byte of the last PT_LOAD covering it, or 0.
   */
  lemma ElfImageMeaning(m0: Memory, b: Memory, s: Sys, pool: set<nat>, data: seq<byte>, img: ExecImage,
                        ps: seq<LoadedPage>, all: seq<LoadedPage>, x: nat, y: nat)
    requires ImageBuilt(m0, b, s, pool, data, img, ps, all) && PageOk(x) && PageOk(y)
    ensures var r, phs := img.root.phys, Phdrs(data);
      && (Lookup(s.mem, r, Indices(x)).Some? <==> SegmentPageOf(phs, x) || StackPage(x))
      && !(SegmentPageOf(phs, x) && StackPage(x))
      && (Lookup(s.mem, r, Indices(x)).Some? ==>
          var f := Lookup(s.mem, r, Indices(x)).value.frame;
          && Lookup(s.mem, r, Indices(x)).value.flags == PAGE_USER_RW
          && Lookup(s.mem, r, Indices(x)).value.flags.writable && UserReaches(s.mem, r, Indices(x))
          && f in pool && f !in s.free
          && (x != y && Lookup(s.mem, r, Indices(y)).Some? ==> Lookup(s.mem, r, Indices(y)).value.frame != f)
          && (SegmentPageOf(phs, x) ==> HoldsImage(data, s.mem, f, x)))
  {
    hide LoadState, Contents, PagesAre, Lookup, Indices, Loadable, UserEmpty, HoldsImage, Phdrs, HeaderError,
         SegmentPageOf, UserReaches;
    var r, phs := img.root.phys, Phdrs(data);
    AllPages(m0, b, s, r, pool, data, phs, ps, all, x);
    AllPages(m0, b, s, r, pool, data, phs, ps, all, y);
    RecordedPage(m0, b, s, r, pool, all, x);
    RecordedPage(m0, b, s, r, pool, all, y);
    if SegmentPageOf(phs, x) {
      var a :| 0 <= a < |ps| && ps[a].vaddr == x;
      assert all[..|ps|][a] == all[a];
      SegmentBytes(data, s.mem, ps, a);
    }
  }

  /**
    A loaded program reads its file: where the file has PT_LOAD header `h`, and no later one has a file byte for
    address `x`, the address is mapped for programs, a file byte of `h` for it is there, and past its file bytes it
    reads 0 unless an earlier header has a file byte for it.
   */
  lemma ProgramReadsFile(m0: Memory, b: Memory, s: Sys, pool: set<nat>, data: seq<byte>, img: ExecImage,
                         ps: seq<LoadedPage>, all: seq<LoadedPage>, i: nat, h: Elf64Phdr, x: nat)
    requires ImageBuilt(m0, b, s, pool, data, img, ps, all)
    requires HeaderAt(data, i, h) && h.pType == 1 && h.vaddr <= x < h.vaddr + h.memsz
    requires NoFileByte(data, i + 1, PhNum(data), x)
    ensures var at := Lookup(s.mem, img.root.phys, Indices(x));
      && at.Some? && UserReaches(s.mem, img.root.phys, Indices(x))
      && (x < h.vaddr + h.filesz ==>
          && h.offset + (x - h.vaddr) < |data|
          && Bytes(s.mem, at.value.frame)[x % 0x1000] == data[h.offset + (x - h.vaddr)])
      && (x >= h.vaddr + h.filesz && NoFileByte(data, 0, i, x) ==>
          Bytes(s.mem, at.value.frame)[x % 0x1000] == 0)
  {
    hide WithStack, Lookup, Indices, Loadable, UserEmpty, Phdrs, HeaderError, UserReaches, EntryPoint,
         PhdrBytes, HasBytes, Want, FilesInside, PhNum, PhOff, PhEntSize;
    PhdrCount(data);
    PhdrsRead(data, i, h);
    var phs, v, n := Phdrs(data), Down(x), PhNum(data);
    SegmentReached(m0, b, s, pool, data, img, ps, all, i, x);
    assert v + (x - v) == x && x - v == x % 0x1000;
    if x < h.vaddr + h.filesz {
      WantIsLast(data, phs, n, x, i + 1);
      LastInside(data, phs, n, i);
    } else if NoFileByte(data, 0, i, x) {
      WantIsLast(data, phs, n, x, 0);
    }
  }

  /** An address of a segment is mapped, for programs, on a page that holds the image. */
  lemma SegmentReached(m0: Memory, b: Memory, s: Sys, pool: set<nat>, data: seq<byte>, img: ExecImage,
                       ps: seq<LoadedPage>, all: seq<LoadedPage>, i: nat, x: nat)
    requires ImageBuilt(m0, b, s, pool, data, img, ps, all) && i < |Phdrs(data)| && Phdrs(data)[i].load
    requires Phdrs(data)[i].vaddr <= x < Phdrs(data)[i].vaddr + Phdrs(data)[i].memsz
    ensures var at := Lookup(s.mem, img.root.phys, Indices(x));
      && at.Some? && UserReaches(s.mem, img.root.phys, Indices(x)) && HoldsImage(data, s.mem, at.value.frame, Down(x))
  {
    hide LoadState, Contents, PagesAre, Lookup, Indices, Loadable, UserEmpty, Phdrs, HeaderError, UserReaches, AllReach,
         HoldsImage, EntryPoint;
    var phs, v := Phdrs(data), Down(x);
    HeldPage(phs[i], x);
    assert SegmentPageOf(phs, v);
    AllPages(m0, b, s, img.root.phys, pool, data, phs, ps, all, v);
    RecordedOk(m0, b, s, img.root.phys, pool, all, v);
    ElfImageMeaning(m0, b, s, pool, data, img, ps, all, v, v);
    SamePage(v, x - v);
    assert v + (x - v) == x;
  }

  /** The entry point of a built image lies in a segment the file marks executable, on a page programs reach. */
  lemma EntryIsCode(m0: Memory, b: Memory, s: Sys, pool: set<nat>, data: seq<byte>, img: ExecImage,
                    ps: seq<LoadedPage>, all: seq<LoadedPage>) returns (i: nat, h: Elf64Phdr)
    requires ImageBuilt(m0, b, s, pool, data, img, ps, all)
    ensures HeaderAt(data, i, h) && h.pType == 1 && h.flags % 2 == 1 && h.vaddr <= img.entry < h.vaddr + h.memsz
    ensures UserReaches(s.mem, img.root.phys, Indices(img.entry))
  {
    hide WithStack, Lookup, Indices, UserEmpty, Phdrs, HeaderError, UserReaches, PhdrBytes, HasBytes, PhNum, PhOff,
         PhEntSize, HoldsImage, Loadable, EntryPoint;
    PhdrCount(data);
    i := EntrySegment(data);
    h := PhdrsAre(data, i);
    SegmentReached(m0, b, s, pool, data, img, ps, all, i, img.entry);
  }

  lemma EntrySegment(data: seq<byte>) returns (i: nat)
    requires HeaderError(data).None? && |data| >= 64 && Loadable(Phdrs(data), |data|, EntryPoint(data))
    ensures i < |Phdrs(data)| && EntryIn(Phdrs(data)[i], EntryPoint(data))
  {
    hide HeaderError, EntryPoint, Phdrs, SegmentError, EntryIn;
    i :| 0 <= i < |Phdrs(data)| && EntryIn(Phdrs(data)[i], EntryPoint(data));
  }

  lemma PhdrCount(data: seq<byte>)
    requires HeaderError(data).None?
    ensures |Phdrs(data)| == PhNum(data) && |data| >= 64
  {
  }

  lemma LastInside(data: seq<byte>, phs: seq<Phdr>, n: nat, i: nat)
    requires FilesInside(phs, |data|) && i < n <= |phs| && phs[i].load && phs[i].filesz > 0
    ensures phs[i].offset + phs[i].filesz <= |data|
  {
  }

  lemma HeldPage(ph: Phdr, x: nat)
    requires ph.load && ph.vaddr <= x < ph.vaddr + ph.memsz
    ensures SegPage(ph, Down(x))
  {
    Multiples(Down(ph.vaddr), Down(x));
    Multiples(Down(x), Up(ph.vaddr + ph.memsz));
  }

  lemma RecordedOk(m0: Memory, b: Memory, s: Sys, r: nat, pool: set<nat>, all: seq<LoadedPage>, v: nat)
    requires LoadState(m0, b, s, r, pool, all, {}) && HasPage(all, v)
    ensures PageOk(v)
  {
    hide Building, Lookup, Indices, SameLookups, NoGiants;
    var a :| 0 <= a < |all| && all[a].vaddr == v;
    assert Tracked(b, s.mem, r, all[a]);
  }

  /** Frame `f` holds the image's bytes for page `x`. */
  ghost predicate HoldsImage(data: seq<byte>, mem: Memory, f: nat, x: nat) {
    && HeaderError(data).None? && FilesInside(Phdrs(data), |data|) && Get(mem, f).DataFrame?
    && forall o :: 0 <= o < 0x1000 ==> Bytes(mem, f)[o] == Want(data, Phdrs(data), PhNum(data), x + o)
  }

  lemma SegmentBytes(data: seq<byte>, mem: Memory, ps: seq<LoadedPage>, a: nat)
    requires HeaderError(data).None? && Contents(data, Phdrs(data), |Phdrs(data)|, 0, mem, ps) && a < |ps|
    ensures HoldsImage(data, mem, ps[a].frame, ps[a].vaddr)
  {
    assert Shows(data, Phdrs(data), |Phdrs(data)|, 0, mem, ps[a]);
  }
}
